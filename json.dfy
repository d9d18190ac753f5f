/**
 * Decoded JSON values as the request handlers receive them, and the dict
 * operations the validators use on citizen records.
 */
module Json {

  datatype Option<+T> = None | Some(value: T)

  /** The outcome of a check that raises or returns nothing. */
  datatype Outcome<+E> = Pass | Fail(error: E)

  /** A value, or the exception that stopped the computation. */
  datatype Result<+T, +E> = Ok(value: T) | Err(error: E)

  /** A JSON value after decoding: Python's None, bool, int, float, str, list, dict. */
  datatype Value =
    | Null
    | Bool(b: bool)
    | Int(i: int)
    | Float(f: real)
    | Str(s: string)
    | List(items: seq<Value>)
    | Object(members: seq<(string, Value)>)

  /** A dict cannot hold a key twice. */
  predicate DistinctKeys(r: seq<(string, Value)>) {
    forall i, j :: 0 <= i < j < |r| ==> r[i].0 != r[j].0
  }

  /** A JSON object as a Python dict: its items in insertion order, keys distinct. */
  type Record = r: seq<(string, Value)> | DistinctKeys(r)

  predicate HasKey(r: Record, k: string) {
    exists i :: 0 <= i < |r| && r[i].0 == k
  }

  /** `r[k]`, or None when the key is absent. */
  function Lookup(r: seq<(string, Value)>, k: string): (v: Option<Value>)
    ensures v.Some? <==> exists i :: 0 <= i < |r| && r[i].0 == k
    ensures v.Some? ==> exists i :: 0 <= i < |r| && r[i] == (k, v.value)
  {
    if |r| == 0 then None
    else if r[0].0 == k then Some(r[0].1)
    else
      var v := Lookup(r[1..], k);
      assert forall i :: 1 <= i < |r| ==> r[i] == r[1..][i - 1];
      v
  }

  /** In a dict the value found at a key's position is the value of that key. */
  lemma {:induction false} LookupAt(r: Record, i: nat)
    requires i < |r|
    ensures Lookup(r, r[i].0) == Some(r[i].1)
  {
    if i > 0 {
      var t: Record := r[1..];
      LookupAt(t, i - 1);
    }
  }

  /** isinstance(v, int): Python's bool is a subclass of int. */
  predicate IsPyInt(v: Value) {
    v.Int? || v.Bool?
  }

  /** The integer a Python int or bool stands for (True == 1, False == 0). */
  function IntOf(v: Value): int
    requires IsPyInt(v)
  {
    if v.Int? then v.i else if v.b then 1 else 0
  }
}
