/**
 * The storage the request handlers of citizens/api.py talk to: an id counter,
 * the imports (import id to its citizen records, in insertion order), and the
 * log of calls made on it, so that the handlers' contracts can say which
 * calls they issue and in what order. Citizens are found by their
 * citizen_id, and an update applies MongoDB's `$set` to the first match.
 */
module Store {
  import opened Json

  /** A call on the storage, with the arguments that matter. */
  datatype Call =
    | GenerateImportIdCall
    | NewImportCall(importId: int, count: nat)
    | GetCitizensCall(importId: int)
    | GetOneCitizenCall(importId: int, query: Value)
    | UpdateCitizenCall(importId: int, citizenId: int, data: Record)
  {
    /** A call that only reads. */
    predicate IsRead() {
      GetCitizensCall? || GetOneCitizenCall?
    }
  }

  /** `CitizenNotFoundError`, and `ImportNotFound` for an import never stored. */
  datatype StorageError = CitizenNotFound | ImportNotFound

  /** The record's citizen_id is the integer id. */
  predicate HasId(r: Record, id: int) {
    Lookup(r, "citizen_id").Some? && IsPyInt(Lookup(r, "citizen_id").value)
    && IntOf(Lookup(r, "citizen_id").value) == id
  }

  /** The position of the first record whose citizen_id is id. */
  function FindFirst(rs: seq<Record>, id: int): (k: Option<nat>)
    ensures k.Some? ==> k.value < |rs| && HasId(rs[k.value], id)
    ensures k.Some? ==> forall j :: 0 <= j < k.value ==> !HasId(rs[j], id)
    ensures k.None? <==> forall j :: 0 <= j < |rs| ==> !HasId(rs[j], id)
  {
    if |rs| == 0 then None
    else if HasId(rs[0], id) then Some(0)
    else match FindFirst(rs[1..], id)
      case None => None
      case Some(k) => Some(k + 1)
  }

  /** The record a query `{'citizen_id': v}` finds; a value that is no integer finds nothing. */
  function FindByValue(rs: seq<Record>, v: Value): Result<Record, StorageError> {
    if !IsPyInt(v) then Err(CitizenNotFound)
    else match FindFirst(rs, IntOf(v))
      case None => Err(CitizenNotFound)
      case Some(k) => Ok(rs[k])
  }

  /** A query finds a record iff it is an integer some record has as its id, and then finds such a record. */
  lemma FindByValueFinds(rs: seq<Record>, v: Value)
    ensures FindByValue(rs, v).Ok? <==> IsPyInt(v) && exists j :: 0 <= j < |rs| && HasId(rs[j], IntOf(v))
    ensures FindByValue(rs, v).Ok? ==> FindByValue(rs, v).value in rs && HasId(FindByValue(rs, v).value, IntOf(v))
  {
  }

  // ---------------------------------------------------------------------------
  // `$set`

  /** The position of key k in r. */
  function KeyIndex(r: Record, k: string): (i: Option<nat>)
    ensures i.Some? ==> i.value < |r| && r[i.value].0 == k
    ensures i.None? <==> !HasKey(r, k)
  {
    if |r| == 0 then None
    else if r[0].0 == k then Some(0)
    else
      var t: Record := r[1..];
      assert forall j :: 1 <= j < |r| ==> r[j] == t[j - 1];
      match KeyIndex(t, k)
      case None => None
      case Some(j) => Some(j + 1)
  }

  /** `$set` of one field: an existing key keeps its place, a new one goes last. */
  function SetField(r: Record, k: string, v: Value): Record {
    match KeyIndex(r, k)
    case Some(i) => r[i := (k, v)]
    case None => r + [(k, v)]
  }

  /** `{'$set': data}` applied to a stored document. */
  function SetFields(r: Record, data: Record): Record
    decreases |data|
  {
    if |data| == 0 then r
    else
      var rest: Record := data[1..];
      SetFields(SetField(r, data[0].0, data[0].1), rest)
  }

  /** In a record, `r[k]` is x exactly when the item (k, x) is there. */
  lemma LookupIff(r: Record, k: string, x: Value)
    ensures Lookup(r, k) == Some(x) <==> exists i :: 0 <= i < |r| && r[i] == (k, x)
  {
    if exists i :: 0 <= i < |r| && r[i] == (k, x) {
      var i :| 0 <= i < |r| && r[i] == (k, x);
      LookupAt(r, i);
    }
  }

  lemma SetFieldLookup(r: Record, k: string, v: Value, k': string)
    ensures Lookup(SetField(r, k, v), k') == if k' == k then Some(v) else Lookup(r, k')
  {
    var m := SetField(r, k, v);
    SetFieldKeys(r, k, v);
    if k' == k {
      LookupIff(m, k, v);
    } else {
      if Lookup(m, k').Some? {
        var x := Lookup(m, k').value;
        LookupIff(m, k', x);
        LookupIff(r, k', x);
      }
      if Lookup(r, k').Some? {
        var x := Lookup(r, k').value;
        LookupIff(m, k', x);
        LookupIff(r, k', x);
      }
    }
  }

  /** `$set` of one field: the item (k, v) is there, and every other item is as it was. */
  lemma SetFieldKeys(r: Record, k: string, v: Value)
    ensures |r| <= |SetField(r, k, v)|
    ensures forall i :: 0 <= i < |r| ==> SetField(r, k, v)[i].0 == r[i].0
    ensures exists i :: 0 <= i < |SetField(r, k, v)| && SetField(r, k, v)[i] == (k, v)
    ensures forall k', x :: k' != k ==>
      ((exists i :: 0 <= i < |SetField(r, k, v)| && SetField(r, k, v)[i] == (k', x))
       <==> (exists i :: 0 <= i < |r| && r[i] == (k', x)))
    ensures forall k' :: HasKey(SetField(r, k, v), k') <==> HasKey(r, k') || k' == k
  {
    var m := SetField(r, k, v);
    if KeyIndex(r, k).Some? {
      var j := KeyIndex(r, k).value;
      assert m[j] == (k, v);
      assert forall i :: 0 <= i < |r| && i != j ==> m[i] == r[i];
    } else {
      assert m[|r|] == (k, v);
      assert forall i :: 0 <= i < |r| ==> m[i] == r[i];
    }
  }

  /** After `$set`, a key has data's value when data has the key, and its old value otherwise. */
  lemma {:induction false} SetFieldsLookup(r: Record, data: Record, k: string)
    ensures Lookup(SetFields(r, data), k) == if HasKey(data, k) then Lookup(data, k) else Lookup(r, k)
    decreases |data|
  {
    if |data| > 0 {
      var rest: Record := data[1..];
      var (k0, v0) := data[0];
      SetFieldsLookup(SetField(r, k0, v0), rest, k);
      SetFieldLookup(r, k0, v0, k);
      assert forall j :: 1 <= j < |data| ==> data[j] == rest[j - 1];
      if k == k0 {
        assert !HasKey(rest, k);
      }
    }
  }

  /** `$set` keeps the stored fields in their places and adds only data's new keys. */
  lemma {:induction false} SetFieldsKeys(r: Record, data: Record)
    ensures |r| <= |SetFields(r, data)|
    ensures forall i :: 0 <= i < |r| ==> SetFields(r, data)[i].0 == r[i].0
    ensures forall k :: HasKey(SetFields(r, data), k) <==> HasKey(r, k) || HasKey(data, k)
    decreases |data|
  {
    if |data| > 0 {
      var rest: Record := data[1..];
      var m := SetField(r, data[0].0, data[0].1);
      SetFieldKeys(r, data[0].0, data[0].1);
      SetFieldsKeys(m, rest);
      assert forall k :: HasKey(data, k) <==> k == data[0].0 || HasKey(rest, k) by {
        assert forall j :: 1 <= j < |data| ==> data[j] == rest[j - 1];
        forall k | HasKey(rest, k) ensures HasKey(data, k) {
          var j :| 0 <= j < |rest| && rest[j].0 == k;
          assert data[j + 1] == rest[j];
        }
      }
    }
  }

  /** Setting the same fields twice changes nothing more. */
  lemma SetFieldsIdempotent(r: Record, data: Record, k: string)
    ensures Lookup(SetFields(SetFields(r, data), data), k) == Lookup(SetFields(r, data), k)
  {
    SetFieldsLookup(SetFields(r, data), data, k);
    SetFieldsLookup(r, data, k);
  }

  // ---------------------------------------------------------------------------
  // The storage

  class Storage {
    /** The `counters` document's `counter` for `import_id`. */
    var counter: int
    var imports: map<int, seq<Record>>
    /** Every call made so far, oldest first. */
    var log: seq<Call>

    ghost predicate Valid()
      reads this
    {
      counter >= 0
    }

    constructor()
      ensures Valid() && counter == 0 && imports == map[] && log == []
    {
      counter := 0;
      imports := map[];
      log := [];
    }

    /** The records of an import; an import never written to has none. */
    function Citizens(importId: int): seq<Record>
      reads this
    {
      if importId in imports then imports[importId] else []
    }

    /** `generate_import_id`: increment the counter and return it. */
    method GenerateImportId() returns (id: int)
      requires Valid()
      modifies this
      ensures Valid() && id > 0
      ensures id == old(counter) + 1 && counter == id
      ensures imports == old(imports) && log == old(log) + [GenerateImportIdCall]
    {
      counter := counter + 1;
      id := counter;
      log := log + [GenerateImportIdCall];
    }

    /** `new_import(import_id, data)`: `insert_many` into the import's collection. */
    method NewImport(importId: int, data: seq<Record>)
      requires Valid()
      modifies this
      ensures Valid() && counter == old(counter)
      ensures imports == old(imports)[importId := old(Citizens(importId)) + data]
      ensures log == old(log) + [NewImportCall(importId, |data|)]
    {
      imports := imports[importId := Citizens(importId) + data];
      log := log + [NewImportCall(importId, |data|)];
    }

    /**
     * `get_citizens(import_id)`: every record of the import, in storage order,
     * or `ImportNotFound` when no import has that id.
     */
    method GetCitizens(importId: int) returns (r: Result<seq<Record>, StorageError>)
      requires Valid()
      modifies this
      ensures Valid() && (r.Ok? <==> importId in imports)
      ensures r.Ok? ==> r.value == Citizens(importId)
      ensures r.Err? ==> r.error == ImportNotFound
      ensures counter == old(counter) && imports == old(imports)
      ensures log == old(log) + [GetCitizensCall(importId)]
    {
      if importId in imports {
        r := Ok(imports[importId]);
      } else {
        r := Err(ImportNotFound);
      }
      log := log + [GetCitizensCall(importId)];
    }

    /** `get_one_citizen(import_id, citizen_id)`: the matching record, or `CitizenNotFoundError`. */
    method GetOneCitizen(importId: int, citizenId: Value) returns (r: Result<Record, StorageError>)
      requires Valid()
      modifies this
      ensures Valid() && r == FindByValue(Citizens(importId), citizenId)
      ensures counter == old(counter) && imports == old(imports)
      ensures log == old(log) + [GetOneCitizenCall(importId, citizenId)]
    {
      r := FindByValue(Citizens(importId), citizenId);
      log := log + [GetOneCitizenCall(importId, citizenId)];
    }

    /**
     * `update_citizen(import_id, citizen_id, data)`: `$set` on the first
     * record with that citizen_id; the updated record, or None when none matches.
     */
    method UpdateCitizen(importId: int, citizenId: int, data: Record) returns (r: Option<Record>)
      requires Valid()
      modifies this
      ensures Valid() && counter == old(counter)
      ensures log == old(log) + [UpdateCitizenCall(importId, citizenId, data)]
      ensures var cs := old(Citizens(importId));
        match FindFirst(cs, citizenId)
        case None => r == None && imports == old(imports)
        case Some(k) =>
          && r == Some(SetFields(cs[k], data))
          && imports == old(imports)[importId := cs[k := SetFields(cs[k], data)]]
    {
      var cs := Citizens(importId);
      var k := FindFirst(cs, citizenId);
      if k.Some? {
        var updated := SetFields(cs[k.value], data);
        imports := imports[importId := cs[k.value := updated]];
        r := Some(updated);
      } else {
        r := None;
      }
      log := log + [UpdateCitizenCall(importId, citizenId, data)];
    }
  }
}
