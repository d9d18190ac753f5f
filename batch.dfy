/**
 * `validate_citizens` (citizens/schema.py:126-155): the batch check of an
 * import. One pass validates each record and rejects a repeated citizen_id
 * while collecting the relatives not seen so far; then the batch fails with
 * the number of relatives that never turned up; then every relative link must
 * be answered by the relative's own list.
 */
module Batch {
  import opened Json
  import opened Dates
  import opened Fields
  import opened Schema

  /** Why `validate_citizens` raised `DataValidationError`. */
  datatype BatchError =
    | InvalidRecord(error: SchemaError)   // raised by `schema.validate(citizen)`
    | NonUniqueCitizenId(cid: int)        // 'Non unique citizen_id `cid`'
    | NonExistentRelatives(count: nat)    // 'There are count non existent relatives'
    | InvalidRelatives(cid: int)          // 'Invalid relatives for `cid`'

  // ---------------------------------------------------------------------------
  // Reading a validated record

  /** `citizen['citizen_id']` is an int and `citizen['relatives']` a list of ints. */
  predicate IsCitizen(r: Record) {
    && Lookup(r, "citizen_id").Some? && IsPyInt(Lookup(r, "citizen_id").value)
    && Lookup(r, "relatives").Some? && Lookup(r, "relatives").value.List?
    && forall x :: x in Lookup(r, "relatives").value.items ==> IsPyInt(x)
  }

  function CidOf(r: Record): int
    requires IsCitizen(r)
  {
    IntOf(Lookup(r, "citizen_id").value)
  }

  function RelativesOf(r: Record): (rs: seq<int>)
    requires IsCitizen(r)
    ensures |rs| == |Lookup(r, "relatives").value.items|
    ensures forall i :: 0 <= i < |rs| ==> rs[i] == IntOf(Lookup(r, "relatives").value.items[i])
  {
    var xs := Lookup(r, "relatives").value.items;
    seq(|xs|, i requires 0 <= i < |xs| => IntOf(xs[i]))
  }

  /** `set(values)`. */
  function ToSet(s: seq<int>): (t: set<int>)
    ensures forall x :: x in t <==> x in s
  {
    set x | x in s
  }

  lemma KindOfIdAndRelatives()
    ensures "citizen_id" in DeclaredNames && KindOf("citizen_id") == Some(PositiveIntegerField)
    ensures "relatives" in DeclaredNames && KindOf("relatives") == Some(ListOfPositiveIntegers(true))
  {
    FindKindAt(CitizenFields, 0);
    FindKindAt(CitizenFields, 8);
  }

  /** A record that passed full validation has a positive id and distinct positive relatives. */
  lemma ValidRecordIsCitizen(r: Record, today: Date)
    requires ValidateRecord(r, false, today).Pass?
    ensures IsCitizen(r)
    ensures CidOf(r) > 0
    ensures forall x :: x in RelativesOf(r) ==> x > 0
    ensures forall i, j :: 0 <= i < j < |RelativesOf(r)| ==> RelativesOf(r)[i] != RelativesOf(r)[j]
  {
    KindOfIdAndRelatives();
    FullValidationFieldPresent(r, today, "citizen_id");
    FullValidationFieldPresent(r, today, "relatives");
    PositiveIntegerAccepts(Lookup(r, "citizen_id").value);
    var v := Lookup(r, "relatives").value;
    RelativesListAccepts(v);
    forall x | x in v.items ensures IsPyInt(x) {
      var i :| 0 <= i < |v.items| && v.items[i] == x;
      PositiveIntegerAccepts(v.items[i]);
    }
    forall x | x in RelativesOf(r) ensures x > 0 {
      var i :| 0 <= i < |RelativesOf(r)| && RelativesOf(r)[i] == x;
      PositiveIntegerAccepts(v.items[i]);
    }
  }

  // ---------------------------------------------------------------------------
  // The batch as a whole

  predicate AllCitizens(batch: seq<Record>) {
    forall r :: r in batch ==> IsCitizen(r)
  }

  /** Every record passes full validation. */
  predicate ValidRecords(batch: seq<Record>, today: Date) {
    forall r :: r in batch ==> ValidateRecord(r, false, today).Pass?
  }

  /** No two records carry the same citizen_id. */
  predicate UniqueIds(batch: seq<Record>)
    requires AllCitizens(batch)
  {
    forall i, j :: 0 <= i < j < |batch| ==> CidOf(batch[i]) != CidOf(batch[j])
  }

  /** The citizen ids of the batch. */
  function Ids(batch: seq<Record>): set<int>
    requires AllCitizens(batch)
  {
    if |batch| == 0 then {}
    else
      var init := batch[..|batch| - 1];
      assert forall r :: r in init ==> r in batch;
      Ids(init) + {CidOf(batch[|batch| - 1])}
  }

  /** Every relative id some record of the batch lists. */
  function Referenced(batch: seq<Record>): set<int>
    requires AllCitizens(batch)
  {
    if |batch| == 0 then {}
    else
      var init := batch[..|batch| - 1];
      assert forall r :: r in init ==> r in batch;
      Referenced(init) + ToSet(RelativesOf(batch[|batch| - 1]))
  }

  /** The ids are the citizen_ids of the records. */
  lemma {:induction false} IdsMembers(batch: seq<Record>)
    requires AllCitizens(batch)
    ensures forall x :: x in Ids(batch) <==> exists r :: r in batch && CidOf(r) == x
  {
    if |batch| > 0 {
      var init := batch[..|batch| - 1];
      assert forall r :: r in batch <==> r in init || r == batch[|batch| - 1];
      IdsMembers(init);
    }
  }

  /** The referenced ids are those on some record's relatives list. */
  lemma {:induction false} ReferencedMembers(batch: seq<Record>)
    requires AllCitizens(batch)
    ensures forall x :: x in Referenced(batch) <==> exists r :: r in batch && x in RelativesOf(r)
  {
    if |batch| > 0 {
      var init := batch[..|batch| - 1];
      assert forall r :: r in batch <==> r in init || r == batch[|batch| - 1];
      ReferencedMembers(init);
    }
  }

  /** `relatives_by_cid` after the first loop: citizen_id to the set of its relatives. */
  function RelativesById(batch: seq<Record>): (m: map<int, set<int>>)
    requires AllCitizens(batch)
    ensures m.Keys == Ids(batch)
  {
    if |batch| == 0 then map[]
    else
      var last := batch[|batch| - 1];
      RelativesById(batch[..|batch| - 1])[CidOf(last) := ToSet(RelativesOf(last))]
  }

  /** `relatives_by_cid`'s keys in insertion order. */
  function IdSequence(batch: seq<Record>): (ids: seq<int>)
    requires AllCitizens(batch)
    ensures |ids| == |batch|
    ensures forall k :: 0 <= k < |batch| ==> ids[k] == CidOf(batch[k])
  {
    seq(|batch|, k requires 0 <= k < |batch| => CidOf(batch[k]))
  }

  /** Every record whose id a lists lists a's id in turn. */
  predicate Answered(batch: seq<Record>, a: Record)
    requires AllCitizens(batch) && IsCitizen(a)
  {
    forall c :: c in batch && CidOf(c) in RelativesOf(a) ==> CidOf(a) in RelativesOf(c)
  }

  /** Relatives are symmetric: every link of the batch is answered. */
  predicate Symmetric(batch: seq<Record>)
    requires AllCitizens(batch)
  {
    forall a :: a in batch ==> Answered(batch, a)
  }

  // ---------------------------------------------------------------------------
  // The specification of validate_citizens

  /** The first loop's per-record checks, given the ids seen before. */
  function RecordPass(batch: seq<Record>, today: Date, seen: set<int>): Outcome<BatchError> {
    if |batch| == 0 then Pass
    else match ValidateRecord(batch[0], false, today)
      case Fail(e) => Fail(InvalidRecord(e))
      case Pass =>
        ValidRecordIsCitizen(batch[0], today);
        var cid := CidOf(batch[0]);
        if cid in seen then Fail(NonUniqueCitizenId(cid))
        else RecordPass(batch[1..], today, seen + {cid})
  }

  /** `cid not in relatives_by_cid[relative_cid]` for some relative of a. */
  predicate LinkFails(a: Record, rel: map<int, set<int>>)
    requires IsCitizen(a)
  {
    exists b :: b in RelativesOf(a) && b in rel && CidOf(a) !in rel[b]
  }

  /** The second loop: the first citizen, in batch order, with a relative that does not list it. */
  function FirstAsymmetric(batch: seq<Record>, rel: map<int, set<int>>): Option<int>
    requires AllCitizens(batch)
  {
    if |batch| == 0 then None
    else
      assert forall r :: r in batch[1..] ==> r in batch;
      if LinkFails(batch[0], rel) then Some(CidOf(batch[0]))
      else FirstAsymmetric(batch[1..], rel)
  }

  lemma {:induction false} RecordPassFacts(batch: seq<Record>, today: Date, seen: set<int>)
    requires RecordPass(batch, today, seen).Pass?
    ensures ValidRecords(batch, today) && AllCitizens(batch)
    ensures UniqueIds(batch) && Ids(batch) !! seen
  {
    if |batch| > 0 {
      var r0, rest := batch[0], batch[1..];
      ValidRecordIsCitizen(r0, today);
      var cid := CidOf(r0);
      RecordPassUnfold(batch, today, seen);
      RecordPassFacts(rest, today, seen + {cid});
      assert forall r :: r in batch <==> r == r0 || r in rest;
      IdsFront(batch);
      IdsMembers(rest);
      forall i, j | 0 <= i < j < |batch| ensures CidOf(batch[i]) != CidOf(batch[j]) {
        assert batch[j] == rest[j - 1];
        if i > 0 {
          assert batch[i] == rest[i - 1];
        } else {
          assert batch[j] in rest;
        }
      }
    }
  }

  /** The ids, read from the front. */
  lemma {:induction false} IdsFront(batch: seq<Record>)
    requires |batch| > 0 && AllCitizens(batch)
    ensures AllCitizens(batch[1..])
    ensures Ids(batch) == {CidOf(batch[0])} + Ids(batch[1..])
  {
    assert forall r :: r in batch[1..] ==> r in batch;
    if |batch| > 1 {
      var init := batch[..|batch| - 1];
      assert forall r :: r in init ==> r in batch;
      assert init[1..] == batch[1..][..|batch| - 2];
      IdsFront(init);
    }
  }

  /** Each record's relatives are among the referenced ids. */
  lemma {:induction false} ReferencedAt(batch: seq<Record>, k: nat)
    requires AllCitizens(batch) && k < |batch|
    ensures ToSet(RelativesOf(batch[k])) <= Referenced(batch)
  {
    if k < |batch| - 1 {
      var init := batch[..|batch| - 1];
      assert forall r :: r in init ==> r in batch;
      ReferencedAt(init, k);
    }
  }

  /** `validate_citizens(citizens)`: Pass when it returns, Fail with the error it raises. */
  function BatchVerdict(batch: seq<Record>, today: Date): Outcome<BatchError> {
    match RecordPass(batch, today, {})
    case Fail(e) => Fail(e)
    case Pass =>
      RecordPassFacts(batch, today, {});
      var missing := Referenced(batch) - Ids(batch);
      if |missing| > 0 then Fail(NonExistentRelatives(|missing|))
      else
        match FirstAsymmetric(batch, RelativesById(batch))
        case Some(a) => Fail(InvalidRelatives(a))
        case None => Pass
  }

  // ---------------------------------------------------------------------------
  // The loop the source runs

  /** `validate_citizens`, with `relatives_by_cid` and `non_existent_relatives` updated in place. */
  method ValidateCitizens(batch: seq<Record>, today: Date) returns (r: Outcome<BatchError>)
    ensures r == BatchVerdict(batch, today)
  {
    var relativesByCid: map<int, set<int>> := map[];
    var order: seq<int> := [];  // the dict's insertion order
    var nonExistent: set<int> := {};
    var i := 0;
    while i < |batch|
      invariant 0 <= i <= |batch|
      invariant AllCitizens(batch[..i])
      invariant RecordPass(batch, today, {}) == RecordPass(batch[i..], today, Ids(batch[..i]))
      invariant relativesByCid == RelativesById(batch[..i])
      invariant order == IdSequence(batch[..i])
      invariant nonExistent == Referenced(batch[..i]) - Ids(batch[..i])
    {
      var citizen := batch[i];
      var check := Validate(citizen, false, today);
      if check.Fail? {
        assert batch[i..][0] == citizen;
        return Fail(InvalidRecord(check.error));
      }
      RecordPassStep(batch, i, today);
      PrefixStep(batch, i);
      var cid := CidOf(citizen);
      if cid in relativesByCid {
        return Fail(NonUniqueCitizenId(cid));
      }
      var relatives := RelativesOf(citizen);
      relativesByCid := relativesByCid[cid := ToSet(relatives)];
      // the relatives not met so far (cid itself is already a key)
      var notSeen := set x | x in relatives && x !in relativesByCid;
      nonExistent := nonExistent + notSeen;
      if cid in nonExistent {
        nonExistent := nonExistent - {cid};
      }
      MissingStep(Referenced(batch[..i]), Ids(batch[..i]), relatives, cid, notSeen, nonExistent);
      order := order + [cid];
      i := i + 1;
    }
    assert batch[..i] == batch;
    assert batch[i..] == [];
    RecordPassFacts(batch, today, {});

    if |nonExistent| > 0 {
      return Fail(NonExistentRelatives(|nonExistent|));
    }
    var unanswered := FindUnanswered(batch, relativesByCid, order);
    if unanswered.Some? {
      return Fail(InvalidRelatives(unanswered.value));
    }
    return Pass;
  }

  /** The second loop of `validate_citizens`, over `relatives_by_cid.items()`. */
  method FindUnanswered(batch: seq<Record>, relativesByCid: map<int, set<int>>, order: seq<int>)
    returns (a: Option<int>)
    requires AllCitizens(batch) && UniqueIds(batch) && Referenced(batch) <= Ids(batch)
    requires relativesByCid == RelativesById(batch) && order == IdSequence(batch)
    ensures a == FirstAsymmetric(batch, relativesByCid)
  {
    RelativesByIdOfUnique(batch);
    var k := 0;
    while k < |order|
      invariant 0 <= k <= |order|
      invariant FirstAsymmetric(batch, relativesByCid) == FirstAsymmetric(batch[k..], relativesByCid)
    {
      var cid := order[k];
      var relatives := relativesByCid[cid];
      ReferencedAt(batch, k);
      assert relatives <= relativesByCid.Keys;
      var rest := relatives;
      while rest != {}
        invariant rest <= relatives
        invariant forall b :: b in relatives - rest ==> b in relativesByCid && cid in relativesByCid[b]
        decreases |rest|
      {
        var relativeCid :| relativeCid in rest;
        if cid !in relativesByCid[relativeCid] {
          assert batch[k..][0] == batch[k];
          return Some(cid);
        }
        rest := rest - {relativeCid};
      }
      assert batch[k..][0] == batch[k] && batch[k..][1..] == batch[k + 1..];
      k := k + 1;
    }
    return None;
  }

  /** Adding a record's relatives and id to the ids still missing. */
  lemma MissingStep(refs: set<int>, ids: set<int>, relatives: seq<int>, cid: int, notSeen: set<int>, missing: set<int>)
    requires notSeen == set x | x in relatives && x !in ids + {cid}
    requires missing == (refs - ids) + notSeen - {cid}
    ensures missing == (refs + ToSet(relatives)) - (ids + {cid})
  {
  }

  /** The prefix functions after one more record. */
  lemma PrefixStep(batch: seq<Record>, i: nat)
    requires i < |batch| && AllCitizens(batch[..i]) && IsCitizen(batch[i])
    ensures AllCitizens(batch[..i + 1])
    ensures Ids(batch[..i + 1]) == Ids(batch[..i]) + {CidOf(batch[i])}
    ensures Referenced(batch[..i + 1]) == Referenced(batch[..i]) + ToSet(RelativesOf(batch[i]))
    ensures RelativesById(batch[..i + 1]) == RelativesById(batch[..i])[CidOf(batch[i]) := ToSet(RelativesOf(batch[i]))]
    ensures IdSequence(batch[..i + 1]) == IdSequence(batch[..i]) + [CidOf(batch[i])]
  {
    assert batch[..i + 1][..i] == batch[..i];
    assert forall r :: r in batch[..i + 1] <==> r in batch[..i] || r == batch[i];
  }

  lemma RecordPassStep(batch: seq<Record>, i: nat, today: Date)
    requires i < |batch| && AllCitizens(batch[..i])
    requires ValidateRecord(batch[i], false, today).Pass?
    ensures IsCitizen(batch[i]) && AllCitizens(batch[..i + 1])
    ensures CidOf(batch[i]) !in Ids(batch[..i]) ==>
      RecordPass(batch[i..], today, Ids(batch[..i])) == RecordPass(batch[i + 1..], today, Ids(batch[..i + 1]))
  {
    ValidRecordIsCitizen(batch[i], today);
    PrefixStep(batch, i);
    var t := batch[i..];
    assert t[0] == batch[i] && t[1..] == batch[i + 1..];
    RecordPassUnfold(t, today, Ids(batch[..i]));
  }

  /** One step of the first loop on a record that passed validation. */
  lemma RecordPassUnfold(t: seq<Record>, today: Date, seen: set<int>)
    requires |t| > 0 && ValidateRecord(t[0], false, today).Pass? && IsCitizen(t[0])
    ensures CidOf(t[0]) !in seen ==> RecordPass(t, today, seen) == RecordPass(t[1..], today, seen + {CidOf(t[0])})
    ensures CidOf(t[0]) in seen ==> RecordPass(t, today, seen) == Fail(NonUniqueCitizenId(CidOf(t[0])))
  {
  }

  /** With unique ids, `relatives_by_cid[CidOf(r)]` is the set of r's own relatives. */
  lemma {:induction false} RelativesByIdOfUnique(batch: seq<Record>)
    requires AllCitizens(batch) && UniqueIds(batch)
    ensures forall k :: 0 <= k < |batch| ==>
      CidOf(batch[k]) in RelativesById(batch) && RelativesById(batch)[CidOf(batch[k])] == ToSet(RelativesOf(batch[k]))
  {
    if |batch| > 0 {
      var init := batch[..|batch| - 1];
      assert forall r :: r in init ==> r in batch;
      assert forall k :: 0 <= k < |init| ==> init[k] == batch[k];
      RelativesByIdOfUnique(init);
    }
  }

  // ---------------------------------------------------------------------------
  // What the batch check means

  /** The first loop passes exactly when every record is valid and no citizen_id repeats. */
  lemma {:induction false} RecordPassOfValid(batch: seq<Record>, today: Date, seen: set<int>)
    requires ValidRecords(batch, today) && AllCitizens(batch) && UniqueIds(batch) && Ids(batch) !! seen
    ensures RecordPass(batch, today, seen).Pass?
  {
    if |batch| > 0 {
      var rest := batch[1..];
      assert batch[0] in batch;
      FrontIdFresh(batch);
      assert ValidRecords(rest, today) by {
        assert forall r :: r in rest ==> r in batch;
      }
      RecordPassOfValid(rest, today, seen + {CidOf(batch[0])});
      RecordPassUnfold(batch, today, seen);
    }
  }

  /** Without repeated ids, the first id is not among the later ones. */
  lemma FrontIdFresh(batch: seq<Record>)
    requires AllCitizens(batch) && UniqueIds(batch) && |batch| > 0
    ensures AllCitizens(batch[1..]) && UniqueIds(batch[1..])
    ensures Ids(batch) == {CidOf(batch[0])} + Ids(batch[1..])
    ensures CidOf(batch[0]) !in Ids(batch[1..])
  {
    var rest := batch[1..];
    IdsFront(batch);
    UniqueIdsTail(batch);
    IdAbsent(rest, CidOf(batch[0]));
  }

  lemma UniqueIdsTail(batch: seq<Record>)
    requires AllCitizens(batch) && UniqueIds(batch) && |batch| > 0
    ensures AllCitizens(batch[1..]) && UniqueIds(batch[1..])
    ensures forall k :: 0 <= k < |batch[1..]| ==> CidOf(batch[1..][k]) != CidOf(batch[0])
  {
    var rest := batch[1..];
    assert forall r :: r in rest ==> r in batch;
    assert forall k :: 0 <= k < |rest| ==> rest[k] == batch[k + 1];
  }

  /** An id no record carries is not among the ids. */
  lemma {:induction false} IdAbsent(batch: seq<Record>, x: int)
    requires AllCitizens(batch)
    requires forall k :: 0 <= k < |batch| ==> CidOf(batch[k]) != x
    ensures x !in Ids(batch)
  {
    if |batch| > 0 {
      var init := batch[..|batch| - 1];
      assert forall r :: r in init ==> r in batch;
      assert forall k :: 0 <= k < |init| ==> init[k] == batch[k];
      IdAbsent(init, x);
    }
  }


  /** The first loop raises only the per-record errors. */
  lemma {:induction false} RecordPassErrors(batch: seq<Record>, today: Date, seen: set<int>)
    ensures RecordPass(batch, today, seen).Fail? ==>
      RecordPass(batch, today, seen).error.InvalidRecord? || RecordPass(batch, today, seen).error.NonUniqueCitizenId?
  {
    if |batch| > 0 && ValidateRecord(batch[0], false, today).Pass? {
      ValidRecordIsCitizen(batch[0], today);
      RecordPassErrors(batch[1..], today, seen + {CidOf(batch[0])});
    }
  }

  lemma FirstPassIff(batch: seq<Record>, today: Date)
    ensures RecordPass(batch, today, {}).Pass? <==>
      ValidRecords(batch, today) && AllCitizens(batch) && UniqueIds(batch)
  {
    if RecordPass(batch, today, {}).Pass? {
      RecordPassFacts(batch, today, {});
    } else if ValidRecords(batch, today) && AllCitizens(batch) && UniqueIds(batch) {
      RecordPassOfValid(batch, today, {});
    }
  }

  /** Where the first loop stopped: at record r, after the records of prefix. */
  predicate StopsAt(prefix: seq<Record>, r: Record, today: Date, seen: set<int>, e: BatchError)
    requires AllCitizens(prefix)
  {
    match ValidateRecord(r, false, today)
    case Fail(err) => e == InvalidRecord(err)
    case Pass => IsCitizen(r) && CidOf(r) in seen + Ids(prefix) && e == NonUniqueCitizenId(CidOf(r))
  }

  /**
   * A failure of the first loop is raised at one record: every earlier record
   * passed, and that record is either invalid (the schema's error) or repeats
   * an earlier id.
   */
  lemma {:induction false} FirstPassFailure(batch: seq<Record>, today: Date, seen: set<int>)
    requires RecordPass(batch, today, seen).Fail?
    ensures exists i :: (0 <= i < |batch| && RecordPass(batch[..i], today, seen).Pass?
      && AllCitizens(batch[..i]) && StopsAt(batch[..i], batch[i], today, seen, RecordPass(batch, today, seen).error))
  {
    var e := RecordPass(batch, today, seen).error;
    assert batch[..0] == [];
    if ValidateRecord(batch[0], false, today).Pass? {
      ValidRecordIsCitizen(batch[0], today);
      var cid := CidOf(batch[0]);
      RecordPassUnfold(batch, today, seen);
      if cid !in seen {
        var rest := batch[1..];
        FirstPassFailure(rest, today, seen + {cid});
        var i :| (0 <= i < |rest| && RecordPass(rest[..i], today, seen + {cid}).Pass?
          && AllCitizens(rest[..i]) && StopsAt(rest[..i], rest[i], today, seen + {cid}, e));
        var p := batch[..i + 1];
        assert p[0] == batch[0] && p[1..] == rest[..i];
        RecordPassUnfold(p, today, seen);
        RecordPassFacts(p, today, seen);
        IdsFront(p);
        assert rest[i] == batch[i + 1];
      }
    }
  }

  /** The ids no record carries but some record lists, read from the records. */
  lemma MissingMembers(batch: seq<Record>)
    requires AllCitizens(batch)
    ensures forall x :: x in Referenced(batch) - Ids(batch) <==>
      (exists a :: a in batch && x in RelativesOf(a)) && !(exists c :: c in batch && CidOf(c) == x)
  {
    IdsMembers(batch);
    ReferencedMembers(batch);
  }

  /**
   * NonExistentRelatives is raised after a clean first loop, and its count is
   * the number of distinct listed ids that no record of the batch carries.
   */
  lemma MissingRelatives(batch: seq<Record>, today: Date, n: nat)
    ensures BatchVerdict(batch, today) == Fail(NonExistentRelatives(n)) <==>
      && RecordPass(batch, today, {}).Pass? && AllCitizens(batch)
      && n == |Referenced(batch) - Ids(batch)| && n > 0
  {
    if RecordPass(batch, today, {}).Pass? {
      RecordPassFacts(batch, today, {});
    } else {
      FirstPassFailure(batch, today, {});
    }
  }

  /** The set of missing ids does not depend on the order of the records. */
  lemma MissingIgnoresOrder(b1: seq<Record>, b2: seq<Record>)
    requires multiset(b1) == multiset(b2) && AllCitizens(b1)
    ensures AllCitizens(b2)
    ensures Referenced(b1) - Ids(b1) == Referenced(b2) - Ids(b2)
  {
    SameRecords(b1, b2);
    SameRecordsSameIds(b1, b2);
  }

  /** Without repeated ids, the check of a record's links fails exactly when a link is not answered. */
  lemma LinkFailsIffUnanswered(batch: seq<Record>, k: nat)
    requires AllCitizens(batch) && UniqueIds(batch) && k < |batch|
    ensures LinkFails(batch[k], RelativesById(batch)) <==> !Answered(batch, batch[k])
  {
    LinkFailsUnanswered(batch, k);
    UnansweredLinkFails(batch, k);
  }

  lemma LinkFailsUnanswered(batch: seq<Record>, k: nat)
    requires AllCitizens(batch) && UniqueIds(batch) && k < |batch|
    ensures LinkFails(batch[k], RelativesById(batch)) ==> !Answered(batch, batch[k])
  {
    var rel := RelativesById(batch);
    var a := batch[k];
    if LinkFails(a, rel) {
      RelativesByIdOfUnique(batch);
      IdsMembers(batch);
      var b :| b in RelativesOf(a) && b in rel && CidOf(a) !in rel[b];
      var c :| c in batch && CidOf(c) == b;
      var j :| 0 <= j < |batch| && batch[j] == c;
      assert rel[CidOf(batch[j])] == ToSet(RelativesOf(c));
    }
  }

  lemma UnansweredLinkFails(batch: seq<Record>, k: nat)
    requires AllCitizens(batch) && UniqueIds(batch) && k < |batch|
    ensures !Answered(batch, batch[k]) ==> LinkFails(batch[k], RelativesById(batch))
  {
    var rel := RelativesById(batch);
    var a := batch[k];
    if !Answered(batch, a) {
      RelativesByIdOfUnique(batch);
      var c :| c in batch && CidOf(c) in RelativesOf(a) && CidOf(a) !in RelativesOf(c);
      var j :| 0 <= j < |batch| && batch[j] == c;
      assert rel[CidOf(batch[j])] == ToSet(RelativesOf(c));
      assert CidOf(c) in rel by {
        IdsMembers(batch);
      }
    }
  }

  /** The second loop returns None when no link check fails, else the first citizen whose check fails. */
  lemma FirstAsymmetricChar(batch: seq<Record>, rel: map<int, set<int>>)
    requires AllCitizens(batch)
    ensures FirstAsymmetric(batch, rel).None? <==> forall k :: 0 <= k < |batch| ==> !LinkFails(batch[k], rel)
    ensures FirstAsymmetric(batch, rel).Some? ==> exists i :: (0 <= i < |batch|
      && FirstAsymmetric(batch, rel).value == CidOf(batch[i]) && LinkFails(batch[i], rel)
      && forall k :: 0 <= k < i ==> !LinkFails(batch[k], rel))
  {
    FirstAsymmetricNone(batch, rel);
    FirstAsymmetricSome(batch, rel);
  }

  lemma {:induction false} FirstAsymmetricNone(batch: seq<Record>, rel: map<int, set<int>>)
    requires AllCitizens(batch)
    ensures FirstAsymmetric(batch, rel).None? <==> forall k :: 0 <= k < |batch| ==> !LinkFails(batch[k], rel)
  {
    if |batch| > 0 {
      var rest := batch[1..];
      assert forall r :: r in rest ==> r in batch;
      assert forall k :: 0 <= k < |rest| ==> rest[k] == batch[k + 1];
      FirstAsymmetricNone(rest, rel);
    }
  }

  /** Citizen i is the first whose link check fails. */
  predicate FirstFailureAt(batch: seq<Record>, rel: map<int, set<int>>, i: int)
    requires AllCitizens(batch)
  {
    && 0 <= i < |batch| && LinkFails(batch[i], rel)
    && forall k :: 0 <= k < i ==> !LinkFails(batch[k], rel)
  }

  lemma {:induction false} FirstAsymmetricSome(batch: seq<Record>, rel: map<int, set<int>>)
    requires AllCitizens(batch)
    ensures FirstAsymmetric(batch, rel).Some? ==> exists i :: (FirstFailureAt(batch, rel, i)
      && FirstAsymmetric(batch, rel).value == CidOf(batch[i]))
  {
    if |batch| > 0 {
      var rest := batch[1..];
      assert forall r :: r in rest ==> r in batch;
      if !LinkFails(batch[0], rel) && FirstAsymmetric(rest, rel).Some? {
        FirstAsymmetricSome(rest, rel);
        var i :| FirstFailureAt(rest, rel, i) && FirstAsymmetric(rest, rel).value == CidOf(rest[i]);
        FirstFailureShift(batch, rel, i);
      } else if LinkFails(batch[0], rel) {
        assert FirstFailureAt(batch, rel, 0);
      }
    }
  }

  lemma FirstFailureShift(batch: seq<Record>, rel: map<int, set<int>>, i: int)
    requires AllCitizens(batch) && |batch| > 0 && !LinkFails(batch[0], rel)
    requires AllCitizens(batch[1..]) && FirstFailureAt(batch[1..], rel, i)
    ensures FirstFailureAt(batch, rel, i + 1) && batch[i + 1] == batch[1..][i]
  {
    var rest := batch[1..];
    assert forall k :: 0 <= k < |rest| ==> rest[k] == batch[k + 1];
    forall k | 0 <= k < i + 1 ensures !LinkFails(batch[k], rel) {
      if k > 0 {
        assert batch[k] == rest[k - 1];
      }
    }
  }

  lemma SymmetricIffNoFailure(batch: seq<Record>)
    requires AllCitizens(batch) && UniqueIds(batch)
    ensures FirstAsymmetric(batch, RelativesById(batch)).None? <==> Symmetric(batch)
  {
    FirstAsymmetricChar(batch, RelativesById(batch));
    forall k | 0 <= k < |batch| {
      LinkFailsIffUnanswered(batch, k);
    }
    assert Symmetric(batch) <==> forall k :: 0 <= k < |batch| ==> Answered(batch, batch[k]);
  }

  /**
   * `validate_citizens` returns exactly for a batch of valid records with
   * distinct ids whose listed relatives all exist and answer every link.
   */
  lemma BatchAccepted(batch: seq<Record>, today: Date)
    ensures BatchVerdict(batch, today).Pass? <==>
      && ValidRecords(batch, today) && AllCitizens(batch) && UniqueIds(batch)
      && Referenced(batch) <= Ids(batch) && Symmetric(batch)
  {
    FirstPassIff(batch, today);
    if RecordPass(batch, today, {}).Pass? {
      RecordPassFacts(batch, today, {});
      EmptyDifference(Referenced(batch), Ids(batch));
      if Referenced(batch) <= Ids(batch) {
        SymmetricIffNoFailure(batch);
      }
    }
  }

  lemma EmptyDifference(a: set<int>, b: set<int>)
    ensures a <= b <==> |a - b| == 0
  {
    if a <= b {
      assert a - b == {};
    }
    if |a - b| == 0 {
      forall x | x in a ensures x in b {
        assert x !in a - b;
      }
    }
  }

  /**
   * InvalidRelatives names the first citizen, in batch order, with a link its
   * relative does not answer; the batch passed every earlier check.
   */
  lemma InvalidRelativesNamesFirst(batch: seq<Record>, today: Date, a: int)
    requires BatchVerdict(batch, today) == Fail(InvalidRelatives(a))
    ensures ValidRecords(batch, today) && AllCitizens(batch) && UniqueIds(batch)
    ensures Referenced(batch) <= Ids(batch)
    ensures exists i :: (0 <= i < |batch| && CidOf(batch[i]) == a && !Answered(batch, batch[i])
      && forall k :: 0 <= k < i ==> Answered(batch, batch[k]))
  {
    RecordPassErrors(batch, today, {});
    RecordPassFacts(batch, today, {});
    EmptyDifference(Referenced(batch), Ids(batch));
    var rel := RelativesById(batch);
    FirstAsymmetricChar(batch, rel);
    var i :| (0 <= i < |batch|
      && FirstAsymmetric(batch, rel).value == CidOf(batch[i]) && LinkFails(batch[i], rel)
      && forall k :: 0 <= k < i ==> !LinkFails(batch[k], rel));
    FirstUnanswered(batch, i);
  }

  lemma FirstUnanswered(batch: seq<Record>, i: nat)
    requires AllCitizens(batch) && UniqueIds(batch) && i < |batch|
    requires LinkFails(batch[i], RelativesById(batch))
    requires forall k :: 0 <= k < i ==> !LinkFails(batch[k], RelativesById(batch))
    ensures !Answered(batch, batch[i]) && forall k :: 0 <= k < i ==> Answered(batch, batch[k])
  {
    forall k | 0 <= k <= i {
      LinkFailsIffUnanswered(batch, k);
    }
  }

  /** Without repeated ids, the number of distinct ids is the number of records. */
  lemma {:induction false} UniqueIdsCard(batch: seq<Record>)
    requires AllCitizens(batch)
    ensures |Ids(batch)| <= |batch|
    ensures UniqueIds(batch) <==> |Ids(batch)| == |batch|
  {
    if |batch| > 0 {
      var init := batch[..|batch| - 1];
      assert forall r :: r in init ==> r in batch;
      UniqueIdsCard(init);
      if UniqueIds(batch) {
        UniqueInit(batch);
        FreshLastId(batch);
      } else {
        RepeatedIdCard(batch);
      }
    }
  }

  lemma UniqueInit(batch: seq<Record>)
    requires AllCitizens(batch) && UniqueIds(batch) && |batch| > 0
    ensures AllCitizens(batch[..|batch| - 1]) && UniqueIds(batch[..|batch| - 1])
  {
    var init := batch[..|batch| - 1];
    assert forall k :: 0 <= k < |init| ==> init[k] == batch[k];
  }

  lemma RepeatedIdCard(batch: seq<Record>)
    requires AllCitizens(batch) && !UniqueIds(batch) && |batch| > 0
    requires AllCitizens(batch[..|batch| - 1])
    requires |Ids(batch[..|batch| - 1])| <= |batch| - 1
    requires UniqueIds(batch[..|batch| - 1]) <==> |Ids(batch[..|batch| - 1])| == |batch| - 1
    ensures |Ids(batch)| < |batch|
  {
    var init := batch[..|batch| - 1];
    var i, j :| 0 <= i < j < |batch| && CidOf(batch[i]) == CidOf(batch[j]);
    if j == |batch| - 1 {
      RepeatedLastId(batch, i);
    } else {
      assert !UniqueIds(init) by {
        assert init[i] == batch[i] && init[j] == batch[j];
      }
    }
  }

  lemma FreshLastId(batch: seq<Record>)
    requires AllCitizens(batch) && UniqueIds(batch) && |batch| > 0
    ensures AllCitizens(batch[..|batch| - 1])
    ensures CidOf(batch[|batch| - 1]) !in Ids(batch[..|batch| - 1])
  {
    var init := batch[..|batch| - 1];
    assert forall r :: r in init ==> r in batch;
    IdsMembers(init);
    forall c | c in init ensures CidOf(c) != CidOf(batch[|batch| - 1]) {
      var k :| 0 <= k < |init| && init[k] == c;
      assert batch[k] == c;
    }
  }

  lemma RepeatedLastId(batch: seq<Record>, i: nat)
    requires AllCitizens(batch) && i < |batch| - 1
    requires CidOf(batch[i]) == CidOf(batch[|batch| - 1])
    ensures AllCitizens(batch[..|batch| - 1])
    ensures CidOf(batch[|batch| - 1]) in Ids(batch[..|batch| - 1])
  {
    var init := batch[..|batch| - 1];
    assert forall r :: r in init ==> r in batch;
    IdsMembers(init);
    assert init[i] == batch[i];
    assert init[i] in init;
  }

  /** Two batches with the same records have the same ids and the same listed ids. */
  lemma SameRecordsSameIds(b1: seq<Record>, b2: seq<Record>)
    requires AllCitizens(b1) && forall r :: r in b1 <==> r in b2
    ensures AllCitizens(b2)
    ensures Ids(b1) == Ids(b2) && Referenced(b1) == Referenced(b2)
  {
    SameIds(b1, b2);
    SameReferenced(b1, b2);
  }

  lemma SameIds(b1: seq<Record>, b2: seq<Record>)
    requires AllCitizens(b1) && AllCitizens(b2) && forall r :: r in b1 <==> r in b2
    ensures Ids(b1) == Ids(b2)
  {
    IdsMembers(b1);
    IdsMembers(b2);
    forall x ensures x in Ids(b1) ==> x in Ids(b2) {
      if x in Ids(b1) {
        var r :| r in b1 && CidOf(r) == x;
        assert r in b2;
      }
    }
    forall x ensures x in Ids(b2) ==> x in Ids(b1) {
      if x in Ids(b2) {
        var r :| r in b2 && CidOf(r) == x;
        assert r in b1;
      }
    }
  }

  lemma SameReferenced(b1: seq<Record>, b2: seq<Record>)
    requires AllCitizens(b1) && AllCitizens(b2) && forall r :: r in b1 <==> r in b2
    ensures Referenced(b1) == Referenced(b2)
  {
    ReferencedMembers(b1);
    ReferencedMembers(b2);
    forall x ensures x in Referenced(b1) ==> x in Referenced(b2) {
      if x in Referenced(b1) {
        var r :| r in b1 && x in RelativesOf(r);
        assert r in b2;
      }
    }
    forall x ensures x in Referenced(b2) ==> x in Referenced(b1) {
      if x in Referenced(b2) {
        var r :| r in b2 && x in RelativesOf(r);
        assert r in b1;
      }
    }
  }

  lemma SameRecords(b1: seq<Record>, b2: seq<Record>)
    requires multiset(b1) == multiset(b2)
    ensures |b1| == |b2|
    ensures forall r :: r in b1 <==> r in b2
  {
    assert |b1| == |multiset(b1)| == |multiset(b2)| == |b2|;
    forall r ensures r in b1 <==> r in b2 {
      assert r in b1 <==> r in multiset(b1);
      assert r in b2 <==> r in multiset(b2);
    }
  }

  /** Whether a batch is accepted does not depend on the order of its records. */
  lemma AcceptanceIgnoresOrder(b1: seq<Record>, b2: seq<Record>, today: Date)
    requires multiset(b1) == multiset(b2)
    ensures BatchVerdict(b1, today).Pass? <==> BatchVerdict(b2, today).Pass?
  {
    SameRecords(b1, b2);
    BatchAccepted(b1, today);
    BatchAccepted(b2, today);
    if AllCitizens(b1) {
      SameRecordsSameIds(b1, b2);
      UniqueIdsCard(b1);
      UniqueIdsCard(b2);
    }
  }
}
