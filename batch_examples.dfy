/**
 * Small batches run through the model of `validate_citizens`. The records
 * are any that pass full validation; only their ids and relatives matter.
 */
module BatchExamples {
  import opened Json
  import opened Dates
  import opened Schema
  import opened Batch

  /** A valid record whose view of the batch is the given id and relatives. */
  predicate ValidWith(r: Record, today: Date, cid: int, relatives: seq<int>) {
    ValidateRecord(r, false, today).Pass? && IsCitizen(r) && CidOf(r) == cid && RelativesOf(r) == relatives
  }

  /** A citizen may list itself as its own relative. */
  lemma SelfReferenceAccepted(r: Record, today: Date, cid: int)
    requires ValidWith(r, today, cid, [cid])
    ensures BatchVerdict([r], today) == Pass
  {
    BatchAccepted([r], today);
    assert Referenced([r]) == {cid} && Ids([r]) == {cid};
  }

  /** A relative listed before its own record appears still counts as present. */
  lemma MutualPairAccepted(r1: Record, r2: Record, today: Date)
    requires ValidWith(r1, today, 1, [2]) && ValidWith(r2, today, 2, [1])
    ensures BatchVerdict([r1, r2], today) == Pass
  {
    var b := [r1, r2];
    PairFacts(r1, r2);
    assert ToSet([2]) == {2} && ToSet([1]) == {1};
    assert Ids(b) == {1, 2} && Referenced(b) == {1, 2};
    BatchAccepted(b, today);
  }

  /** A link that is not answered: the first citizen of the pair is named. */
  lemma OneSidedLinkRejected(r1: Record, r2: Record, today: Date)
    requires ValidWith(r1, today, 1, [2]) && ValidWith(r2, today, 2, [])
    ensures BatchVerdict([r1, r2], today) == Fail(InvalidRelatives(1))
  {
    var b := [r1, r2];
    OneSidedLinkFails(r1, r2);
    assert RecordPass(b, today, {}).Pass? by {
      assert UniqueIds(b);
      FirstPassIff(b, today);
    }
    LinkCheckDecides(b, today);
  }

  /** In that pair, citizen 1's link to 2 is not answered, and no listed id is missing. */
  lemma OneSidedLinkFails(r1: Record, r2: Record)
    requires IsCitizen(r1) && CidOf(r1) == 1 && RelativesOf(r1) == [2]
    requires IsCitizen(r2) && CidOf(r2) == 2 && RelativesOf(r2) == []
    ensures AllCitizens([r1, r2]) && Referenced([r1, r2]) <= Ids([r1, r2])
    ensures FirstAsymmetric([r1, r2], RelativesById([r1, r2])) == Some(1)
  {
    var b := [r1, r2];
    PairFacts(r1, r2);
    assert ToSet([2]) == {2} && ToSet([]) == {};
    var rel := RelativesById(b);
    assert rel == map[1 := {2}][2 := {}];
    assert LinkFails(r1, rel);
  }

  /** After a clean first loop and no missing ids, the link check decides the verdict. */
  lemma LinkCheckDecides(b: seq<Record>, today: Date)
    requires RecordPass(b, today, {}).Pass? && AllCitizens(b) && Referenced(b) <= Ids(b)
    ensures FirstAsymmetric(b, RelativesById(b)).Some? ==>
      BatchVerdict(b, today) == Fail(InvalidRelatives(FirstAsymmetric(b, RelativesById(b)).value))
  {
    assert Referenced(b) - Ids(b) == {};
  }

  /** A relative nobody carries is counted once. */
  lemma DanglingRelativeCounted(r: Record, today: Date)
    requires ValidWith(r, today, 1, [2])
    ensures BatchVerdict([r], today) == Fail(NonExistentRelatives(1))
  {
    FirstPassIff([r], today);
    assert Referenced([r]) - Ids([r]) == {2};
  }

  /** The same record twice repeats its citizen_id. */
  lemma RepeatedRecordRejected(r: Record, today: Date, cid: int)
    requires ValidWith(r, today, cid, [])
    ensures BatchVerdict([r, r], today) == Fail(NonUniqueCitizenId(cid))
  {
    var b := [r, r];
    assert b[1..] == [r];
    RecordPassUnfold(b, today, {});
    RecordPassUnfold([r], today, {cid});
  }

  /** The prefix functions of a two-record batch. */
  lemma PairFacts(r1: Record, r2: Record)
    requires IsCitizen(r1) && IsCitizen(r2)
    ensures AllCitizens([r1]) && AllCitizens([r1, r2])
    ensures Ids([r1, r2]) == {CidOf(r1), CidOf(r2)}
    ensures Referenced([r1, r2]) == ToSet(RelativesOf(r1)) + ToSet(RelativesOf(r2))
    ensures RelativesById([r1, r2]) == map[CidOf(r1) := ToSet(RelativesOf(r1))][CidOf(r2) := ToSet(RelativesOf(r2))]
  {
    var b := [r1, r2];
    assert b[..1] == [r1];
    assert [r1][..0] == [];
    assert Ids([r1]) == {CidOf(r1)};
    assert Referenced([r1]) == ToSet(RelativesOf(r1));
  }
}
