/**
 * The request handlers of citizens/api.py over the storage of module Store:
 * `new_import`, `update_citizen` and `get_presents_by_month`. A request body
 * arrives already decoded; the date of today, which the validators compare
 * birth dates with, is a parameter. A handler either answers with a status
 * and a JSON body or stops with the error it raises.
 */
module Api {
  import opened Json
  import opened Dates
  import opened Fields
  import opened Schema
  import opened Batch
  import opened Store
  import opened Presents

  /** The Python exceptions the handlers let escape. */
  datatype Exception =
    | CitizenNotFoundError  // `get_one_citizen` found nothing
    | KeyError              // `citizen['relatives']`, `relative_data['birth_date']`, `citizen['citizen_id']`
    | TypeError             // iterating a value that is no list, `strptime` of a non-string
    | ValueError            // `strptime` refuses the string

  /** Why a handler did not answer. */
  datatype ApiError =
    | InvalidImport(batchError: BatchError)     // `validate_import_data` raised
    | ForbiddenCitizenId                        // the update body names citizen_id
    | InvalidCitizen(schemaError: SchemaError)  // partial validation of the update raised
    | NonExistentCitizens                       // a requested relative is not in the import
    | Uncaught(exception: Exception)            // an exception nothing catches
    | UnknownImport                             // the storage raised `ImportNotFound`

  /** `web.json_response(data=..., status=...)`. */
  datatype Response = Response(status: int, body: Value)

  /** `{'data': {'import_id': import_id}}` with status 201. */
  function ImportCreated(importId: int): Response {
    Response(201, Object([("data", Object([("import_id", Int(importId))]))]))
  }

  // ---------------------------------------------------------------------------
  // new_import

  /**
   * `new_import`: validate the whole batch, and only then take a fresh import
   * id and store the records under it.
   */
  method NewImport(storage: Storage, body: seq<Record>, today: Date) returns (r: Result<Response, ApiError>)
    requires storage.Valid()
    modifies storage
    ensures storage.Valid()
    ensures BatchVerdict(body, today).Fail? ==>
      && r == Err(InvalidImport(BatchVerdict(body, today).error))
      && storage.counter == old(storage.counter) && storage.imports == old(storage.imports)
      && storage.log == old(storage.log)
    ensures BatchVerdict(body, today).Pass? ==>
      var id := old(storage.counter) + 1;
      && r == Ok(ImportCreated(id))
      && storage.counter == id
      && storage.imports == old(storage.imports)[id := old(storage.Citizens(id)) + body]
      && storage.log == old(storage.log) + [GenerateImportIdCall, NewImportCall(id, |body|)]
  {
    var verdict := ValidateCitizens(body, today);
    if verdict.Fail? {
      return Err(InvalidImport(verdict.error));
    }
    var importId := StoreImport(storage, body);
    return Ok(ImportCreated(importId));
  }

  /** Take a fresh import id and store the records under it. */
  method StoreImport(storage: Storage, body: seq<Record>) returns (id: int)
    requires storage.Valid()
    modifies storage
    ensures storage.Valid()
    ensures id == old(storage.counter) + 1 && storage.counter == id
    ensures storage.imports == old(storage.imports)[id := old(storage.Citizens(id)) + body]
    ensures storage.log == old(storage.log) + [GenerateImportIdCall, NewImportCall(id, |body|)]
  {
    id := storage.GenerateImportId();
    storage.NewImport(id, body);
  }

  /** The import a successful `new_import` stores is one `validate_citizens` accepts. */
  lemma StoredImportIsAccepted(body: seq<Record>, today: Date)
    requires BatchVerdict(body, today).Pass?
    ensures forall i :: 0 <= i < |body| ==> ValidateRecord(body[i], false, today).Pass?
    ensures AllCitizens(body) && UniqueIds(body)
    ensures Referenced(body) <= Ids(body) && Symmetric(body)
  {
    BatchAccepted(body, today);
  }

  // ---------------------------------------------------------------------------
  // update_citizen

  /** The ids `update_citizen` looks up: the update's relatives list, if it has one. */
  function RequestedRelatives(body: Record): seq<Value> {
    match Lookup(body, "relatives")
    case Some(List(items)) => items
    case _ => []
  }

  /** The position of the first requested id that `get_one_citizen` does not find. */
  function FirstMissing(cs: seq<Record>, qs: seq<Value>): (k: Option<nat>)
    ensures k.Some? ==> k.value < |qs| && FindByValue(cs, qs[k.value]).Err?
    ensures k.Some? ==> forall j :: 0 <= j < k.value ==> FindByValue(cs, qs[j]).Ok?
    ensures k.None? <==> forall j :: 0 <= j < |qs| ==> FindByValue(cs, qs[j]).Ok?
  {
    if |qs| == 0 then None
    else if FindByValue(cs, qs[0]).Err? then Some(0)
    else match FirstMissing(cs, qs[1..])
      case None => None
      case Some(k) => Some(k + 1)
  }

  /** The `get_one_citizen` calls for the ids qs, in order. */
  function Lookups(importId: int, qs: seq<Value>): seq<Call> {
    if |qs| == 0 then [] else Lookups(importId, qs[..|qs| - 1]) + [GetOneCitizenCall(importId, qs[|qs| - 1])]
  }

  /** `{'data': updated_data}` with status 200; a citizen that was not found gives `null`. */
  function Updated(updated: Option<Record>): Response {
    Response(200, Object([("data", if updated.Some? then Object(updated.value) else Null)]))
  }

  /**
   * `update_citizen`: refuse a body naming citizen_id, validate the body
   * partially, look up each requested relative in order (the first one missing
   * ends the request), then `$set` the body on the first citizen with that id.
   */
  method UpdateCitizen(storage: Storage, importId: int, citizenId: int, body: Record, today: Date)
    returns (r: Result<Response, ApiError>)
    requires storage.Valid()
    modifies storage
    ensures storage.Valid() && storage.counter == old(storage.counter)
    ensures HasKey(body, "citizen_id") ==>
      && r == Err(ForbiddenCitizenId)
      && storage.imports == old(storage.imports) && storage.log == old(storage.log)
    ensures !HasKey(body, "citizen_id") && ValidateRecord(body, true, today).Fail? ==>
      && r == Err(InvalidCitizen(ValidateRecord(body, true, today).error))
      && storage.imports == old(storage.imports) && storage.log == old(storage.log)
    ensures !HasKey(body, "citizen_id") && ValidateRecord(body, true, today).Pass? ==>
      var cs := old(storage.Citizens(importId));
      var qs := RequestedRelatives(body);
      match FirstMissing(cs, qs)
      case Some(k) =>
        && r == Err(NonExistentCitizens)
        && storage.imports == old(storage.imports)
        && storage.log == old(storage.log) + Lookups(importId, qs[..k + 1])
      case None =>
        && storage.log == old(storage.log) + Lookups(importId, qs) + [UpdateCitizenCall(importId, citizenId, body)]
        && match FindFirst(cs, citizenId)
           case None => r == Ok(Updated(None)) && storage.imports == old(storage.imports)
           case Some(j) =>
             && r == Ok(Updated(Some(SetFields(cs[j], body))))
             && storage.imports == old(storage.imports)[importId := cs[j := SetFields(cs[j], body)]]
  {
    if HasKey(body, "citizen_id") {
      return Err(ForbiddenCitizenId);
    }
    var check := Validate(body, true, today);
    if check.Fail? {
      return Err(InvalidCitizen(check.error));
    }
    var relatives := RequestedRelatives(body);
    if HasKey(body, "relatives") {
      UpdateRelativesAreAList(body, today);
      var found := LookUpAll(storage, importId, storage.Citizens(importId), relatives);
      if !found {
        return Err(NonExistentCitizens);
      }
    } else {
      assert relatives == [];
    }
    var updated := storage.UpdateCitizen(importId, citizenId, body);
    return Ok(Updated(updated));
  }

  /**
   * The loop over the requested relatives: `get_one_citizen` for each in
   * order, stopping at the first one that is not found.
   */
  method LookUpAll(storage: Storage, importId: int, ghost cs: seq<Record>, qs: seq<Value>) returns (found: bool)
    requires storage.Valid() && storage.Citizens(importId) == cs
    modifies storage
    ensures storage.Valid() && storage.counter == old(storage.counter) && storage.imports == old(storage.imports)
    ensures found <==> FirstMissing(cs, qs).None?
    ensures !found ==> storage.log == old(storage.log) + Lookups(importId, qs[..FirstMissing(cs, qs).value + 1])
    ensures found ==> storage.log == old(storage.log) + Lookups(importId, qs)
  {
    var i := 0;
    while i < |qs|
      invariant 0 <= i <= |qs|
      invariant storage.Valid() && storage.counter == old(storage.counter)
      invariant storage.imports == old(storage.imports) && storage.Citizens(importId) == cs
      invariant storage.log == old(storage.log) + Lookups(importId, qs[..i])
      invariant FirstMissing(cs, qs[..i]).None?
    {
      var ok := LookUpOne(storage, importId, cs, qs[i]);
      LookupsSnoc(importId, qs, i);
      if !ok {
        FirstMissingStop(cs, qs, i);
        return false;
      }
      FirstMissingNext(cs, qs, i);
      i := i + 1;
    }
    assert qs[..i] == qs;
    return true;
  }

  /** Every id up to position i is found, and the one at i as well. */
  lemma FirstMissingNext(cs: seq<Record>, qs: seq<Value>, i: nat)
    requires i < |qs| && FirstMissing(cs, qs[..i]).None? && FindByValue(cs, qs[i]).Ok?
    ensures FirstMissing(cs, qs[..i + 1]).None?
  {
    var p, p' := qs[..i], qs[..i + 1];
    forall j | 0 <= j < |p'| ensures FindByValue(cs, p'[j]).Ok? {
      if j < i {
        assert p'[j] == p[j];
      }
    }
  }

  /** Every id up to position i is found, and the one at i is not. */
  lemma FirstMissingStop(cs: seq<Record>, qs: seq<Value>, i: nat)
    requires i < |qs| && FirstMissing(cs, qs[..i]).None? && FindByValue(cs, qs[i]).Err?
    ensures FirstMissing(cs, qs) == Some(i)
  {
    assert forall j :: 0 <= j < i ==> qs[..i][j] == qs[j];
    FirstMissingAt(cs, qs, i);
  }

  /** One turn of that loop: `get_one_citizen`, and whether it found the citizen. */
  method LookUpOne(storage: Storage, importId: int, ghost cs: seq<Record>, q: Value) returns (ok: bool)
    requires storage.Valid() && storage.Citizens(importId) == cs
    modifies storage
    ensures storage.Valid() && storage.counter == old(storage.counter) && storage.imports == old(storage.imports)
    ensures storage.Citizens(importId) == cs
    ensures storage.log == old(storage.log) + [GetOneCitizenCall(importId, q)]
    ensures ok <==> FindByValue(cs, q).Ok?
  {
    var r := storage.GetOneCitizen(importId, q);
    ok := r.Ok?;
  }

  lemma LookupsSnoc(importId: int, qs: seq<Value>, i: nat)
    requires i < |qs|
    ensures Lookups(importId, qs[..i + 1]) == Lookups(importId, qs[..i]) + [GetOneCitizenCall(importId, qs[i])]
  {
    assert qs[..i + 1][..i] == qs[..i];
  }

  /** When every id before position i is found and the one at i is not, i is the first missing one. */
  lemma FirstMissingAt(cs: seq<Record>, qs: seq<Value>, i: nat)
    requires i < |qs| && FindByValue(cs, qs[i]).Err?
    requires forall j :: 0 <= j < i ==> FindByValue(cs, qs[j]).Ok?
    ensures FirstMissing(cs, qs) == Some(i)
  {
  }

  /**
   * A partially valid update that names relatives carries them as a list of
   * distinct positive integers, and those are the ids looked up.
   */
  lemma UpdateRelativesAreAList(body: Record, today: Date)
    requires ValidateRecord(body, true, today).Pass?
    requires HasKey(body, "relatives")
    ensures Lookup(body, "relatives") == Some(List(RequestedRelatives(body)))
    ensures forall q :: q in RequestedRelatives(body) ==> IsPyInt(q) && IntOf(q) > 0
    ensures NoDuplicates(RequestedRelatives(body))
  {
    KindOfIdAndRelatives();
    PartialValidationFieldValid(body, today, "relatives");
    var v := Lookup(body, "relatives").value;
    RelativesListAccepts(v);
    forall q | q in v.items ensures IsPyInt(q) && IntOf(q) > 0 {
      var i :| 0 <= i < |v.items| && v.items[i] == q;
      PositiveIntegerAccepts(v.items[i]);
    }
  }

  /**
   * `$set` of a partially valid update on a fully valid citizen gives a fully
   * valid citizen: the keys stay the nine declared fields and every value
   * passes its field's validator.
   */
  lemma UpdateKeepsRecordValid(r: Record, body: Record, today: Date)
    requires ValidateRecord(r, false, today).Pass?
    requires ValidateRecord(body, true, today).Pass?
    ensures ValidateRecord(SetFields(r, body), false, today).Pass?
  {
    var m := SetFields(r, body);
    FullValidation(r, today);
    PartialValidation(body, today);
    SetFieldsKeys(r, body);
    assert KeySet(m) == DeclaredNames;
    forall i | 0 <= i < |m| ensures ItemValid(m[i], today) {
      UpdatedItemValid(r, body, today, i);
    }
    FullValidation(m, today);
  }

  /** One item of the updated citizen passes: it comes from the update or from the stored record. */
  lemma UpdatedItemValid(r: Record, body: Record, today: Date, i: nat)
    requires ValidateRecord(r, false, today).Pass?
    requires ValidateRecord(body, true, today).Pass?
    requires i < |SetFields(r, body)|
    ensures ItemValid(SetFields(r, body)[i], today)
  {
    var m := SetFields(r, body);
    var (k, x) := m[i];
    LookupAt(m, i);
    SetFieldsLookup(r, body, k);
    if HasKey(body, k) {
      PartialValidationFieldValid(body, today, k);
    } else {
      FullValidation(r, today);
      var j :| 0 <= j < |r| && r[j] == (k, x);
      assert ItemValid(r[j], today);
    }
  }

  // ---------------------------------------------------------------------------
  // get_presents_by_month

  /**
   * `datetime.strptime(v, '%d.%m.%Y').month`: the whole string must be
   * day, month and four-digit year separated by dots and name a calendar date.
   */
  function StrptimeMonth(v: Value): (r: Result<int, Exception>)
    ensures r.Ok? ==> IsMonth(r.value)
  {
    if !v.Str? then Err(TypeError)
    else match FullMatch(v.s)
      case None => Err(ValueError)
      case Some(g) =>
        var (d, m, y) := g;
        if IsValidDate(DigitsValue(y), DigitsValue(m), DigitsValue(d)) then Ok(DigitsValue(m))
        else Err(ValueError)
  }

  /** A birth date the schema accepted, written without a trailing newline, has a month. */
  lemma ValidatedBirthDateHasMonth(v: Value, today: Date)
    requires ValidateBirthDate(v, today).Pass?
    requires |v.s| == 0 || v.s[|v.s| - 1] != '\n'
    ensures StrptimeMonth(v).Ok?
    ensures exists d, m, y :: MatchesAs(v.s, d, m, y) && StrptimeMonth(v) == Ok(DigitsValue(m))
  {
    MatchDateCorrect(v.s);
    var (d, m, y) := MatchDate(v.s).value;
    assert v.s == d + "." + m + "." + y;
    FullMatchComplete(d, m, y);
  }

  /**
   * The schema's `$` lets one trailing newline through, `strptime` does not:
   * such a birth date passes validation and is refused when the months of
   * birth are read.
   */
  lemma TrailingNewlineBirthDateRefused(v: Value, today: Date)
    requires ValidateBirthDate(v, today).Pass?
    requires |v.s| > 0 && v.s[|v.s| - 1] == '\n'
    ensures StrptimeMonth(v) == Err(ValueError)
  {
    FullMatchEndsInDigit(v.s);
  }

  /** `get_one_citizen` of the id, then `strptime` of the relative's birth_date. */
  function RelativeMonth(cs: seq<Record>, id: Value): (r: Result<int, Exception>)
    ensures r.Ok? ==> IsMonth(r.value)
    ensures FindByValue(cs, id).Err? ==> r == Err(CitizenNotFoundError)
  {
    match FindByValue(cs, id)
    case Err(_) => Err(CitizenNotFoundError)
    case Ok(relative) =>
      match Lookup(relative, "birth_date")
      case None => Err(KeyError)
      case Some(b) => StrptimeMonth(b)
  }

  /** The months of birth of the relatives in list order, or the first exception. */
  function RelativeMonths(cs: seq<Record>, ids: seq<Value>): (r: Result<seq<int>, Exception>)
    ensures r.Ok? ==> |r.value| == |ids| && forall i :: 0 <= i < |ids| ==> Ok(r.value[i]) == RelativeMonth(cs, ids[i])
  {
    if |ids| == 0 then Ok([])
    else match RelativeMonth(cs, ids[0])
      case Err(e) => Err(e)
      case Ok(m) =>
        match RelativeMonths(cs, ids[1..])
        case Err(e) => Err(e)
        case Ok(ms) => Ok([m] + ms)
  }

  /** A failed lookup of months reports the exception of the first relative that fails. */
  lemma {:induction false} RelativeMonthsFirstError(cs: seq<Record>, ids: seq<Value>)
    requires RelativeMonths(cs, ids).Err?
    ensures exists i :: (0 <= i < |ids| && RelativeMonth(cs, ids[i]) == Err(RelativeMonths(cs, ids).error)
      && forall j :: 0 <= j < i ==> RelativeMonth(cs, ids[j]).Ok?)
  {
    if RelativeMonth(cs, ids[0]).Ok? {
      RelativeMonthsFirstError(cs, ids[1..]);
      var i :| 0 <= i < |ids[1..]| && RelativeMonth(cs, ids[1..][i]) == Err(RelativeMonths(cs, ids).error)
        && forall j :: 0 <= j < i ==> RelativeMonth(cs, ids[1..][j]).Ok?;
      assert forall j :: 0 <= j < i ==> ids[1..][j] == ids[j + 1];
    }
  }

  /** Months known so far, then the rest of the computation. */
  function Then<T>(done: seq<T>, rest: Result<seq<T>, Exception>): Result<seq<T>, Exception> {
    match rest
    case Err(e) => Err(e)
    case Ok(xs) => Ok(done + xs)
  }

  /**
   * One citizen's entry: its id and the runs of its relatives' months of
   * birth, or the first exception (`citizen['relatives']` first, the lookups
   * next, and `citizen['citizen_id']` only after them).
   */
  function CitizenEntry(cs: seq<Record>, c: Record): Result<(Value, seq<(int, nat)>), Exception> {
    match Lookup(c, "relatives")
    case None => Err(KeyError)
    case Some(rel) =>
      if !rel.List? then Err(TypeError)
      else match RelativeMonths(cs, rel.items)
        case Err(e) => Err(e)
        case Ok(months) =>
          match Lookup(c, "citizen_id")
          case None => Err(KeyError)
          case Some(cid) => Ok((cid, Runs(months)))
  }

  /** What the loop over the citizens computes: the entries in storage order, or the first exception. */
  function CitizenRuns(cs: seq<Record>, citizens: seq<Record>): Result<seq<(Value, seq<(int, nat)>)>, Exception> {
    if |citizens| == 0 then Ok([])
    else match CitizenEntry(cs, citizens[0])
      case Err(e) => Err(e)
      case Ok(entry) => Then([entry], CitizenRuns(cs, citizens[1..]))
  }

  /** The answer of `get_presents_by_month` for the citizens of an import. */
  function PresentsByMonth(cs: seq<Record>): Result<map<int, seq<Present>>, ApiError> {
    match CitizenRuns(cs, cs)
    case Ok(contribs) => Ok(Table(contribs))
    case Err(e) => Err(Uncaught(e))
  }

  /** The number of relatives the citizens list, each list counted with its repeats. */
  function RelativesCount(citizens: seq<Record>): nat {
    if |citizens| == 0 then 0
    else
      (match Lookup(citizens[0], "relatives") case Some(List(items)) => |items| case _ => 0)
      + RelativesCount(citizens[1..])
  }

  /**
   * A citizen's entry, when there is one, carries its citizen_id and maximal
   * runs of months, and its presents over the twelve months are as many as
   * its relatives.
   */
  lemma CitizenEntryTotal(cs: seq<Record>, c: Record)
    requires CitizenEntry(cs, c).Ok?
    ensures Lookup(c, "relatives").Some? && Lookup(c, "relatives").value.List?
    ensures Lookup(c, "citizen_id") == Some(CitizenEntry(cs, c).value.0)
    ensures MaximalRuns(CitizenEntry(cs, c).value.1)
    ensures SumMonths(CitizenEntry(cs, c).value.0, CitizenEntry(cs, c).value.1, 12)
      == |Lookup(c, "relatives").value.items|
  {
    var items := Lookup(c, "relatives").value.items;
    var months := RelativeMonths(cs, items).value;
    RunsExpand(months);
    PresentsAddUpToRelatives(CitizenEntry(cs, c).value.0, months);
  }

  /**
   * A citizen whose relatives list is empty looks nothing up, has no runs,
   * and leaves every month's list as it was.
   */
  lemma CitizenWithoutRelatives(cs: seq<Record>, c: Record, cid: Value, done: seq<(Value, seq<(int, nat)>)>)
    requires Lookup(c, "relatives") == Some(List([])) && Lookup(c, "citizen_id") == Some(cid)
    ensures CitizenEntry(cs, c) == Ok((cid, []))
    ensures Table(done + [(cid, [])]) == Table(done)
  {
    assert (done + [(cid, [])])[..|done|] == done;
    forall m | 1 <= m <= 12
      ensures MonthList(done + [(cid, [])], m) == MonthList(done, m)
    {
    }
  }

  /** The loop over the citizens yields one entry per citizen, in storage order. */
  lemma {:induction false} CitizenRunsEntries(cs: seq<Record>, citizens: seq<Record>)
    requires CitizenRuns(cs, citizens).Ok?
    ensures |CitizenRuns(cs, citizens).value| == |citizens|
    ensures forall i :: 0 <= i < |citizens| ==> CitizenEntry(cs, citizens[i]) == Ok(CitizenRuns(cs, citizens).value[i])
  {
    if |citizens| > 0 {
      var rest := citizens[1..];
      CitizenRunsEntries(cs, rest);
      var v, w := CitizenRuns(cs, citizens).value, CitizenRuns(cs, rest).value;
      assert v == [CitizenEntry(cs, citizens[0]).value] + w;
      forall i | 1 <= i < |citizens| ensures CitizenEntry(cs, citizens[i]) == Ok(v[i]) {
        assert citizens[i] == rest[i - 1] && v[i] == w[i - 1];
      }
    }
  }

  /** The loop's entries count, over the twelve months, as many presents as the citizens list relatives. */
  lemma {:induction false} CitizenRunsTotal(cs: seq<Record>, citizens: seq<Record>)
    requires CitizenRuns(cs, citizens).Ok?
    ensures EntriesTotal(CitizenRuns(cs, citizens).value, 12) == RelativesCount(citizens)
  {
    if |citizens| > 0 {
      var rest := citizens[1..];
      CitizenRunsTotal(cs, rest);
      CitizenEntryTotal(cs, citizens[0]);
      var v := CitizenRuns(cs, citizens).value;
      assert v == [CitizenEntry(cs, citizens[0]).value] + CitizenRuns(cs, rest).value;
      assert v[1..] == CitizenRuns(cs, rest).value;
    }
  }

  /** A failed loop over the citizens reports the exception of the first citizen whose entry fails. */
  lemma {:induction false} CitizenRunsFirstError(cs: seq<Record>, citizens: seq<Record>)
    requires CitizenRuns(cs, citizens).Err?
    ensures exists i :: (0 <= i < |citizens| && CitizenEntry(cs, citizens[i]) == Err(CitizenRuns(cs, citizens).error)
      && forall j :: 0 <= j < i ==> CitizenEntry(cs, citizens[j]).Ok?)
  {
    if CitizenEntry(cs, citizens[0]).Ok? {
      var rest := citizens[1..];
      CitizenRunsFirstError(cs, rest);
      var i :| 0 <= i < |rest| && CitizenEntry(cs, rest[i]) == Err(CitizenRuns(cs, citizens).error)
        && forall j :: 0 <= j < i ==> CitizenEntry(cs, rest[j]).Ok?;
      assert forall j :: 0 <= j < i ==> rest[j] == citizens[j + 1];
      assert citizens[i + 1] == rest[i];
    } else {
      assert CitizenEntry(cs, citizens[0]) == Err(CitizenRuns(cs, citizens).error);
    }
  }

  /** Some citizen of the import has this citizen_id. */
  predicate NamesCitizen(cs: seq<Record>, id: Value) {
    exists i :: 0 <= i < |cs| && Lookup(cs[i], "citizen_id") == Some(id)
  }

  /**
   * The answer has the twelve months as keys, and the presents over all
   * months add up to the number of relatives the citizens list.
   */
  lemma PresentsCountRelatives(cs: seq<Record>, t: map<int, seq<Present>>)
    requires PresentsByMonth(cs) == Ok(t)
    ensures forall m :: m in t <==> IsMonth(m)
    ensures PresentsInMonths(t, 12) == RelativesCount(cs)
  {
    var contribs := CitizenRuns(cs, cs).value;
    assert t == Table(contribs);
    TableTotal(contribs);
    CitizenRunsTotal(cs, cs);
  }

  /** Every entry of the answer counts at least one present and names a citizen of the import. */
  lemma PresentsEntries(cs: seq<Record>, t: map<int, seq<Present>>)
    requires PresentsByMonth(cs) == Ok(t)
    ensures forall m, p :: m in t && p in t[m] ==> p.presents >= 1 && NamesCitizen(cs, p.citizenId)
  {
    var contribs := CitizenRuns(cs, cs).value;
    assert CitizenRuns(cs, cs) == Ok(contribs) && t == Table(contribs);
    forall m: int, p: Present | m in t && p in t[m]
      ensures p.presents >= 1 && NamesCitizen(cs, p.citizenId)
    {
      PresentsEntry(cs, contribs, m, p);
    }
  }

  /** One entry of the answer: at least one present, for a citizen of the import. */
  lemma PresentsEntry(cs: seq<Record>, contribs: seq<(Value, seq<(int, nat)>)>, m: int, p: Present)
    requires CitizenRuns(cs, cs) == Ok(contribs)
    requires p in MonthList(contribs, m)
    ensures p.presents >= 1 && NamesCitizen(cs, p.citizenId)
  {
    CitizenRunsEntries(cs, cs);
    var i := MonthListEntry(contribs, m, p);
    CitizenEntryTotal(cs, cs[i]);
    ContributionEntries(contribs[i].0, contribs[i].1, m);
  }

  /** Every entry of a month's list comes from one citizen's contribution. */
  lemma {:induction false} MonthListEntry(contribs: seq<(Value, seq<(int, nat)>)>, m: int, p: Present) returns (i: nat)
    requires p in MonthList(contribs, m)
    ensures i < |contribs| && p in Contribution(contribs[i].0, contribs[i].1, m)
  {
    var init := contribs[..|contribs| - 1];
    var last := contribs[|contribs| - 1];
    if p in MonthList(init, m) {
      i := MonthListEntry(init, m, p);
      assert contribs[i] == init[i];
    } else {
      i := |contribs| - 1;
    }
  }

  /** get_presents_by_month fails exactly with the exception of the first citizen whose entry fails. */
  lemma PresentsByMonthFailure(cs: seq<Record>)
    ensures PresentsByMonth(cs).Err? <==> exists i :: 0 <= i < |cs| && CitizenEntry(cs, cs[i]).Err?
    ensures PresentsByMonth(cs).Err? ==> exists i :: (0 <= i < |cs|
      && CitizenEntry(cs, cs[i]).Err? && PresentsByMonth(cs).error == Uncaught(CitizenEntry(cs, cs[i]).error)
      && forall j :: 0 <= j < i ==> CitizenEntry(cs, cs[j]).Ok?)
  {
    if CitizenRuns(cs, cs).Err? {
      CitizenRunsFirstError(cs, cs);
    } else {
      CitizenRunsEntries(cs, cs);
    }
  }

  /** Calls that only read. */
  predicate AllReads(calls: seq<Call>) {
    forall i :: 0 <= i < |calls| ==> calls[i].IsRead()
  }

  lemma AllReadsAppend(log: seq<Call>, a: seq<Call>, b: seq<Call>)
    requires AllReads(a) && AllReads(b)
    ensures AllReads(a + b) && log + a + b == log + (a + b)
  {
    assert forall i :: 0 <= i < |b| ==> (a + b)[|a| + i] == b[i];
  }

  /**
   * `get_presents_by_month`: for each citizen, look up the relatives' birth
   * months in list order, then append one entry per run of equal months to
   * that month's list. An import that was never stored is refused after
   * the one `get_citizens` call. A request only reads the storage.
   */
  method GetPresentsByMonth(storage: Storage, importId: int)
    returns (r: Result<map<int, seq<Present>>, ApiError>, ghost calls: seq<Call>)
    requires storage.Valid()
    modifies storage
    ensures storage.Valid()
    ensures storage.counter == old(storage.counter) && storage.imports == old(storage.imports)
    ensures storage.log == old(storage.log) + calls && AllReads(calls)
    ensures importId !in old(storage.imports) ==> r == Err(UnknownImport) && calls == [GetCitizensCall(importId)]
    ensures importId in old(storage.imports) ==> r == PresentsByMonth(old(storage.imports)[importId])
  {
    var listed := storage.GetCitizens(importId);
    calls := [GetCitizensCall(importId)];
    if listed.Err? {
      return Err(UnknownImport), calls;
    }
    var citizens := listed.value;
    ghost var log0 := old(storage.log);
    ghost var cs := citizens;
    var table := EmptyTable();
    ghost var done: seq<(Value, seq<(int, nat)>)> := [];
    var i := 0;
    assert citizens[i..] == citizens;
    ThenNothing(CitizenRuns(cs, cs));
    while i < |citizens|
      invariant 0 <= i <= |citizens|
      invariant storage.Valid() && storage.counter == old(storage.counter)
      invariant storage.imports == old(storage.imports) && storage.Citizens(importId) == cs
      invariant storage.log == log0 + calls && AllReads(calls)
      invariant table == Table(done)
      invariant CitizenRuns(cs, cs) == Then(done, CitizenRuns(cs, citizens[i..]))
    {
      var c := citizens[i];
      assert citizens[i..][1..] == citizens[i + 1..];
      var entry, more := ReadCitizen(storage, importId, c);
      AllReadsAppend(log0, calls, more);
      calls := calls + more;
      if entry.Err? {
        return Err(Uncaught(entry.error)), calls;
      }
      var (cid, runs) := entry.value;
      ThenAppend(done, (cid, runs), CitizenRuns(cs, citizens[i + 1..]));
      table := AddRuns(table, done, cid, runs);
      done := done + [(cid, runs)];
      i := i + 1;
    }
    assert citizens[i..] == [];
    assert done + [] == done;
    return Ok(table), calls;
  }

  /** One turn of the loop over the citizens up to the `groupby`: read relatives, months and id. */
  method ReadCitizen(storage: Storage, importId: int, c: Record)
    returns (r: Result<(Value, seq<(int, nat)>), Exception>, ghost calls: seq<Call>)
    requires storage.Valid()
    modifies storage
    ensures storage.Valid()
    ensures storage.counter == old(storage.counter) && storage.imports == old(storage.imports)
    ensures storage.log == old(storage.log) + calls && AllReads(calls)
    ensures r == CitizenEntry(old(storage.Citizens(importId)), c)
    ensures r.Ok? ==> forall k :: 0 <= k < |r.value.1| ==> IsMonth(r.value.1[k].0)
  {
    calls := [];
    assert storage.log == old(storage.log) + calls;
    var rel := Lookup(c, "relatives");
    if rel.None? {
      return Err(KeyError), calls;
    }
    if !rel.value.List? {
      return Err(TypeError), calls;
    }
    var months;
    months, calls := BirthMonths(storage, importId, rel.value.items);
    if months.Err? {
      return Err(months.error), calls;
    }
    var cid := Lookup(c, "citizen_id");
    if cid.None? {
      return Err(KeyError), calls;
    }
    RunKeysFromInput(months.value);
    return Ok((cid.value, Runs(months.value))), calls;
  }

  /** The inner loop over `citizen['relatives']`: the months of birth, in list order. */
  method BirthMonths(storage: Storage, importId: int, ids: seq<Value>)
    returns (r: Result<seq<int>, Exception>, ghost calls: seq<Call>)
    requires storage.Valid()
    modifies storage
    ensures storage.Valid()
    ensures storage.counter == old(storage.counter) && storage.imports == old(storage.imports)
    ensures storage.log == old(storage.log) + calls && AllReads(calls)
    ensures r == RelativeMonths(old(storage.Citizens(importId)), ids)
  {
    ghost var cs := storage.Citizens(importId);
    ghost var log0 := storage.log;
    calls := [];
    assert log0 + calls == log0;
    var months: seq<int> := [];
    var j := 0;
    assert ids[j..] == ids;
    ThenNothing(RelativeMonths(cs, ids));
    while j < |ids|
      invariant 0 <= j <= |ids|
      invariant storage.Valid() && storage.counter == old(storage.counter)
      invariant storage.imports == old(storage.imports) && storage.Citizens(importId) == cs
      invariant storage.log == log0 + calls && AllReads(calls)
      invariant RelativeMonths(cs, ids) == Then(months, RelativeMonths(cs, ids[j..]))
    {
      assert ids[j..][1..] == ids[j + 1..];
      var month := ReadBirthMonth(storage, importId, ids[j]);
      AllReadsAppend(log0, calls, [GetOneCitizenCall(importId, ids[j])]);
      calls := calls + [GetOneCitizenCall(importId, ids[j])];
      if month.Err? {
        return Err(month.error), calls;
      }
      ThenAppend(months, month.value, RelativeMonths(cs, ids[j + 1..]));
      months := months + [month.value];
      j := j + 1;
    }
    assert ids[j..] == [];
    assert months + [] == months;
    return Ok(months), calls;
  }

  /** One turn of the loop over the relatives: `get_one_citizen`, then `strptime` of its birth_date. */
  method ReadBirthMonth(storage: Storage, importId: int, id: Value) returns (r: Result<int, Exception>)
    requires storage.Valid()
    modifies storage
    ensures storage.Valid()
    ensures storage.counter == old(storage.counter) && storage.imports == old(storage.imports)
    ensures storage.log == old(storage.log) + [GetOneCitizenCall(importId, id)]
    ensures r == RelativeMonth(old(storage.Citizens(importId)), id)
  {
    var found := storage.GetOneCitizen(importId, id);
    if found.Err? {
      return Err(CitizenNotFoundError);
    }
    var birth := Lookup(found.value, "birth_date");
    if birth.None? {
      return Err(KeyError);
    }
    r := StrptimeMonth(birth.value);
  }

  lemma ThenNothing<T>(rest: Result<seq<T>, Exception>)
    ensures Then([], rest) == rest
  {
    if rest.Ok? {
      assert [] + rest.value == rest.value;
    }
  }

  lemma ThenAppend<T>(done: seq<T>, x: T, rest: Result<seq<T>, Exception>)
    ensures Then(done, Then([x], rest)) == Then(done + [x], rest)
  {
    if rest.Ok? {
      assert done + ([x] + rest.value) == (done + [x]) + rest.value;
    }
  }

  /** The table once the citizens done and the runs rs of citizen cid have been added. */
  ghost predicate TableUpTo(t: map<int, seq<Present>>, done: seq<(Value, seq<(int, nat)>)>, cid: Value, rs: seq<(int, nat)>) {
    && (forall m :: m in t <==> IsMonth(m))
    && forall m :: IsMonth(m) ==> t[m] == MonthList(done, m) + Contribution(cid, rs, m)
  }

  lemma TableUpToStart(t: map<int, seq<Present>>, done: seq<(Value, seq<(int, nat)>)>, cid: Value)
    requires t == Table(done)
    ensures TableUpTo(t, done, cid, [])
  {
  }

  /** Appending the entry of run k to its month's list extends the table by that run. */
  lemma TableUpToStep(t: map<int, seq<Present>>, done: seq<(Value, seq<(int, nat)>)>, cid: Value, runs: seq<(int, nat)>, k: nat)
    requires k < |runs| && IsMonth(runs[k].0)
    requires TableUpTo(t, done, cid, runs[..k])
    ensures TableUpTo(t[runs[k].0 := t[runs[k].0] + [Present(cid, runs[k].1)]], done, cid, runs[..k + 1])
  {
    var t' := t[runs[k].0 := t[runs[k].0] + [Present(cid, runs[k].1)]];
    forall m | IsMonth(m) ensures t'[m] == MonthList(done, m) + Contribution(cid, runs[..k + 1], m) {
      ContributionSnoc(cid, runs, k, m);
    }
  }

  lemma TableUpToEnd(t: map<int, seq<Present>>, done: seq<(Value, seq<(int, nat)>)>, cid: Value, runs: seq<(int, nat)>)
    requires TableUpTo(t, done, cid, runs)
    ensures t == Table(done + [(cid, runs)])
  {
    forall m | IsMonth(m) ensures t[m] == MonthList(done + [(cid, runs)], m) {
      assert (done + [(cid, runs)])[..|done|] == done;
    }
  }

  /**
   * The loop over `groupby(...)` for one citizen: append one entry per run to
   * the month of the run, so the table becomes that of one more citizen.
   */
  method AddRuns(table: map<int, seq<Present>>, ghost done: seq<(Value, seq<(int, nat)>)>, cid: Value, runs: seq<(int, nat)>)
    returns (t: map<int, seq<Present>>)
    requires table == Table(done)
    requires forall k :: 0 <= k < |runs| ==> IsMonth(runs[k].0)
    ensures t == Table(done + [(cid, runs)])
  {
    t := table;
    var k := 0;
    TableUpToStart(t, done, cid);
    assert runs[..k] == [];
    while k < |runs|
      invariant 0 <= k <= |runs|
      invariant TableUpTo(t, done, cid, runs[..k])
    {
      TableUpToStep(t, done, cid, runs, k);
      var (month, count) := runs[k];
      t := t[month := t[month] + [Present(cid, count)]];
      k := k + 1;
    }
    assert runs[..k] == runs;
    TableUpToEnd(t, done, cid, runs);
  }
}
