/**
 * The field validators of citizens/schema.py: `Field._check_type`,
 * `PositiveInteger`, `String`, `BirthDate` and `List`. Each one either
 * returns (Pass) or raises `FieldValidationError` (Fail, with the reason).
 */
module Fields {
  import opened Json
  import opened Dates

  /** Why a `FieldValidationError` was raised; the message text is not modelled. */
  datatype FieldError =
    | InvalidType        // `_check_type`
    | NotPositive        // value must be > 0
    | TooShort           // below min_length
    | TooLong            // above max_length
    | NoLetterOrDigit    // at least one digit or letter required
    | UnexpectedValue    // not among the enumerated values
    | InvalidFormat      // the birth-date pattern does not match
    | InvalidDate        // `datetime.date` refuses the day, month and year
    | NotEarlierThanToday
    | NotUnique          // a list with repeated elements

  /** The Python types `_check_type` is asked about. */
  datatype PyType = IntType | StrType | ListType

  /** `isinstance(v, t)`; a bool is an int. */
  predicate IsInstance(v: Value, t: PyType) {
    match t
    case IntType => IsPyInt(v)
    case StrType => v.Str?
    case ListType => v.List?
  }

  /** `Field._check_type`: raise unless v has the expected type. */
  function CheckType(v: Value, t: PyType): (r: Outcome<FieldError>)
    ensures r.Pass? <==> IsInstance(v, t)
    ensures r.Fail? ==> r.error == InvalidType
  {
    if IsInstance(v, t) then Pass else Fail(InvalidType)
  }

  /** `PositiveInteger.validate`. */
  function PositiveInteger(v: Value): Outcome<FieldError> {
    match CheckType(v, IntType)
    case Fail(e) => Fail(e)
    case Pass => if IntOf(v) <= 0 then Fail(NotPositive) else Pass
  }

  /** Accepted exactly when v is an int or a bool standing for a number above zero. */
  lemma PositiveIntegerAccepts(v: Value)
    ensures PositiveInteger(v).Pass? <==> (v.Int? && v.i > 0) || v == Bool(true)
    ensures PositiveInteger(v).Fail? ==>
      PositiveInteger(v).error == (if IsPyInt(v) then NotPositive else InvalidType)
  {
  }

  // ---------------------------------------------------------------------------
  // String

  /** The constructor arguments of `String`: min_length, max_length, letter_or_digit_required, values. */
  datatype StringRule = StringRule(
    minLength: nat,
    maxLength: Option<nat>,
    letterOrDigitRequired: bool,
    values: seq<string>)

  /**
   * `str.isalpha`, for the letters addresses and names here are written in:
   * the Latin and the Russian alphabets.
   */
  predicate IsAlpha(c: char) {
    ('a' <= c <= 'z') || ('A' <= c <= 'Z')
    || ('А' <= c <= 'я') || c == 'Ё' || c == 'ё'
  }

  predicate HasLetterOrDigit(s: string) {
    exists i :: 0 <= i < |s| && (IsAlpha(s[i]) || IsDigit(s[i]))
  }

  /** `String.validate`: the checks in source order, the first failing one raises. */
  function ValidateString(rule: StringRule, v: Value): Outcome<FieldError> {
    match CheckType(v, StrType)
    case Fail(e) => Fail(e)
    case Pass =>
      var s := v.s;
      if rule.minLength > 0 && |s| < rule.minLength then Fail(TooShort)
      else if rule.maxLength.Some? && |s| > rule.maxLength.value then Fail(TooLong)
      else if rule.letterOrDigitRequired && !HasLetterOrDigit(s) then Fail(NoLetterOrDigit)
      else if |rule.values| > 0 && s !in rule.values then Fail(UnexpectedValue)
      else Pass
  }

  /** Position of each string check in the order `String.validate` runs them. */
  function StringCheckRank(e: FieldError): nat {
    match e
    case InvalidType => 0
    case TooShort => 1
    case TooLong => 2
    case NoLetterOrDigit => 3
    case UnexpectedValue => 4
    case _ => 5
  }

  /** Each string check on its own, regardless of the others. */
  predicate ViolatesString(rule: StringRule, v: Value, e: FieldError) {
    match e
    case InvalidType => !v.Str?
    case TooShort => v.Str? && |v.s| < rule.minLength
    case TooLong => v.Str? && rule.maxLength.Some? && |v.s| > rule.maxLength.value
    case NoLetterOrDigit => v.Str? && rule.letterOrDigitRequired && !HasLetterOrDigit(v.s)
    case UnexpectedValue => v.Str? && |rule.values| > 0 && v.s !in rule.values
    case _ => false
  }

  /**
   * A string passes iff it violates none of the five checks, and a failure
   * reports the earliest violated check in the fixed order
   * type, min length, max length, letter or digit, enumerated values.
   */
  lemma StringFirstFailureWins(rule: StringRule, v: Value)
    ensures ValidateString(rule, v).Pass? <==> forall e :: !ViolatesString(rule, v, e)
    ensures ValidateString(rule, v).Fail? ==>
      var e := ValidateString(rule, v).error;
      ViolatesString(rule, v, e)
      && forall e' :: StringCheckRank(e') < StringCheckRank(e) ==> !ViolatesString(rule, v, e')
  {
    if ValidateString(rule, v).Fail? {
      var e := ValidateString(rule, v).error;
      assert ViolatesString(rule, v, e);
    }
  }

  // ---------------------------------------------------------------------------
  // BirthDate

  /** `BirthDate.validate` at the given date of today (UTC). */
  function ValidateBirthDate(v: Value, today: Date): Outcome<FieldError> {
    match ValidateString(StringRule(0, None, false, []), v)
    case Fail(e) => Fail(e)
    case Pass =>
      match MatchDate(v.s)
      case None => Fail(InvalidFormat)
      case Some(groups) =>
        var (d, m, y) := groups;
        MatchDateCorrect(v.s);
        var day, month, year := DigitsValue(d), DigitsValue(m), DigitsValue(y);
        if !IsValidDate(year, month, day) then Fail(InvalidDate)
        else if !Before(Date(year, month, day), today) then Fail(NotEarlierThanToday)
        else Pass
  }

  /**
   * A birth date is accepted iff it is a string that matches the pattern,
   * names a calendar date, and that date is strictly earlier than today.
   */
  lemma BirthDateAccepts(v: Value, today: Date)
    ensures ValidateBirthDate(v, today).Pass? <==>
      v.Str? && exists d, m, y ::
        && MatchesAs(v.s, d, m, y)
        && IsValidDate(DigitsValue(y), DigitsValue(m), DigitsValue(d))
        && Before(Date(DigitsValue(y), DigitsValue(m), DigitsValue(d)), today)
  {
    if v.Str? {
      MatchDateCorrect(v.s);
      if ValidateBirthDate(v, today).Pass? {
        var (d, m, y) := MatchDate(v.s).value;
        assert MatchesAs(v.s, d, m, y);
      }
    }
  }

  /** The failure reasons of a birth date, one per stage of `BirthDate.validate`. */
  lemma BirthDateFailures(v: Value, today: Date)
    ensures !v.Str? ==> ValidateBirthDate(v, today) == Fail(InvalidType)
    ensures v.Str? && (forall d, m, y :: !MatchesAs(v.s, d, m, y)) ==>
      ValidateBirthDate(v, today) == Fail(InvalidFormat)
    ensures forall d, m, y :: v.Str? && MatchesAs(v.s, d, m, y) ==>
      ValidateBirthDate(v, today) ==
        (if !IsValidDate(DigitsValue(y), DigitsValue(m), DigitsValue(d)) then Fail(InvalidDate)
         else if !Before(Date(DigitsValue(y), DigitsValue(m), DigitsValue(d)), today)
         then Fail(NotEarlierThanToday)
         else Pass)
  {
    if v.Str? {
      MatchDateCorrect(v.s);
    }
  }

  // ---------------------------------------------------------------------------
  // List

  /** `len(values) != len(set(values))` is false: no two elements are equal as Python keys. */
  predicate NoDuplicates(items: seq<Value>)
    requires forall i :: 0 <= i < |items| ==> IsPyInt(items[i])
  {
    forall i, j :: 0 <= i < j < |items| ==> IntOf(items[i]) != IntOf(items[j])
  }

  /** The first element `PositiveInteger` rejects, with its reason. */
  function FirstBadElement(items: seq<Value>): (r: Option<(nat, FieldError)>)
    ensures r.Some? ==> r.value.0 < |items| && PositiveInteger(items[r.value.0]) == Fail(r.value.1)
    ensures r.Some? ==> forall j :: 0 <= j < r.value.0 ==> PositiveInteger(items[j]).Pass?
    ensures r.None? <==> forall j :: 0 <= j < |items| ==> PositiveInteger(items[j]).Pass?
  {
    if |items| == 0 then None
    else match PositiveInteger(items[0])
      case Fail(e) => Some((0, e))
      case Pass =>
        match FirstBadElement(items[1..])
        case None => None
        case Some(p) => Some((p.0 + 1, p.1))
  }

  /**
   * `List(element_type=PositiveInteger(), unique=...).validate`: a list, every
   * element (in order) a positive integer, and, when unique, no repeats.
   */
  function ValidateList(unique: bool, v: Value): Outcome<FieldError> {
    match CheckType(v, ListType)
    case Fail(e) => Fail(e)
    case Pass =>
      match FirstBadElement(v.items)
      case Some(p) => Fail(p.1)
      case None =>
        if unique && !NoDuplicates(v.items) then Fail(NotUnique) else Pass
  }

  /**
   * The relatives list is accepted iff it is a list of positive integers with
   * no repeats; an element failure reports the first bad element.
   */
  lemma RelativesListAccepts(v: Value)
    ensures ValidateList(true, v).Pass? <==>
      v.List? && (forall i :: 0 <= i < |v.items| ==> PositiveInteger(v.items[i]).Pass?)
      && NoDuplicates(v.items)
    ensures v.List? && ValidateList(true, v).Fail? && ValidateList(true, v).error != NotUnique ==>
      exists i :: 0 <= i < |v.items| && PositiveInteger(v.items[i]) == ValidateList(true, v)
        && forall j :: 0 <= j < i ==> PositiveInteger(v.items[j]).Pass?
  {
    if v.List? && FirstBadElement(v.items).Some? {
      var i := FirstBadElement(v.items).value.0;
      assert PositiveInteger(v.items[i]) == ValidateList(true, v);
    }
  }
}
