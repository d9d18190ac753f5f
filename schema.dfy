/**
 * `CitizenSchema` (citizens/schema.py:94-123): the table of the nine declared
 * fields and `validate`, which walks a record's items in insertion order,
 * stops at the first unknown key or invalid value, and in non-partial mode
 * then requires all nine fields.
 */
module Schema {
  import opened Json
  import opened Dates
  import opened Fields

  /** The validator object attached to a declared field. */
  datatype FieldKind =
    | PositiveIntegerField
    | StringField(rule: StringRule)
    | BirthDateField
    | ListOfPositiveIntegers(unique: bool)

  function ValidateField(kind: FieldKind, v: Value, today: Date): Outcome<FieldError> {
    match kind
    case PositiveIntegerField => PositiveInteger(v)
    case StringField(rule) => ValidateString(rule, v)
    case BirthDateField => ValidateBirthDate(v, today)
    case ListOfPositiveIntegers(unique) => ValidateList(unique, v)
  }

  /** town, street and building: at most 256 characters, at least one letter or digit. */
  const AddressRule := StringRule(0, Some(256), true, [])
  /** name: one to 256 characters. */
  const NameRule := StringRule(1, Some(256), false, [])
  /** gender: exactly one of two values. */
  const GenderRule := StringRule(0, None, false, ["male", "female"])

  /** The class attributes of `CitizenSchema` that are fields, in declaration order. */
  const CitizenFields: seq<(string, FieldKind)> := [
    ("citizen_id", PositiveIntegerField),
    ("town", StringField(AddressRule)),
    ("street", StringField(AddressRule)),
    ("building", StringField(AddressRule)),
    ("apartment", PositiveIntegerField),
    ("name", StringField(NameRule)),
    ("birth_date", BirthDateField),
    ("gender", StringField(GenderRule)),
    ("relatives", ListOfPositiveIntegers(true))
  ]

  function FindKind(table: seq<(string, FieldKind)>, name: string): (k: Option<FieldKind>)
    ensures k.Some? <==> exists i :: 0 <= i < |table| && table[i].0 == name
  {
    if |table| == 0 then None
    else if table[0].0 == name then Some(table[0].1)
    else
      assert forall i :: 1 <= i < |table| ==> table[i] == table[1..][i - 1];
      FindKind(table[1..], name)
  }

  /** In a table without repeated names, each name finds its own entry. */
  lemma {:induction false} FindKindAt(table: seq<(string, FieldKind)>, i: nat)
    requires i < |table|
    requires forall a, b :: 0 <= a < b < |table| ==> table[a].0 != table[b].0
    ensures FindKind(table, table[i].0) == Some(table[i].1)
  {
    if i > 0 {
      FindKindAt(table[1..], i - 1);
    }
  }

  /** `self.fields[name]`, or None for a key the schema does not declare. */
  function KindOf(name: string): Option<FieldKind> {
    FindKind(CitizenFields, name)
  }

  /** The keys of a table of pairs. */
  function TableKeys<V>(t: seq<(string, V)>): (ks: set<string>)
    ensures forall k :: k in ks <==> exists i :: 0 <= i < |t| && t[i].0 == k
  {
    set i | 0 <= i < |t| :: t[i].0
  }

  const DeclaredNames: set<string> := TableKeys(CitizenFields)

  /** `self.fields_cnt`, the number of entries of the field dict. */
  const FieldCount: nat := |CitizenFields|

  lemma DeclaredNamesAreTheTable(name: string)
    ensures KindOf(name).Some? <==> name in DeclaredNames
  {
  }

  /**
   * The string fields of the schema: an address part needs a letter or a digit
   * (so an empty one is refused for that reason), a name needs at least one
   * character, and a gender is exactly "male" or "female".
   */
  lemma DeclaredStringRules(v: Value)
    ensures KindOf("town") == Some(StringField(AddressRule))
    ensures KindOf("street") == Some(StringField(AddressRule))
    ensures KindOf("building") == Some(StringField(AddressRule))
    ensures KindOf("name") == Some(StringField(NameRule))
    ensures KindOf("gender") == Some(StringField(GenderRule))
    ensures ValidateString(AddressRule, v).Pass? <==> v.Str? && |v.s| <= 256 && HasLetterOrDigit(v.s)
    ensures ValidateString(AddressRule, Str("")) == Fail(NoLetterOrDigit)
    ensures ValidateString(NameRule, v).Pass? <==> v.Str? && 1 <= |v.s| <= 256
    ensures ValidateString(NameRule, Str("")) == Fail(TooShort)
    ensures ValidateString(GenderRule, v).Pass? <==> v == Str("male") || v == Str("female")
  {
    FindKindAt(CitizenFields, 1);
    FindKindAt(CitizenFields, 2);
    FindKindAt(CitizenFields, 3);
    FindKindAt(CitizenFields, 5);
    FindKindAt(CitizenFields, 7);
  }

  lemma FieldCountIsNumberOfNames()
    ensures |DeclaredNames| == FieldCount
  {
    DistinctKeysCard(CitizenFields);
  }

  /** A table whose keys do not repeat has as many keys as entries. */
  lemma {:induction false} DistinctKeysCard<V>(t: seq<(string, V)>)
    requires forall i, j :: 0 <= i < j < |t| ==> t[i].0 != t[j].0
    ensures |TableKeys(t)| == |t|
  {
    if |t| > 0 {
      var init := t[..|t| - 1];
      DistinctKeysCard(init);
      assert TableKeys(t) == TableKeys(init) + {t[|t| - 1].0};
    }
  }

  /** Why `validate` raised `SchemaValidationError`. */
  datatype SchemaError =
    | UnknownField                               // 'unknown field'
    | InvalidField(name: string, reason: FieldError)  // 'Field `name` is invalid: ...'
    | MissingFields                              // 'all fields required'

  /** One step of the loop: the key must be declared and its value must pass. */
  function CheckItem(item: (string, Value), today: Date): Outcome<SchemaError> {
    match KindOf(item.0)
    case None => Fail(UnknownField)
    case Some(kind) =>
      match ValidateField(kind, item.1, today)
      case Fail(e) => Fail(InvalidField(item.0, e))
      case Pass => Pass
  }

  /** The loop over `data.items()`: the first failing item decides. */
  function CheckItems(items: seq<(string, Value)>, today: Date): Outcome<SchemaError> {
    if |items| == 0 then Pass
    else match CheckItem(items[0], today)
      case Fail(e) => Fail(e)
      case Pass => CheckItems(items[1..], today)
  }

  /** `CitizenSchema().validate(data, partial)`. */
  function ValidateRecord(data: Record, partial: bool, today: Date): Outcome<SchemaError> {
    match CheckItems(data, today)
    case Fail(e) => Fail(e)
    case Pass => if !partial && FieldCount != |data| then Fail(MissingFields) else Pass
  }

  /** `CitizenSchema.validate`, as the loop the source runs. */
  method Validate(data: Record, partial: bool, today: Date) returns (r: Outcome<SchemaError>)
    ensures r == ValidateRecord(data, partial, today)
  {
    var i := 0;
    while i < |data|
      invariant 0 <= i <= |data|
      invariant CheckItems(data, today) == CheckItems(data[i..], today)
    {
      assert data[i..][1..] == data[i + 1..];
      var (name, value) := data[i];
      var kind := KindOf(name);
      if kind.None? {
        return Fail(UnknownField);
      }
      var check := ValidateField(kind.value, value, today);
      if check.Fail? {
        return Fail(InvalidField(name, check.error));
      }
      i := i + 1;
    }
    if !partial && FieldCount != |data| {
      return Fail(MissingFields);
    }
    return Pass;
  }

  // ---------------------------------------------------------------------------
  // What validation means

  /** Key `name` is declared and its value passes that field's validator. */
  predicate ItemValid(item: (string, Value), today: Date) {
    KindOf(item.0).Some? && ValidateField(KindOf(item.0).value, item.1, today).Pass?
  }

  lemma {:induction false} CheckItemsPassIff(items: seq<(string, Value)>, today: Date)
    ensures CheckItems(items, today).Pass? <==> forall i :: 0 <= i < |items| ==> ItemValid(items[i], today)
  {
    if |items| > 0 {
      CheckItemsPassIff(items[1..], today);
      assert forall i :: 1 <= i < |items| ==> items[i] == items[1..][i - 1];
    }
  }

  /**
   * A failure names the first item that is unknown or invalid, in insertion
   * order: every earlier item is declared and valid.
   */
  lemma {:induction false} CheckItemsFirstFailure(items: seq<(string, Value)>, today: Date)
    requires CheckItems(items, today).Fail?
    ensures exists i :: (0 <= i < |items|
      && CheckItem(items[i], today) == CheckItems(items, today)
      && forall j :: 0 <= j < i ==> ItemValid(items[j], today))
  {
    if CheckItem(items[0], today).Pass? {
      CheckItemsFirstFailure(items[1..], today);
      var i :| 0 <= i < |items[1..]|
        && CheckItem(items[1..][i], today) == CheckItems(items[1..], today)
        && forall j :: 0 <= j < i ==> ItemValid(items[1..][j], today);
      assert forall j :: 1 <= j < i + 1 ==> items[j] == items[1..][j - 1];
      assert CheckItem(items[i + 1], today) == CheckItems(items, today);
    } else {
      assert CheckItem(items[0], today) == CheckItems(items, today);
    }
  }

  /** The set of keys of a record. */
  function KeySet(r: Record): (ks: set<string>)
    ensures forall k :: k in ks <==> HasKey(r, k)
  {
    TableKeys(r)
  }

  lemma KeySetSize(r: Record)
    ensures |KeySet(r)| == |r|
  {
    DistinctKeysCard(r);
  }

  lemma SubsetOfSameSize<T>(a: set<T>, b: set<T>)
    requires a <= b && |a| == |b|
    ensures a == b
  {
    assert a + (b - a) == b;
    assert a * (b - a) == {};
    assert |b - a| == 0;
  }

  /**
   * Partial validation (used for updates) accepts exactly the records whose
   * every key is declared and whose every value passes.
   */
  lemma PartialValidation(data: Record, today: Date)
    ensures ValidateRecord(data, true, today).Pass? <==>
      forall i :: 0 <= i < |data| ==> ItemValid(data[i], today)
  {
    CheckItemsPassIff(data, today);
  }

  /**
   * Full validation accepts exactly the records whose keys are the nine
   * declared fields and whose every value passes.
   */
  lemma FullValidation(data: Record, today: Date)
    ensures ValidateRecord(data, false, today).Pass? <==>
      KeySet(data) == DeclaredNames && forall i :: 0 <= i < |data| ==> ItemValid(data[i], today)
  {
    CheckItemsPassIff(data, today);
    KeySetSize(data);
    FieldCountIsNumberOfNames();
    if forall i :: 0 <= i < |data| ==> ItemValid(data[i], today) {
      assert KeySet(data) <= DeclaredNames;
      if |data| == FieldCount {
        SubsetOfSameSize(KeySet(data), DeclaredNames);
      }
    }
  }

  /** A key the schema does not declare is rejected in both modes. */
  lemma UnknownKeyRejected(data: Record, partial: bool, today: Date, k: nat)
    requires k < |data| && data[k].0 !in DeclaredNames
    ensures ValidateRecord(data, partial, today).Fail?
    ensures ValidateRecord(data, partial, today).error != MissingFields
  {
    CheckItemsPassIff(data, today);
    assert !ItemValid(data[k], today);
    CheckItemsFirstFailure(data, today);
  }

  /** UnknownField is reported for the first item, in insertion order, that is not fine, and it is undeclared. */
  lemma UnknownFieldIsFirst(data: Record, partial: bool, today: Date)
    requires ValidateRecord(data, partial, today) == Fail(UnknownField)
    ensures exists i :: (0 <= i < |data| && KindOf(data[i].0).None?
      && forall j :: 0 <= j < i ==> ItemValid(data[j], today))
  {
    CheckItemsFirstFailure(data, today);
  }

  /**
   * InvalidField names the first item, in insertion order, that is not fine,
   * and carries the reason its validator gave.
   */
  lemma InvalidFieldIsFirst(data: Record, partial: bool, today: Date, name: string, reason: FieldError)
    requires ValidateRecord(data, partial, today) == Fail(InvalidField(name, reason))
    ensures exists i :: (0 <= i < |data| && data[i].0 == name && KindOf(name).Some?
      && ValidateField(KindOf(name).value, data[i].1, today) == Fail(reason)
      && forall j :: 0 <= j < i ==> ItemValid(data[j], today))
  {
    CheckItemsFirstFailure(data, today);
  }

  /** MissingFields: every item is fine, the mode is not partial, and a declared field is absent. */
  lemma MissingFieldsMeansAbsentField(data: Record, partial: bool, today: Date)
    requires ValidateRecord(data, partial, today) == Fail(MissingFields)
    ensures !partial
    ensures forall i :: 0 <= i < |data| ==> ItemValid(data[i], today)
    ensures KeySet(data) < DeclaredNames
  {
    assert CheckItems(data, today).Pass? by {
      if CheckItems(data, today).Fail? {
        CheckItemsFirstFailure(data, today);
      }
    }
    CheckItemsPassIff(data, today);
    assert |data| != FieldCount;
    KeySetSize(data);
    FieldCountIsNumberOfNames();
    assert KeySet(data) <= DeclaredNames;
    assert |KeySet(data)| != |DeclaredNames|;
    assert KeySet(data) != DeclaredNames;
  }

  /** After a full validation every declared field is present and its value passes. */
  lemma FullValidationFieldPresent(data: Record, today: Date, name: string)
    requires ValidateRecord(data, false, today).Pass?
    requires name in DeclaredNames
    ensures Lookup(data, name).Some?
    ensures ValidateField(KindOf(name).value, Lookup(data, name).value, today).Pass?
  {
    FullValidation(data, today);
    assert HasKey(data, name);
    var i :| 0 <= i < |data| && data[i].0 == name;
    LookupAt(data, i);
    assert ItemValid(data[i], today);
  }

  /** After a partial validation every declared field that is present passes. */
  lemma PartialValidationFieldValid(data: Record, today: Date, name: string)
    requires ValidateRecord(data, true, today).Pass?
    requires Lookup(data, name).Some?
    ensures KindOf(name).Some?
    ensures ValidateField(KindOf(name).value, Lookup(data, name).value, today).Pass?
  {
    PartialValidation(data, today);
    var i :| 0 <= i < |data| && data[i] == (name, Lookup(data, name).value);
    assert ItemValid(data[i], today);
  }
}
