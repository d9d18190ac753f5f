/**
 * The concrete inputs of tests/test_data.py, judged by the field validators
 * on 14 October 2026 unless another day is named.
 */
module FieldExamples {
  import opened Json
  import opened Dates
  import opened Fields

  /** The verdict on a string of the pattern's shape, from its three groups. */
  lemma Judged(d: string, m: string, y: string, today: Date)
    requires AllDigits(d) && 1 <= |d| <= 2
    requires AllDigits(m) && 1 <= |m| <= 2
    requires AllDigits(y) && |y| == 4
    ensures var year, month, day := DigitsValue(y), DigitsValue(m), DigitsValue(d);
      ValidateBirthDate(Str(d + "." + m + "." + y), today) ==
        if !IsValidDate(year, month, day) then Fail(InvalidDate)
        else if !Before(Date(year, month, day), today) then Fail(NotEarlierThanToday)
        else Pass
  {
    var s := d + "." + m + "." + y;
    assert MatchesAs(s, d, m, y);
    BirthDateFailures(Str(s), today);
  }

  /** 31 February does not exist. */
  lemma ThirtyFirstFebruary()
    ensures ValidateBirthDate(Str("31.02.1997"), Date(2026, 10, 14)) == Fail(InvalidDate)
  {
    assert "31.02.1997" == "31" + "." + "02" + "." + "1997";
    DigitsValueExpand("31"); DigitsValueExpand("02"); DigitsValueExpand("1997");
    Judged("31", "02", "1997", Date(2026, 10, 14));
  }

  /** 2019 is not a leap year. */
  lemma LeapDayOfCommonYear()
    ensures ValidateBirthDate(Str("29.02.2019"), Date(2026, 10, 14)) == Fail(InvalidDate)
  {
    assert "29.02.2019" == "29" + "." + "02" + "." + "2019";
    DigitsValueExpand("29"); DigitsValueExpand("02"); DigitsValueExpand("2019");
    assert DigitsValue("29") == 29 && DigitsValue("02") == 2 && DigitsValue("2019") == 2019;
    Judged("29", "02", "2019", Date(2026, 10, 14));
    assert !IsLeapYear(2019);
  }

  /** Year 0 is below `datetime.MINYEAR`. */
  lemma YearZero()
    ensures ValidateBirthDate(Str("00.00.0000"), Date(2026, 10, 14)) == Fail(InvalidDate)
  {
    assert "00.00.0000" == "00" + "." + "00" + "." + "0000";
    DigitsValueExpand("00"); DigitsValueExpand("00"); DigitsValueExpand("0000");
    Judged("00", "00", "0000", Date(2026, 10, 14));
  }

  /** A date after today is refused. */
  lemma DateInFuture()
    ensures ValidateBirthDate(Str("01.01.5020"), Date(2026, 10, 14)) == Fail(NotEarlierThanToday)
  {
    assert "01.01.5020" == "01" + "." + "01" + "." + "5020";
    DigitsValueExpand("01"); DigitsValueExpand("01"); DigitsValueExpand("5020");
    Judged("01", "01", "5020", Date(2026, 10, 14));
  }

  /** Year 1 is accepted. */
  lemma YearOne()
    ensures ValidateBirthDate(Str("1.1.0001"), Date(2026, 10, 14)) == Pass
  {
    assert "1.1.0001" == "1" + "." + "1" + "." + "0001";
    DigitsValueExpand("1"); DigitsValueExpand("1"); DigitsValueExpand("0001");
    Judged("1", "1", "0001", Date(2026, 10, 14));
  }

  /** 2016 is a leap year. */
  lemma LeapDayOfLeapYear()
    ensures ValidateBirthDate(Str("29.02.2016"), Date(2026, 10, 14)) == Pass
  {
    assert "29.02.2016" == "29" + "." + "02" + "." + "2016";
    DigitsValueExpand("29"); DigitsValueExpand("02"); DigitsValueExpand("2016");
    assert DigitsValue("29") == 29 && DigitsValue("02") == 2 && DigitsValue("2016") == 2016;
    Judged("29", "02", "2016", Date(2026, 10, 14));
    assert IsLeapYear(2016);
  }

  /** Day and month may have one or two digits. */
  lemma OneDigitDay()
    ensures ValidateBirthDate(Str("1.02.1997"), Date(2026, 10, 14)) == Pass
  {
    assert "1.02.1997" == "1" + "." + "02" + "." + "1997";
    DigitsValueExpand("1"); DigitsValueExpand("02"); DigitsValueExpand("1997");
    Judged("1", "02", "1997", Date(2026, 10, 14));
  }

  /** `$` also matches just before a single trailing newline, so this is accepted. */
  lemma TrailingNewline()
    ensures ValidateBirthDate(Str("21.02.2019\n"), Date(2026, 10, 14)) == Pass
  {
    assert "21.02.2019\n" == "21" + "." + "02" + "." + "2019" + "\n";
    assert MatchesAs("21.02.2019\n", "21", "02", "2019");
    DigitsValueExpand("21"); DigitsValueExpand("02"); DigitsValueExpand("2019");
    BirthDateFailures(Str("21.02.2019\n"), Date(2026, 10, 14));
  }

  /** A birth date equal to today is refused. */
  lemma TodayRefused()
    ensures ValidateBirthDate(Str("21.02.2019"), Date(2019, 2, 21)) == Fail(NotEarlierThanToday)
  {
    assert "21.02.2019" == "21" + "." + "02" + "." + "2019";
    DigitsValueExpand("21"); DigitsValueExpand("02"); DigitsValueExpand("2019");
    Judged("21", "02", "2019", Date(2019, 2, 21));
  }

  /** The day before today is accepted. */
  lemma DayBeforeTodayAccepted()
    ensures ValidateBirthDate(Str("20.02.2019"), Date(2019, 2, 21)) == Pass
  {
    assert "20.02.2019" == "20" + "." + "02" + "." + "2019";
    DigitsValueExpand("20"); DigitsValueExpand("02"); DigitsValueExpand("2019");
    Judged("20", "02", "2019", Date(2019, 2, 21));
  }

  /** A three-digit day does not match. */
  lemma ThreeDigitDay()
    ensures ValidateBirthDate(Str("001.02.1997"), Date(2026, 10, 14)) == Fail(InvalidFormat)
  {
  }

  /** A five-digit year does not match. */
  lemma FiveDigitYear()
    ensures ValidateBirthDate(Str("01.02.01997"), Date(2026, 10, 14)) == Fail(InvalidFormat)
  {
  }

  /** Slashes are not dots. */
  lemma SlashSeparators()
    ensures ValidateBirthDate(Str("11/02/1997"), Date(2026, 10, 14)) == Fail(InvalidFormat)
  {
  }

  /** A trailing space does not match. */
  lemma TrailingSpace()
    ensures ValidateBirthDate(Str("21.02.2019 "), Date(2026, 10, 14)) == Fail(InvalidFormat)
  {
  }

  /** A leading space does not match. */
  lemma LeadingSpace()
    ensures ValidateBirthDate(Str(" 1.2.2001"), Date(2026, 10, 14)) == Fail(InvalidFormat)
  {
  }

  /** A missing day does not match. */
  lemma MissingDay()
    ensures ValidateBirthDate(Str(".04.2019"), Date(2026, 10, 14)) == Fail(InvalidFormat)
  {
  }

  /** PositiveInteger on the values the tests try. */
  lemma PositiveIntegerExamples()
    ensures PositiveInteger(Null) == Fail(InvalidType)
    ensures PositiveInteger(Str("365")) == Fail(InvalidType)
    ensures PositiveInteger(Int(-1)) == Fail(NotPositive)
    ensures PositiveInteger(Float(1.0)) == Fail(InvalidType)
    ensures PositiveInteger(Bool(true)) == Pass
    ensures PositiveInteger(Int(7)) == Pass
  {
  }

  /** Python compares True and 1 as the same set element. */
  lemma RelativesListExamples()
    ensures ValidateList(true, List([Int(1), Bool(true)])) == Fail(NotUnique)
    ensures ValidateList(true, List([Int(2), Int(2)])) == Fail(NotUnique)
    ensures ValidateList(true, List([Str("2")])) == Fail(InvalidType)
    ensures ValidateList(true, List([Int(2), Int(0)])) == Fail(NotPositive)
    ensures ValidateList(true, Int(2)) == Fail(InvalidType)
    ensures ValidateList(true, List([])) == Pass
  {
    var a, b := [Int(1), Bool(true)], [Int(2), Int(2)];
    assert IntOf(a[0]) == IntOf(a[1]);
    assert IntOf(b[0]) == IntOf(b[1]);
  }
}
