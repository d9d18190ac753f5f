/**
 * The calendar used by `BirthDate.validate` (citizens/schema.py:61-76):
 * `datetime.date`'s range and day counts, the comparison with today, and the
 * regular expression `^(\d\d?)\.(\d\d?)\.(\d{4})$`.
 */
module Dates {
  import opened Json

  datatype Date = Date(year: int, month: int, day: int)

  predicate IsLeapYear(y: int) {
    y % 4 == 0 && (y % 100 != 0 || y % 400 == 0)
  }

  function DaysInMonth(y: int, m: int): (n: int)
    requires 1 <= m <= 12
    ensures 28 <= n <= 31
  {
    if m == 2 then (if IsLeapYear(y) then 29 else 28)
    else if m == 4 || m == 6 || m == 9 || m == 11 then 30
    else 31
  }

  /** `datetime.date(year, month, day)` succeeds: MINYEAR is 1, MAXYEAR is 9999. */
  predicate IsValidDate(y: int, m: int, d: int) {
    1 <= y <= 9999 && 1 <= m <= 12 && 1 <= d <= DaysInMonth(y, m)
  }

  /** `a < b` on dates: by year, then month, then day. */
  predicate Before(a: Date, b: Date) {
    a.year < b.year
    || (a.year == b.year && a.month < b.month)
    || (a.year == b.year && a.month == b.month && a.day < b.day)
  }

  /** 29 February exists exactly in leap years. */
  lemma LeapDay(y: int)
    requires 1 <= y <= 9999
    ensures IsValidDate(y, 2, 29) <==> IsLeapYear(y)
  {
  }

  /** `<` on dates is a strict total order. */
  lemma BeforeIsStrictTotalOrder(a: Date, b: Date, c: Date)
    ensures !Before(a, a)
    ensures Before(a, b) && Before(b, c) ==> Before(a, c)
    ensures a != b ==> Before(a, b) || Before(b, a)
    ensures !(Before(a, b) && Before(b, a))
  {
  }

  // ---------------------------------------------------------------------------
  // The date pattern

  /** `\d`, restricted to the ASCII digits. */
  predicate IsDigit(c: char) {
    '0' <= c <= '9'
  }

  predicate AllDigits(s: string) {
    forall i :: 0 <= i < |s| ==> IsDigit(s[i])
  }

  /** `int(s)` for a string of decimal digits. */
  function DigitsValue(s: string): (n: nat)
    requires AllDigits(s)
  {
    if |s| == 0 then 0
    else DigitsValue(s[..|s| - 1]) * 10 + (s[|s| - 1] as int - '0' as int)
  }

  function DigitAt(s: string, i: nat): int
    requires i < |s|
  {
    s[i] as int - '0' as int
  }

  /** `int(s)` written out positionally for the group widths of the pattern. */
  lemma DigitsValueExpand(s: string)
    requires AllDigits(s) && 1 <= |s| <= 4
    ensures |s| == 1 ==> DigitsValue(s) == DigitAt(s, 0)
    ensures |s| == 2 ==> DigitsValue(s) == 10 * DigitAt(s, 0) + DigitAt(s, 1)
    ensures |s| == 4 ==>
      DigitsValue(s) == 1000 * DigitAt(s, 0) + 100 * DigitAt(s, 1) + 10 * DigitAt(s, 2) + DigitAt(s, 3)
  {
    assert s[..0] == [];
    if |s| >= 2 { assert s[..1][..0] == []; }
    if |s| == 4 {
      assert s[..3][..2] == s[..2];
      assert s[..2][..1] == s[..1];
      assert s[..1][..0] == [];
    }
  }

  /**
   * The reference meaning of the pattern: s consists of the groups d, m, y
   * (one or two digits, one or two digits, four digits) separated by dots,
   * optionally followed by the single "\n" that `$` lets through.
   */
  ghost predicate MatchesAs(s: string, d: string, m: string, y: string) {
    && AllDigits(d) && 1 <= |d| <= 2
    && AllDigits(m) && 1 <= |m| <= 2
    && AllDigits(y) && |y| == 4
    && (s == d + "." + m + "." + y || s == d + "." + m + "." + y + "\n")
  }

  /** Length of a `\d\d?` group that is followed by a dot at the start of t. */
  function GroupBeforeDot(t: string): (r: Option<nat>)
    ensures r.Some? ==> (r.value == 1 || r.value == 2) && r.value < |t|
    ensures r.Some? ==> AllDigits(t[..r.value]) && t[r.value] == '.'
  {
    if |t| >= 2 && IsDigit(t[0]) && t[1] == '.' then Some(1)
    else if |t| >= 3 && IsDigit(t[0]) && IsDigit(t[1]) && t[2] == '.' then Some(2)
    else None
  }

  /** `\d\d?\.\d\d?\.\d{4}` matched against the whole of t: the three groups. */
  function FullMatch(t: string): Option<(string, string, string)> {
    match GroupBeforeDot(t)
    case None => None
    case Some(dl) =>
      var rest := t[dl + 1..];
      match GroupBeforeDot(rest)
      case None => None
      case Some(ml) =>
        var y := rest[ml + 1..];
        if |y| == 4 && AllDigits(y) then Some((t[..dl], rest[..ml], y)) else None
  }

  /** `re.match` of the birth-date pattern: the groups, or None when it does not match. */
  function MatchDate(s: string): Option<(string, string, string)> {
    match FullMatch(s)
    case Some(g) => Some(g)
    case None =>
      if |s| > 0 && s[|s| - 1] == '\n' then FullMatch(s[..|s| - 1]) else None
  }

  lemma FullMatchSound(t: string)
    requires FullMatch(t).Some?
    ensures var (d, m, y) := FullMatch(t).value;
      AllDigits(d) && 1 <= |d| <= 2 && AllDigits(m) && 1 <= |m| <= 2
      && AllDigits(y) && |y| == 4 && t == d + "." + m + "." + y
  {
    var dl := GroupBeforeDot(t).value;
    var rest := t[dl + 1..];
    var ml := GroupBeforeDot(rest).value;
    assert t == t[..dl] + "." + rest;
    assert rest == rest[..ml] + "." + rest[ml + 1..];
  }

  /** Whatever the pattern matches in full ends in a digit. */
  lemma FullMatchEndsInDigit(t: string)
    ensures FullMatch(t).Some? ==> |t| > 0 && IsDigit(t[|t| - 1])
  {
    if FullMatch(t).Some? {
      FullMatchSound(t);
      var y := FullMatch(t).value.2;
      assert t[|t| - 1] == y[3];
    }
  }

  lemma FullMatchComplete(d: string, m: string, y: string)
    requires AllDigits(d) && 1 <= |d| <= 2
    requires AllDigits(m) && 1 <= |m| <= 2
    requires AllDigits(y) && |y| == 4
    ensures FullMatch(d + "." + m + "." + y) == Some((d, m, y))
  {
    var t := d + "." + m + "." + y;
    assert t[|d|] == '.';
    assert t[..|d|] == d;
    var rest := t[|d| + 1..];
    assert rest == m + "." + y;
    assert rest[|m|] == '.';
    assert rest[..|m|] == m;
    assert rest[|m| + 1..] == y;
    assert GroupBeforeDot(t) == Some(|d|);
    assert GroupBeforeDot(rest) == Some(|m|);
  }

  /** The parser finds the groups exactly when the pattern relation holds. */
  lemma MatchDateCorrect(s: string)
    ensures MatchDate(s).Some? ==>
      MatchesAs(s, MatchDate(s).value.0, MatchDate(s).value.1, MatchDate(s).value.2)
    ensures forall d, m, y :: MatchesAs(s, d, m, y) ==> MatchDate(s) == Some((d, m, y))
  {
    if FullMatch(s).Some? {
      FullMatchSound(s);
    } else if |s| > 0 && s[|s| - 1] == '\n' && FullMatch(s[..|s| - 1]).Some? {
      FullMatchSound(s[..|s| - 1]);
      assert s == s[..|s| - 1] + "\n";
    }
    forall d, m, y | MatchesAs(s, d, m, y) ensures MatchDate(s) == Some((d, m, y)) {
      MatchDateFinds(s, d, m, y);
    }
  }

  /** Groups that make up s, with or without the trailing newline, are the ones the parser finds. */
  lemma MatchDateFinds(s: string, d: string, m: string, y: string)
    requires MatchesAs(s, d, m, y)
    ensures MatchDate(s) == Some((d, m, y))
  {
    FullMatchComplete(d, m, y);
    var core := d + "." + m + "." + y;
    if s != core {
      assert s == core + "\n";
      assert s[..|s| - 1] == core;
      FullMatchEndsInDigit(s);
    }
  }

}
