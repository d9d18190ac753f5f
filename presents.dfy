/**
 * What `get_presents_by_month` (citizens/api.py:51-67) computes: for each
 * citizen, the birth months of its relatives in list order, grouped by
 * `itertools.groupby` into maximal runs of equal months; each run adds one
 * entry (citizen_id, length of the run) to that month's list.
 */
module Presents {
  import opened Json

  // ---------------------------------------------------------------------------
  // groupby

  /** `[(k, len(list(g))) for k, g in groupby(xs)]`. */
  function Runs(xs: seq<int>): seq<(int, nat)> {
    if |xs| == 0 then []
    else
      var rest := Runs(xs[1..]);
      if |rest| > 0 && rest[0].0 == xs[0] then [(xs[0], rest[0].1 + 1)] + rest[1..]
      else [(xs[0], 1)] + rest
  }

  function Repeat(x: int, n: nat): (s: seq<int>)
    ensures |s| == n && forall i :: 0 <= i < n ==> s[i] == x
  {
    if n == 0 then [] else [x] + Repeat(x, n - 1)
  }

  /** The sequence a list of runs stands for. */
  function Expand(rs: seq<(int, nat)>): seq<int> {
    if |rs| == 0 then [] else Repeat(rs[0].0, rs[0].1) + Expand(rs[1..])
  }

  /** Runs that are not empty and no two neighbours of which share a key: maximal runs. */
  predicate MaximalRuns(rs: seq<(int, nat)>) {
    && (forall i :: 0 <= i < |rs| ==> rs[i].1 >= 1)
    && (forall i :: 0 <= i < |rs| - 1 ==> rs[i].0 != rs[i + 1].0)
  }

  /** groupby loses nothing and yields maximal runs, the first one keyed by the first element. */
  lemma RunsExpand(xs: seq<int>)
    ensures Expand(Runs(xs)) == xs
    ensures MaximalRuns(Runs(xs))
    ensures |xs| > 0 ==> |Runs(xs)| > 0 && Runs(xs)[0].0 == xs[0]
  {
    RunsHead(xs);
    RunsMaximal(xs);
    RunsLoseNothing(xs);
  }

  lemma RunsHead(xs: seq<int>)
    ensures |xs| > 0 ==> |Runs(xs)| > 0 && Runs(xs)[0].0 == xs[0]
  {
  }

  lemma {:induction false} RunsMaximal(xs: seq<int>)
    ensures MaximalRuns(Runs(xs))
  {
    if |xs| > 0 {
      RunsMaximal(xs[1..]);
      RunsHead(xs[1..]);
    }
  }

  lemma {:induction false} RunsLoseNothing(xs: seq<int>)
    ensures Expand(Runs(xs)) == xs
  {
    if |xs| > 0 {
      var x, rest := xs[0], Runs(xs[1..]);
      RunsLoseNothing(xs[1..]);
      if |rest| > 0 && rest[0].0 == x {
        var c := rest[0].1;
        assert Repeat(x, c + 1) == [x] + Repeat(x, c);
        assert rest == [rest[0]] + rest[1..];
        assert Expand(rest) == Repeat(x, c) + Expand(rest[1..]);
        assert Expand([(x, c + 1)] + rest[1..]) == Repeat(x, c + 1) + Expand(rest[1..]);
      } else {
        assert Expand([(x, 1)] + rest) == Repeat(x, 1) + Expand(rest);
      }
      assert xs == [x] + xs[1..];
    }
  }

  /** A run of c copies of x in front of a sequence that does not start with x. */
  lemma {:induction false} RunsOfRepeat(x: int, c: nat, e: seq<int>)
    requires c >= 1 && (|e| == 0 || e[0] != x)
    ensures Runs(Repeat(x, c) + e) == [(x, c)] + Runs(e)
  {
    var s := Repeat(x, c) + e;
    assert s[0] == x && s[1..] == Repeat(x, c - 1) + e;
    if c == 1 {
      assert s[1..] == e;
      RunsExpand(e);
    } else {
      RunsOfRepeat(x, c - 1, e);
    }
  }

  /** Maximal runs are exactly what groupby returns for the sequence they stand for. */
  lemma {:induction false} RunsOfExpand(rs: seq<(int, nat)>)
    requires MaximalRuns(rs)
    ensures Runs(Expand(rs)) == rs
  {
    if |rs| > 0 {
      var rest := rs[1..];
      assert MaximalRuns(rest);
      RunsOfExpand(rest);
      if |rest| > 0 {
        assert Expand(rest) == Repeat(rest[0].0, rest[0].1) + Expand(rest[1..]);
        assert Expand(rest)[0] == rest[0].0;
      }
      RunsOfRepeat(rs[0].0, rs[0].1, Expand(rest));
      assert rs == [rs[0]] + rest;
    }
  }

  /** The total length of the runs. */
  function RunsTotal(rs: seq<(int, nat)>): nat {
    if |rs| == 0 then 0 else rs[0].1 + RunsTotal(rs[1..])
  }

  lemma {:induction false} ExpandLength(rs: seq<(int, nat)>)
    ensures |Expand(rs)| == RunsTotal(rs)
  {
    if |rs| > 0 {
      ExpandLength(rs[1..]);
    }
  }

  /** The keys of the runs are elements of the sequence. */
  lemma RunKeysFromInput(xs: seq<int>)
    ensures forall i :: 0 <= i < |Runs(xs)| ==> Runs(xs)[i].0 in xs
  {
    RunsExpand(xs);
    forall i | 0 <= i < |Runs(xs)| ensures Runs(xs)[i].0 in xs {
      ExpandContains(Runs(xs), i);
    }
  }

  lemma {:induction false} ExpandContains(rs: seq<(int, nat)>, i: nat)
    requires i < |rs| && rs[i].1 >= 1
    ensures rs[i].0 in Expand(rs)
  {
    if i == 0 {
      assert Expand(rs)[0] == rs[0].0;
    } else {
      ExpandContains(rs[1..], i - 1);
    }
  }

  // ---------------------------------------------------------------------------
  // The table

  /** `{'citizen_id': citizenId, 'presents': presents}`. */
  datatype Present = Present(citizenId: Value, presents: nat)

  /** The entries one citizen's runs add to month m, in run order. */
  function Contribution(cid: Value, rs: seq<(int, nat)>, m: int): seq<Present> {
    if |rs| == 0 then []
    else (if rs[0].0 == m then [Present(cid, rs[0].1)] else []) + Contribution(cid, rs[1..], m)
  }

  /** Month m's list: the citizens' contributions in the order the citizens come. */
  function MonthList(contribs: seq<(Value, seq<(int, nat)>)>, m: int): seq<Present> {
    if |contribs| == 0 then []
    else
      var last := contribs[|contribs| - 1];
      MonthList(contribs[..|contribs| - 1], m) + Contribution(last.0, last.1, m)
  }

  predicate IsMonth(m: int) {
    1 <= m <= 12
  }

  /** The table `get_presents_by_month` returns, from each citizen's id and runs. */
  function Table(contribs: seq<(Value, seq<(int, nat)>)>): map<int, seq<Present>> {
    map m | 1 <= m <= 12 :: MonthList(contribs, m)
  }

  /** `{month: [] for month in range(1, 13)}`. */
  function EmptyTable(): (t: map<int, seq<Present>>)
    ensures forall m :: m in t <==> IsMonth(m)
    ensures forall m :: m in t ==> t[m] == []
  {
    Table([])
  }

  /** Month m's list for two groups of citizens is the first group's list followed by the second's. */
  lemma {:induction false} MonthListAppend(a: seq<(Value, seq<(int, nat)>)>, b: seq<(Value, seq<(int, nat)>)>, m: int)
    ensures MonthList(a + b, m) == MonthList(a, m) + MonthList(b, m)
    decreases |b|
  {
    if |b| == 0 {
      assert a + b == a;
    } else {
      var b' := b[..|b| - 1];
      assert (a + b)[..|a + b| - 1] == a + b';
      assert (a + b)[|a + b| - 1] == b[|b| - 1];
      MonthListAppend(a, b', m);
    }
  }

  /** The entries of the first k runs, then those of run k. */
  lemma {:induction false} ContributionSnoc(cid: Value, rs: seq<(int, nat)>, k: nat, m: int)
    requires k < |rs|
    ensures Contribution(cid, rs[..k + 1], m) ==
      Contribution(cid, rs[..k], m) + (if rs[k].0 == m then [Present(cid, rs[k].1)] else [])
  {
    if k == 0 {
      assert rs[..1][1..] == [];
      assert rs[..0] == [];
    } else {
      var t := rs[1..];
      assert rs[..k + 1][1..] == t[..k] && rs[..k][1..] == t[..k - 1];
      assert rs[..k + 1][0] == rs[0] && rs[..k][0] == rs[0];
      ContributionSnoc(cid, t, k - 1, m);
    }
  }

  /** A run of length k, keyed by m, is one entry of k presents. */
  lemma {:induction false} ContributionEntries(cid: Value, rs: seq<(int, nat)>, m: int)
    requires MaximalRuns(rs)
    ensures forall p :: p in Contribution(cid, rs, m) ==> p.citizenId == cid && p.presents >= 1
  {
    if |rs| > 0 {
      assert MaximalRuns(rs[1..]);
      ContributionEntries(cid, rs[1..], m);
    }
  }

  function PresentsSum(ps: seq<Present>): nat {
    if |ps| == 0 then 0 else ps[0].presents + PresentsSum(ps[1..])
  }

  lemma {:induction false} PresentsSumAppend(a: seq<Present>, b: seq<Present>)
    ensures PresentsSum(a + b) == PresentsSum(a) + PresentsSum(b)
  {
    if |a| > 0 {
      assert (a + b)[0] == a[0] && (a + b)[1..] == a[1..] + b;
      PresentsSumAppend(a[1..], b);
    } else {
      assert a + b == b;
    }
  }

  /** The citizen's presents in months 1 to n. */
  function SumMonths(cid: Value, rs: seq<(int, nat)>, n: int): nat
    decreases n
  {
    if n < 1 then 0 else SumMonths(cid, rs, n - 1) + PresentsSum(Contribution(cid, rs, n))
  }

  function RunsTotalIn(rs: seq<(int, nat)>, n: int): nat {
    if |rs| == 0 then 0 else (if 1 <= rs[0].0 <= n then rs[0].1 else 0) + RunsTotalIn(rs[1..], n)
  }

  lemma {:induction false} ContributionSum(cid: Value, rs: seq<(int, nat)>, m: int)
    ensures |rs| > 0 ==>
      PresentsSum(Contribution(cid, rs, m))
      == (if rs[0].0 == m then rs[0].1 else 0) + PresentsSum(Contribution(cid, rs[1..], m))
  {
    if |rs| > 0 {
      var head: seq<Present> := if rs[0].0 == m then [Present(cid, rs[0].1)] else [];
      PresentsSumAppend(head, Contribution(cid, rs[1..], m));
    }
  }

  lemma {:induction false} SumMonthsStep(cid: Value, rs: seq<(int, nat)>, n: int)
    requires |rs| > 0
    ensures SumMonths(cid, rs, n) == (if 1 <= rs[0].0 <= n then rs[0].1 else 0) + SumMonths(cid, rs[1..], n)
    decreases n
  {
    if n >= 1 {
      SumMonthsStep(cid, rs, n - 1);
      ContributionSum(cid, rs, n);
    }
  }

  lemma {:induction false} SumMonthsIsTotal(cid: Value, rs: seq<(int, nat)>, n: int)
    ensures SumMonths(cid, rs, n) == RunsTotalIn(rs, n)
  {
    if |rs| == 0 {
      SumMonthsEmpty(cid, rs, n);
    } else {
      SumMonthsStep(cid, rs, n);
      SumMonthsIsTotal(cid, rs[1..], n);
    }
  }

  lemma {:induction false} SumMonthsEmpty(cid: Value, rs: seq<(int, nat)>, n: int)
    requires |rs| == 0
    ensures SumMonths(cid, rs, n) == 0
    decreases n
  {
    if n >= 1 {
      SumMonthsEmpty(cid, rs, n - 1);
    }
  }

  lemma {:induction false} RunsTotalInAll(rs: seq<(int, nat)>)
    requires forall i :: 0 <= i < |rs| ==> IsMonth(rs[i].0)
    ensures RunsTotalIn(rs, 12) == RunsTotal(rs)
  {
    if |rs| > 0 {
      RunsTotalInAll(rs[1..]);
    }
  }

  /**
   * Across the twelve months, a citizen's presents add up to its number of
   * relatives, when every relative's birth month is a month.
   */
  lemma PresentsAddUpToRelatives(cid: Value, months: seq<int>)
    requires forall i :: 0 <= i < |months| ==> IsMonth(months[i])
    ensures SumMonths(cid, Runs(months), 12) == |months|
  {
    var rs := Runs(months);
    RunsExpand(months);
    ExpandLength(rs);
    RunKeysFromInput(months);
    RunsTotalInAll(rs);
    SumMonthsIsTotal(cid, rs, 12);
  }

  /** The presents in months 1 to n of a table. */
  function PresentsInMonths(t: map<int, seq<Present>>, n: int): nat
    requires forall m :: 1 <= m <= n ==> m in t
    decreases n
  {
    if n < 1 then 0 else PresentsInMonths(t, n - 1) + PresentsSum(t[n])
  }

  /** The presents in months 1 to n of the month lists. */
  function ListsTotal(contribs: seq<(Value, seq<(int, nat)>)>, n: int): nat
    decreases n
  {
    if n < 1 then 0 else ListsTotal(contribs, n - 1) + PresentsSum(MonthList(contribs, n))
  }

  /** Each citizen's presents in months 1 to n, added up over the citizens. */
  function EntriesTotal(contribs: seq<(Value, seq<(int, nat)>)>, n: int): nat {
    if |contribs| == 0 then 0 else SumMonths(contribs[0].0, contribs[0].1, n) + EntriesTotal(contribs[1..], n)
  }

  lemma {:induction false} ListsTotalAppend(a: seq<(Value, seq<(int, nat)>)>, b: seq<(Value, seq<(int, nat)>)>, n: int)
    ensures ListsTotal(a + b, n) == ListsTotal(a, n) + ListsTotal(b, n)
    decreases n
  {
    if n >= 1 {
      ListsTotalAppend(a, b, n - 1);
      MonthListAppend(a, b, n);
      PresentsSumAppend(MonthList(a, n), MonthList(b, n));
    }
  }

  lemma {:induction false} ListsTotalOne(e: (Value, seq<(int, nat)>), n: int)
    ensures ListsTotal([e], n) == SumMonths(e.0, e.1, n)
    decreases n
  {
    if n >= 1 {
      ListsTotalOne(e, n - 1);
      assert [e][..0] == [];
      assert MonthList([e], n) == [] + Contribution(e.0, e.1, n);
      assert [] + Contribution(e.0, e.1, n) == Contribution(e.0, e.1, n);
    }
  }

  /** Counting a table month by month gives what its citizens' entries add up to. */
  lemma {:induction false} ListsTotalIsEntriesTotal(contribs: seq<(Value, seq<(int, nat)>)>, n: int)
    ensures ListsTotal(contribs, n) == EntriesTotal(contribs, n)
  {
    if |contribs| == 0 {
      ListsTotalEmpty(n);
    } else {
      var rest := contribs[1..];
      assert contribs == [contribs[0]] + rest;
      ListsTotalAppend([contribs[0]], rest, n);
      ListsTotalOne(contribs[0], n);
      ListsTotalIsEntriesTotal(rest, n);
    }
  }

  lemma {:induction false} ListsTotalEmpty(n: int)
    ensures ListsTotal([], n) == 0
    decreases n
  {
    if n >= 1 {
      ListsTotalEmpty(n - 1);
    }
  }

  lemma {:induction false} TablePresents(contribs: seq<(Value, seq<(int, nat)>)>, n: int)
    requires n <= 12
    ensures forall m :: 1 <= m <= n ==> m in Table(contribs)
    ensures PresentsInMonths(Table(contribs), n) == ListsTotal(contribs, n)
    decreases n
  {
    if n >= 1 {
      TablePresents(contribs, n - 1);
    }
  }

  /**
   * The presents of the whole table, over the twelve months, are the
   * presents of each citizen's entries added up.
   */
  lemma TableTotal(contribs: seq<(Value, seq<(int, nat)>)>)
    ensures forall m :: 1 <= m <= 12 ==> m in Table(contribs)
    ensures PresentsInMonths(Table(contribs), 12) == EntriesTotal(contribs, 12)
  {
    TablePresents(contribs, 12);
    ListsTotalIsEntriesTotal(contribs, 12);
  }

  /** Month m's list for three citizens, one contribution after the other. */
  lemma MonthListOfThree(a: (Value, seq<(int, nat)>), b: (Value, seq<(int, nat)>), c: (Value, seq<(int, nat)>), m: int)
    ensures MonthList([a, b, c], m) ==
      Contribution(a.0, a.1, m) + Contribution(b.0, b.1, m) + Contribution(c.0, c.1, m)
  {
    var s1, s2, s3 := [a], [a, b], [a, b, c];
    assert s1[..0] == [] && s2[..1] == s1 && s3[..2] == s2;
    assert MonthList(s1, m) == Contribution(a.0, a.1, m);
    assert MonthList(s2, m) == MonthList(s1, m) + Contribution(b.0, b.1, m);
    assert MonthList(s3, m) == MonthList(s2, m) + Contribution(c.0, c.1, m);
  }

  /** Month m's entries in the birthday example, with its runs written out. */
  lemma ExampleMonth(m: int)
    requires IsMonth(m)
    ensures Table([(Int(1), [(5, 1), (1, 1)]), (Int(2), [(4, 1)]), (Int(3), [(4, 1)])])[m] ==
      (if m == 5 || m == 1 then [Present(Int(1), 1)] else [])
      + (if m == 4 then [Present(Int(2), 1), Present(Int(3), 1)] else [])
  {
    var a: (Value, seq<(int, nat)>) := (Int(1), [(5, 1), (1, 1)]);
    var b: (Value, seq<(int, nat)>) := (Int(2), [(4, 1)]);
    var c: (Value, seq<(int, nat)>) := (Int(3), [(4, 1)]);
    MonthListOfThree(a, b, c, m);
    var one: seq<(int, nat)> := [(1, 1)];
    assert a.1[1..] == one && one[1..] == [] && b.1[1..] == [] && c.1[1..] == [];
    assert Contribution(Int(1), one, m) == if m == 1 then [Present(Int(1), 1)] else [];
    assert Contribution(a.0, a.1, m) ==
      (if m == 5 then [Present(Int(1), 1)] else []) + Contribution(Int(1), one, m);
  }

  /**
   * The three citizens of the birthday example: citizen 1's relatives are
   * born in May and January, citizens 2 and 3 each have one relative born in
   * April.
   */
  lemma BirthdayExample()
    ensures var t := Table([(Int(1), Runs([5, 1])), (Int(2), Runs([4])), (Int(3), Runs([4]))]);
      && t[1] == [Present(Int(1), 1)]
      && t[4] == [Present(Int(2), 1), Present(Int(3), 1)]
      && t[5] == [Present(Int(1), 1)]
      && t[2] == [] && t[3] == []
      && forall m :: 6 <= m <= 12 ==> m in t && t[m] == []
  {
    assert Runs([5, 1]) == [(5, 1), (1, 1)] by {
      assert [5, 1][1..] == [1];
      assert [1][1..] == [];
    }
    assert Runs([4]) == [(4, 1)] by {
      assert [4][1..] == [];
    }
    ExampleMonth(1);
    ExampleMonth(2);
    ExampleMonth(3);
    ExampleMonth(4);
    ExampleMonth(5);
    forall m | 6 <= m <= 12
      ensures Table([(Int(1), [(5, 1), (1, 1)]), (Int(2), [(4, 1)]), (Int(3), [(4, 1)])])[m] == []
    {
      ExampleMonth(m);
    }
  }
}
