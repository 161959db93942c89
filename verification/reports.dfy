/**
 * The report aggregator (`get_reports`): salaries grouped by department,
 * summarised as minimum, maximum, head count and mean.
 */
module Reports {
  import opened Wrappers
  import opened Seqs
  import opened Tables
  import opened Schema
  import opened Salaries
  import opened Hierarchy

  /**
   * One department's line of the report. The mean is kept exactly as the
   * pair `total / headCount` rather than as a rounded float.
   */
  datatype Entry = Entry(minSalary: int, maxSalary: int, headCount: nat, total: int)

  type Report = map<string, Entry>

  function Min(s: seq<int>): (m: int)
    requires |s| > 0
    ensures m in s
    ensures forall i :: 0 <= i < |s| ==> m <= s[i]
    decreases |s|
  {
    if |s| == 1 then s[0]
    else
      var init := s[..|s| - 1];
      var m := Min(init);
      assert forall i :: 0 <= i < |init| ==> init[i] == s[i];
      if s[|s| - 1] < m then s[|s| - 1] else m
  }

  function Max(s: seq<int>): (m: int)
    requires |s| > 0
    ensures m in s
    ensures forall i :: 0 <= i < |s| ==> s[i] <= m
    decreases |s|
  {
    if |s| == 1 then s[0]
    else
      var init := s[..|s| - 1];
      var m := Max(init);
      assert forall i :: 0 <= i < |init| ==> init[i] == s[i];
      if s[|s| - 1] > m then s[|s| - 1] else m
  }

  function Sum(s: seq<int>): int
    decreases |s|
  {
    if |s| == 0 then 0 else Sum(s[..|s| - 1]) + s[|s| - 1]
  }

  /** A lower bound of every element bounds the sum from below. */
  lemma {:induction false} SumAtLeast(s: seq<int>, lo: int)
    requires forall x :: x in s ==> lo <= x
    ensures lo * |s| <= Sum(s)
    decreases |s|
  {
    if |s| > 0 {
      var init := s[..|s| - 1];
      assert forall x :: x in init ==> x in s;
      SumAtLeast(init, lo);
      assert s[|s| - 1] in s;
      assert lo * |s| == lo * |init| + lo;
    }
  }

  /** An upper bound of every element bounds the sum from above. */
  lemma {:induction false} SumAtMost(s: seq<int>, hi: int)
    requires forall x :: x in s ==> x <= hi
    ensures Sum(s) <= hi * |s|
    decreases |s|
  {
    if |s| > 0 {
      var init := s[..|s| - 1];
      assert forall x :: x in init ==> x in s;
      SumAtMost(init, hi);
      assert s[|s| - 1] in s;
      assert hi * |s| == hi * |init| + hi;
    }
  }

  /**
   * The report line of a non-empty salary list: its extremes, its length,
   * and a total that places the mean between the extremes.
   */
  function Summarize(s: seq<int>): (e: Entry)
    requires |s| > 0
    ensures e.headCount == |s| && e.headCount >= 1
    ensures e.minSalary in s && e.maxSalary in s
    ensures forall x :: x in s ==> e.minSalary <= x <= e.maxSalary
    ensures e.minSalary <= e.maxSalary
    ensures e.total == Sum(s)
    ensures e.minSalary * e.headCount <= e.total <= e.maxSalary * e.headCount
    ensures |s| == 1 ==> e.minSalary == e.maxSalary == e.total == s[0]
  {
    SumAtLeast(s, Min(s));
    SumAtMost(s, Max(s));
    Entry(Min(s), Max(s), |s|, Sum(s))
  }

  /**
   * Every cell parsed in order; the first cell that is not an integer aborts
   * with that cell.
   */
  function ParseSalaries(cells: seq<string>): (r: Result<seq<int>, Error>)
    ensures r.Ok? <==> forall i :: 0 <= i < |cells| ==> ParseInt(cells[i]).Some?
    ensures r.Ok? ==> |r.value| == |cells|
    ensures r.Ok? ==> forall i :: 0 <= i < |cells| ==> ParseInt(cells[i]) == Some(r.value[i])
    ensures r.Err? ==>
      exists i :: 0 <= i < |cells| && r.error == ParseError(cells[i])
        && ParseInt(cells[i]).None? && (forall j :: 0 <= j < i ==> ParseInt(cells[j]).Some?)
    decreases |cells|
  {
    if |cells| == 0 then Ok([])
    else
      var init := cells[..|cells| - 1];
      assert forall i :: 0 <= i < |init| ==> init[i] == cells[i];
      var vs :- ParseSalaries(init);
      match ParseInt(cells[|cells| - 1])
      case None => Err(ParseError(cells[|cells| - 1]))
      case Some(v) => Ok(vs + [v])
  }

  /** Reference meaning: salaries of the first `n` rows of department `d`, in row order. */
  function SalariesOf(deps: seq<string>, vals: seq<int>, d: string, n: nat): seq<int>
    requires n <= |deps| && n <= |vals|
    decreases n
  {
    if n == 0 then []
    else SalariesOf(deps, vals, d, n - 1) + (if deps[n - 1] == d then [vals[n - 1]] else [])
  }

  /** Indices of the first `n` rows whose department is `d`. */
  function RowsOf(deps: seq<string>, d: string, n: nat): set<nat>
    requires n <= |deps|
  {
    set i: nat | i < n && deps[i] == d
  }

  /**
   * A department's salary list holds exactly the salaries of its rows, one
   * per row.
   */
  lemma {:induction false} SalariesOfContents(deps: seq<string>, vals: seq<int>, d: string, n: nat)
    requires n <= |deps| && n <= |vals|
    ensures |SalariesOf(deps, vals, d, n)| == |RowsOf(deps, d, n)|
    ensures forall x :: x in SalariesOf(deps, vals, d, n) <==>
      exists i :: 0 <= i < n && deps[i] == d && vals[i] == x
    decreases n
  {
    if n > 0 {
      SalariesOfContents(deps, vals, d, n - 1);
      var prev := RowsOf(deps, d, n - 1);
      if deps[n - 1] == d {
        assert RowsOf(deps, d, n) == prev + {n - 1};
        assert n - 1 !in prev;
      } else {
        assert RowsOf(deps, d, n) == prev;
      }
    }
  }

  /**
   * The first loop of `get_reports`: an empty list per distinct department,
   * then each of the first `n` salaries appended to its department's list.
   */
  function GroupSalaries(deps: seq<string>, vals: seq<int>, n: nat): (g: map<string, seq<int>>)
    requires n <= |deps| && n <= |vals|
    ensures g.Keys == Elems(deps)
    decreases n
  {
    if n == 0 then map d | d in deps :: []
    else
      var g := GroupSalaries(deps, vals, n - 1);
      g[deps[n - 1] := g[deps[n - 1]] + [vals[n - 1]]]
  }

  /** Each department's list is that department's salaries, in row order. */
  lemma {:induction false} GroupSalariesContents(deps: seq<string>, vals: seq<int>, n: nat)
    requires n <= |deps| && n <= |vals|
    ensures forall d :: d in GroupSalaries(deps, vals, n) ==>
      GroupSalaries(deps, vals, n)[d] == SalariesOf(deps, vals, d, n)
    decreases n
  {
    if n > 0 {
      GroupSalariesContents(deps, vals, n - 1);
    }
  }

  /** Some department was left with no salary, so `min()` would raise. */
  predicate HasEmptyGroup(g: map<string, seq<int>>) {
    exists d :: d in g && g[d] == []
  }

  /** The department column and the salary column of a table with at least two keys. */
  function Departments(t: Table): seq<string>
    requires t.Valid() && |t.keys| >= 2
  {
    t.content[t.keys[1]]
  }

  function SalaryCells(t: Table): seq<string>
    requires t.Valid() && |t.keys| >= 2
  {
    t.content[t.keys[|t.keys| - 1]]
  }

  /** Number of (department, salary) pairs that `zip` produces. */
  function PairCount(t: Table): nat
    requires t.Valid() && |t.keys| >= 2
  {
    ZipLength(Departments(t), SalaryCells(t))
  }

  /** `get_reports` on a loaded table. */
  function GetReportsOf(t: Table): (r: Result<Report, Error>)
    requires t.Valid()
    ensures r == Err(SchemaError) <==> |t.keys| < 2
    ensures r.Ok? ==> r.value.Keys == Elems(Departments(t))
    ensures r.Ok? ==> forall d :: d in r.value ==>
      (&& r.value[d].headCount >= 1
       && r.value[d].minSalary <= r.value[d].maxSalary
       && r.value[d].minSalary * r.value[d].headCount <= r.value[d].total
       && r.value[d].total <= r.value[d].maxSalary * r.value[d].headCount)
  {
    var depKey :- KeyAt(t.keys, DepartmentIndex);
    // The last key always resolves once key position 1 has.
    var salKey := KeyAt(t.keys, SalaryIndex).value;
    var deps, sals := t.content[depKey], t.content[salKey];
    var n := ZipLength(deps, sals);
    var vals :- ParseSalaries(sals[..n]);
    var g := GroupSalaries(deps, vals, n);
    if HasEmptyGroup(g) then Err(EmptySalaryList)
    else Ok(map d | d in g :: Summarize(g[d]))
  }

  /** The salaries of the zipped pairs, when every one of them parses. */
  function ParsedSalaries(t: Table): (r: Result<seq<int>, Error>)
    requires t.Valid() && |t.keys| >= 2
    ensures r.Ok? ==> |r.value| == PairCount(t)
  {
    ParseSalaries(SalaryCells(t)[..PairCount(t)])
  }

  /** The salary lists `get_reports` builds, when every zipped salary parses. */
  function Grouped(t: Table): (g: map<string, seq<int>>)
    requires t.Valid() && |t.keys| >= 2
    requires ParsedSalaries(t).Ok?
    ensures g.Keys == Elems(Departments(t))
  {
    GroupSalaries(Departments(t), ParsedSalaries(t).value, PairCount(t))
  }

  /** A successful report is the summary of each department's salary list. */
  lemma ReportShape(t: Table)
    requires t.Valid()
    requires GetReportsOf(t).Ok?
    ensures |t.keys| >= 2 && ParsedSalaries(t).Ok?
    ensures !HasEmptyGroup(Grouped(t))
    ensures GetReportsOf(t).value == map d | d in Grouped(t) :: Summarize(Grouped(t)[d])
  {
    assert KeyAt(t.keys, DepartmentIndex) == Ok(t.keys[1]);
    assert KeyAt(t.keys, SalaryIndex) == Ok(t.keys[|t.keys| - 1]);
    var deps, sals := Departments(t), SalaryCells(t);
    var n := ZipLength(deps, sals);
    assert ParseSalaries(sals[..n]) == ParsedSalaries(t);
    var g := GroupSalaries(deps, ParsedSalaries(t).value, n);
    assert g == Grouped(t);
    assert !HasEmptyGroup(g);
  }

  /**
   * The summary of a department's salary list speaks of the department's
   * rows: its head count is their number, and its extremes bound their
   * salaries and are salaries of two of them.
   */
  lemma SummaryOfRows(deps: seq<string>, vals: seq<int>, d: string, n: nat)
    requires n <= |deps| && n <= |vals|
    requires SalariesOf(deps, vals, d, n) != []
    ensures var e := Summarize(SalariesOf(deps, vals, d, n));
      && e.headCount == |RowsOf(deps, d, n)|
      && (forall i :: 0 <= i < n && deps[i] == d ==> e.minSalary <= vals[i] <= e.maxSalary)
      && (exists i :: 0 <= i < n && deps[i] == d && vals[i] == e.minSalary)
      && (exists i :: 0 <= i < n && deps[i] == d && vals[i] == e.maxSalary)
  {
    var s := SalariesOf(deps, vals, d, n);
    SalariesOfContents(deps, vals, d, n);
    forall i | 0 <= i < n && deps[i] == d
      ensures vals[i] in s
    {
    }
  }

  /** A report line is the summary of its department's salaries. */
  lemma ReportEntryOfGroup(t: Table, d: string)
    requires t.Valid()
    requires GetReportsOf(t).Ok?
    requires d in GetReportsOf(t).value
    ensures |t.keys| >= 2 && ParsedSalaries(t).Ok?
    ensures SalariesOf(Departments(t), ParsedSalaries(t).value, d, PairCount(t)) != []
    ensures GetReportsOf(t).value[d] ==
      Summarize(SalariesOf(Departments(t), ParsedSalaries(t).value, d, PairCount(t)))
  {
    ReportShape(t);
    var deps, vals, n := Departments(t), ParsedSalaries(t).value, PairCount(t);
    GroupSalariesContents(deps, vals, n);
    assert Grouped(t)[d] == SalariesOf(deps, vals, d, n);
  }

  /**
   * Each report line describes exactly its department's rows: the head count
   * is the number of rows, every row's salary lies between the extremes,
   * and both extremes are salaries of some row of the department.
   */
  lemma ReportEntries(t: Table, d: string)
    requires t.Valid()
    requires GetReportsOf(t).Ok?
    requires d in GetReportsOf(t).value
    ensures |t.keys| >= 2 && ParsedSalaries(t).Ok?
    ensures var e, deps, vals, n := GetReportsOf(t).value[d], Departments(t), ParsedSalaries(t).value, PairCount(t);
      && e.headCount == |RowsOf(deps, d, n)|
      && e.total == Sum(SalariesOf(deps, vals, d, n))
      && (forall i :: 0 <= i < n && deps[i] == d ==> e.minSalary <= vals[i] <= e.maxSalary)
      && (exists i :: 0 <= i < n && deps[i] == d && vals[i] == e.minSalary)
      && (exists i :: 0 <= i < n && deps[i] == d && vals[i] == e.maxSalary)
  {
    ReportEntryOfGroup(t, d);
    SummaryOfRows(Departments(t), ParsedSalaries(t).value, d, PairCount(t));
  }

  /**
   * A single unparseable salary among the zipped pairs makes the whole
   * aggregation fail with that kind of error, and with no report at all.
   */
  lemma ReportFailsOnBadSalary(t: Table, i: nat)
    requires t.Valid() && |t.keys| >= 2
    requires i < PairCount(t)
    requires ParseInt(SalaryCells(t)[i]).None?
    ensures GetReportsOf(t).Err? && GetReportsOf(t).error.ParseError?
  {
    assert SalaryCells(t)[..PairCount(t)][i] == SalaryCells(t)[i];
  }

  /** The salary of row `i` is in its department's list once row `i` is grouped. */
  lemma {:induction false} SalariesOfHasRow(deps: seq<string>, vals: seq<int>, i: nat, n: nat)
    requires i < n <= |deps| && n <= |vals|
    ensures vals[i] in SalariesOf(deps, vals, deps[i], n)
    decreases n
  {
    if i < n - 1 {
      SalariesOfHasRow(deps, vals, i, n - 1);
    }
  }

  /** Grouping every row leaves no department of the column without a salary. */
  lemma GroupsOfAllRowsNonEmpty(deps: seq<string>, vals: seq<int>)
    requires |deps| <= |vals|
    ensures !HasEmptyGroup(GroupSalaries(deps, vals, |deps|))
  {
    var g := GroupSalaries(deps, vals, |deps|);
    GroupSalariesContents(deps, vals, |deps|);
    forall d | d in g ensures g[d] != [] {
      assert d in Elems(deps);
      var i :| 0 <= i < |deps| && deps[i] == d;
      SalariesOfHasRow(deps, vals, i, |deps|);
    }
  }

  /**
   * When the department and salary columns have equal length, as every table
   * with distinct header names does, no department is left without salaries.
   */
  lemma AlignedColumnsHaveNoEmptyGroup(t: Table)
    requires t.Valid() && |t.keys| >= 2
    requires |Departments(t)| == |SalaryCells(t)|
    requires ParsedSalaries(t).Ok?
    ensures GetReportsOf(t).Ok?
  {
    var deps, sals := Departments(t), SalaryCells(t);
    assert KeyAt(t.keys, DepartmentIndex) == Ok(t.keys[1]);
    assert KeyAt(t.keys, SalaryIndex) == Ok(t.keys[|t.keys| - 1]);
    assert ZipLength(deps, sals) == |deps|;
    GroupsOfAllRowsNonEmpty(deps, ParsedSalaries(t).value);
  }

  /**
   * With equal-length department and salary columns, the report exists
   * exactly when every salary cell parses.
   */
  lemma AlignedReportOk(t: Table)
    requires t.Valid() && |t.keys| >= 2
    requires |Departments(t)| == |SalaryCells(t)|
    ensures GetReportsOf(t).Ok? <==>
      forall i :: 0 <= i < |SalaryCells(t)| ==> ParseInt(SalaryCells(t)[i]).Some?
  {
    var sals := SalaryCells(t);
    assert PairCount(t) == |sals| && sals[..PairCount(t)] == sals;
    if ParsedSalaries(t).Ok? {
      AlignedColumnsHaveNoEmptyGroup(t);
    } else {
      var i :| 0 <= i < |sals| && ParseInt(sals[i]).None?;
      ReportFailsOnBadSalary(t, i);
    }
  }

  /** Sum of the list lengths of the departments `ds`. */
  function SizeSum(g: map<string, seq<int>>, ds: seq<string>): nat
    requires forall i :: 0 <= i < |ds| ==> ds[i] in g
    decreases |ds|
  {
    if |ds| == 0 then 0 else SizeSum(g, ds[..|ds| - 1]) + |g[ds[|ds| - 1]]|
  }

  /** Sum of the head counts of the departments `ds`, each taken as often as it is listed. */
  function HeadCountSum(rep: Report, ds: seq<string>): nat
    requires forall i :: 0 <= i < |ds| ==> ds[i] in rep
    decreases |ds|
  {
    if |ds| == 0 then 0 else HeadCountSum(rep, ds[..|ds| - 1]) + rep[ds[|ds| - 1]].headCount
  }

  lemma {:induction false} SizeSumEmpty(g: map<string, seq<int>>, ds: seq<string>)
    requires forall i :: 0 <= i < |ds| ==> ds[i] in g && g[ds[i]] == []
    ensures SizeSum(g, ds) == 0
    decreases |ds|
  {
    if |ds| > 0 {
      SizeSumEmpty(g, ds[..|ds| - 1]);
    }
  }

  /**
   * Appending one salary to department `k` raises the sum over a list
   * without repeats by one if `k` is listed, and leaves it alone otherwise.
   */
  lemma {:induction false} SizeSumAppend(g: map<string, seq<int>>, ds: seq<string>, k: string, v: int)
    requires Distinct(ds)
    requires k in g
    requires forall i :: 0 <= i < |ds| ==> ds[i] in g
    ensures SizeSum(g[k := g[k] + [v]], ds) == SizeSum(g, ds) + (if k in ds then 1 else 0)
    decreases |ds|
  {
    if |ds| > 0 {
      var init := ds[..|ds| - 1];
      assert Distinct(init);
      SizeSumAppend(g, init, k, v);
      assert k in ds <==> k in init || k == ds[|ds| - 1];
      if k == ds[|ds| - 1] {
        assert k !in init;
      }
    }
  }

  /** One more row appends its salary to its own department's list. */
  lemma GroupSalariesStep(deps: seq<string>, vals: seq<int>, n: nat)
    requires 0 < n <= |deps| && n <= |vals|
    ensures deps[n - 1] in GroupSalaries(deps, vals, n - 1)
    ensures GroupSalaries(deps, vals, n) ==
      GroupSalaries(deps, vals, n - 1)[deps[n - 1] := GroupSalaries(deps, vals, n - 1)[deps[n - 1]] + [vals[n - 1]]]
  {
  }

  lemma GroupedSalaryTotalZero(deps: seq<string>, vals: seq<int>, ds: seq<string>)
    requires Elems(ds) == Elems(deps)
    ensures SizeSum(GroupSalaries(deps, vals, 0), ds) == 0
  {
    SizeSumEmpty(GroupSalaries(deps, vals, 0), ds);
  }

  lemma GroupedSalaryTotalStep(deps: seq<string>, vals: seq<int>, n: nat, ds: seq<string>)
    requires 0 < n <= |deps| && n <= |vals|
    requires Distinct(ds) && Elems(ds) == Elems(deps)
    ensures SizeSum(GroupSalaries(deps, vals, n), ds) == SizeSum(GroupSalaries(deps, vals, n - 1), ds) + 1
  {
    assert deps[n - 1] in Elems(ds);
    GroupSalariesStep(deps, vals, n);
    SizeSumAppend(GroupSalaries(deps, vals, n - 1), ds, deps[n - 1], vals[n - 1]);
  }

  /**
   * Grouping `n` rows files exactly `n` salaries under the departments,
   * each listed once: none is lost and none is doubled.
   */
  lemma {:induction false} GroupedSalaryTotal(deps: seq<string>, vals: seq<int>, n: nat, ds: seq<string>)
    requires n <= |deps| && n <= |vals|
    requires Distinct(ds) && Elems(ds) == Elems(deps)
    ensures SizeSum(GroupSalaries(deps, vals, n), ds) == n
    decreases n
  {
    if n == 0 {
      GroupedSalaryTotalZero(deps, vals, ds);
    } else {
      GroupedSalaryTotal(deps, vals, n - 1, ds);
      GroupedSalaryTotalStep(deps, vals, n, ds);
    }
  }

  lemma {:induction false} HeadCountSumSizes(rep: Report, g: map<string, seq<int>>, ds: seq<string>)
    requires forall i :: 0 <= i < |ds| ==> ds[i] in g && ds[i] in rep && rep[ds[i]].headCount == |g[ds[i]]|
    ensures HeadCountSum(rep, ds) == SizeSum(g, ds)
    decreases |ds|
  {
    if |ds| > 0 {
      HeadCountSumSizes(rep, g, ds[..|ds| - 1]);
    }
  }

  /**
   * Summed over all departments, each taken once as in the list of distinct
   * departments, the head counts equal the number of (department, salary)
   * pairs aggregated.
   */
  lemma HeadCountTotal(t: Table)
    requires t.Valid()
    requires GetReportsOf(t).Ok?
    ensures |t.keys| >= 2
    ensures Elems(Dedup(Departments(t))) == GetReportsOf(t).value.Keys
    ensures HeadCountSum(GetReportsOf(t).value, Dedup(Departments(t))) == PairCount(t)
  {
    ReportShape(t);
    var deps, vals, n := Departments(t), ParsedSalaries(t).value, PairCount(t);
    var g := GroupSalaries(deps, vals, n);
    var ds := Dedup(deps);
    GroupedSalaryTotal(deps, vals, n, ds);
    HeadCountSumSizes(GetReportsOf(t).value, g, ds);
  }
}
