/**
 * The worked example of a three-employee file: employees in departments
 * A, A, B with teams X, Y, Z and salaries 100, 300, 200.
 */
module Example {
  import opened Wrappers
  import opened Seqs
  import opened Tables
  import opened Salaries
  import opened Hierarchy
  import opened Reports
  import opened Pipeline

  /** The example's department and team cells; the other cells are free. */
  predicate StaffTeamsFile(r: seq<Record>) {
    && |r| == 4
    && WellFormed(r, 3)
    && r[1][1] == "A" && r[1][2] == "X"
    && r[2][1] == "A" && r[2][2] == "Y"
    && r[3][1] == "B" && r[3][2] == "Z"
  }

  lemma StaffDepartments(r: seq<Record>)
    requires StaffTeamsFile(r)
    ensures CellsAt(r, 1) == {"A", "B"}
  {
    assert r[1][1] in CellsAt(r, 1) && r[3][1] in CellsAt(r, 1);
  }

  /** A team filed under a department comes from one of the example's records. */
  lemma StaffTeamOrigin(r: seq<Record>, d: string, v: string)
    requires StaffTeamsFile(r)
    requires Load(r).Ok? && GetTeamsOf(Load(r).value).Ok?
    requires d in GetTeamsOf(Load(r).value).value
    requires v in GetTeamsOf(Load(r).value).value[d]
    ensures d == "A" ==> v == "X" || v == "Y"
    ensures d == "B" ==> v == "Z"
  {
    TeamsOfFileComplete(r, d, v);
    var k :| 1 <= k < |r| && r[k][1] == d && r[k][2] == v;
    assert k == 1 || k == 2 || k == 3;
  }

  lemma StaffTeamsA(r: seq<Record>)
    requires StaffTeamsFile(r)
    ensures Load(r).Ok? && GetTeamsOf(Load(r).value).Ok?
    ensures "A" in GetTeamsOf(Load(r).value).value
    ensures GetTeamsOf(Load(r).value).value["A"] == {"X", "Y"}
  {
    TeamsOfFileSound(r, 1);
    TeamsOfFileSound(r, 2);
    var s := GetTeamsOf(Load(r).value).value["A"];
    forall v | v in s ensures v in {"X", "Y"} {
      StaffTeamOrigin(r, "A", v);
    }
  }

  lemma StaffTeamsB(r: seq<Record>)
    requires StaffTeamsFile(r)
    ensures Load(r).Ok? && GetTeamsOf(Load(r).value).Ok?
    ensures "B" in GetTeamsOf(Load(r).value).value
    ensures GetTeamsOf(Load(r).value).value["B"] == {"Z"}
  {
    TeamsOfFileSound(r, 3);
    var s := GetTeamsOf(Load(r).value).value["B"];
    forall v | v in s ensures v in {"Z"} {
      StaffTeamOrigin(r, "B", v);
    }
  }

  /** Department A holds teams X and Y, department B holds team Z. */
  lemma StaffTeams(r: seq<Record>)
    requires StaffTeamsFile(r)
    ensures Load(r).Ok?
    ensures GetTeamsOf(Load(r).value) == Ok(map["A" := {"X", "Y"}, "B" := {"Z"}])
  {
    TeamsOfFileKeys(r);
    StaffDepartments(r);
    StaffTeamsA(r);
    StaffTeamsB(r);
    var h := GetTeamsOf(Load(r).value).value;
    assert h == map["A" := {"X", "Y"}, "B" := {"Z"}];
  }

  /** The example's department and salary cells, salary being the fourth and last column. */
  predicate StaffReportFile(r: seq<Record>) {
    && |r| == 4
    && WellFormed(r, 4) && |r[0]| == 4
    && r[1][1] == "A" && r[1][3] == "100"
    && r[2][1] == "A" && r[2][3] == "300"
    && r[3][1] == "B" && r[3][3] == "200"
  }

  lemma StaffColumns(r: seq<Record>)
    requires StaffReportFile(r)
    ensures Load(r).Ok?
    ensures var t := Load(r).value;
      && |t.keys| >= 2
      && Departments(t) == ["A", "A", "B"]
      && SalaryCells(t) == ["100", "300", "200"]
  {
    LoadedColumn(r, 1);
    LoadedColumn(r, 3);
  }

  lemma StaffSalariesParse()
    ensures ParseSalaries(["100", "300", "200"]) == Ok([100, 300, 200])
  {
    HundredsParse();
    var cells: seq<string> := ["100", "300", "200"];
    var r := ParseSalaries(cells);
    assert r.Ok?;
    var vs := r.value;
    assert ParseInt(cells[0]) == Some(vs[0]);
    assert ParseInt(cells[1]) == Some(vs[1]);
    assert ParseInt(cells[2]) == Some(vs[2]);
    assert vs == [100, 300, 200];
  }

  lemma HundredsParse()
    ensures ParseInt("100") == Some(100)
    ensures ParseInt("200") == Some(200)
    ensures ParseInt("300") == Some(300)
  {
    assert DigitChar(0) == '0' && DigitChar(1) == '1' && DigitChar(2) == '2' && DigitChar(3) == '3';
    assert ShowInt(100) == "100" by {
      assert ShowNat(10) == ShowNat(1) + [DigitChar(0)];
    }
    assert ShowInt(200) == "200" by {
      assert ShowNat(20) == ShowNat(2) + [DigitChar(0)];
    }
    assert ShowInt(300) == "300" by {
      assert ShowNat(30) == ShowNat(3) + [DigitChar(0)];
    }
    ParseShowInt(100);
    ParseShowInt(200);
    ParseShowInt(300);
  }

  lemma StaffGroups()
    ensures GroupSalaries(["A", "A", "B"], [100, 300, 200], 3) == map["A" := [100, 300], "B" := [200]]
  {
    var deps: seq<string> := ["A", "A", "B"];
    var vals: seq<int> := [100, 300, 200];
    var g := GroupSalaries(deps, vals, 3);
    assert g.Keys == {"A", "B"} by {
      assert deps[0] in Elems(deps) && deps[2] in Elems(deps);
    }
    assert SalariesOf(deps, vals, "A", 1) == [100];
    assert SalariesOf(deps, vals, "A", 2) == [100, 300];
    assert SalariesOf(deps, vals, "A", 3) == [100, 300];
    assert SalariesOf(deps, vals, "B", 2) == [];
    assert SalariesOf(deps, vals, "B", 3) == [200];
    assert g == map["A" := [100, 300], "B" := [200]];
  }

  lemma StaffSummaries()
    ensures Summarize([100, 300]) == Entry(100, 300, 2, 400)
    ensures Summarize([200]) == Entry(200, 200, 1, 200)
  {
    var e := Summarize([100, 300]);
    assert [100, 300][..1] == [100];
    assert Sum([100, 300]) == 400;
  }

  lemma StaffGrouped(r: seq<Record>)
    requires StaffReportFile(r)
    ensures Load(r).Ok?
    ensures var t := Load(r).value;
      && |t.keys| >= 2 && ParsedSalaries(t).Ok?
      && |Departments(t)| == |SalaryCells(t)|
      && Grouped(t) == map["A" := [100, 300], "B" := [200]]
  {
    StaffColumns(r);
    var t := Load(r).value;
    StaffSalariesParse();
    assert PairCount(t) == 3;
    assert SalaryCells(t)[..PairCount(t)] == ["100", "300", "200"];
    StaffGroups();
  }

  lemma StaffEntries(rep: Report, g: map<string, seq<int>>)
    requires g == map["A" := [100, 300], "B" := [200]]
    requires rep == map d | d in g :: Summarize(g[d])
    ensures rep == map["A" := Entry(100, 300, 2, 400), "B" := Entry(200, 200, 1, 200)]
  {
    StaffSummaries();
    assert rep.Keys == {"A", "B"};
  }

  lemma StaffReportOfTable(t: Table)
    requires t.Valid() && |t.keys| >= 2 && ParsedSalaries(t).Ok?
    requires |Departments(t)| == |SalaryCells(t)|
    requires Grouped(t) == map["A" := [100, 300], "B" := [200]]
    ensures GetReportsOf(t) == Ok(map["A" := Entry(100, 300, 2, 400), "B" := Entry(200, 200, 1, 200)])
  {
    AlignedColumnsHaveNoEmptyGroup(t);
    ReportShape(t);
    StaffEntries(GetReportsOf(t).value, Grouped(t));
  }

  /**
   * Department A: salaries 100 to 300, two people, total 400 (mean 200);
   * department B: one person earning 200.
   */
  lemma StaffReport(r: seq<Record>)
    requires StaffReportFile(r)
    ensures Load(r).Ok?
    ensures GetReportsOf(Load(r).value) ==
      Ok(map["A" := Entry(100, 300, 2, 400), "B" := Entry(200, 200, 1, 200)])
  {
    StaffGrouped(r);
    StaffReportOfTable(Load(r).value);
  }
}
