/**
 * The two entry points as the menu runs them: the file name is normalised,
 * looked up, loaded, and handed to the hierarchy builder or the report
 * aggregator. The file system is a parameter holding each file's records,
 * already split at `;`.
 */
module Pipeline {
  import opened Wrappers
  import opened Seqs
  import opened FileNames
  import opened Tables
  import opened Salaries
  import opened Hierarchy
  import opened Reports

  type FileSystem = map<string, seq<Record>>

  /** `get_data`: the `.csv` suffix rule, then the loader on the file's records. */
  function GetData(file: string, fs: FileSystem): (r: Result<Table, Error>)
    ensures r.Ok? ==> r.value.Valid() && NormalizeCsvName(file) in fs
    ensures NormalizeCsvName(file) !in fs ==> r == Err(NotFound(NormalizeCsvName(file)))
    ensures r.Err? && NormalizeCsvName(file) in fs ==> r.error == NoHeader || r.error == ShortRecord
    ensures NormalizeCsvName(file) in fs ==> r == Load(fs[NormalizeCsvName(file)])
  {
    var path := NormalizeCsvName(file);
    if path !in fs then Err(NotFound(path)) else Load(fs[path])
  }

  /** A name is looked up as its normalised form, so normalising it first changes nothing. */
  lemma GetDataNormalises(file: string, fs: FileSystem)
    ensures GetData(NormalizeCsvName(file), fs) == GetData(file, fs)
  {
    NormalizeIdempotent(file);
  }

  /** `get_teams`: load, then build the department hierarchy. */
  function GetTeams(file: string, fs: FileSystem): (r: Result<Teams, Error>)
    ensures r.Ok? ==> GetData(file, fs).Ok? && |GetData(file, fs).value.keys| >= 3
    ensures GetData(file, fs).Err? ==> r == Err(GetData(file, fs).error)
    ensures GetData(file, fs).Ok? ==> r == GetTeamsOf(GetData(file, fs).value)
  {
    var t :- GetData(file, fs);
    GetTeamsOf(t)
  }

  /** `get_reports`: load, then aggregate salaries by department. */
  function GetReports(file: string, fs: FileSystem): (r: Result<Report, Error>)
    ensures r.Ok? ==> GetData(file, fs).Ok? && |GetData(file, fs).value.keys| >= 2
    ensures GetData(file, fs).Err? ==> r == Err(GetData(file, fs).error)
    ensures GetData(file, fs).Ok? ==> r == GetReportsOf(GetData(file, fs).value)
    ensures r.Ok? ==> forall d :: d in r.value ==>
      (&& r.value[d].headCount >= 1
       && r.value[d].minSalary * r.value[d].headCount <= r.value[d].total
       && r.value[d].total <= r.value[d].maxSalary * r.value[d].headCount)
  {
    var t :- GetData(file, fs);
    GetReportsOf(t)
  }

  /**
   * A well-formed file: distinct header names, at least `width` columns, and
   * a cell for every header position in every data record.
   */
  predicate WellFormed(records: seq<Record>, width: nat) {
    && |records| > 0
    && Distinct(records[0])
    && width <= |records[0]|
    && WideEnough(records[1..], |records[0]|)
  }

  /** Cell `j` of every data record as a set. */
  function CellsAt(records: seq<Record>, j: nat): set<string>
    requires |records| > 0 && WideEnough(records[1..], j + 1)
  {
    set k | 1 <= k < |records| :: records[k][j]
  }

  /** On a well-formed file, the column at key position `j` is cell `j` of every data record. */
  lemma LoadedColumn(records: seq<Record>, j: nat)
    requires WellFormed(records, j + 1)
    ensures Load(records).Ok?
    ensures var t := Load(records).value;
      && t.keys == records[0]
      && t.content[t.keys[j]] == Column(records[1..], j)
  {
    LoadDistinct(records);
    var t := Load(records).value;
    var col := t.content[t.keys[j]];
    assert |col| == |records| - 1;
    forall k | 0 <= k < |col| ensures col[k] == Column(records[1..], j)[k] {
      assert col[k] == records[k + 1][j];
    }
  }

  lemma ElemsColumn(records: seq<Record>, j: nat)
    requires |records| > 0 && WideEnough(records[1..], j + 1)
    ensures Elems(Column(records[1..], j)) == CellsAt(records, j)
  {
    var col := Column(records[1..], j);
    forall v | v in CellsAt(records, j) ensures v in col {
      var k :| 1 <= k < |records| && records[k][j] == v;
      assert col[k - 1] == v;
    }
  }

  /** The hierarchy of a well-formed file exists; its departments are the distinct values of the second column. */
  lemma TeamsOfFileKeys(records: seq<Record>)
    requires WellFormed(records, 3)
    ensures Load(records).Ok? && GetTeamsOf(Load(records).value).Ok?
    ensures GetTeamsOf(Load(records).value).value.Keys == CellsAt(records, 1)
  {
    LoadedColumn(records, 1);
    ElemsColumn(records, 1);
  }

  /** Every record's team is filed under its own department. */
  lemma TeamsOfFileSound(records: seq<Record>, k: nat)
    requires WellFormed(records, 3)
    requires 1 <= k < |records|
    ensures Load(records).Ok? && GetTeamsOf(Load(records).value).Ok?
    ensures var h := GetTeamsOf(Load(records).value).value;
      records[k][1] in h && records[k][2] in h[records[k][1]]
  {
    LoadedColumn(records, 1);
    LoadedColumn(records, 2);
    var t := Load(records).value;
    var deps, divs := t.content[t.keys[1]], t.content[t.keys[2]];
    assert ZipLength(deps, divs) == |records| - 1;
    assert deps[k - 1] == records[k][1] && divs[k - 1] == records[k][2];
    TeamsSoundComplete(t);
  }

  /** Every team filed under a department comes from a record of that department. */
  lemma TeamsOfFileComplete(records: seq<Record>, d: string, v: string)
    requires WellFormed(records, 3)
    requires d in GetTeamsOf(Load(records).value).value
    requires v in GetTeamsOf(Load(records).value).value[d]
    ensures exists k :: 1 <= k < |records| && records[k][1] == d && records[k][2] == v
  {
    LoadedColumn(records, 1);
    LoadedColumn(records, 2);
    var t := Load(records).value;
    var deps, divs := t.content[t.keys[1]], t.content[t.keys[2]];
    TeamsSoundComplete(t);
    var i :| 0 <= i < ZipLength(deps, divs) && deps[i] == d && divs[i] == v;
    assert records[i + 1][1] == d && records[i + 1][2] == v;
  }

  /** The report of a well-formed file exists exactly when every salary cell parses. */
  lemma ReportOfFileOk(records: seq<Record>)
    requires WellFormed(records, 2)
    ensures Load(records).Ok?
    ensures var last := |records[0]| - 1;
      GetReportsOf(Load(records).value).Ok? <==>
        forall k :: 1 <= k < |records| ==> ParseInt(records[k][last]).Some?
  {
    var last := |records[0]| - 1;
    LoadedColumn(records, 1);
    LoadedColumn(records, last);
    var t := Load(records).value;
    AlignedReportOk(t);
    forall i | 0 <= i < |SalaryCells(t)|
      ensures SalaryCells(t)[i] == records[i + 1][last]
    {
      assert records[1..][i] == records[i + 1];
    }
    if forall k :: 1 <= k < |records| ==> ParseInt(records[k][last]).Some? {
      assert forall i :: 0 <= i < |SalaryCells(t)| ==> ParseInt(SalaryCells(t)[i]).Some?;
    } else {
      var k :| 1 <= k < |records| && ParseInt(records[k][last]).None?;
      assert ParseInt(SalaryCells(t)[k - 1]).None?;
    }
  }

  /**
   * The report of a well-formed file lists the distinct values of the
   * second column, and its head counts add up to the number of data records.
   */
  lemma ReportOfFileTotals(records: seq<Record>)
    requires WellFormed(records, 2)
    requires GetReportsOf(Load(records).value).Ok?
    ensures GetReportsOf(Load(records).value).value.Keys == CellsAt(records, 1)
    ensures HeadCountSum(GetReportsOf(Load(records).value).value, Dedup(Departments(Load(records).value))) == |records| - 1
  {
    LoadedColumn(records, 1);
    LoadedColumn(records, |records[0]| - 1);
    ElemsColumn(records, 1);
    HeadCountTotal(Load(records).value);
  }

  /**
   * `get_teams` on a file name: when the normalised name holds a well-formed
   * file with three columns, the hierarchy exists, its departments are the
   * distinct values of the second column, and every record's team is filed
   * under its department.
   */
  lemma TeamsOfNamedFile(file: string, fs: FileSystem)
    requires NormalizeCsvName(file) in fs
    requires WellFormed(fs[NormalizeCsvName(file)], 3)
    ensures GetTeams(file, fs).Ok?
    ensures var records := fs[NormalizeCsvName(file)];
      && GetTeams(file, fs).value.Keys == CellsAt(records, 1)
      && forall k :: 1 <= k < |records| ==>
           records[k][1] in GetTeams(file, fs).value
           && records[k][2] in GetTeams(file, fs).value[records[k][1]]
  {
    var records := fs[NormalizeCsvName(file)];
    TeamsOfFileKeys(records);
    forall k | 1 <= k < |records|
      ensures records[k][1] in GetTeams(file, fs).value
      ensures records[k][2] in GetTeams(file, fs).value[records[k][1]]
    {
      TeamsOfFileSound(records, k);
    }
  }

  /**
   * `get_reports` on a file name: when the normalised name holds a
   * well-formed file, the report exists exactly when every salary cell parses.
   */
  lemma ReportsOfNamedFileOk(file: string, fs: FileSystem)
    requires NormalizeCsvName(file) in fs
    requires WellFormed(fs[NormalizeCsvName(file)], 2)
    ensures var records := fs[NormalizeCsvName(file)];
      GetReports(file, fs).Ok? <==>
        forall k :: 1 <= k < |records| ==> ParseInt(records[k][|records[0]| - 1]).Some?
  {
    ReportOfFileOk(fs[NormalizeCsvName(file)]);
  }

  /**
   * A report obtained from a file name lists the distinct values of the
   * file's second column, with head counts adding up to the number of data
   * records.
   */
  lemma ReportsOfNamedFileTotals(file: string, fs: FileSystem)
    requires NormalizeCsvName(file) in fs
    requires WellFormed(fs[NormalizeCsvName(file)], 2)
    requires GetReports(file, fs).Ok?
    ensures var records := fs[NormalizeCsvName(file)];
      && Load(records).Ok?
      && GetReports(file, fs).value.Keys == CellsAt(records, 1)
      && HeadCountSum(GetReports(file, fs).value, Dedup(Departments(Load(records).value))) == |records| - 1
  {
    ReportOfFileTotals(fs[NormalizeCsvName(file)]);
  }
}
