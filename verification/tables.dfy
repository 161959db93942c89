/**
 * The tabular loader (`get_data`): turns the header record and the data
 * records of a `;`-delimited file, already split into cells, into a
 * column-oriented table.
 */
module Tables {
  import opened Wrappers
  import opened Seqs

  /** Every way a run can end without a result. */
  datatype Error =
    | NotFound(file: string)   // the normalised input file does not exist
    | NoHeader                 // the file holds no record at all
    | ShortRecord              // a data record has fewer cells than the header
    | SchemaError              // too few columns for the positional roles
    | ParseError(cell: string) // a salary cell is not an integer
    | EmptySalaryList          // a department ends up with no salary to aggregate

  type Record = seq<string>

  type Columns = map<string, seq<string>>

  /**
   * A loaded table: the column names in dictionary order and the cells of
   * each column in record order.
   */
  datatype Table = Table(keys: seq<string>, content: Columns) {

    /** Keys are listed once each and are exactly the columns present. */
    predicate Valid() {
      Distinct(keys) && Elems(keys) == content.Keys
    }
  }

  /** One empty column per header name. */
  function EmptyColumns(tags: seq<string>): (c: Columns)
    ensures c.Keys == Elems(tags)
    ensures forall t :: t in c ==> c[t] == []
  {
    map t | t in tags :: []
  }

  /**
   * Appends `row[i]`, `row[i+1]`, ... to the columns named `tags[i]`,
   * `tags[i+1]`, ...; indexing past the end of the row aborts the load.
   */
  function AppendCells(content: Columns, tags: seq<string>, row: Record, i: nat): (r: Result<Columns, Error>)
    requires i <= |tags|
    requires Elems(tags) <= content.Keys
    ensures r.Ok? ==> r.value.Keys == content.Keys
    ensures r.Err? <==> i < |tags| && |row| < |tags|
    ensures r.Err? ==> r.error == ShortRecord
    decreases |tags| - i
  {
    if i == |tags| then Ok(content)
    else if i >= |row| then Err(ShortRecord)
    else AppendCells(content[tags[i] := content[tags[i]] + [row[i]]], tags, row, i + 1)
  }

  /** Feeds the data records, in order, through `AppendCells`. */
  function Fill(tags: seq<string>, rows: seq<Record>): (r: Result<Columns, Error>)
    ensures r.Ok? ==> r.value.Keys == Elems(tags)
    ensures r.Err? <==> exists k :: 0 <= k < |rows| && |rows[k]| < |tags|
    ensures r.Err? ==> r.error == ShortRecord
    decreases |rows|
  {
    if |rows| == 0 then Ok(EmptyColumns(tags))
    else
      var init := rows[..|rows| - 1];
      assert forall k :: 0 <= k < |init| ==> init[k] == rows[k];
      var c :- Fill(tags, init);
      AppendCells(c, tags, rows[|rows| - 1], 0)
  }

  /**
   * `get_data` after the file has been opened: the first record is the
   * header, the rest are data records.
   */
  function Load(records: seq<Record>): (r: Result<Table, Error>)
    ensures r.Ok? ==> r.value.Valid()
    ensures r.Ok? ==> |records| > 0 && Elems(r.value.keys) == Elems(records[0])
    ensures r.Err? <==> |records| == 0 || exists k :: 1 <= k < |records| && |records[k]| < |records[0]|
    ensures |records| == 0 ==> r == Err(NoHeader)
    ensures |records| > 0 && r.Err? ==> r.error == ShortRecord
  {
    if |records| == 0 then Err(NoHeader)
    else
      var rows := records[1..];
      assert forall k :: 1 <= k < |records| ==> records[k] == rows[k - 1];
      var c :- Fill(records[0], rows);
      Ok(Table(Dedup(records[0]), c))
  }

  /** Every data record supplies a cell for each header position. */
  predicate WideEnough(rows: seq<Record>, width: nat) {
    forall k :: 0 <= k < |rows| ==> width <= |rows[k]|
  }

  /** Cell `j` of every record, in record order: the reference meaning of a column. */
  function Column(rows: seq<Record>, j: nat): (col: seq<string>)
    requires WideEnough(rows, j + 1)
    ensures |col| == |rows|
    ensures forall k :: 0 <= k < |rows| ==> col[k] == rows[k][j]
  {
    seq(|rows|, k requires 0 <= k < |rows| => rows[k][j])
  }

  /** With distinct names, one record adds exactly its own cell to each column. */
  lemma {:induction false} AppendCellsDistinct(content: Columns, tags: seq<string>, row: Record, i: nat)
    requires i <= |tags| <= |row|
    requires Distinct(tags)
    requires Elems(tags) <= content.Keys
    ensures AppendCells(content, tags, row, i).Ok?
    ensures forall j :: 0 <= j < i ==>
      AppendCells(content, tags, row, i).value[tags[j]] == content[tags[j]]
    ensures forall j :: i <= j < |tags| ==>
      AppendCells(content, tags, row, i).value[tags[j]] == content[tags[j]] + [row[j]]
    decreases |tags| - i
  {
    if i < |tags| {
      var next := content[tags[i] := content[tags[i]] + [row[i]]];
      AppendCellsDistinct(next, tags, row, i + 1);
    }
  }

  /**
   * With distinct names and wide-enough records, the column of header
   * position `j` is exactly `Column(rows, j)`.
   */
  lemma {:induction false} FillDistinct(tags: seq<string>, rows: seq<Record>)
    requires Distinct(tags)
    requires WideEnough(rows, |tags|)
    ensures Fill(tags, rows).Ok?
    ensures forall j :: 0 <= j < |tags| ==> Fill(tags, rows).value[tags[j]] == Column(rows, j)
    decreases |rows|
  {
    if |rows| > 0 {
      var init := rows[..|rows| - 1];
      FillDistinct(tags, init);
      var c := Fill(tags, init).value;
      AppendCellsDistinct(c, tags, rows[|rows| - 1], 0);
      forall j | 0 <= j < |tags|
        ensures Fill(tags, rows).value[tags[j]] == Column(rows, j)
      {
        assert Column(rows, j) == Column(init, j) + [rows[|rows| - 1][j]];
      }
    }
  }

  /**
   * The table of a file with distinct header names: the keys are the header
   * in order, every column has one cell per data record, and the cell of
   * column `tags[j]` at record `k` is cell `j` of that record.
   */
  lemma LoadDistinct(records: seq<Record>)
    requires |records| > 0
    requires Distinct(records[0])
    requires WideEnough(records[1..], |records[0]|)
    ensures Load(records).Ok?
    ensures Load(records).value.keys == records[0]
    ensures forall t :: t in Load(records).value.content ==>
      |Load(records).value.content[t]| == |records| - 1
    ensures forall j, k :: 0 <= j < |records[0]| && 1 <= k < |records| ==>
      Load(records).value.content[records[0][j]][k - 1] == records[k][j]
  {
    var tags, rows := records[0], records[1..];
    FillDistinct(tags, rows);
    var c := Load(records).value.content;
    forall t | t in c
      ensures |c[t]| == |records| - 1
    {
      var j :| 0 <= j < |tags| && tags[j] == t;
    }
  }

  /** The first `width` cells of every record; what the loader can see. */
  function Trim(rows: seq<Record>, width: nat): (r: seq<Record>)
    ensures |r| == |rows|
    ensures forall k :: 0 <= k < |rows| ==> r[k] == (if |rows[k]| <= width then rows[k] else rows[k][..width])
  {
    seq(|rows|, k requires 0 <= k < |rows| => if |rows[k]| <= width then rows[k] else rows[k][..width])
  }

  lemma {:induction false} AppendCellsTrim(content: Columns, tags: seq<string>, row: Record, i: nat)
    requires i <= |tags|
    requires Elems(tags) <= content.Keys
    ensures AppendCells(content, tags, row, i) ==
      AppendCells(content, tags, if |row| <= |tags| then row else row[..|tags|], i)
    decreases |tags| - i
  {
    if i < |tags| && i < |row| {
      var next := content[tags[i] := content[tags[i]] + [row[i]]];
      AppendCellsTrim(next, tags, row, i + 1);
    }
  }

  /** Cells beyond the header's length are ignored: trimming them changes nothing. */
  lemma {:induction false} FillIgnoresExtraCells(tags: seq<string>, rows: seq<Record>)
    ensures Fill(tags, rows) == Fill(tags, Trim(rows, |tags|))
    decreases |rows|
  {
    if |rows| > 0 {
      var trimmed := Trim(rows, |tags|);
      assert trimmed[..|rows| - 1] == Trim(rows[..|rows| - 1], |tags|);
      FillIgnoresExtraCells(tags, rows[..|rows| - 1]);
      var r := Fill(tags, rows[..|rows| - 1]);
      if r.Ok? {
        AppendCellsTrim(r.value, tags, rows[|rows| - 1], 0);
      }
    }
  }

  /** The loaded table does not change when every data record is cut to the header's length. */
  lemma LoadIgnoresExtraCells(records: seq<Record>)
    requires |records| > 0
    ensures Load(records) == Load([records[0]] + Trim(records[1..], |records[0]|))
  {
    var cut := [records[0]] + Trim(records[1..], |records[0]|);
    assert cut[0] == records[0] && cut[1..] == Trim(records[1..], |records[0]|);
    FillIgnoresExtraCells(records[0], records[1..]);
  }

  /**
   * A repeated header name keeps one key and collects the cells of every
   * position carrying it, rather than keeping only the last such column.
   */
  lemma DuplicateHeaderMerges()
    ensures Load([["a", "a"], ["1", "2"]]) == Ok(Table(["a"], map["a" := ["1", "2"]]))
  {
    var tags: seq<string> := ["a", "a"];
    var rows: seq<Record> := [["1", "2"]];
    var row: Record := ["1", "2"];
    var c0: Columns := map["a" := []];
    assert EmptyColumns(tags) == c0;
    assert rows[..0] == [];
    assert Fill(tags, []) == Ok(c0);
    var c1 := c0["a" := ["1"]];
    var c2 := c1["a" := ["1", "2"]];
    assert AppendCells(c2, tags, row, 2) == Ok(c2);
    assert c1[tags[1] := c1[tags[1]] + [row[1]]] == c2 by {
      assert c1[tags[1]] + [row[1]] == ["1", "2"];
    }
    assert AppendCells(c1, tags, row, 1) == Ok(c2);
    assert c0[tags[0] := c0[tags[0]] + [row[0]]] == c1 by {
      assert c0[tags[0]] + [row[0]] == ["1"];
    }
    assert AppendCells(c0, tags, row, 0) == Ok(c2);
    assert Fill(tags, rows) == Ok(c2);
    assert c2 == map["a" := ["1", "2"]];
    assert Dedup(tags) == ["a"] by {
      assert tags[..1] == ["a"];
      assert ["a"][..0] == [];
    }
    assert [["a", "a"], ["1", "2"]][1..] == rows;
  }
}
