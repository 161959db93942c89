# Employee-table hierarchy and salary report, in Dafny

This project models the core of `hw2_1.py`, a command-line tool that reads a
`;`-delimited employee file and either lists each department with its teams
or summarises salaries per department (minimum, maximum, head count, mean).
The model starts from the file's records already split into cells and covers:

- the `.csv` suffix rule for input and output file names (`FileNames`);
- the loader `get_data`, which turns the header and data records into a
  column-oriented table keyed by header name (`Tables`);
- the positional schema: key position 1 is the department, key position 2 the
  team (division), the last key the salary, with Python's list indexing and
  its `IndexError` (`Schema`);
- `get_teams`, the department → set-of-teams hierarchy (`Hierarchy`);
- `get_reports`, the per-department salary summary, with salary cells parsed
  as integers (`Salaries`, `Reports`);
- the two entry points over a file system given as a parameter (`Pipeline`),
  and a worked three-employee example (`Example`).

The failures the model covers are values of `Tables.Error`: a missing file
(`NotFound`, naming the normalised file), an empty file (`NoHeader`, the
`StopIteration` of reading the header), a record shorter than the header
(`ShortRecord`, the `IndexError` of `row[i]`), too few columns for a role
(`SchemaError`), a salary that is not an integer (`ParseError`), and a
department left without salaries (`EmptySalaryList`, the `ValueError` of
`min([])`). Two further failures of the Python runtime are not modelled (see
"Left out"): a mean too large for a float, and a salary cell longer than
CPython's integer-conversion limit.

The mean is not computed as a float. Each report entry keeps the exact pair
`total` and `headCount`, and the contracts state
`minSalary * headCount <= total <= maxSalary * headCount`, which places the
mean between the extremes.

Three behaviours of the code are worth spelling out:

- A repeated header name merges columns. The dictionary keeps the name once,
  at its first position, and appends the cells of every position carrying
  that name to the same list (`Tables.DuplicateHeaderMerges`). Keys are
  listed in first-occurrence order (`Seqs.Dedup`, `Seqs.DedupPrefix`), as a
  Python dictionary lists them.
- `min([])` raises for a department with no salaries. This is reachable only
  through duplicate header names, because `zip` stops at the shorter of the
  department and salary columns. The model returns `EmptySalaryList` there,
  and `Reports.AlignedColumnsHaveNoEmptyGroup` proves it cannot happen when
  the two columns have equal length.
- `get_teams` needs three columns, because it reads key position 2. With
  exactly two columns, `get_reports` uses the department column as the
  salary column (`Schema.SalaryIsLastKey`).

`get_reports` parses each salary inside its grouping loop. The model parses
all zipped salary cells first and then groups them. The observable result is
the same, because grouping cannot fail: either the first unparseable cell in
row order aborts the run, or every department gets its list.

## Model

| member | source | states |
|---|---|---|
| FileNames.NormalizeCsvName | hw2_1.py:23-24 | the result ends in `.csv` and extends the name; a name already ending in `.csv` is returned unchanged, any other name gets `.csv` appended |
| FileNames.NormalizeIdempotent | hw2_1.py:23-24 | normalising a normalised name changes nothing |
| FileNames.NormalizeFixedPoint | hw2_1.py:135-136 | a name is left unchanged exactly when it already ends in `.csv` |
| Seqs.Dedup | hw2_1.py:29 | the dictionary's key order lists each header name once, covers every header name, and is the header itself when the names are distinct |
| Seqs.DedupPrefix | hw2_1.py:29 | keys are listed in order of first occurrence: a longer header only appends names to the key order of its prefix |
| Salaries.ParseInt | hw2_1.py:93 | a salary cell parses exactly when it is an optionally signed run of decimal digits; unsigned cells give non-negative values |
| Salaries.ParseIntPadding | hw2_1.py:93 | a leading zero or a `+` sign leaves a cell's value unchanged and a `-` sign negates it, so with the round trip every accepted cell has the value `int()` gives it |
| Salaries.ParseShowInt | hw2_1.py:93 | every integer written in decimal reads back as itself |
| Salaries.ParseRejectsWords | hw2_1.py:93 | a word such as `abc`, an empty cell and a lone sign are rejected |
| Tables.EmptyColumns | hw2_1.py:29 | the starting table has one empty column per header name and no other column |
| Tables.AppendCells | hw2_1.py:31-32 | appending one record keeps the set of columns and fails with `ShortRecord` exactly when the record is shorter than the header |
| Tables.Fill | hw2_1.py:30-32 | the columns are exactly the header names, and loading fails with `ShortRecord` exactly when some data record is shorter than the header |
| Tables.Load | hw2_1.py:26-33 | an empty file fails with `NoHeader`; otherwise loading fails exactly when a data record is too short, and a loaded table lists each header name once as a key |
| Tables.AppendCellsDistinct | hw2_1.py:31-32 | with distinct header names, one record adds cell `j` to the column of header `j` and to no other column |
| Tables.FillDistinct | hw2_1.py:30-32 | with distinct header names, the column of header `j` is cell `j` of every data record, in record order |
| Tables.LoadDistinct | hw2_1.py:28-32 | with distinct header names, the keys are the header in order, every column has one cell per data record, and cell `k` of column `tags[j]` is cell `j` of data record `k` |
| Tables.FillIgnoresExtraCells | hw2_1.py:30-32 | cutting every data record to the header's length does not change the filled columns |
| Tables.LoadIgnoresExtraCells | hw2_1.py:30-32 | cells beyond the header's length leave the loaded table unchanged |
| Tables.DuplicateHeaderMerges | hw2_1.py:29-32 | a header `a;a` with record `1;2` gives the single key `a` with column `1, 2` |
| Schema.KeyAt | hw2_1.py:67-69 | a key position resolves exactly when it is inside the key list, counting negative positions from the end; otherwise it is a `SchemaError` |
| Schema.ColumnAt | hw2_1.py:88-90 | the column at a resolvable key position is the column of the key at that position; any other position is a `SchemaError` |
| Schema.SalaryIsLastKey | hw2_1.py:90 | the salary role names the last key, and it coincides with the department key when there are two columns |
| Schema.RoleArity | hw2_1.py:67-69 | the department role needs two keys, the team role three, and the salary role one |
| Hierarchy.ZipLength | hw2_1.py:71 | `zip` pairs as many rows as the shorter column has, and no more |
| Hierarchy.Gather | hw2_1.py:70-72 | the hierarchy has one key per distinct department, and the set of department `d` is exactly the teams of the rows of `d` |
| Hierarchy.GetTeamsOf | hw2_1.py:66-73 | the hierarchy fails with `SchemaError` exactly when there are fewer than three columns; otherwise its keys are the distinct departments and each set holds exactly that department's teams |
| Hierarchy.TeamsSoundComplete | hw2_1.py:71-72 | every row's team is in its department's set, and every team in a set comes from a row of that department |
| Reports.Min | hw2_1.py:96 | the minimum is an element of the list and no element is below it |
| Reports.Max | hw2_1.py:97 | the maximum is an element of the list and no element is above it |
| Reports.Summarize | hw2_1.py:96-99 | an entry has head count at least one, extremes taken from the list and bounding every salary, a mean between the extremes, and min = max = total for a single salary |
| Reports.ParseSalaries | hw2_1.py:92-93 | parsing succeeds exactly when every cell parses, each value being its cell's parse; otherwise the error names the first bad cell |
| Reports.SalariesOfContents | hw2_1.py:92-93 | a department's salary list has one entry per row of that department and holds exactly those rows' salaries |
| Reports.GroupSalaries | hw2_1.py:91-93 | the grouping has one key per distinct department and no other key |
| Reports.GroupSalariesContents | hw2_1.py:91-93 | each department's list is exactly that department's salaries, in row order |
| Reports.GetReportsOf | hw2_1.py:87-102 | the report fails with `SchemaError` exactly when there are fewer than two columns; a report's keys are the distinct departments, and every entry has a head count of at least one and a mean between its extremes |
| Reports.ReportEntryOfGroup | hw2_1.py:94-99 | each report line is the summary of its department's non-empty salary list |
| Reports.SummaryOfRows | hw2_1.py:96-98 | a department's summary has one head per row of the department, and its extremes bound every such row's salary and are salaries of such rows |
| Reports.ReportEntries | hw2_1.py:95-101 | an entry's head count is the number of its department's rows, its total is their salary sum, every such salary lies between the extremes, and both extremes are salaries of rows of that department |
| Reports.ReportFailsOnBadSalary | hw2_1.py:92-93 | one unparseable salary among the zipped rows makes the report fail with a `ParseError` |
| Reports.GroupsOfAllRowsNonEmpty | hw2_1.py:91-96 | grouping every row leaves no department without a salary |
| Reports.AlignedColumnsHaveNoEmptyGroup | hw2_1.py:91-96 | with equal-length department and salary columns and parseable salaries, the report succeeds |
| Reports.AlignedReportOk | hw2_1.py:88-96 | with equal-length department and salary columns, the report exists exactly when every salary cell parses |
| Reports.GroupedSalaryTotal | hw2_1.py:91-93 | grouping `n` rows files exactly `n` salaries across all departments |
| Reports.HeadCountTotal | hw2_1.py:92-98 | the head counts, summed over the distinct departments, equal the number of zipped rows |
| Pipeline.GetData | hw2_1.py:23-36 | a missing normalised file fails with `NotFound` naming it; a present one gives the loader's result on its records, so only `NoHeader` or `ShortRecord` can fail, and a loaded table is valid |
| Pipeline.GetDataNormalises | hw2_1.py:23-24 | loading a name and loading its normalised form give the same result |
| Pipeline.GetTeams | hw2_1.py:55-73 | a loaded table is handed to the hierarchy builder, so a hierarchy needs at least three columns; a loading error is passed on unchanged |
| Pipeline.GetReports | hw2_1.py:76-102 | a loaded table is handed to the report aggregator, so a report needs at least two columns and every entry has a mean between its extremes; a loading error is passed on unchanged |
| Pipeline.LoadedColumn | hw2_1.py:28-32 | in a well-formed file, the column at key position `j` is cell `j` of every data record |
| Pipeline.TeamsOfFileKeys | hw2_1.py:66-70 | a well-formed file with three columns has a hierarchy whose keys are the distinct values of the second column |
| Pipeline.TeamsOfFileSound | hw2_1.py:71-72 | each data record's team is in its department's set |
| Pipeline.TeamsOfFileComplete | hw2_1.py:71-72 | each team in a department's set is the team of some data record of that department |
| Pipeline.ReportOfFileOk | hw2_1.py:88-93 | a well-formed file has a report exactly when every salary cell parses |
| Pipeline.ReportOfFileTotals | hw2_1.py:88-98 | a report's keys are the distinct values of the second column, and its head counts, summed over the distinct departments, equal the number of data records |
| Pipeline.TeamsOfNamedFile | hw2_1.py:23-36 | for a well-formed three-column file under the normalised name, `get_teams` succeeds, its departments are the distinct values of the second column, and each record's team is filed under its department |
| Pipeline.ReportsOfNamedFileOk | hw2_1.py:76-102 | for a well-formed file under the normalised name, `get_reports` succeeds exactly when every salary cell parses |
| Pipeline.ReportsOfNamedFileTotals | hw2_1.py:76-102 | a report obtained by file name lists the distinct values of the second column, and its head counts sum to the number of data records |
| Example.StaffTeams | hw2_1.py:66-73 | rows (A, X), (A, Y), (B, Z) give the hierarchy A: {X, Y}, B: {Z} |
| Example.StaffReport | hw2_1.py:87-102 | salaries 100 and 300 in A and 200 in B give A: 100..300, two people, total 400; B: 200..200, one person, total 200 |

## Left out

- Opening the file, UTF-8 decoding and the `csv` module's quoting and escaping (hw2_1.py:26-27). The model starts from records already split at `;`, and the file system is a map from file name to records.
- Console output in `print_teams` and `print_report` (hw2_1.py:39-52, 105-121). It is presentation only.
- The `input()` prompts, `.strip()` of the typed names, and the menu dispatch in `main`, including its `KeyError` for a bad choice (hw2_1.py:134, 145-163). They are interactive plumbing.
- Writing the report file in `make_report_csv` (hw2_1.py:137-142). It is file output of float means; only its file-name rule is modelled.
- Reports.Summarize: the mean is kept as the exact pair `total / headCount`, and `round(..., 2)` on floats (hw2_1.py:99) is not modelled. Nor is the `OverflowError` that `sum(salaries) / head_count` raises when the quotient is too large for a float (a salary of `1` followed by 400 zeros): the model returns the entry.
- Salaries.ParseInt: accepts only an optional `+`/`-` and ASCII digits. The surrounding whitespace, digit-group underscores and non-ASCII digits that Python's `int()` also accepts are not modelled. Nor is the `ValueError` that `int()` raises on a cell of more than 4300 digits under CPython's integer string-conversion limit: the model parses such a cell.
- The sorted order of department keys (hw2_1.py:68, 89). It affects only the iteration order of the output. Hierarchies and reports are maps here.
