/**
 * Positional schema resolution: the roles of the columns are read off the
 * dictionary order of the keys, never off their names.
 */
module Schema {
  import opened Wrappers
  import opened Seqs
  import opened Tables

  /** Key position of the department column. */
  const DepartmentIndex: int := 1
  /** Key position of the division (team) column. */
  const DivisionIndex: int := 2
  /** Key position of the salary column: the last key. */
  const SalaryIndex: int := -1

  /**
   * Python's `list(keys)[i]`: a negative index counts from the end, and an
   * index outside the list raises `IndexError`, here a `SchemaError`.
   */
  function KeyAt(keys: seq<string>, i: int): (r: Result<string, Error>)
    ensures r.Ok? <==> -|keys| <= i < |keys|
    ensures r.Ok? ==> r.value in keys
    ensures r.Ok? && 0 <= i ==> r.value == keys[i]
    ensures r.Ok? && i < 0 ==> r.value == keys[|keys| + i]
    ensures r.Err? ==> r.error == SchemaError
  {
    if 0 <= i < |keys| then Ok(keys[i])
    else if -|keys| <= i < 0 then Ok(keys[|keys| + i])
    else Err(SchemaError)
  }

  /** The cells of the column at key position `i`. */
  function ColumnAt(t: Table, i: int): (r: Result<seq<string>, Error>)
    requires t.Valid()
    ensures r.Ok? <==> -|t.keys| <= i < |t.keys|
    ensures r.Ok? ==> r.value == t.content[KeyAt(t.keys, i).value]
    ensures r.Err? ==> r.error == SchemaError
  {
    var key :- KeyAt(t.keys, i);
    Ok(t.content[key])
  }

  /**
   * The salary role always resolves on a non-empty header and names the
   * last column; with exactly two columns it is the department column itself.
   */
  lemma SalaryIsLastKey(keys: seq<string>)
    requires |keys| > 0
    ensures KeyAt(keys, SalaryIndex) == Ok(keys[|keys| - 1])
    ensures |keys| == 2 ==> KeyAt(keys, SalaryIndex) == KeyAt(keys, DepartmentIndex)
  {
  }

  /** The department role needs two columns, the division role three. */
  lemma RoleArity(keys: seq<string>)
    ensures KeyAt(keys, DepartmentIndex).Ok? <==> |keys| >= 2
    ensures KeyAt(keys, DivisionIndex).Ok? <==> |keys| >= 3
    ensures KeyAt(keys, SalaryIndex).Ok? <==> |keys| >= 1
  {
  }
}
