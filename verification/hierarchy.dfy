/** The hierarchy builder (`get_teams`): each department with the set of its divisions. */
module Hierarchy {
  import opened Wrappers
  import opened Seqs
  import opened Tables
  import opened Schema

  type Teams = map<string, set<string>>

  /** Length of `zip(a, b)`: the shorter of the two. */
  function ZipLength<A, B>(a: seq<A>, b: seq<B>): (n: nat)
    ensures n <= |a| && n <= |b|
    ensures n == |a| || n == |b|
  {
    if |a| <= |b| then |a| else |b|
  }

  /** Reference meaning: divisions of the first `n` rows whose department is `d`. */
  function DivisionsOf(deps: seq<string>, divs: seq<string>, d: string, n: nat): set<string>
    requires n <= |deps| && n <= |divs|
  {
    set i | 0 <= i < n && deps[i] == d :: divs[i]
  }

  lemma DivisionsOfStep(deps: seq<string>, divs: seq<string>, n: nat)
    requires 0 < n <= |deps| && n <= |divs|
    ensures forall d ::
              DivisionsOf(deps, divs, d, n) ==
              DivisionsOf(deps, divs, d, n - 1) + (if deps[n - 1] == d then {divs[n - 1]} else {})
  {
    forall d ensures DivisionsOf(deps, divs, d, n) ==
      DivisionsOf(deps, divs, d, n - 1) + (if deps[n - 1] == d then {divs[n - 1]} else {})
    {
      var lhs := DivisionsOf(deps, divs, d, n);
      var rhs := DivisionsOf(deps, divs, d, n - 1) + (if deps[n - 1] == d then {divs[n - 1]} else {});
      forall v | v in rhs ensures v in lhs {
        if v !in DivisionsOf(deps, divs, d, n - 1) {
          assert divs[n - 1] in lhs;
        }
      }
    }
  }

  /**
   * The loop of `get_teams`: starts from an empty set per distinct
   * department and adds each of the first `n` rows' division to its
   * department's set.
   */
  function Gather(deps: seq<string>, divs: seq<string>, n: nat): (h: Teams)
    requires n <= |deps| && n <= |divs|
    ensures h.Keys == Elems(deps)
    ensures forall d :: d in h ==> h[d] == DivisionsOf(deps, divs, d, n)
    decreases n
  {
    if n == 0 then map d | d in deps :: {}
    else
      var h := Gather(deps, divs, n - 1);
      DivisionsOfStep(deps, divs, n);
      h[deps[n - 1] := h[deps[n - 1]] + {divs[n - 1]}]
  }

  /** `get_teams` on a loaded table. */
  function GetTeamsOf(t: Table): (r: Result<Teams, Error>)
    requires t.Valid()
    ensures r.Err? <==> |t.keys| < 3
    ensures r.Err? ==> r.error == SchemaError
    ensures r.Ok? ==>
      var deps, divs := t.content[t.keys[1]], t.content[t.keys[2]];
      var n := ZipLength(deps, divs);
      && r.value.Keys == Elems(deps)
      && forall d :: d in r.value ==> r.value[d] == DivisionsOf(deps, divs, d, n)
  {
    var deps :- ColumnAt(t, DepartmentIndex);
    var divs :- ColumnAt(t, DivisionIndex);
    Ok(Gather(deps, divs, ZipLength(deps, divs)))
  }

  /**
   * Soundness and completeness: every row's division is filed under its own
   * department, and every division filed under `d` comes from a row of `d`.
   */
  lemma TeamsSoundComplete(t: Table)
    requires t.Valid()
    requires GetTeamsOf(t).Ok?
    ensures var h, deps, divs := GetTeamsOf(t).value, t.content[t.keys[1]], t.content[t.keys[2]];
      && (forall i :: 0 <= i < ZipLength(deps, divs) ==> deps[i] in h && divs[i] in h[deps[i]])
      && (forall d, v :: d in h && v in h[d] ==>
            exists i :: 0 <= i < ZipLength(deps, divs) && deps[i] == d && divs[i] == v)
  {
    var h, deps, divs := GetTeamsOf(t).value, t.content[t.keys[1]], t.content[t.keys[2]];
    var n := ZipLength(deps, divs);
    forall i | 0 <= i < n ensures deps[i] in h && divs[i] in h[deps[i]] {
      assert deps[i] in Elems(deps);
      assert divs[i] in DivisionsOf(deps, divs, deps[i], n);
    }
  }
}
