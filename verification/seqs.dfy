/** Small facts about sequences used by the loader and the aggregators. */
module Seqs {

  /** No element occurs twice. */
  predicate Distinct<T(==)>(s: seq<T>) {
    forall i, j :: 0 <= i < j < |s| ==> s[i] != s[j]
  }

  /** The set of elements of a sequence. */
  function Elems<T>(s: seq<T>): set<T> {
    set x | x in s
  }

  lemma ElemsSnoc<T>(s: seq<T>, x: T)
    ensures Elems(s + [x]) == Elems(s) + {x}
  {
    assert forall y :: y in s + [x] <==> y in s || y == x;
  }

  /**
   * The elements of `s` in order of first occurrence, each kept once: the
   * order in which a dictionary built from `s` lists its keys.
   */
  function Dedup<T(==)>(s: seq<T>): (r: seq<T>)
    ensures Distinct(r)
    ensures Elems(r) == Elems(s)
    ensures Distinct(s) ==> r == s
    decreases |s|
  {
    if |s| == 0 then []
    else
      var init, last := s[..|s| - 1], s[|s| - 1];
      assert s == init + [last];
      ElemsSnoc(init, last);
      var p := Dedup(init);
      ElemsSnoc(p, last);
      if last in p then p else p + [last]
  }

  /**
   * De-duplication lists names in order of first occurrence: extending the
   * sequence only appends to its de-duplicated form.
   */
  lemma {:induction false} DedupPrefix<T>(s: seq<T>, t: seq<T>)
    ensures Dedup(s) <= Dedup(s + t)
    decreases |t|
  {
    if |t| == 0 {
      assert s + t == s;
    } else {
      var u := t[..|t| - 1];
      assert (s + t)[..|s + t| - 1] == s + u;
      DedupPrefix(s, u);
    }
  }
}
