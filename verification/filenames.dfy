/** The `.csv` suffix rule applied to both the input and the output file name. */
module FileNames {

  const CsvSuffix: string := ".csv"

  /** Python's `str.endswith` for a single suffix (case-sensitive). */
  predicate EndsWith(s: string, suffix: string) {
    |suffix| <= |s| && s[|s| - |suffix|..] == suffix
  }

  /** Appends `.csv` unless the name already ends with it. */
  function NormalizeCsvName(name: string): (r: string)
    ensures EndsWith(r, CsvSuffix)
    ensures name <= r
    ensures EndsWith(name, CsvSuffix) ==> r == name
    ensures !EndsWith(name, CsvSuffix) ==> r == name + CsvSuffix
  {
    if EndsWith(name, CsvSuffix) then name else name + CsvSuffix
  }

  /** Normalising twice is the same as normalising once. */
  lemma NormalizeIdempotent(name: string)
    ensures NormalizeCsvName(NormalizeCsvName(name)) == NormalizeCsvName(name)
  {
  }

  /** A name is a fixed point of normalisation exactly when it already ends in `.csv`. */
  lemma NormalizeFixedPoint(name: string)
    ensures NormalizeCsvName(name) == name <==> EndsWith(name, CsvSuffix)
  {
    if !EndsWith(name, CsvSuffix) {
      assert |NormalizeCsvName(name)| == |name| + 4;
    }
  }
}
