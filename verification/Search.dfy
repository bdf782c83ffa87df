/** Substring search, as the scripts and the guide reader use it, over any element type. */
module Search {

  datatype Option<+T> = None | Some(value: T)

  predicate OccursAt<T(==)>(s: seq<T>, pat: seq<T>, i: int) {
    0 <= i && i + |pat| <= |s| && s[i..i + |pat|] == pat
  }

  /** The first occurrence of `pat` at or after `lo`, or -1. */
  function Find<T(==)>(s: seq<T>, pat: seq<T>, lo: nat): (i: int)
    ensures i == -1 || (lo <= i && OccursAt(s, pat, i))
    ensures forall j :: lo <= j && OccursAt(s, pat, j) ==> 0 <= i <= j
    decreases |s| - lo
  {
    if lo + |pat| > |s| then -1
    else if OccursAt(s, pat, lo) then lo
    else Find(s, pat, lo + 1)
  }

  /** The last occurrence of `pat` that starts at or after `lo` and ends by `hi`, or -1. */
  function RFind<T(==)>(s: seq<T>, pat: seq<T>, lo: nat, hi: int): (i: int)
    requires hi <= |s|
    ensures i == -1 || (lo <= i && i + |pat| <= hi && OccursAt(s, pat, i))
    ensures forall j :: lo <= j && j + |pat| <= hi && OccursAt(s, pat, j) ==> 0 <= j <= i
    decreases hi - lo
  {
    if lo + |pat| > hi then -1
    else if OccursAt(s, pat, hi - |pat|) then hi - |pat|
    else RFind(s, pat, lo, hi - 1)
  }

  /** Text before and after the first `sep`, if it holds one. */
  function SplitOnce<T(==)>(s: seq<T>, sep: seq<T>): Option<(seq<T>, seq<T>)> {
    var i := Find(s, sep, 0);
    if i == -1 then None else Some((s[..i], s[i + |sep|..]))
  }

  /** The only first occurrence of `sep` in `a + sep + b` is at `|a|` when none starts earlier. */
  lemma SplitOnceAt<T>(a: seq<T>, sep: seq<T>, b: seq<T>)
    requires forall i :: 0 <= i < |a| ==> !OccursAt(a + sep + b, sep, i)
    ensures SplitOnce(a + sep + b, sep) == Some((a, b))
  {
    var s := a + sep + b;
    assert s[|a|..|a| + |sep|] == sep;
    assert OccursAt(s, sep, |a|);
    var i := Find(s, sep, 0);
    assert i == |a|;
    assert s[..|a|] == a && s[|a| + |sep|..] == b;
  }

  /** An occurrence within the bounds of a slice is one in the slice. */
  lemma OccursInSlice<T>(s: seq<T>, lo: nat, hi: nat, pat: seq<T>, j: nat)
    requires lo <= j && j + |pat| <= hi <= |s| && OccursAt(s, pat, j)
    ensures OccursAt(s[lo..hi], pat, j - lo)
  {
    var slice, k := s[lo..hi], j - lo;
    assert forall m :: k <= m < k + |pat| ==> slice[m] == s[j..j + |pat|][m - k];
    assert slice[k..k + |pat|] == pat;
  }

  /** And back. */
  lemma OccursFromSlice<T>(s: seq<T>, lo: nat, hi: nat, pat: seq<T>, k: nat)
    requires lo <= hi <= |s| && OccursAt(s[lo..hi], pat, k)
    ensures OccursAt(s, pat, lo + k)
  {
    var slice, j := s[lo..hi], lo + k;
    assert forall m :: j <= m < j + |pat| ==> s[m] == slice[k..k + |pat|][m - j];
    assert s[j..j + |pat|] == pat;
  }
}
