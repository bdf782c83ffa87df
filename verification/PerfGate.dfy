/** The gate over instruction slopes: medians, the noise floor, and a comparison row's verdict. */
module PerfGate {

  import Sorting

  type Values = seq<real>

  // ---- Medians ----

  ghost predicate Ascending(s: Values) { forall i, j :: 0 <= i < j < |s| ==> s[i] <= s[j] }

  function Upward(): Sorting.Order<real> { (x: real, y: real) => x <= y }

  function Sort(s: Values): (r: Values)
    ensures |r| == |s|
  {
    Sorting.Sort(s, Upward())
  }

  /** The middle value of the sorted ones, or the mean of the middle two. */
  function Median(s: Values): real
    requires s != []
  {
    var sorted, half := Sort(s), |s| / 2;
    if |s| % 2 == 1 then sorted[half] else (sorted[half - 1] + sorted[half]) / 2.0
  }

  /** How many values are below `x`, or at it when `ties`. */
  function Below(s: Values, x: real, ties: bool): (n: nat)
    ensures n <= |s|
  {
    if s == [] then 0 else (if s[0] < x || (ties && s[0] == x) then 1 else 0) + Below(s[1..], x, ties)
  }

  lemma SortSorts(s: Values)
    ensures Ascending(Sort(s)) && multiset(Sort(s)) == multiset(s)
  {
    Sorting.SortSorts(s, Upward());
    assert forall i, j :: 0 <= i < j < |s| ==> Upward()(Sort(s)[i], Sort(s)[j]);
  }

  lemma {:induction false} InsertBelow(y: real, s: Values, x: real, ties: bool)
    ensures Below(Sorting.Insert(y, s, Upward()), x, ties) == Below([y] + s, x, ties)
    decreases |s|
  {
    assert ([y] + s)[1..] == s;
    if s != [] && y > s[0] {
      InsertBelow(y, s[1..], x, ties);
      assert ([y] + s[1..])[1..] == s[1..];
      assert Sorting.Insert(y, s, Upward())[1..] == Sorting.Insert(y, s[1..], Upward());
    }
  }

  lemma {:induction false} SortBelow(s: Values, x: real, ties: bool)
    ensures Below(Sort(s), x, ties) == Below(s, x, ties)
    decreases |s|
  {
    if s != [] {
      SortBelow(s[1..], x, ties);
      InsertBelow(s[0], Sort(s[1..]), x, ties);
      assert ([s[0]] + Sort(s[1..]))[1..] == Sort(s[1..]);
    }
  }

  /** At least `k + 1` of ascending values are at most the one at `k`. */
  lemma {:induction false} AtMost(s: Values, k: nat)
    requires Ascending(s) && k < |s|
    ensures Below(s, s[k], true) >= k + 1
    decreases |s|
  {
    if k > 0 { AtMost(s[1..], k - 1); }
  }

  /** At most `k` are below it. */
  lemma {:induction false} FewBelow(s: Values, k: nat, x: real)
    requires Ascending(s) && k < |s| && x <= s[k]
    ensures Below(s, x, false) <= k
    decreases |s|
  {
    if k > 0 {
      FewBelow(s[1..], k - 1, x);
    } else {
      NoneBelow(s, x);
    }
  }

  lemma {:induction false} NoneBelow(s: Values, x: real)
    requires forall i :: 0 <= i < |s| ==> x <= s[i]
    ensures Below(s, x, false) == 0
    decreases |s|
  {
    if s != [] { NoneBelow(s[1..], x); }
  }

  // ---- Order statistics ----

  /** Every pair is lower; pairs are of equal ordinals, as far as both go. */
  predicate PairsLower(a: Values, b: Values) {
    a != [] && b != [] && forall i :: 0 <= i < |a| && i < |b| ==> b[i] < a[i]
  }

  lemma {:induction false} LowerCounts(a: Values, b: Values, x: real)
    requires |a| == |b| && forall i :: 0 <= i < |a| ==> b[i] < a[i]
    ensures Below(a, x, true) <= Below(b, x, false)
    decreases |a|
  {
    if a != [] { LowerCounts(a[1..], b[1..], x); }
  }

  /** When every pair is lower, so is every order statistic. */
  lemma RankLower(a: Values, b: Values, k: nat)
    requires |a| == |b| && k < |a| && forall i :: 0 <= i < |a| ==> b[i] < a[i]
    ensures Sort(b)[k] < Sort(a)[k]
  {
    var x := Sort(a)[k];
    SortSorts(a);
    SortSorts(b);
    AtMost(Sort(a), k);
    SortBelow(a, x, true);
    LowerCounts(a, b, x);
    SortBelow(b, x, false);
    if x <= Sort(b)[k] { FewBelow(Sort(b), k, x); }
  }

  lemma MedianLower(a: Values, b: Values)
    requires |a| == |b| && PairsLower(a, b)
    ensures Median(b) < Median(a)
  {
    RankLower(a, b, |a| / 2);
    if |a| % 2 == 0 { RankLower(a, b, |a| / 2 - 1); }
  }

  // ---- Only equal numbers of ordinals decide ----

  /** `n` values from `first` up, one apart. */
  function Up(first: real, n: nat): (r: Values)
    ensures |r| == n && forall i :: 0 <= i < n ==> r[i] == first + i as real
  {
    seq(n, i requires 0 <= i < n => first + i as real)
  }

  function Down(last: real, n: nat): (r: Values)
    ensures |r| == n && forall i :: 0 <= i < n ==> r[i] == last - i as real
  {
    seq(n, i requires 0 <= i < n => last - i as real)
  }

  lemma {:induction false} InsertFirst(s: Values)
    requires Ascending(s) && s != []
    ensures Sorting.Insert(s[0], s[1..], Upward()) == s
  {
    assert s == [s[0]] + s[1..];
  }

  lemma {:induction false} SortAscending(s: Values)
    requires Ascending(s)
    ensures Sort(s) == s
    decreases |s|
  {
    if s != [] {
      SortAscending(s[1..]);
      InsertFirst(s);
    }
  }

  lemma {:induction false} InsertLast(x: real, s: Values)
    requires forall i :: 0 <= i < |s| ==> s[i] < x
    ensures Sorting.Insert(x, s, Upward()) == s + [x]
    decreases |s|
  {
    if s != [] {
      InsertLast(x, s[1..]);
      assert s + [x] == [s[0]] + (s[1..] + [x]);
    }
  }

  lemma {:induction false} SortDown(last: real, n: nat)
    ensures Sort(Down(last, n)) == Up(last - n as real + 1.0, n)
    decreases n
  {
    if n > 0 {
      var s := Down(last, n);
      assert s[1..] == Down(last - 1.0, n - 1);
      SortDown(last - 1.0, n - 1);
      var t := Up(last - n as real + 1.0, n - 1);
      forall i | 0 <= i < n - 1 ensures t[i] < last { assert i as real <= n as real - 2.0; }
      InsertLast(last, t);
      assert t + [last] == Up(last - n as real + 1.0, n);
    }
  }

  lemma Middle(s: Values, first: real, n: nat)
    requires n > 0 && |s| == n && Sort(s) == Up(first, n)
    ensures Median(s) == first + (n as real - 1.0) / 2.0
  {
    var half := n / 2;
    if n % 2 == 1 { assert n == 2 * half + 1; } else { assert n == 2 * half; }
  }

  lemma UpMedian(first: real, n: nat)
    requires n > 0
    ensures Median(Up(first, n)) == first + (n as real - 1.0) / 2.0
  {
    SortAscending(Up(first, n));
    Middle(Up(first, n), first, n);
  }

  lemma DownMedian(last: real, n: nat)
    requires n > 0
    ensures Median(Down(last, n)) == last - (n as real - 1.0) / 2.0
  {
    SortDown(last, n);
    Middle(Down(last, n), last - n as real + 1.0, n);
  }

  /** With unequal numbers of ordinals, every pair can be lower and the median higher. */
  lemma UnequalMislead(n: nat, m: nat) returns (a: Values, b: Values)
    requires n > 0 && m > 0 && n != m
    ensures |a| == n && |b| == m && PairsLower(a, b) && Median(b) > Median(a)
  {
    if n < m {
      a, b := Up(0.0, n), Up(-0.25, m);
      UpMedian(0.0, n);
      UpMedian(-0.25, m);
    } else {
      a, b := Down(0.0, n), Down(-0.25, m);
      DownMedian(0.0, n);
      DownMedian(-0.25, m);
    }
  }

  /** Lower pairs mean a lower median, for every choice of slopes, exactly for equal numbers of ordinals. */
  lemma PairsDecideIff(n: nat, m: nat)
    requires n > 0 && m > 0
    ensures (forall a, b :: |a| == n && |b| == m && PairsLower(a, b) ==> Median(b) < Median(a)) <==> n == m
  {
    if n == m {
      forall a, b | |a| == n && |b| == m && PairsLower(a, b) ensures Median(b) < Median(a) { MedianLower(a, b); }
    } else {
      var a, b := UnequalMislead(n, m);
      assert PairsLower(a, b) && !(Median(b) < Median(a));
    }
  }

  // ---- The noise floor ----

  function Least(s: Values): (r: real)
    requires s != []
    ensures r in s && forall i :: 0 <= i < |s| ==> r <= s[i]
  {
    if |s| == 1 then s[0] else
      var rest := Least(s[1..]);
      if s[0] <= rest then s[0] else rest
  }

  function Greatest(s: Values): (r: real)
    requires s != []
    ensures r in s && forall i :: 0 <= i < |s| ==> s[i] <= r
  {
    if |s| == 1 then s[0] else
      var rest := Greatest(s[1..]);
      if s[0] >= rest then s[0] else rest
  }

  /** The range of the slopes of both builds of the baseline. */
  function NoiseFloor(a: Values, p: Values): real
    requires a + p != []
  {
    Greatest(a + p) - Least(a + p)
  }

  /** A median stays within any bounds of its values. */
  lemma MedianWithin(s: Values, lo: real, hi: real)
    requires s != [] && forall i :: 0 <= i < |s| ==> lo <= s[i] <= hi
    ensures lo <= Median(s) <= hi
  {
    SortSorts(s);
    forall k | 0 <= k < |s| ensures lo <= Sort(s)[k] <= hi { assert Sort(s)[k] in multiset(Sort(s)); }
  }

  // ---- One row ----

  const MIN_SAVING := 100.0
  const FLOOR_FACTOR := 3.0
  const EXACT := 0.01
  const ALLOC_TOLERANCE := 0.01
  const ROUND_TRIP := ["rp", "wp", "rpm"]

  /** One build's slopes and allocation calls per request. */
  datatype Metrics = Metrics(slopes: Values, calls: Values)

  datatype Row = Row(delta: real, instructionsOk: bool, allocationsOk: bool) {
    predicate Pass() { instructionsOk && allocationsOk }
  }

  predicate RegressionOnly(aimed: seq<string>) { aimed == ["none"] }

  predicate MustSave(workload: string, aimed: seq<string>) { workload in aimed && !RegressionOnly(aimed) }

  function Minimum(workload: string): real { if workload in ROUND_TRIP then MIN_SAVING else 0.0 }

  function Judge(workload: string, a: Metrics, b: Metrics, floor: real, aimed: seq<string>): Row
    requires a.slopes != [] && b.slopes != [] && a.calls != [] && b.calls != []
  {
    var delta := Median(b.slopes) - Median(a.slopes);
    var saving := -delta;
    Row(delta,
        if MustSave(workload, aimed) then
          saving >= Minimum(workload) && saving > FLOOR_FACTOR * floor && PairsLower(a.slopes, b.slopes)
        else delta <= if floor >= EXACT then floor else EXACT,
        Median(b.calls) - Median(a.calls) <= ALLOC_TOLERANCE)
  }

  /** A candidate within the baseline's own range is no regression, and no saving. */
  lemma NoiseIsNoVerdict(workload: string, a: Metrics, p: Values, b: Metrics, aimed: seq<string>)
    requires a.slopes != [] && b.slopes != [] && a.calls != [] && b.calls != []
    requires forall i :: 0 <= i < |b.slopes| ==> Least(a.slopes + p) <= b.slopes[i] <= Greatest(a.slopes + p)
    ensures Judge(workload, a, b, NoiseFloor(a.slopes, p), aimed).instructionsOk <==> !MustSave(workload, aimed)
  {
    var all := a.slopes + p;
    assert forall i :: 0 <= i < |a.slopes| ==> a.slopes[i] == all[i];
    MedianWithin(a.slopes, Least(all), Greatest(all));
    MedianWithin(b.slopes, Least(all), Greatest(all));
  }

  /**
   * An aimed row that passes has a median more than two floors below every slope of both baseline builds, and
   * every pair lower.
   */
  lemma SavingIsReal(workload: string, a: Metrics, p: Values, b: Metrics, aimed: seq<string>)
    requires a.slopes != [] && b.slopes != [] && a.calls != [] && b.calls != [] && MustSave(workload, aimed)
    requires Judge(workload, a, b, NoiseFloor(a.slopes, p), aimed).instructionsOk
    ensures Median(b.slopes) < Least(a.slopes + p) - 2.0 * NoiseFloor(a.slopes, p) && PairsLower(a.slopes, b.slopes)
  {
    var all := a.slopes + p;
    assert forall i :: 0 <= i < |a.slopes| ==> a.slopes[i] == all[i];
    MedianWithin(a.slopes, Least(all), Greatest(all));
  }
}
