/** The gate's rows in terms of the slopes and calls they are judged by. */
module SlopeRules {
  import opened PerfGate
  import Sorting

  // ---- Medians ----

  /** The same values in ascending order. */
  ghost predicate Arranges(t: Values, s: Values) {
    multiset(t) == multiset(s) && forall i, j :: 0 <= i < j < |t| ==> t[i] <= t[j]
  }

  /** The middle value, or the mean of the two middle ones. */
  ghost predicate IsMedian(s: Values, m: real) {
    exists t :: Arranges(t, s) && t != [] && m == Middle(t)
  }

  function Middle(t: Values): real
    requires t != []
  {
    if |t| % 2 == 1 then t[|t| / 2] else (t[|t| / 2 - 1] + t[|t| / 2]) / 2.0
  }

  /** There is one such arrangement. */
  lemma ArrangedOnce(t: Values, s: Values)
    requires Arranges(t, s)
    ensures t == Sort(s)
  {
    SortSorts(s);
    assert forall i, j :: 0 <= i < j < |t| ==> Upward()(t[i], t[j]);
    assert forall i, j :: 0 <= i < j < |Sort(s)| ==> Upward()(Sort(s)[i], Sort(s)[j]);
    assert forall x, y :: Upward()(x, y) && Upward()(y, x) ==> x == y;
    Sorting.SortedUnique(t, Sort(s), Upward());
  }

  /** What is computed is the median. */
  lemma MedianIff(s: Values, m: real)
    requires s != []
    ensures Median(s) == m <==> IsMedian(s, m)
  {
    var sorted := Sort(s);
    SortSorts(s);
    assert Arranges(sorted, s) && Median(s) == Middle(sorted);
    forall t | Arranges(t, s) ensures t == sorted { ArrangedOnce(t, s); }
  }

  // ---- The floor ----

  /** No two slopes of the baseline's builds are further apart than the floor, and two are that far apart. */
  lemma FloorIs(a: Values, p: Values)
    requires a + p != []
    ensures forall x, y :: x in a + p && y in a + p ==> x - y <= NoiseFloor(a, p)
    ensures exists x, y :: x in a + p && y in a + p && x - y == NoiseFloor(a, p)
  {
    assert Greatest(a + p) in a + p && Least(a + p) in a + p;
  }

  // ---- A row ----

  predicate Measured(m: Metrics) { m.slopes != [] && m.calls != [] }

  /** A workload that must get cheaper: aimed at by name. */
  predicate AimedAt(workload: string, aimed: seq<string>) { workload in aimed && aimed != ["none"] }

  function LeastSaving(workload: string): real { if workload in ["rp", "wp", "rpm"] then 100.0 else 0.0 }

  ghost predicate EveryPairLower(a: Values, b: Values) {
    forall i :: 0 <= i < |a| && i < |b| ==> b[i] < a[i]
  }

  /** A row in terms of its medians. */
  lemma JudgeIff(workload: string, a: Metrics, b: Metrics, floor: real, aimed: seq<string>,
                 before: real, after: real, calls: real, callsAfter: real)
    requires Measured(a) && Measured(b) && IsMedian(a.slopes, before) && IsMedian(b.slopes, after)
    requires IsMedian(a.calls, calls) && IsMedian(b.calls, callsAfter)
    ensures var row := Judge(workload, a, b, floor, aimed);
            && row.delta == after - before
            && (row.Pass() <==> row.instructionsOk && row.allocationsOk)
            && (row.instructionsOk <==>
                  if AimedAt(workload, aimed) then
                    before - after >= LeastSaving(workload) && before - after > 3.0 * floor
                    && EveryPairLower(a.slopes, b.slopes)
                  else after <= before + floor || after <= before + 0.01)
            && (row.allocationsOk <==> callsAfter <= calls + 0.01)
  {
    MedianIff(a.slopes, before);
    MedianIff(b.slopes, after);
    MedianIff(a.calls, calls);
    MedianIff(b.calls, callsAfter);
  }

  /** Every candidate slope is above every baseline slope by more than this. */
  predicate AllAbove(a: Values, b: Values, more: real) {
    forall i, j :: 0 <= i < |a| && 0 <= j < |b| ==> b[j] > a[i] + more
  }

  /** No candidate slope is above the baseline's least by more than this. */
  predicate NoneAbove(a: Values, b: Values, more: real) {
    forall i, j :: 0 <= i < |a| && 0 <= j < |b| ==> b[j] <= a[i] + more
  }

  lemma MediansAbove(a: Values, b: Values, more: real)
    requires a != [] && b != [] && AllAbove(a, b, more)
    ensures Median(b) > Median(a) + more
  {
    MedianWithin(a, Least(a), Greatest(a));
    MedianWithin(b, Least(b), Greatest(b));
    var i :| 0 <= i < |a| && a[i] == Greatest(a);
    var j :| 0 <= j < |b| && b[j] == Least(b);
  }

  lemma MediansNotAbove(a: Values, b: Values, more: real)
    requires a != [] && b != [] && NoneAbove(a, b, more)
    ensures Median(b) <= Median(a) + more
  {
    MedianWithin(a, Least(a), Greatest(a));
    MedianWithin(b, Least(b), Greatest(b));
    var i :| 0 <= i < |a| && a[i] == Least(a);
    var j :| 0 <= j < |b| && b[j] == Greatest(b);
  }

  /** A row that is not aimed at fails on a rise beyond the floor and 0.01, and passes without one. */
  lemma RiseFails(workload: string, a: Metrics, b: Metrics, floor: real, aimed: seq<string>)
    requires Measured(a) && Measured(b) && !AimedAt(workload, aimed)
    ensures AllAbove(a.slopes, b.slopes, floor) && AllAbove(a.slopes, b.slopes, 0.01) ==>
            !Judge(workload, a, b, floor, aimed).instructionsOk
    ensures NoneAbove(a.slopes, b.slopes, floor) || NoneAbove(a.slopes, b.slopes, 0.01) ==>
            Judge(workload, a, b, floor, aimed).instructionsOk
  {
    if AllAbove(a.slopes, b.slopes, floor) && AllAbove(a.slopes, b.slopes, 0.01) {
      MediansAbove(a.slopes, b.slopes, floor);
      MediansAbove(a.slopes, b.slopes, 0.01);
    }
    if NoneAbove(a.slopes, b.slopes, floor) { MediansNotAbove(a.slopes, b.slopes, floor); }
    if NoneAbove(a.slopes, b.slopes, 0.01) { MediansNotAbove(a.slopes, b.slopes, 0.01); }
  }

  /** Every row fails when its allocation calls rise by more than 0.01, whatever it saves, and not when they don't. */
  lemma CallsRiseFails(workload: string, a: Metrics, b: Metrics, floor: real, aimed: seq<string>)
    requires Measured(a) && Measured(b)
    ensures AllAbove(a.calls, b.calls, 0.01) ==> !Judge(workload, a, b, floor, aimed).Pass()
    ensures NoneAbove(a.calls, b.calls, 0.01) ==> Judge(workload, a, b, floor, aimed).allocationsOk
  {
    if AllAbove(a.calls, b.calls, 0.01) { MediansAbove(a.calls, b.calls, 0.01); }
    if NoneAbove(a.calls, b.calls, 0.01) { MediansNotAbove(a.calls, b.calls, 0.01); }
  }

  /** An aimed round trip that passes saves at least 100 from some baseline slope to some candidate slope. */
  lemma SavesAHundred(workload: string, a: Metrics, b: Metrics, floor: real, aimed: seq<string>)
    requires Measured(a) && Measured(b) && AimedAt(workload, aimed) && workload in ["rp", "wp", "rpm"]
    requires Judge(workload, a, b, floor, aimed).instructionsOk
    ensures exists i, j :: 0 <= i < |a.slopes| && 0 <= j < |b.slopes| && a.slopes[i] - b.slopes[j] >= 100.0
  {
    MedianWithin(a.slopes, Least(a.slopes), Greatest(a.slopes));
    MedianWithin(b.slopes, Least(b.slopes), Greatest(b.slopes));
    var i :| 0 <= i < |a.slopes| && a.slopes[i] == Greatest(a.slopes);
    var j :| 0 <= j < |b.slopes| && b.slopes[j] == Least(b.slopes);
    assert a.slopes[i] - b.slopes[j] >= 100.0;
  }

  /** An aimed row passes when every slope falls by the minimum and by more than three floors. */
  lemma SavingPasses(workload: string, a: Metrics, b: Metrics, floor: real, aimed: seq<string>)
    requires Measured(a) && Measured(b) && AimedAt(workload, aimed) && floor >= 0.0
    requires NoneAbove(a.slopes, b.slopes, -LeastSaving(workload))
    requires forall i, j :: 0 <= i < |a.slopes| && 0 <= j < |b.slopes| ==> a.slopes[i] - b.slopes[j] > 3.0 * floor
    ensures Judge(workload, a, b, floor, aimed).instructionsOk
  {
    MediansNotAbove(a.slopes, b.slopes, -LeastSaving(workload));
    assert AllAbove(b.slopes, a.slopes, 3.0 * floor);
    MediansAbove(b.slopes, a.slopes, 3.0 * floor);
  }
}
