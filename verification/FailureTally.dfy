/** Request failures in a bounded number of buckets, and what they say about the requests that failed. */
module FailureTally {
  import opened Numbers

  datatype FailureKind =
    | Timeout
    | Abort(reason: nat)
    | Reject(reason: nat)
    | Protocol(errorClass: nat, code: nat)
    | Transport(ioKind: string)
    | Other

  datatype Bucket = Bucket(failure: FailureKind, count: nat)

  datatype Tally = Tally(buckets: seq<Bucket>, overflow: nat, count: nat, elapsedNs: nat, maxNs: nat)

  const EMPTY := Tally([], 0, 0, 0, 0)
  const MAX_BUCKETS := 64

  // ---- The operations, as values ----

  /** The first bucket of a kind, or the number of buckets. */
  function IndexOf(buckets: seq<Bucket>, kind: FailureKind): (i: nat)
    ensures i <= |buckets| && (i < |buckets| ==> buckets[i].failure == kind)
    ensures forall j :: 0 <= j < i ==> buckets[j].failure != kind
  {
    if buckets == [] || buckets[0].failure == kind then 0 else 1 + IndexOf(buckets[1..], kind)
  }

  function Added(t: Tally, kind: FailureKind, n: nat): Tally {
    var i := IndexOf(t.buckets, kind);
    if i < |t.buckets| then t.(buckets := t.buckets[i := Bucket(kind, t.buckets[i].count + n)])
    else if |t.buckets| < MAX_BUCKETS then t.(buckets := t.buckets + [Bucket(kind, n)])
    else t.(overflow := t.overflow + n)
  }

  function Recorded(t: Tally, kind: FailureKind, ns: nat): Tally {
    var r := Added(t, kind, 1);
    r.(count := r.count + 1, elapsedNs := r.elapsedNs + ns, maxNs := Max(r.maxNs, ns))
  }

  function AddedAll(t: Tally, buckets: seq<Bucket>): Tally
    decreases |buckets|
  {
    if buckets == [] then t else AddedAll(Added(t, buckets[0].failure, buckets[0].count), buckets[1..])
  }

  function Merged(t: Tally, o: Tally): Tally {
    var r := AddedAll(t, o.buckets);
    r.(overflow := r.overflow + o.overflow, count := r.count + o.count, elapsedNs := r.elapsedNs + o.elapsedNs,
       maxNs := Max(r.maxNs, o.maxNs))
  }

  function SumCounts(buckets: seq<Bucket>): nat {
    if buckets == [] then 0 else buckets[0].count + SumCounts(buckets[1..])
  }

  function Accounted(t: Tally): nat { t.overflow + SumCounts(t.buckets) }

  // ---- What a tally says of a history ----

  function Occurs(history: seq<FailureKind>, kind: FailureKind): nat {
    if history == [] then 0 else (if history[0] == kind then 1 else 0) + Occurs(history[1..], kind)
  }

  function CountIn(buckets: seq<Bucket>, kind: FailureKind): nat {
    var i := IndexOf(buckets, kind);
    if i < |buckets| then buckets[i].count else 0
  }

  function KindsOf(buckets: seq<Bucket>): set<FailureKind> { set b | b in buckets :: b.failure }

  ghost predicate Distinct(buckets: seq<Bucket>) {
    forall i, j :: 0 <= i < j < |buckets| ==> buckets[i].failure != buckets[j].failure
  }

  function Kinds(history: seq<FailureKind>): set<FailureKind> { set k | k in history }

  /**
   * The tally of some failures: at most 64 buckets of distinct kinds, whose counts and the overflow
   * account for every failure. No kind is overcounted; nothing overflows while there are at most 64
   * kinds, and while nothing does every count is exact.
   */
  ghost predicate Reflects(t: Tally, history: seq<FailureKind>) {
    && |t.buckets| <= 64 && Distinct(t.buckets) && KindsOf(t.buckets) <= Kinds(history)
    && t.count == |history| == Accounted(t)
    && (forall k :: CountIn(t.buckets, k) <= Occurs(history, k))
    && (t.overflow == 0 ==> forall k :: CountIn(t.buckets, k) == Occurs(history, k))
    && (|Kinds(history)| <= 64 ==> t.overflow == 0)
  }

  lemma {:induction false} OccursAppend(a: seq<FailureKind>, b: seq<FailureKind>, kind: FailureKind)
    ensures Occurs(a + b, kind) == Occurs(a, kind) + Occurs(b, kind)
    decreases |a|
  {
    if a == [] {
      assert a + b == b;
    } else {
      assert (a + b)[0] == a[0] && (a + b)[1..] == a[1..] + b;
      OccursAppend(a[1..], b, kind);
    }
  }

  lemma {:induction false} SumAppend(a: seq<Bucket>, b: seq<Bucket>)
    ensures SumCounts(a + b) == SumCounts(a) + SumCounts(b)
    decreases |a|
  {
    if a == [] {
      assert a + b == b;
    } else {
      assert (a + b)[0] == a[0] && (a + b)[1..] == a[1..] + b;
      SumAppend(a[1..], b);
    }
  }

  lemma {:induction false} SumSet(s: seq<Bucket>, i: nat, b: Bucket)
    requires i < |s|
    ensures SumCounts(s[i := b]) == SumCounts(s) - s[i].count + b.count
    decreases |s|
  {
    if i == 0 {
      assert s[0 := b][1..] == s[1..];
    } else {
      assert s[i := b][1..] == s[1..][i - 1 := b];
      SumSet(s[1..], i - 1, b);
    }
  }

  /** Whether adding finds room in a bucket. */
  predicate Fits(t: Tally, kind: FailureKind) { IndexOf(t.buckets, kind) < |t.buckets| || |t.buckets| < MAX_BUCKETS }

  ghost predicate Bounded(buckets: seq<Bucket>) { Distinct(buckets) && |buckets| <= MAX_BUCKETS }

  /** Adding keeps the buckets distinct and accounts for what was added. */
  lemma AddedAccounts(t: Tally, kind: FailureKind, n: nat)
    requires Bounded(t.buckets)
    ensures var r := Added(t, kind, n);
            && Bounded(r.buckets) && r.count == t.count && Accounted(r) == Accounted(t) + n
            && r.overflow == t.overflow + (if Fits(t, kind) then 0 else n)
            && KindsOf(r.buckets) <= KindsOf(t.buckets) + {kind}
  {
    var i := IndexOf(t.buckets, kind);
    if i < |t.buckets| {
      SumSet(t.buckets, i, Bucket(kind, t.buckets[i].count + n));
    } else if |t.buckets| < MAX_BUCKETS {
      SumAppend(t.buckets, [Bucket(kind, n)]);
      assert [Bucket(kind, n)][1..] == [];
    }
  }

  lemma IndexIs(buckets: seq<Bucket>, i: nat, kind: FailureKind)
    requires i < |buckets| && buckets[i].failure == kind && forall j :: 0 <= j < i ==> buckets[j].failure != kind
    ensures IndexOf(buckets, kind) == i
  {
  }

  lemma IndexNone(buckets: seq<Bucket>, kind: FailureKind)
    requires forall i :: 0 <= i < |buckets| ==> buckets[i].failure != kind
    ensures IndexOf(buckets, kind) == |buckets|
  {
  }

  lemma AddedOne(t: Tally, kind: FailureKind, n: nat)
    ensures CountIn(Added(t, kind, n).buckets, kind) == CountIn(t.buckets, kind) + if Fits(t, kind) then n else 0
  {
    var i := IndexOf(t.buckets, kind);
    if Fits(t, kind) { IndexIs(Added(t, kind, n).buckets, i, kind); }
  }

  lemma AddedOthers(t: Tally, kind: FailureKind, n: nat, k: FailureKind)
    requires k != kind
    ensures CountIn(Added(t, kind, n).buckets, k) == CountIn(t.buckets, k)
  {
    var j, r := IndexOf(t.buckets, k), Added(t, kind, n).buckets;
    if j < |t.buckets| { IndexIs(r, j, k); } else { IndexNone(r, k); }
  }

  /** It changes one kind's count, and that only when there is room. */
  lemma AddedCount(t: Tally, kind: FailureKind, n: nat, k: FailureKind)
    ensures CountIn(Added(t, kind, n).buckets, k) == CountIn(t.buckets, k) + if k == kind && Fits(t, kind) then n else 0
  {
    if k == kind { AddedOne(t, kind, n); } else { AddedOthers(t, kind, n, k); }
  }

  lemma {:induction false} DistinctKinds(buckets: seq<Bucket>)
    requires Distinct(buckets)
    ensures |KindsOf(buckets)| == |buckets|
    decreases |buckets|
  {
    if buckets != [] {
      var first, rest := buckets[0], buckets[1..];
      DistinctKinds(rest);
      forall b | b in rest ensures b.failure != first.failure {
        var i :| 0 <= i < |rest| && rest[i] == b;
        assert buckets[i + 1] == b;
      }
      assert forall b :: b in buckets <==> b == first || b in rest;
      assert KindsOf(buckets) == {first.failure} + KindsOf(rest);
      assert first.failure !in KindsOf(rest);
    }
  }

  lemma SubsetSize<T>(a: set<T>, b: set<T>)
    requires a <= b
    ensures |a| <= |b| && (|a| == |b| ==> a == b)
  {
    assert b == a + (b - a);
  }

  /** There is room for every kind of a set of 64. */
  lemma KindFits(t: Tally, kind: FailureKind, kinds: set<FailureKind>)
    requires Bounded(t.buckets) && KindsOf(t.buckets) <= kinds && kind in kinds && |kinds| <= MAX_BUCKETS
    ensures Fits(t, kind)
  {
    DistinctKinds(t.buckets);
    SubsetSize(KindsOf(t.buckets), kinds);
    if |t.buckets| == MAX_BUCKETS {
      assert kind in KindsOf(t.buckets);
      var b :| b in t.buckets && b.failure == kind;
    }
  }

  // ---- Merging ----

  lemma {:induction false} AddedAllAccounts(t: Tally, buckets: seq<Bucket>)
    requires Bounded(t.buckets)
    ensures var r := AddedAll(t, buckets);
            && Bounded(r.buckets) && r.count == t.count && Accounted(r) == Accounted(t) + SumCounts(buckets)
            && r.overflow >= t.overflow && KindsOf(r.buckets) <= KindsOf(t.buckets) + KindsOf(buckets)
    decreases |buckets|
  {
    if buckets != [] {
      AddedAccounts(t, buckets[0].failure, buckets[0].count);
      AddedAllAccounts(Added(t, buckets[0].failure, buckets[0].count), buckets[1..]);
      assert buckets[0] in buckets && forall b :: b in buckets[1..] ==> b in buckets;
    }
  }

  lemma CountTail(buckets: seq<Bucket>, k: FailureKind)
    requires buckets != [] && Distinct(buckets)
    ensures Distinct(buckets[1..])
    ensures CountIn(buckets, k) == (if k == buckets[0].failure then buckets[0].count else 0) + CountIn(buckets[1..], k)
  {
    var rest := buckets[1..];
    assert forall i :: 0 <= i < |rest| ==> rest[i] == buckets[i + 1];
  }

  /** Merging counts no kind more often than both did, and as often while nothing overflows. */
  lemma {:induction false} AddedAllCount(t: Tally, buckets: seq<Bucket>, k: FailureKind)
    requires Bounded(t.buckets) && Distinct(buckets)
    ensures var r := AddedAll(t, buckets);
            && CountIn(r.buckets, k) <= CountIn(t.buckets, k) + CountIn(buckets, k)
            && (r.overflow == t.overflow ==> CountIn(r.buckets, k) == CountIn(t.buckets, k) + CountIn(buckets, k))
    decreases |buckets|
  {
    if buckets != [] {
      var b := buckets[0];
      var next := Added(t, b.failure, b.count);
      CountTail(buckets, k);
      AddedAccounts(t, b.failure, b.count);
      AddedCount(t, b.failure, b.count, k);
      AddedAllCount(next, buckets[1..], k);
      AddedAllAccounts(next, buckets[1..]);
    }
  }

  lemma {:induction false} AddedAllFits(t: Tally, buckets: seq<Bucket>, kinds: set<FailureKind>)
    requires Bounded(t.buckets) && KindsOf(t.buckets) + KindsOf(buckets) <= kinds && |kinds| <= MAX_BUCKETS
    ensures AddedAll(t, buckets).overflow == t.overflow
    decreases |buckets|
  {
    if buckets != [] {
      var b := buckets[0];
      assert b in buckets && forall c :: c in buckets[1..] ==> c in buckets;
      KindFits(t, b.failure, kinds);
      AddedAccounts(t, b.failure, b.count);
      AddedAllFits(Added(t, b.failure, b.count), buckets[1..], kinds);
    }
  }

  lemma EmptyReflects()
    ensures Reflects(EMPTY, [])
  {
    ReflectsNothing(EMPTY, []);
  }

  predicate IsEmpty(t: Tally) { t.buckets == [] && t.count == t.overflow == 0 }

  lemma ReflectsNothing(t: Tally, history: seq<FailureKind>)
    requires IsEmpty(t) && history == []
    ensures Reflects(t, history)
  {
  }

  lemma KindsWithin(a: seq<FailureKind>, b: seq<FailureKind>)
    ensures Kinds(a + b) == Kinds(a) + Kinds(b)
    ensures |Kinds(a)| <= |Kinds(a + b)| && |Kinds(b)| <= |Kinds(a + b)|
  {
    assert Kinds(a + b) == Kinds(a) + Kinds(b);
    SubsetSize(Kinds(a), Kinds(a + b));
    SubsetSize(Kinds(b), Kinds(a + b));
  }

  /** One more failure. */
  lemma RecordReflects(t: Tally, history: seq<FailureKind>, kind: FailureKind, ns: nat)
    requires Reflects(t, history)
    ensures Reflects(Recorded(t, kind, ns), history + [kind])
  {
    var r, all := Recorded(t, kind, ns), history + [kind];
    AddedAccounts(t, kind, 1);
    KindsWithin(history, [kind]);
    assert Kinds([kind]) == {kind};
    forall k
      ensures CountIn(r.buckets, k) <= Occurs(all, k) && (r.overflow == 0 ==> CountIn(r.buckets, k) == Occurs(all, k))
    {
      AddedCount(t, kind, 1, k);
      OccursAppend(history, [kind], k);
      assert [kind][1..] == [];
    }
    if |Kinds(all)| <= MAX_BUCKETS { KindFits(t, kind, Kinds(all)); }
  }

  // ---- Times ----

  function Total(times: seq<nat>): nat {
    if times == [] then 0 else Total(times[..|times| - 1]) + times[|times| - 1]
  }

  /** The times add up, and the largest is one of them. */
  ghost predicate Timed(t: Tally, times: seq<nat>) {
    && t.elapsedNs == Total(times)
    && (forall i :: 0 <= i < |times| ==> times[i] <= t.maxNs)
    && if times == [] then t.maxNs == 0 else exists i :: 0 <= i < |times| && times[i] == t.maxNs
  }

  lemma {:induction false} TotalAppend(a: seq<nat>, b: seq<nat>)
    ensures Total(a + b) == Total(a) + Total(b)
    decreases |b|
  {
    var n := |b| - 1;
    if b == [] {
      assert a + b == a;
    } else {
      assert (a + b)[..|a + b| - 1] == a + b[..n] && (a + b)[|a + b| - 1] == b[n];
      TotalAppend(a, b[..n]);
    }
  }

  lemma {:induction false} AddedAllTimes(t: Tally, buckets: seq<Bucket>)
    ensures AddedAll(t, buckets).elapsedNs == t.elapsedNs && AddedAll(t, buckets).maxNs == t.maxNs
    decreases |buckets|
  {
    if buckets != [] { AddedAllTimes(Added(t, buckets[0].failure, buckets[0].count), buckets[1..]); }
  }

  /** A maximum of two lists of times is one of both. */
  lemma TimesJoin(t: Tally, a: seq<nat>, o: Tally, b: seq<nat>, r: Tally)
    requires Timed(t, a) && Timed(o, b)
    requires r.elapsedNs == t.elapsedNs + o.elapsedNs && r.maxNs == Max(t.maxNs, o.maxNs)
    ensures Timed(r, a + b)
  {
    TotalAppend(a, b);
    var all := a + b;
    assert forall i :: 0 <= i < |all| ==> all[i] == if i < |a| then a[i] else b[i - |a|];
    if a != [] && t.maxNs >= o.maxNs {
      var i :| 0 <= i < |a| && a[i] == t.maxNs;
      assert all[i] == r.maxNs;
    } else if b != [] {
      var i :| 0 <= i < |b| && b[i] == o.maxNs;
      assert all[|a| + i] == o.maxNs;
    }
  }

  /** One more failure's time. */
  lemma RecordTimes(t: Tally, times: seq<nat>, kind: FailureKind, ns: nat)
    requires Timed(t, times)
    ensures Timed(Recorded(t, kind, ns), times + [ns])
  {
    var one := EMPTY.(elapsedNs := ns, maxNs := ns);
    assert Total([ns]) == ns && [ns][0] == ns;
    TimesJoin(t, times, one, [ns], Recorded(t, kind, ns));
  }

  /** The times of two tallies. */
  lemma MergeTimes(t: Tally, a: seq<nat>, o: Tally, b: seq<nat>)
    requires Timed(t, a) && Timed(o, b)
    ensures Timed(Merged(t, o), a + b)
  {
    AddedAllTimes(t, o.buckets);
    TimesJoin(t, a, o, b, Merged(t, o));
  }

  /** The failures of two tallies, one after the other. */
  lemma MergeReflects(t: Tally, a: seq<FailureKind>, o: Tally, b: seq<FailureKind>)
    requires Reflects(t, a) && Reflects(o, b)
    ensures Reflects(Merged(t, o), a + b)
  {
    var r := Merged(t, o);
    AddedAllAccounts(t, o.buckets);
    KindsWithin(a, b);
    forall k
      ensures CountIn(r.buckets, k) <= Occurs(a + b, k) &&
              (r.overflow == 0 ==> CountIn(r.buckets, k) == Occurs(a + b, k))
    {
      AddedAllCount(t, o.buckets, k);
      OccursAppend(a, b, k);
    }
    if |Kinds(a + b)| <= MAX_BUCKETS { AddedAllFits(t, o.buckets, Kinds(a + b)); }
  }
}
