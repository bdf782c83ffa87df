/** One step of the clients workload: each client's requests, joining the clients, and whether the step is valid. */
module StressSteps {
  import opened Numbers
  import opened Search
  import opened FailureTally
  import Sorting

  // ---- Recording ----

  class Failures {
    var buckets: seq<Bucket>
    var overflow: nat
    var count: nat
    var elapsedNs: nat
    var maxNs: nat

    constructor ()
      ensures buckets == [] && overflow == count == elapsedNs == maxNs == 0
    {
      buckets, overflow, count, elapsedNs, maxNs := [], 0, 0, 0, 0;
    }

    function Value(): Tally
      reads this
    {
      Tally(buckets, overflow, count, elapsedNs, maxNs)
    }

    method Add(kind: FailureKind, n: nat)
      modifies this
      ensures Value() == Added(old(Value()), kind, n)
    {
      var i := 0;
      while i < |buckets| && buckets[i].failure != kind
        invariant i <= IndexOf(buckets, kind)
      {
        i := i + 1;
      }
      if i < |buckets| {
        buckets := buckets[i := Bucket(kind, buckets[i].count + n)];
      } else if |buckets| < MAX_BUCKETS {
        buckets := buckets + [Bucket(kind, n)];
      } else {
        overflow := overflow + n;
      }
    }

    method Record(kind: FailureKind, ns: nat)
      modifies this
      ensures Value() == Recorded(old(Value()), kind, ns)
    {
      Add(kind, 1);
      count := count + 1;
      elapsedNs := elapsedNs + ns;
      maxNs := Max(maxNs, ns);
    }

    method Merge(other: Tally)
      modifies this
      ensures Value() == Merged(old(Value()), other)
    {
      for i := 0 to |other.buckets|
        invariant AddedAll(Value(), other.buckets[i..]) == AddedAll(old(Value()), other.buckets)
      {
        var rest := other.buckets[i..];
        assert rest[0] == other.buckets[i] && rest[1..] == other.buckets[i + 1..];
        Add(other.buckets[i].failure, other.buckets[i].count);
      }
      assert other.buckets[|other.buckets|..] == [];
      overflow := overflow + other.overflow;
      count := count + other.count;
      elapsedNs := elapsedNs + other.elapsedNs;
      maxNs := Max(maxNs, other.maxNs);
    }

    method AccountedFor() returns (n: nat)
      ensures n == Accounted(Value())
    {
      n := 0;
      for i := 0 to |buckets|
        invariant n + SumCounts(buckets[i..]) == SumCounts(buckets)
      {
        assert buckets[i..][0] == buckets[i] && buckets[i..][1..] == buckets[i + 1..];
        n := n + buckets[i].count;
      }
      assert buckets[|buckets|..] == [];
      n := overflow + n;
    }
  }

  /** The counters of a latency recorder. */
  class LatencyRecorder {
    var successful: nat
    var failed: nat

    constructor ()
      ensures successful == failed == 0
    {
      successful, failed := 0, 0;
    }

    method RecordSuccess()
      modifies this
      ensures successful == old(successful) + 1 && failed == old(failed)
    {
      successful := successful + 1;
    }

    method RecordFailure()
      modifies this
      ensures failed == old(failed) + 1 && successful == old(successful)
    {
      failed := failed + 1;
    }

    method Merge(client: ClientResult)
      modifies this
      ensures successful == old(successful) + client.successful && failed == old(failed) + client.failed
    {
      successful := successful + client.successful;
      failed := failed + client.failed;
    }
  }

  // ---- One client ----

  /** The answer to one request. */
  datatype Reply = Served | Refused(kind: FailureKind, ns: nat)

  /** What a client's task returns. Its counters, where sampled, may have gone backwards; stopping it may fail. */
  datatype ClientResult = ClientResult(successful: nat, failed: nat, failures: Tally, ended: nat,
                                       counters: Option<bool>, stopped: bool)

  function FailuresIn(replies: seq<Reply>): (r: seq<FailureKind>)
    ensures |r| <= |replies|
  {
    if replies == [] then []
    else (if replies[0].Refused? then [replies[0].kind] else []) + FailuresIn(replies[1..])
  }

  lemma {:induction false} FailuresAppend(a: seq<Reply>, b: seq<Reply>)
    ensures FailuresIn(a + b) == FailuresIn(a) + FailuresIn(b)
    decreases |a|
  {
    if a == [] {
      assert a + b == b;
    } else {
      assert (a + b)[0] == a[0] && (a + b)[1..] == a[1..] + b;
      FailuresAppend(a[1..], b);
    }
  }

  /** The tally of all failed replies. */
  function TallyOf(replies: seq<Reply>): Tally {
    if replies == [] then EMPTY
    else
      var t, last := TallyOf(replies[..|replies| - 1]), replies[|replies| - 1];
      if last.Refused? then Recorded(t, last.kind, last.ns) else t
  }

  lemma {:induction false} TallyReflects(replies: seq<Reply>)
    ensures Reflects(TallyOf(replies), FailuresIn(replies))
    decreases |replies|
  {
    if replies == [] {
      EmptyReflects();
    } else {
      var n := |replies| - 1;
      TallyReflects(replies[..n]);
      OneMore(replies, n);
      assert replies[..n + 1] == replies;
      if replies[n].Refused? {
        RecordReflects(TallyOf(replies[..n]), FailuresIn(replies[..n]), replies[n].kind, replies[n].ns);
      } else {
        assert FailuresIn(replies) == FailuresIn(replies[..n]);
      }
    }
  }

  /** One client's requests: as many as its quota, or as it gets answered before the deadline. */
  method RunClient(quota: nat, replies: seq<Reply>, ended: nat, counters: Option<bool>, stopped: bool)
      returns (r: ClientResult)
    ensures var answered := replies[..if quota <= |replies| then quota else |replies|];
            r.failures == TallyOf(answered) && r.failed == |FailuresIn(answered)| &&
            r.successful + r.failed == |answered|
    ensures r.counters == counters && r.stopped == stopped && r.ended == ended
  {
    var recorder := new LatencyRecorder();
    var failures := new Failures();
    var sent := 0;
    while sent < quota && sent < |replies|
      invariant sent <= quota && sent <= |replies|
      invariant failures.Value() == TallyOf(replies[..sent])
      invariant recorder.failed == |FailuresIn(replies[..sent])| && recorder.successful + recorder.failed == sent
    {
      OneMore(replies, sent);
      assert replies[..sent + 1][..sent] == replies[..sent];
      match replies[sent] {
        case Served => recorder.RecordSuccess();
        case Refused(kind, ns) =>
          recorder.RecordFailure();
          failures.Record(kind, ns);
      }
      sent := sent + 1;
    }
    r := ClientResult(recorder.successful, recorder.failed, failures.Value(), ended, counters, stopped);
  }

  lemma OneMore(replies: seq<Reply>, i: nat)
    requires i < |replies|
    ensures FailuresIn(replies[..i + 1]) ==
            FailuresIn(replies[..i]) + if replies[i].Refused? then [replies[i].kind] else []
  {
    assert replies[..i + 1] == replies[..i] + [replies[i]];
    FailuresAppend(replies[..i], [replies[i]]);
    assert [replies[i]][1..] == [];
  }

  // ---- Joining clients ----

  datatype Join = Joined(result: ClientResult) | Panicked

  datatype Stage = CountersStage | StopStage | JoinStage | AccountingStage

  datatype LifecycleFailure = LifecycleFailure(stage: Stage, client: Option<nat>)

  /** Clients that completed, in joining order, from index `i` on. */
  function Completed(handles: seq<Join>, i: nat): seq<nat> {
    if handles == [] then [] else (if handles[0].Joined? then [i] else []) + Completed(handles[1..], i + 1)
  }

  predicate Clean(h: Join) { h.Joined? && h.result.counters != Some(false) && h.result.stopped }

  function JoinFailures(h: Join, i: nat): (r: seq<LifecycleFailure>)
    ensures r == [] <==> Clean(h)
  {
    match h
    case Panicked => [LifecycleFailure(JoinStage, Some(i))]
    case Joined(c) =>
      (if c.counters == Some(false) then [LifecycleFailure(CountersStage, Some(i))] else [])
      + (if c.stopped then [] else [LifecycleFailure(StopStage, Some(i))])
  }

  function AllJoinFailures(handles: seq<Join>, i: nat): seq<LifecycleFailure> {
    if handles == [] then [] else JoinFailures(handles[0], i) + AllJoinFailures(handles[1..], i + 1)
  }

  function MergedAll(t: Tally, handles: seq<Join>): Tally
    decreases |handles|
  {
    if handles == [] then t
    else MergedAll(if handles[0].Joined? then Merged(t, handles[0].result.failures) else t, handles[1..])
  }

  function Results(handles: seq<Join>): seq<ClientResult> {
    if handles == [] then [] else (if handles[0].Joined? then [handles[0].result] else []) + Results(handles[1..])
  }

  function SumFailed(results: seq<ClientResult>): nat {
    if results == [] then 0 else results[0].failed + SumFailed(results[1..])
  }

  function SumSuccessful(results: seq<ClientResult>): nat {
    if results == [] then 0 else results[0].successful + SumSuccessful(results[1..])
  }

  function LastEnd(started: nat, results: seq<ClientResult>): (r: nat)
    ensures r >= started
    decreases |results|
  {
    if results == [] then started else LastEnd(Max(started, results[0].ended), results[1..])
  }

  datatype Point = Point(parameter: nat, successful: nat, errors: nat, elapsed: nat)

  function PointOf(parameter: nat, started: nat, results: seq<ClientResult>): Point {
    Point(parameter, SumSuccessful(results), SumFailed(results), LastEnd(started, results) - started)
  }

  /** The loop that merges the clients' recorders. */
  method FromClients(parameter: nat, started: nat, results: seq<ClientResult>) returns (p: Point)
    ensures p == PointOf(parameter, started, results)
  {
    var recorder := new LatencyRecorder();
    var ended := started;
    for i := 0 to |results|
      invariant ended >= started && LastEnd(ended, results[i..]) == LastEnd(started, results)
      invariant recorder.failed + SumFailed(results[i..]) == SumFailed(results)
      invariant recorder.successful + SumSuccessful(results[i..]) == SumSuccessful(results)
    {
      assert results[i..][0] == results[i] && results[i..][1..] == results[i + 1..];
      recorder.Merge(results[i]);
      ended := Max(ended, results[i].ended);
    }
    assert results[|results|..] == [];
    p := Point(parameter, recorder.successful, recorder.failed, ended - started);
  }

  // ---- Whether every client completed once ----

  function Range(n: nat): (r: seq<nat>)
    ensures |r| == n && forall i :: 0 <= i < n ==> r[i] == i
  {
    seq(n, i requires 0 <= i < n => i)
  }

  function Upward(): Sorting.Order<nat> { (x: nat, y: nat) => x <= y }

  /** There are `n` indices, and sorted each is its own position. */
  predicate IsFirst(s: seq<nat>, n: nat) { |s| == n && forall i :: 0 <= i < |s| ==> Sorting.Sort(s, Upward())[i] == i }

  /** Sorting indices and comparing them with their positions asks whether they are a permutation of the first `n`. */
  lemma SortedIsRange(s: seq<nat>, n: nat)
    ensures IsFirst(s, n) <==> multiset(s) == multiset(Range(n))
  {
    var sorted := Sorting.Sort(s, Upward());
    Sorting.SortSorts(s, Upward());
    if multiset(s) == multiset(Range(n)) {
      assert Sorting.Sorted(Range(n), Upward());
      Sorting.SortedUnique(sorted, Range(n), Upward());
    }
    if IsFirst(s, n) { assert sorted == Range(n); }
  }

  // ---- The step ----

  /** What joining has listed so far. */
  datatype Progress = Progress(completed: seq<nat>, lifecycle: seq<LifecycleFailure>, results: seq<ClientResult>)

  function Taken(p: Progress, h: Join, i: nat): Progress {
    Progress(p.completed + (if h.Joined? then [i] else []), p.lifecycle + JoinFailures(h, i),
             p.results + (if h.Joined? then [h.result] else []))
  }

  function TakenAll(p: Progress, handles: seq<Join>, i: nat): Progress
    decreases |handles|
  {
    if handles == [] then p else TakenAll(Taken(p, handles[0], i), handles[1..], i + 1)
  }

  lemma Associative<T>(a: seq<T>, b: seq<T>, c: seq<T>)
    ensures (a + b) + c == a + (b + c)
  {
  }

  lemma {:induction false} TakenParts(p: Progress, handles: seq<Join>, i: nat)
    ensures TakenAll(p, handles, i) ==
            Progress(p.completed + Completed(handles, i), p.lifecycle + AllJoinFailures(handles, i),
                     p.results + Results(handles))
    decreases |handles|
  {
    if handles == [] {
      assert p.completed + [] == p.completed && p.lifecycle + [] == p.lifecycle && p.results + [] == p.results;
    } else {
      var next, rest := Taken(p, handles[0], i), handles[1..];
      TakenParts(next, rest, i + 1);
      Associative(p.completed, if handles[0].Joined? then [i] else [], Completed(rest, i + 1));
      Associative(p.lifecycle, JoinFailures(handles[0], i), AllJoinFailures(rest, i + 1));
      Associative(p.results, if handles[0].Joined? then [handles[0].result] else [], Results(rest));
    }
  }

  predicate EveryClientOnce(requested: nat, started: nat, completed: seq<nat>) {
    requested > 0 && started == requested && IsFirst(completed, requested)
  }

  /** What finishing a step adds to its lifecycle failures. */
  function AccountingFailures(requested: nat, started: nat, completed: seq<nat>, failures: Tally,
                              errors: nat): seq<LifecycleFailure> {
    (if EveryClientOnce(requested, started, completed) then [] else [LifecycleFailure(AccountingStage, None)])
    + (if errors != failures.count || errors != Accounted(failures) then [LifecycleFailure(AccountingStage, None)]
       else [])
  }

  class StepReport {
    const requested: nat
    const failures: Failures
    var started: nat
    var completed: seq<nat>
    var lifecycle: seq<LifecycleFailure>
    var valid: bool
    var point: Option<Point>

    constructor (requested: nat)
      ensures this.requested == requested && started == 0 && completed == [] && lifecycle == [] && !valid &&
              point == None
      ensures fresh(failures) && failures.Value() == EMPTY
    {
      this.requested := requested;
      failures := new Failures();
      started, completed, lifecycle, valid, point := 0, [], [], false, None;
    }

    method Fail(stage: Stage, client: Option<nat>)
      modifies this`lifecycle, this`valid
      ensures lifecycle == old(lifecycle) + [LifecycleFailure(stage, client)] && !valid
    {
      lifecycle := lifecycle + [LifecycleFailure(stage, client)];
      valid := false;
    }

    method Finish()
      modifies this`lifecycle, this`valid
      ensures lifecycle == old(lifecycle)
                + AccountingFailures(requested, started, completed, failures.Value(),
                                     if point.Some? then point.value.errors else 0)
      ensures valid <==> lifecycle == []
    {
      var errors := if point.Some? then point.value.errors else 0;
      if !EveryClientOnce(requested, started, completed) { Fail(AccountingStage, None); }
      var accounted := failures.AccountedFor();
      if errors != failures.count || errors != accounted { Fail(AccountingStage, None); }
      valid := lifecycle == [];
    }

    /** Note one client's end. */
    method Take(h: Join, i: nat)
      modifies this`completed, this`lifecycle, this`valid, failures
      ensures completed == old(completed) + (if h.Joined? then [i] else [])
      ensures lifecycle == old(lifecycle) + JoinFailures(h, i)
      ensures failures.Value() ==
              if h.Joined? then Merged(old(failures.Value()), h.result.failures) else old(failures.Value())
    {
      match h
      case Joined(c) =>
        completed := completed + [i];
        failures.Merge(c.failures);
        if c.counters == Some(false) { Fail(CountersStage, Some(i)); }
        if !c.stopped { Fail(StopStage, Some(i)); }
      case Panicked => Fail(JoinStage, Some(i));
    }

    /** The loop that joins the clients. */
    method Collect(handles: seq<Join>, begun: nat)
      modifies this`completed, this`lifecycle, this`valid, this`point, failures
      ensures completed == old(completed) + Completed(handles, 0)
      ensures lifecycle == old(lifecycle) + AllJoinFailures(handles, 0)
      ensures failures.Value() == MergedAll(old(failures.Value()), handles)
      ensures point == Some(PointOf(requested, begun, Results(handles)))
    {
      var results: seq<ClientResult> := [];
      for i := 0 to |handles|
        invariant TakenAll(Progress(completed, lifecycle, results), handles[i..], i) ==
                  TakenAll(Progress(old(completed), old(lifecycle), []), handles, 0)
        invariant MergedAll(failures.Value(), handles[i..]) == MergedAll(old(failures.Value()), handles)
      {
        assert handles[i..][0] == handles[i] && handles[i..][1..] == handles[i + 1..];
        ghost var before := Progress(completed, lifecycle, results);
        Take(handles[i], i);
        if handles[i].Joined? { results := results + [handles[i].result]; }
        assert Progress(completed, lifecycle, results) == Taken(before, handles[i], i);
      }
      assert handles[|handles|..] == [];
      TakenParts(Progress(old(completed), old(lifecycle), []), handles, 0);
      assert results == Results(handles);
      var p := FromClients(requested, begun, results);
      point := Some(p);
    }

    method CollectAndFinish(handles: seq<Join>, begun: nat)
      requires completed == []
      modifies this, failures
      ensures failures.Value() == MergedAll(old(failures.Value()), handles) &&
              point == Some(PointOf(requested, begun, Results(handles)))
      ensures var found :=
              AccountingFailures(requested, |handles|, Completed(handles, 0), failures.Value(),
                                 SumFailed(Results(handles)));
              && lifecycle == old(lifecycle) + AllJoinFailures(handles, 0) + found
              && (valid <==> old(lifecycle) == [] && AllJoinFailures(handles, 0) + found == [])
    {
      started := |handles|;
      Collect(handles, begun);
      assert completed == Completed(handles, 0);
      Finish();
    }

    /** Start every client, join them all, and finish. */
    method Drive(clients: seq<Client>, begun: nat) returns (ghost handles: seq<Join>)
      requires completed == [] && IsEmpty(failures.Value())
      modifies this, failures
      ensures Ends(clients, handles) && failures.Value() == MergedAll(old(failures.Value()), handles)
      ensures point == Some(PointOf(requested, begun, Results(handles)))
      ensures lifecycle == old(lifecycle) + AllJoinFailures(handles, 0)
                + AccountingFailures(requested, |clients|, Completed(handles, 0), failures.Value(),
                                     SumFailed(Results(handles)))
      ensures Reflects(failures.Value(), StepHistory(clients))
      ensures point.Some? && point.value.errors == |StepHistory(clients)|
      ensures valid <==> old(lifecycle) == [] && GoodStep(requested, clients)
    {
      var joins := Start(clients);
      handles := joins;
      CollectAndFinish(joins, begun);
      StepHistoryReflects(clients, handles, old(failures.Value()));
      StepValid(requested, clients, handles, old(failures.Value()), failures.Value());
    }
  }

  /** Every client runs its loop. */
  method Start(clients: seq<Client>) returns (handles: seq<Join>)
    ensures Ends(clients, handles)
  {
    handles := [];
    for i := 0 to |clients|
      invariant |handles| == i && forall j :: 0 <= j < i ==> EndOf(clients[j], handles[j])
    {
      var c := clients[i];
      var r := RunClient(c.quota, c.replies, c.ended, c.counters, c.stopped);
      handles := handles + [if c.panics then Panicked else Joined(r)];
    }
  }

  // ---- Every step ----

  /** A client, its requests' replies, and how it ends. */
  datatype Client = Client(quota: nat, replies: seq<Reply>, ended: nat, counters: Option<bool>, stopped: bool,
                           panics: bool) {
    function Answered(): seq<Reply> { replies[..if quota <= |replies| then quota else |replies|] }
  }

  predicate EndsWell(c: Client) { !c.panics && c.counters != Some(false) && c.stopped }

  function HistoryOf(c: Client): seq<FailureKind> { if c.panics then [] else FailuresIn(c.Answered()) }

  /** The failures of the clients that were joined, client by client. */
  function StepHistory(clients: seq<Client>): seq<FailureKind> {
    if clients == [] then [] else HistoryOf(clients[0]) + StepHistory(clients[1..])
  }

  /** As many clients as requested, and not none, all ended well. */
  predicate GoodStep(requested: nat, clients: seq<Client>) {
    requested > 0 && |clients| == requested && forall i :: 0 <= i < |clients| ==> EndsWell(clients[i])
  }

  ghost predicate Ends(clients: seq<Client>, handles: seq<Join>) {
    |handles| == |clients| && forall i :: 0 <= i < |clients| ==> EndOf(clients[i], handles[i])
  }

  /** What a client's handle gives. */
  ghost predicate EndOf(c: Client, h: Join) {
    && (h.Joined? <==> !c.panics)
    && (h.Joined? ==>
          && h.result.failures == TallyOf(c.Answered()) && h.result.failed == |FailuresIn(c.Answered())|
          && h.result.successful + h.result.failed == |c.Answered()| && h.result.ended == c.ended
          && h.result.counters == c.counters && h.result.stopped == c.stopped)
  }

  lemma SumHead(h: Join, rest: seq<ClientResult>)
    ensures SumFailed((if h.Joined? then [h.result] else []) + rest) ==
            (if h.Joined? then h.result.failed else 0) + SumFailed(rest)
  {
    if h.Joined? { assert ([h.result] + rest)[1..] == rest; } else { assert [] + rest == rest; }
  }

  /** One more client. */
  lemma ClientReflects(t: Tally, history: seq<FailureKind>, c: Client, h: Join)
    requires Reflects(t, history) && EndOf(c, h)
    ensures Reflects(if h.Joined? then Merged(t, h.result.failures) else t, history + HistoryOf(c))
    ensures |HistoryOf(c)| == if h.Joined? then h.result.failed else 0
  {
    if h.Joined? {
      TallyReflects(c.Answered());
      MergeReflects(t, history, h.result.failures, HistoryOf(c));
    } else {
      assert history + HistoryOf(c) == history;
    }
  }

  lemma {:induction false} HistoryFrom(t: Tally, history: seq<FailureKind>, clients: seq<Client>, handles: seq<Join>)
    requires Reflects(t, history) && Ends(clients, handles)
    ensures Reflects(MergedAll(t, handles), history + StepHistory(clients)) &&
            SumFailed(Results(handles)) == |StepHistory(clients)|
    decreases |clients|
  {
    if clients == [] {
      assert history + StepHistory(clients) == history;
    } else {
      var c, h := clients[0], handles[0];
      assert EndOf(c, h);
      ClientReflects(t, history, c, h);
      SumHead(h, Results(handles[1..]));
      var next := if h.Joined? then Merged(t, h.result.failures) else t;
      HistoryFrom(next, history + HistoryOf(c), clients[1..], handles[1..]);
      Associative(history, HistoryOf(c), StepHistory(clients[1..]));
    }
  }

  /** The merged tally is that of all joined clients' failures, and the recorders' errors count them. */
  lemma StepHistoryReflects(clients: seq<Client>, handles: seq<Join>, empty: Tally)
    requires Ends(clients, handles) && IsEmpty(empty)
    ensures Reflects(MergedAll(empty, handles), StepHistory(clients)) &&
            SumFailed(Results(handles)) == |StepHistory(clients)|
  {
    var none: seq<FailureKind> := [];
    ReflectsNothing(empty, none);
    HistoryFrom(empty, none, clients, handles);
    assert none + StepHistory(clients) == StepHistory(clients);
  }

  /** All clients completed once exactly when each was joined. */
  lemma {:induction false} CompletedAll(handles: seq<Join>, i: nat)
    ensures |Completed(handles, i)| <= |handles|
    ensures |Completed(handles, i)| == |handles| <==> forall j :: 0 <= j < |handles| ==> handles[j].Joined?
    ensures |Completed(handles, i)| == |handles| ==>
            forall j :: 0 <= j < |handles| ==> Completed(handles, i)[j] == i + j
    decreases |handles|
  {
    if handles != [] {
      CompletedAll(handles[1..], i + 1);
      assert forall j :: 1 <= j < |handles| ==> handles[j] == handles[1..][j - 1];
    }
  }

  lemma {:induction false} NoJoinFailures(handles: seq<Join>, i: nat)
    ensures AllJoinFailures(handles, i) == [] <==> forall j :: 0 <= j < |handles| ==> Clean(handles[j])
    decreases |handles|
  {
    if handles != [] {
      NoJoinFailures(handles[1..], i + 1);
      assert forall j :: 1 <= j < |handles| ==> handles[j] == handles[1..][j - 1];
    }
  }

  /** Finishing finds nothing exactly when the completed indices are a permutation and the errors are all classified. */
  lemma FinishIff(requested: nat, started: nat, completed: seq<nat>, failures: Tally, errors: nat)
    ensures AccountingFailures(requested, started, completed, failures, errors) == [] <==>
            && requested > 0 && started == requested && multiset(completed) == multiset(Range(requested))
            && errors == failures.count == Accounted(failures)
  {
    SortedIsRange(completed, requested);
  }

  /** The completed indices are a permutation exactly when every client was joined. */
  lemma CompletedRange(handles: seq<Join>)
    ensures multiset(Completed(handles, 0)) == multiset(Range(|handles|)) <==>
            forall j :: 0 <= j < |handles| ==> handles[j].Joined?
  {
    CompletedAll(handles, 0);
    SameWhenFull(Completed(handles, 0), Range(|handles|));
  }

  lemma SameWhenFull(a: seq<nat>, b: seq<nat>)
    requires |a| == |b| ==> forall j :: 0 <= j < |b| ==> a[j] == b[j]
    ensures multiset(a) == multiset(b) <==> |a| == |b|
  {
    assert |multiset(a)| == |a| && |multiset(b)| == |b|;
    if |a| == |b| { assert a == b; }
  }

  lemma CleanEnds(clients: seq<Client>, handles: seq<Join>)
    requires Ends(clients, handles)
    ensures (forall j :: 0 <= j < |handles| ==> Clean(handles[j])) <==>
            forall i :: 0 <= i < |clients| ==> EndsWell(clients[i])
  {
    forall i | 0 <= i < |clients| ensures Clean(handles[i]) <==> EndsWell(clients[i]) {
      assert EndOf(clients[i], handles[i]);
    }
  }

  /** A step is valid exactly when it started a positive requested number of clients and all ended well. */
  lemma StepValid(requested: nat, clients: seq<Client>, handles: seq<Join>, empty: Tally, failures: Tally)
    requires Ends(clients, handles) && IsEmpty(empty) && failures == MergedAll(empty, handles)
    ensures AllJoinFailures(handles, 0)
              + AccountingFailures(requested, |handles|, Completed(handles, 0), failures,
                                   SumFailed(Results(handles))) == []
       <==> GoodStep(requested, clients)
  {
    StepHistoryReflects(clients, handles, empty);
    NoJoinFailures(handles, 0);
    CleanEnds(clients, handles);
    CompletedRange(handles);
    NothingFound(requested, handles, failures, SumFailed(Results(handles)));
  }

  lemma NothingFound(requested: nat, handles: seq<Join>, failures: Tally, errors: nat)
    requires errors == failures.count == Accounted(failures)
    requires AllJoinFailures(handles, 0) == [] <==> forall j :: 0 <= j < |handles| ==> Clean(handles[j])
    ensures AllJoinFailures(handles, 0) +
            AccountingFailures(requested, |handles|, Completed(handles, 0), failures, errors) == []
       <==> requested > 0 && |handles| == requested && forall j :: 0 <= j < |handles| ==> Clean(handles[j])
  {
    CompletedRange(handles);
    FinishIff(requested, |handles|, Completed(handles, 0), failures, errors);
    var a, b := AllJoinFailures(handles, 0),
        AccountingFailures(requested, |handles|, Completed(handles, 0), failures, errors);
    assert a + b == [] <==> a == [] && b == [];
    if a == [] { assert forall j :: 0 <= j < |handles| ==> Clean(handles[j]) && handles[j].Joined?; }
  }
}
