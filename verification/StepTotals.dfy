/** What a whole step reports, told of its clients alone: counts, times, the last end, and every failure to end well. */
module StepTotals {
  import opened Numbers
  import opened Search
  import opened FailureTally
  import opened StressSteps

  // ---- Counts ----

  /** The requests that the joined clients got answered. */
  function AnsweredIn(clients: seq<Client>): nat {
    if clients == [] then 0
    else (if clients[0].panics then 0 else |clients[0].Answered()|) + AnsweredIn(clients[1..])
  }

  /** Successes and errors are all the answers, and the errors the refusals. */
  lemma {:induction false} CountsAre(clients: seq<Client>, handles: seq<Join>)
    requires Ends(clients, handles)
    ensures SumSuccessful(Results(handles)) + SumFailed(Results(handles)) == AnsweredIn(clients)
    ensures SumFailed(Results(handles)) == |StepHistory(clients)|
    decreases |clients|
  {
    if clients != [] {
      var c, h, rest := clients[0], handles[0], Results(handles[1..]);
      assert EndOf(c, h);
      CountsAre(clients[1..], handles[1..]);
      SumHead(h, rest);
      if h.Joined? { assert ([h.result] + rest)[1..] == rest; } else { assert [] + rest == rest; }
    }
  }

  // ---- The last end ----

  /** A client that was joined and ended at `at`. */
  predicate EndedAt(c: Client, at: nat) { !c.panics && c.ended == at }

  /** No joined client ended later, and one ended then unless none ended after the start. */
  ghost predicate IsLast(end: nat, begun: nat, clients: seq<Client>) {
    && end >= begun && (forall i :: 0 <= i < |clients| && !clients[i].panics ==> clients[i].ended <= end)
    && (end == begun || exists i :: 0 <= i < |clients| && EndedAt(clients[i], end))
  }

  lemma LastOfMore(end: nat, begun: nat, clients: seq<Client>)
    requires clients != []
    requires IsLast(end, if clients[0].panics then begun else Max(begun, clients[0].ended), clients[1..])
    ensures IsLast(end, begun, clients)
  {
    var c, rest := clients[0], clients[1..];
    assert forall i :: 1 <= i < |clients| ==> clients[i] == rest[i - 1];
    if i :| 0 <= i < |rest| && EndedAt(rest[i], end) { assert EndedAt(clients[i + 1], end); }
    if end != begun && !c.panics && end == c.ended { assert EndedAt(clients[0], end); }
  }

  lemma {:induction false} LastEndIs(begun: nat, clients: seq<Client>, handles: seq<Join>)
    requires Ends(clients, handles)
    ensures IsLast(LastEnd(begun, Results(handles)), begun, clients)
    decreases |clients|
  {
    if clients != [] {
      var c, h, rest := clients[0], handles[0], Results(handles[1..]);
      assert EndOf(c, h);
      LastEndIs(if c.panics then begun else Max(begun, c.ended), clients[1..], handles[1..]);
      if h.Joined? { assert ([h.result] + rest)[1..] == rest; } else { assert [] + rest == rest; }
      LastOfMore(LastEnd(begun, Results(handles)), begun, clients);
    }
  }

  /** A step is timed from its start to the last end of a joined client. */
  lemma ElapsedIs(requested: nat, begun: nat, clients: seq<Client>, handles: seq<Join>)
    requires Ends(clients, handles)
    ensures IsLast(begun + PointOf(requested, begun, Results(handles)).elapsed, begun, clients)
  {
    LastEndIs(begun, clients, handles);
  }

  // ---- Times ----

  function TimesIn(replies: seq<Reply>): seq<nat> {
    if replies == [] then []
    else
      var init, last := replies[..|replies| - 1], replies[|replies| - 1];
      TimesIn(init) + if last.Refused? then [last.ns] else []
  }

  function StepTimes(clients: seq<Client>): seq<nat> {
    if clients == [] then []
    else OwnTimes(clients[0]) + StepTimes(clients[1..])
  }

  lemma {:induction false} TallyTimes(replies: seq<Reply>)
    ensures Timed(TallyOf(replies), TimesIn(replies))
    decreases |replies|
  {
    if replies != [] {
      var init, last := replies[..|replies| - 1], replies[|replies| - 1];
      TallyTimes(init);
      if last.Refused? {
        RecordTimes(TallyOf(init), TimesIn(init), last.kind, last.ns);
      } else {
        assert TimesIn(init) + [] == TimesIn(init);
      }
    }
  }

  function OwnTimes(c: Client): seq<nat> { if c.panics then [] else TimesIn(c.Answered()) }

  lemma ClientTimes(t: Tally, times: seq<nat>, c: Client, h: Join)
    requires Timed(t, times) && EndOf(c, h)
    ensures Timed(if h.Joined? then Merged(t, h.result.failures) else t, times + OwnTimes(c))
  {
    if h.Joined? {
      TallyTimes(c.Answered());
      MergeTimes(t, times, h.result.failures, OwnTimes(c));
    } else {
      assert times + OwnTimes(c) == times;
    }
  }

  lemma {:induction false} TimesFrom(t: Tally, times: seq<nat>, clients: seq<Client>, handles: seq<Join>)
    requires Timed(t, times) && Ends(clients, handles)
    ensures Timed(MergedAll(t, handles), times + StepTimes(clients))
    decreases |clients|
  {
    if clients == [] {
      assert times + StepTimes(clients) == times;
    } else {
      var c, h := clients[0], handles[0];
      assert EndOf(c, h);
      ClientTimes(t, times, c, h);
      TimesFrom(if h.Joined? then Merged(t, h.result.failures) else t, times + OwnTimes(c), clients[1..], handles[1..]);
      Associative(times, OwnTimes(c), StepTimes(clients[1..]));
    }
  }

  /** The merged tally's time and maximum are those of every refusal a joined client got. */
  lemma TimesAre(clients: seq<Client>, handles: seq<Join>, empty: Tally)
    requires Ends(clients, handles) && empty.elapsedNs == empty.maxNs == 0
    ensures Timed(MergedAll(empty, handles), StepTimes(clients))
  {
    TimesFrom(empty, [], clients, handles);
    assert [] + StepTimes(clients) == StepTimes(clients);
  }

  // ---- Failures to end well ----

  /** What a client did not do: be joined, count forwards, or stop. */
  predicate Fell(c: Client, stage: Stage) {
    match stage
    case JoinStage => c.panics
    case CountersStage => !c.panics && c.counters == Some(false)
    case StopStage => !c.panics && !c.stopped
    case AccountingStage => false
  }

  /** An earlier client's, or the same one's counters before its stop. */
  predicate Precedes(a: LifecycleFailure, b: LifecycleFailure) {
    && a.client.Some? && b.client.Some?
    && (a.client.value < b.client.value
        || (a.client.value == b.client.value && a.stage == CountersStage && b.stage == StopStage))
  }

  /** All of them from client `i` on, each once, client by client. */
  ghost predicate Lists(failures: seq<LifecycleFailure>, clients: seq<Client>, i: nat) {
    && (forall stage, k: nat {:trigger LifecycleFailure(stage, Some(k))} ::
          LifecycleFailure(stage, Some(k)) in failures <==>
            i <= k < i + |clients| && Fell(clients[k - i], stage))
    && (forall f :: f in failures ==> f.client.Some?)
    && forall a, b :: 0 <= a < b < |failures| ==> Precedes(failures[a], failures[b])
  }

  lemma OneLists(c: Client, h: Join, i: nat)
    requires EndOf(c, h)
    ensures Lists(JoinFailures(h, i), [c], i)
  {
  }

  lemma ListsJoin(a: seq<LifecycleFailure>, c: Client, b: seq<LifecycleFailure>, clients: seq<Client>, i: nat)
    requires clients != [] && clients[0] == c && Lists(a, [c], i) && Lists(b, clients[1..], i + 1)
    ensures Lists(a + b, clients, i)
  {
    var all := a + b;
    forall f | f in a ensures f.client.Some? && f.client.value == i {
      assert LifecycleFailure(f.stage, Some(f.client.value)) in a;
    }
    forall f | f in b ensures f.client.Some? && f.client.value > i {
      assert LifecycleFailure(f.stage, Some(f.client.value)) in b;
    }
    forall stage, k: nat
      ensures LifecycleFailure(stage, Some(k)) in all <==> i <= k < i + |clients| && Fell(clients[k - i], stage)
    {
      assert i < k < i + |clients| ==> clients[1..][k - (i + 1)] == clients[k - i];
    }
    forall x, y | 0 <= x < y < |all| ensures Precedes(all[x], all[y]) {
      if y < |a| {
        assert Precedes(a[x], a[y]);
      } else if x >= |a| {
        assert Precedes(b[x - |a|], b[y - |a|]);
      } else {
        assert all[x] in a && all[y] in b;
      }
    }
  }

  lemma {:induction false} FailuresFrom(clients: seq<Client>, handles: seq<Join>, i: nat)
    requires Ends(clients, handles)
    ensures Lists(AllJoinFailures(handles, i), clients, i)
    decreases |clients|
  {
    if clients != [] {
      assert EndOf(clients[0], handles[0]);
      OneLists(clients[0], handles[0], i);
      FailuresFrom(clients[1..], handles[1..], i + 1);
      ListsJoin(JoinFailures(handles[0], i), clients[0], AllJoinFailures(handles[1..], i + 1), clients, i);
    }
  }

  /** Joining lists each client's failures to be joined, count and stop, and nothing else, client by client. */
  lemma FailuresAre(clients: seq<Client>, handles: seq<Join>)
    requires Ends(clients, handles)
    ensures Lists(AllJoinFailures(handles, 0), clients, 0)
  {
    FailuresFrom(clients, handles, 0);
  }

  /**
   * Finishing adds a failure exactly when the requested clients, at least one, were not all started and joined;
   * the errors are always classified.
   */
  lemma AccountingIs(requested: nat, clients: seq<Client>, handles: seq<Join>, empty: Tally)
    requires Ends(clients, handles) && IsEmpty(empty)
    ensures AccountingFailures(requested, |clients|, Completed(handles, 0), MergedAll(empty, handles),
                               SumFailed(Results(handles))) ==
            if requested > 0 && |clients| == requested && forall i :: 0 <= i < |clients| ==> !clients[i].panics
            then [] else [LifecycleFailure(AccountingStage, None)]
  {
    StepHistoryReflects(clients, handles, empty);
    forall i | 0 <= i < |clients| ensures handles[i].Joined? <==> !clients[i].panics {
      assert EndOf(clients[i], handles[i]);
    }
    CompletedRange(handles);
    SortedIsRange(Completed(handles, 0), requested);
  }
}
