/**
 * The gate's verdict in terms of what is listed: the fields of the runs and of the check runs that count.
 */
module GateRules {
  import opened Search
  import opened Texts
  import opened CiGate

  // ---- One check run ----

  const WAITING: set<string> := {"queued", "in_progress", "pending", "waiting", "requested"}

  /** It completed with success. A status that is itself the word counts too. */
  predicate Succeeds(c: Check) {
    (c.status == Some("completed") && c.conclusion == Some("success")) || c.status == Some("success")
  }

  /** It completed otherwise, or has a status that neither waits nor succeeds. No status waits, no conclusion fails. */
  predicate Fails(c: Check) {
    if c.status == Some("completed") then
      c.conclusion.Some? ==> c.conclusion.value != "success" && c.conclusion.value !in WAITING
    else
      c.status.Some? && c.status.value !in {"", "success"} && c.status.value !in WAITING
  }

  predicate Skips(c: Check) {
    (c.status == Some("completed") && c.conclusion == Some("skipped")) || c.status == Some("skipped")
  }

  // ---- One run's check runs ----

  /** The check run of this name that counts is such a check run. */
  ghost predicate Has(checks: seq<Check>, name: string, such: Check -> bool) {
    exists c :: Counts(c, checks) && c.name == name && such(c)
  }

  /** Actions made no check run of this name. */
  ghost predicate Lacks(checks: seq<Check>, name: string) { forall c :: c in checks && c.byActions ==> c.name != name }

  lemma FoundIs(checks: seq<Check>, name: string, such: Check -> bool)
    requires CheckIds(checks)
    ensures var found := Latest(map[], checks);
            && (name in found <==> !Lacks(checks, name))
            && (Has(checks, name, such) <==> name in found && such(found[name]))
  {
    LatestCounts(checks, name);
    var found := Latest(map[], checks);
    if c :| Counts(c, checks) && c.name == name && such(c) {
      NewerOrder(c.key, found[name].key, c.key);
      assert c == found[name];
    }
  }

  lemma StateIs(checks: Checks, name: string)
    requires name in checks
    ensures State(checks, name) == Some("success") <==> Succeeds(checks[name])
    ensures State(checks, name) == Some("skipped") <==> Skips(checks[name])
    ensures State(checks, name).Some?
    ensures State(checks, name).value != "success" && !Unfinished(State(checks, name).value) <==> Fails(checks[name])
  {
  }

  ghost predicate Passing(checks: seq<Check>, names: seq<string>) {
    forall i :: 0 <= i < |names| ==> Has(checks, names[i], Succeeds)
  }

  /** A name failed, or the run is over without it. */
  ghost predicate Failing(run: Run, checks: seq<Check>, names: seq<string>) {
    exists i :: 0 <= i < |names| &&
      (Has(checks, names[i], Fails) || (run.status == Some("completed") && Lacks(checks, names[i])))
  }

  lemma VerdictIs(run: Run, checks: seq<Check>, names: seq<string>)
    requires CheckIds(checks)
    ensures Verdict(run, Latest(map[], checks), names) ==
            if Failing(run, checks, names) then Fail else if Passing(checks, names) then Pass else Wait
    ensures !(Passing(checks, names) && Failing(run, checks, names))
  {
    var found := Latest(map[], checks);
    forall i | 0 <= i < |names|
      ensures State(found, names[i]) == Some("success") <==> Has(checks, names[i], Succeeds)
      ensures State(found, names[i]).None? <==> Lacks(checks, names[i])
      ensures (State(found, names[i]).Some? && State(found, names[i]).value != "success"
               && !Unfinished(State(found, names[i]).value)) <==> Has(checks, names[i], Fails)
    {
      FoundIs(checks, names[i], Succeeds);
      FoundIs(checks, names[i], Fails);
      if names[i] in found { StateIs(found, names[i]); }
    }
  }

  /** A run with both heavy checks skipped, or over without either. */
  ghost predicate IsLean(run: Run, checks: seq<Check>) {
    || (Has(checks, "MSRV (Linux native)", Skips) && Has(checks, "Cargo Audit + Deny", Skips))
    || (run.status == Some("completed") && Lacks(checks, "MSRV (Linux native)") && Lacks(checks, "Cargo Audit + Deny"))
  }

  lemma LeanIs(run: Run, checks: seq<Check>)
    requires CheckIds(checks)
    ensures Lean(run, Latest(map[], checks)) <==> IsLean(run, checks)
  {
    var found := Latest(map[], checks);
    assert HEAVY[0] == "MSRV (Linux native)" && HEAVY[1] == "Cargo Audit + Deny";
    forall name ensures State(found, name) == Some("skipped") <==> Has(checks, name, Skips)
                ensures State(found, name).None? <==> Lacks(checks, name)
    {
      FoundIs(checks, name, Skips);
      if name in found { StateIs(found, name); }
    }
  }

  // ---- Which runs count ----

  /** A run of the workflow at `path`, whatever ref it was read at, on this repository. */
  predicate IsOf(run: Run, repo: string, path: string) {
    run.repo == repo && (run.path == path || path + "@" <= run.path)
  }

  lemma {:induction false} BaseIff(p: string, path: string)
    requires '@' !in path
    ensures BaseOf(p) == path <==> p == path || path + "@" <= p
    decreases |p|
  {
    if p != [] && p[0] != '@' && path != [] {
      BaseIff(p[1..], path[1..]);
      assert p == [p[0]] + p[1..] && path == [path[0]] + path[1..];
      assert path + "@" == [path[0]] + (path[1..] + "@");
    } else {
      assert p != [] && p[0] == '@' ==> "@" <= p;
    }
  }

  lemma MineIff(run: Run, repo: string, path: string)
    requires '@' !in path
    ensures Mine(run, repo, path) <==> IsOf(run, repo, path)
  {
    BaseIff(run.path, path);
  }

  /** Later by start, and by id when they started together. */
  ghost predicate IsLater(a: Key, b: Key) {
    if a.started == b.started then a.id > b.id else exists i :: PartsAt(b.started, a.started, i)
  }

  lemma NewerIff(a: Key, b: Key)
    ensures Newer(a, b) <==> IsLater(a, b)
  {
    LeqIff(a.started, b.started);
    LeqIff(b.started, a.started);
    LeqOrder(a.started, b.started, a.started);
  }

  /** The tag's own run, or without a tag one that is not lean. */
  ghost predicate Considered(run: Run, listed: Listing, tag: Option<Tagged>) {
    match tag
    case Some(t) => run.event == "push" && run.branch == t.tag && run.sha == t.commit
    case None => !IsLean(run, listed(run))
  }

  /** It is considered, and no later run of its workflow on this repository is. */
  ghost predicate IsCiRun(r: Run, runs: seq<Run>, repo: string, listed: Listing, tag: Option<Tagged>) {
    && r in runs && IsOf(r, repo, ".github/workflows/ci.yml") && Considered(r, listed, tag)
    && forall s :: s in runs && IsOf(s, repo, ".github/workflows/ci.yml") && IsLater(s.key, r.key) ==>
         !Considered(s, listed, tag)
  }

  ghost predicate IsNativeRun(r: Run, runs: seq<Run>, repo: string) {
    && r in runs && IsOf(r, repo, ".github/workflows/native-tests.yml")
    && forall s :: s in runs && IsOf(s, repo, ".github/workflows/native-tests.yml") ==> !IsLater(s.key, r.key)
  }

  ghost predicate ListedIds(runs: seq<Run>, listed: Listing) { forall r :: r in runs ==> CheckIds(listed(r)) }

  lemma CiRunIff(r: Run, runs: seq<Run>, repo: string, listed: Listing, tag: Option<Tagged>)
    requires ListedIds(runs, listed)
    ensures IsNewest(r, runs, repo, CI, CiRuns(listed, tag)) <==> IsCiRun(r, runs, repo, listed, tag)
  {
    forall s | s in runs
      ensures Mine(s, repo, CI) <==> IsOf(s, repo, ".github/workflows/ci.yml")
      ensures CiRuns(listed, tag)(s) <==> Considered(s, listed, tag)
      ensures Newer(s.key, r.key) <==> IsLater(s.key, r.key)
    {
      MineIff(s, repo, CI);
      LeanIs(s, listed(s));
      NewerIff(s.key, r.key);
    }
  }

  lemma NativeRunIff(r: Run, runs: seq<Run>, repo: string)
    ensures IsNewest(r, runs, repo, NATIVE, AnyRun()) <==> IsNativeRun(r, runs, repo)
  {
    forall s | s in runs
      ensures Mine(s, repo, NATIVE) <==> IsOf(s, repo, ".github/workflows/native-tests.yml")
      ensures Newer(s.key, r.key) <==> IsLater(s.key, r.key)
    {
      MineIff(s, repo, NATIVE);
      NewerIff(s.key, r.key);
    }
  }

  // ---- The gate ----

  const CI_NAMES := ["CI OK", "MSRV (Linux native)", "Cargo Audit + Deny"]
  const NATIVE_NAMES := ["Native OK"]

  ghost predicate CiPasses(runs: seq<Run>, repo: string, listed: Listing, tag: Option<Tagged>) {
    exists r :: IsCiRun(r, runs, repo, listed, tag) && Passing(listed(r), CI_NAMES)
  }

  ghost predicate CiFails(runs: seq<Run>, repo: string, listed: Listing, tag: Option<Tagged>) {
    exists r :: IsCiRun(r, runs, repo, listed, tag) && Failing(r, listed(r), CI_NAMES)
  }

  ghost predicate NativePasses(runs: seq<Run>, repo: string, listed: Listing) {
    exists r :: IsNativeRun(r, runs, repo) && Passing(listed(r), NATIVE_NAMES)
  }

  ghost predicate NativeFails(runs: seq<Run>, repo: string, listed: Listing) {
    exists r :: IsNativeRun(r, runs, repo) && Failing(r, listed(r), NATIVE_NAMES)
  }

  lemma PickedIs(runs: seq<Run>, repo: string, path: string, p: Run -> bool, listed: Listing, names: seq<string>)
    requires RunIds(runs) && ListedIds(runs, listed)
    ensures var v := Judge(Pick(runs, repo, path, p), listed, names);
            && (v == Pass <==> exists r :: IsNewest(r, runs, repo, path, p) && Passing(listed(r), names))
            && (v == Fail <==> exists r :: IsNewest(r, runs, repo, path, p) && Failing(r, listed(r), names))
  {
    var f := Pick(runs, repo, path, p);
    PickIsNewest(runs, repo, path, p);
    forall r | IsNewest(r, runs, repo, path, p) ensures f == Some(r) { PickIff(runs, repo, path, p, r); }
    if f.Some? { VerdictIs(f.value, listed(f.value), names); }
  }

  lemma CiVerdict(runs: seq<Run>, repo: string, listed: Listing, tag: Option<Tagged>)
    requires RunIds(runs) && ListedIds(runs, listed)
    ensures var v := CiResult(runs, repo, listed, tag);
            (v == Pass <==> CiPasses(runs, repo, listed, tag)) && (v == Fail <==> CiFails(runs, repo, listed, tag))
  {
    assert [CI_OK] + HEAVY == CI_NAMES;
    PickedIs(runs, repo, CI, CiRuns(listed, tag), listed, CI_NAMES);
    forall r ensures IsNewest(r, runs, repo, CI, CiRuns(listed, tag)) <==> IsCiRun(r, runs, repo, listed, tag) {
      CiRunIff(r, runs, repo, listed, tag);
    }
  }

  lemma NativeVerdict(runs: seq<Run>, repo: string, listed: Listing)
    requires RunIds(runs) && ListedIds(runs, listed)
    ensures var v := NativeResult(runs, repo, listed);
            (v == Pass <==> NativePasses(runs, repo, listed)) && (v == Fail <==> NativeFails(runs, repo, listed))
  {
    assert [NATIVE_OK] == NATIVE_NAMES;
    PickedIs(runs, repo, NATIVE, AnyRun(), listed, NATIVE_NAMES);
    forall r ensures IsNewest(r, runs, repo, NATIVE, AnyRun()) <==> IsNativeRun(r, runs, repo) {
      NativeRunIff(r, runs, repo);
    }
  }

  /** The gate fails when either workflow does, and passes when both do, exactly as the listed runs say. */
  lemma EvaluatedIs(runs: seq<Run>, repo: string, listed: Listing, tag: Option<Tagged>)
    requires RunIds(runs) && ListedIds(runs, listed)
    ensures Evaluated(runs, repo, listed, tag) ==
            if CiFails(runs, repo, listed, tag) || NativeFails(runs, repo, listed) then Fail
            else if CiPasses(runs, repo, listed, tag) && NativePasses(runs, repo, listed) then Pass else Wait
  {
    CiVerdict(runs, repo, listed, tag);
    NativeVerdict(runs, repo, listed);
    CombineIs(CiResult(runs, repo, listed, tag), NativeResult(runs, repo, listed));
  }

  lemma CombineIs(a: Outcome, b: Outcome)
    ensures Combine([a, b]) == if a == Fail || b == Fail then Fail else if a == Pass && b == Pass then Pass else Wait
  {
    assert [a, b][0] == a && [a, b][1] == b;
  }
}
