/** Whether CI passed on a commit: which workflow runs count, and what their check runs say. */
module CiGate {
  import opened Search
  import opened Texts
  import Sorting

  // ---- Data ----

  /** When something started, and its id: later ones are newer. */
  datatype Key = Key(started: string, id: int)

  datatype Check = Check(key: Key, name: string, byActions: bool, status: Option<string>, conclusion: Option<string>)

  datatype Run = Run(key: Key, path: string, repo: string, status: Option<string>, event: string, branch: string,
                     sha: string)

  datatype Outcome = Pass | Wait | Fail

  type Checks = map<string, Check>

  const CI := ".github/workflows/ci.yml"
  const NATIVE := ".github/workflows/native-tests.yml"
  const CI_OK := "CI OK"
  const MSRV := "MSRV (Linux native)"
  const AUDIT := "Cargo Audit + Deny"
  const NATIVE_OK := "Native OK"
  const HEAVY := [MSRV, AUDIT]

  predicate Newer(a: Key, b: Key) { !Leq(a.started, b.started) || (a.started == b.started && a.id > b.id) }

  /** Newer is a strict order that leaves only equal keys unordered. */
  lemma NewerOrder(a: Key, b: Key, c: Key)
    ensures !(Newer(a, b) && Newer(b, a))
    ensures !Newer(a, b) && !Newer(b, a) ==> a == b
    ensures Newer(a, b) && Newer(b, c) ==> Newer(a, c)
    ensures !Newer(a, b) && !Newer(b, c) ==> !Newer(a, c)
  {
    LeqOrder(a.started, b.started, c.started);
    LeqOrder(b.started, c.started, a.started);
    LeqOrder(c.started, a.started, b.started);
    LeqOrder(c.started, b.started, a.started);
  }

  // ---- Which check runs count ----

  function Latest(found: Checks, checks: seq<Check>): Checks
    decreases |checks|
  {
    if checks == [] then found
    else
      var c := checks[0];
      if !c.byActions then Latest(found, checks[1..])
      else if c.name !in found || Newer(c.key, found[c.name].key) then Latest(found[c.name := c], checks[1..])
      else Latest(found, checks[1..])
  }

  /** The loop over the listed check runs. */
  method CheckRuns(checks: seq<Check>) returns (found: Checks)
    ensures found == Latest(map[], checks)
  {
    found := map[];
    for i := 0 to |checks|
      invariant Latest(found, checks[i..]) == Latest(map[], checks)
    {
      assert checks[i..][0] == checks[i] && checks[i..][1..] == checks[i + 1..];
      var c := checks[i];
      if !c.byActions { continue; }
      if c.name !in found || Newer(c.key, found[c.name].key) { found := found[c.name := c]; }
    }
    assert checks[|checks|..] == [];
  }

  /** A check run that counts: Actions made it, and no later one of its name is listed. */
  ghost predicate Counts(c: Check, checks: seq<Check>) {
    c in checks && c.byActions && forall d :: d in checks && d.byActions && d.name == c.name ==> !Newer(d.key, c.key)
  }

  ghost predicate ByName(found: Checks) { forall n :: n in found ==> found[n].name == n && found[n].byActions }

  lemma {:induction false} LatestBound(found: Checks, checks: seq<Check>, name: string)
    requires ByName(found)
    ensures var r := Latest(found, checks);
            && ByName(r) && (name in r <==> name in found || exists d :: d in checks && d.byActions && d.name == name)
            && (name in r ==> r[name] in checks || (name in found && r[name] == found[name]))
            && (name in found ==> name in r && !Newer(found[name].key, r[name].key))
            && (forall d :: d in checks && d.byActions && d.name == name ==> name in r && !Newer(d.key, r[name].key))
    decreases |checks|
  {
    if checks == [] {
      if name in found { NewerOrder(found[name].key, found[name].key, found[name].key); }
    } else {
      var c, rest := checks[0], checks[1..];
      assert forall d :: d in checks <==> d == c || d in rest;
      var next := if c.byActions && (c.name !in found || Newer(c.key, found[c.name].key)) then found[c.name := c]
          else found;
      LatestBound(next, rest, name);
      var r := Latest(found, checks);
      if name in r {
        if name in found {
          NewerOrder(found[name].key, next[name].key, r[name].key);
          NewerOrder(found[name].key, c.key, c.key);
        }
        if c.byActions && c.name == name {
          NewerOrder(c.key, next[name].key, r[name].key);
          NewerOrder(c.key, c.key, c.key);
        }
      }
    }
  }

  /** What is found for a name is a check run that counts, and one is found whenever one exists. */
  lemma LatestCounts(checks: seq<Check>, name: string)
    ensures var r := Latest(map[], checks);
            && (name in r <==> exists c :: c in checks && c.byActions && c.name == name)
            && (name in r ==> r[name].name == name && Counts(r[name], checks))
  {
    LatestBound(map[], checks, name);
  }

  /** Ids name things: what has the same id is the same. */
  ghost predicate CheckIds(checks: seq<Check>) {
    forall c, d :: c in checks && d in checks && c.key.id == d.key.id ==> c == d
  }

  ghost predicate SameElements<T(!new)>(a: seq<T>, b: seq<T>) { forall x :: x in a <==> x in b }

  /** So the order of listing does not matter. */
  lemma LatestUnordered(a: seq<Check>, b: seq<Check>)
    requires CheckIds(a) && SameElements(a, b)
    ensures Latest(map[], a) == Latest(map[], b)
  {
    var x, y := Latest(map[], a), Latest(map[], b);
    forall name ensures (name in x <==> name in y) && (name in x ==> x[name] == y[name]) {
      LatestCounts(a, name);
      LatestCounts(b, name);
      if name in x && name in y { NewerOrder(x[name].key, y[name].key, x[name].key); }
    }
  }

  // ---- Verdicts ----

  /** What a lookup tells of a check: how it ended, or how far it is; nothing for a check that never ran. */
  function State(checks: Checks, name: string): Option<string> {
    if name !in checks then None
    else
      var c := checks[name];
      if c.status != Some("completed") then Some(if c.status in {None, Some("")} then "pending" else c.status.value)
      else Some(if c.conclusion in {None, Some("")} then "unknown" else c.conclusion.value)
  }

  predicate Unfinished(s: string) { s in {"queued", "in_progress", "pending", "waiting", "requested"} }

  predicate AllSucceed(checks: Checks, names: seq<string>) {
    forall i :: 0 <= i < |names| ==> State(checks, names[i]) == Some("success")
  }

  function Verdict(run: Run, checks: Checks, names: seq<string>): Outcome {
    if AllSucceed(checks, names) then Pass
    else if exists i :: 0 <= i < |names| &&
              match State(checks, names[i])
              case None => run.status == Some("completed")
              case Some(s) => s != "success" && !Unfinished(s)
    then Fail
    else Wait
  }

  // ---- The runs that count ----

  function BaseOf(path: string): string { if path == [] || path[0] == '@' then [] else [path[0]] + BaseOf(path[1..]) }

  predicate Mine(run: Run, repo: string, path: string) { BaseOf(run.path) == path && run.repo == repo }

  function Select(runs: seq<Run>, repo: string, path: string): seq<Run> {
    if runs == [] then [] else (if Mine(runs[0], repo, path) then [runs[0]] else []) + Select(runs[1..], repo, path)
  }

  function Newest(): Sorting.Order<Run> { (a: Run, b: Run) => !Newer(b.key, a.key) }

  /** This repository's runs of one workflow, newest first. */
  function Ours(runs: seq<Run>, repo: string, path: string): seq<Run> {
    Sorting.Sort(Select(runs, repo, path), Newest())
  }

  ghost predicate NewestFirst(runs: seq<Run>) {
    forall i, j :: 0 <= i < j < |runs| ==> !Newer(runs[j].key, runs[i].key)
  }

  lemma NewestOrder()
    ensures Sorting.IsOrder(Newest())
  {
    forall a, b ensures Newest()(a, b) || Newest()(b, a) { NewerOrder(a.key, b.key, a.key); }
    forall a, b, c | Newest()(a, b) && Newest()(b, c) ensures Newest()(a, c) { NewerOrder(c.key, b.key, a.key); }
  }

  lemma {:induction false} SelectElements(runs: seq<Run>, repo: string, path: string)
    ensures forall x :: x in Select(runs, repo, path) <==> x in runs && Mine(x, repo, path)
    decreases |runs|
  {
    if runs != [] {
      SelectElements(runs[1..], repo, path);
      assert forall x :: x in runs <==> x == runs[0] || x in runs[1..];
    }
  }

  lemma OursOrdered(runs: seq<Run>, repo: string, path: string)
    ensures NewestFirst(Ours(runs, repo, path))
    ensures forall x :: x in Ours(runs, repo, path) <==> x in runs && Mine(x, repo, path)
  {
    var mine, ours := Select(runs, repo, path), Ours(runs, repo, path);
    NewestOrder();
    SelectElements(runs, repo, path);
    Sorting.SortSorts(mine, Newest());
    forall i, j | 0 <= i < j < |ours| ensures !Newer(ours[j].key, ours[i].key) { assert Newest()(ours[i], ours[j]); }
    assert forall x :: x in ours <==> x in multiset(ours);
    assert forall x :: x in mine <==> x in multiset(mine);
  }

  function First(runs: seq<Run>, p: Run -> bool): Option<Run> {
    if runs == [] then None else if p(runs[0]) then Some(runs[0]) else First(runs[1..], p)
  }

  function Pick(runs: seq<Run>, repo: string, path: string, p: Run -> bool): Option<Run> {
    First(Ours(runs, repo, path), p)
  }

  /** The newest of this repository's runs of the workflow that `p` asks for: it asks for none that is newer. */
  ghost predicate IsNewest(r: Run, runs: seq<Run>, repo: string, path: string, p: Run -> bool) {
    && r in runs && Mine(r, repo, path) && p(r)
    && forall s :: s in runs && Mine(s, repo, path) && Newer(s.key, r.key) ==> !p(s)
  }

  lemma {:induction false} FirstOf(runs: seq<Run>, p: Run -> bool)
    requires NewestFirst(runs)
    ensures var f := First(runs, p);
            && (f.None? ==> forall s :: s in runs ==> !p(s))
            && (f.Some? ==>
               f.value in runs && p(f.value) && forall s :: s in runs && p(s) ==> !Newer(s.key, f.value.key))
    decreases |runs|
  {
    if runs != [] {
      assert forall s :: s in runs <==> s == runs[0] || s in runs[1..];
      if p(runs[0]) {
        NewerOrder(runs[0].key, runs[0].key, runs[0].key);
        forall s | s in runs && p(s) ensures !Newer(s.key, runs[0].key) { var i :| 0 <= i < |runs| && runs[i] == s; }
      } else {
        FirstOf(runs[1..], p);
      }
    }
  }

  lemma PickIsNewest(runs: seq<Run>, repo: string, path: string, p: Run -> bool)
    ensures var f := Pick(runs, repo, path, p);
            && (f.None? ==> forall s :: s in runs && Mine(s, repo, path) ==> !p(s))
            && (f.Some? ==> IsNewest(f.value, runs, repo, path, p))
  {
    OursOrdered(runs, repo, path);
    FirstOf(Ours(runs, repo, path), p);
  }

  ghost predicate RunIds(runs: seq<Run>) {
    forall r, s :: r in runs && s in runs && r.key.id == s.key.id ==> r == s
  }

  /** There is only one newest run, so picking finds exactly it. */
  lemma PickIff(runs: seq<Run>, repo: string, path: string, p: Run -> bool, r: Run)
    requires RunIds(runs)
    ensures Pick(runs, repo, path, p) == Some(r) <==> IsNewest(r, runs, repo, path, p)
  {
    PickIsNewest(runs, repo, path, p);
    var f := Pick(runs, repo, path, p);
    if f.Some? && IsNewest(r, runs, repo, path, p) { NewerOrder(r.key, f.value.key, r.key); }
  }

  // ---- Evaluating ----

  type Listing = Run -> seq<Check>

  function ChecksOf(listed: Listing, run: Run): Checks { Latest(map[], listed(run)) }

  /** A run that skipped the heavy jobs, or finished without them. */
  predicate Lean(run: Run, checks: Checks) {
    || (forall i :: 0 <= i < |HEAVY| ==> State(checks, HEAVY[i]) == Some("skipped"))
    || (run.status == Some("completed") && forall i :: 0 <= i < |HEAVY| ==> State(checks, HEAVY[i]) == None)
  }

  /** The release whose tag push is asked for. */
  datatype Tagged = Tagged(tag: string, commit: string)

  predicate PushOf(run: Run, t: Tagged) { run.event == "push" && run.branch == t.tag && run.sha == t.commit }

  /** The CI runs that count: the tag's own, or without a tag the heavy ones. */
  function CiRuns(listed: Listing, tag: Option<Tagged>): Run -> bool {
    (run: Run) => if tag.Some? then PushOf(run, tag.value) else !Lean(run, ChecksOf(listed, run))
  }

  function AnyRun(): Run -> bool { (_: Run) => true }

  function Judge(picked: Option<Run>, listed: Listing, names: seq<string>): Outcome {
    if picked.None? then Wait else Verdict(picked.value, ChecksOf(listed, picked.value), names)
  }

  function CiResult(runs: seq<Run>, repo: string, listed: Listing, tag: Option<Tagged>): Outcome {
    Judge(Pick(runs, repo, CI, CiRuns(listed, tag)), listed, [CI_OK] + HEAVY)
  }

  function NativeResult(runs: seq<Run>, repo: string, listed: Listing): Outcome {
    Judge(Pick(runs, repo, NATIVE, AnyRun()), listed, [NATIVE_OK])
  }

  function Combine(results: seq<Outcome>): Outcome {
    if Fail in results then Fail else if Wait in results then Wait else Pass
  }

  function Evaluated(runs: seq<Run>, repo: string, listed: Listing, tag: Option<Tagged>): Outcome {
    Combine([CiResult(runs, repo, listed, tag), NativeResult(runs, repo, listed)])
  }

  /** The newest CI run that is not known to have skipped heavy work. */
  method HeavyCiRun(runs: seq<Run>, repo: string, listed: Listing) returns (r: Option<Run>)
    ensures r == Pick(runs, repo, CI, CiRuns(listed, None))
  {
    var ours := Ours(runs, repo, CI);
    for i := 0 to |ours|
      invariant First(ours[i..], CiRuns(listed, None)) == First(ours, CiRuns(listed, None))
    {
      assert ours[i..][0] == ours[i] && ours[i..][1..] == ours[i + 1..];
      var checks := CheckRuns(listed(ours[i]));
      if !Lean(ours[i], checks) { return Some(ours[i]); }
    }
    assert ours[|ours|..] == [];
    r := None;
  }

  /** The newest CI run among those of the push of this tag. */
  method TagCiRun(runs: seq<Run>, repo: string, listed: Listing, tag: Tagged) returns (r: Option<Run>)
    ensures r == Pick(runs, repo, CI, CiRuns(listed, Some(tag)))
  {
    var ours := Ours(runs, repo, CI);
    for i := 0 to |ours|
      invariant First(ours[i..], CiRuns(listed, Some(tag))) == First(ours, CiRuns(listed, Some(tag)))
    {
      assert ours[i..][0] == ours[i] && ours[i..][1..] == ours[i + 1..];
      if PushOf(ours[i], tag) { return Some(ours[i]); }
    }
    assert ours[|ours|..] == [];
    r := None;
  }

  method Evaluate(runs: seq<Run>, repo: string, listed: Listing, tag: Option<Tagged>) returns (r: Outcome)
    ensures r == Evaluated(runs, repo, listed, tag)
  {
    var results: seq<Outcome> := [];
    var ci;
    if tag.Some? { ci := TagCiRun(runs, repo, listed, tag.value); } else { ci := HeavyCiRun(runs, repo, listed); }
    results := results + [Judge(ci, listed, [CI_OK] + HEAVY)];
    var native := Ours(runs, repo, NATIVE);
    if native == [] {
      results := results + [Wait];
    } else {
      var checks := CheckRuns(listed(native[0]));
      results := results + [Verdict(native[0], checks, [NATIVE_OK])];
    }
    r := Combine(results);
  }

  // ---- What a verdict rests on ----

  /** A run passes when each of the named check runs that count succeeded. */
  ghost predicate Succeeded(run: Run, listed: Listing, names: seq<string>) { AllSucceed(ChecksOf(listed, run), names) }

  lemma JudgePass(runs: seq<Run>, repo: string, path: string, p: Run -> bool, listed: Listing, names: seq<string>)
    requires RunIds(runs)
    ensures Judge(Pick(runs, repo, path, p), listed, names) == Pass
       <==> exists r :: IsNewest(r, runs, repo, path, p) && Succeeded(r, listed, names)
  {
    var f := Pick(runs, repo, path, p);
    PickIsNewest(runs, repo, path, p);
    forall r | IsNewest(r, runs, repo, path, p) ensures f == Some(r) { PickIff(runs, repo, path, p, r); }
  }

  /**
   * The gate passes exactly when the newest CI run that counts has all its checks, every newer one being
   * lean or not this tag's, and the newest native run has its own.
   */
  lemma PassIff(runs: seq<Run>, repo: string, listed: Listing, tag: Option<Tagged>)
    requires RunIds(runs)
    ensures Evaluated(runs, repo, listed, tag) == Pass <==>
            && (exists r :: IsNewest(r, runs, repo, CI, CiRuns(listed, tag)) && Succeeded(r, listed, [CI_OK] + HEAVY))
            && (exists r :: IsNewest(r, runs, repo, NATIVE, AnyRun()) && Succeeded(r, listed, [NATIVE_OK]))
  {
    JudgePass(runs, repo, CI, CiRuns(listed, tag), listed, [CI_OK] + HEAVY);
    JudgePass(runs, repo, NATIVE, AnyRun(), listed, [NATIVE_OK]);
    var ci, native := CiResult(runs, repo, listed, tag), NativeResult(runs, repo, listed);
    assert [ci, native][0] == ci && [ci, native][1] == native;
  }

  /** No older success hides a failure of the newest run that counts. */
  lemma NewestFailureFails(runs: seq<Run>, repo: string, listed: Listing, tag: Option<Tagged>, r: Run)
    requires RunIds(runs) && IsNewest(r, runs, repo, CI, CiRuns(listed, tag))
    requires Verdict(r, ChecksOf(listed, r), [CI_OK] + HEAVY) == Fail
    ensures Evaluated(runs, repo, listed, tag) == Fail
  {
    PickIff(runs, repo, CI, CiRuns(listed, tag), r);
    var ci, native := CiResult(runs, repo, listed, tag), NativeResult(runs, repo, listed);
    assert [ci, native][0] == ci;
  }

  // ---- Order and age ----

  /** What is picked depends on which runs there are, not on their order, nor on runs older than it. */
  lemma PickSame(a: seq<Run>, b: seq<Run>, repo: string, path: string, p: Run -> bool, q: Run -> bool)
    requires RunIds(a) && RunIds(b)
    requires forall r :: r in a && Mine(r, repo, path) ==> r in b && p(r) == q(r)
    requires var f := Pick(a, repo, path, p);
             forall r :: r in b && Mine(r, repo, path) && r !in a ==> f.Some? && Newer(f.value.key, r.key)
    ensures Pick(b, repo, path, q) == Pick(a, repo, path, p)
  {
    var f := Pick(a, repo, path, p);
    PickIsNewest(a, repo, path, p);
    PickIsNewest(b, repo, path, q);
    if f.Some? {
      forall s | s in b && Mine(s, repo, path) && Newer(s.key, f.value.key) ensures !q(s) {
        if s !in a { NewerOrder(s.key, f.value.key, s.key); }
      }
      assert IsNewest(f.value, b, repo, path, q);
      PickIff(b, repo, path, q, f.value);
    }
  }

  /** The gate does not depend on the order in which runs and check runs are listed. */
  lemma Unordered(a: seq<Run>, b: seq<Run>, repo: string, listed: Listing, relisted: Listing, tag: Option<Tagged>)
    requires RunIds(a) && SameElements(a, b)
    requires forall r :: r in a ==> CheckIds(listed(r)) && SameElements(listed(r), relisted(r))
    ensures Evaluated(a, repo, listed, tag) == Evaluated(b, repo, relisted, tag)
  {
    forall r | r in a ensures ChecksOf(listed, r) == ChecksOf(relisted, r) { LatestUnordered(listed(r), relisted(r)); }
    PickSame(a, b, repo, CI, CiRuns(listed, tag), CiRuns(relisted, tag));
    PickSame(a, b, repo, NATIVE, AnyRun(), AnyRun());
    PickIsNewest(a, repo, CI, CiRuns(listed, tag));
    PickIsNewest(a, repo, NATIVE, AnyRun());
  }

  /** Runs of each workflow older than the one picked change nothing, whatever they did. */
  lemma OlderIgnored(runs: seq<Run>, more: seq<Run>, repo: string, listed: Listing, tag: Option<Tagged>)
    requires RunIds(runs + more)
    requires forall r :: r in more && Mine(r, repo, CI) ==>
               var f := Pick(runs, repo, CI, CiRuns(listed, tag)); f.Some? && Newer(f.value.key, r.key)
    requires forall r :: r in more && Mine(r, repo, NATIVE) ==>
               var f := Pick(runs, repo, NATIVE, AnyRun()); f.Some? && Newer(f.value.key, r.key)
    ensures Evaluated(runs + more, repo, listed, tag) == Evaluated(runs, repo, listed, tag)
  {
    PickSame(runs, runs + more, repo, CI, CiRuns(listed, tag), CiRuns(listed, tag));
    PickSame(runs, runs + more, repo, NATIVE, AnyRun(), AnyRun());
  }
}
