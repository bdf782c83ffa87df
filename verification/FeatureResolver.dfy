/**
 * Cargo feature resolution over workspace manifests: a depth-first search that grows three sets until they
 * hold the least closed set of facts.
 */
module FeatureResolver {
  import opened Search
  import opened FeatureRules
  import opened FeatureClosure

  // ---- One entry at a time ----

  /** Everything `entry` asks for, alone or with an enabled dependency, is in `t`. */
  ghost predicate EntryDone(m: Manifests, p: string, entry: string, t: set<Fact>)
    requires p in m
  {
    && EntryConsequences(m, p, entry) <= t
    && forall k :: k in m[p].dependencies && Dep(p, k) in t ==> WaitingFact(m, p, entry, k, false) <= t
  }

  /** The first `n` entries of feature `f` are done. */
  ghost predicate EntriesDone(m: Manifests, p: string, f: string, n: nat, t: set<Fact>)
    requires p in m && f in m[p].features && n <= |m[p].features[f]|
  {
    forall j {:trigger EntryDone(m, p, m[p].features[f][j], t)} :: 0 <= j < n ==>
      EntryDone(m, p, m[p].features[f][j], t)
  }

  lemma EntriesNext(m: Manifests, p: string, f: string, n: nat, t: set<Fact>)
    requires p in m && f in m[p].features && n < |m[p].features[f]|
    requires EntriesDone(m, p, f, n, t) && EntryDone(m, p, m[p].features[f][n], t)
    ensures EntriesDone(m, p, f, n + 1, t)
  {
  }

  /** The first `n` entries name no unknown key. */
  ghost predicate KeysKnown(manifest: Manifest, entries: seq<string>, n: nat)
    requires n <= |entries|
  {
    forall j {:trigger UnknownKey(manifest, entries[j])} :: 0 <= j < n ==> !UnknownKey(manifest, entries[j])
  }

  /** A finished call keeps the entries done, though it may enable dependencies they wait for. */
  lemma EntriesStayDone(m: Manifests, p: string, f: string, n: nat, a: set<Fact>, b: set<Fact>)
    requires p in m && f in m[p].features && n <= |m[p].features[f]|
    requires Feat(p, f) in a && EntriesDone(m, p, f, n, a) && Grew(m, a, b)
    ensures EntriesDone(m, p, f, n, b)
  {
    forall j | 0 <= j < n ensures EntryDone(m, p, m[p].features[f][j], b) {
      var entry := m[p].features[f][j];
      assert EntryDone(m, p, entry, a);
      forall k | k in m[p].dependencies && Dep(p, k) in b ensures WaitingFact(m, p, entry, k, false) <= b {
        if Dep(p, k) !in a {
          assert WaitingFact(m, p, entry, k, false) <= WeakConsequences(m, p, f, k, false) <= b;
        }
      }
    }
  }

  lemma FeatureDone(m: Manifests, a: set<Fact>, p: string, f: string, c: set<Fact>)
    requires p in m && f in m[p].features && Grew(m, a + {Feat(p, f)}, c)
    requires EntriesDone(m, p, f, |m[p].features[f]|, c)
    requires KeysKnown(m[p], m[p].features[f], |m[p].features[f]|)
    ensures Grew(m, a, c)
  {
    var entries := m[p].features[f];
    forall x | x in Consequences(m, Feat(p, f)) ensures x in c {
      var i :| 0 <= i < |entries| && x in EntryConsequences(m, p, entries[i]);
      assert EntryDone(m, p, entries[i], c);
    }
    forall k | Dep(p, k) in c ensures WeakConsequences(m, p, f, k, false) <= c {
      forall x | x in WeakConsequences(m, p, f, k, false) ensures x in c {
        var i :| 0 <= i < |entries| && x in WaitingFact(m, p, entries[i], k, false);
        assert EntryDone(m, p, entries[i], c);
      }
    }
    ComposeNew(m, a, Feat(p, f), c);
  }

  /** `bound` is closed, so it holds what an enabled feature's entry asks for. */
  lemma EntryBound(m: Manifests, p: string, f: string, n: nat, bound: set<Fact>)
    requires p in m && f in m[p].features && n < |m[p].features[f]|
    requires Closed(m, bound, false) && Feat(p, f) in bound
    ensures EntryConsequences(m, p, m[p].features[f][n]) <= bound
    ensures forall k :: k in m[p].dependencies && Dep(p, k) in bound ==>
              WaitingFact(m, p, m[p].features[f][n], k, false) <= bound
  {
    var entry := m[p].features[f][n];
    assert EntryConsequences(m, p, entry) <= Consequences(m, Feat(p, f));
    forall k | k in m[p].dependencies && Dep(p, k) in bound ensures WaitingFact(m, p, entry, k, false) <= bound {
      assert WaitingFact(m, p, entry, k, false) <= WeakConsequences(m, p, f, k, false);
    }
  }

  lemma WaitingBound(m: Manifests, p: string, f: string, n: nat, k: string, bound: set<Fact>)
    requires p in m && f in m[p].features && n < |m[p].features[f]| && k in m[p].dependencies
    requires ServesLoosely(m, p, k, bound) && Feat(p, f) in bound
    ensures WaitingFact(m, p, m[p].features[f][n], k, true) <= bound
  {
    assert WaitingFact(m, p, m[p].features[f][n], k, true) <= WeakConsequences(m, p, f, k, true);
  }

  lemma CrateBound(m: Manifests, p: string, k: string, bound: set<Fact>)
    requires p in m && k in m[p].dependencies && !m[p].dependencies[k].optional
    requires Closed(m, bound, false) && Crate(p) in bound
    ensures Dep(p, k) in bound
  {
    assert Dep(p, k) in Consequences(m, Crate(p));
  }

  /** What enabling a dependency asks for. */
  ghost predicate DependencyDone(d: Dependency, n: nat, t: set<Fact>)
    requires n <= |d.features|
  {
    && Crate(d.package) in t
    && (d.defaultFeatures ==> Feat(d.package, DEFAULT) in t)
    && forall j :: 0 <= j < n ==> Feat(d.package, d.features[j]) in t
  }

  lemma DependencyBound(m: Manifests, p: string, k: string, bound: set<Fact>)
    requires p in m && k in m[p].dependencies && Closed(m, bound, false) && Dep(p, k) in bound
    ensures DependencyDone(m[p].dependencies[k], |m[p].dependencies[k].features|, bound)
  {
    assert Consequences(m, Dep(p, k)) <= bound;
  }

  /** The features among `known` whose weak entries on `k`, read either way, are done. */
  ghost predicate Served(m: Manifests, p: string, k: string, known: set<string>, t: set<Fact>) {
    forall f {:trigger WeakConsequences(m, p, f, k, true)} :: f in known ==> WeakConsequences(m, p, f, k, true) <= t
  }

  lemma StrictInLoose(m: Manifests, p: string, f: string, k: string)
    ensures WeakConsequences(m, p, f, k, false) <= WeakConsequences(m, p, f, k, true)
  {
    forall c | c in WeakConsequences(m, p, f, k, false) ensures c in WeakConsequences(m, p, f, k, true) {
      var i :| 0 <= i < |m[p].features[f]| && c in WaitingFact(m, p, m[p].features[f][i], k, false);
      assert c in WaitingFact(m, p, m[p].features[f][i], k, true);
    }
  }

  lemma DependencyFinished(m: Manifests, a: set<Fact>, p: string, k: string, known: set<string>, b: set<Fact>,
                           c: set<Fact>)
    requires p in m && k in m[p].dependencies
    requires Grew(m, a + {Dep(p, k)}, b) && Grew(m, b, c)
    requires DependencyDone(m[p].dependencies[k], |m[p].dependencies[k].features|, b)
    requires (forall f :: Feat(p, f) in b ==> f in known) && Served(m, p, k, known, c)
    ensures Grew(m, a, c)
  {
    Compose(m, a + {Dep(p, k)}, b, c);
    forall f | Feat(p, f) in c ensures WeakConsequences(m, p, f, k, false) <= c {
      StrictInLoose(m, p, f, k);
      assert f in known ==> WeakConsequences(m, p, f, k, true) <= c;
      assert f in known || Feat(p, f) !in b;
    }
    forall f | Feat(p, f) in a ensures WeakConsequences(m, p, f, k, true) <= c { assert f in known; }
    ComposeNew(m, a, Dep(p, k), c);
  }

  // ---- The search ----

  datatype Outcome = Ok | Err(culprit: Fact)

  class Resolver {
    const manifests: Manifests
    var crates: set<string>
    var features: set<(string, string)>
    /** A pair is a package and one of its dependency keys. */
    var deps: set<(string, string)>
    /** The three sets as facts. */
    ghost var known: set<Fact>

    constructor (manifests: Manifests)
      ensures this.manifests == manifests && Valid() && known == {}
    {
      this.manifests := manifests;
      crates, features, deps, known := {}, {}, {}, {};
    }

    ghost predicate Valid()
      reads this
    {
      && (forall p :: p in crates <==> Crate(p) in known)
      && (forall p, f :: (p, f) in features <==> Feat(p, f) in known)
      && (forall p, k :: (p, k) in deps <==> Dep(p, k) in known)
    }

    /** What a call on `targets` needs: a set to stay in. */
    ghost predicate Within(bound: set<Fact>, targets: set<Fact>)
      reads this
    {
      Valid() && Bounds(manifests, known, bound) && known <= bound && targets <= bound
    }

    /** What any call leaves: `target`s enabled and their consequences with them, or the bad fact it stopped at. */
    twostate predicate Extended(bound: set<Fact>, r: Outcome, targets: set<Fact>)
      reads this
    {
      && Valid() && old(known) <= known <= bound
      && (r.Ok? ==> Grew(manifests, old(known), known) && targets <= known)
      && (r.Err? ==> r.culprit in known && Bad(manifests, r.culprit))
    }

    method AddCrate(package: string, default: bool, ghost bound: set<Fact>) returns (r: Outcome)
      requires Within(bound, {Crate(package)} + if default then {Feat(package, DEFAULT)} else {})
      modifies this
      ensures Extended(bound, r, {Crate(package)} + if default then {Feat(package, DEFAULT)} else {})
      decreases bound - known, 1
    {
      ghost var start := known;
      if package !in crates {
        r := EnterCrate(package, bound);
        if r.Err? { return; }
      }
      if default {
        ghost var mid := known;
        r := AddFeature(package, DEFAULT, bound);
        if r.Err? { return; }
        Compose(manifests, start, mid, known);
      }
      r := Ok;
    }

    /** The first visit of a crate enables its required dependencies. */
    method EnterCrate(package: string, ghost bound: set<Fact>) returns (r: Outcome)
      requires Within(bound, {Crate(package)}) && package !in crates
      modifies this
      ensures Extended(bound, r, {Crate(package)})
      decreases bound - known, 0
    {
      ghost var start := known;
      crates, known := crates + {package}, known + {Crate(package)};
      ghost var entered := known;
      if package !in manifests { return Err(Crate(package)); }
      var dependencies := manifests[package].dependencies;
      var rest := dependencies.Keys;
      while rest != {}
        invariant rest <= dependencies.Keys && Within(bound, {}) && Grew(manifests, entered, known)
        invariant forall k :: k in dependencies && k !in rest && !dependencies[k].optional ==> Dep(package, k) in known
        decreases rest
      {
        var key :| key in rest;
        rest := rest - {key};
        if !dependencies[key].optional {
          CrateBound(manifests, package, key, bound);
          ghost var mid := known;
          r := AddDependency(package, key, bound);
          if r.Err? { return; }
          Compose(manifests, entered, mid, known);
        }
      }
      ComposeNew(manifests, start, Crate(package), known);
      r := Ok;
    }

    method AddDependency(package: string, key: string, ghost bound: set<Fact>) returns (r: Outcome)
      requires package in manifests
      requires Within(bound, if key in manifests[package].dependencies then {Dep(package, key)} else {})
      modifies this
      ensures Extended(bound, r, if key in manifests[package].dependencies then {Dep(package, key)} else {})
      decreases bound - known, 0
    {
      var manifest := manifests[package];
      if key !in manifest.dependencies { return Ok; }
      var dependency := manifest.dependencies[key];
      if (package, key) in deps { return Ok; }
      ghost var start := known;
      deps, known := deps + {(package, key)}, known + {Dep(package, key)};
      ghost var entered := known;
      r := EnableDependency(package, key, bound);
      if r.Err? { return; }
      ghost var enabled := known;
      // Entries read before may have asked for features of this dependency on the condition that it is there.
      var waiting := set x | x in features && x.0 == package :: x.1;
      r := ServeWaiting(package, key, waiting, bound);
      if r.Err? { return; }
      DependencyFinished(manifests, start, package, key, waiting, enabled, known);
    }

    /** The dependency's crate, its default feature and the features its declaration names. */
    method EnableDependency(package: string, key: string, ghost bound: set<Fact>) returns (r: Outcome)
      requires package in manifests && key in manifests[package].dependencies
      requires Within(bound, {}) && Dep(package, key) in known
      modifies this
      ensures Extended(bound, r, {})
      ensures r.Ok? ==>
              DependencyDone(manifests[package].dependencies[key], |manifests[package].dependencies[key].features|,
                             known)
      decreases bound - known, 2
    {
      var dependency := manifests[package].dependencies[key];
      ghost var start := known;
      DependencyBound(manifests, package, key, bound);
      r := AddCrate(dependency.package, dependency.defaultFeatures, bound);
      if r.Err? { return; }
      for n := 0 to |dependency.features|
        invariant Within(bound, {}) && Grew(manifests, start, known)
        invariant DependencyDone(dependency, n, known)
      {
        ghost var mid := known;
        r := AddFeature(dependency.package, dependency.features[n], bound);
        if r.Err? { return; }
        Compose(manifests, start, mid, known);
      }
      r := Ok;
    }

    method ServeWaiting(package: string, key: string, waiting: set<string>, ghost bound: set<Fact>) returns (r: Outcome)
      requires package in manifests && key in manifests[package].dependencies
      requires Within(bound, {}) && Dep(package, key) in known && ServesLoosely(manifests, package, key, bound)
      requires forall f :: f in waiting ==> Feat(package, f) in known
      modifies this
      ensures Extended(bound, r, {})
      ensures r.Ok? ==> Served(manifests, package, key, waiting, known)
      decreases bound - known, 4
    {
      ghost var start := known;
      var rest := waiting;
      while rest != {}
        invariant rest <= waiting && Within(bound, {}) && Grew(manifests, start, known)
        invariant Served(manifests, package, key, waiting - rest, known)
        decreases rest
      {
        var feature :| feature in rest;
        ghost var mid := known;
        r := ServeFeature(package, key, feature, bound);
        if r.Err? { return; }
        Compose(manifests, start, mid, known);
        rest := rest - {feature};
      }
      r := Ok;
    }

    method ServeFeature(package: string, key: string, feature: string, ghost bound: set<Fact>) returns (r: Outcome)
      requires package in manifests && key in manifests[package].dependencies
      requires Within(bound, {}) && Dep(package, key) in known && ServesLoosely(manifests, package, key, bound)
      requires Feat(package, feature) in known
      modifies this
      ensures Extended(bound, r, {})
      ensures r.Ok? ==> WeakConsequences(manifests, package, feature, key, true) <= known
      decreases bound - known, 3
    {
      var manifest := manifests[package];
      if feature !in manifest.features { return Ok; }
      ghost var start := known;
      var entries := manifest.features[feature];
      for n := 0 to |entries|
        invariant Within(bound, {}) && Grew(manifests, start, known)
        invariant forall j :: 0 <= j < n ==> WaitingFact(manifests, package, entries[j], key, true) <= known
      {
        var w := SplitOnce(entries[n], "?/");
        if w.Some? && w.value.0 == key {
          WaitingBound(manifests, package, feature, n, key, bound);
          assert Feat(manifest.dependencies[key].package, w.value.1)
              in WaitingFact(manifests, package, entries[n], key, true);
          ghost var mid := known;
          r := AddFeature(manifest.dependencies[key].package, w.value.1, bound);
          if r.Err? { return; }
          Compose(manifests, start, mid, known);
        }
      }
      r := Ok;
    }

    method AddFeature(package: string, feature: string, ghost bound: set<Fact>) returns (r: Outcome)
      requires Within(bound, {Feat(package, feature)})
      modifies this
      ensures Extended(bound, r, {Feat(package, feature)})
      decreases bound - known, 0
    {
      if (package, feature) in features { return Ok; }
      ghost var start := known;
      features, known := features + {(package, feature)}, known + {Feat(package, feature)};
      if package !in manifests { return Err(Feat(package, feature)); }
      var manifest := manifests[package];
      if feature !in manifest.features {
        // Nothing is declared under this name: only the two names that need no declaration pass.
        if feature == DEFAULT {
          ComposeNew(manifests, start, Feat(package, feature), known);
          return Ok;
        }
        if feature in manifest.allDependencies && manifest.allDependencies[feature] {
          if feature in manifest.dependencies {
            assert Dep(package, feature) in Consequences(manifests, Feat(package, feature));
          }
          r := AddDependency(package, feature, bound);
          if r.Err? { return; }
          ComposeNew(manifests, start, Feat(package, feature), known);
          return;
        }
        return Err(Feat(package, feature));
      }
      r := AddEntries(package, feature, start, bound);
    }

    method AddEntries(package: string, feature: string, ghost start: set<Fact>, ghost bound: set<Fact>)
        returns (r: Outcome)
      requires package in manifests && feature in manifests[package].features
      requires Within(bound, {}) && known == start + {Feat(package, feature)}
      modifies this
      ensures Extended(bound, r, {Feat(package, feature)})
      ensures r.Ok? ==> Grew(manifests, start, known)
      decreases bound - known, 4
    {
      ghost var entered := known;
      var manifest := manifests[package];
      var entries := manifest.features[feature];
      for n := 0 to |entries|
        invariant Within(bound, {}) && Grew(manifests, entered, known)
        invariant KeysKnown(manifest, entries, n)
        invariant EntriesDone(manifests, package, feature, n, known)
      {
        if UnknownKey(manifest, entries[n]) { return Err(Feat(package, feature)); }
        ghost var mid := known;
        r := AddEntry(package, feature, n, bound);
        if r.Err? { return; }
        Compose(manifests, entered, mid, known);
        EntriesStayDone(manifests, package, feature, n, mid, known);
        EntriesNext(manifests, package, feature, n, known);
      }
      FeatureDone(manifests, start, package, feature, known);
      r := Ok;
    }

    /** One entry of an enabled feature, past the check of the key it names. */
    method AddEntry(package: string, feature: string, n: nat, ghost bound: set<Fact>) returns (r: Outcome)
      requires package in manifests && feature in manifests[package].features &&
               n < |manifests[package].features[feature]|
      requires Within(bound, {}) && Feat(package, feature) in known
      modifies this
      ensures Extended(bound, r, {})
      ensures r.Ok? ==> EntryDone(manifests, package, manifests[package].features[feature][n], known)
      decreases bound - known, 3
    {
      var manifest := manifests[package];
      var entry := manifest.features[feature][n];
      EntryBound(manifests, package, feature, n, bound);
      match ReadEntry(entry)
      case DepEntry(dep) =>
        r := AddDependency(package, dep, bound);
      case Weak(dep, sub) =>
        ghost var start := known;
        if (package, dep) in deps && dep in manifest.dependencies {
          assert Feat(manifest.dependencies[dep].package, sub) in WaitingFact(manifests, package, entry, dep, false);
          r := AddFeature(manifest.dependencies[dep].package, sub, bound);
          if r.Err? { return; }
        } else {
          r := Ok;
        }
        WeakEntryDone(manifests, package, feature, n, start, known);
      case Strong(dep, sub) =>
        if dep in manifest.dependencies {
          ghost var start := known;
          r := AddDependency(package, dep, bound);
          if r.Err? { return; }
          ghost var mid := known;
          r := AddFeature(manifest.dependencies[dep].package, sub, bound);
          if r.Err? { return; }
          Compose(manifests, start, mid, known);
        } else {
          r := Ok;
        }
      case Plain(name) =>
        r := AddFeature(package, name, bound);
    }
  }

  /** A weak entry is done once its dependency, if enabled before, has the feature. */
  lemma WeakEntryDone(m: Manifests, p: string, f: string, n: nat, a: set<Fact>, b: set<Fact>)
    requires p in m && f in m[p].features && n < |m[p].features[f]| && ReadEntry(m[p].features[f][n]).Weak?
    requires Feat(p, f) in a && Grew(m, a, b)
    requires var e := ReadEntry(m[p].features[f][n]);
             e.dep in m[p].dependencies && Dep(p, e.dep) in a ==> Feat(m[p].dependencies[e.dep].package, e.sub) in b
    ensures EntryDone(m, p, m[p].features[f][n], b)
  {
    var entry := m[p].features[f][n];
    forall k | k in m[p].dependencies && Dep(p, k) in b ensures WaitingFact(m, p, entry, k, false) <= b {
      if Dep(p, k) !in a {
        assert WaitingFact(m, p, entry, k, false) <= WeakConsequences(m, p, f, k, false) <= b;
      }
    }
  }

  datatype Resolution = Resolved(features: set<string>) | Failed(culprit: Fact)

  /** A search that finished holds the strict closure, and nothing unknown. */
  lemma ResolvedBetween(m: Manifests, package: string, features: seq<string>, facts: set<Fact>)
    requires Grew(m, {}, facts) && Roots(package, features) <= facts
    ensures Reach(m, package, features, false) <= facts
    ensures forall x :: x in facts ==> !Bad(m, x)
  {
    ReachIsLeast(m, package, features, false);
  }

  /**
   * Sets to stay in before each feature named on the command line, and after the last. Before feature `i`
   * the strict closure of those before it is enabled, so weak entries on its dependencies count strictly.
   */
  ghost predicate StageBounds(m: Manifests, package: string, features: seq<string>, bounds: seq<set<Fact>>) {
    && |bounds| == |features| + 1 && Roots(package, []) <= bounds[0] && Bounds(m, {}, bounds[0])
    && forall i {:trigger features[i]} :: 0 <= i < |features| ==>
         && bounds[i] <= bounds[i + 1] && Feat(package, features[i]) in bounds[i + 1]
         && Bounds(m, Reach(m, package, features[..i], false), bounds[i + 1])
  }

  /** What was enabled before each of those features, and after the last. */
  ghost predicate Staged(m: Manifests, package: string, features: seq<string>, bounds: seq<set<Fact>>,
                         stages: seq<set<Fact>>) {
    |stages| == |bounds| == |features| + 1 && StagedTo(m, package, features, bounds, stages)
  }

  /** The first stages are done. */
  ghost predicate StagedTo(m: Manifests, package: string, features: seq<string>, bounds: seq<set<Fact>>,
                           stages: seq<set<Fact>>) {
    && |stages| <= |bounds| == |features| + 1
    && forall i {:trigger StageAt(m, package, features, bounds, stages, i)} ::
         0 <= i < |stages| ==> StageAt(m, package, features, bounds, stages, i)
  }

  ghost predicate StageAt(m: Manifests, package: string, features: seq<string>, bounds: seq<set<Fact>>,
                          stages: seq<set<Fact>>, i: nat)
    requires i < |stages| <= |bounds| == |features| + 1
  {
    StageDone(m, package, features[..i], stages[i], bounds[i]) && (i > 0 ==> Grew(m, stages[i - 1], stages[i]))
  }

  ghost predicate StageDone(m: Manifests, package: string, features: seq<string>, stage: set<Fact>, bound: set<Fact>) {
    Grew(m, {}, stage) && Roots(package, features) <= stage <= bound
  }

  lemma BoundsLater(m: Manifests, a: set<Fact>, b: set<Fact>, bound: set<Fact>)
    requires Bounds(m, a, bound) && a <= b
    ensures Bounds(m, b, bound)
  {
  }

  lemma RootsStep(package: string, features: seq<string>, i: nat)
    requires i < |features|
    ensures Roots(package, features[..i + 1]) == Roots(package, features[..i]) + {Feat(package, features[i])}
  {
    assert features[..i + 1] == features[..i] + [features[i]];
  }

  /** A stage that is done holds what the next one may count on. */
  lemma StageHolds(m: Manifests, package: string, features: seq<string>, stage: set<Fact>, bound: set<Fact>,
                   next: set<Fact>)
    requires StageDone(m, package, features, stage, bound) && Bounds(m, Reach(m, package, features, false), next)
    ensures Bounds(m, stage, next)
  {
    ResolvedBetween(m, package, features, stage);
    BoundsLater(m, Reach(m, package, features, false), stage, next);
  }

  lemma StageNext(m: Manifests, package: string, features: seq<string>, i: nat,
                  stage: set<Fact>, bound: set<Fact>, next: set<Fact>, nextBound: set<Fact>)
    requires i < |features| && StageDone(m, package, features[..i], stage, bound) && Grew(m, stage, next)
    requires Feat(package, features[i]) in next && next <= nextBound
    ensures StageDone(m, package, features[..i + 1], next, nextBound)
  {
    Compose(m, {}, stage, next);
    RootsStep(package, features, i);
  }

  lemma StagesAppend(m: Manifests, package: string, features: seq<string>, bounds: seq<set<Fact>>,
                     stages: seq<set<Fact>>, next: set<Fact>)
    requires StagedTo(m, package, features, bounds, stages) && |stages| <= |features|
    requires StageDone(m, package, features[..|stages|], next, bounds[|stages|])
    requires stages != [] ==> Grew(m, stages[|stages| - 1], next)
    ensures StagedTo(m, package, features, bounds, stages + [next])
  {
    var all := stages + [next];
    forall i | 0 <= i < |all| ensures StageAt(m, package, features, bounds, all, i) {
      if i < |stages| {
        assert StageAt(m, package, features, bounds, stages, i);
        assert all[i] == stages[i] && (i > 0 ==> all[i - 1] == stages[i - 1]);
      }
    }
  }

  lemma FirstStage(m: Manifests, package: string, features: seq<string>, bounds: seq<set<Fact>>, stage: set<Fact>)
    requires |bounds| == |features| + 1 && Grew(m, {}, stage) && Roots(package, []) <= stage <= bounds[0]
    ensures StagedTo(m, package, features, bounds, [stage])
  {
    assert features[..0] == [] && [] + [stage] == [stage];
    StagesAppend(m, package, features, bounds, [], stage);
  }

  /** The crate with its default features, then each feature named, in order. */
  method Resolve(manifests: Manifests, package: string, features: seq<string>, ghost bounds: seq<set<Fact>>)
      returns (r: Resolution, ghost stages: seq<set<Fact>>)
    requires StageBounds(manifests, package, features, bounds)
    ensures r.Resolved? ==> Staged(manifests, package, features, bounds, stages)
    ensures r.Resolved? ==> forall f :: f in r.features <==> Feat(TRANSPORT, f) in stages[|features|]
    ensures r.Failed? ==> r.culprit in bounds[|features|] && Bad(manifests, r.culprit)
  {
    var state := new Resolver(manifests);
    var outcome := state.AddCrate(package, true, bounds[0]);
    BoundsGrow(manifests, package, features, bounds, 0);
    stages := [state.known];
    if outcome.Err? { return Failed(outcome.culprit), stages; }
    FirstStage(manifests, package, features, bounds, state.known);
    for n := 0 to |features|
      invariant state.Valid() && state.manifests == manifests && |stages| == n + 1 && stages[n] == state.known
      invariant StagedTo(manifests, package, features, bounds, stages)
    {
      BoundsGrow(manifests, package, features, bounds, n + 1);
      outcome, stages := AddRoot(state, package, features, n, bounds, stages);
      if outcome.Err? { return Failed(outcome.culprit), stages; }
    }
    r := Resolved(set x | x in state.features && x.0 == TRANSPORT :: x.1);
    forall f | Feat(TRANSPORT, f) in state.known ensures f in r.features { assert (TRANSPORT, f) in state.features; }
  }

  /** One feature named on the command line. */
  method AddRoot(state: Resolver, package: string, features: seq<string>, n: nat, ghost bounds: seq<set<Fact>>,
                 ghost before: seq<set<Fact>>)
      returns (r: Outcome, ghost stages: seq<set<Fact>>)
    requires n < |features| && state.Valid() && StageBounds(state.manifests, package, features, bounds)
    requires |before| == n + 1 && before[n] == state.known &&
             StagedTo(state.manifests, package, features, bounds, before)
    modifies state
    ensures state.Valid() && state.known <= bounds[n + 1]
    ensures r.Ok? ==> stages == before + [state.known] && StagedTo(state.manifests, package, features, bounds, stages)
    ensures r.Err? ==> r.culprit in bounds[n + 1] && Bad(state.manifests, r.culprit)
  {
    ghost var m, stage := state.manifests, state.known;
    assert StageAt(m, package, features, bounds, before, n);
    assert Feat(package, features[n]) in bounds[n + 1];
    StageHolds(m, package, features[..n], stage, bounds[n], bounds[n + 1]);
    r := state.AddFeature(package, features[n], bounds[n + 1]);
    stages := before + [state.known];
    if r.Ok? {
      StageNext(m, package, features, n, stage, bounds[n], state.known, bounds[n + 1]);
      StagesAppend(m, package, features, bounds, before, state.known);
    }
  }

  lemma {:induction false} BoundsGrow(m: Manifests, package: string, features: seq<string>, bounds: seq<set<Fact>>,
                                      i: nat)
    requires StageBounds(m, package, features, bounds) && i <= |features|
    ensures bounds[i] <= bounds[|features|]
    decreases |features| - i
  {
    if i < |features| {
      assert features[i] == features[i];
      BoundsGrow(m, package, features, bounds, i + 1);
    }
  }

  function Repeat<T>(x: T, n: nat): (r: seq<T>)
    ensures |r| == n && forall i {:trigger r[i]} :: 0 <= i < n ==> r[i] == x
  {
    seq(n, _ => x)
  }

  /** The loose closure bounds every stage. */
  lemma ReachBounds(m: Manifests, package: string, features: seq<string>, bound: set<Fact>)
    requires bound == Reach(m, package, features, true)
    ensures StageBounds(m, package, features, Repeat(bound, |features| + 1))
  {
    ReachIsLeast(m, package, features, true);
    LooseBounds(m, {}, bound);
    forall i | 0 <= i < |features|
      ensures Feat(package, features[i]) in bound && Bounds(m, Reach(m, package, features[..i], false), bound)
    {
      assert Feat(package, features[i]) in Roots(package, features);
      LooseBounds(m, Reach(m, package, features[..i], false), bound);
    }
  }

  /** What the facts found mean: they follow the manifests' texts from the roots, and nothing unknown is among them. */
  ghost predicate IsResolution(m: Manifests, package: string, features: seq<string>, facts: set<Fact>) {
    Follows(m, facts, false) && StartsWith(package, features, facts) && forall x :: x in facts ==> Known(m, x)
  }

  lemma FoundResolution(m: Manifests, package: string, features: seq<string>, facts: set<Fact>)
    requires Grew(m, {}, facts) && Roots(package, features) <= facts
    ensures IsResolution(m, package, features, facts)
  {
    ClosedIff(m, facts, false);
    forall x | x in facts ensures Known(m, x) {
      assert !Bad(m, x);
      BadIff(m, x);
    }
    RootsIff(package, features, facts);
  }

  lemma RootsIff(package: string, features: seq<string>, t: set<Fact>)
    ensures Roots(package, features) <= t <==> StartsWith(package, features, t)
  {
    if Roots(package, features) <= t {
      forall f | f in features ensures Feat(package, f) in t { assert Feat(package, f) in Roots(package, features); }
    }
  }

  /** A closure is inside every set that starts with the roots and follows the texts. */
  lemma ReachLeastByText(m: Manifests, package: string, features: seq<string>, loose: bool, t: set<Fact>)
    requires StartsWith(package, features, t) && Follows(m, t, loose)
    ensures Reach(m, package, features, loose) <= t
  {
    ReachIsLeast(m, package, features, loose);
    ClosedIff(m, t, loose);
    RootsIff(package, features, t);
  }

  /** And it is such a set. */
  lemma ReachByText(m: Manifests, package: string, features: seq<string>, loose: bool)
    ensures StartsWith(package, features, Reach(m, package, features, loose))
    ensures Follows(m, Reach(m, package, features, loose), loose)
  {
    var r := Reach(m, package, features, loose);
    ReachIsLeast(m, package, features, loose);
    ClosedIff(m, r, loose);
    RootsIff(package, features, r);
  }

  /** What one build switches on in the transport crate, as the names of its features. */
  method TransportFeatures(manifests: Manifests, package: string, features: seq<string>)
      returns (r: Resolution, ghost facts: set<Fact>)
    ensures r.Resolved? ==> forall f :: f in r.features <==> Feat(TRANSPORT, f) in facts
    ensures r.Resolved? ==>
            Reach(manifests, package, features, false) <= facts <= Reach(manifests, package, features, true)
    ensures r.Resolved? ==> IsResolution(manifests, package, features, facts)
    ensures r.Failed? ==> r.culprit in Reach(manifests, package, features, true) && !Known(manifests, r.culprit)
    // Where no odd entry matters, it finds the least closure and fails exactly when that holds a bad fact.
    ensures Settled(manifests, Reach(manifests, package, features, false)) ==>
              && (r.Resolved? ==> facts == Reach(manifests, package, features, false))
              && (r.Failed? <==> exists x :: x in Reach(manifests, package, features, false) && !Known(manifests, x))
  {
    ghost var bound := Reach(manifests, package, features, true);
    ReachUniqueIff(manifests, package, features);
    ReachBounds(manifests, package, features, bound);
    ghost var stages;
    r, stages := Resolve(manifests, package, features, Repeat(bound, |features| + 1));
    if r.Resolved? {
      facts := stages[|features|];
      assert StageAt(manifests, package, features, Repeat(bound, |features| + 1), stages, |features|);
      assert features[..|features|] == features;
      ResolvedBetween(manifests, package, features, facts);
      FoundResolution(manifests, package, features, facts);
    } else {
      facts := {};
      BadIff(manifests, r.culprit);
    }
  }
}
