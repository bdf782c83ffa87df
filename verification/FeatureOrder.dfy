/**
 * A workspace where the order of features on the command line decides what is enabled. A dependency whose
 * own key starts with `dep:` lets one entry be read in two ways: as naming a dependency when its feature is
 * enabled, and as waiting for one when that dependency is enabled later.
 */
module FeatureOrder {
  import opened Search
  import opened FeatureRules
  import opened FeatureClosure
  import opened FeatureResolver

  /** A key is the name of the workspace member it depends on. */
  const KEY := "dep:b"
  const WAITING := "dep:b?/x"
  const ENABLING := "dep:dep:b"
  const PASSING := "bacnet-transport/x"

  /** Feature g1 holds the entry that is read in two ways, and g2 enables the dependency, which passes x on. */
  function Workspace(): Manifests {
    map["a" := Manifest(map["g1" := [WAITING], "g2" := [ENABLING]],
                        map[KEY := Dependency(KEY, true, false, [])],
                        map[KEY := true, "b?/x" := true]),
        KEY := Manifest(map["x" := [PASSING]],
                        map[TRANSPORT := Dependency(TRANSPORT, true, false, [])],
                        map[TRANSPORT := true]),
        TRANSPORT := Manifest(map["x" := []], map[], map[])]
  }

  /** What loading leaves: no dependency is renamed, and each is among those declared. */
  ghost predicate Loads(m: Manifests) {
    forall p {:trigger Unrenamed(m, p)} :: p in m ==> Unrenamed(m, p)
  }

  ghost predicate Unrenamed(m: Manifests, p: string)
    requires p in m
  {
    forall k :: k in m[p].dependencies ==> m[p].dependencies[k].package == k && k in m[p].allDependencies
  }

  lemma Depends()
    ensures Unrenamed(Workspace(), "a") && Unrenamed(Workspace(), KEY) && Unrenamed(Workspace(), TRANSPORT)
  {
  }

  lemma WorkspaceLoads()
    ensures Loads(Workspace())
  {
    Depends();
    assert Workspace().Keys == {"a", KEY, TRANSPORT};
  }

  lemma SplitWeak(key: string, sub: string)
    requires '?' !in key
    ensures SplitOnce(key + "?/" + sub, "?/") == Some((key, sub))
  {
    var s := key + "?/" + sub;
    forall i | 0 <= i < |key| ensures !OccursAt(s, "?/", i) { assert s[i] == key[i] && s[i..i + 2][0] == s[i]; }
    SplitOnceAt(key, "?/", sub);
  }

  lemma NoWeak(s: string)
    requires '?' !in s
    ensures SplitOnce(s, "?/") == None
  {
    assert forall i {:trigger OccursAt(s, "?/", i)} :: 0 <= i && i + 2 <= |s| && s[i..i + 2][0] == '?' ==> s[i] in s;
    assert "?/"[0] == '?';
  }

  lemma Entries()
    ensures ReadEntry(WAITING) == DepEntry("b?/x") && ReadEntry(ENABLING) == DepEntry(KEY)
    ensures WaitsFor(WAITING, true) == Some((KEY, "x")) && WaitsFor(ENABLING, true) == None
    ensures WaitsFor(WAITING, false) == None && WaitsFor(ENABLING, false) == None
    ensures NamedKey(WAITING) == Some("b?/x") && NamedKey(ENABLING) == Some(KEY)
  {
    assert WAITING == KEY + "?/" + "x" && DEP <= WAITING && WAITING[|DEP|..] == "b?/x";
    assert DEP <= ENABLING && ENABLING[|DEP|..] == KEY;
    SplitWeak(KEY, "x");
    NoWeak(ENABLING);
  }

  lemma SplitStrong(key: string, sub: string)
    requires '/' !in key
    ensures SplitOnce(key + "/" + sub, "/") == Some((key, sub))
  {
    var s := key + "/" + sub;
    forall i | 0 <= i < |key| ensures !OccursAt(s, "/", i) { assert s[i] == key[i] && s[i..i + 1][0] == s[i]; }
    SplitOnceAt(key, "/", sub);
  }

  /** The entry that names the dependency and its feature. */
  lemma Passes()
    ensures ReadEntry(PASSING) == Strong(TRANSPORT, "x") && NamedKey(PASSING) == Some(TRANSPORT)
    ensures WaitsFor(PASSING, true) == None && WaitsFor(PASSING, false) == None
  {
    assert PASSING == TRANSPORT + "/" + "x" && PASSING[0] != DEP[0];
    NoWeak(PASSING);
    SplitStrong(TRANSPORT, "x");
    assert TRANSPORT[|TRANSPORT| - 1] != '?';
  }

  /** What each fact of the workspace enables by itself. */
  function Enables(x: Fact): set<Fact> {
    match x
    case Feat(p, f) =>
      if p == "a" && f == "g2" then {Dep("a", KEY)}
      else if p == KEY && f == "x" then {Dep(KEY, TRANSPORT), Feat(TRANSPORT, "x")}
      else {}
    case Dep(p, k) => {Crate(k)}
    case Crate(_) => {}
  }

  lemma EntryEnables()
    ensures EntryConsequences(Workspace(), "a", WAITING) == {}
    ensures EntryConsequences(Workspace(), "a", ENABLING) == {Dep("a", KEY)}
    ensures !UnknownKey(Workspace()["a"], WAITING) && !UnknownKey(Workspace()["a"], ENABLING)
  {
    Entries();
  }

  lemma PassingEnables()
    ensures EntryConsequences(Workspace(), KEY, PASSING) == {Dep(KEY, TRANSPORT), Feat(TRANSPORT, "x")}
    ensures !UnknownKey(Workspace()[KEY], PASSING)
  {
    Passes();
  }

  /** A feature of one entry enables what the entry does. */
  lemma OneEntry(m: Manifests, p: string, f: string, entry: string)
    requires p in m && f in m[p].features && m[p].features[f] == [entry]
    ensures Consequences(m, Feat(p, f)) == EntryConsequences(m, p, entry)
    ensures Bad(m, Feat(p, f)) <==> UnknownKey(m[p], entry)
  {
    var entries := m[p].features[f];
    assert entries[0] == entry && forall i :: 0 <= i < |entries| ==> entries[i] == entry;
    if UnknownKey(m[p], entry) { assert UnknownKey(m[p], entries[0]); }
    forall c | c in EntryConsequences(m, p, entry) ensures c in Consequences(m, Feat(p, f)) {
      assert c in EntryConsequences(m, p, entries[0]);
    }
  }

  /** The facts that matter here. */
  const ALL := {Crate("a"), Feat("a", DEFAULT), Feat("a", "g1"), Feat("a", "g2"), Dep("a", KEY), Crate(KEY),
                Feat(KEY, "x"), Dep(KEY, TRANSPORT), Crate(TRANSPORT), Feat(TRANSPORT, "x")}

  lemma CrateRules(x: Fact)
    requires x in {Crate("a"), Crate(KEY), Crate(TRANSPORT)}
    ensures Consequences(Workspace(), x) == {} && !Bad(Workspace(), x)
  {
  }

  lemma PlainRules(x: Fact)
    requires x in {Feat("a", DEFAULT), Feat(TRANSPORT, "x")}
    ensures Consequences(Workspace(), x) == {} && !Bad(Workspace(), x)
  {
  }

  lemma DepRules(p: string, k: string)
    requires (p, k) in {("a", KEY), (KEY, TRANSPORT)}
    ensures Consequences(Workspace(), Dep(p, k)) == {Crate(k)} && !Bad(Workspace(), Dep(p, k))
  {
  }

  lemma RulesOfA(f: string)
    requires f in {"g1", "g2"}
    ensures Consequences(Workspace(), Feat("a", f)) == Enables(Feat("a", f)) && !Bad(Workspace(), Feat("a", f))
  {
    EntryEnables();
    OneEntry(Workspace(), "a", f, if f == "g1" then WAITING else ENABLING);
  }

  lemma PassingRules()
    ensures Consequences(Workspace(), Feat(KEY, "x")) == Enables(Feat(KEY, "x")) && !Bad(Workspace(), Feat(KEY, "x"))
  {
    PassingEnables();
    OneEntry(Workspace(), KEY, "x", PASSING);
  }

  lemma Rules(x: Fact)
    requires x in ALL
    ensures Consequences(Workspace(), x) == Enables(x) && !Bad(Workspace(), x)
  {
    match x
    case Crate(_) => CrateRules(x);
    case Dep(p, k) => DepRules(p, k);
    case Feat(p, f) =>
      if p == "a" && f != DEFAULT {
        RulesOfA(f);
      } else if p == KEY {
        PassingRules();
      } else {
        PlainRules(x);
      }
  }

  /** A feature of one entry enables with a dependency what the entry waits for. */
  lemma OneWaiting(m: Manifests, p: string, f: string, k: string, loose: bool, entry: string)
    requires p in m && f in m[p].features && m[p].features[f] == [entry] && k in m[p].dependencies
    ensures WeakConsequences(m, p, f, k, loose) == WaitingFact(m, p, entry, k, loose)
  {
    var entries := m[p].features[f];
    assert entries[0] == entry && forall i :: 0 <= i < |entries| ==> entries[i] == entry;
    forall c | c in WaitingFact(m, p, entry, k, loose) ensures c in WeakConsequences(m, p, f, k, loose) {
      assert c in WaitingFact(m, p, entries[0], k, loose);
    }
  }

  lemma WeakOfA(f: string, k: string, loose: bool)
    ensures WeakConsequences(Workspace(), "a", f, k, loose) ==
            if f == "g1" && k == KEY && loose then {Feat(KEY, "x")} else {}
  {
    if f in {"g1", "g2"} && k == KEY {
      Entries();
      OneWaiting(Workspace(), "a", f, k, loose, if f == "g1" then WAITING else ENABLING);
    }
  }

  lemma WeakOfB(f: string, k: string, loose: bool)
    ensures WeakConsequences(Workspace(), KEY, f, k, loose) == {}
  {
    if f == "x" && k == TRANSPORT {
      Passes();
      OneWaiting(Workspace(), KEY, f, k, loose, PASSING);
    }
  }

  lemma WeakRules(p: string, f: string, k: string, loose: bool)
    ensures WeakConsequences(Workspace(), p, f, k, loose)
         == if p == "a" && f == "g1" && k == KEY && loose then {Feat(KEY, "x")} else {}
  {
    if p == "a" { WeakOfA(f, k, loose); } else if p == KEY { WeakOfB(f, k, loose); }
  }

  /** A set of these facts that holds what each enables is closed. */
  lemma IsClosed(t: set<Fact>)
    requires t <= ALL && forall x {:trigger Enables(x)} :: x in t ==> Enables(x) <= t
    ensures Closed(Workspace(), t, false)
  {
    forall x | x in t ensures Consequences(Workspace(), x) <= t {
      assert Enables(x) <= t;
      Rules(x);
    }
    forall p, f, k ensures WeakConsequences(Workspace(), p, f, k, false) <= t { WeakRules(p, f, k, false); }
  }

  lemma IsBound(known: set<Fact>, t: set<Fact>)
    requires t <= ALL && forall x {:trigger Enables(x)} :: x in t ==> Enables(x) <= t
    requires Dep("a", KEY) in t && Dep("a", KEY) !in known && Feat("a", "g1") in t ==> Feat(KEY, "x") in t
    ensures Bounds(Workspace(), known, t)
  {
    IsClosed(t);
    forall p, k | Dep(p, k) in t && Dep(p, k) !in known ensures ServesLoosely(Workspace(), p, k, t) {
      forall f | Feat(p, f) in t ensures WeakConsequences(Workspace(), p, f, k, true) <= t { WeakRules(p, f, k, true); }
    }
  }

  const FIRST := {Crate("a"), Feat("a", DEFAULT)}
  const WITH_G1 := FIRST + {Feat("a", "g1")}
  const WITH_G2 := FIRST + {Feat("a", "g2"), Dep("a", KEY), Crate(KEY)}
  const WITH_BOTH := WITH_G2 + {Feat("a", "g1")}

  /** Once g2 is enabled, so is the dependency. */
  lemma EnabledByG2()
    ensures Dep("a", KEY) in Reach(Workspace(), "a", ["g2"], false)
  {
    ReachIsLeast(Workspace(), "a", ["g2"], false);
    var t := Reach(Workspace(), "a", ["g2"], false);
    assert "g2" in ["g2"] && Feat("a", "g2") in Roots("a", ["g2"]);
    Rules(Feat("a", "g2"));
    assert Consequences(Workspace(), Feat("a", "g2")) <= t;
  }

  lemma TwoStages(m: Manifests, p: string, f: string, g: string, b0: set<Fact>, b1: set<Fact>, b2: set<Fact>)
    requires Roots(p, []) <= b0 <= b1 <= b2 && Feat(p, f) in b1 && Feat(p, g) in b2
    requires Bounds(m, {}, b0) && Bounds(m, {}, b1) && Bounds(m, Reach(m, p, [f], false), b2)
    ensures StageBounds(m, p, [f, g], [b0, b1, b2])
  {
    var fs, bounds := [f, g], [b0, b1, b2];
    assert fs[..1] == [f];
    BoundsLater(m, {}, Reach(m, p, fs[..0], false), b1);
    forall i | 0 <= i < 2
      ensures bounds[i] <= bounds[i + 1] && Feat(p, fs[i]) in bounds[i + 1] &&
              Bounds(m, Reach(m, p, fs[..i], false), bounds[i + 1])
    {
      if i == 0 { assert bounds[1] == b1; } else { assert i == 1 && bounds[2] == b2; }
    }
  }

  lemma FirstBound()
    ensures Bounds(Workspace(), {}, FIRST) && Bounds(Workspace(), {}, WITH_G1)
  {
    IsBound({}, FIRST);
    IsBound({}, WITH_G1);
  }

  lemma G2Bound()
    ensures Bounds(Workspace(), {}, WITH_G2)
  {
    IsBound({}, WITH_G2);
  }

  lemma BothBound(known: set<Fact>)
    requires Dep("a", KEY) in known
    ensures Bounds(Workspace(), known, WITH_BOTH)
  {
    IsBound(known, WITH_BOTH);
  }

  lemma BoundsOfG1G2()
    ensures StageBounds(Workspace(), "a", ["g1", "g2"], [FIRST, WITH_G1, ALL])
  {
    FirstBound();
    IsBound(Reach(Workspace(), "a", ["g1"], false), ALL);
    TwoStages(Workspace(), "a", "g1", "g2", FIRST, WITH_G1, ALL);
  }

  lemma BoundsOfG2G1()
    ensures StageBounds(Workspace(), "a", ["g2", "g1"], [FIRST, WITH_G2, WITH_BOTH])
  {
    EnabledByG2();
    FirstBound();
    G2Bound();
    BothBound(Reach(Workspace(), "a", ["g2"], false));
    TwoStages(Workspace(), "a", "g2", "g1", FIRST, WITH_G2, WITH_BOTH);
  }

  /** Features g1 and then g2 enable x on the transport crate; */
  method WaitingFirst() returns (r: Resolution)
    ensures r == Resolved({"x"})
  {
    BoundsOfG1G2();
    ghost var stages;
    r, stages := Resolve(Workspace(), "a", ["g1", "g2"], [FIRST, WITH_G1, ALL]);
    forall x | x in ALL ensures !Bad(Workspace(), x) { Rules(x); }
    assert r.Resolved?;
    ServedByG2(stages);
    assert forall f :: Feat(TRANSPORT, f) in ALL ==> f == "x";
  }

  lemma ServedByG2(stages: seq<set<Fact>>)
    requires Staged(Workspace(), "a", ["g1", "g2"], [FIRST, WITH_G1, ALL], stages)
    ensures Feat(TRANSPORT, "x") in stages[2] && stages[2] <= ALL
  {
    TwoStagesDone(Workspace(), "a", "g1", "g2", FIRST, WITH_G1, ALL, stages);
    Rules(Feat("a", "g2"));
    WeakRules("a", "g1", KEY, true);
    LaterServes(Workspace(), "a", "g1", "g2", KEY, stages[1], stages[2]);
    PassingRules();
    PassedOn(Workspace(), Feat(KEY, "x"), Feat(TRANSPORT, "x"), stages[2]);
  }

  lemma PassedOn(m: Manifests, x: Fact, y: Fact, b: set<Fact>)
    requires Grew(m, {}, b) && x in b && y in Consequences(m, x)
    ensures y in b
  {
    assert Consequences(m, x) <= b;
  }

  lemma TwoStagesDone(m: Manifests, p: string, f: string, g: string, b0: set<Fact>, b1: set<Fact>, b2: set<Fact>,
                      stages: seq<set<Fact>>)
    requires Staged(m, p, [f, g], [b0, b1, b2], stages)
    ensures Grew(m, stages[1], stages[2]) && Grew(m, {}, stages[2]) && stages[1] <= b1 && stages[2] <= b2
    ensures Feat(p, f) in stages[1] && Feat(p, g) in stages[2]
  {
    var fs, bounds := [f, g], [b0, b1, b2];
    assert StageAt(m, p, fs, bounds, stages, 1) && StageAt(m, p, fs, bounds, stages, 2);
    assert fs[..1] == [f] && fs[..2] == fs && f in [f] && g in fs;
    assert bounds[1] == b1 && bounds[2] == b2;
  }

  /** A dependency that a later feature enables serves an earlier one. */
  lemma LaterServes(m: Manifests, p: string, f: string, g: string, k: string, a: set<Fact>, b: set<Fact>)
    requires Grew(m, a, b) && Grew(m, {}, b) && Feat(p, f) in a && Feat(p, g) in b
    requires Dep(p, k) in Consequences(m, Feat(p, g)) && Dep(p, k) !in a
    ensures WeakConsequences(m, p, f, k, true) <= b
  {
    assert Consequences(m, Feat(p, g)) <= b;
  }

  /** g2 and then g1 do not. */
  method EnablingFirst() returns (r: Resolution)
    ensures r == Resolved({})
  {
    BoundsOfG2G1();
    ghost var stages;
    r, stages := Resolve(Workspace(), "a", ["g2", "g1"], [FIRST, WITH_G2, WITH_BOTH]);
    forall x | x in WITH_BOTH ensures !Bad(Workspace(), x) { Rules(x); }
    assert r.Resolved?;
    assert StageAt(Workspace(), "a", ["g2", "g1"], [FIRST, WITH_G2, WITH_BOTH], stages, 2);
    assert forall f :: Feat(TRANSPORT, f) !in WITH_BOTH;
  }
}
