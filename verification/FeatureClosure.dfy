/**
 * What a resolution is closed under, fact by fact, and the least set that is. A search is nowhere closed
 * while it recurses; what every call adds is `ClosedBeyond` what it found: each rule instance that uses a
 * fact the call added has its conclusion. That relation composes, and from the empty set it is closure.
 * `ClosedIff` and `BadIff` say that these rules are those of the manifests' texts.
 */
module FeatureClosure {
  import opened Search
  import opened FeatureRules

  const DEFAULT := "default"
  const DEP := "dep:"
  const TRANSPORT := "bacnet-transport"

  // ---- Feature entries ----

  datatype Entry = DepEntry(key: string) | Weak(dep: string, sub: string) | Strong(dep: string, sub: string)
                 | Plain(name: string)

  /** How enabling a feature treats one of its entries. */
  function ReadEntry(entry: string): Entry {
    if DEP <= entry then DepEntry(entry[|DEP|..])
    else match SplitOnce(entry, "?/")
      case Some((dep, sub)) => Weak(dep, sub)
      case None =>
        match SplitOnce(entry, "/")
        case Some((dep, sub)) => Strong(dep, sub)
        case None => Plain(entry)
  }

  function TrimQuestion(s: string): (r: string)
    ensures r <= s && (r != [] ==> r[|r| - 1] != '?')
  {
    if s != [] && s[|s| - 1] == '?' then TrimQuestion(s[..|s| - 1]) else s
  }

  /** The dependency key an entry names, which must be one the manifest declares. */
  function NamedKey(entry: string): Option<string> {
    if DEP <= entry then Some(entry[|DEP|..])
    else match SplitOnce(entry, "/")
      case Some((dep, _)) => Some(TrimQuestion(dep))
      case None => None
  }

  /** What a weak entry (`dep?/feature`) waits for: read without looking for `dep:` when `loose`. */
  function WaitsFor(entry: string, loose: bool): Option<(string, string)> {
    if !loose && DEP <= entry then None else SplitOnce(entry, "?/")
  }

  // ---- What a resolution is closed under ----

  /** What one entry of an enabled feature of `p` enables by itself; a weak entry enables nothing. */
  function EntryConsequences(m: Manifests, p: string, entry: string): set<Fact>
    requires p in m
  {
    var deps := m[p].dependencies;
    match ReadEntry(entry)
    case DepEntry(k) => if k in deps then {Dep(p, k)} else {}
    case Weak(_, _) => {}
    case Strong(k, sub) => if k in deps then {Dep(p, k), Feat(deps[k].package, sub)} else {}
    case Plain(name) => {Feat(p, name)}
  }

  /** An optional dependency's key is a feature when none of that name is declared. */
  predicate Implicit(m: Manifests, p: string, f: string)
    requires p in m
  {
    f !in m[p].features && f != DEFAULT && f in m[p].allDependencies && m[p].allDependencies[f]
  }

  /** What `fact` enables by itself. */
  ghost function Consequences(m: Manifests, fact: Fact): set<Fact> {
    if fact.package !in m then {}
    else
      var manifest := m[fact.package];
      match fact
      case Crate(p) =>
        set k | k in manifest.dependencies && !manifest.dependencies[k].optional :: Dep(p, k)
      case Feat(p, f) =>
        if f in manifest.features then
          set i, c | 0 <= i < |manifest.features[f]| && c in EntryConsequences(m, p, manifest.features[f][i]) :: c
        else if Implicit(m, p, f) && f in manifest.dependencies then {Dep(p, f)}
        else {}
      case Dep(p, k) =>
        if k in manifest.dependencies then
          var d := manifest.dependencies[k];
          {Crate(d.package)} + (if d.defaultFeatures then {Feat(d.package, DEFAULT)} else {})
          + (set i | 0 <= i < |d.features| :: Feat(d.package, d.features[i]))
        else {}
  }

  /** What a weak entry enables once `p`'s dependency `k` is enabled. */
  function WaitingFact(m: Manifests, p: string, entry: string, k: string, loose: bool): set<Fact>
    requires p in m && k in m[p].dependencies
  {
    var w := WaitsFor(entry, loose);
    if w.Some? && w.value.0 == k then {Feat(m[p].dependencies[k].package, w.value.1)} else {}
  }

  /** What an enabled feature and an enabled dependency enable together. */
  ghost function WeakConsequences(m: Manifests, p: string, f: string, k: string, loose: bool): set<Fact> {
    if p in m && f in m[p].features && k in m[p].dependencies then
      set i, c | 0 <= i < |m[p].features[f]| && c in WaitingFact(m, p, m[p].features[f][i], k, loose) :: c
    else {}
  }

  /** Every rule instance over `b` with a premise outside `a` has its conclusions in `b`. */
  ghost predicate ClosedBeyond(m: Manifests, a: set<Fact>, b: set<Fact>, loose: bool) {
    && (forall x {:trigger Consequences(m, x)} :: x in b && x !in a ==> Consequences(m, x) <= b)
    && (forall p, f, k {:trigger WeakConsequences(m, p, f, k, loose)} ::
          Feat(p, f) in b && Dep(p, k) in b && (Feat(p, f) !in a || Dep(p, k) !in a)
          ==> WeakConsequences(m, p, f, k, loose) <= b)
  }

  ghost predicate Closed(m: Manifests, t: set<Fact>, loose: bool) {
    ClosedBeyond(m, {}, t, loose)
  }

  /** Every weak entry that waits for `p`'s dependency `k`, read either way, is served in `t`. */
  ghost predicate ServesLoosely(m: Manifests, p: string, k: string, t: set<Fact>) {
    forall f {:trigger WeakConsequences(m, p, f, k, true)} :: Feat(p, f) in t ==>
      WeakConsequences(m, p, f, k, true) <= t
  }

  /** A set a search that found `t` stays inside: closed, and loosely so for dependencies it has yet to enable. */
  ghost predicate Bounds(m: Manifests, t: set<Fact>, bound: set<Fact>) {
    && Closed(m, bound, false)
    && forall p, k {:trigger Dep(p, k)} :: Dep(p, k) in bound && Dep(p, k) !in t ==> ServesLoosely(m, p, k, bound)
  }

  lemma LooseBounds(m: Manifests, t: set<Fact>, bound: set<Fact>)
    requires Closed(m, bound, true)
    ensures Bounds(m, t, bound)
  {
    LooseIsStrict(m, bound);
  }

  /** A fact that no workspace can satisfy: an unknown package, feature or dependency key. */
  ghost predicate Bad(m: Manifests, fact: Fact) {
    match fact
    case Crate(p) => p !in m
    case Feat(p, f) =>
      p !in m
      || (f !in m[p].features && f != DEFAULT && !Implicit(m, p, f))
      || (f in m[p].features && exists i :: 0 <= i < |m[p].features[f]| && UnknownKey(m[p], m[p].features[f][i]))
    case Dep(p, k) => false
  }

  predicate UnknownKey(manifest: Manifest, entry: string) {
    var key := NamedKey(entry);
    key.Some? && key.value !in manifest.allDependencies
  }

  /** No `dep:` entry can also be taken for a weak entry on a declared workspace dependency. */
  ghost predicate WellKeyed(m: Manifests) {
    forall p, f, i :: p in m && f in m[p].features && 0 <= i < |m[p].features[f]| ==>
      PlainKeys(m[p], m[p].features[f][i])
  }

  predicate PlainKeys(manifest: Manifest, entry: string) {
    var w := WaitsFor(entry, true);
    DEP <= entry && w.Some? ==> w.value.0 !in manifest.dependencies
  }

  // ---- The relation composes ----

  /** Features known before a dependency was added are served loosely: their weak entries waited for it. */
  ghost predicate ServedLater(m: Manifests, a: set<Fact>, b: set<Fact>) {
    forall p, f, k {:trigger WeakConsequences(m, p, f, k, true)} ::
      Feat(p, f) in a && Dep(p, k) in b && Dep(p, k) !in a ==> WeakConsequences(m, p, f, k, true) <= b
  }

  /** What a finished call leaves: everything it added is closed and sound. */
  ghost predicate Grew(m: Manifests, a: set<Fact>, b: set<Fact>) {
    && a <= b
    && ClosedBeyond(m, a, b, false) && ServedLater(m, a, b)
    && (forall x {:trigger Bad(m, x)} :: x in b && x !in a ==> !Bad(m, x))
  }

  lemma Compose(m: Manifests, a: set<Fact>, b: set<Fact>, c: set<Fact>)
    requires Grew(m, a, b) && Grew(m, b, c)
    ensures Grew(m, a, c)
  {
    forall p, f, k | Feat(p, f) in a && Dep(p, k) in c && Dep(p, k) !in a
      ensures WeakConsequences(m, p, f, k, true) <= c
    {
      assert Dep(p, k) in b ==> WeakConsequences(m, p, f, k, true) <= b;
    }
  }

  /** A new fact that is sound and whose rule instances are closed joins what its call added. */
  lemma ComposeNew(m: Manifests, a: set<Fact>, fact: Fact, c: set<Fact>)
    requires Grew(m, a + {fact}, c) && !Bad(m, fact) && Consequences(m, fact) <= c
    requires forall k :: fact.Feat? && Dep(fact.package, k) in c ==>
               WeakConsequences(m, fact.package, fact.feature, k, false) <= c
    requires forall f :: fact.Dep? && Feat(fact.package, f) in c ==>
               WeakConsequences(m, fact.package, f, fact.key, false) <= c
    requires forall f :: fact.Dep? && Feat(fact.package, f) in a ==>
               WeakConsequences(m, fact.package, f, fact.key, true) <= c
    ensures Grew(m, a, c)
  {
    forall p, f, k | Feat(p, f) in c && Dep(p, k) in c && (Feat(p, f) !in a || Dep(p, k) !in a)
      ensures WeakConsequences(m, p, f, k, false) <= c
    {
      if fact != Feat(p, f) && fact != Dep(p, k) {
        assert Feat(p, f) !in a + {fact} || Dep(p, k) !in a + {fact};
      }
    }
    forall p, f, k | Feat(p, f) in a && Dep(p, k) in c && Dep(p, k) !in a
      ensures WeakConsequences(m, p, f, k, true) <= c
    {
      if fact != Dep(p, k) { assert Dep(p, k) !in a + {fact}; }
    }
  }

  lemma LooseIsStrict(m: Manifests, t: set<Fact>)
    requires Closed(m, t, true)
    ensures Closed(m, t, false)
  {
    forall p, f, k | Feat(p, f) in t && Dep(p, k) in t ensures WeakConsequences(m, p, f, k, false) <= t {
      forall c | c in WeakConsequences(m, p, f, k, false) ensures c in WeakConsequences(m, p, f, k, true) {
        var i :| 0 <= i < |m[p].features[f]| && c in WaitingFact(m, p, m[p].features[f][i], k, false);
        assert c in WaitingFact(m, p, m[p].features[f][i], k, true);
      }
    }
  }

  lemma StrictIsLoose(m: Manifests, t: set<Fact>)
    requires WellKeyed(m) && Closed(m, t, false)
    ensures Closed(m, t, true)
  {
    forall p, f, k | Feat(p, f) in t && Dep(p, k) in t ensures WeakConsequences(m, p, f, k, true) <= t {
      forall c | c in WeakConsequences(m, p, f, k, true) ensures c in WeakConsequences(m, p, f, k, false) {
        var i :| 0 <= i < |m[p].features[f]| && c in WaitingFact(m, p, m[p].features[f][i], k, true);
        assert PlainKeys(m[p], m[p].features[f][i]);
        assert c in WaitingFact(m, p, m[p].features[f][i], k, false);
      }
    }
  }

  // ---- A finite universe, and the least closed set inside it ----

  function Set<T>(s: seq<T>): set<T> { set x | x in s }

  /** The names an entry can enable or ask for. */
  function EntryNames(entry: string): set<string> {
    var weak := WaitsFor(entry, true);
    (match ReadEntry(entry)
     case DepEntry(k) => {k}
     case Weak(k, sub) => {k, sub}
     case Strong(k, sub) => {k, sub}
     case Plain(name) => {name})
    + (if weak.Some? then {weak.value.0, weak.value.1} else {})
  }

  function DependencyNames(d: Dependency): set<string> {
    {d.package} + Set(d.features)
  }

  ghost function Names(m: Manifests, package: string, features: seq<string>): set<string> {
    {package, DEFAULT} + Set(features) + m.Keys
    + (set p, f, i, n | p in m && f in m[p].features && 0 <= i < |m[p].features[f]| &&
         n in EntryNames(m[p].features[f][i]) :: n)
    + (set p, k | p in m && k in m[p].dependencies :: k)
    + (set p, k, n | p in m && k in m[p].dependencies && n in DependencyNames(m[p].dependencies[k]) :: n)
  }

  ghost function AllFacts(names: set<string>): set<Fact> {
    (set a | a in names :: Crate(a))
    + (set a, b | a in names && b in names :: Feat(a, b))
    + (set a, b | a in names && b in names :: Dep(a, b))
  }

  function Roots(package: string, features: seq<string>): set<Fact> {
    {Crate(package), Feat(package, DEFAULT)} + set f | f in features :: Feat(package, f)
  }

  lemma UniverseClosed(m: Manifests, package: string, features: seq<string>)
    ensures Closed(m, AllFacts(Names(m, package, features)), true)
    ensures Roots(package, features) <= AllFacts(Names(m, package, features))
  {
    var names := Names(m, package, features);
    var t := AllFacts(names);
    forall x | x in t ensures Consequences(m, x) <= t {
      var p := x.package;
      if p in m && x.Feat? && x.feature in m[p].features {
        var entries := m[p].features[x.feature];
        forall i | 0 <= i < |entries| ensures EntryConsequences(m, p, entries[i]) <= t {
          assert EntryNames(entries[i]) <= names;
          if ReadEntry(entries[i]).Strong? && ReadEntry(entries[i]).dep in m[p].dependencies {
            assert DependencyNames(m[p].dependencies[ReadEntry(entries[i]).dep]) <= names;
          }
        }
      } else if p in m && x.Dep? && x.key in m[p].dependencies {
        var d := m[p].dependencies[x.key];
        assert DependencyNames(d) <= names;
        assert forall i :: 0 <= i < |d.features| ==> d.features[i] in DependencyNames(d);
      }
    }
    forall p, f, k | Feat(p, f) in t && Dep(p, k) in t ensures WeakConsequences(m, p, f, k, true) <= t {
      if p in m && f in m[p].features && k in m[p].dependencies {
        var entries := m[p].features[f];
        assert DependencyNames(m[p].dependencies[k]) <= names;
        forall i | 0 <= i < |entries| ensures WaitingFact(m, p, entries[i], k, true) <= t {
          assert EntryNames(entries[i]) <= names;
        }
      }
    }
  }

  /** `fact` is in every closed set that holds the roots. */
  ghost predicate Forced(m: Manifests, package: string, features: seq<string>, fact: Fact, loose: bool) {
    forall t: set<Fact> :: Closed(m, t, loose) && Roots(package, features) <= t ==> fact in t
  }

  /** The least closed set that holds the roots (`ReachIsLeast`). */
  ghost function Reach(m: Manifests, package: string, features: seq<string>, loose: bool): set<Fact> {
    set x | x in AllFacts(Names(m, package, features)) && Forced(m, package, features, x, loose)
  }

  /** `Reach` is closed, holds the roots, and is inside every other set that does. */
  lemma ReachIsLeast(m: Manifests, package: string, features: seq<string>, loose: bool)
    ensures Closed(m, Reach(m, package, features, loose), loose)
    ensures Roots(package, features) <= Reach(m, package, features, loose)
    ensures forall t: set<Fact> :: Closed(m, t, loose) && Roots(package, features) <= t
                                   ==> Reach(m, package, features, loose) <= t
  {
    var r := Reach(m, package, features, loose);
    var u := AllFacts(Names(m, package, features));
    UniverseClosed(m, package, features);
    if !loose { LooseIsStrict(m, u); }
    forall x | x in r ensures Consequences(m, x) <= r {
      forall c | c in Consequences(m, x) ensures c in r {
        assert c in u;
        forall t: set<Fact> | Closed(m, t, loose) && Roots(package, features) <= t ensures c in t {
          assert x in t;
        }
      }
    }
    forall p, f, k | Feat(p, f) in r && Dep(p, k) in r ensures WeakConsequences(m, p, f, k, loose) <= r {
      forall c | c in WeakConsequences(m, p, f, k, loose) ensures c in r {
        assert c in u;
        forall t: set<Fact> | Closed(m, t, loose) && Roots(package, features) <= t ensures c in t {
          assert Feat(p, f) in t && Dep(p, k) in t;
        }
      }
    }
  }

  /**
   * No `dep:` entry of an enabled feature, taken for a weak one on an enabled dependency, asks for more than
   * `t` holds.
   */
  ghost predicate Settled(m: Manifests, t: set<Fact>) {
    forall p, f, k, i {:trigger WaitingFact(m, p, m[p].features[f][i], k, true)} ::
      Feat(p, f) in t && Dep(p, k) in t && p in m && f in m[p].features && k in m[p].dependencies
      && 0 <= i < |m[p].features[f]| && DEP <= m[p].features[f][i]
      ==> WaitingFact(m, p, m[p].features[f][i], k, true) <= t
  }

  lemma SettledIsLoose(m: Manifests, t: set<Fact>)
    requires Closed(m, t, false)
    ensures Settled(m, t) <==> Closed(m, t, true)
  {
    if Settled(m, t) {
      forall p, f, k | Feat(p, f) in t && Dep(p, k) in t ensures WeakConsequences(m, p, f, k, true) <= t {
        forall c | c in WeakConsequences(m, p, f, k, true) ensures c in t { EntrySettles(m, p, f, k, c, t); }
      }
    }
    if Closed(m, t, true) {
      forall p, f, k, i | Feat(p, f) in t && Dep(p, k) in t && p in m && f in m[p].features && k in m[p].dependencies
                          && 0 <= i < |m[p].features[f]| && DEP <= m[p].features[f][i]
        ensures WaitingFact(m, p, m[p].features[f][i], k, true) <= t
      {
        assert WaitingFact(m, p, m[p].features[f][i], k, true) <= WeakConsequences(m, p, f, k, true) <= t;
      }
    }
  }

  lemma EntrySettles(m: Manifests, p: string, f: string, k: string, c: Fact, t: set<Fact>)
    requires Closed(m, t, false) && Settled(m, t) && Feat(p, f) in t && Dep(p, k) in t &&
             c in WeakConsequences(m, p, f, k, true)
    ensures c in t
  {
    var i :| 0 <= i < |m[p].features[f]| && c in WaitingFact(m, p, m[p].features[f][i], k, true);
    if !(DEP <= m[p].features[f][i]) {
      assert c in WaitingFact(m, p, m[p].features[f][i], k, false);
      assert c in WeakConsequences(m, p, f, k, false);
    }
  }

  /** Weak entries read either way give the same closure exactly when the strict one is settled. */
  lemma ReachUniqueIff(m: Manifests, package: string, features: seq<string>)
    ensures Reach(m, package, features, true) == Reach(m, package, features, false) <==>
            Settled(m, Reach(m, package, features, false))
  {
    ReachIsLeast(m, package, features, true);
    ReachIsLeast(m, package, features, false);
    LooseIsStrict(m, Reach(m, package, features, true));
    SettledIsLoose(m, Reach(m, package, features, false));
  }

  /** So they do on manifests without odd keys. */
  lemma ReachUnique(m: Manifests, package: string, features: seq<string>)
    requires WellKeyed(m)
    ensures Reach(m, package, features, true) == Reach(m, package, features, false)
  {
    ReachIsLeast(m, package, features, false);
    StrictIsLoose(m, Reach(m, package, features, false));
    SettledIsLoose(m, Reach(m, package, features, false));
    ReachUniqueIff(m, package, features);
  }

  // ---- These are the rules of the texts ----

  lemma SplitOnceIff(s: string, sep: string, a: string, b: string)
    requires sep != []
    ensures SplitOnce(s, sep) == Some((a, b)) <==> s == a + sep + b && forall i :: 0 <= i < |a| ==> !OccursAt(s, sep, i)
  {
    if s == a + sep + b && forall i :: 0 <= i < |a| ==> !OccursAt(s, sep, i) {
      SplitOnceAt(a, sep, b);
    }
    if SplitOnce(s, sep) == Some((a, b)) {
      var i := Find(s, sep, 0);
      assert s[..i] + s[i..i + |sep|] + s[i + |sep|..] == s;
    }
  }

  lemma NoSplitIff(s: string, sep: string)
    requires sep != []
    ensures SplitOnce(s, sep) == None <==> forall i :: 0 <= i < |s| ==> !OccursAt(s, sep, i)
  {
  }

  lemma SlashIff(s: string, i: nat)
    requires i < |s|
    ensures OccursAt(s, "/", i) <==> s[i] == '/'
  {
    assert s[i..i + 1] == [s[i]];
  }

  /** A text has a slash exactly where it splits at one. */
  lemma SlashSplits(s: string)
    ensures SplitOnce(s, "/") == None <==> '/' !in s
  {
    NoSplitIff(s, "/");
    forall i | 0 <= i < |s| ensures OccursAt(s, "/", i) <==> s[i] == '/' { SlashIff(s, i); }
  }

  lemma SlashSplitIff(s: string, a: string, b: string)
    ensures SplitOnce(s, "/") == Some((a, b)) <==> s == a + "/" + b && '/' !in a
  {
    SplitOnceIff(s, "/", a, b);
    if s == a + "/" + b {
      forall i | 0 <= i < |a| ensures OccursAt(s, "/", i) <==> a[i] == '/' {
        SlashIff(s, i);
        assert s[i] == a[i];
      }
    }
  }

  /** An entry is read as its form says, whatever its text. */
  lemma ReadIff(entry: string, k: string, sub: string)
    ensures ReadEntry(entry) == DepEntry(k) <==> NamesDependency(entry, k)
    ensures ReadEntry(entry) == Weak(k, sub) <==> !("dep:" <= entry) && SplitsWeakly(entry, k, sub)
    ensures ReadEntry(entry) == Strong(k, sub) <==> SplitsStrongly(entry, k, sub)
    ensures ReadEntry(entry) == Plain(k) <==> NamesFeature(entry) && k == entry
  {
    if DEP <= entry {
      assert entry == DEP + entry[|DEP|..];
      assert NamesDependency(entry, k) ==> entry[|DEP|..] == k;
    } else {
      assert !NamesDependency(entry, k);
      SplitOnceIff(entry, "?/", k, sub);
      NoSplitIff(entry, "?/");
      SlashSplits(entry);
      SlashSplitIff(entry, k, sub);
      MarkHasSlash(entry);
    }
  }

  lemma MarkHasSlash(entry: string)
    ensures SplitOnce(entry, "?/").Some? ==> '/' in entry
  {
    var i := Find(entry, "?/", 0);
    if i >= 0 { assert entry[i..i + 2][1] == entry[i + 1]; }
  }

  /** What an entry waits for. */
  lemma WaitsIff(entry: string, k: string, sub: string, loose: bool)
    ensures WaitsFor(entry, loose) == Some((k, sub)) <==> SplitsWeakly(entry, k, sub) && (loose || !("dep:" <= entry))
  {
    SplitOnceIff(entry, "?/", k, sub);
  }

  lemma {:induction false} TrimIff(s: string, k: string)
    ensures TrimQuestion(s) == k <==> !EndsInMark(k) && exists n: nat :: s == k + Marks(n)
    decreases |s|
  {
    if EndsInMark(s) {
      var init := s[..|s| - 1];
      assert s == init + "?";
      TrimIff(init, k);
      if n: nat :| init == k + Marks(n) { assert s == k + Marks(n + 1); }
      if n: nat :| !EndsInMark(k) && s == k + Marks(n) {
        assert n > 0 by { assert n == 0 ==> s == k; }
        assert init == k + Marks(n - 1);
      }
    } else {
      assert s == s + Marks(0);
      forall n: nat ensures EndsInMark(k + Marks(n)) || k + Marks(n) == k { MarksEnd(k, n); }
    }
  }

  lemma MarksEnd(k: string, n: nat)
    ensures n > 0 ==> EndsInMark(k + Marks(n))
    ensures n == 0 ==> k + Marks(n) == k
  {
    if n > 0 { assert (k + Marks(n))[|k| + n - 1] == '?'; }
  }

  /** The key that an entry must find declared. */
  lemma AsksIff(entry: string, k: string)
    ensures NamedKey(entry) == Some(k) <==> AsksFor(entry, k)
  {
    if DEP <= entry {
      assert entry == DEP + entry[|DEP|..];
      assert entry == DEP + k ==> entry[|DEP|..] == k;
    } else {
      assert entry != DEP + k;
      SlashSplits(entry);
      if SplitOnce(entry, "/").Some? {
        var (a, b) := SplitOnce(entry, "/").value;
        SlashSplitIff(entry, a, b);
        TrimIff(a, k);
        AsksBefore(entry, a, b, k);
      } else {
        forall n: nat, sub ensures '/' in k + Marks(n) + "/" + sub { HoldsSlash(k + Marks(n), sub); }
      }
    }
  }

  lemma HoldsSlash(a: string, b: string)
    ensures '/' in a + "/" + b
  {
    assert (a + "/" + b)[|a|] == '/';
  }

  lemma AsksBefore(entry: string, a: string, b: string, k: string)
    requires entry == a + "/" + b && '/' !in a
    ensures !EndsInMark(k) && (exists n: nat :: a == k + Marks(n)) <==>
            '/' !in k && !EndsInMark(k) && exists n: nat, sub :: entry == k + Marks(n) + "/" + sub
  {
    if n: nat :| a == k + Marks(n) {
      assert entry == k + Marks(n) + "/" + b;
      forall i | 0 <= i < |k| ensures k[i] != '/' { assert k[i] == a[i]; }
    }
    if n: nat, sub :| '/' !in k && entry == k + Marks(n) + "/" + sub {
      var c := k + Marks(n);
      assert '/' !in c;
      SlashSplitIff(entry, a, b);
      SlashSplitIff(entry, c, sub);
      assert a == c;
    }
  }

  /** What an entry asks for by itself. */
  lemma AloneIff(m: Manifests, p: string, entry: string, t: set<Fact>)
    requires p in m
    ensures EntryConsequences(m, p, entry) <= t <==>
            && (NamesFeature(entry) ==> Feat(p, entry) in t)
            && (forall k :: k in m[p].dependencies && NamesDependency(entry, k) ==> Dep(p, k) in t)
            && (forall k, sub :: k in m[p].dependencies && SplitsStrongly(entry, k, sub) ==>
                  Dep(p, k) in t && Feat(m[p].dependencies[k].package, sub) in t)
  {
    ReadIff(entry, entry, "");
    forall k ensures ReadEntry(entry) == DepEntry(k) <==> NamesDependency(entry, k) { ReadIff(entry, k, ""); }
    forall k, sub ensures ReadEntry(entry) == Strong(k, sub) <==> SplitsStrongly(entry, k, sub) {
      ReadIff(entry, k, sub);
    }
    var e := ReadEntry(entry);
    if e.DepEntry? { assert NamesDependency(entry, e.key); }
    if e.Strong? { assert SplitsStrongly(entry, e.dep, e.sub); }
    if e.Plain? { ReadIff(entry, e.name, ""); }
  }

  /** What it asks for with a dependency. */
  lemma WaitingIff(m: Manifests, p: string, entry: string, t: set<Fact>, loose: bool)
    requires p in m
    ensures (forall k :: k in m[p].dependencies && Dep(p, k) in t ==> WaitingFact(m, p, entry, k, loose) <= t) <==>
            forall k, sub ::
              k in m[p].dependencies && Dep(p, k) in t && SplitsWeakly(entry, k, sub) && (loose || !("dep:" <= entry))
              ==> Feat(m[p].dependencies[k].package, sub) in t
  {
    forall k, sub
      ensures WaitsFor(entry, loose) == Some((k, sub)) <==> SplitsWeakly(entry, k, sub) && (loose || !("dep:" <= entry))
    {
      WaitsIff(entry, k, sub, loose);
    }
    var w := WaitsFor(entry, loose);
    if w.Some? { assert SplitsWeakly(entry, w.value.0, w.value.1); }
    if w.Some? && w.value.0 in m[p].dependencies {
      assert WaitingFact(m, p, entry, w.value.0, loose) == {Feat(m[p].dependencies[w.value.0].package, w.value.1)};
    }
  }

  lemma EntriesIff(m: Manifests, p: string, f: string, t: set<Fact>, loose: bool)
    requires p in m && f in m[p].features
    ensures FollowsFeature(m[p], p, f, t, loose) <==>
            && Consequences(m, Feat(p, f)) <= t
            && forall k :: k in m[p].dependencies && Dep(p, k) in t ==> WeakConsequences(m, p, f, k, loose) <= t
  {
    var entries := m[p].features[f];
    forall i | 0 <= i < |entries|
      ensures FollowsEntry(m[p], p, entries[i], t, loose) <==> EntryIn(m, p, entries[i], t, loose)
    {
      AloneIff(m, p, entries[i], t);
      WaitingIff(m, p, entries[i], t, loose);
    }
    ConsequencesIff(m, p, f, t);
    WeakIff(m, p, f, t, loose);
    assert forall e :: e in entries <==> exists i :: 0 <= i < |entries| && entries[i] == e;
  }

  ghost predicate EntryIn(m: Manifests, p: string, entry: string, t: set<Fact>, loose: bool)
    requires p in m
  {
    && EntryConsequences(m, p, entry) <= t
    && forall k :: k in m[p].dependencies && Dep(p, k) in t ==> WaitingFact(m, p, entry, k, loose) <= t
  }

  lemma ConsequencesIff(m: Manifests, p: string, f: string, t: set<Fact>)
    requires p in m && f in m[p].features
    ensures Consequences(m, Feat(p, f)) <= t <==>
            forall i :: 0 <= i < |m[p].features[f]| ==> EntryConsequences(m, p, m[p].features[f][i]) <= t
  {
    var entries := m[p].features[f];
    forall i | 0 <= i < |entries| ensures EntryConsequences(m, p, entries[i]) <= Consequences(m, Feat(p, f)) {
      forall c | c in EntryConsequences(m, p, entries[i]) ensures c in Consequences(m, Feat(p, f)) {}
    }
    if forall i :: 0 <= i < |entries| ==> EntryConsequences(m, p, entries[i]) <= t {
      forall c | c in Consequences(m, Feat(p, f)) ensures c in t {
        var i :| 0 <= i < |entries| && c in EntryConsequences(m, p, entries[i]);
      }
    }
  }

  lemma WeakIff(m: Manifests, p: string, f: string, t: set<Fact>, loose: bool)
    requires p in m && f in m[p].features
    ensures forall k :: k in m[p].dependencies ==>
              (WeakConsequences(m, p, f, k, loose) <= t <==>
               forall i :: 0 <= i < |m[p].features[f]| ==> WaitingFact(m, p, m[p].features[f][i], k, loose) <= t)
  {
    var entries := m[p].features[f];
    forall k | k in m[p].dependencies
      ensures WeakConsequences(m, p, f, k, loose) <= t <==>
              forall i :: 0 <= i < |entries| ==> WaitingFact(m, p, entries[i], k, loose) <= t
    {
      forall i | 0 <= i < |entries|
        ensures WaitingFact(m, p, entries[i], k, loose) <= WeakConsequences(m, p, f, k, loose)
      {
        forall c | c in WaitingFact(m, p, entries[i], k, loose) ensures c in WeakConsequences(m, p, f, k, loose) {}
      }
      if forall i :: 0 <= i < |entries| ==> WaitingFact(m, p, entries[i], k, loose) <= t {
        forall c | c in WeakConsequences(m, p, f, k, loose) ensures c in t {
          var i :| 0 <= i < |entries| && c in WaitingFact(m, p, entries[i], k, loose);
        }
      }
    }
  }

  lemma CrateIff(m: Manifests, p: string, t: set<Fact>)
    requires p in m
    ensures Consequences(m, Crate(p)) <= t <==>
            forall k :: k in m[p].dependencies && !m[p].dependencies[k].optional ==> Dep(p, k) in t
  {
    if Consequences(m, Crate(p)) <= t {
      forall k | k in m[p].dependencies && !m[p].dependencies[k].optional ensures Dep(p, k) in t {
        assert Dep(p, k) in Consequences(m, Crate(p));
      }
    }
  }

  lemma DependencyIff(m: Manifests, p: string, k: string, t: set<Fact>)
    requires p in m && k in m[p].dependencies
    ensures Consequences(m, Dep(p, k)) <= t <==> FollowsDependency(m[p].dependencies[k], t)
  {
    var d, c := m[p].dependencies[k], Consequences(m, Dep(p, k));
    if c <= t {
      forall f | f in d.features ensures Feat(d.package, f) in t {
        var i :| 0 <= i < |d.features| && d.features[i] == f;
        assert Feat(d.package, d.features[i]) in c;
      }
    }
  }

  lemma ClosedFollows(m: Manifests, t: set<Fact>, loose: bool)
    requires Closed(m, t, loose)
    ensures Follows(m, t, loose)
  {
    forall p, k | Crate(p) in t && p in m && k in m[p].dependencies && !m[p].dependencies[k].optional
      ensures Dep(p, k) in t
    {
      assert Consequences(m, Crate(p)) <= t;
      CrateIff(m, p, t);
    }
    forall p, k | Dep(p, k) in t && p in m && k in m[p].dependencies
      ensures FollowsDependency(m[p].dependencies[k], t)
    {
      assert Consequences(m, Dep(p, k)) <= t;
      DependencyIff(m, p, k, t);
    }
    forall p, f | Feat(p, f) in t && p in m ensures FollowsFeature(m[p], p, f, t, loose) {
      assert Consequences(m, Feat(p, f)) <= t;
      if f in m[p].features {
        EntriesIff(m, p, f, t, loose);
      } else if f != "default" && IsOptional(m[p], f) && f in m[p].dependencies {
        assert Dep(p, f) in Consequences(m, Feat(p, f));
      }
    }
  }

  lemma FollowsCloses(m: Manifests, t: set<Fact>, loose: bool)
    requires Follows(m, t, loose)
    ensures Closed(m, t, loose)
  {
    forall x | x in t ensures Consequences(m, x) <= t { FactFollows(m, x, t, loose); }
    forall p, f, k | Feat(p, f) in t && Dep(p, k) in t ensures WeakConsequences(m, p, f, k, loose) <= t {
      if p in m && f in m[p].features && k in m[p].dependencies {
        assert FollowsFeature(m[p], p, f, t, loose);
        EntriesIff(m, p, f, t, loose);
      }
    }
  }

  lemma FactFollows(m: Manifests, x: Fact, t: set<Fact>, loose: bool)
    requires Follows(m, t, loose) && x in t
    ensures Consequences(m, x) <= t
  {
    if x.package in m {
      match x
      case Crate(p) => CrateIff(m, p, t);
      case Dep(p, k) => if k in m[p].dependencies { DependencyIff(m, p, k, t); }
      case Feat(p, f) =>
        assert FollowsFeature(m[p], p, f, t, loose);
        if f in m[p].features { EntriesIff(m, p, f, t, loose); }
    }
  }

  /** A set is closed exactly when everything that follows from its facts, by the texts, is in it. */
  lemma ClosedIff(m: Manifests, t: set<Fact>, loose: bool)
    ensures Closed(m, t, loose) <==> Follows(m, t, loose)
  {
    if Closed(m, t, loose) { ClosedFollows(m, t, loose); }
    if Follows(m, t, loose) { FollowsCloses(m, t, loose); }
  }

  lemma UnknownIff(manifest: Manifest, entry: string)
    ensures UnknownKey(manifest, entry) <==> exists k :: AsksFor(entry, k) && k !in manifest.allDependencies
  {
    if UnknownKey(manifest, entry) { AsksIff(entry, NamedKey(entry).value); }
    if k :| AsksFor(entry, k) && k !in manifest.allDependencies { AsksIff(entry, k); }
  }

  /** And a fact is bad exactly when the manifests declare too little for it. */
  lemma BadIff(m: Manifests, x: Fact)
    ensures Bad(m, x) <==> !Known(m, x)
  {
    if x.Feat? && x.package in m && x.feature in m[x.package].features {
      var entries := m[x.package].features[x.feature];
      forall i | 0 <= i < |entries|
        ensures UnknownKey(m[x.package], entries[i]) <==>
                exists k :: AsksFor(entries[i], k) && k !in m[x.package].allDependencies
      {
        UnknownIff(m[x.package], entries[i]);
      }
      assert forall e :: e in entries <==> exists i :: 0 <= i < |entries| && entries[i] == e;
    }
  }
}
