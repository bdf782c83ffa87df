/**
 * What manifests say, read off their texts: the facts about a build, which of them follow from others, and
 * which no workspace can satisfy. A set of facts that follows the rules is what the resolver has to find.
 */
module FeatureRules {
  import opened Search

  datatype Dependency = Dependency(package: string, optional: bool, defaultFeatures: bool, features: seq<string>)

  datatype Manifest = Manifest(
    features: map<string, seq<string>>,
    dependencies: map<string, Dependency>,
    allDependencies: map<string, bool>)

  type Manifests = map<string, Manifest>

  datatype Fact = Crate(package: string) | Feat(package: string, feature: string) | Dep(package: string, key: string)

  // ---- The forms of an entry ----

  /** The entry names another feature of its own package. */
  predicate NamesFeature(entry: string) { !("dep:" <= entry) && '/' !in entry }

  /** The entry names a dependency and nothing of it. */
  predicate NamesDependency(entry: string, key: string) { entry == "dep:" + key }

  /** `key?/sub`, with no such mark earlier: a feature of a dependency, if that is enabled. */
  predicate SplitsWeakly(entry: string, key: string, sub: string) {
    entry == key + "?/" + sub && forall i :: 0 <= i < |key| ==> !OccursAt(entry, "?/", i)
  }

  /** `key/sub`, split at the first slash: a dependency, and a feature of it. */
  predicate SplitsStrongly(entry: string, key: string, sub: string) {
    && !("dep:" <= entry) && entry == key + "/" + sub && '/' !in key
    && forall i :: 0 <= i < |entry| ==> !OccursAt(entry, "?/", i)
  }

  function Marks(n: nat): string { seq(n, _ => '?') }

  /** The key that an entry must find declared: what `dep:` names, or what precedes its slash and the marks there. */
  ghost predicate AsksFor(entry: string, key: string) {
    || entry == "dep:" + key
    || (!("dep:" <= entry) && '/' !in key && !EndsInMark(key)
        && exists n: nat, sub :: entry == key + Marks(n) + "/" + sub)
  }

  predicate EndsInMark(s: string) { s != [] && s[|s| - 1] == '?' }

  // ---- What follows ----

  /** What an entry of an enabled feature asks for is there; a `dep:` entry is weak only when read loosely. */
  ghost predicate FollowsEntry(manifest: Manifest, p: string, entry: string, t: set<Fact>, loose: bool) {
    && (NamesFeature(entry) ==> Feat(p, entry) in t)
    && (forall k :: k in manifest.dependencies && NamesDependency(entry, k) ==> Dep(p, k) in t)
    && (forall k, sub :: k in manifest.dependencies && SplitsStrongly(entry, k, sub) ==>
          Dep(p, k) in t && Feat(manifest.dependencies[k].package, sub) in t)
    && (forall k, sub :: k in manifest.dependencies && Dep(p, k) in t && SplitsWeakly(entry, k, sub)
                         && (loose || !("dep:" <= entry)) ==>
          Feat(manifest.dependencies[k].package, sub) in t)
  }

  /** A dependency's crate is there, with its default feature unless that is off, and its declared features. */
  ghost predicate FollowsDependency(d: Dependency, t: set<Fact>) {
    && Crate(d.package) in t && (d.defaultFeatures ==> Feat(d.package, "default") in t)
    && forall f :: f in d.features ==> Feat(d.package, f) in t
  }

  ghost predicate FollowsFeature(manifest: Manifest, p: string, f: string, t: set<Fact>, loose: bool) {
    if f in manifest.features then forall e :: e in manifest.features[f] ==> FollowsEntry(manifest, p, e, t, loose)
    else f != "default" && IsOptional(manifest, f) && f in manifest.dependencies ==> Dep(p, f) in t
  }

  predicate IsOptional(manifest: Manifest, key: string) {
    key in manifest.allDependencies && manifest.allDependencies[key]
  }

  /** Everything that follows from facts in the set is in it. */
  ghost predicate Follows(m: Manifests, t: set<Fact>, loose: bool) {
    && (forall p, k :: Crate(p) in t && p in m && k in m[p].dependencies && !m[p].dependencies[k].optional ==>
          Dep(p, k) in t)
    && (forall p, k :: Dep(p, k) in t && p in m && k in m[p].dependencies ==>
          FollowsDependency(m[p].dependencies[k], t))
    && (forall p, f :: Feat(p, f) in t && p in m ==> FollowsFeature(m[p], p, f, t, loose))
  }

  /** The facts a build starts from. */
  ghost predicate StartsWith(package: string, features: seq<string>, t: set<Fact>) {
    Crate(package) in t && Feat(package, "default") in t && forall f :: f in features ==> Feat(package, f) in t
  }

  /** A fact that manifests can satisfy: its package, its feature and the keys of the feature's entries are declared. */
  ghost predicate Known(m: Manifests, x: Fact) {
    match x
    case Crate(p) => p in m
    case Feat(p, f) =>
      && p in m
      && if f in m[p].features then
           forall e, k :: e in m[p].features[f] && AsksFor(e, k) ==> k in m[p].allDependencies
         else f == "default" || IsOptional(m[p], f)
    case Dep(_, _) => true
  }
}
