/**
 * The release host: releases with assets, and one request at a time. Any write may be refused,
 * carried out, or end without an answer, carried out or not; an upload may also leave an asset that
 * is not complete. Reads tell the truth or fail. The host does not protect published releases:
 * that nothing touches them is the client's doing.
 */
module ReleaseHost {
  datatype Asset = Asset(name: string, uploaded: bool, content: string, reported: bool)

  type Assets = map<nat, Asset>

  datatype Release = Release(tag: string, draft: bool, commit: string, assets: Assets)

  type Releases = map<nat, Release>

  datatype Write = Create(tag: string) | Upload(id: nat, name: string) | Delete(id: nat, asset: nat) | Publish(id: nat)

  /** A request that failed: by a 4xx answer, by a 422 naming an asset of that name, or without an answer. */
  datatype Failure = Refused | AlreadyExists | Uncertain

  datatype Reply<+T> = Got(value: T) | Failed(failure: Failure)

  ghost predicate Has(assets: Assets, name: string) {
    exists a :: a in assets && assets[a].name == name
  }

  /** From `a0` to `a1`, asset `n` of a new name appears. */
  ghost predicate Posted(a0: Assets, a1: Assets, n: nat, name: string, content: string, complete: bool) {
    && !Has(a0, name) && n !in a0 && n in a1 && a1 == a0[n := a1[n]]
    && a1[n].name == name && a1[n].content == content && (complete ==> a1[n].uploaded)
  }

  class Host {
    var releases: Releases
    /** The next identifier for a release or an asset. */
    var next: nat
    /** Every write request so far, answered or not. */
    ghost var writes: seq<Write>
    /** How many requests so far, reads and writes, got no answer or were refused. */
    ghost var failed: nat
    ghost var refusals: nat

    ghost predicate Valid()
      reads this
    {
      && (forall id :: id in releases ==> id < next)
      && (forall id, a :: id in releases && a in releases[id].assets ==> a < next)
    }

    /** A read: it is answered, with the truth, or fails. */
    method Get() returns (answered: bool)
      modifies this`failed
      ensures failed == old(failed) + if answered then 0 else 1
    {
      answered := *;
      if !answered { failed := failed + 1; }
    }

    method PostDraft(tag: string, commit: string) returns (r: Reply<nat>)
      requires Valid()
      modifies this
      ensures Valid() && writes == old(writes) + [Create(tag)]
      ensures failed == old(failed) + if r.Got? then 0 else 1
      ensures refusals == old(refusals) + if r == Failed(Refused) then 1 else 0
      ensures old(next) !in old(releases)
      ensures releases == old(releases) || releases == old(releases)[old(next) := Release(tag, true, commit, map[])]
      ensures releases == old(releases) ==> next == old(next)
      ensures r.Got? ==> r.value == old(next) && r.value in releases
      ensures r.Failed? ==> !r.failure.AlreadyExists? && (r.failure.Refused? ==> releases == old(releases))
    {
      writes := writes + [Create(tag)];
      var refused: bool := *;
      if refused {
        failed, refusals := failed + 1, refusals + 1;
        return Failed(Refused);
      }
      var applied: bool := *;
      if !applied {
        failed := failed + 1;
        return Failed(Uncertain);
      }
      releases := releases[next := Release(tag, true, commit, map[])];
      next := next + 1;
      var answered: bool := *;
      if !answered { failed := failed + 1; }
      r := if answered then Got(next - 1) else Failed(Uncertain);
    }

    /** No name is taken twice: an upload of a name the release has is refused. */
    method PostAsset(id: nat, name: string, content: string) returns (r: Reply<()>)
      requires Valid() && id in releases
      modifies this
      ensures Valid() && writes == old(writes) + [Upload(id, name)]
      ensures failed == old(failed) + if r.Got? then 0 else 1
      ensures refusals == old(refusals) + if r == Failed(Refused) then 1 else 0
      ensures id in releases && releases == old(releases)[id := old(releases)[id].(assets := releases[id].assets)]
      ensures releases == old(releases) ||
              Posted(old(releases)[id].assets, releases[id].assets, old(next), name, content, false)
      ensures r.Got? ==> Posted(old(releases)[id].assets, releases[id].assets, old(next), name, content, true)
      ensures r == Failed(Refused) ==> releases == old(releases)
    {
      writes := writes + [Upload(id, name)];
      var refused: bool := *;
      if refused {
        failed, refusals := failed + 1, refusals + 1;
        return Failed(Refused);
      }
      var applied: bool := *;
      var answered: bool := *;
      if exists a :: a in releases[id].assets && releases[id].assets[a].name == name {
        failed := failed + 1;
        return if answered then Failed(AlreadyExists) else Failed(Uncertain);
      }
      if !applied {
        failed := failed + 1;
        return Failed(Uncertain);
      }
      var uploaded: bool := *;
      var reported: bool := *;
      uploaded := uploaded || answered;
      var asset := Asset(name, uploaded, content, reported);
      releases := releases[id := releases[id].(assets := releases[id].assets[next := asset])];
      next := next + 1;
      if !answered { failed := failed + 1; }
      r := if answered then Got(()) else Failed(Uncertain);
    }

    /** An asset that is already gone counts as deleted. */
    method DeleteAsset(id: nat, asset: nat) returns (r: Reply<()>)
      requires Valid() && id in releases
      modifies this
      ensures Valid() && writes == old(writes) + [Delete(id, asset)]
      ensures failed == old(failed) + if r.Got? then 0 else 1
      ensures refusals == old(refusals) + if r == Failed(Refused) then 1 else 0
      ensures releases == old(releases)
           || releases == old(releases)[id := old(releases)[id].(assets := old(releases)[id].assets - {asset})]
      ensures r.Got? ==>
              releases == old(releases)[id := old(releases)[id].(assets := old(releases)[id].assets - {asset})]
      ensures r.Failed? ==> !r.failure.AlreadyExists?
    {
      writes := writes + [Delete(id, asset)];
      var refused: bool := *;
      if refused {
        failed, refusals := failed + 1, refusals + 1;
        return Failed(Refused);
      }
      var applied: bool := *;
      if !applied {
        failed := failed + 1;
        return Failed(Uncertain);
      }
      releases := releases[id := releases[id].(assets := releases[id].assets - {asset})];
      var answered: bool := *;
      if !answered { failed := failed + 1; }
      r := if answered then Got(()) else Failed(Uncertain);
    }

    method PatchPublished(id: nat) returns (r: Reply<()>)
      requires Valid() && id in releases
      modifies this
      ensures Valid() && writes == old(writes) + [Publish(id)]
      ensures failed == old(failed) + if r.Got? then 0 else 1
      ensures refusals == old(refusals) + if r == Failed(Refused) then 1 else 0
      ensures releases == old(releases) || releases == old(releases)[id := old(releases)[id].(draft := false)]
      ensures r.Got? ==> releases == old(releases)[id := old(releases)[id].(draft := false)]
      ensures r.Failed? ==> !r.failure.AlreadyExists?
    {
      writes := writes + [Publish(id)];
      var refused: bool := *;
      if refused {
        failed, refusals := failed + 1, refusals + 1;
        return Failed(Refused);
      }
      var applied: bool := *;
      if !applied {
        failed := failed + 1;
        return Failed(Uncertain);
      }
      releases := releases[id := releases[id].(draft := false)];
      var answered: bool := *;
      if !answered { failed := failed + 1; }
      r := if answered then Got(()) else Failed(Uncertain);
    }
  }
}
