/**
 * Staging and publishing a release against a host whose writes may be lost: the client's side.
 * Asset lists are read as maps from asset identifiers, so nothing here depends on a listing's order.
 */
module ReleaseProtocol {
  import opened ChecksumList
  import opened Digest
  import opened ReleaseHost

  const SUMS := "SHA256SUMS"
  const ATTEMPTS := 4
  const TRIES := 3

  /** What stops a run: a request that failed, or a condition it can't safely continue past. */
  datatype Error = Http(failure: Failure) | Problem

  datatype Result<+T> = Ok(value: T) | Raise(error: Error)

  /** What is raised for a request comes of one that failed, and a refused request is the last: it is raised at once. */
  ghost predicate Blames<T>(r: Result<T>, failed0: nat, failed: nat, refusals0: nat, refusals: nat) {
    && failed0 <= failed && (r.Raise? && r.error.Http? ==> failed0 < failed)
    && refusals == refusals0 + if r.Raise? && r.error == Http(Refused) then 1 else 0
  }

  type Files = map<string, string>

  // ---- Local files ----

  /** The assets of a directory: its files apart from SHA256SUMS. */
  function LocalFiles(dir: Files): Files { dir - {SUMS} }

  function DigestsOf(files: Files): Digests { map n | n in files :: Sha256(files[n]) }

  function SumsOf(files: Files): string { SumsText(DigestsOf(files)) }

  /** Everything a release of `files` holds. */
  function WithSums(files: Files): Files { files[SUMS := SumsOf(files)] }

  predicate GoodNames(files: Files) { forall n :: n in files ==> GoodName(n) }

  // ---- What a draft holds ----

  ghost predicate AllUploaded(assets: Assets) { forall a :: a in assets ==> assets[a].uploaded }

  ghost predicate UniqueNames(assets: Assets) {
    forall a, b :: a in assets && b in assets && assets[a].name == assets[b].name ==> a == b
  }

  /** Exactly `files`: each once, complete, with its bytes. */
  ghost predicate Holds(assets: Assets, files: Files) {
    && UniqueNames(assets)
    && (forall a :: a in assets ==>
       assets[a].uploaded && assets[a].name in files && assets[a].content == files[assets[a].name])
    && (forall n :: n in files ==> Has(assets, n))
  }

  /** Nothing that a release of `files` won't publish, except perhaps an outdated SHA256SUMS. */
  ghost predicate Clean(assets: Assets, files: Files) {
    && UniqueNames(assets)
    && (forall a :: a in assets ==> assets[a].uploaded)
    && (forall a :: a in assets && assets[a].name != SUMS ==>
          assets[a].name in files && assets[a].content == files[assets[a].name])
  }

  // ---- Which writes a step may send ----

  predicate AssetWrite(w: Write, id: nat) { (w.Upload? || w.Delete?) && w.id == id }

  /** From one state and log to another, only `id`'s assets change, by writes to it alone. */
  ghost predicate OnlyAssets(id: nat, rs0: Releases, ws0: seq<Write>, rs: Releases, ws: seq<Write>) {
    && id in rs0 && id in rs && rs == rs0[id := rs0[id].(assets := rs[id].assets)]
    && ws0 <= ws && forall i :: |ws0| <= i < |ws| ==> AssetWrite(ws[i], id)
  }

  lemma OnlyAssetsTrans(id: nat, rs0: Releases, ws0: seq<Write>, rs1: Releases, ws1: seq<Write>, rs2: Releases,
                        ws2: seq<Write>)
    requires OnlyAssets(id, rs0, ws0, rs1, ws1) && OnlyAssets(id, rs1, ws1, rs2, ws2)
    ensures OnlyAssets(id, rs0, ws0, rs2, ws2)
  {
    forall i | |ws0| <= i < |ws2| ensures AssetWrite(ws2[i], id) {
      if i < |ws1| { assert ws2[i] == ws1[i]; }
    }
  }

  ghost predicate OnlyDeletes(ws0: seq<Write>, ws: seq<Write>) {
    ws0 <= ws && forall i :: |ws0| <= i < |ws| ==> ws[i].Delete?
  }

  /** How often a write was sent since the log was `ws0`. */
  ghost function Sent(ws0: seq<Write>, ws: seq<Write>, w: Write): int {
    multiset(ws)[w] as int - multiset(ws0)[w] as int
  }

  lemma DeletesSend(ws0: seq<Write>, ws: seq<Write>, w: Write)
    requires OnlyDeletes(ws0, ws) && !w.Delete?
    ensures Sent(ws0, ws, w) == 0
  {
    assert ws == ws0 + ws[|ws0|..];
    assert w !in ws[|ws0|..];
  }

  /** One more upload, and then perhaps deletes. */
  lemma SentMore(ws0: seq<Write>, ws1: seq<Write>, ws2: seq<Write>, w: Write)
    requires ws2 == ws1 + [w] && !w.Delete?
    ensures Sent(ws0, ws2, w) == Sent(ws0, ws1, w) + 1
    ensures forall ws {:trigger OnlyDeletes(ws2, ws)} :: OnlyDeletes(ws2, ws) ==> Sent(ws0, ws, w) == Sent(ws0, ws2, w)
  {
    forall ws | OnlyDeletes(ws2, ws) ensures Sent(ws0, ws, w) == Sent(ws0, ws2, w) { DeletesSend(ws2, ws, w); }
  }

  // ---- Requests that retry ----

  /** A DELETE is sent again while it gets no answer. */
  method Delete(host: Host, id: nat, asset: nat) returns (r: Result<()>)
    requires host.Valid() && id in host.releases
    modifies host
    ensures host.Valid() && OnlyAssets(id, old(host.releases), old(host.writes), host.releases, host.writes)
    ensures r.Ok? ==> host.releases[id].assets == old(host.releases[id].assets) - {asset}
    ensures OnlyDeletes(old(host.writes), host.writes)
    // It gives up once a request is refused, or four were not answered.
    ensures var sent := |host.writes| - |old(host.writes)|;
            1 <= sent <= 4 && (r.Raise? ==> r.error == Http(Refused) || (r.error == Http(Uncertain) && sent == 4))
    ensures Blames(r, old(host.failed), host.failed, old(host.refusals), host.refusals)
  {
    ghost var rs, ws := host.releases, host.writes;
    var attempt := 1;
    while true
      invariant 1 <= attempt <= ATTEMPTS && host.Valid() && OnlyAssets(id, rs, ws, host.releases, host.writes)
      invariant OnlyDeletes(ws, host.writes) && |host.writes| == |ws| + attempt - 1
      invariant host.releases[id].assets == rs[id].assets || host.releases[id].assets == rs[id].assets - {asset}
      invariant old(host.failed) <= host.failed && old(host.refusals) == host.refusals
      decreases ATTEMPTS - attempt
    {
      var reply := host.DeleteAsset(id, asset);
      if reply.Got? { return Ok(()); }
      if reply.failure != Uncertain || attempt == ATTEMPTS { return Raise(Http(reply.failure)); }
      attempt := attempt + 1;
    }
  }

  /** A read: the truth, or a failed request. */
  method Refresh(host: Host, id: nat) returns (r: Result<Release>)
    requires id in host.releases
    modifies host`failed
    ensures r.Ok? ==> r.value == host.releases[id]
    ensures r.Raise? ==> r.error.Http?
    ensures Blames(r, old(host.failed), host.failed, old(host.refusals), host.refusals)
  {
    var answered := host.Get();
    r := if answered then Ok(host.releases[id]) else Raise(Http(Uncertain));
  }

  /** The digest the host reports, or that of a download. */
  method AssetDigest(host: Host, asset: Asset) returns (r: Result<string>)
    modifies host`failed
    ensures r.Ok? ==> r.value == Sha256(asset.content)
    ensures asset.reported ==> r.Ok? && host.failed == old(host.failed)
    ensures r.Raise? ==> r.error.Http?
    ensures Blames(r, old(host.failed), host.failed, old(host.refusals), host.refusals)
  {
    if asset.reported { return Ok(Sha256(asset.content)); }
    var answered := host.Get();
    r := if answered then Ok(Sha256(asset.content)) else Raise(Http(Uncertain));
  }

  method DeleteAll(host: Host, id: nat, gone: set<nat>) returns (r: Result<()>)
    requires host.Valid() && id in host.releases
    modifies host
    ensures host.Valid() && OnlyAssets(id, old(host.releases), old(host.writes), host.releases, host.writes)
    ensures r.Ok? ==> host.releases[id].assets == old(host.releases[id].assets) - gone
    ensures OnlyDeletes(old(host.writes), host.writes)
    ensures gone == {} ==> r.Ok? && host.writes == old(host.writes) && host.releases == old(host.releases)
    ensures r.Raise? ==> r.error.Http?
    ensures Blames(r, old(host.failed), host.failed, old(host.refusals), host.refusals)
  {
    ghost var rs, ws := host.releases, host.writes;
    var rest := gone;
    while rest != {}
      invariant rest <= gone && host.Valid() && OnlyAssets(id, rs, ws, host.releases, host.writes)
      invariant OnlyDeletes(ws, host.writes)
      invariant host.releases[id].assets == rs[id].assets - (gone - rest)
      invariant gone == {} ==> host.writes == ws && host.releases == rs
      invariant old(host.failed) <= host.failed && old(host.refusals) == host.refusals
      decreases rest
    {
      var a :| a in rest;
      ghost var rs1, ws1 := host.releases, host.writes;
      r := Delete(host, id, a);
      OnlyAssetsTrans(id, rs, ws, rs1, ws1, host.releases, host.writes);
      if r.Raise? { return; }
      rest := rest - {a};
    }
    r := Ok(());
  }

  /** Removes every asset listed in `release` that is not complete. */
  method DropIncomplete(host: Host, id: nat, release: Release) returns (r: Result<()>)
    requires host.Valid() && id in host.releases && release == host.releases[id]
    modifies host
    ensures host.Valid() && OnlyAssets(id, old(host.releases), old(host.writes), host.releases, host.writes)
    ensures r.Ok? ==> host.releases[id].assets == Uploaded(release.assets)
    ensures OnlyDeletes(old(host.writes), host.writes)
    ensures AllUploaded(release.assets) ==>
            r.Ok? && host.writes == old(host.writes) && host.releases == old(host.releases)
    ensures r.Raise? ==> r.error.Http?
    ensures Blames(r, old(host.failed), host.failed, old(host.refusals), host.refusals)
  {
    r := DeleteAll(host, id, set a | a in release.assets && !release.assets[a].uploaded);
  }

  // ---- Uploading one asset ----

  /** From `a0` to `a1`, no complete asset of another name changes, and none of another name appears. */
  ghost predicate KeepsOthers(a0: Assets, a1: Assets, name: string) {
    && (forall a :: a in a1 && a1[a].name != name ==> a in a0 && a0[a] == a1[a])
    && (forall a :: a in a0 && a0[a].name != name && a0[a].uploaded ==> a in a1 && a1[a] == a0[a])
  }

  predicate Complete(assets: Assets, a: nat, name: string) {
    a in assets && assets[a].uploaded && assets[a].name == name
  }

  ghost predicate AtMostOne(assets: Assets, name: string) {
    forall a, b :: Complete(assets, a, name) && Complete(assets, b, name) ==> a == b
  }

  /** One asset of that name, complete, with that content. */
  ghost predicate Single(assets: Assets, name: string, content: string) {
    && Has(assets, name)
    && (forall a :: a in assets && assets[a].name == name ==> assets[a].uploaded && assets[a].content == content)
    && (forall a, b :: a in assets && b in assets && assets[a].name == name && assets[b].name == name ==> a == b)
  }

  lemma PostedKeeps(a0: Assets, a: Assets, a1: Assets, n: nat, name: string, content: string, complete: bool)
    requires KeepsOthers(a0, a, name) && Posted(a, a1, n, name, content, complete)
    ensures KeepsOthers(a0, a1, name) && AtMostOne(a1, name)
    ensures complete ==> Single(a1, name, content)
  {
  }

  function Uploaded(assets: Assets): Assets { map a | a in assets && assets[a].uploaded :: assets[a] }

  lemma DroppedKeeps(a0: Assets, name: string)
    requires AtMostOne(a0, name)
    ensures KeepsOthers(a0, Uploaded(a0), name) && AtMostOne(Uploaded(a0), name)
    ensures forall a :: Complete(Uploaded(a0), a, name) ==>
              && Single(Uploaded(a0), name, a0[a].content)
              && KeepsOthers(a0, Uploaded(a0) - {a}, name) && AtMostOne(Uploaded(a0) - {a}, name)
  {
    var a1 := Uploaded(a0);
    assert forall a :: Complete(a1, a, name) ==> Complete(a0, a, name);
    forall a | Complete(a1, a, name)
      ensures Single(a1, name, a0[a].content) && AtMostOne(a1 - {a}, name)
    {
      assert forall b :: b in a1 && a1[b].name == name ==> Complete(a1, b, name);
      assert forall b :: Complete(a1 - {a}, b, name) ==> Complete(a1, b, name);
    }
  }

  /** After an upload without an answer: did the asset arrive? What it left otherwise is deleted. */
  method Arrived(host: Host, id: nat, name: string, content: string) returns (r: Result<bool>)
    requires host.Valid() && id in host.releases && AtMostOne(host.releases[id].assets, name)
    modifies host
    ensures host.Valid() && OnlyAssets(id, old(host.releases), old(host.writes), host.releases, host.writes)
    ensures r.Ok? ==> KeepsOthers(old(host.releases[id].assets), host.releases[id].assets, name)
    ensures r.Ok? ==> AtMostOne(host.releases[id].assets, name)
    ensures r.Ok? ==>
            if r.value then Single(host.releases[id].assets, name, content) else !Has(host.releases[id].assets, name)
    ensures OnlyDeletes(old(host.writes), host.writes)
    ensures r.Raise? ==> r.error.Http?
    ensures Blames(r, old(host.failed), host.failed, old(host.refusals), host.refusals)
  {
    ghost var rs, ws := host.releases, host.writes;
    var release := Refresh(host, id);
    if release.Raise? { return Raise(release.error); }
    var dropped := DropIncomplete(host, id, release.value);
    if dropped.Raise? { return Raise(dropped.error); }
    ghost var rs1, ws1 := host.releases, host.writes;
    release := Refresh(host, id);
    if release.Raise? { return Raise(release.error); }
    var assets := release.value.assets;
    DroppedKeeps(rs[id].assets, name);
    if a :| a in assets && Complete(assets, a, name) {
      var digest := AssetDigest(host, assets[a]);
      if digest.Raise? { return Raise(digest.error); }
      Sha256Injective(assets[a].content, content);
      if digest.value == Sha256(content) { return Ok(true); }
      var deleted := Delete(host, id, a);
      OnlyAssetsTrans(id, rs, ws, rs1, ws1, host.releases, host.writes);
      if deleted.Raise? { return Raise(deleted.error); }
    }
    r := Ok(false);
  }

  /** Sends a file until one complete copy is there; a lost answer is settled by looking. */
  method Upload(host: Host, id: nat, name: string, content: string) returns (r: Result<()>)
    requires host.Valid() && id in host.releases && AtMostOne(host.releases[id].assets, name)
    modifies host
    ensures host.Valid() && OnlyAssets(id, old(host.releases), old(host.writes), host.releases, host.writes)
    ensures r.Ok? ==> KeepsOthers(old(host.releases[id].assets), host.releases[id].assets, name)
    ensures r.Ok? ==> Single(host.releases[id].assets, name, content)
    ensures r.Raise? ==> r.error.Http?
    // It gives up once a request is refused, a request of the check fails, or the third upload does.
    ensures var sent := Sent(old(host.writes), host.writes, ReleaseHost.Upload(id, name));
            && 1 <= sent <= 3
            && (r.Raise? ==> r.error == Http(Refused) || sent == 3 || host.failed > old(host.failed) + sent)
    ensures Blames(r, old(host.failed), host.failed, old(host.refusals), host.refusals)
  {
    ghost var rs, ws, w := host.releases, host.writes, ReleaseHost.Upload(id, name);
    var attempt := 1;
    while true
      invariant 1 <= attempt <= TRIES && host.Valid() && OnlyAssets(id, rs, ws, host.releases, host.writes)
      invariant KeepsOthers(rs[id].assets, host.releases[id].assets, name)
      invariant AtMostOne(host.releases[id].assets, name) && old(host.refusals) == host.refusals
      invariant Sent(old(host.writes), host.writes, w) == attempt - 1 && host.failed >= old(host.failed) + attempt - 1
      decreases TRIES - attempt
    {
      ghost var rs1, ws1, n := host.releases, host.writes, host.next;
      var reply := host.PostAsset(id, name, content);
      SentMore(old(host.writes), ws1, host.writes, w);
      OnlyAssetsTrans(id, rs, ws, rs1, ws1, host.releases, host.writes);
      if host.releases != rs1 || reply.Got? {
        PostedKeeps(rs[id].assets, rs1[id].assets, host.releases[id].assets, n, name, content, reply.Got?);
      }
      if reply.Got? { return Ok(()); }
      if reply.failure == Refused || attempt == TRIES { return Raise(Http(reply.failure)); }
      ghost var rs2, ws2 := host.releases, host.writes;
      var arrived := Arrived(host, id, name, content);
      OnlyAssetsTrans(id, rs, ws, rs2, ws2, host.releases, host.writes);
      if arrived.Raise? { return Raise(arrived.error); }
      if arrived.value { return Ok(()); }
      attempt := attempt + 1;
    }
  }

  // ---- From any draft to the right one ----

  ghost predicate Duplicated(assets: Assets, a: nat)
    requires a in assets
  {
    exists b :: b in assets && b != a && assets[b].name == assets[a].name
  }

  /** The assets that do not belong beside `files`; the list of sums is `PutSums`'s own affair. */
  ghost predicate IsUnwanted(assets: Assets, a: nat, files: Files)
    requires a in assets
  {
    var name := assets[a].name;
    (name !in files && name != SUMS) || Duplicated(assets, a) || (name != SUMS && assets[a].content != files[name])
  }

  method Unwanted(host: Host, assets: Assets, files: Files) returns (r: Result<set<nat>>)
    modifies host`failed
    ensures Blames(r, old(host.failed), host.failed, old(host.refusals), host.refusals)
    ensures r.Ok? ==> forall a :: a in r.value <==> a in assets && IsUnwanted(assets, a, files)
    ensures r.Raise? ==> r.error.Http?
  {
    var found: set<nat> := {};
    var rest := assets.Keys;
    while rest != {}
      invariant rest <= assets.Keys && found <= assets.Keys
      invariant forall a :: a in assets && a !in rest ==> (a in found <==> IsUnwanted(assets, a, files))
      invariant found !! rest && old(host.failed) <= host.failed
      decreases rest
    {
      var a :| a in rest;
      rest := rest - {a};
      var name := assets[a].name;
      if name !in files && name != SUMS {
        found := found + {a};
      } else if exists b :: b in assets && b != a && assets[b].name == name {
        found := found + {a};
      } else if name != SUMS {
        var digest := AssetDigest(host, assets[a]);
        if digest.Raise? { return Raise(digest.error); }
        Sha256Injective(assets[a].content, files[name]);
        if digest.value != Sha256(files[name]) { found := found + {a}; }
      }
    }
    r := Ok(found);
  }

  lemma WantedIsClean(assets: Assets, files: Files, gone: set<nat>)
    requires AllUploaded(assets) && forall a :: a in gone <==> a in assets && IsUnwanted(assets, a, files)
    ensures Clean(assets - gone, files)
    ensures Clean(assets, files) ==> gone == {}
  {
    var kept := assets - gone;
    forall a, b | a in kept && b in kept && kept[a].name == kept[b].name ensures a == b {
      assert !Duplicated(assets, a);
    }
    if Clean(assets, files) {
      assert forall a :: a in assets ==> !Duplicated(assets, a);
      assert gone == {};
    }
  }

  lemma UploadStaysClean(a0: Assets, a1: Assets, name: string, files: Files)
    requires Clean(a0, files) && KeepsOthers(a0, a1, name)
    requires name in files && Single(a1, name, files[name])
    ensures Clean(a1, files)
    ensures forall n :: Has(a0, n) ==> Has(a1, n)
  {
    forall n | Has(a0, n) ensures Has(a1, n) {
      var a :| a in a0 && a0[a].name == n;
      if n != name { assert a in a1; }
    }
  }

  function NamesOf(assets: Assets): set<string> { set a | a in assets :: assets[a].name }

  method UploadMissing(host: Host, id: nat, files: Files) returns (r: Result<()>)
    requires host.Valid() && id in host.releases && Clean(host.releases[id].assets, files) && SUMS !in files
    modifies host
    ensures host.Valid() && OnlyAssets(id, old(host.releases), old(host.writes), host.releases, host.writes)
    ensures r.Ok? ==>
            Clean(host.releases[id].assets, files) && forall n :: n in files ==> Has(host.releases[id].assets, n)
    ensures (forall n :: n in files ==> Has(old(host.releases[id].assets), n)) ==>
              host.writes == old(host.writes) && host.releases == old(host.releases)
    ensures r.Raise? ==> r.error.Http?
    ensures Blames(r, old(host.failed), host.failed, old(host.refusals), host.refusals)
  {
    ghost var rs, ws := host.releases, host.writes;
    var release := Refresh(host, id);
    if release.Raise? { return Raise(release.error); }
    var existing := NamesOf(release.value.assets);
    assert forall n :: n in existing <==> Has(rs[id].assets, n);
    var rest := files.Keys - existing;
    while rest != {}
      invariant rest <= files.Keys && host.Valid() && OnlyAssets(id, rs, ws, host.releases, host.writes)
      invariant Clean(host.releases[id].assets, files)
      invariant forall n :: n in files && n !in rest ==> Has(host.releases[id].assets, n)
      invariant files.Keys - existing == {} ==> host.writes == ws && host.releases == rs
      invariant old(host.failed) <= host.failed && old(host.refusals) == host.refusals
      decreases rest
    {
      var name :| name in rest;
      ghost var rs1, ws1 := host.releases, host.writes;
      r := Upload(host, id, name, files[name]);
      OnlyAssetsTrans(id, rs, ws, rs1, ws1, host.releases, host.writes);
      if r.Raise? { return; }
      UploadStaysClean(rs1[id].assets, host.releases[id].assets, name, files);
      rest := rest - {name};
    }
    r := Ok(());
  }

  /** The middle of FillDraft: what is missing is uploaded, and then has to be listed. */
  method AddMissing(host: Host, id: nat, files: Files) returns (r: Result<()>)
    requires host.Valid() && id in host.releases && Clean(host.releases[id].assets, files) && SUMS !in files
    modifies host
    ensures host.Valid() && OnlyAssets(id, old(host.releases), old(host.writes), host.releases, host.writes)
    ensures r.Ok? ==>
            Clean(host.releases[id].assets, files) && forall n :: n in files ==> Has(host.releases[id].assets, n)
    ensures (forall n :: n in files ==> Has(old(host.releases[id].assets), n)) ==>
              host.writes == old(host.writes) && host.releases == old(host.releases)
    ensures r.Raise? ==> r.error.Http?
    ensures Blames(r, old(host.failed), host.failed, old(host.refusals), host.refusals)
  {
    r := UploadMissing(host, id, files);
    if r.Raise? { return; }
    var final := Refresh(host, id);
    if final.Raise? { return Raise(final.error); }
    assert forall n :: n in files ==> Has(final.value.assets, n);
    if exists n :: n in files && n !in NamesOf(final.value.assets) { return Raise(Problem); }
  }

  lemma SumsComplete(a0: Assets, a1: Assets, files: Files)
    requires Clean(a0, files) && SUMS !in files && forall n :: n in files ==> Has(a0, n)
    requires KeepsOthers(a0, a1, SUMS) && Single(a1, SUMS, SumsOf(files))
    ensures Holds(a1, WithSums(files))
  {
    forall n | n in WithSums(files) ensures Has(a1, n) {
      if n != SUMS {
        var a :| a in a0 && a0[a].name == n;
        assert a in a1;
      }
    }
  }

  /** Put SHA256SUMS on the draft, replacing an outdated one. */
  method PutSums(host: Host, id: nat, files: Files) returns (r: Result<()>)
    requires host.Valid() && id in host.releases && SUMS !in files
    requires Clean(host.releases[id].assets, files) && forall n :: n in files ==> Has(host.releases[id].assets, n)
    modifies host
    ensures host.Valid() && OnlyAssets(id, old(host.releases), old(host.writes), host.releases, host.writes)
    ensures r.Ok? ==> Holds(host.releases[id].assets, WithSums(files))
    ensures Holds(old(host.releases[id].assets), WithSums(files)) ==>
              host.writes == old(host.writes) && host.releases == old(host.releases)
    ensures r.Raise? ==> r.error.Http?
    ensures Blames(r, old(host.failed), host.failed, old(host.refusals), host.refusals)
  {
    var assets := host.releases[id].assets;
    if a :| a in assets && assets[a].name == SUMS {
      var digest := AssetDigest(host, assets[a]);
      if digest.Raise? { return Raise(digest.error); }
      Sha256Injective(assets[a].content, SumsOf(files));
      if digest.value == Sha256(SumsOf(files)) {
        SumsComplete(assets, assets, files);
        return Ok(());
      }
      SumsOutdated(assets, a, files);
    }
    SumsMissing(assets, files);
    r := ReplaceSums(host, id, SumsOf(files));
    if r.Raise? { return; }
    SumsComplete(assets, host.releases[id].assets, files);
  }

  lemma SumsOutdated(assets: Assets, a: nat, files: Files)
    requires a in assets && assets[a].name == SUMS && assets[a].content != SumsOf(files)
    ensures !Holds(assets, WithSums(files))
  {
  }

  lemma SumsMissing(assets: Assets, files: Files)
    ensures Holds(assets, WithSums(files)) ==> Has(assets, SUMS)
  {
  }

  method ReplaceSums(host: Host, id: nat, content: string) returns (r: Result<()>)
    requires host.Valid() && id in host.releases && UniqueNames(host.releases[id].assets)
    modifies host
    ensures host.Valid() && OnlyAssets(id, old(host.releases), old(host.writes), host.releases, host.writes)
    ensures r.Ok? ==> KeepsOthers(old(host.releases[id].assets), host.releases[id].assets, SUMS)
    ensures r.Ok? ==> Single(host.releases[id].assets, SUMS, content)
    ensures r.Raise? ==> r.error.Http?
    ensures Blames(r, old(host.failed), host.failed, old(host.refusals), host.refusals)
  {
    var assets := host.releases[id].assets;
    if a :| a in assets && assets[a].name == SUMS {
      r := Delete(host, id, a);
      if r.Raise? { return; }
    }
    ghost var rs, ws := host.releases, host.writes;
    assert KeepsOthers(assets, rs[id].assets, SUMS);
    r := Upload(host, id, SUMS, content);
    OnlyAssetsTrans(id, old(host.releases), old(host.writes), rs, ws, host.releases, host.writes);
    if r.Raise? { return; }
    KeepsTrans(assets, rs[id].assets, host.releases[id].assets, SUMS);
  }

  lemma KeepsTrans(a0: Assets, a1: Assets, a2: Assets, name: string)
    requires KeepsOthers(a0, a1, name) && KeepsOthers(a1, a2, name)
    ensures KeepsOthers(a0, a2, name)
  {
  }

  /** From any content to `files` and their SHA256SUMS and no more. */
  method FillDraft(host: Host, id: nat, release: Release, files: Files) returns (r: Result<()>)
    requires host.Valid() && id in host.releases && release == host.releases[id] && SUMS !in files
    modifies host
    ensures host.Valid() && OnlyAssets(id, old(host.releases), old(host.writes), host.releases, host.writes)
    ensures r.Ok? ==> Holds(host.releases[id].assets, WithSums(files))
    ensures r.Raise? ==> r.error.Http?
    // A draft that is already right is left alone.
    ensures Holds(release.assets, WithSums(files)) ==>
            host.writes == old(host.writes) && host.releases == old(host.releases)
    ensures Blames(r, old(host.failed), host.failed, old(host.refusals), host.refusals)
  {
    r := RemoveUnwanted(host, id, release, files);
    if r.Raise? { return; }
    ghost var rs, ws, rs1, ws1 := old(host.releases), old(host.writes), host.releases, host.writes;
    r := AddMissing(host, id, files);
    OnlyAssetsTrans(id, rs, ws, rs1, ws1, host.releases, host.writes);
    if r.Raise? { return; }
    rs1, ws1 := host.releases, host.writes;
    r := PutSums(host, id, files);
    OnlyAssetsTrans(id, rs, ws, rs1, ws1, host.releases, host.writes);
  }

  /** The first half of FillDraft: incomplete, foreign, duplicated and outdated assets go. */
  method RemoveUnwanted(host: Host, id: nat, release: Release, files: Files) returns (r: Result<()>)
    requires host.Valid() && id in host.releases && release == host.releases[id]
    modifies host
    ensures host.Valid() && OnlyAssets(id, old(host.releases), old(host.writes), host.releases, host.writes)
    ensures r.Ok? ==> Clean(host.releases[id].assets, files)
    ensures r.Raise? ==> r.error.Http?
    ensures Clean(release.assets, files) ==> host.writes == old(host.writes) && host.releases == old(host.releases)
    ensures Blames(r, old(host.failed), host.failed, old(host.refusals), host.refusals)
  {
    ghost var rs, ws := host.releases, host.writes;
    r := DropIncomplete(host, id, release);
    if r.Raise? { return; }
    var current := Refresh(host, id);
    if current.Raise? { return Raise(current.error); }
    var gone := Unwanted(host, current.value.assets, files);
    if gone.Raise? { return Raise(gone.error); }
    WantedIsClean(current.value.assets, files, gone.value);
    ghost var rs1, ws1 := host.releases, host.writes;
    r := DeleteAll(host, id, gone.value);
    OnlyAssetsTrans(id, rs, ws, rs1, ws1, host.releases, host.writes);
  }
}
