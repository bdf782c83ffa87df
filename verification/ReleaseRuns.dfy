/** Whole runs of the release script: stage, publish and plan, and any sequence of them. */
module ReleaseRuns {
  import opened Search
  import opened ChecksumList
  import opened Digest
  import opened ReleaseHost
  import opened ReleaseProtocol

  // ---- Finding the tag's release ----

  function TagIds(releases: Releases, tag: string): set<nat> {
    set id | id in releases && releases[id].tag == tag
  }

  function WithDraft(releases: Releases, tag: string, draft: bool): set<nat> {
    set id | id in releases && releases[id].tag == tag && releases[id].draft == draft
  }

  /** No one release stands for the tag. */
  predicate Ambiguous(releases: Releases, tag: string) {
    var published := WithDraft(releases, tag, false);
    |published| > 1 || (published == {} && |WithDraft(releases, tag, true)| > 1)
  }

  lemma AtMostOneElement(s: set<nat>, x: nat)
    requires x in s
    ensures |s| <= 1 <==> s == {x}
  {
    assert |s - {x}| == |s| - 1;
    assert s == {x} + (s - {x});
  }

  /** Which release counts for a tag; a public one wins over drafts, and drafts must be alone. */
  method FindRelease(host: Host, tag: string) returns (r: Result<Option<nat>>)
    modifies host`failed
    ensures Blames(r, old(host.failed), host.failed, old(host.refusals), host.refusals)
    ensures r == Ok(None) ==> TagIds(host.releases, tag) == {}
    ensures r.Ok? && r.value.Some? ==> r.value.value in TagIds(host.releases, tag)
    ensures r.Ok? && r.value.Some? && host.releases[r.value.value].draft ==>
            TagIds(host.releases, tag) == {r.value.value}
    ensures r.Ok? && r.value.Some? && !host.releases[r.value.value].draft ==>
            WithDraft(host.releases, tag, false) == {r.value.value}
    ensures if r.Ok? then !Ambiguous(host.releases, tag) else r.error.Http? || Ambiguous(host.releases, tag)
    ensures r.Raise? ==> r.error.Http? || forall id :: TagIds(host.releases, tag) != {id}
    ensures TagIds(host.releases, tag) == {} ==> r == Ok(None) || (r.Raise? && r.error.Http?)
  {
    var answered := host.Get();
    if !answered { return Raise(Http(Uncertain)); }
    var matches := TagIds(host.releases, tag);
    var published := WithDraft(host.releases, tag, false);
    var drafts := WithDraft(host.releases, tag, true);
    if published != {} {
      var x :| x in published;
      AtMostOneElement(published, x);
      assert published <= matches && forall id :: matches == {id} ==> published == {x};
      if |published| > 1 { return Raise(Problem); }
      return Ok(Some(x));
    }
    assert matches == drafts by { assert forall id :: id in matches ==> id in published || id in drafts; }
    if drafts != {} {
      var x :| x in drafts;
      AtMostOneElement(drafts, x);
      if |drafts| > 1 { return Raise(Problem); }
      return Ok(Some(x));
    }
    r := Ok(None);
  }

  /** A new draft. An unanswered request is followed by a search, so no second one appears. */
  method CreateDraft(host: Host, tag: string, commit: string) returns (r: Result<nat>)
    requires host.Valid() && TagIds(host.releases, tag) == {}
    modifies host
    ensures host.Valid() && old(host.writes) <= host.writes
    ensures forall i :: |old(host.writes)| <= i < |host.writes| ==> host.writes[i] == Create(tag)
    // However many answers are lost, at most one draft appears.
    ensures old(host.next) !in old(host.releases)
    ensures host.releases == old(host.releases)
         || host.releases == old(host.releases)[old(host.next) := Release(tag, true, commit, map[])]
    ensures r.Ok? ==> r.value == old(host.next) && r.value in host.releases
    ensures r.Raise? ==> r.error.Http?
    // It gives up once a request is refused, the search fails, or the third request does.
    ensures var sent := |host.writes| - |old(host.writes)|;
            && 1 <= sent <= 3
            && (r.Raise? ==> r.error == Http(Refused) || sent == 3 || host.failed > old(host.failed) + sent)
    ensures Blames(r, old(host.failed), host.failed, old(host.refusals), host.refusals)
  {
    ghost var rs, ws, n := host.releases, host.writes, host.next;
    var attempt := 1;
    while true
      invariant 1 <= attempt <= TRIES && host.Valid() && host.releases == rs && host.next == n && ws <= host.writes
      invariant forall i :: |ws| <= i < |host.writes| ==> host.writes[i] == Create(tag)
      invariant old(host.failed) + attempt - 1 <= host.failed && old(host.refusals) == host.refusals
      invariant |host.writes| == |ws| + attempt - 1
      decreases TRIES - attempt
    {
      var reply := host.PostDraft(tag, commit);
      if reply.Got? { return Ok(reply.value); }
      if reply.failure != Uncertain || attempt == TRIES { return Raise(Http(reply.failure)); }
      assert host.releases == rs || TagIds(host.releases, tag) == {n};
      var found := FindRelease(host, tag);
      if found.Raise? { return Raise(found.error); }
      if found.value.Some? { return Ok(found.value.value); }
      attempt := attempt + 1;
    }
  }

  // ---- The checks ----

  /** Digest and size of every asset, by name. */
  function ExpectedAssets(all: Files): map<string, (string, nat)> {
    map n | n in all :: (Sha256(all[n]), |all[n]|)
  }

  /** Size and digest as expected, for an asset whose name is. */
  method CheckAsset(host: Host, asset: Asset, expected: (string, nat), ghost content: string) returns (r: Result<bool>)
    requires expected == (Sha256(content), |content|)
    modifies host`failed
    ensures Blames(r, old(host.failed), host.failed, old(host.refusals), host.refusals)
    ensures r.Ok? ==> (r.value <==> asset.content == content)
    ensures r.Raise? ==> r.error.Http?
  {
    if |asset.content| != expected.1 { return Ok(false); }
    var found := AssetDigest(host, asset);
    if found.Raise? { return Raise(found.error); }
    Sha256Injective(asset.content, content);
    r := Ok(found.value == expected.0);
  }

  method CheckAssets(host: Host, assets: Assets, all: Files) returns (r: Result<bool>)
    requires NamesOf(assets) == all.Keys
    modifies host`failed
    ensures Blames(r, old(host.failed), host.failed, old(host.refusals), host.refusals)
    ensures r.Ok? ==>
            (r.value <==> forall a :: a in assets ==> assets[a].name in all && assets[a].content == all[assets[a].name])
    ensures r.Raise? ==> r.error.Http?
  {
    var expected := ExpectedAssets(all);
    assert forall a :: a in assets ==> assets[a].name in NamesOf(assets);
    var rest := assets.Keys;
    while rest != {}
      invariant rest <= assets.Keys && old(host.failed) <= host.failed
      invariant forall a :: a in assets && a !in rest ==> assets[a].content == all[assets[a].name]
      decreases rest
    {
      var a :| a in rest;
      r := CheckAsset(host, assets[a], expected[assets[a].name], all[assets[a].name]);
      if r.Raise? || !r.value { return; }
      rest := rest - {a};
    }
    r := Ok(true);
  }

  /** Accepts a release exactly when it holds the expected files. */
  method VerifyFinal(host: Host, assets: Assets, all: Files) returns (r: Result<()>)
    modifies host`failed
    ensures Blames(r, old(host.failed), host.failed, old(host.refusals), host.refusals)
    ensures r.Ok? ==> Holds(assets, all)
    ensures r.Raise? ==> r.error.Http? || !Holds(assets, all)
  {
    if Holds(assets, all) { HeldNames(assets, all); }
    if (exists a, b :: a in assets && b in assets && a != b && assets[a].name == assets[b].name)
      || (exists a :: a in assets && !assets[a].uploaded)
      || all.Keys != NamesOf(assets)
    {
      return Raise(Problem);
    }
    var ok := CheckAssets(host, assets, all);
    if ok.Raise? { return Raise(ok.error); }
    if !ok.value { return Raise(Problem); }
    forall n | n in all ensures Has(assets, n) { assert n in NamesOf(assets); }
    r := Ok(());
  }

  lemma HeldNames(assets: Assets, files: Files)
    requires Holds(assets, files)
    ensures NamesOf(assets) == files.Keys
  {
    forall n | n in files ensures n in NamesOf(assets) { assert Has(assets, n); }
  }

  /** A published release that matches its own SHA256SUMS, asset `s`, and has every local name. */
  ghost predicate SoundWith(assets: Assets, names: set<string>, s: nat) {
    && UniqueNames(assets) && Complete(assets, s, SUMS)
    && var complete := Uploaded(assets);
       var sums := ParseSums(assets[s].content);
       && names <= NamesOf(complete)
       && sums.Some? && NamesOf(complete) - {SUMS} == sums.value.Keys
       && forall a :: a in complete && a != s ==> Sha256(complete[a].content) == sums.value[complete[a].name]
  }

  ghost predicate Sound(assets: Assets, names: set<string>) {
    exists s :: SoundWith(assets, names, s)
  }

  /** Each listed asset has the digest its SHA256SUMS entry gives. */
  method CheckListed(host: Host, assets: Assets, s: nat, sums: Digests) returns (r: Result<bool>)
    requires s in assets && assets[s].name == SUMS && UniqueNames(assets)
    requires NamesOf(assets) - {SUMS} == sums.Keys
    modifies host`failed
    ensures Blames(r, old(host.failed), host.failed, old(host.refusals), host.refusals)
    ensures r.Ok? ==>
            (r.value <==>
              forall a :: a in assets && a != s ==>
                assets[a].name in sums && Sha256(assets[a].content) == sums[assets[a].name])
    ensures r.Raise? ==> r.error.Http?
  {
    assert forall a :: a in assets && a != s ==> assets[a].name in NamesOf(assets) - {SUMS};
    var rest := assets.Keys - {s};
    while rest != {}
      invariant rest <= assets.Keys - {s} && old(host.failed) <= host.failed
      invariant forall a :: a in assets && a != s && a !in rest ==> Sha256(assets[a].content) == sums[assets[a].name]
      decreases rest
    {
      var a :| a in rest;
      var digest := AssetDigest(host, assets[a]);
      if digest.Raise? { return Raise(digest.error); }
      if digest.value != sums[assets[a].name] { return Ok(false); }
      rest := rest - {a};
    }
    r := Ok(true);
  }

  lemma SoundUnique(assets: Assets, names: set<string>, s: nat)
    requires Complete(assets, s, SUMS) && UniqueNames(assets)
    ensures Sound(assets, names) <==> SoundWith(assets, names, s)
  {
    if t :| SoundWith(assets, names, t) { assert t == s; }
  }

  lemma SoundHasSums(assets: Assets, names: set<string>)
    requires Sound(assets, names)
    ensures UniqueNames(assets) && exists s :: s in assets && Complete(assets, s, SUMS)
  {
    var s :| SoundWith(assets, names, s);
  }

  /** The check of a published release, which is never changed, accepts exactly the sound ones. */
  method VerifyPublished(host: Host, assets: Assets, names: set<string>) returns (r: Result<()>)
    modifies host`failed
    ensures Blames(r, old(host.failed), host.failed, old(host.refusals), host.refusals)
    ensures r.Ok? ==> Sound(assets, names)
    ensures r.Raise? ==> r.error.Http? || !Sound(assets, names)
  {
    if Sound(assets, names) { SoundHasSums(assets, names); }
    if exists a, b :: a in assets && b in assets && a != b && assets[a].name == assets[b].name {
      return Raise(Problem);
    }
    if s :| s in assets && Complete(assets, s, SUMS) {
      SoundUnique(assets, names, s);
      var answered := host.Get();
      if !answered { return Raise(Http(Uncertain)); }
      var sums := ReadSums(assets[s].content);
      var complete := Uploaded(assets);
      if sums.None? || NamesOf(complete) - {SUMS} != sums.value.Keys || !(names <= NamesOf(complete)) {
        return Raise(Problem);
      }
      var ok := CheckListed(host, complete, s, sums.value);
      if ok.Raise? { return Raise(ok.error); }
      if !ok.value { return Raise(Problem); }
      assert SoundWith(assets, names, s);
      r := Ok(());
    } else {
      r := Raise(Problem);
    }
  }

  lemma HeldMatchesSums(assets: Assets, all: Files, s: nat, digests: Digests)
    requires Holds(assets, all) && SUMS in all && s in assets && assets[s].name == SUMS
    requires ParseSums(all[SUMS]) == Some(digests) && digests == DigestsOf(all - {SUMS})
    ensures SoundWith(assets, all.Keys - {SUMS}, s)
  {
    HeldNames(assets, all);
    assert Uploaded(assets) == assets;
    assert digests.Keys == all.Keys - {SUMS};
    forall a | a in assets && a != s ensures Sha256(assets[a].content) == digests[assets[a].name] {
      assert assets[a].name != SUMS;
    }
  }

  lemma SumsReadBack(files: Files)
    requires GoodNames(files)
    ensures ParseSums(SumsOf(files)) == Some(DigestsOf(files))
  {
    forall n | n in files ensures GoodDigest(DigestsOf(files)[n]) { Sha256IsGood(files[n]); }
    RoundTrip(DigestsOf(files));
  }

  /** What staging leaves is what the check of a published release asks for. */
  lemma HeldIsSound(assets: Assets, files: Files)
    requires SUMS !in files && GoodNames(files) && Holds(assets, WithSums(files))
    ensures Sound(assets, files.Keys)
  {
    var all := WithSums(files);
    assert Has(assets, SUMS) by { assert SUMS in all; }
    var s :| s in assets && assets[s].name == SUMS;
    SumsReadBack(files);
    assert all - {SUMS} == files;
    HeldMatchesSums(assets, all, s, DigestsOf(files));
  }

  lemma SumsMatchHeld(assets: Assets, all: Files, s: nat, sums: Digests)
    requires Holds(assets, all) && SUMS in all && SoundWith(assets, all.Keys - {SUMS}, s)
    requires ParseSums(assets[s].content) == Some(sums)
    ensures sums == DigestsOf(all - {SUMS})
  {
    HeldNames(assets, all);
    assert Uploaded(assets) == assets;
    assert sums.Keys == all.Keys - {SUMS};
    forall n | n in sums ensures sums[n] == Sha256(all[n]) { SumMatchesHeld(assets, all, s, sums, n); }
  }

  lemma SumMatchesHeld(assets: Assets, all: Files, s: nat, sums: Digests, n: string)
    requires Holds(assets, all) && SoundWith(assets, all.Keys - {SUMS}, s) && ParseSums(assets[s].content) == Some(sums)
    requires n in all && n in sums && n != SUMS
    ensures sums[n] == Sha256(all[n])
  {
    assert Has(assets, n);
    var a :| a in assets && assets[a].name == n;
    HeldText(assets, all, a, n);
    assert Uploaded(assets) == assets;
  }

  lemma ReadBackIsGood(files: Files)
    requires ParseSums(SumsOf(files)) == Some(DigestsOf(files))
    ensures GoodNames(files)
  {
    forall n | n in files ensures GoodDigest(DigestsOf(files)[n]) { Sha256IsGood(files[n]); }
    OnlyGoodNames(DigestsOf(files));
  }

  lemma SoundNamesAreGood(assets: Assets, files: Files, all: Files, s: nat)
    requires SUMS !in files && all == WithSums(files) && Holds(assets, all) && SoundWith(assets, files.Keys, s)
    ensures GoodNames(files)
  {
    assert all - {SUMS} == files && all.Keys - {SUMS} == files.Keys;
    var sums := ParseSums(assets[s].content).value;
    SumsMatchHeld(assets, all, s, sums);
    HeldText(assets, all, s, SUMS);
    GoodFrom(files, assets[s].content, sums);
  }

  lemma HeldText(assets: Assets, all: Files, s: nat, name: string)
    requires Holds(assets, all) && s in assets && assets[s].name == name
    ensures name in all && assets[s].content == all[name]
  {
    HeldNames(assets, all);
  }

  lemma GoodFrom(files: Files, text: string, sums: Digests)
    requires text == SumsOf(files) && ParseSums(text) == Some(sums) && sums == DigestsOf(files)
    ensures GoodNames(files)
  {
    ReadBackIsGood(files);
  }

  /** A release as staging leaves it passes the published check exactly when its names are good. */
  lemma HeldIsSoundIff(assets: Assets, files: Files)
    requires SUMS !in files && Holds(assets, WithSums(files))
    ensures Sound(assets, files.Keys) <==> GoodNames(files)
  {
    if GoodNames(files) { HeldIsSound(assets, files); }
    if s :| SoundWith(assets, files.Keys, s) { SoundNamesAreGood(assets, files, WithSums(files), s); }
  }

  /** A release staged with such a name holds its files and is refused. */
  lemma StarIsRefused(assets: Assets, content: string)
    requires Holds(assets, WithSums(map["*a" := content]))
    ensures !Sound(assets, {"*a"})
  {
    var files: Files := map["*a" := content];
    assert "*a" in files && !GoodName("*a") && files.Keys == {"*a"};
    HeldIsSoundIff(assets, files);
  }

  /** One SHA256SUMS hash stands for one set of files: what was staged is what is published. */
  lemma SumsHashNamesFiles(a: Files, b: Files)
    requires GoodNames(a) && GoodNames(b) && Sha256(SumsOf(a)) == Sha256(SumsOf(b))
    ensures a == b
  {
    Sha256Injective(SumsOf(a), SumsOf(b));
    SumsReadBack(a);
    SumsReadBack(b);
    assert DigestsOf(a) == DigestsOf(b);
    assert a.Keys == DigestsOf(a).Keys && b.Keys == DigestsOf(b).Keys;
    forall n | n in a ensures a[n] == b[n] {
      assert DigestsOf(a)[n] == DigestsOf(b)[n];
      Sha256Injective(a[n], b[n]);
    }
  }

  // ---- Runs ----

  /** Between two states, no public release changed and no write named one. */
  ghost predicate Spares(rs0: Releases, ws0: seq<Write>, rs: Releases, ws: seq<Write>) {
    && (forall id :: id in rs0 && !rs0[id].draft ==> id in rs && rs[id] == rs0[id])
    && ws0 <= ws
    && forall i :: |ws0| <= i < |ws| ==> !NamesPublic(ws[i], rs0)
  }

  /** An upload, delete or publish of a release that is public in `rs`. */
  predicate NamesPublic(w: Write, rs: Releases) { !w.Create? && w.id in rs && !rs[w.id].draft }

  /** No release is public that was not before. */
  ghost predicate NoNewPublic(rs0: Releases, rs: Releases) {
    forall id :: id in rs && !rs[id].draft ==> id in rs0 && !rs0[id].draft
  }

  /** The tag's only release is a draft of this commit that holds exactly these files. */
  ghost predicate Staged(rs: Releases, tag: string, commit: string, files: Files, id: nat) {
    && TagIds(rs, tag) == {id} && rs[id].draft && rs[id].commit == commit
    && Holds(rs[id].assets, WithSums(files))
  }

  /** The tag's only release is public and sound. */
  ghost predicate Released(rs: Releases, tag: string, names: set<string>, id: nat) {
    TagIds(rs, tag) == {id} && !rs[id].draft && Sound(rs[id].assets, names)
  }

  /** The release that counts for a tag. */
  ghost predicate CountsFor(rs: Releases, tag: string, id: nat) {
    && id in rs
    && (|| WithDraft(rs, tag, false) == {id}
        || (WithDraft(rs, tag, false) == {} && WithDraft(rs, tag, true) == {id}))
  }

  /** Why staging stops: the tag is ambiguous, its draft is another commit's, or its public release is unsound. */
  ghost predicate Unstageable(rs: Releases, tag: string, commit: string, names: set<string>) {
    || Ambiguous(rs, tag)
    || exists id ::
         && CountsFor(rs, tag, id)
         && if rs[id].draft then rs[id].commit != commit else !Sound(rs[id].assets, names)
  }

  /** Why publishing does: what counts is not what was staged, or is not sound once public. */
  ghost predicate Unpublishable(rs: Releases, tag: string, files: Files, staged: (nat, string)) {
    || Ambiguous(rs, tag) || !CountsFor(rs, tag, staged.0)
    || if rs[staged.0].draft then
         staged.1 != Sha256(SumsOf(files)) || !Holds(rs[staged.0].assets, WithSums(files))
       else !Sound(rs[staged.0].assets, files.Keys)
  }

  method Stage(host: Host, tag: string, commit: string, dir: Files) returns (r: Result<(nat, string)>)
    requires host.Valid()
    modifies host
    ensures host.Valid() && Spares(old(host.releases), old(host.writes), host.releases, host.writes)
    ensures NoNewPublic(old(host.releases), host.releases)
    // At most one release appears, and only for a tag without one.
    ensures host.releases.Keys == old(host.releases).Keys
         || (TagIds(old(host.releases), tag) == {} && host.releases.Keys == old(host.releases).Keys + {old(host.next)})
    // Success: the draft holds exactly the files, or the public release is sound and untouched.
    ensures r.Ok? && r.value.0 in host.releases && host.releases[r.value.0].draft ==>
              Staged(host.releases, tag, commit, LocalFiles(dir), r.value.0) &&
              r.value.1 == Sha256(SumsOf(LocalFiles(dir)))
    ensures r.Ok? ==> r.value.0 in TagIds(host.releases, tag)
    ensures r.Ok? && !host.releases[r.value.0].draft ==>
              Sound(host.releases[r.value.0].assets, LocalFiles(dir).Keys)
              && host.releases == old(host.releases) && host.writes == old(host.writes)
    // Staging what is staged, or what is released, only reads, and fails only with a request.
    ensures forall id: nat ::
            Staged(old(host.releases), tag, commit, LocalFiles(dir), id) && LocalFiles(dir) != map[] ==>
              host.releases == old(host.releases) && host.writes == old(host.writes)
              && (r == Ok((id, Sha256(SumsOf(LocalFiles(dir))))) || (r.Raise? && r.error.Http?))
    ensures forall id: nat ::
            Released(old(host.releases), tag, LocalFiles(dir).Keys, id) && LocalFiles(dir) != map[] ==>
              host.releases == old(host.releases) && host.writes == old(host.writes)
              && ((r.Ok? && r.value.0 == id) || (r.Raise? && r.error.Http?))
    ensures Blames(r, old(host.failed), host.failed, old(host.refusals), host.refusals)
    // It stops for a failed request, or exactly when there is nothing to stage or it must not.
    ensures r.Raise? && r.error.Problem? ==>
            LocalFiles(dir) == map[] || Unstageable(old(host.releases), tag, commit, LocalFiles(dir).Keys)
    ensures r.Ok? ==> LocalFiles(dir) != map[] && !Unstageable(old(host.releases), tag, commit, LocalFiles(dir).Keys)
  {
    var files := LocalFiles(dir);
    if files == map[] { return Raise(Problem); }
    r := StageFiles(host, tag, commit, files);
  }

  method StageFiles(host: Host, tag: string, commit: string, files: Files) returns (r: Result<(nat, string)>)
    requires host.Valid() && SUMS !in files
    modifies host
    ensures host.Valid() && Spares(old(host.releases), old(host.writes), host.releases, host.writes)
    ensures NoNewPublic(old(host.releases), host.releases)
    ensures host.releases.Keys == old(host.releases).Keys
         || (TagIds(old(host.releases), tag) == {} && host.releases.Keys == old(host.releases).Keys + {old(host.next)})
    ensures r.Ok? && r.value.0 in host.releases && host.releases[r.value.0].draft ==>
              Staged(host.releases, tag, commit, files, r.value.0) && r.value.1 == Sha256(SumsOf(files))
    ensures r.Ok? ==> r.value.0 in TagIds(host.releases, tag)
    ensures r.Ok? && !host.releases[r.value.0].draft ==>
              Sound(host.releases[r.value.0].assets, files.Keys)
              && host.releases == old(host.releases) && host.writes == old(host.writes)
    ensures forall id: nat :: Staged(old(host.releases), tag, commit, files, id) ==>
              host.releases == old(host.releases) && host.writes == old(host.writes)
              && (r == Ok((id, Sha256(SumsOf(files)))) || (r.Raise? && r.error.Http?))
    ensures forall id: nat :: Released(old(host.releases), tag, files.Keys, id) ==>
              host.releases == old(host.releases) && host.writes == old(host.writes)
              && ((r.Ok? && r.value.0 == id) || (r.Raise? && r.error.Http?))
    ensures Blames(r, old(host.failed), host.failed, old(host.refusals), host.refusals)
    ensures r.Raise? && r.error.Problem? ==> Unstageable(old(host.releases), tag, commit, files.Keys)
    ensures r.Ok? ==> !Unstageable(old(host.releases), tag, commit, files.Keys)
  {
    var found := FindRelease(host, tag);
    if found.Raise? { return Raise(found.error); }
    FoundCounts(host.releases, tag, found.value);
    if found.value.Some? && !host.releases[found.value.value].draft {
      var sums := CheckReleased(host, host.releases[found.value.value].assets, files.Keys);
      return if sums.Ok? then Ok((found.value.value, sums.value)) else Raise(sums.error);
    }
    var draft := StageDraft(host, tag, commit, files, found.value);
    if draft.Raise? { return Raise(draft.error); }
    r := Ok((draft.value, Sha256(SumsOf(files))));
  }

  /** The tag's draft, filled with exactly the files. */
  method StageDraft(host: Host, tag: string, commit: string, files: Files, found: Option<nat>) returns (r: Result<nat>)
    requires host.Valid() && SUMS !in files
    requires found.None? ==> TagIds(host.releases, tag) == {}
    requires found.Some? ==> TagIds(host.releases, tag) == {found.value} && host.releases[found.value].draft
    modifies host
    ensures host.Valid() && Spares(old(host.releases), old(host.writes), host.releases, host.writes)
    ensures NoNewPublic(old(host.releases), host.releases)
    ensures host.releases.Keys == old(host.releases).Keys
         || (found.None? && host.releases.Keys == old(host.releases).Keys + {old(host.next)})
    ensures r.Ok? ==> Staged(host.releases, tag, commit, files, r.value)
    ensures found.Some? && Staged(old(host.releases), tag, commit, files, found.value) ==>
              host.releases == old(host.releases) && host.writes == old(host.writes)
              && (r == Ok(found.value) || (r.Raise? && r.error.Http?))
    ensures Blames(r, old(host.failed), host.failed, old(host.refusals), host.refusals)
    ensures r.Raise? && r.error.Problem? ==> found.Some? && old(host.releases)[found.value].commit != commit
    ensures r.Ok? && found.Some? ==> old(host.releases)[found.value].commit == commit
  {
    r := DraftFor(host, tag, commit, found);
    if r.Raise? { return; }
    var id := r.value;
    ghost var rs, ws := host.releases, host.writes;
    var filled := FillAndCheck(host, id, files);
    AssetsSpare(id, old(host.releases), old(host.writes), rs, ws, host.releases, host.writes);
    if filled.Raise? { return Raise(filled.error); }
    r := Ok(id);
  }

  /** The draft to work on: the one found, if it is for this commit, or a new one. */
  method DraftFor(host: Host, tag: string, commit: string, found: Option<nat>) returns (r: Result<nat>)
    requires host.Valid()
    requires found.None? ==> TagIds(host.releases, tag) == {}
    requires found.Some? ==> TagIds(host.releases, tag) == {found.value} && host.releases[found.value].draft
    modifies host
    ensures host.Valid() && Spares(old(host.releases), old(host.writes), host.releases, host.writes)
    ensures NoNewPublic(old(host.releases), host.releases)
    ensures host.releases.Keys == old(host.releases).Keys
         || (found.None? && host.releases.Keys == old(host.releases).Keys + {old(host.next)})
    ensures r.Ok? ==>
            TagIds(host.releases, tag) == {r.value} && host.releases[r.value].draft &&
            host.releases[r.value].commit == commit
    ensures found.Some? ==> host.releases == old(host.releases) && host.writes == old(host.writes)
    ensures found.Some? ==> r == if host.releases[found.value].commit == commit then Ok(found.value) else Raise(Problem)
    ensures found.None? && r.Raise? ==> r.error.Http?
    ensures Blames(r, old(host.failed), host.failed, old(host.refusals), host.refusals)
  {
    if found.Some? {
      return if host.releases[found.value].commit == commit then Ok(found.value) else Raise(Problem);
    }
    r := CreateDraft(host, tag, commit);
  }

  /** A public release is only checked; the digest of its SHA256SUMS stands for its files. */
  method CheckReleased(host: Host, assets: Assets, names: set<string>) returns (r: Result<string>)
    modifies host`failed
    ensures Blames(r, old(host.failed), host.failed, old(host.refusals), host.refusals)
    ensures r.Ok? ==> exists s :: SoundWith(assets, names, s) && r.value == Sha256(assets[s].content)
    ensures r.Raise? ==> r.error.Http? || !Sound(assets, names)
  {
    var checked := VerifyPublished(host, assets, names);
    if checked.Raise? { return Raise(checked.error); }
    SoundHasSums(assets, names);
    var s :| s in assets && Complete(assets, s, SUMS);
    SoundUnique(assets, names, s);
    r := AssetDigest(host, assets[s]);
  }

  /** The part of staging that works on the draft. */
  method FillAndCheck(host: Host, id: nat, files: Files) returns (r: Result<()>)
    requires host.Valid() && id in host.releases && SUMS !in files
    modifies host
    ensures host.Valid() && OnlyAssets(id, old(host.releases), old(host.writes), host.releases, host.writes)
    ensures r.Ok? ==> Holds(host.releases[id].assets, WithSums(files))
    ensures r.Raise? ==> r.error.Http?
    ensures Holds(old(host.releases[id].assets), WithSums(files)) ==>
              host.writes == old(host.writes) && host.releases == old(host.releases)
    ensures Blames(r, old(host.failed), host.failed, old(host.refusals), host.refusals)
  {
    r := FillDraft(host, id, host.releases[id], files);
    if r.Raise? { return; }
    var release := Refresh(host, id);
    if release.Raise? { return Raise(release.error); }
    r := VerifyFinal(host, release.value.assets, WithSums(files));
  }

  lemma AssetsSpare(id: nat, rs0: Releases, ws0: seq<Write>, rs1: Releases, ws1: seq<Write>, rs: Releases,
                    ws: seq<Write>)
    requires Spares(rs0, ws0, rs1, ws1) && NoNewPublic(rs0, rs1)
    requires id in rs1 && rs1[id].draft && OnlyAssets(id, rs1, ws1, rs, ws)
    ensures Spares(rs0, ws0, rs, ws) && NoNewPublic(rs0, rs)
    ensures forall tag :: TagIds(rs, tag) == TagIds(rs1, tag)
    ensures rs[id].draft && rs[id].commit == rs1[id].commit && rs.Keys == rs1.Keys
  {
    forall i | |ws0| <= i < |ws| ensures !NamesPublic(ws[i], rs0) {
      if i < |ws1| {
        assert ws[i] == ws1[i];
      } else {
        assert AssetWrite(ws[i], id);
      }
    }
  }

  /** A PATCH is sent again while it gets no answer. */
  method PublishRelease(host: Host, id: nat) returns (r: Result<()>)
    requires host.Valid() && id in host.releases && host.releases[id].draft
    modifies host
    ensures host.Valid() && old(host.writes) <= host.writes
    ensures forall i :: |old(host.writes)| <= i < |host.writes| ==> host.writes[i] == ReleaseHost.Publish(id)
    ensures host.releases == old(host.releases)
         || host.releases == old(host.releases)[id := old(host.releases)[id].(draft := false)]
    ensures r.Ok? ==> host.releases == old(host.releases)[id := old(host.releases)[id].(draft := false)]
    // It gives up once a request is refused, or four were not answered.
    ensures var sent := |host.writes| - |old(host.writes)|;
            1 <= sent <= 4 && (r.Raise? ==> r.error == Http(Refused) || (r.error == Http(Uncertain) && sent == 4))
    ensures Blames(r, old(host.failed), host.failed, old(host.refusals), host.refusals)
  {
    ghost var rs, ws := host.releases, host.writes;
    ghost var public := rs[id := rs[id].(draft := false)];
    var attempt := 1;
    while true
      invariant 1 <= attempt <= ATTEMPTS && host.Valid() && ws <= host.writes
      invariant forall i :: |ws| <= i < |host.writes| ==> host.writes[i] == ReleaseHost.Publish(id)
      invariant host.releases == rs || host.releases == public
      invariant old(host.failed) <= host.failed && old(host.refusals) == host.refusals
      invariant |host.writes| == |ws| + attempt - 1
      decreases ATTEMPTS - attempt
    {
      var reply := host.PatchPublished(id);
      if reply.Got? { return Ok(()); }
      if reply.failure != Uncertain || attempt == ATTEMPTS { return Raise(Http(reply.failure)); }
      attempt := attempt + 1;
    }
  }

  /** Turns a staged draft public as it is. `staged` is its identifier and the sha256 of its SHA256SUMS. */
  method Publish(host: Host, tag: string, dir: Files, staged: (nat, string)) returns (r: Result<()>)
    requires host.Valid()
    modifies host
    ensures host.Valid() && Spares(old(host.releases), old(host.writes), host.releases, host.writes)
    // The only change is that the staged draft becomes public, and then it holds exactly the staged files.
    ensures PublishesOnly(old(host.releases), host.releases, tag, LocalFiles(dir), staged)
    ensures forall i :: |old(host.writes)| <= i < |host.writes| ==> host.writes[i] == ReleaseHost.Publish(staged.0)
    ensures r.Ok? ==> staged.0 in host.releases && !host.releases[staged.0].draft
    // It stops for a failed request, or exactly when it must not publish; a public release is only read.
    ensures r.Raise? && r.error.Problem? ==>
            LocalFiles(dir) == map[] || Unpublishable(old(host.releases), tag, LocalFiles(dir), staged)
    ensures r.Ok? ==> LocalFiles(dir) != map[] && !Unpublishable(old(host.releases), tag, LocalFiles(dir), staged)
    ensures staged.0 in old(host.releases) && !old(host.releases)[staged.0].draft ==>
            host.releases == old(host.releases) && host.writes == old(host.writes)
    ensures Blames(r, old(host.failed), host.failed, old(host.refusals), host.refusals)
  {
    var files := LocalFiles(dir);
    if files == map[] { return Raise(Problem); }
    r := PublishFiles(host, tag, files, staged);
  }

  /** Nothing changes, or the staged draft of this tag, which holds the files, becomes public. */
  ghost predicate PublishesOnly(rs0: Releases, rs: Releases, tag: string, files: Files, staged: (nat, string)) {
    || rs == rs0
    || (&& staged.0 in rs0 && rs0[staged.0].draft && rs0[staged.0].tag == tag
        && rs == rs0[staged.0 := rs0[staged.0].(draft := false)]
        && Holds(rs[staged.0].assets, WithSums(files)) && staged.1 == Sha256(SumsOf(files)))
  }

  method PublishFiles(host: Host, tag: string, files: Files, staged: (nat, string)) returns (r: Result<()>)
    requires host.Valid()
    modifies host
    ensures host.Valid() && Spares(old(host.releases), old(host.writes), host.releases, host.writes)
    ensures PublishesOnly(old(host.releases), host.releases, tag, files, staged)
    ensures forall i :: |old(host.writes)| <= i < |host.writes| ==> host.writes[i] == ReleaseHost.Publish(staged.0)
    ensures r.Ok? ==> staged.0 in host.releases && !host.releases[staged.0].draft
    ensures r.Raise? && r.error.Problem? ==> Unpublishable(old(host.releases), tag, files, staged)
    ensures r.Ok? ==> !Unpublishable(old(host.releases), tag, files, staged)
    ensures staged.0 in old(host.releases) && !old(host.releases)[staged.0].draft ==>
            host.releases == old(host.releases) && host.writes == old(host.writes)
    ensures Blames(r, old(host.failed), host.failed, old(host.refusals), host.refusals)
  {
    var found := FindRelease(host, tag);
    if found.Raise? { return Raise(found.error); }
    FoundCounts(host.releases, tag, found.value);
    if found.value != Some(staged.0) { return Raise(Problem); }
    var id := staged.0;
    if !host.releases[id].draft {
      r := VerifyPublished(host, host.releases[id].assets, files.Keys);
      return;
    }
    if Sha256(SumsOf(files)) != staged.1 { return Raise(Problem); }
    r := CheckAndPublish(host, id, files);
  }

  method CheckAndPublish(host: Host, id: nat, files: Files) returns (r: Result<()>)
    requires host.Valid() && id in host.releases && host.releases[id].draft
    modifies host
    ensures host.Valid() && Spares(old(host.releases), old(host.writes), host.releases, host.writes)
    ensures host.releases == old(host.releases)
         || (&& host.releases == old(host.releases)[id := old(host.releases)[id].(draft := false)]
             && Holds(host.releases[id].assets, WithSums(files)))
    ensures forall i :: |old(host.writes)| <= i < |host.writes| ==> host.writes[i] == ReleaseHost.Publish(id)
    ensures r.Ok? ==> id in host.releases && !host.releases[id].draft
    ensures r.Raise? && r.error.Problem? ==> !Holds(old(host.releases)[id].assets, WithSums(files))
    ensures r.Ok? ==> Holds(old(host.releases)[id].assets, WithSums(files))
    ensures Blames(r, old(host.failed), host.failed, old(host.refusals), host.refusals)
  {
    var release := Refresh(host, id);
    if release.Raise? { return Raise(release.error); }
    var checked := VerifyFinal(host, release.value.assets, WithSums(files));
    if checked.Raise? { return Raise(checked.error); }
    r := PublishRelease(host, id);
  }

  /** What was found is what counts. */
  lemma FoundCounts(rs: Releases, tag: string, found: Option<nat>)
    requires !Ambiguous(rs, tag)
    requires found.None? ==> TagIds(rs, tag) == {}
    requires found.Some? ==> found.value in TagIds(rs, tag)
    requires found.Some? && rs[found.value].draft ==> TagIds(rs, tag) == {found.value}
    requires found.Some? && !rs[found.value].draft ==> WithDraft(rs, tag, false) == {found.value}
    ensures forall id: nat :: CountsFor(rs, tag, id) <==> found == Some(id)
  {
    assert WithDraft(rs, tag, false) + WithDraft(rs, tag, true) == TagIds(rs, tag);
    if found.Some? && rs[found.value].draft {
      assert WithDraft(rs, tag, true) == {found.value};
      assert WithDraft(rs, tag, false) == {} by {
        assert forall id :: id in WithDraft(rs, tag, false) ==> id in TagIds(rs, tag);
      }
    }
    forall id: nat | CountsFor(rs, tag, id) ensures found == Some(id) {
      assert id in WithDraft(rs, tag, rs[id].draft);
    }
  }

  lemma PublishedIsReleased(rs0: Releases, rs: Releases, tag: string, commit: string, files: Files, id: nat)
    requires Staged(rs0, tag, commit, files, id) && GoodNames(files) && SUMS !in files
    requires rs == rs0[id := rs0[id].(draft := false)]
    ensures Released(rs, tag, files.Keys, id)
  {
    assert TagIds(rs, tag) == TagIds(rs0, tag);
    HeldIsSound(rs[id].assets, files);
  }

  lemma OnlyCounts(rs: Releases, tag: string, id: nat)
    requires TagIds(rs, tag) == {id}
    ensures CountsFor(rs, tag, id) && !Ambiguous(rs, tag)
  {
    assert WithDraft(rs, tag, false) + WithDraft(rs, tag, true) == {id};
    assert id in WithDraft(rs, tag, rs[id].draft) && id !in WithDraft(rs, tag, !rs[id].draft);
    assert WithDraft(rs, tag, rs[id].draft) == {id} && WithDraft(rs, tag, !rs[id].draft) == {};
  }

  lemma StagedIsPublishable(rs: Releases, tag: string, commit: string, files: Files, id: nat)
    requires Staged(rs, tag, commit, files, id)
    ensures !Unpublishable(rs, tag, files, (id, Sha256(SumsOf(files))))
  {
    OnlyCounts(rs, tag, id);
  }

  lemma ReleasedIsPublishable(rs: Releases, tag: string, files: Files, staged: (nat, string))
    requires Released(rs, tag, files.Keys, staged.0)
    ensures !Unpublishable(rs, tag, files, staged)
  {
    OnlyCounts(rs, tag, staged.0);
  }

  /** Once the tag's release is public and sound, publishing and staging only read and accept. */
  method AfterRelease(host: Host, tag: string, commit: string, dir: Files, staged: (nat, string))
      returns (published: Result<()>, again: Result<(nat, string)>)
    requires host.Valid() && LocalFiles(dir) != map[]
    requires Released(host.releases, tag, LocalFiles(dir).Keys, staged.0)
    modifies host
    ensures host.releases == old(host.releases) && host.writes == old(host.writes)
    ensures published.Ok? || published.error.Http?
    ensures old(host.failed) == host.failed ==> published.Ok? && again.Ok?
    ensures (again.Ok? && again.value.0 == staged.0) || (again.Raise? && again.error.Http?)
  {
    ReleasedIsPublishable(host.releases, tag, LocalFiles(dir), staged);
    published := Publish(host, tag, dir, staged);
    again := Stage(host, tag, commit, dir);
  }

  /**
   * After a successful stage: staging the same files again sends nothing and gives the same pair,
   * and publishing that pair succeeds unless a request fails. The publish is the only write, and
   * `AfterRelease` is what follows.
   */
  method AfterStage(host: Host, tag: string, commit: string, dir: Files, id: nat)
      returns (again: Result<(nat, string)>, published: Result<()>)
    requires host.Valid() && LocalFiles(dir) != map[] && GoodNames(LocalFiles(dir))
    requires Staged(host.releases, tag, commit, LocalFiles(dir), id)
    modifies host
    ensures host.Valid()
    ensures again == Ok((id, Sha256(SumsOf(LocalFiles(dir))))) || (again.Raise? && again.error.Http?)
    ensures published.Ok? || published.error.Http?
    ensures old(host.failed) == host.failed ==> published.Ok? && again.Ok?
    ensures old(host.writes) <= host.writes
    ensures forall i :: |old(host.writes)| <= i < |host.writes| ==> host.writes[i] == ReleaseHost.Publish(id)
    ensures published.Ok? ==> Released(host.releases, tag, LocalFiles(dir).Keys, id)
  {
    again := Stage(host, tag, commit, dir);
    ghost var rs := host.releases;
    StagedIsPublishable(rs, tag, commit, LocalFiles(dir), id);
    published := Publish(host, tag, dir, (id, Sha256(SumsOf(LocalFiles(dir)))));
    if published.Ok? { PublishedIsReleased(rs, host.releases, tag, commit, LocalFiles(dir), id); }
  }

  // ---- Any sequence of runs ----

  datatype Run = StageRun(tag: string, commit: string, dir: Files)
               | PublishRun(tag: string, dir: Files, staged: (nat, string))
               | PlanRun(tag: string, dir: Files)

  /** Release `id` is public because `run` published it, holding exactly the files it was given. */
  ghost predicate PublishedBy(run: Run, id: nat, release: Release) {
    && run.PublishRun? && run.staged.0 == id && release.tag == run.tag
    && run.staged.1 == Sha256(SumsOf(LocalFiles(run.dir)))
    && Holds(release.assets, WithSums(LocalFiles(run.dir)))
  }

  /** What one run may do to the releases: nothing to public ones, and only a publish makes one public. */
  ghost predicate RunStep(run: Run, rs0: Releases, ws0: seq<Write>, rs: Releases, ws: seq<Write>) {
    && Spares(rs0, ws0, rs, ws)
    && forall id :: id in rs && !rs[id].draft && (id !in rs0 || rs0[id].draft) ==> PublishedBy(run, id, rs[id])
  }

  /** A plan reads and reports. */
  method Plan(host: Host, tag: string, dir: Files) returns (r: Result<()>)
    modifies host`failed
    ensures Blames(r, old(host.failed), host.failed, old(host.refusals), host.refusals)
  {
    var found := FindRelease(host, tag);
    if found.Raise? { return Raise(found.error); }
    if found.value.Some? && !host.releases[found.value.value].draft {
      r := VerifyPublished(host, host.releases[found.value.value].assets, LocalFiles(dir).Keys);
    } else {
      r := Ok(());
    }
  }

  method Perform(host: Host, run: Run)
    requires host.Valid()
    modifies host
    ensures host.Valid() && RunStep(run, old(host.releases), old(host.writes), host.releases, host.writes)
  {
    match run
    case StageRun(tag, commit, dir) =>
      var _ := Stage(host, tag, commit, dir);
    case PublishRun(tag, dir, staged) =>
      var _ := Publish(host, tag, dir, staged);
    case PlanRun(tag, dir) =>
      var _ := Plan(host, tag, dir);
  }

  /** The states and write logs before and after each run of a sequence. */
  datatype Moment = Moment(releases: Releases, writes: seq<Write>)

  ghost predicate History(runs: seq<Run>, h: seq<Moment>) {
    && |h| == |runs| + 1
    && forall k :: 0 <= k < |runs| ==> RunStep(runs[k], h[k].releases, h[k].writes, h[k + 1].releases, h[k + 1].writes)
  }

  method PerformAll(host: Host, runs: seq<Run>) returns (ghost h: seq<Moment>)
    requires host.Valid()
    modifies host
    ensures host.Valid() && History(runs, h)
    ensures h[0] == Moment(old(host.releases), old(host.writes)) && h[|runs|] == Moment(host.releases, host.writes)
  {
    h := [Moment(host.releases, host.writes)];
    for n := 0 to |runs|
      invariant host.Valid() && |h| == n + 1 && History(runs[..n], h)
      invariant h[0] == Moment(old(host.releases), old(host.writes)) && h[n] == Moment(host.releases, host.writes)
    {
      Perform(host, runs[n]);
      h := h + [Moment(host.releases, host.writes)];
    }
    assert runs[..|runs|] == runs;
  }

  /** A public release stays as it is for every later run. */
  lemma {:induction false} PublicForever(runs: seq<Run>, h: seq<Moment>, i: nat, j: nat, id: nat)
    requires History(runs, h) && i <= j <= |runs|
    requires id in h[i].releases && !h[i].releases[id].draft
    ensures id in h[j].releases && h[j].releases[id] == h[i].releases[id]
    decreases j - i
  {
    if i < j {
      assert RunStep(runs[i], h[i].releases, h[i].writes, h[i + 1].releases, h[i + 1].writes);
      PublicForever(runs, h, i + 1, j, id);
    }
  }

  /** No later run uploads to it, deletes from it or publishes it again. */
  lemma NeverNamedAgain(runs: seq<Run>, h: seq<Moment>, i: nat, j: nat, id: nat, w: nat)
    requires History(runs, h) && i <= j < |runs|
    requires id in h[i].releases && !h[i].releases[id].draft
    requires |h[j].writes| <= w < |h[j + 1].writes|
    ensures h[j + 1].writes[w].Create? || h[j + 1].writes[w].id != id
  {
    PublicForever(runs, h, i, j, id);
    assert RunStep(runs[j], h[j].releases, h[j].writes, h[j + 1].releases, h[j + 1].writes);
  }

  /** A release that is public at the end and was not at the start was published by one of the runs. */
  lemma {:induction false} PublishedByOne(runs: seq<Run>, h: seq<Moment>, j: nat, id: nat) returns (k: nat)
    requires History(runs, h) && j <= |runs|
    requires id in h[j].releases && !h[j].releases[id].draft && !(id in h[0].releases && !h[0].releases[id].draft)
    ensures k < j && PublishedBy(runs[k], id, h[j].releases[id])
    ensures !(id in h[k].releases && !h[k].releases[id].draft)
  {
    assert RunStep(runs[j - 1], h[j - 1].releases, h[j - 1].writes, h[j].releases, h[j].writes);
    if id in h[j - 1].releases && !h[j - 1].releases[id].draft {
      k := PublishedByOne(runs, h, j - 1, id);
    } else {
      k := j - 1;
    }
  }
}
