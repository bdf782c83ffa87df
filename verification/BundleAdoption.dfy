/** Adopting signed bundles in place of the unsigned ones, either every one or none. */
module BundleAdoption {
  import opened ByteStrings
  import opened Numbers
  import opened Search
  import opened BundleSignature

  type Files = map<string, Bytes>

  /** A directory entry: a regular file, or a symbolic link, directory or other thing. */
  datatype Item = File(data: Bytes) | Other

  const SUFFIX := ".mcpb"

  /** The name's last suffix is `.mcpb`; a name that is only the suffix has none. */
  predicate IsBundle(name: string) {
    |name| > |SUFFIX| && name[|name| - |SUFFIX|..] == SUFFIX
  }

  function Originals(release: Files): set<string> { set n | n in release && IsBundle(n) }

  /**
   * `data` may replace the unsigned `original`: it is that file, or that file signed so that a strict reader
   * takes it.
   */
  predicate Takes(original: Bytes, data: Bytes) {
    || data == original
    || (&& SplitSignature(original).1 == Unsigned
        && SplitSignature(data) == (original, Signed)
        && TrailerErrors(data) == None)
  }

  /** What the job handed over is one acceptable file for each of the release's bundles, and nothing else. */
  ghost predicate Adoptable(release: Files, bundles: map<string, Item>) {
    && Originals(release) != {}
    && bundles.Keys == Originals(release)
    && forall n :: n in bundles ==> bundles[n].File? && Takes(release[n], bundles[n].data)
  }

  datatype AdoptError = NoDirectory | NoBundles | NotABundle(name: string) | NotOurs(name: string)
                      | Missing(name: string)
                      | OwnNotUnsigned(name: string) | Different(name: string)
                      | Refused(name: string, why: TrailerError)

  /** An error from comparing a bundle with the release's. */
  predicate Compared(e: AdoptError) { e.OwnNotUnsigned? || e.Different? || e.Refused? }

  /** What is wrong with one bundle. */
  function BundleErrors(name: string, original: Bytes, data: Bytes): (errors: set<AdoptError>)
    ensures errors == {} <==> Takes(original, data)
    ensures forall e :: e in errors ==> Compared(e) && e.name == name
  {
    if data == original then {}
    else if SplitSignature(original).1 != Unsigned then {OwnNotUnsigned(name)}
    else if SplitSignature(data) != (original, Signed) then {Different(name)}
    else match TrailerErrors(data)
      case None => {}
      case Some(why) => {Refused(name, why)}
  }

  /** A bundle the job handed over in the release's own place. */
  predicate Matched(release: Files, items: map<string, Item>, name: string) {
    IsBundle(name) && name in release && name in items && items[name].File?
  }

  /** Which errors there are, each on its own. */
  ghost predicate Wrong(release: Files, items: map<string, Item>, e: AdoptError) {
    match e
    case NoDirectory => false
    case NoBundles => false
    case NotABundle(n) => n in items && (!IsBundle(n) || items[n].Other?)
    case NotOurs(n) => n in items && IsBundle(n) && items[n].File? && n !in release
    case Missing(n) => n in release && IsBundle(n) && (n in items ==> items[n].Other?)
    case OwnNotUnsigned(n) =>
      Matched(release, items, n) && items[n].data != release[n] && SplitSignature(release[n]).1 != Unsigned
    case Different(n) =>
      && Matched(release, items, n) && items[n].data != release[n] && SplitSignature(release[n]).1 == Unsigned
      && (SplitSignature(items[n].data).1 == Signed ==> SplitSignature(items[n].data).0 != release[n])
    case Refused(n, why) =>
      && Matched(release, items, n) && items[n].data != release[n] && SplitSignature(release[n]).1 == Unsigned
      && SplitSignature(items[n].data) == (release[n], Signed) && TrailerErrors(items[n].data) == Some(why)
  }

  lemma OneWrong(release: Files, items: map<string, Item>, n: string)
    requires Matched(release, items, n)
    ensures forall e :: e in BundleErrors(n, release[n], items[n].data) <==>
                        Compared(e) && e.name == n && Wrong(release, items, e)
  {
  }

  /** Names that are bundles, and an error for every other item. */
  method ListBundles(bundles: map<string, Item>) returns (errors: set<AdoptError>, names: set<string>)
    ensures names == set n | n in bundles && IsBundle(n) && bundles[n].File?
    ensures errors == set n | n in bundles && n !in names :: NotABundle(n)
  {
    errors, names := {}, {};
    var rest := bundles.Keys;
    while rest != {}
      invariant rest <= bundles.Keys
      invariant names == set n | n in bundles && n !in rest && IsBundle(n) && bundles[n].File?
      invariant errors == set n | n in bundles && n !in rest && n !in names :: NotABundle(n)
      decreases rest
    {
      var n :| n in rest;
      if !IsBundle(n) || !bundles[n].File? {
        errors := errors + {NotABundle(n)};
        assert n !in names;
      } else {
        names := names + {n};
      }
      rest := rest - {n};
    }
  }

  method CompareBundles(release: Files, bundles: map<string, Item>, names: set<string>)
      returns (errors: set<AdoptError>)
    requires forall n :: n in names ==> Matched(release, bundles, n)
    ensures forall e :: e in errors <==> Compared(e) && e.name in names && Wrong(release, bundles, e)
  {
    errors := {};
    var rest := names;
    while rest != {}
      invariant rest <= names
      invariant forall e :: e in errors <==> Compared(e) && e.name in names - rest && Wrong(release, bundles, e)
      decreases rest
    {
      var n :| n in rest;
      OneWrong(release, bundles, n);
      errors := errors + BundleErrors(n, release[n], bundles[n].data);
      rest := rest - {n};
    }
  }

  /** Every error that there is, and no other; none exactly when the bundles may be adopted. */
  method AdoptErrors(release: Files, bundles: Option<map<string, Item>>) returns (errors: set<AdoptError>)
    ensures bundles.None? ==> errors == {NoDirectory}
    ensures bundles.Some? && Originals(release) == {} ==> errors == {NoBundles}
    ensures bundles.Some? && Originals(release) != {} ==> forall e :: e in errors <==> Wrong(release, bundles.value, e)
    ensures errors == {} <==> bundles.Some? && Adoptable(release, bundles.value)
  {
    if bundles.None? { return {NoDirectory}; }
    var originals := Originals(release);
    if originals == {} { return {NoBundles}; }
    var names: set<string>;
    errors, names := ListBundles(bundles.value);
    var strange := set n | n in names - originals :: NotOurs(n);
    var missing := set n | n in originals - names :: Missing(n);
    var compared := CompareBundles(release, bundles.value, names * originals);
    errors := errors + strange + missing + compared;
    assert names * originals == set n | n in names && n in originals;
    AllWrong(release, bundles.value, names, errors);
    NoneWrong(release, bundles.value);
  }

  /** The errors of listing, naming and comparing are all there are. */
  lemma AllWrong(release: Files, items: map<string, Item>, names: set<string>, errors: set<AdoptError>)
    requires names == set n | n in items && IsBundle(n) && items[n].File?
    requires forall e :: e in errors <==>
               || (e.NotABundle? && e.name in items && e.name !in names)
               || (e.NotOurs? && e.name in names && e.name !in Originals(release))
               || (e.Missing? && e.name in Originals(release) && e.name !in names)
               || (Compared(e) && e.name in names && e.name in Originals(release) && Wrong(release, items, e))
    ensures forall e :: e in errors <==> Wrong(release, items, e)
  {
  }

  /** Nothing is wrong exactly with bundles that may be adopted. */
  lemma NoneWrong(release: Files, items: map<string, Item>)
    requires Originals(release) != {}
    ensures (forall e :: !Wrong(release, items, e)) <==> Adoptable(release, items)
  {
    if forall e :: !Wrong(release, items, e) {
      forall n ensures n in items <==> n in Originals(release) {
        assert !Wrong(release, items, NotABundle(n)) && !Wrong(release, items, NotOurs(n));
        assert !Wrong(release, items, Missing(n));
      }
      forall n | n in items ensures items[n].File? && Takes(release[n], items[n].data) {
        assert n in Originals(release) && !Wrong(release, items, NotABundle(n));
        assert !Wrong(release, items, OwnNotUnsigned(n)) && !Wrong(release, items, Different(n));
        if TrailerErrors(items[n].data).Some? {
          assert !Wrong(release, items, Refused(n, TrailerErrors(items[n].data).value));
        }
      }
    }
  }

  class ReleaseDir {
    var files: Files

    constructor (files: Files)
      ensures this.files == files
    {
      this.files := files;
    }

    /** Without an error every bundle takes the place of its namesake; with one, all files stay. */
    method Adopt(bundles: Option<map<string, Item>>) returns (errors: set<AdoptError>, signed: set<string>)
      modifies this
      ensures errors == {} <==> bundles.Some? && Adoptable(old(files), bundles.value)
      ensures errors != {} ==> files == old(files) && signed == {}
      // Names stay, other files stay, and each bundle is its original or strips back to it.
      ensures files.Keys == old(files).Keys
      ensures forall n :: n in files && !IsBundle(n) ==> files[n] == old(files)[n]
      ensures errors == {} ==>
              forall n :: n in files && IsBundle(n) ==> n in bundles.value && bundles.value[n] == File(files[n])
      ensures forall n :: n in files && n !in signed ==> files[n] == old(files)[n]
      ensures forall n :: n in signed ==>
                n in files && IsBundle(n) && SplitSignature(files[n]) == (old(files)[n], Signed) &&
                TrailerErrors(files[n]) == None
    {
      errors := AdoptErrors(files, bundles);
      signed := {};
      if errors != {} { return; }
      var items := bundles.value;
      var rest := items.Keys;
      while rest != {}
        invariant rest <= items.Keys && files.Keys == old(files).Keys
        invariant signed <= items.Keys - rest
        invariant forall n :: n in files && (n in rest || n !in signed) ==> files[n] == old(files)[n]
        invariant forall n :: n in items && n !in rest ==> files[n] == items[n].data
        invariant forall n :: n in signed ==> files[n] != old(files)[n]
        decreases rest
      {
        var n :| n in rest;
        if items[n].data != files[n] {
          signed := signed + {n};
          files := files[n := items[n].data];
        }
        rest := rest - {n};
      }
      assert forall n :: n in signed ==> Takes(old(files)[n], items[n].data);
    }
  }

  // ---- Which signed bundles are taken ----

  /** A block without a record magic adds none: none can straddle its start. */
  lemma LastRecordUnderBlock(body: Bytes, signature: Bytes, j: nat)
    requires |signature| < 0x1_0000_0000 && forall i :: !OccursAt(Block(signature), EOCD, i)
    requires OccursAt(body + Block(signature), EOCD, j)
    ensures OccursAt(body, EOCD, j)
  {
    var data := body + Block(signature);
    assert data[|body|] == HEADER[0] == 77;
    assert data[|body|..|data|] == Block(signature);
    if |body| <= j {
      OccursInSlice(data, |body|, |data|, EOCD, j);
    } else {
      assert forall m :: j <= m < j + |EOCD| ==> data[m] == data[j..j + |EOCD|][m - j];
      assert j + |EOCD| <= |body|;
      assert body[j..j + |EOCD|] == data[j..j + |EOCD|];
    }
  }

  /** So the record is where it was, unless the block put it out of reach. */
  lemma RecordUnderBlock(body: Bytes, signature: Bytes)
    requires LastEocd(body) >= 0
    requires |signature| < 0x1_0000_0000 && forall i :: !OccursAt(Block(signature), EOCD, i)
    ensures var data := body + Block(signature);
            LastEocd(data) == if LastEocd(body) >= |data| - REACH then LastEocd(body) else -1
  {
    var e, data := LastEocd(body), body + Block(signature);
    assert data[e..e + |EOCD|] == body[e..e + |EOCD|];
    assert OccursAt(data, EOCD, e);
    var j := RFind(data, EOCD, Max(0, |data| - REACH), |data|);
    if j >= 0 { LastRecordUnderBlock(body, signature, j); }
  }

  /**
   * A correctly signed bundle is taken exactly when its record counts every byte after it,
   * block included; whatever the block's size.
   */
  lemma TakenIffCounted(u: Bytes, declared: Option<nat>, signature: Bytes)
    requires TrailerErrors(u) == None && SplitSignature(u).1 == Unsigned
    requires |signature| < 0x1_0000_0000 && (declared.Some? ==> declared.value <= MAX_COMMENT)
    requires LastEocd(Rewritten(u, declared)) == LastEocd(u)
    requires forall i :: !OccursAt(Word32(|signature|) + signature, HEADER, i)
    requires forall i :: !OccursAt(Block(signature), EOCD, i)
    ensures var data := Sign(u, declared, signature); var e := LastEocd(u);
            Takes(u, data) <==> Declared(data, e) == |data| - e - EOCD_SIZE
  {
    var body, e := Rewritten(u, declared), LastEocd(u);
    var data := Sign(u, declared, signature);
    SplitInvertsSign(u, declared, signature);
    RecordUnderBlock(body, signature);
    assert |data| > |u|;
  }

  /** So a block the signer did not declare is refused, whatever its size. */
  lemma UndeclaredRefused(u: Bytes, signature: Bytes)
    requires TrailerErrors(u) == None && SplitSignature(u).1 == Unsigned && |signature| < 0x1_0000_0000
    requires forall i :: !OccursAt(Word32(|signature|) + signature, HEADER, i)
    requires forall i :: !OccursAt(Block(signature), EOCD, i)
    ensures !Takes(u, Sign(u, None, signature))
  {
    TakenIffCounted(u, None, signature);
    var data, e := Sign(u, None, signature), LastEocd(u);
    assert data[e + FIELD..e + EOCD_SIZE] == u[e + FIELD..e + EOCD_SIZE];
  }

  /** And one it declared in full is taken. */
  lemma DeclaredTaken(u: Bytes, signature: Bytes, n: nat)
    requires TrailerErrors(u) == None && SplitSignature(u).1 == Unsigned && |signature| < 0x1_0000_0000
    requires n == |u| + |Block(signature)| - LastEocd(u) - EOCD_SIZE <= MAX_COMMENT
    requires LastEocd(Rewritten(u, Some(n))) == LastEocd(u)
    requires forall i :: !OccursAt(Word32(|signature|) + signature, HEADER, i)
    requires forall i :: !OccursAt(Block(signature), EOCD, i)
    ensures Takes(u, Sign(u, Some(n), signature))
  {
    var body, data, e := Rewritten(u, Some(n)), Sign(u, Some(n), signature), LastEocd(u);
    assert data[e + FIELD..e + EOCD_SIZE] == body[e + FIELD..e + EOCD_SIZE];
    TakenIffCounted(u, Some(n), signature);
  }
}
