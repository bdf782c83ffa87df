/** A version that is new to a changelog stays new while others are released. */
module ChangelogFresh {
  import opened Texts
  import opened ChangelogSections
  import opened Changelog
  import opened ChangelogRuns
  import CompareLinks

  ghost predicate NoPrefix(lines: Lines, prefix: string) {
    forall line {:trigger PrefixNoCase(prefix, line)} :: line in lines ==> !PrefixNoCase(prefix, line)
  }

  function LinkPrefix(version: string): string { "[" + version + "]:" }

  function HeadingPrefix(version: string): string { "## [" + version + "]" }

  lemma NoPrefixAppend(a: Lines, b: Lines, prefix: string)
    ensures NoPrefix(a + b, prefix) <==> NoPrefix(a, prefix) && NoPrefix(b, prefix)
  {
    assert forall line :: line in a + b <==> line in a || line in b;
  }

  lemma {:induction false} FlatNoPrefix(parts: seq<Lines>, prefix: string)
    ensures NoPrefix(Flat(parts), prefix) <==> forall k :: 0 <= k < |parts| ==> NoPrefix(parts[k], prefix)
    decreases |parts|
  {
    if parts != [] {
      FlatNoPrefix(parts[1..], prefix);
      NoPrefixAppend(parts[0], Flat(parts[1..]), prefix);
      assert forall k :: 1 <= k < |parts| ==> parts[k] == parts[1..][k - 1];
    }
  }

  /** A name's characters, and the bracket that ends it. */
  function CharAt(name: string, i: nat): char { if i < |name| then name[i] else ']' }

  lemma CharsOf(pre: string, a: string, x: string, i: nat)
    requires i <= |a|
    ensures (pre + a + "]" + x)[|pre| + i] == CharAt(a, i)
  {
  }

  /** Names that a bracket ends, after the same text, are equal up to case. */
  lemma NamedAlike(pre: string, a: string, x: string, b: string, y: string)
    requires ']' !in a && ']' !in b && PrefixNoCase(pre + a + "]" + x, pre + b + "]" + y)
    ensures SameNoCase(a, b) && SameNoCase(b, a)
  {
    var p, q, n := pre + a + "]" + x, pre + b + "]" + y, |pre|;
    var m := if |a| <= |b| then |a| else |b|;
    PrefixIff(p, q);
    forall i | 0 <= i <= m ensures Lower(CharAt(a, i)) == Lower(CharAt(b, i)) {
      assert Lower(p[n + i]) == Lower(q[n + i]);
      CharsOf(pre, a, x, i);
      CharsOf(pre, b, y, i);
    }
    AlikeUpToBracket(a, b, m);
  }

  lemma AlikeUpToBracket(a: string, b: string, m: nat)
    requires ']' !in a && ']' !in b && m <= |a| && m <= |b| && (m == |a| || m == |b|)
    requires forall i :: 0 <= i <= m ==> Lower(CharAt(a, i)) == Lower(CharAt(b, i))
    ensures SameNoCase(a, b) && SameNoCase(b, a)
  {
    assert Lower(CharAt(a, m)) == Lower(CharAt(b, m));
    assert |a| == m && |b| == m;
    forall i | 0 <= i < m ensures Lower(a[i]) == Lower(b[i]) { assert Lower(CharAt(a, i)) == Lower(CharAt(b, i)); }
    PrefixIff(a, b);
    PrefixIff(b, a);
  }

  lemma OtherStart(prefix: string, line: string, i: nat)
    requires i < |prefix| && (i < |line| ==> Lower(prefix[i]) != Lower(line[i]))
    ensures !PrefixNoCase(prefix, line)
  {
    PrefixIff(prefix, line);
  }

  /** The lines that move a link past `version` are no other version's link. */
  lemma MovedNoLink(link: CompareLinks.Link, version: string, other: string)
    requires ']' !in version && ']' !in other && !SameNoCase(version, other) && !SameNoCase("Unreleased", other)
    ensures NoPrefix(CompareLinks.Moved(link, version), LinkPrefix(other))
  {
    var m := CompareLinks.Moved(link, version);
    var tag := CompareLinks.Tag(link.prev, version);
    var x, y := CompareLinks.Target(link.base, tag, link.head), CompareLinks.Target(link.base, link.prev, tag);
    assert m[0] == "[" + "Unreleased" + "]" + (": " + x);
    assert m[1] == "[" + version + "]" + (": " + y);
    assert LinkPrefix(other) == "[" + other + "]" + ":";
    if PrefixNoCase(LinkPrefix(other), m[0]) { NamedAlike("[", other, ":", "Unreleased", ": " + x); }
    if PrefixNoCase(LinkPrefix(other), m[1]) { NamedAlike("[", other, ":", version, ": " + y); }
  }

  lemma MovedNoHeading(link: CompareLinks.Link, version: string, other: string)
    ensures NoPrefix(CompareLinks.Moved(link, version), HeadingPrefix(other))
  {
    var m := CompareLinks.Moved(link, version);
    OtherStart(HeadingPrefix(other), m[0], 0);
    OtherStart(HeadingPrefix(other), m[1], 0);
  }

  lemma NoPrefixMoveIn(part: Lines, version: string, prefix: string, i: nat)
    requires HasLink(part) && i == CompareLinks.FirstLink(part) && NoPrefix(part, prefix)
    requires NoPrefix(CompareLinks.MovedLine(part[i], version), prefix)
    ensures NoPrefix(MoveIn(part, version), prefix)
  {
    var m := CompareLinks.MovedLine(part[i], version);
    NoPrefixAppend(part[..i], m, prefix);
    NoPrefixAppend(part[..i] + m, part[i + 1..], prefix);
  }

  lemma SameLinkPrefix(a: string, b: string, line: string)
    requires SameNoCase(a, b) && PrefixNoCase(LinkPrefix(a), line)
    ensures PrefixNoCase(LinkPrefix(b), line)
  {
    var p, q := LinkPrefix(a), LinkPrefix(b);
    PrefixIff(a, b);
    PrefixIff(p, line);
    PrefixIff(q, line);
    assert |p| == |q|;
    forall i | 0 <= i < |q| ensures Lower(q[i]) == Lower(line[i]) {
      assert Lower(p[i]) == Lower(line[i]);
      if 1 <= i <= |a| { assert Lower(a[i - 1]) == Lower(b[i - 1]); }
    }
  }

  /** A link is an [Unreleased] one. */
  lemma LinkIsUnreleased(part: Lines, name: string)
    requires HasLink(part) && NoPrefix(part, LinkPrefix(name))
    ensures !SameNoCase("Unreleased", name)
  {
    var line := part[CompareLinks.FirstLink(part)];
    CompareLinks.FirstLinkFacts(part, CompareLinks.FirstLink(part));
    assert CompareLinks.UNRELEASED == LinkPrefix("Unreleased");
    assert line in part && PrefixNoCase(LinkPrefix("Unreleased"), line) && !PrefixNoCase(LinkPrefix(name), line);
    if SameNoCase("Unreleased", name) { SameLinkPrefix("Unreleased", name, line); }
  }

  lemma UpdatedNoLink(parts: seq<Lines>, version: string, other: string, k: nat)
    requires k < |parts| && NoPrefix(parts[k], LinkPrefix(other))
    requires ']' !in version && ']' !in other && !SameNoCase(version, other)
    ensures NoPrefix(UpdateParts(parts, version)[k], LinkPrefix(other))
  {
    UpdatePartsKeeps(parts, version, k);
    if HasLink(parts[k]) {
      LinkIsUnreleased(parts[k], other);
      var i := CompareLinks.FirstLink(parts[k]);
      CompareLinks.FirstLinkFacts(parts[k], i);
      MovedNoLink(CompareLinks.ParseLink(parts[k][i]).value, version, other);
      NoPrefixMoveIn(parts[k], version, LinkPrefix(other), i);
    }
  }

  lemma UpdatedNoHeading(parts: seq<Lines>, version: string, other: string, k: nat)
    requires k < |parts| && NoPrefix(parts[k], HeadingPrefix(other))
    ensures NoPrefix(UpdateParts(parts, version)[k], HeadingPrefix(other))
  {
    UpdatePartsKeeps(parts, version, k);
    if HasLink(parts[k]) {
      var i := CompareLinks.FirstLink(parts[k]);
      CompareLinks.FirstLinkFacts(parts[k], i);
      MovedNoHeading(CompareLinks.ParseLink(parts[k][i]).value, version, other);
      NoPrefixMoveIn(parts[k], version, HeadingPrefix(other), i);
    }
  }

  lemma PlainNoPrefix(line: string, other: string)
    requires IsPlainLine(line)
    ensures !PrefixNoCase(LinkPrefix(other), line) && !PrefixNoCase(HeadingPrefix(other), line)
  {
    PlainLine(line);
    OtherStart(LinkPrefix(other), line, 0);
    NotH2NoPrefix(line, other);
  }

  lemma BlockNoPrefix(lines: Lines, other: string)
    requires forall i :: 0 <= i < |lines| ==> IsPlainLine(lines[i])
    ensures NoPrefix(lines, LinkPrefix(other)) && NoPrefix(lines, HeadingPrefix(other))
  {
    forall line | line in lines
      ensures !PrefixNoCase(LinkPrefix(other), line) && !PrefixNoCase(HeadingPrefix(other), line)
    {
      PlainNoPrefix(line, other);
    }
  }

  /** The part that a release adds holds no line of another version's. */
  lemma AddedNoPrefix(d: Doc, r: Release, other: string)
    requires ValidFragments(r.fragments) && ']' !in r.version && ']' !in other && !SameNoCase(r.version, other)
    ensures NoPrefix(NewPart(d, r), LinkPrefix(other)) && NoPrefix(NewPart(d, r), HeadingPrefix(other))
  {
    NewPartPlain(d, r);
    RenderedBlock(r);
    HeadingNoPrefix(r.version, r.date, other);
    PartNoPrefix(NewPart(d, r), Rendered(r), other);
  }

  lemma PartNoPrefix(part: Lines, block: Lines, other: string)
    requires part != [] && Block(block) && part[1..] in {[""] + block, [""] + block + [""]}
    requires !PrefixNoCase(LinkPrefix(other), part[0]) && !PrefixNoCase(HeadingPrefix(other), part[0])
    ensures NoPrefix(part, LinkPrefix(other)) && NoPrefix(part, HeadingPrefix(other))
  {
    SpacedPlain(part[1..], block);
    BlockNoPrefix(part[1..], other);
    assert forall line :: line in part <==> line == part[0] || line in part[1..];
  }

  lemma SpacedPlain(body: Lines, block: Lines)
    requires Block(block) && body in {[""] + block, [""] + block + [""]}
    ensures forall i :: 0 <= i < |body| ==> IsPlainLine(body[i])
  {
    assert forall i :: 0 <= i < |body| ==> body[i] == "" || body[i] == block[i - 1];
  }

  lemma HeadingNoPrefix(version: string, date: string, other: string)
    requires ']' !in version && ']' !in other && !SameNoCase(version, other)
    ensures !PrefixNoCase(LinkPrefix(other), HeadingLine(version, date)) &&
            !PrefixNoCase(HeadingPrefix(other), HeadingLine(version, date))
  {
    var line, after := HeadingLine(version, date), " - " + date;
    assert line == "## [" + version + "]" + after && HeadingPrefix(other) == "## [" + other + "]" + "";
    OtherStart(LinkPrefix(other), line, 0);
    if PrefixNoCase(HeadingPrefix(other), line) { NamedAlike("## [", other, "", version, after); }
  }

  lemma NotH2NoPrefix(line: string, version: string)
    requires !IsH2(line)
    ensures !PrefixNoCase(HeadingPrefix(version), line)
  {
    var p := HeadingPrefix(version);
    PrefixIff(p, line);
    assert p[0] == '#' && p[1] == '#' && p[2] == ' ';
    if |line| >= 3 {
      assert line[..3] == [line[0], line[1], line[2]] && line[..3] != H2;
      OtherStart(p, line, if line[0] != '#' then 0 else if line[1] != '#' then 1 else 2);
    }
  }

  lemma TrimNoPrefix(part: Lines, prefix: string)
    requires part != [] && NoPrefix(part, prefix) && prefix != []
    ensures NoPrefix(TrimPart(part), prefix)
  {
    assert forall line :: line in TrimPart(part) ==> line in part || line == "";
    OtherStart(prefix, "", 0);
  }

  /** From part `lo` on, no line starts so. */
  ghost predicate NoneWith(parts: seq<Lines>, lo: nat, prefix: string) {
    forall k {:trigger parts[k]} :: lo <= k < |parts| ==> NoPrefix(parts[k], prefix)
  }

  lemma InsertNoPrefix(a: seq<Lines>, u: nat, x: Lines, y: Lines, ins: seq<Lines>, lo: nat, prefix: string)
    requires u < |a| && ins == a[..u] + [x, y] + a[u + 1..] && lo <= u + 1 && NoneWith(a, lo, prefix) &&
             NoPrefix(y, prefix)
    requires lo <= u ==> NoPrefix(x, prefix)
    ensures NoneWith(ins, lo, prefix)
  {
    InsertIndex(a, u, x, y, ins);
  }

  lemma UpdateNoLink(parts: seq<Lines>, version: string, other: string)
    requires NoneWith(parts, 0, LinkPrefix(other)) && ']' !in version && ']' !in other && !SameNoCase(version, other)
    ensures NoneWith(UpdateParts(parts, version), 0, LinkPrefix(other))
  {
    var r := UpdateParts(parts, version);
    forall k | 0 <= k < |r| ensures NoPrefix(r[k], LinkPrefix(other)) { UpdatedNoLink(parts, version, other, k); }
  }

  lemma UpdateNoHeading(parts: seq<Lines>, version: string, other: string, lo: nat)
    requires NoneWith(parts, lo, HeadingPrefix(other))
    ensures NoneWith(UpdateParts(parts, version), lo, HeadingPrefix(other))
  {
    var r := UpdateParts(parts, version);
    forall k | lo <= k < |r| ensures NoPrefix(r[k], HeadingPrefix(other)) {
      UpdatedNoHeading(parts, version, other, k);
    }
  }

  ghost predicate Others(r: Release, other: string) {
    ValidFragments(r.fragments) && ']' !in r.version && ']' !in other && !SameNoCase(r.version, other)
  }

  /** A version without a link has none after another's release, */
  lemma StepNoLink(d: Doc, r: Release, other: string)
    requires Good(d) && Others(r, other) && NoneWith(d.parts, 0, LinkPrefix(other))
    ensures NoneWith(Step(d, r).parts, 0, LinkPrefix(other))
  {
    AddedNoPrefix(d, r, other);
    InsertedNone(d, SectionOf(r), LinkPrefix(other));
    UpdateNoLink(Insert(d, SectionOf(r)).parts, r.version, other);
  }

  lemma InsertedNone(d: Doc, section: Lines, prefix: string)
    requires d.u < |d.parts| && d.parts[d.u] != [] && prefix != [] && NoneWith(d.parts, 0, prefix)
    requires NoPrefix(Spaced(section, d.u + 1 == |d.parts|), prefix)
    ensures NoneWith(Insert(d, section).parts, 0, prefix)
  {
    var x, y := TrimPart(d.parts[d.u]), Spaced(section, d.u + 1 == |d.parts|);
    TrimNoPrefix(d.parts[d.u], prefix);
    InsertNoPrefix(d.parts, d.u, x, y, Insert(d, section).parts, 0, prefix);
  }

  /** and one without a heading has none. */
  lemma StepNoHeading(d: Doc, r: Release, other: string)
    requires Good(d) && Others(r, other) && NoneWith(d.parts, d.u + 1, HeadingPrefix(other))
    ensures NoneWith(Step(d, r).parts, d.u + 1, HeadingPrefix(other))
  {
    AddedNoPrefix(d, r, other);
    InsertedBelow(d, SectionOf(r), HeadingPrefix(other));
    UpdateNoHeading(Insert(d, SectionOf(r)).parts, r.version, other, d.u + 1);
  }

  lemma InsertedBelow(d: Doc, section: Lines, prefix: string)
    requires d.u < |d.parts| && d.parts[d.u] != [] && NoneWith(d.parts, d.u + 1, prefix)
    requires NoPrefix(Spaced(section, d.u + 1 == |d.parts|), prefix)
    ensures NoneWith(Insert(d, section).parts, d.u + 1, prefix)
  {
    var x, y := TrimPart(d.parts[d.u]), Spaced(section, d.u + 1 == |d.parts|);
    InsertNoPrefix(d.parts, d.u, x, y, Insert(d, section).parts, d.u + 1, prefix);
  }

  lemma NewToLines(d: Doc, version: string)
    requires d.u < |d.parts|
    ensures !CompareLinks.HasVersion(DocLines(d), version) <==> NoneWith(d.parts, 0, LinkPrefix(version))
    ensures !HasHeading(Flat(d.parts[d.u + 1..]), version) <==> NoneWith(d.parts, d.u + 1, HeadingPrefix(version))
  {
    FlatNoPrefix(d.parts, LinkPrefix(version));
    var rest := d.parts[d.u + 1..];
    FlatNoPrefix(rest, HeadingPrefix(version));
    assert forall k :: d.u < k < |d.parts| ==> d.parts[k] == rest[k - d.u - 1];
    assert forall k :: 0 <= k < |rest| ==> rest[k] == d.parts[k + d.u + 1];
  }

  lemma StepHeadings(d: Doc, r: Release, other: string)
    requires Good(d) && ValidFragments(r.fragments) && GoodVersion(r.version) && !SameNoCase(r.version, other)
    requires NoHeadingOf(d.parts, other)
    ensures NoHeadingOf(Step(d, r).parts, other)
  {
    StepGrown(d, r);
    NewPartPlain(d, r);
    OwnHeading(r.version, r.date, other);
  }

  /** The version has no heading and no link in the changelog. */
  ghost predicate NewTo(d: Doc, version: string) {
    NoHeadingOf(d.parts, version) && NoneWith(d.parts, d.u + 1, HeadingPrefix(version)) &&
    NoneWith(d.parts, 0, LinkPrefix(version))
  }

  lemma NewByParts(d: Doc, version: string)
    requires d.u < |d.parts|
    ensures IsNew(d, version) <==> NewTo(d, version)
  {
    NewToLines(d, version);
  }

  lemma StepNew(d: Doc, r: Release, version: string)
    requires Good(d) && GoodVersion(r.version) && Others(r, version) && NewTo(d, version)
    ensures NewTo(Step(d, r), version)
  {
    StepNoLink(d, r, version);
    StepNoHeading(d, r, version);
    StepHeadings(d, r, version);
  }

  /** A release leaves the changelog as ready for another version as it was. */
  lemma ReadyAgain(d: Doc, r: Release, s: Release)
    requires Good(d) && Ready(d, r) && Ready(d, s) && !SameNoCase(r.version, s.version)
    ensures Good(Step(d, r)) && Ready(Step(d, r), s)
  {
    StepRefines(d, r);
    NewByParts(d, s.version);
    StepNew(d, r, s.version);
    NewByParts(Step(d, r), s.version);
  }
}
