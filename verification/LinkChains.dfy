/** The chain that compare links form: the [Unreleased] one on top, then a link for each version. */
module LinkChains {
  import opened Search
  import opened Texts
  import opened CompareLinks

  // ---- The chain ----

  /** The tag the [Unreleased] link starts from after these versions. */
  function TagAfter(prev: string, versions: seq<string>): string {
    if versions == [] then prev else Tag(TagAfter(prev, versions[..|versions| - 1]), versions[|versions| - 1])
  }

  /** The versions' links, newest first: each starts where the one below it ends. */
  function VersionLines(base: string, prev: string, versions: seq<string>): (r: Lines)
    ensures |r| == |versions|
  {
    if versions == [] then []
    else
      var before := versions[..|versions| - 1];
      [VersionLine(versions[|versions| - 1], base, TagAfter(prev, before), TagAfter(prev, versions))] +
      VersionLines(base, prev, before)
  }

  /** What each line is read as. */
  function Read(lines: Lines): (r: seq<Option<Link>>)
    ensures |r| == |lines| && forall j {:trigger r[j]} :: 0 <= j < |r| ==> r[j] == ParseLink(lines[j])
  {
    seq(|lines|, j requires 0 <= j < |lines| => ParseLink(lines[j]))
  }

  /** `rows` stand from line `at` on. */
  ghost predicate RowsAt(lines: Lines, at: nat, rows: Lines) {
    at + |rows| <= |lines| && forall k {:trigger rows[k]} :: 0 <= k < |rows| ==> lines[at + k] == rows[k]
  }

  /** Line `i` is the first that is read as a link, as `top`, and `rows` follow it. */
  ghost predicate ChainOf(read: seq<Option<Link>>, lines: Lines, i: nat, top: Link, rows: Lines) {
    && |read| == |lines| && i < |lines| && read[i] == Some(top) && RowsAt(lines, i + 1, rows)
    && (forall j {:trigger read[j]} :: 0 <= j < i ==> read[j].None?)
  }

  /**
   * At line `i`, the first [Unreleased] link starts from the newest version, and the versions' links follow it
   * unbroken.
   */
  ghost predicate ChainAt(lines: Lines, i: nat, link: Link, versions: seq<string>) {
    ChainOf(Read(lines), lines, i, link.(prev := TagAfter(link.prev, versions)),
            VersionLines(link.base, link.prev, versions))
  }

  lemma TagStep(prev: string, versions: seq<string>, version: string)
    ensures TagAfter(prev, versions + [version]) == Tag(TagAfter(prev, versions), version)
  {
    assert (versions + [version])[..|versions|] == versions;
  }

  lemma RowStep(base: string, prev: string, versions: seq<string>, version: string)
    ensures var before := TagAfter(prev, versions);
            VersionLines(base, prev, versions + [version])
            == [VersionLine(version, base, before, Tag(before, version))] + VersionLines(base, prev, versions)
  {
    var all := versions + [version];
    assert all[..|all| - 1] == versions;
    TagStep(prev, versions, version);
  }

  lemma ReadAppend(a: Lines, b: Lines)
    ensures Read(a + b) == Read(a) + Read(b)
  {
  }

  // ---- Updating the links ----

  lemma FirstIs(read: seq<Option<Link>>, lines: Lines, first: nat, i: nat, top: Link, rows: Lines)
    requires |read| == |lines| && first < |read| && read[first].Some? &&
             forall j {:trigger read[j]} :: 0 <= j < first ==> read[j].None?
    ensures ChainOf(read, lines, i, top, rows) <==>
            i == first && read[first] == Some(top) && RowsAt(lines, first + 1, rows)
  {
    assert i < first ==> read[i].None?;
    assert first < i ==> read[first].Some?;
  }

  lemma RowsMove(lines: Lines, at: nat, r: Lines, row: string, rows: Lines)
    requires at <= |lines| && |r| == |lines| + 1 &&
             forall j {:trigger lines[j]} :: at <= j < |lines| ==> r[j + 1] == lines[j]
    ensures RowsAt(r, at, [row] + rows) <==> r[at] == row && RowsAt(lines, at, rows)
  {
    var all := [row] + rows;
    assert all[0] == row && forall k :: 0 <= k < |rows| ==> all[k + 1] == rows[k];
    if RowsAt(r, at, all) {
      assert r[at + 0] == all[0];
      forall k | 0 <= k < |rows| ensures lines[at + k] == rows[k] { assert r[at + (k + 1)] == all[k + 1]; }
    }
    if r[at] == row && RowsAt(lines, at, rows) {
      forall k | 0 <= k < |all| ensures r[at + k] == all[k] { if k > 0 { assert lines[at + (k - 1)] == rows[k - 1]; } }
    }
  }

  lemma Replaced(lines: Lines, i: nat, a: string, b: string, r: Lines)
    requires i < |lines| && r == lines[..i] + [a, b] + lines[i + 1..]
    ensures |r| == |lines| + 1 && r[i] == a && r[i + 1] == b
    ensures forall j {:trigger r[j]} :: 0 <= j < i ==> r[j] == lines[j]
    ensures forall j {:trigger lines[j]} :: i < j < |lines| ==> r[j + 1] == lines[j]
  {
  }

  /** Ranges of the same version that read alike start alike. */
  lemma SameStart(p: string, q: string, version: string)
    requires p != [] && p + DOTS + Tag(p, version) == q + DOTS + Tag(q, version)
    ensures p == q
  {
    var s, t := p + DOTS + Tag(p, version), q + DOTS + Tag(q, version);
    assert s[0] == p[0] && t[0] == (q + DOTS)[0];
    assert "v" <= p <==> p[0] == 'v';
    assert "v" <= q <==> (q + DOTS)[0] == 'v';
    assert |p| == |q|;
    assert s[..|p|] == p && t[..|p|] == q;
  }

  lemma RowText(version: string, base: string, p: string, tag: string, pre: string)
    requires pre == "[" + version + "]: " + base + COMPARE
    ensures VersionLine(version, base, p, tag) == pre + (p + DOTS + tag)
  {
  }

  lemma Cancel(pre: string, x: string, y: string)
    requires pre + x == pre + y
    ensures x == y
  {
    assert (pre + x)[|pre|..] == x && (pre + y)[|pre|..] == y;
  }

  lemma SameRow(version: string, base: string, p: string, q: string)
    requires p != [] && VersionLine(version, base, p, Tag(p, version)) == VersionLine(version, base, q, Tag(q, version))
    ensures p == q
  {
    var pre := "[" + version + "]: " + base + COMPARE;
    RowText(version, base, p, Tag(p, version), pre);
    RowText(version, base, q, Tag(q, version), pre);
    Cancel(pre, p + DOTS + Tag(p, version), q + DOTS + Tag(q, version));
    SameStart(p, q, version);
  }

  lemma TagIsGood(prev: string, version: string)
    requires GoodTag(version)
    ensures GoodTag(Tag(prev, version))
  {
  }

  /**
   * Moving a link gives the next link and the row for its version exactly when it was the right link and the
   * tag's dots are apart.
   */
  lemma MovedIff(was: Link, link: Link, prev: string, version: string)
    requires GoodEnds(was.base, was.head) && was.prev != [] && GoodTag(version)
    ensures var tag := Tag(prev, version); var m := Moved(was, version);
            ParseLink(m[0]) == Some(link.(prev := tag)) && m[1] == VersionLine(version, link.base, prev, tag)
            <==> was == link.(prev := prev) && DotsApart(tag)
  {
    var tag0 := Tag(was.prev, version);
    TagIsGood(was.prev, version);
    ReadLine(was.base, tag0, was.head, tag0 + DOTS + was.head);
    if was.base == link.base && Moved(was, version)[1] == VersionLine(version, link.base, prev, Tag(prev, version)) {
      SameRow(version, link.base, was.prev, prev);
    }
  }

  /**
   * A release leaves an unbroken chain, its own link on top, exactly when there was one and its tag's dots are
   * apart.
   */
  lemma UpdateChainIff(lines: Lines, i: nat, link: Link, versions: seq<string>, version: string)
    requires !HasVersion(lines, version) && GoodTag(version)
    ensures ChainAt(UpdateLinks(lines, version), i, link, versions + [version])
       <==> ChainAt(lines, i, link, versions) && DotsApart(Tag(TagAfter(link.prev, versions), version))
  {
    var first := FirstLink(lines);
    TagStep(link.prev, versions, version);
    RowStep(link.base, link.prev, versions, version);
    forall j | 0 <= j < first ensures Read(lines)[j].None? { FirstLinkFacts(lines, j); }
    if first == |lines| {
      NoChain(Read(lines), lines);
    } else {
      FirstLinkFacts(lines, first);
      UpdatedFirst(lines, first, i, link, TagAfter(link.prev, versions),
                   VersionLines(link.base, link.prev, versions), version, UpdateLinks(lines, version));
    }
  }

  lemma NoChain(read: seq<Option<Link>>, lines: Lines)
    requires |read| == |lines| && forall j {:trigger read[j]} :: 0 <= j < |read| ==> read[j].None?
    ensures forall i, top, rows :: !ChainOf(read, lines, i, top, rows)
  {
  }

  lemma ReadAbove(lines: Lines, r: Lines, first: nat)
    requires first < |lines| && first < |r| && forall j {:trigger r[j]} :: 0 <= j < first ==> r[j] == lines[j]
    requires forall j {:trigger Read(lines)[j]} :: 0 <= j < first ==> Read(lines)[j].None?
    ensures forall j {:trigger Read(r)[j]} :: 0 <= j < first ==> Read(r)[j].None?
  {
    forall j | 0 <= j < first ensures Read(r)[j].None? { assert Read(lines)[j].None? && r[j] == lines[j]; }
  }

  lemma UpdatedFirst(lines: Lines, first: nat, i: nat, link: Link, prev: string, rows: Lines, version: string, r: Lines)
    requires first < |lines| && Read(lines)[first].Some? &&
             forall j {:trigger Read(lines)[j]} :: 0 <= j < first ==> Read(lines)[j].None?
    requires r == lines[..first] + MovedLine(lines[first], version) + lines[first + 1..] && GoodTag(version)
    ensures var tag := Tag(prev, version); var all := [VersionLine(version, link.base, prev, tag)] + rows;
            ChainOf(Read(r), r, i, link.(prev := tag), all) <==>
            ChainOf(Read(lines), lines, i, link.(prev := prev), rows) && DotsApart(tag)
  {
    var was := ParseLink(lines[first]).value;
    var m := Moved(was, version);
    ParsedEnds(lines[first]);
    MovedIff(was, link, prev, version);
    TagIsGood(was.prev, version);
    ReadLine(was.base, Tag(was.prev, version), was.head, Tag(was.prev, version) + DOTS + was.head);
    Replaced(lines, first, m[0], m[1], r);
    ReadAbove(lines, r, first);
    SameChain(Read(lines), lines, first, i, link.(prev := prev), rows, Read(r), r,
              link.(prev := Tag(prev, version)), VersionLine(version, link.base, prev, Tag(prev, version)));
  }

  /** Chains before and after a line was replaced by two, in terms of those lines. */
  lemma SameChain(read: seq<Option<Link>>, lines: Lines, first: nat, i: nat, top: Link, rows: Lines,
                  reread: seq<Option<Link>>, r: Lines, retop: Link, row: string)
    requires |read| == |lines| && first < |read| && read[first].Some? &&
             forall j {:trigger read[j]} :: 0 <= j < first ==> read[j].None?
    requires |reread| == |r| == |lines| + 1 && reread[first].Some?
    requires forall j {:trigger reread[j]} :: 0 <= j < first ==> reread[j].None?
    requires forall j {:trigger lines[j]} :: first < j < |lines| ==> r[j + 1] == lines[j]
    ensures ChainOf(read, lines, i, top, rows) <==>
            i == first && read[first] == Some(top) && RowsAt(lines, first + 1, rows)
    ensures ChainOf(reread, r, i, retop, [row] + rows)
       <==> i == first && reread[first] == Some(retop) && r[first + 1] == row && RowsAt(lines, first + 1, rows)
  {
    FirstIs(read, lines, first, i, top, rows);
    FirstIs(reread, r, first, i, retop, [row] + rows);
    RowsMove(lines, first + 1, r, row, rows);
  }

  // ---- Lines that are no links ----

  lemma {:induction false} RowsBracketed(base: string, prev: string, versions: seq<string>, k: nat)
    requires k < |versions|
    ensures !NoBracket(VersionLines(base, prev, versions)[k])
    decreases |versions|
  {
    if k > 0 { RowsBracketed(base, prev, versions[..|versions| - 1], k - 1); }
  }

  lemma ChainBracketed(lines: Lines, i: nat, link: Link, versions: seq<string>)
    requires ChainAt(lines, i, link, versions)
    ensures i + 1 + |versions| <= |lines| && forall j :: i <= j < i + 1 + |versions| ==> !NoBracket(lines[j])
  {
    var rows := VersionLines(link.base, link.prev, versions);
    if NoBracket(lines[i]) { NoBracketNoLink(lines[i]); }
    forall j | i < j < i + 1 + |versions| ensures !NoBracket(lines[j]) {
      RowsBracketed(link.base, link.prev, versions, j - i - 1);
      assert lines[i + 1 + (j - i - 1)] == rows[j - i - 1];
    }
  }

  ghost predicate Unlinked(lines: Lines) { forall j {:trigger lines[j]} :: 0 <= j < |lines| ==> NoBracket(lines[j]) }

  /** A chain within the first lines, whatever follows them. */
  lemma ChainAbove(rx: seq<Option<Link>>, x: Lines, ry: seq<Option<Link>>, y: Lines, rz: seq<Option<Link>>, z: Lines,
                   i: nat, top: Link, rows: Lines)
    requires |rx| == |x| && |ry| == |y| && |rz| == |z| && i + 1 + |rows| <= |x|
    ensures ChainOf(rx + ry, x + y, i, top, rows) ==> ChainOf(rx + rz, x + z, i, top, rows)
  {
    if ChainOf(rx + ry, x + y, i, top, rows) {
      forall j | 0 <= j < i ensures (rx + rz)[j].None? { assert (rx + ry)[j].None?; }
      forall k | 0 <= k < |rows| ensures (x + z)[i + 1 + k] == rows[k] { assert (x + y)[i + 1 + k] == rows[k]; }
    }
  }

  /** A chain below lines that are no links. */
  lemma ChainBelow(rx: seq<Option<Link>>, x: Lines, rz: seq<Option<Link>>, z: Lines, ry: seq<Option<Link>>, y: Lines,
                   i: nat, top: Link, rows: Lines)
    requires |rx| == |x| && |rz| == |z| && |ry| == |y| && i >= |x| &&
             forall j {:trigger rz[j]} :: 0 <= j < |rz| ==> rz[j].None?
    ensures ChainOf(rx + ry, x + y, i, top, rows) ==> ChainOf(rz + ry, z + y, i - |x| + |z|, top, rows)
  {
    if ChainOf(rx + ry, x + y, i, top, rows) {
      var n := i - |x| + |z|;
      assert (rx + ry)[i] == ry[i - |x|] == (rz + ry)[n];
      forall j | 0 <= j < n ensures (rz + ry)[j].None? {
        if j < |z| { assert rz[j].None?; } else { assert (rx + ry)[j - |z| + |x|].None?; }
      }
      forall k | 0 <= k < |rows| ensures (z + y)[n + 1 + k] == rows[k] { assert (x + y)[i + 1 + k] == rows[k]; }
    }
  }

  /** Lines that are no links, put in place of others before a line that is none, leave the chain whole. */
  lemma ChainAround(x: Lines, gap: Lines, added: Lines, y: Lines, i: nat, link: Link, versions: seq<string>)
      returns (at: nat)
    requires ChainAt(x + gap + y, i, link, versions) && Unlinked(gap) && Unlinked(added) &&
             (y != [] ==> NoBracket(y[0]))
    ensures ChainAt(x + added + y, at, link, versions)
  {
    var rows, top := VersionLines(link.base, link.prev, versions), link.(prev := TagAfter(link.prev, versions));
    var before, after := x + gap + y, x + added + y;
    ChainBracketed(before, i, link, versions);
    assert forall j :: |x| <= j < |x| + |gap| ==> before[j] == gap[j - |x|];
    assert y != [] ==> before[|x| + |gap|] == y[0];
    if i < |x| {
      assert |x| < |before| ==> NoBracket(before[|x|]);
      assert before == x + (gap + y) && after == x + (added + y);
      ReadAppend(x, gap + y);
      ReadAppend(x, added + y);
      ChainAbove(Read(x), x, Read(gap + y), gap + y, Read(added + y), added + y, i, top, rows);
      at := i;
    } else {
      assert |x| + |gap| <= i;
      at := ChainPast(x, gap, added, y, i, top, rows);
    }
  }

  lemma ChainPast(x: Lines, gap: Lines, added: Lines, y: Lines, i: nat, top: Link, rows: Lines) returns (at: nat)
    requires ChainOf(Read(x + gap + y), x + gap + y, i, top, rows) && |x| + |gap| <= i && Unlinked(added)
    ensures ChainOf(Read(x + added + y), x + added + y, at, top, rows)
  {
    UnreadAbove(x, added, x + gap + y);
    at := ChainUnder(x + gap, x + added, y, i, top, rows);
  }

  lemma ChainUnder(pre: Lines, post: Lines, y: Lines, i: nat, top: Link, rows: Lines) returns (at: nat)
    requires ChainOf(Read(pre + y), pre + y, i, top, rows) && |pre| <= i
    requires forall j {:trigger Read(post)[j]} :: 0 <= j < |post| ==> Read(post)[j].None?
    ensures ChainOf(Read(post + y), post + y, at, top, rows)
  {
    ReadAppend(pre, y);
    ReadAppend(post, y);
    ChainBelow(Read(pre), pre, Read(post), post, Read(y), y, i, top, rows);
    at := i - |pre| + |post|;
  }

  lemma UnreadAbove(x: Lines, added: Lines, all: Lines)
    requires |x| <= |all| && all[..|x|] == x && Unlinked(added) &&
             forall j {:trigger Read(all)[j]} :: 0 <= j < |x| ==> Read(all)[j].None?
    ensures forall j {:trigger Read(x + added)[j]} :: 0 <= j < |x + added| ==> Read(x + added)[j].None?
  {
    forall j | 0 <= j < |x + added| ensures Read(x + added)[j].None? {
      if j < |x| {
        assert Read(all)[j].None? && all[j] == x[j];
      } else {
        NoBracketNoLink(added[j - |x|]);
      }
    }
  }

  // ---- A tag that breaks it ----

  lemma DotBreaks(tag: string)
    requires |tag| >= 2 && tag[|tag| - 1] == '.'
    ensures !DotsApart(tag)
  {
    var i, all := |tag| - 1, tag + DOTS;
    assert all[i..i + 3] == DOTS;
    assert OccursAt(all, DOTS, i);
  }

  /** A version that ends in a dot, such as 1.0.0-a., breaks the chain, whatever it was. */
  lemma EndingDotBreaks(lines: Lines, i: nat, link: Link, versions: seq<string>, version: string)
    requires !HasVersion(lines, version) && GoodTag(version) && |version| >= 2 && version[|version| - 1] == '.'
    ensures !ChainAt(UpdateLinks(lines, version), i, link, versions + [version])
  {
    UpdateChainIff(lines, i, link, versions, version);
    DotBreaks(Tag(TagAfter(link.prev, versions), version));
  }

  lemma ExampleBreaks(lines: Lines, i: nat, link: Link, versions: seq<string>)
    requires !HasVersion(lines, "1.0.0-a.")
    ensures !ChainAt(UpdateLinks(lines, "1.0.0-a."), i, link, versions + ["1.0.0-a."])
  {
    assert forall j :: 0 <= j < 8 ==> '-' <= "1.0.0-a."[j] <= 'a' && "1.0.0-a."[j] != '/';
    forall j | 0 <= j < 8 ensures !IsSpace("1.0.0-a."[j]) { PrintableUnspaced("1.0.0-a."[j]); }
    EndingDotBreaks(lines, i, link, versions, "1.0.0-a.");
  }
}
