/**
 * Code left open. The script asks neither the [Unreleased] note nor the fragments to close their code, and
 * the extractor skips headings in code. A release's notes are what was rendered for it exactly when the note
 * closes its code, and the section does or is the last.
 */
module ChangelogCode {
  import opened Search
  import opened Texts
  import opened ChangelogSections
  import opened Changelog
  import opened ChangelogRuns
  import opened ChangelogFresh
  import CompareLinks
  import ChangelogHistory

  // ---- Lines without a heading that fits ----

  predicate NoFit(lines: Lines, open: bool, p: string -> bool) {
    lines == [] || (if IsFence(lines[0]) then NoFit(lines[1..], !open, p)
                    else (open || !IsH2(lines[0]) || !p(lines[0])) && NoFit(lines[1..], open, p))
  }

  lemma {:induction false} NoFitAppend(a: Lines, b: Lines, open: bool, p: string -> bool)
    ensures NoFit(a + b, open, p) <==> NoFit(a, open, p) && NoFit(b, Open(a, open), p)
    decreases |a|
  {
    if a == [] {
      assert a + b == b;
    } else {
      assert (a + b)[0] == a[0] && (a + b)[1..] == a[1..] + b;
      NoFitAppend(a[1..], b, if IsFence(a[0]) then !open else open, p);
    }
  }

  lemma {:induction false} NoneFits(lines: Lines, open: bool, p: string -> bool)
    requires NoHeading(lines, open)
    ensures NoFit(lines, open, p)
    decreases |lines|
  {
    if lines != [] { NoneFits(lines[1..], if IsFence(lines[0]) then !open else open, p); }
  }

  /** Over such lines, the pass only tracks fences. */
  lemma {:induction false} ScanPast(lines: Lines, i: nat, n: nat, open: bool, p: string -> bool)
    requires i + n <= |lines| && NoFit(lines[i..i + n], open, p)
    ensures Scan(lines, i, open, None, p) == Scan(lines, i + n, Open(lines[i..i + n], open), None, p)
    decreases n
  {
    if n > 0 {
      var part := lines[i..i + n];
      assert part[0] == lines[i] && part[1..] == lines[i + 1..i + 1 + (n - 1)];
      ScanPast(lines, i + 1, n - 1, if IsFence(lines[i]) then !open else open, p);
    }
  }

  /** Once a section is found, the pass gives it. */
  lemma {:induction false} ScanStarted(lines: Lines, i: nat, open: bool, start: nat, p: string -> bool)
    requires i <= |lines|
    ensures var r := Scan(lines, i, open, Some(start), p); r.Some? && r.value.0 == start && i <= r.value.1 <= |lines|
    decreases |lines| - i
  {
    if i < |lines| { ScanStarted(lines, i + 1, if IsFence(lines[i]) then !open else open, start, p); }
  }

  /** A pass that finds nothing went over such lines. */
  lemma {:induction false} NothingScanned(lines: Lines, i: nat, open: bool, p: string -> bool)
    requires i <= |lines| && Scan(lines, i, open, None, p) == None
    ensures NoFit(lines[i..], open, p)
    decreases |lines| - i
  {
    if i < |lines| {
      assert lines[i..][0] == lines[i] && lines[i..][1..] == lines[i + 1..];
      ScanStarted(lines, i + 1, open, i, p);
      NothingScanned(lines, i + 1, if IsFence(lines[i]) then !open else open, p);
    }
  }

  /** No code is open where a section is found. */
  lemma {:induction false} ClosedBefore(lines: Lines, i: nat, open: bool, p: string -> bool)
    requires i <= |lines| && Scan(lines, i, open, None, p).Some?
    ensures var s := Scan(lines, i, open, None, p).value.0; i <= s < |lines| && !Open(lines[i..s + 1], open)
    decreases |lines| - i
  {
    if i < |lines| {
      var now := if IsFence(lines[i]) then !open else open;
      var started := !IsFence(lines[i]) && !open && IsH2(lines[i]) && p(lines[i]);
      if started {
        ScanStarted(lines, i + 1, open, i, p);
        assert lines[i..i + 1] == [lines[i]] && [lines[i]][1..] == [];
      } else {
        ClosedBefore(lines, i + 1, now, p);
        var s := Scan(lines, i, open, None, p).value.0;
        assert lines[i..s + 1][0] == lines[i] && lines[i..s + 1][1..] == lines[i + 1..s + 1];
      }
    }
  }

  // ---- A section among other lines ----

  /** In open code nothing of it is a heading. */
  lemma HiddenSection(above: Lines, section: Lines, p: string -> bool)
    requires NoFit(above, false, p) && Open(above, false) && IsSection(section)
    requires forall i :: 1 <= i < |section| ==> !IsH2(section[i])
    ensures NotesBy(above + section, p) == Missing
  {
    var lines := above + section;
    H2IsNoFence(section[0]);
    PlainNoHeading(section[1..], true);
    assert NoHeading(section, true);
    NoneFits(section, true, p);
    NoFitAppend(above, section, false, p);
    assert lines[0..0 + |lines|] == lines;
    ScanPast(lines, 0, |lines|, false, p);
  }

  lemma ScanAbove(lines: Lines, above: Lines, p: string -> bool)
    requires |above| <= |lines| && lines[..|above|] == above && NoFit(above, false, p) && !Open(above, false)
    ensures Scan(lines, 0, false, None, p) == Scan(lines, |above|, false, None, p)
  {
    assert lines[0..0 + |above|] == above;
    ScanPast(lines, 0, |above|, false, p);
  }

  lemma ScanFrom(lines: Lines, n: nat, body: Lines, p: string -> bool)
    requires n + 1 + |body| <= |lines| && IsH2(lines[n]) && p(lines[n]) && lines[n + 1..n + 1 + |body|] == body &&
             NoHeading(body, false)
    ensures Scan(lines, n, false, None, p) == Scan(lines, n + 1 + |body|, Open(body, false), Some(n), p)
  {
    H2IsNoFence(lines[n]);
    ScanPlain(lines, n + 1, |body|, false, Some(n), p);
  }

  lemma ThreePieces(a: Lines, heading: string, body: Lines, c: Lines)
    ensures var all, n := a + ([heading] + body) + c, |a| + 1;
            && |all| == n + |body| + |c| && all[..|a|] == a && all[|a|] == heading && all[n..n + |body|] == body
            && (c != [] ==> all[n + |body|] == c[0])
  {
  }

  /** It ends with itself when it closes its code, or is the last. */
  lemma ListedSection(above: Lines, part: Lines, below: Lines, p: string -> bool, body: Lines)
    requires NoFit(above, false, p) && !Open(above, false) && IsSection(part) && p(part[0])
    requires (below != [] ==> IsH2(below[0]) && Closed(part)) && StripEmpty(part[1..]) == body && !AllBlank(body)
    ensures NotesBy(above + part + below, p) == Found(body)
  {
    var lines, n := above + part + below, |above|;
    assert part == [part[0]] + part[1..];
    ThreePieces(above, part[0], part[1..], below);
    ScanAbove(lines, above, p);
    ScanFrom(lines, n, part[1..], p);
    if below != [] { H2IsNoFence(below[0]); }
    NotesFound(lines, n, n + |part|, part[1..], p, body);
  }

  lemma {:induction false} TailKeeps(lines: Lines, j: nat)
    requires j < |lines| && lines[j] != ""
    ensures |DropEmptyTail(lines)| > j
    decreases |lines|
  {
    if lines[|lines| - 1] == "" { TailKeeps(lines[..|lines| - 1], j); }
  }

  /** A body that goes on past `block` is not stripped to it. */
  lemma GoesOn(block: Lines, raw: Lines)
    requires Block(block) && block != [] && |raw| > |block| + 2 && raw[0] == "" && raw[1] == block[0] &&
             raw[|block| + 2] != ""
    ensures BodyNotes(raw) != Found(block)
  {
    assert DropEmptyHead(raw) == raw[1..];
    TailKeeps(raw[1..], |block| + 1);
  }

  /** Otherwise what follows is taken for its code, and for its notes. */
  lemma RunsOn(above: Lines, heading: string, block: Lines, body: Lines, below: Lines, p: string -> bool)
    requires NoFit(above, false, p) && !Open(above, false) && IsH2(heading) && p(heading) && NoHeading(body, false)
    requires Block(block) && block != [] && body == [""] + block + [""] && below != [] && IsH2(below[0]) &&
             Open(body, false)
    ensures NotesBy(above + ([heading] + body) + below, p) != Found(block)
  {
    var lines := above + ([heading] + body) + below;
    var end := ScanRunsOn(above, heading, body, below, p);
    ThreePieces(above, heading, body, below);
    NotesOfScan(lines, p, |above|, end);
    NotesBetween(lines, |above|, end);
    RawGoesOn(lines, |above| + 1, end, block, body, below[0]);
  }

  lemma ScanRunsOn(above: Lines, heading: string, body: Lines, below: Lines, p: string -> bool) returns (end: nat)
    requires NoFit(above, false, p) && !Open(above, false) && IsH2(heading) && p(heading) && NoHeading(body, false)
    requires below != [] && IsH2(below[0]) && Open(body, false)
    ensures var lines := above + ([heading] + body) + below;
            Scan(lines, 0, false, None, p) == Some((|above|, end)) && |above| + 1 + |body| < end <= |lines|
  {
    var lines := above + ([heading] + body) + below;
    ThreePieces(above, heading, body, below);
    ScanAbove(lines, above, p);
    ScanFrom(lines, |above|, body, p);
    end := ScanOn(lines, |above|, |above| + 1 + |body|, p);
  }

  lemma NotesBetween(lines: Lines, start: nat, end: nat)
    requires start < end <= |lines|
    ensures NotesIn(lines, Some((start, end))) == BodyNotes(lines[start + 1..end])
  {
  }

  lemma RawGoesOn(lines: Lines, at: nat, end: nat, block: Lines, body: Lines, next: string)
    requires at + |body| < end <= |lines| && lines[at..at + |body|] == body && lines[at + |body|] == next != ""
    requires Block(block) && block != [] && |body| == |block| + 2 && body[0] == "" && body[1] == block[0]
    ensures BodyNotes(lines[at..end]) != Found(block)
  {
    RawBody(lines, at, body, next, end);
    GoesOn(block, lines[at..end]);
  }

  /** In open code, the pass goes past a heading. */
  lemma ScanOn(lines: Lines, start: nat, at: nat, p: string -> bool) returns (end: nat)
    requires at < |lines| && IsH2(lines[at])
    ensures Scan(lines, at, true, Some(start), p) == Some((start, end)) && at < end <= |lines|
  {
    H2IsNoFence(lines[at]);
    ScanStarted(lines, at + 1, true, start, p);
    end := Scan(lines, at, true, Some(start), p).value.1;
  }

  lemma RawBody(lines: Lines, n: nat, body: Lines, next: string, end: nat)
    requires n + |body| < end <= |lines| && lines[n..n + |body|] == body && lines[n + |body|] == next && |body| >= 2
    ensures var raw := lines[n..end]; |raw| > |body| && raw[0] == body[0] && raw[1] == body[1] && raw[|body|] == next
  {
    var slice := lines[n..n + |body|];
    assert slice[0] == lines[n] && slice[1] == lines[n + 1];
  }

  // ---- Links ----

  lemma MovedNoFit(part: Lines, version: string, p: string -> bool)
    requires HasLink(part) && NoFit(part, false, p)
    ensures NoFit(MoveIn(part, version), false, p) && Open(MoveIn(part, version), false) == Open(part, false)
  {
    var i := CompareLinks.FirstLink(part);
    CompareLinks.FirstLinkFacts(part, i);
    MovedLineNeutral(part[i], version);
    MoveInKeeps(part, version, false);
    AroundLine(part, i);
    ReplaceNeutral(part[..i], [part[i]], part[i + 1..], CompareLinks.MovedLine(part[i], version), p);
  }

  lemma AroundLine(part: Lines, i: nat)
    requires i < |part|
    ensures part == part[..i] + [part[i]] + part[i + 1..]
  {
  }

  lemma ReplaceNeutral(x: Lines, l: Lines, y: Lines, lines: Lines, p: string -> bool)
    requires Neutral(l) && Neutral(lines) && NoFit(x + l + y, false, p)
    ensures NoFit(x + lines + y, false, p)
  {
    NeutralBetween(x, l, y, p);
    NeutralBetween(x, lines, y, p);
  }

  lemma NeutralBetween(x: Lines, l: Lines, y: Lines, p: string -> bool)
    requires Neutral(l)
    ensures NoFit(x + l + y, false, p) <==> NoFit(x, false, p) && NoFit(y, Open(x, false), p)
  {
    NoFitThree(x, l, y, p);
    NoneFits(l, Open(x, false), p);
  }

  lemma NoFitThree(x: Lines, l: Lines, y: Lines, p: string -> bool)
    ensures NoFit(x + l + y, false, p) <==>
            NoFit(x, false, p) && NoFit(l, Open(x, false), p) && NoFit(y, Open(l, Open(x, false)), p)
  {
    NoFitAppend(x + l, y, false, p);
    NoFitAppend(x, l, false, p);
    OpenAppend(x, l, false);
  }

  /** Updating the links keeps what stands above and below the section, as far as headings and fences go. */
  lemma LinksAround(above: Lines, part: Lines, below: Lines, version: string, p: string -> bool)
      returns (x: Lines, y: Lines)
    requires !HasLink(part) && !CompareLinks.HasVersion(above + part + below, version) && NoFit(above, false, p)
    requires below != [] ==> IsH2(below[0])
    ensures CompareLinks.UpdateLinks(above + part + below, version) == x + part + y
    ensures NoFit(x, false, p) && Open(x, false) == Open(above, false)
    ensures (y == [] <==> below == []) && (y != [] ==> IsH2(y[0]))
  {
    var parts := [above, part, below];
    FlatThree(above, part, below);
    UpdateFlat(parts, version);
    var r := UpdateParts(parts, version);
    FlatThree(r[0], r[1], r[2]);
    assert r == [r[0], r[1], r[2]];
    UpdatedPart(parts, version, 0);
    UpdatedPart(parts, version, 1);
    UpdatedPart(parts, version, 2);
    x, y := r[0], r[2];
    if HasLink(above) { MovedNoFit(above, version, p); }
    if HasLink(below) { BelowKept(below, version); }
  }

  lemma BelowKept(below: Lines, version: string)
    requires HasLink(below) && below != [] && IsH2(below[0])
    ensures MoveIn(below, version) != [] && MoveIn(below, version)[0] == below[0]
  {
    MoveInKeeps(below, version, false);
  }

  lemma FlatThree(a: Lines, b: Lines, c: Lines)
    ensures Flat([a, b, c]) == a + b + c
  {
    assert [a, b, c] == [a] + ([b] + ([c] + []));
    FlatCons(a, [b] + ([c] + []));
    FlatCons(b, [c] + []);
    FlatCons(c, []);
  }

  // ---- One release ----

  /**
   * What stands above the new section: no heading of a new version, and open code exactly when the note leaves
   * it open.
   */
  lemma AboveSection(lines: Lines, head: Lines, body: Lines, rest: Lines, p: string -> bool)
    requires Split(lines) == Some((head, body, rest)) && NotesBy(lines, p) == Missing
    ensures lines == head + body + rest && (rest != [] ==> IsH2(rest[0]))
    ensures NoFit(head + DropBlankTail(body) + [""], false, p) &&
            Open(head + DropBlankTail(body) + [""], false) == Open(body, false)
  {
    ScanBounds(lines, 0, false, None, Unreleased());
    ClosedBefore(lines, 0, false, Unreleased());
    assert lines[0..|head|] == head;
    NothingScanned(lines, 0, false, p);
    assert lines[0..] == lines == head + body + rest;
    NoFitAppend(head + body, rest, false, p);
    TrimmedAbove(head, body, p);
  }

  lemma TrimmedAbove(head: Lines, body: Lines, p: string -> bool)
    requires NoFit(head + body, false, p) && !Open(head, false)
    ensures NoFit(head + DropBlankTail(body) + [""], false, p) &&
            Open(head + DropBlankTail(body) + [""], false) == Open(body, false)
  {
    var kept := DropBlankTail(body);
    var gap := body[|kept|..];
    assert head + body == (head + kept) + gap;
    NoFitAppend(head + kept, gap, false, p);
    NoFitAppend(head + kept, [""], false, p);
    OpenAppend(head + kept, [""], false);
    OpenAppend(head, kept, false);
    BlankTailKeeps(body, false);
    BlankLine(Open(head + kept, false));
    NoneFits([""], Open(head + kept, false), p);
  }

  /** The section's own lines, spaced from what follows. */
  lemma SpacedSection(r: Release, last: bool)
    requires ValidFragments(r.fragments)
    ensures var part := Spaced(SectionOf(r), last);
            && IsSection(part) && (Closed(part) <==> Closed(SectionOf(r))) &&
               part[0] == HeadingLine(r.version, r.date) && !HasLink(part)
            && (forall i :: 1 <= i < |part| ==> !IsH2(part[i]))
  {
    SectionIsSection(r);
    RenderedBlock(r);
    var section := SectionOf(r);
    SpacedParts(section, last);
    BodyPlain(Rendered(r), section[1..]);
    SpacedBody(section, last);
  }

  lemma BodyPlain(block: Lines, body: Lines)
    requires Block(block) && body == [""] + block
    ensures forall i :: 0 <= i < |body| ==> !IsH2(body[i])
  {
    forall i | 0 <= i < |body| ensures !IsH2(body[i]) {
      assert i > 0 ==> body[i] == block[i - 1];
      PlainLine(body[i]);
    }
  }

  lemma SpacedBody(section: Lines, last: bool)
    requires section != [] && IsH2(section[0]) && forall i :: 0 <= i < |section[1..]| ==> !IsH2(section[1..][i])
    ensures var part := Spaced(section, last);
            IsSection(part) && (Closed(part) <==> Closed(section)) && forall i :: 1 <= i < |part| ==> !IsH2(part[i])
  {
    var body := section[1..];
    var part := Spaced(section, last);
    assert part[1..] == if last then body else body + [""];
    OpenAppend(body, [""], false);
    BlankLine(Open(body, false));
    PlainNoHeading(body, false);
    assert forall i :: 1 <= i < |section| ==> section[i] == body[i - 1];
  }

  lemma SpacedText(section: Lines, block: Lines, last: bool)
    requires section != [] && section[1..] == [""] + block && Block(block) && block != []
    ensures var part := Spaced(section, last);
            part != [] && StripEmpty(part[1..]) == block && (!last ==> part == [section[0]] + ([""] + block + [""]))
  {
    StripBlock(block);
    assert section == [section[0]] + ([""] + block);
    assert Spaced(section, last)[1..] == if last then [""] + block else [""] + block + [""];
  }

  /** The notes of the section, with these lines above and below. */
  lemma NotesAround(above: Lines, r: Release, below: Lines, p: string -> bool)
    requires ValidFragments(r.fragments) && NoFit(above, false, p) && p(HeadingLine(r.version, r.date))
    requires below != [] ==> IsH2(below[0]) && !Open(above, false)
    ensures NotesBy(above + Spaced(SectionOf(r), below == []) + below, p) == Found(Rendered(r)) <==>
            !Open(above, false) && (below == [] || Closed(SectionOf(r)))
  {
    var part := Spaced(SectionOf(r), below == []);
    SectionIsSection(r);
    RenderedBlock(r);
    RenderedNotBlank(r);
    SpacedSection(r, below == []);
    SpacedText(SectionOf(r), Rendered(r), below == []);
    if Open(above, false) {
      HiddenSection(above, part, p);
      assert above + part + below == above + part;
    } else if below == [] || Closed(SectionOf(r)) {
      ListedSection(above, part, below, p, Rendered(r));
    } else {
      var body := [""] + Rendered(r) + [""];
      assert part == [part[0]] + body && part[1..] == body;
      RunsOn(above, part[0], Rendered(r), body, below, p);
    }
  }

  /** What an assembled release stands between. */
  lemma Surrounded(lines: Lines, r: Release, p: string -> bool) returns (above: Lines, below: Lines)
    requires ChangelogHistory.NewVersion(lines, r.version) && ValidFragments(r.fragments) && p == HeadingOf(r.version)
    requires NoteOnly(Split(lines).value.1, false)
    ensures Assemble(lines, r.version, SectionOf(r)) == Written(above + Spaced(SectionOf(r), below == []) + below)
    ensures NoFit(above, false, p) && Open(above, false) == Open(Split(lines).value.1, false)
    ensures (below == [] <==> Split(lines).value.2 == []) && (below != [] ==> IsH2(below[0]) && !Open(above, false))
  {
    var (head, body, rest) := Split(lines).value;
    var section := SectionOf(r);
    var top, part := head + DropBlankTail(body) + [""], Spaced(section, rest == []);
    AboveSection(lines, head, body, rest, p);
    if rest != [] { ChangelogHistory.OpenOnlyAtEnd(lines); }
    SectionIsSection(r);
    SpacedSection(r, rest == []);
    NoVersionWith(head, body, section, rest, r.version);
    InsertedWith(head, body, section, rest);
    AssembleWrites(lines, r.version, section, head, body, rest, top + part + rest);
    above, below := LinksAround(top, part, rest, r.version, p);
  }

  /** A release's notes are what was rendered for it exactly when no open code hides its heading or the next one. */
  lemma ReleaseListedIff(lines: Lines, r: Release)
    requires ChangelogHistory.NewVersion(lines, r.version) && ValidFragments(r.fragments) && GoodVersion(r.version)
    requires NoteOnly(Split(lines).value.1, false)
    ensures var written := Assemble(lines, r.version, SectionOf(r));
            && written.Written?
            && (NotesOf(written.lines, r.version) == Found(Rendered(r)) <==>
                !Open(Split(lines).value.1, false) && (Split(lines).value.2 == [] || Closed(SectionOf(r))))
  {
    var p := HeadingOf(r.version);
    var above, below := Surrounded(lines, r, p);
    OwnHeading(r.version, r.date, r.version);
    SameNoCaseSelf(r.version);
    NotesAround(above, r, below, p);
  }

  /** Below a note that leaves code open, no release is found. */
  lemma OpenNoteHides(lines: Lines, r: Release)
    requires ChangelogHistory.NewVersion(lines, r.version) && ValidFragments(r.fragments)
    requires NoteOnly(Split(lines).value.1, false) && Open(Split(lines).value.1, false)
    ensures var written := Assemble(lines, r.version, SectionOf(r));
            written.Written? && NotesOf(written.lines, r.version) == Missing
  {
    var p := HeadingOf(r.version);
    var above, below := Surrounded(lines, r, p);
    var part := Spaced(SectionOf(r), true);
    SpacedSection(r, true);
    HiddenSection(above, part, p);
    assert above + part + below == above + part;
  }

  lemma NoVersionWith(head: Lines, body: Lines, section: Lines, rest: Lines, version: string)
    requires !CompareLinks.HasVersion(head + body + rest, version) &&
             forall i :: 0 <= i < |section| ==> CompareLinks.NoBracket(section[i])
    ensures !CompareLinks.HasVersion(Inserted(head, body, section, rest), version)
  {
    PlainNoVersion(section, version);
    PlainNoVersion([""], version);
    NoVersionInserted(head, body, section, rest, version);
  }

  lemma InsertedWith(head: Lines, body: Lines, section: Lines, rest: Lines)
    ensures Inserted(head, body, section, rest) ==
            head + DropBlankTail(body) + [""] + Spaced(section, rest == []) + rest
  {
  }

  // ---- A note that leaves code open ----

  const TICKS := "```"

  lemma TicksOpen()
    ensures IsFence(TICKS) && Open([TICKS], false) && NoHeading([TICKS], false) && NoteOnly([TICKS], false)
  {
    assert TrimLeft(TICKS) == TICKS;
    assert [TICKS][1..] == [];
  }

  lemma OpenDoc(title: string, p: string -> bool)
    requires p == Unreleased() && p(title) && IsH2(title)
    ensures var d := Doc([[], [title, TICKS]], 1); ValidDoc(d) && DocLines(d) == [title, TICKS]
  {
    var parts := [[], [title, TICKS]];
    var sections := parts[1..];
    TicksOpen();
    assert sections == [[title, TICKS]] && [title, TICKS][1..] == [TICKS];
    FirstIs(sections, p, 0);
    FlatCons([], sections);
    FlatCons([title, TICKS], []);
  }

  lemma OpenDocNew(d: Doc, version: string)
    requires d == Doc([[], [ChangelogHistory.TITLE, TICKS]], 1) && ValidDoc(d) && !SameNoCase("Unreleased", version)
    ensures IsNew(d, version)
  {
    ChangelogHistory.TitleNames(version);
    OtherStart(LinkPrefix(version), ChangelogHistory.TITLE, 0);
    OtherStart(LinkPrefix(version), TICKS, 0);
    assert NoPrefix([], LinkPrefix(version)) && NoPrefix([ChangelogHistory.TITLE, TICKS], LinkPrefix(version));
    NewByParts(d, version);
  }

  /** A note that is only an opening fence is one. */
  lemma OpeningFenceHides(r: Release)
    requires ValidFragments(r.fragments) && !SameNoCase("Unreleased", r.version)
    ensures var written := Assemble([ChangelogHistory.TITLE, TICKS], r.version, SectionOf(r));
            written.Written? && NotesOf(written.lines, r.version) == Missing
  {
    var title := ChangelogHistory.TITLE;
    var d := Doc([[], [title, TICKS]], 1);
    PrefixIff(title, title);
    assert title[..3] == H2;
    OpenDoc(title, Unreleased());
    TicksOpen();
    OpenDocNew(d, r.version);
    ChangelogHistory.NewOnLines(d, r.version);
    ChangelogHistory.BodyAndRest(d);
    assert d.parts[d.u][1..] == [TICKS];
    OpenNoteHides([title, TICKS], r);
  }
}
