/**
 * What assembling keeps, release after release: a changelog as parts, the section each release
 * adds, and the chain of compare links.
 */
module ChangelogRuns {
  import opened Search
  import opened Texts
  import opened ChangelogSections
  import opened ChangelogEntries
  import opened Changelog
  import CompareLinks

  /** A changelog as its preamble and sections; section `u` is the first [Unreleased] one. */
  datatype Doc = Doc(parts: seq<Lines>, u: nat)

  function DocLines(d: Doc): Lines { Flat(d.parts) }

  ghost predicate ValidDoc(d: Doc) {
    && 1 <= d.u < |d.parts| && Plain(d.parts[0]) && Sections(d.parts[1..])
    && First(d.parts[1..], Unreleased()) == d.u - 1
  }

  lemma FlatCons(part: Lines, rest: seq<Lines>)
    ensures Flat([part] + rest) == part + Flat(rest)
  {
    assert ([part] + rest)[1..] == rest;
  }

  lemma SplitAt(parts: seq<Lines>, k: nat)
    requires k < |parts|
    ensures parts == parts[..k] + ([parts[k]] + parts[k + 1..])
  {
  }

  lemma Regroup(a: Lines, b: Lines, c: Lines)
    ensures a + (b + c) == a + b + c
  {
  }

  lemma FlatSplit(parts: seq<Lines>, k: nat, a: Lines, b: Lines)
    requires k < |parts| && a == Flat(parts[..k]) && b == Flat(parts[k + 1..])
    ensures Flat(parts) == a + parts[k] + b
  {
    SplitAt(parts, k);
    FlatCons(parts[k], parts[k + 1..]);
    FlatAppend(parts[..k], [parts[k]] + parts[k + 1..]);
    Regroup(a, parts[k], b);
  }

  lemma FlatBounds(lines: Lines, parts: seq<Lines>, k: nat, at: nat, part: Lines)
    requires lines == Flat(parts) && k < |parts| && at == |Flat(parts[..k])| && part == parts[k]
    ensures at + |part| <= |lines|
    ensures lines[..at] == Flat(parts[..k]) && lines[at..at + |part|] == part &&
            lines[at + |part|..] == Flat(parts[k + 1..])
  {
    var a, b := Flat(parts[..k]), Flat(parts[k + 1..]);
    FlatSplit(parts, k, a, b);
    assert lines == a + part + b;
  }

  lemma TakeRest(parts: seq<Lines>, pre: Lines, rest: seq<Lines>, k: nat)
    requires 1 <= k < |parts| && pre == parts[0] && rest == parts[1..]
    ensures Flat(parts) == pre + Flat(rest) && |Flat(parts[..k])| == |pre| + |Flat(rest[..k - 1])| &&
            rest[k - 1] == parts[k]
  {
    FlatTake(parts, k);
  }

  /** Where the pass finds section `k`. */
  lemma ScanPart(lines: Lines, pre: Lines, rest: seq<Lines>, k: nat, p: string -> bool, at: nat)
    requires lines == pre + Flat(rest) && Plain(pre) && Sections(rest) && k < |rest| && First(rest, p) == k
    requires at == |pre| + |Flat(rest[..k])|
    ensures Scan(lines, 0, false, None, p) == Some((at, at + |rest[k]|))
  {
    FlatFirst(lines, pre, Flat(rest));
    ScanParts(lines, pre, rest, p, k, at);
  }

  lemma FlatFirst(lines: Lines, first: Lines, rest: Lines)
    requires lines == first + rest
    ensures |first| <= |lines| && lines[..|first|] == first && lines[|first|..] == rest
  {
  }

  lemma SplitDoc(d: Doc)
    requires ValidDoc(d)
    ensures d.parts[d.u] != []
    ensures Split(DocLines(d)) ==
            Some((Flat(d.parts[..d.u]) + [d.parts[d.u][0]], d.parts[d.u][1..], Flat(d.parts[d.u + 1..])))
  {
    var parts, u := d.parts, d.u;
    var lines, at := DocLines(d), |Flat(parts[..u])|;
    TakeRest(parts, parts[0], parts[1..], u);
    ScanPart(lines, parts[0], parts[1..], u - 1, Unreleased(), at);
    FlatBounds(lines, parts, u, at, parts[u]);
    assert parts[1..][u - 1] == parts[u];
    SliceAt(lines, at, parts[u]);
  }

  lemma SliceAt(lines: Lines, at: nat, part: Lines)
    requires part != [] && at + |part| <= |lines| && lines[at..at + |part|] == part
    ensures lines[..at + 1] == lines[..at] + [part[0]] && lines[at + 1..at + |part|] == part[1..]
  {
    assert lines[at] == lines[at..at + |part|][0];
    assert lines[at..at + |part|][1..] == lines[at + 1..at + |part|];
  }

  // ---- Inserting a section ----

  function TrimPart(part: Lines): Lines
    requires part != []
  {
    [part[0]] + DropBlankTail(part[1..]) + [""]
  }

  function Spaced(section: Lines, last: bool): Lines { if last then section else section + [""] }

  function Insert(d: Doc, section: Lines): Doc
    requires d.u < |d.parts| && d.parts[d.u] != []
  {
    Doc(d.parts[..d.u] + [TrimPart(d.parts[d.u]), Spaced(section, d.u + 1 == |d.parts|)] + d.parts[d.u + 1..], d.u)
  }

  lemma FlatTwo(a: seq<Lines>, p: Lines, q: Lines, c: seq<Lines>)
    ensures Flat(a + [p, q] + c) == Flat(a) + (p + (q + Flat(c)))
  {
    var tail := [p] + ([q] + c);
    FlatCons(q, c);
    FlatCons(p, [q] + c);
    FlatAppend(a, tail);
    assert a + [p, q] + c == a + tail;
  }

  lemma InsertedShape(before: Lines, heading: string, body: Lines, section: Lines, rest: Lines)
    ensures Inserted(before + [heading], body, section, rest)
         == before + (([heading] + DropBlankTail(body) + [""]) + (Spaced(section, rest == []) + rest))
  {
    if rest == [] {
      assert Spaced(section, true) + rest == section;
    } else {
      assert Spaced(section, false) + rest == section + ([""] + rest);
    }
  }

  lemma RestIsEmpty(parts: seq<Lines>, u: nat)
    requires u < |parts| && forall i :: u < i < |parts| ==> parts[i] != []
    ensures Flat(parts[u + 1..]) == [] <==> u + 1 == |parts|
  {
    var c := parts[u + 1..];
    if c != [] { assert c[0] == parts[u + 1] && Flat(c) == c[0] + Flat(c[1..]); }
  }

  /** The lines before and after a section is inserted. */
  lemma DocSplits(d: Doc, section: Lines) returns (head: Lines, body: Lines, rest: Lines)
    requires ValidDoc(d) && d.parts[d.u] != []
    ensures DocLines(d) == head + body + rest && DocLines(Insert(d, section)) == Inserted(head, body, section, rest)
    ensures rest != [] ==> IsH2(rest[0])
  {
    head, body, rest := Flat(d.parts[..d.u]) + [d.parts[d.u][0]], d.parts[d.u][1..], Flat(d.parts[d.u + 1..]);
    HeadBodyRest(d.parts, d.u, head, body, rest);
    InsertedIsDoc(d, section);
    RestIsSections(d);
  }

  lemma RestIsSections(d: Doc)
    requires ValidDoc(d)
    ensures var rest := Flat(d.parts[d.u + 1..]); rest != [] ==> IsH2(rest[0])
  {
    var c := d.parts[d.u + 1..];
    if c != [] { assert c[0] == d.parts[1..][d.u] && Flat(c) == c[0] + Flat(c[1..]); }
  }

  lemma InsertedIsDoc(d: Doc, section: Lines)
    requires ValidDoc(d) && d.parts[d.u] != []
    ensures Inserted(Flat(d.parts[..d.u]) + [d.parts[d.u][0]], d.parts[d.u][1..], section, Flat(d.parts[d.u + 1..])) ==
            DocLines(Insert(d, section))
  {
    var parts, u := d.parts, d.u;
    forall i | u < i < |parts| ensures parts[i] != [] { assert parts[i] == parts[1..][i - 1]; }
    RestIsEmpty(parts, u);
    InsertedPieces(parts[..u], parts[u], parts[u + 1..], section);
  }

  lemma InsertedPieces(a: seq<Lines>, part: Lines, c: seq<Lines>, section: Lines)
    requires part != [] && (Flat(c) == [] <==> |c| == 0)
    ensures Inserted(Flat(a) + [part[0]], part[1..], section, Flat(c)) ==
            Flat(a + [TrimPart(part), Spaced(section, |c| == 0)] + c)
  {
    InsertedShape(Flat(a), part[0], part[1..], section, Flat(c));
    FlatTwo(a, TrimPart(part), Spaced(section, |c| == 0), c);
  }

  // ---- What inserting keeps ----

  lemma {:induction false} BlankTailKeeps(lines: Lines, open: bool)
    ensures Open(DropBlankTail(lines), open) == Open(lines, open)
    ensures NoHeading(lines, open) ==> NoHeading(DropBlankTail(lines), open)
    decreases |lines|
  {
    if lines != [] && IsBlank(lines[|lines| - 1]) {
      var init, last := lines[..|lines| - 1], lines[|lines| - 1];
      assert lines == init + [last];
      OpenAppend(init, [last], open);
      assert !IsFence(last);
      BlankTailKeeps(init, open);
    }
  }

  lemma BlankLine(open: bool)
    ensures Open([""], open) == open && NoHeading([""], open)
  {
    assert TrimLeft("") == "" && !IsFence("");
  }

  lemma TrimPartKeeps(part: Lines)
    requires IsSection(part) && Closed(part)
    ensures IsSection(TrimPart(part)) && Closed(TrimPart(part)) && TrimPart(part)[0] == part[0]
  {
    var body := DropBlankTail(part[1..]);
    BlankTailKeeps(part[1..], false);
    OpenAppend(body, [""], false);
    BlankLine(false);
    assert TrimPart(part)[1..] == body + [""];
  }

  lemma SpacedKeeps(section: Lines, last: bool)
    requires IsSection(section) && (!last ==> Closed(section))
    ensures IsSection(Spaced(section, last)) && (!last ==> Closed(Spaced(section, last))) &&
            Spaced(section, last)[0] == section[0]
  {
    OpenAppend(section[1..], [""], false);
    BlankLine(false);
    assert !last ==> Spaced(section, last)[1..] == section[1..] + [""];
  }

  lemma FirstIs(parts: seq<Lines>, p: string -> bool, k: nat)
    requires (forall i :: 0 <= i < |parts| ==> parts[i] != []) && k < |parts|
    requires p(parts[k][0]) && forall i :: 0 <= i < k ==> !p(parts[i][0])
    ensures First(parts, p) == k
  {
  }

  lemma InsertValid(d: Doc, section: Lines)
    requires ValidDoc(d) && d.parts[d.u] != [] && Closed(d.parts[d.u])
    requires IsSection(section) && (d.u + 1 < |d.parts| ==> Closed(section))
    ensures ValidDoc(Insert(d, section)) && Closed(Insert(d, section).parts[d.u])
  {
    var parts, u := d.parts, d.u;
    var sections := parts[1..];
    assert sections[u - 1] == parts[u];
    TrimPartKeeps(parts[u]);
    SpacedKeeps(section, u + 1 == |parts|);
    var s := Insert(d, section).parts[1..];
    InsertTail(parts, u, TrimPart(parts[u]), Spaced(section, u + 1 == |parts|));
    InsertedSections(sections, u - 1, TrimPart(parts[u]), Spaced(section, u + 1 == |parts|), s, Unreleased());
  }

  lemma InsertTail(parts: seq<Lines>, u: nat, x: Lines, y: Lines)
    requires 1 <= u < |parts|
    ensures (parts[..u] + [x, y] + parts[u + 1..])[1..] == parts[1..][..u - 1] + [x, y] + parts[1..][u - 1 + 1..]
  {
  }

  lemma InsertedSections(sections: seq<Lines>, k: nat, a: Lines, b: Lines, s: seq<Lines>, p: string -> bool)
    requires Sections(sections) && k < |sections| && s == sections[..k] + [a, b] + sections[k + 1..]
    requires IsSection(a) && Closed(a) && IsSection(b) && (k + 1 < |sections| ==> Closed(b))
    requires First(sections, p) == k && a[0] == sections[k][0]
    ensures Sections(s) && First(s, p) == k
  {
    InsertIndex(sections, k, a, b, s);
    forall i | 0 <= i < |s| ensures IsSection(s[i]) && (i < |s| - 1 ==> Closed(s[i])) {
      if i > k + 1 { assert s[i] == sections[i - 1]; } else if i < k { assert s[i] == sections[i]; }
    }
    FirstIs(s, p, k);
  }

  // ---- Links inside parts ----

  predicate HasLink(part: Lines) { CompareLinks.FirstLink(part) < |part| }

  function MoveIn(part: Lines, version: string): Lines
    requires HasLink(part)
  {
    var i := CompareLinks.FirstLink(part);
    Replace(part, i, CompareLinks.MovedLine(part[i], version))
  }

  function Replace(part: Lines, i: nat, lines: Lines): Lines
    requires i < |part|
  {
    part[..i] + lines + part[i + 1..]
  }

  lemma ReplaceParts(a: Lines, b: Lines, i: nat, lines: Lines)
    ensures i < |a| ==> Replace(a + b, i, lines) == Replace(a, i, lines) + b
    ensures i < |b| ==> Replace(a + b, |a| + i, lines) == a + Replace(b, i, lines)
    ensures 0 < i < |b| ==> Replace(b, i, lines)[1..] == Replace(b[1..], i - 1, lines)
  {
    if i < |a| { assert (a + b)[..i] == a[..i] && (a + b)[i + 1..] == a[i + 1..] + b; }
    if i < |b| { assert (a + b)[..|a| + i] == a + b[..i] && (a + b)[|a| + i + 1..] == b[i + 1..]; }
    if 0 < i < |b| { assert b[1..][..i - 1] == b[..i][1..] && b[1..][i..] == b[i + 1..]; }
  }

  /** A line that starts no section and toggles no fence. */
  ghost predicate Neutral(lines: Lines) {
    forall open :: Open(lines, open) == open && NoHeading(lines, open)
  }

  lemma ReplaceKeeps(part: Lines, i: nat, lines: Lines, open: bool)
    requires i < |part| && Neutral([part[i]]) && Neutral(lines)
    ensures Open(Replace(part, i, lines), open) == Open(part, open)
    ensures NoHeading(Replace(part, i, lines), open) <==> NoHeading(part, open)
  {
    var x, l, y := part[..i], [part[i]], part[i + 1..];
    assert part == x + l + y;
    OpenAppend(x + l, y, open);
    OpenAppend(x, l, open);
    OpenAppend(x + lines, y, open);
    OpenAppend(x, lines, open);
  }

  function UpdateParts(parts: seq<Lines>, version: string): (r: seq<Lines>)
    ensures |r| == |parts|
  {
    if parts == [] then []
    else if HasLink(parts[0]) then [MoveIn(parts[0], version)] + parts[1..]
    else [parts[0]] + UpdateParts(parts[1..], version)
  }

  lemma {:induction false} FirstLinkAppend(a: Lines, b: Lines)
    ensures CompareLinks.FirstLink(a + b) ==
            if HasLink(a) then CompareLinks.FirstLink(a) else |a| + CompareLinks.FirstLink(b)
    decreases |a|
  {
    if a == [] {
      assert a + b == b;
    } else {
      assert (a + b)[0] == a[0] && (a + b)[1..] == a[1..] + b;
      FirstLinkAppend(a[1..], b);
    }
  }

  /** Replacing the first link of the lines replaces that of the first part with one. */
  lemma {:induction false} MoveInFlat(parts: seq<Lines>, version: string)
    ensures HasLink(Flat(parts)) ==> MoveIn(Flat(parts), version) == Flat(UpdateParts(parts, version))
    ensures !HasLink(Flat(parts)) ==> UpdateParts(parts, version) == parts
    decreases |parts|
  {
    if parts != [] {
      var a, rest := parts[0], parts[1..];
      FirstLinkAppend(a, Flat(rest));
      if HasLink(a) {
        FlatCons(MoveIn(a, version), rest);
        MoveInLeft(a, Flat(rest), version);
      } else {
        MoveInFlat(rest, version);
        FlatCons(a, UpdateParts(rest, version));
        if HasLink(Flat(rest)) { MoveInRight(a, Flat(rest), version); } else { assert parts == [a] + rest; }
      }
    }
  }

  lemma MoveInLeft(a: Lines, b: Lines, version: string)
    requires HasLink(a)
    ensures HasLink(a + b) && MoveIn(a + b, version) == MoveIn(a, version) + b
  {
    FirstLinkAppend(a, b);
    var i := CompareLinks.FirstLink(a);
    assert (a + b)[i] == a[i];
    ReplaceParts(a, b, i, CompareLinks.MovedLine(a[i], version));
  }

  lemma RightLink(a: Lines, b: Lines, c: Lines) returns (i: nat)
    requires !HasLink(a) && HasLink(b) && c == a + b
    ensures i < |b| && i == CompareLinks.FirstLink(b) && CompareLinks.FirstLink(c) == |a| + i && |c| == |a| + |b| &&
            c[|a| + i] == b[i]
  {
    FirstLinkAppend(a, b);
    i := CompareLinks.FirstLink(b);
  }

  lemma MoveInRight(a: Lines, b: Lines, version: string)
    requires !HasLink(a) && HasLink(b)
    ensures HasLink(a + b) && MoveIn(a + b, version) == a + MoveIn(b, version)
  {
    var i := RightLink(a, b, a + b);
    ReplaceRight(a, b, i, CompareLinks.MovedLine(b[i], version));
  }

  lemma ReplaceRight(a: Lines, b: Lines, i: nat, lines: Lines)
    requires i < |b|
    ensures (a + b)[|a| + i] == b[i] && Replace(a + b, |a| + i, lines) == a + Replace(b, i, lines)
  {
    ReplaceParts(a, b, i, lines);
  }

  lemma UpdateFlat(parts: seq<Lines>, version: string)
    requires !CompareLinks.HasVersion(Flat(parts), version)
    ensures CompareLinks.UpdateLinks(Flat(parts), version) == Flat(UpdateParts(parts, version))
  {
    MoveInFlat(parts, version);
  }

  // ---- Link lines are neither fences nor headings ----

  lemma BracketNeutral(line: string)
    requires !CompareLinks.NoBracket(line)
    ensures !IsH2(line) && Neutral([line])
  {
    assert line[0] == '[';
    assert TrimLeft(line) == line && !IsFence(line);
    assert [line][1..] == [];
    forall open ensures Open([line], open) == open && NoHeading([line], open) {
      assert Open([line], open) == Open([], open) && NoHeading([], open);
    }
  }

  lemma LinkNeutral(line: string)
    requires CompareLinks.ParseLink(line).Some?
    ensures !IsH2(line) && Neutral([line])
  {
    if CompareLinks.NoBracket(line) { CompareLinks.NoBracketNoLink(line); }
    BracketNeutral(line);
  }

  lemma MovedNeutral(link: CompareLinks.Link, version: string)
    ensures Neutral(CompareLinks.Moved(link, version))
  {
    var m := CompareLinks.Moved(link, version);
    BracketNeutral(m[0]);
    BracketNeutral(m[1]);
    assert m == [m[0]] + [m[1]];
    forall open ensures Open(m, open) == open && NoHeading(m, open) { OpenAppend([m[0]], [m[1]], open); }
  }

  lemma MovedLineNeutral(line: string, version: string)
    requires CompareLinks.ParseLink(line).Some?
    ensures !IsH2(line) && Neutral([line]) && Neutral(CompareLinks.MovedLine(line, version))
  {
    LinkNeutral(line);
    MovedNeutral(CompareLinks.ParseLink(line).value, version);
  }

  /** Moving a link in a part keeps its headings and fences. */
  lemma MoveInKeeps(part: Lines, version: string, open: bool)
    requires HasLink(part)
    ensures Open(MoveIn(part, version), open) == Open(part, open)
    ensures NoHeading(MoveIn(part, version), open) <==> NoHeading(part, open)
    ensures IsH2(part[0]) ==> CompareLinks.FirstLink(part) > 0
  {
    var i := CompareLinks.FirstLink(part);
    CompareLinks.FirstLinkFacts(part, i);
    MovedLineNeutral(part[i], version);
    ReplaceKeeps(part, i, CompareLinks.MovedLine(part[i], version), open);
  }

  lemma MoveInSection(part: Lines, version: string)
    requires HasLink(part) && IsSection(part)
    ensures IsSection(MoveIn(part, version)) && MoveIn(part, version)[0] == part[0] &&
            (Closed(MoveIn(part, version)) <==> Closed(part))
  {
    MoveInKeeps(part, version, false);
    var body := part[1..];
    FirstLinkAppend([part[0]], body);
    LinkInTail(part, version);
    MoveInKeeps(body, version, false);
  }

  lemma LinkInTail(part: Lines, version: string)
    requires HasLink(part) && CompareLinks.FirstLink(part) > 0
    ensures HasLink(part[1..]) && MoveIn(part, version)[1..] == MoveIn(part[1..], version)
  {
    var i := CompareLinks.FirstLink(part);
    ReplaceParts([], part, i, CompareLinks.MovedLine(part[i], version));
  }

  /** A part with its link moved, if it has one, keeps its structure. */
  ghost predicate PartKept(part: Lines, r: Lines, version: string) {
    && (!HasLink(part) ==> r == part)
    && (Plain(part) ==> Plain(r))
    && (IsSection(part) ==> IsSection(r) && r[0] == part[0] && (Closed(r) <==> Closed(part)))
    && (r == part || (HasLink(part) && r == MoveIn(part, version)))
  }

  lemma MovedPartKept(part: Lines, version: string)
    requires HasLink(part)
    ensures PartKept(part, MoveIn(part, version), version)
  {
    MoveInKeeps(part, version, false);
    if IsSection(part) { MoveInSection(part, version); }
  }

  /** Each part is as it was, or has its link moved. */
  lemma {:induction false} UpdatedPart(parts: seq<Lines>, version: string, k: nat)
    requires k < |parts|
    ensures var r := UpdateParts(parts, version)[k];
            r == parts[k] || (HasLink(parts[k]) && r == MoveIn(parts[k], version))
    decreases |parts|
  {
    if !HasLink(parts[0]) && k > 0 { UpdatedPart(parts[1..], version, k - 1); }
  }

  /** Updating the links of parts keeps the changelog's structure, and every part without a link. */
  lemma UpdatePartsKeeps(parts: seq<Lines>, version: string, k: nat)
    requires k < |parts|
    ensures PartKept(parts[k], UpdateParts(parts, version)[k], version)
  {
    UpdatedPart(parts, version, k);
    if HasLink(parts[k]) { MovedPartKept(parts[k], version); }
  }

  /** Sections with the same headings and fences, in a row as the first ones are. */
  lemma SameSections(a: seq<Lines>, b: seq<Lines>)
    requires |a| == |b| && Sections(a)
    requires forall k :: 0 <= k < |a| ==> IsSection(b[k]) && b[k][0] == a[k][0] && (Closed(b[k]) <==> Closed(a[k]))
    ensures Sections(b) && forall p :: First(b, p) == First(a, p)
  {
    forall p: string -> bool ensures First(b, p) == First(a, p) {
      var k := First(a, p);
      if k < |a| { FirstIs(b, p, k); }
    }
  }

  lemma UpdateSections(parts: seq<Lines>, version: string, k: nat)
    requires 1 <= k < |parts| && IsSection(parts[k])
    ensures var r := UpdateParts(parts, version);
            IsSection(r[k]) && r[k][0] == parts[k][0] && (Closed(r[k]) <==> Closed(parts[k]))
  {
    UpdatePartsKeeps(parts, version, k);
  }

  lemma TailsMatch(a: seq<Lines>, b: seq<Lines>)
    requires |a| == |b| >= 1 && Sections(a[1..])
    requires forall k :: 1 <= k < |a| ==> IsSection(b[k]) && b[k][0] == a[k][0] && (Closed(b[k]) <==> Closed(a[k]))
    ensures Sections(b[1..]) && forall p :: First(b[1..], p) == First(a[1..], p)
  {
    var x, y := a[1..], b[1..];
    assert forall k :: 0 <= k < |x| ==> x[k] == a[k + 1] && y[k] == b[k + 1];
    SameSections(x, y);
  }

  lemma UpdateValid(d: Doc, version: string)
    requires ValidDoc(d) && Closed(d.parts[d.u])
    ensures ValidDoc(Doc(UpdateParts(d.parts, version), d.u)) && Closed(UpdateParts(d.parts, version)[d.u])
  {
    PartsAreSections(d);
    forall k | 1 <= k < |d.parts|
      ensures var r := UpdateParts(d.parts, version);
              IsSection(r[k]) && r[k][0] == d.parts[k][0] && (Closed(r[k]) <==> Closed(d.parts[k]))
    {
      UpdateSections(d.parts, version, k);
    }
    UpdatePartsKeeps(d.parts, version, 0);
    TailsMatch(d.parts, UpdateParts(d.parts, version));
  }

  lemma PartsAreSections(d: Doc)
    requires ValidDoc(d)
    ensures forall i :: 1 <= i < |d.parts| ==> IsSection(d.parts[i])
  {
    forall i | 1 <= i < |d.parts| ensures IsSection(d.parts[i]) { assert d.parts[1..][i - 1] == d.parts[i]; }
  }

  // ---- One release ----

  datatype Release = Release(version: string, date: string, fragments: seq<Fragment>)

  ghost predicate ValidFragments(fs: seq<Fragment>) {
    fs != [] && forall f :: f in fs ==> f.entry != [] && ValidFragment(f)
  }

  function Rendered(r: Release): Lines
    requires forall f :: f in r.fragments ==> f.entry != []
  {
    RenderLines(SECTIONS, r.fragments)
  }

  function SectionOf(r: Release): Lines
    requires forall f :: f in r.fragments ==> f.entry != []
  {
    SectionLines(r.version, r.date, Rendered(r))
  }

  /** A version as the tools take one: a name without brackets, slashes or spaces. */
  predicate GoodVersion(version: string) { version != [] && NoSpace(version) && ']' !in version && '/' !in version }

  /** Validated fragments, with no code left open, under a version's name. */
  ghost predicate GoodRelease(r: Release) {
    ValidFragments(r.fragments) && GoodVersion(r.version) && Closed(SectionOf(r))
  }

  ghost predicate NoHeadingOf(parts: seq<Lines>, name: string) {
    forall k {:trigger parts[k]} :: 1 <= k < |parts| && parts[k] != [] ==> !IsHeadingOf(parts[k][0], name)
  }

  /** A version without a section or a link. */
  ghost predicate IsNew(d: Doc, version: string)
    requires d.u < |d.parts|
  {
    && NoHeadingOf(d.parts, version) && !HasHeading(Flat(d.parts[d.u + 1..]), version)
    && !CompareLinks.HasVersion(DocLines(d), version)
  }

  /** The release is new to the changelog, and no code it adds or follows is left open. */
  ghost predicate Ready(d: Doc, r: Release)
    requires d.u < |d.parts|
  {
    GoodRelease(r) && IsNew(d, r.version)
  }

  /** The changelog's parts after the release. */
  function Step(d: Doc, r: Release): Doc
    requires d.u < |d.parts| && d.parts[d.u] != [] && forall f :: f in r.fragments ==> f.entry != []
  {
    Doc(UpdateParts(Insert(d, SectionOf(r)).parts, r.version), d.u)
  }

  /** Lines of a release section: blank, a heading of level 3, or an entry's. */
  predicate IsPlainLine(line: string) { line == "" || "### " <= line || IsEntryLine(line) }

  lemma PlainLine(line: string)
    requires IsPlainLine(line)
    ensures !IsH2(line) && CompareLinks.NoBracket(line)
  {
    if line != "" { assert line[0] == '#' || line[0] == '-' || line[0] == ' '; }
    if "### " <= line { assert line[2] == '#'; }
  }

  ghost predicate Block(lines: Lines) {
    && (forall i :: 0 <= i < |lines| ==> IsPlainLine(lines[i]))
    && (lines != [] ==> lines[0] != "" && lines[|lines| - 1] != "")
  }

  lemma JoinBlock(a: Lines, b: Lines)
    requires Block(a) && Block(b)
    ensures Block(Join(a, b))
  {
  }

  lemma {:induction false} EntriesBlock(fs: seq<Fragment>)
    requires forall f :: f in fs ==> f.entry != [] && ValidFragment(f)
    ensures Block(EntryLines(fs)) && (fs != [] ==> EntryLines(fs) != [])
    decreases |fs|
  {
    if fs != [] {
      LinkedLines(fs[0]);
      EntriesBlock(fs[1..]);
      var a := Linked(fs[0]);
      assert forall i :: 0 <= i < |a| ==> IsEntryLine(a[i]);
      assert Block(a);
      JoinBlock(a, EntryLines(fs[1..]));
    }
  }

  lemma GroupBlock(section: string, fs: seq<Fragment>)
    requires forall f :: f in fs ==> f.entry != [] && ValidFragment(f)
    ensures Block(GroupLines(section, fs)) &&
            (fs != [] ==> GroupLines(section, fs) != [] && "### " <= GroupLines(section, fs)[0])
  {
    EntriesBlock(fs);
    assert "### " <= "### " + section;
  }

  lemma {:induction false} RenderBlock(sections: seq<string>, fs: seq<Fragment>)
    requires forall f :: f in fs ==> f.entry != [] && ValidFragment(f)
    ensures var r := RenderLines(sections, fs); Block(r) && (r != [] ==> "### " <= r[0])
    ensures (exists f :: f in fs && f.section in sections) ==> RenderLines(sections, fs) != []
    decreases |sections|
  {
    if sections != [] {
      var group := Sort(Under(fs, sections[0]));
      forall f | f in group ensures f.entry != [] && ValidFragment(f) { UnderMember(fs, sections[0], f); }
      GroupBlock(sections[0], group);
      RenderBlock(sections[1..], fs);
      JoinBlock(GroupLines(sections[0], group), RenderLines(sections[1..], fs));
      if f :| f in fs && f.section in sections {
        if f.section == sections[0] {
          SortSorts(Under(fs, sections[0]));
          UnderCounts(fs, sections[0], f);
          assert f in multiset(group);
        } else {
          assert f.section in sections[1..];
        }
      }
    }
  }

  lemma RenderedBlock(r: Release)
    requires ValidFragments(r.fragments)
    ensures Block(Rendered(r)) && Rendered(r) != [] && "### " <= Rendered(r)[0]
  {
    RenderBlock(SECTIONS, r.fragments);
    assert r.fragments[0] in r.fragments;
  }

  lemma {:induction false} PlainNoHeading(lines: Lines, open: bool)
    requires forall i :: 0 <= i < |lines| ==> !IsH2(lines[i])
    ensures NoHeading(lines, open)
    decreases |lines|
  {
    if lines != [] { PlainNoHeading(lines[1..], if IsFence(lines[0]) then !open else open); }
  }

  lemma SectionIsSection(r: Release)
    requires ValidFragments(r.fragments)
    ensures IsSection(SectionOf(r)) && SectionOf(r)[1..] == [""] + Rendered(r) &&
            SectionOf(r)[0] == HeadingLine(r.version, r.date)
    ensures forall i :: 0 <= i < |SectionOf(r)| ==> CompareLinks.NoBracket(SectionOf(r)[i])
  {
    RenderedBlock(r);
    var s := SectionOf(r);
    var body := [""] + Rendered(r);
    assert s[1..] == body;
    forall i | 0 <= i < |body| ensures !IsH2(body[i]) && CompareLinks.NoBracket(body[i]) {
      if i > 0 { assert body[i] == Rendered(r)[i - 1]; }
      PlainLine(body[i]);
    }
    PlainNoHeading(body, false);
    assert H2 <= s[0];
    assert forall i :: 1 <= i < |s| ==> s[i] == body[i - 1];
  }

  lemma VersionAppend(a: Lines, b: Lines, version: string)
    ensures CompareLinks.HasVersion(a + b, version) <==>
            CompareLinks.HasVersion(a, version) || CompareLinks.HasVersion(b, version)
  {
    var c := a + b;
    forall i | 0 <= i < |b| ensures c[|a| + i] == b[i] {}
    assert forall i :: 0 <= i < |a| ==> c[i] == a[i];
    assert forall i :: |a| <= i < |c| ==> c[i] == b[i - |a|];
  }

  lemma PlainNoVersion(lines: Lines, version: string)
    requires forall i :: 0 <= i < |lines| ==> CompareLinks.NoBracket(lines[i])
    ensures !CompareLinks.HasVersion(lines, version)
  {
    var prefix := "[" + version + "]:";
    forall i | 0 <= i < |lines| ensures !PrefixNoCase(prefix, lines[i]) {
      assert prefix[0] == '[';
    }
  }

  lemma HeadBodyRest(parts: seq<Lines>, u: nat, head: Lines, body: Lines, rest: Lines)
    requires u < |parts| && parts[u] != []
    requires head == Flat(parts[..u]) + [parts[u][0]] && body == parts[u][1..] && rest == Flat(parts[u + 1..])
    ensures Flat(parts) == head + body + rest
  {
    FlatSplit(parts, u, Flat(parts[..u]), rest);
    assert parts[u] == [parts[u][0]] + body;
  }

  /** The new section holds no version link. */
  lemma NoNewVersion(d: Doc, r: Release)
    requires ValidDoc(d) && d.parts[d.u] != [] && ValidFragments(r.fragments) &&
             !CompareLinks.HasVersion(DocLines(d), r.version)
    ensures !CompareLinks.HasVersion(DocLines(Insert(d, SectionOf(r))), r.version)
  {
    SectionIsSection(r);
    NoVersionAfter(d, SectionOf(r), r.version);
  }

  lemma NoVersionAfter(d: Doc, section: Lines, v: string)
    requires ValidDoc(d) && d.parts[d.u] != [] && !CompareLinks.HasVersion(DocLines(d), v)
    requires forall i :: 0 <= i < |section| ==> CompareLinks.NoBracket(section[i])
    ensures !CompareLinks.HasVersion(DocLines(Insert(d, section)), v)
  {
    var head, body, rest := DocSplits(d, section);
    PlainNoVersion(section, v);
    PlainNoVersion([""], v);
    NoVersionInserted(head, body, section, rest, v);
  }

  lemma NoVersionInserted(head: Lines, body: Lines, section: Lines, rest: Lines, v: string)
    requires !CompareLinks.HasVersion(head + body + rest, v) && !CompareLinks.HasVersion(section, v) &&
             !CompareLinks.HasVersion([""], v)
    ensures !CompareLinks.HasVersion(Inserted(head, body, section, rest), v)
  {
    VersionAppend(head + body, rest, v);
    VersionAppend(head, body, v);
    var kept := DropBlankTail(body);
    assert !CompareLinks.HasVersion(kept, v);
    VersionAppend(head, kept, v);
    VersionAppend(head + kept, [""], v);
    VersionAppend(head + kept + [""], section, v);
    VersionAppend([""], rest, v);
    VersionAppend(head + kept + [""] + section, if rest == [] then [] else [""] + rest, v);
    assert !CompareLinks.HasVersion([], v);
  }

  // ---- [Unreleased] keeps only its note ----

  lemma {:induction false} NoteAppend(a: Lines, b: Lines, open: bool)
    ensures NoteOnly(a + b, open) <==> NoteOnly(a, open) && NoteOnly(b, Open(a, open))
    decreases |a|
  {
    if a == [] {
      assert a + b == b;
    } else {
      assert (a + b)[0] == a[0] && (a + b)[1..] == a[1..] + b;
      NoteAppend(a[1..], b, if IsFence(a[0]) then !open else open);
    }
  }

  /** A line that is no list item, heading or fence. */
  predicate IsNote(line: string) { !IsItem(line) && !IsFence(line) }

  lemma NoteLine(line: string, open: bool)
    requires IsNote(line)
    ensures NoteOnly([line], open) && Open([line], open) == open
  {
    assert [line][1..] == [] && NoteOnly([], open) && Open([], open) == open;
  }

  lemma BracketIsNote(line: string)
    requires !CompareLinks.NoBracket(line)
    ensures IsNote(line)
  {
    assert line[0] == '[' && !IsSpace('[') && SpacesAt(line) == 0 && line[0..] == line;
    assert DigitsAt(line) == 0 && RunAt(line, '#') == 0 && TrimLeft(line) == line;
  }

  lemma EmptyIsNote()
    ensures IsNote("")
  {
    assert SpacesAt("") == 0 && TrimLeft("") == "";
  }

  lemma TrimKeepsNote(part: Lines)
    requires part != [] && NoteOnly(part[1..], false)
    ensures NoteOnly(TrimPart(part)[1..], false)
  {
    var body, kept := part[1..], DropBlankTail(part[1..]);
    assert body == kept + body[|kept|..] && TrimPart(part)[1..] == kept + [""];
    NoteAppend(kept, body[|kept|..], false);
    NoteAppend(kept, [""], false);
    EmptyIsNote();
    NoteLine("", Open(kept, false));
  }

  lemma NoteAround(x: Lines, l: Lines, y: Lines, m: Lines, open: bool)
    requires NoteOnly(x + l + y, open) && Open(l, Open(x, open)) == Open(m, Open(x, open)) && NoteOnly(m, Open(x, open))
    ensures NoteOnly(x + m + y, open)
  {
    NoteAppend(x + l, y, open);
    NoteAppend(x, l, open);
    NoteAppend(x + m, y, open);
    NoteAppend(x, m, open);
    OpenAppend(x, l, open);
    OpenAppend(x, m, open);
  }

  lemma MovedIsNote(line: string, version: string, open: bool)
    requires CompareLinks.ParseLink(line).Some?
    ensures Open([line], open) == open == Open(CompareLinks.MovedLine(line, version), open)
    ensures NoteOnly(CompareLinks.MovedLine(line, version), open)
  {
    if CompareLinks.NoBracket(line) { CompareLinks.NoBracketNoLink(line); }
    var m := CompareLinks.MovedLine(line, version);
    BracketIsNote(line);
    BracketIsNote(m[0]);
    BracketIsNote(m[1]);
    NoteLine(line, open);
    NoteLine(m[0], open);
    NoteLine(m[1], open);
    assert m == [m[0]] + [m[1]];
    NoteAppend([m[0]], [m[1]], open);
    OpenAppend([m[0]], [m[1]], open);
  }

  lemma MoveInKeepsNote(body: Lines, version: string)
    requires HasLink(body) && NoteOnly(body, false)
    ensures NoteOnly(MoveIn(body, version), false)
  {
    var i := CompareLinks.FirstLink(body);
    CompareLinks.FirstLinkFacts(body, i);
    assert body == body[..i] + [body[i]] + body[i + 1..];
    MovedIsNote(body[i], version, Open(body[..i], false));
    NoteAround(body[..i], [body[i]], body[i + 1..], CompareLinks.MovedLine(body[i], version), false);
  }

  lemma UpdateKeepsNote(parts: seq<Lines>, version: string, k: nat)
    requires k < |parts| && IsSection(parts[k]) && NoteOnly(parts[k][1..], false)
    ensures UpdateParts(parts, version)[k] != [] && NoteOnly(UpdateParts(parts, version)[k][1..], false)
  {
    UpdatePartsKeeps(parts, version, k);
    if HasLink(parts[k]) {
      MoveInKeeps(parts[k], version, false);
      LinkInTail(parts[k], version);
      MoveInKeepsNote(parts[k][1..], version);
    }
  }

  lemma InsertKeepsNote(d: Doc, section: Lines, version: string)
    requires ValidDoc(d) && Closed(d.parts[d.u]) && NoteOnly(d.parts[d.u][1..], false)
    ensures var r := UpdateParts(Insert(d, section).parts, version)[d.u]; r != [] && NoteOnly(r[1..], false)
  {
    var ins := Insert(d, section).parts;
    InsertIndex(d.parts, d.u, TrimPart(d.parts[d.u]), Spaced(section, d.u + 1 == |d.parts|), ins);
    PartsAreSections(d);
    TrimPartKeeps(d.parts[d.u]);
    TrimKeepsNote(d.parts[d.u]);
    UpdateKeepsNote(ins, version, d.u);
  }

  /** A changelog whose [Unreleased] section keeps only a note, and leaves no code open. */
  ghost predicate Good(d: Doc) { ValidDoc(d) && Closed(d.parts[d.u]) && NoteOnly(d.parts[d.u][1..], false) }

  /** The script on the lines is the step on the parts, and it leaves a changelog it can take again. */
  lemma StepRefines(d: Doc, r: Release)
    requires Good(d) && Ready(d, r)
    ensures Assemble(DocLines(d), r.version, SectionOf(r)) == Written(DocLines(Step(d, r)))
    ensures Good(Step(d, r))
  {
    StepWrites(d, r);
    SectionIsSection(r);
    InsertValid(d, SectionOf(r));
    UpdateValid(Insert(d, SectionOf(r)), r.version);
    InsertKeepsNote(d, SectionOf(r), r.version);
  }

  lemma StepWrites(d: Doc, r: Release)
    requires Good(d) && Ready(d, r)
    ensures Assemble(DocLines(d), r.version, SectionOf(r)) == Written(DocLines(Step(d, r)))
  {
    NoNewVersion(d, r);
    SectionWrites(d, r.version, SectionOf(r));
  }

  lemma SectionWrites(d: Doc, version: string, section: Lines)
    requires Good(d) && !HasHeading(Flat(d.parts[d.u + 1..]), version)
    requires !CompareLinks.HasVersion(DocLines(Insert(d, section)), version)
    ensures Assemble(DocLines(d), version, section) == Written(Flat(UpdateParts(Insert(d, section).parts, version)))
  {
    SplitDoc(d);
    InsertedIsDoc(d, section);
    UpdateFlat(Insert(d, section).parts, version);
    var head, rest := Flat(d.parts[..d.u]) + [d.parts[d.u][0]], Flat(d.parts[d.u + 1..]);
    AssembleWrites(DocLines(d), version, section, head, d.parts[d.u][1..], rest, DocLines(Insert(d, section)));
  }

  lemma AssembleWrites(lines: Lines, version: string, section: Lines, head: Lines, body: Lines, rest: Lines,
                       inserted: Lines)
    requires Split(lines) == Some((head, body, rest)) && NoteOnly(body, false) && !HasHeading(rest, version)
    requires Inserted(head, body, section, rest) == inserted
    ensures Assemble(lines, version, section) == Written(CompareLinks.UpdateLinks(inserted, version))
  {
  }

  // ---- Its notes ----

  lemma NotesOfScan(lines: Lines, p: string -> bool, start: nat, end: nat)
    requires start < end <= |lines| && Scan(lines, 0, false, None, p) == Some((start, end))
    ensures NotesBy(lines, p) == NotesIn(lines, Some((start, end)))
  {
  }

  lemma FoundIn(lines: Lines, start: nat, end: nat, raw: Lines, body: Lines)
    requires start < end <= |lines| && lines[start + 1..end] == raw && StripEmpty(raw) == body && !AllBlank(body)
    ensures NotesIn(lines, Some((start, end))) == Found(body)
  {
  }

  lemma StripBlock(block: Lines)
    requires Block(block) && block != []
    ensures StripEmpty([""] + block) == block && StripEmpty([""] + block + [""]) == block
  {
    var a, b := [""] + block, [""] + block + [""];
    assert a[1..] == block && DropEmptyHead(block) == block;
    assert b[1..] == block + [""] && (block + [""])[0] == block[0];
    assert DropEmptyHead(block + [""]) == block + [""];
    assert (block + [""])[..|block|] == block;
  }

  lemma RenderedNotBlank(r: Release)
    requires ValidFragments(r.fragments)
    ensures Rendered(r) != [] && !AllBlank(Rendered(r))
  {
    RenderedBlock(r);
    HashNotBlank(Rendered(r));
  }

  lemma HashNotBlank(lines: Lines)
    requires lines != [] && "### " <= lines[0]
    ensures !AllBlank(lines)
  {
    assert lines[0][0] == '#' && !IsSpace('#');
  }

  /** A version's own heading is one of that version, and of no other. */
  lemma OwnHeading(version: string, date: string, name: string)
    requires GoodVersion(version)
    ensures IsHeadingOf(HeadingLine(version, date), name) <==> SameNoCase(version, name)
  {
    var line := HeadingLine(version, date);
    var n := 4 + |version|;
    assert line[4..n] == version && line[n] == ']';
    assert line[n..n + 1] == "]" && OccursAt(line, "]", n);
    var j := Find(line, "]", 4);
    assert forall m :: 4 <= m < n ==> line[m] == line[4..n][m - 4];
    assert line[j..j + 1][0] == line[j];
    assert TrimLeft(version) == version && Strip(version) == version;
  }

  /** Section `k`, below [Unreleased], is the first that `p` asks for, and its notes are `body`. */
  ghost predicate SectionAt(d: Doc, k: nat, p: string -> bool, body: Lines) {
    && d.u < k < |d.parts| && (forall i :: 1 <= i < |d.parts| ==> d.parts[i] != []) && First(d.parts[1..], p) == k - 1
    && StripEmpty(d.parts[k][1..]) == body && !HasLink(d.parts[k]) && !AllBlank(body)
  }

  lemma BodyAt(lines: Lines, parts: seq<Lines>, k: nat, at: nat, part: Lines)
    requires lines == Flat(parts) && k < |parts| && at == |Flat(parts[..k])| && part == parts[k] && part != []
    ensures at + |part| <= |lines| && lines[at + 1..at + |part|] == part[1..]
  {
    FlatBounds(lines, parts, k, at, part);
    SliceAt(lines, at, part);
  }

  /** Where the pass finds the first section asked for. */
  lemma SectionBounds(d: Doc, k: nat, p: string -> bool) returns (start: nat, end: nat)
    requires ValidDoc(d) && 1 <= k < |d.parts| && d.parts[k] != [] && First(d.parts[1..], p) == k - 1
    ensures Scan(DocLines(d), 0, false, None, p) == Some((start, end))
    ensures start < end <= |DocLines(d)| && DocLines(d)[start + 1..end] == d.parts[k][1..]
  {
    start := |Flat(d.parts[..k])|;
    end := start + |d.parts[k]|;
    TakeRest(d.parts, d.parts[0], d.parts[1..], k);
    ScanPart(DocLines(d), d.parts[0], d.parts[1..], k - 1, p, start);
    BodyAt(DocLines(d), d.parts, k, start, d.parts[k]);
  }

  lemma NotesFound(lines: Lines, start: nat, end: nat, raw: Lines, p: string -> bool, body: Lines)
    requires start < end <= |lines| && Scan(lines, 0, false, None, p) == Some((start, end)) &&
             lines[start + 1..end] == raw
    requires StripEmpty(raw) == body && !AllBlank(body)
    ensures NotesBy(lines, p) == Found(body)
  {
    NotesOfScan(lines, p, start, end);
    FoundIn(lines, start, end, raw, body);
  }

  /** Extracting finds that section. */
  lemma SectionNotes(d: Doc, k: nat, p: string -> bool, body: Lines)
    requires ValidDoc(d) && SectionAt(d, k, p, body)
    ensures NotesBy(DocLines(d), p) == Found(body)
  {
    var start, end := SectionBounds(d, k, p);
    NotesFound(DocLines(d), start, end, d.parts[k][1..], p, body);
  }

  lemma {:induction false} PlainNoLink(lines: Lines)
    requires forall i :: 0 <= i < |lines| ==> CompareLinks.NoBracket(lines[i])
    ensures !HasLink(lines)
    decreases |lines|
  {
    if lines != [] {
      CompareLinks.NoBracketNoLink(lines[0]);
      PlainNoLink(lines[1..]);
    }
  }

  /** From `a` to `b`, section `added` appears below section `u`; headings stay, and so do the link-free parts below. */
  ghost predicate Grown(a: seq<Lines>, u: nat, b: seq<Lines>, added: Lines) {
    && u < |a| && |b| == |a| + 1 && b[u + 1] == added && added != []
    && (forall i :: 1 <= i <= u ==> b[i] != [] && a[i] != [] && b[i][0] == a[i][0])
    && (forall j :: u + 1 < j < |b| ==>
       b[j] != [] && a[j - 1] != [] && b[j][0] == a[j - 1][0] && (!HasLink(a[j - 1]) ==> b[j] == a[j - 1]))
  }

  lemma InsertIndex(a: seq<Lines>, u: nat, x: Lines, y: Lines, ins: seq<Lines>)
    requires u < |a| && ins == a[..u] + [x, y] + a[u + 1..]
    ensures |ins| == |a| + 1 && ins[u] == x && ins[u + 1] == y
    ensures (forall i :: 0 <= i < u ==> ins[i] == a[i]) && forall j :: u + 1 < j < |ins| ==> ins[j] == a[j - 1]
  {
  }

  lemma UpdatedGrown(a: seq<Lines>, u: nat, x: Lines, y: Lines, ins: seq<Lines>, version: string)
    requires 1 <= u < |a| && ins == a[..u] + [x, y] + a[u + 1..] && forall i :: 1 <= i < |a| ==> IsSection(a[i])
    requires IsSection(x) && a[u] != [] && x[0] == a[u][0] && y != [] && !HasLink(y)
    ensures Grown(a, u, UpdateParts(ins, version), y)
  {
    InsertIndex(a, u, x, y, ins);
    var b := UpdateParts(ins, version);
    UpdatePartsKeeps(ins, version, u + 1);
    forall i | 1 <= i <= u ensures b[i] != [] && b[i][0] == a[i][0] {
      UpdatePartsKeeps(ins, version, i);
    }
    forall j | u + 1 < j < |b|
      ensures b[j] != [] && b[j][0] == a[j - 1][0] && (!HasLink(a[j - 1]) ==> b[j] == a[j - 1])
    {
      UpdatePartsKeeps(ins, version, j);
    }
  }

  function NewPart(d: Doc, r: Release): Lines
    requires forall f :: f in r.fragments ==> f.entry != []
  {
    Spaced(SectionOf(r), d.u + 1 == |d.parts|)
  }

  lemma SpacedParts(section: Lines, last: bool)
    requires section != [] && forall i :: 0 <= i < |section| ==> CompareLinks.NoBracket(section[i])
    ensures Spaced(section, last)[0] == section[0] &&
            Spaced(section, last)[1..] == (if last then section[1..] else section[1..] + [""])
    ensures !HasLink(Spaced(section, last))
  {
    PlainNoLink(Spaced(section, last));
  }

  lemma NewPartPlain(d: Doc, r: Release)
    requires ValidFragments(r.fragments)
    ensures NewPart(d, r) != [] && NewPart(d, r)[0] == HeadingLine(r.version, r.date) && !HasLink(NewPart(d, r))
    ensures NewPart(d, r)[1..] == if d.u + 1 == |d.parts| then [""] + Rendered(r) else [""] + Rendered(r) + [""]
  {
    SectionIsSection(r);
    SpacedParts(SectionOf(r), d.u + 1 == |d.parts|);
  }

  lemma GrownBy(d: Doc, section: Lines, version: string)
    requires ValidDoc(d) && Closed(d.parts[d.u]) && section != [] &&
             forall i :: 0 <= i < |section| ==> CompareLinks.NoBracket(section[i])
    ensures Grown(d.parts, d.u, UpdateParts(Insert(d, section).parts, version), Spaced(section, d.u + 1 == |d.parts|))
  {
    PartsAreSections(d);
    SpacedParts(section, d.u + 1 == |d.parts|);
    GrownParts(d.parts, d.u, Spaced(section, d.u + 1 == |d.parts|), version);
  }

  lemma GrownParts(parts: seq<Lines>, u: nat, added: Lines, version: string)
    requires 1 <= u < |parts| && (forall i :: 1 <= i < |parts| ==> IsSection(parts[i])) && Closed(parts[u])
    requires added != [] && !HasLink(added)
    ensures Grown(parts, u, UpdateParts(parts[..u] + [TrimPart(parts[u]), added] + parts[u + 1..], version), added)
  {
    TrimPartKeeps(parts[u]);
    UpdatedGrown(parts, u, TrimPart(parts[u]), added, parts[..u] + [TrimPart(parts[u]), added] + parts[u + 1..],
                 version);
  }

  /** Where the parts of a changelog stand after a release. */
  lemma StepGrown(d: Doc, r: Release)
    requires ValidDoc(d) && d.parts[d.u] != [] && Closed(d.parts[d.u]) && ValidFragments(r.fragments)
    ensures Grown(d.parts, d.u, Step(d, r).parts, NewPart(d, r))
  {
    SectionIsSection(r);
    GrownBy(d, SectionOf(r), r.version);
  }

  lemma GrownFirst(a: seq<Lines>, u: nat, b: seq<Lines>, added: Lines, p: string -> bool)
    requires 1 <= u && Grown(a, u, b, added) && p(added[0]) && forall i :: 1 <= i <= u ==> !p(a[i][0])
    ensures (forall i :: 1 <= i < |b| ==> b[i] != []) && First(b[1..], p) == u
  {
    var t := b[1..];
    assert forall i :: 0 <= i < |t| ==> t[i] == b[i + 1];
    FirstIs(t, p, u);
  }

  lemma GrownKeeps(a: seq<Lines>, u: nat, b: seq<Lines>, added: Lines, p: string -> bool, k: nat)
    requires 1 <= u < k < |a| && Grown(a, u, b, added) && !p(added[0])
    requires (forall i :: 1 <= i < |a| ==> a[i] != []) && First(a[1..], p) == k - 1
    ensures (forall i :: 1 <= i < |b| ==> b[i] != []) && First(b[1..], p) == k
  {
    var s, t := a[1..], b[1..];
    assert forall i :: 0 <= i < |s| ==> s[i] == a[i + 1];
    assert forall i :: 0 <= i < |t| ==> t[i] == b[i + 1];
    forall i | 0 <= i < k ensures !p(t[i][0]) {
      if i < u { assert t[i][0] == a[i + 1][0] == s[i][0]; } else if i > u { assert t[i][0] == a[i][0] == s[i - 1][0]; }
    }
    assert t[k][0] == a[k][0] == s[k - 1][0];
    FirstIs(t, p, k);
  }

  lemma SectionAdded(a: Doc, b: Doc, added: Lines, p: string -> bool, body: Lines)
    requires 1 <= a.u == b.u && Grown(a.parts, a.u, b.parts, added) && p(added[0]) &&
             forall i :: 1 <= i <= a.u ==> !p(a.parts[i][0])
    requires StripEmpty(added[1..]) == body && !HasLink(added) && !AllBlank(body)
    ensures SectionAt(b, a.u + 1, p, body)
  {
    GrownFirst(a.parts, a.u, b.parts, added, p);
  }

  lemma NewPartNotes(d: Doc, r: Release)
    requires ValidFragments(r.fragments)
    ensures NewPart(d, r) != [] && StripEmpty(NewPart(d, r)[1..]) == Rendered(r) && !HasLink(NewPart(d, r)) &&
            !AllBlank(Rendered(r))
  {
    NewPartPlain(d, r);
    RenderedBlock(r);
    RenderedNotBlank(r);
    StripBlock(Rendered(r));
  }

  lemma NoneAsked(d: Doc, version: string, p: string -> bool)
    requires ValidDoc(d) && p == HeadingOf(version)
    requires NoHeadingOf(d.parts, version)
    ensures forall i :: 1 <= i < |d.parts| ==> d.parts[i] != [] && !p(d.parts[i][0])
  {
    PartsAreSections(d);
  }

  /** A release's section is the first of its version, and its notes are exactly what was rendered for it. */
  lemma StepAdds(d: Doc, r: Release, p: string -> bool)
    requires ValidDoc(d) && d.parts[d.u] != [] && Closed(d.parts[d.u]) && Ready(d, r) && p == HeadingOf(r.version)
    ensures SectionAt(Step(d, r), d.u + 1, p, Rendered(r))
  {
    StepGrown(d, r);
    NewPartPlain(d, r);
    NewPartNotes(d, r);
    NoneAsked(d, r.version, p);
    OwnHeading(r.version, r.date, r.version);
    SameNoCaseSelf(r.version);
    SectionAdded(d, Step(d, r), NewPart(d, r), p, Rendered(r));
  }

  lemma SectionMoves(a: Doc, b: Doc, added: Lines, k: nat, p: string -> bool, body: Lines)
    requires 1 <= a.u == b.u && SectionAt(a, k, p, body) && Grown(a.parts, a.u, b.parts, added) && !p(added[0])
    ensures SectionAt(b, k + 1, p, body)
  {
    GrownKeeps(a.parts, a.u, b.parts, added, p, k);
    assert b.parts[k + 1] == a.parts[k];
  }

  /** And another release keeps it. */
  lemma StepKeeps(d: Doc, r: Release, k: nat, p: string -> bool, body: Lines)
    requires ValidDoc(d) && d.parts[d.u] != [] && Closed(d.parts[d.u]) && ValidFragments(r.fragments)
    requires SectionAt(d, k, p, body) && !p(HeadingLine(r.version, r.date))
    ensures SectionAt(Step(d, r), k + 1, p, body)
  {
    StepGrown(d, r);
    NewPartPlain(d, r);
    SectionMoves(d, Step(d, r), NewPart(d, r), k, p, body);
  }
}
