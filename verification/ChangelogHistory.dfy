/** Any number of releases, one after another, and what all of them keep. */
module ChangelogHistory {
  import opened Search
  import opened Texts
  import opened ChangelogSections
  import opened ChangelogEntries
  import opened Changelog
  import opened ChangelogRuns
  import opened ChangelogFresh
  import CompareLinks
  import LinkChains

  // ---- Any number of releases ----

  /** Releases of versions that are new to the changelog and differ from each other. */
  ghost predicate AllReady(d: Doc, runs: seq<Release>)
    requires d.u < |d.parts|
  {
    (forall k {:trigger Ready(d, runs[k])} :: 0 <= k < |runs| ==> Ready(d, runs[k])) && DistinctVersions(runs)
  }

  ghost predicate DistinctVersions(runs: seq<Release>) {
    forall i, j {:trigger SameNoCase(runs[i].version, runs[j].version)} :: 0 <= i < j < |runs| ==>
      !SameNoCase(runs[i].version, runs[j].version)
  }

  // ---- Every run ----

  predicate Renderable(runs: seq<Release>) { forall r, f :: r in runs && f in r.fragments ==> f.entry != [] }

  /** The script, run once for each release. */
  function AssembleAll(lines: Lines, runs: seq<Release>): Assembled
    requires Renderable(runs)
    decreases |runs|
  {
    if runs == [] then Written(lines)
    else match Assemble(lines, runs[0].version, SectionOf(runs[0]))
      case Written(next) => AssembleAll(next, runs[1..])
      case refused => refused
  }

  lemma NextReady(d: Doc, runs: seq<Release>)
    requires Good(d) && AllReady(d, runs) && runs != []
    ensures Ready(d, runs[0]) && Good(Step(d, runs[0])) && AllReady(Step(d, runs[0]), runs[1..])
  {
    assert Ready(d, runs[0]);
    StepRefines(d, runs[0]);
    var rest := runs[1..];
    forall k | 0 <= k < |rest| ensures Ready(Step(d, runs[0]), rest[k]) {
      assert Ready(d, runs[k + 1]) && !SameNoCase(runs[0].version, runs[k + 1].version);
      ReadyAgain(d, runs[0], runs[k + 1]);
    }
    forall i, j | 0 <= i < j < |rest| ensures !SameNoCase(rest[i].version, rest[j].version) {
      assert !SameNoCase(runs[i + 1].version, runs[j + 1].version);
    }
  }

  ghost predicate GoodAt(docs: seq<Doc>, k: nat)
    requires k < |docs|
  {
    Good(docs[k])
  }

  /** Run `k` leads from one changelog to the next. */
  ghost predicate StepAt(docs: seq<Doc>, runs: seq<Release>, k: nat)
    requires k < |runs| < |docs|
  {
    Good(docs[k]) && Ready(docs[k], runs[k]) && docs[k + 1] == Step(docs[k], runs[k])
  }

  /** The changelog before each run, and after the last. */
  ghost predicate Traced(docs: seq<Doc>, runs: seq<Release>) {
    && |docs| == |runs| + 1 && (forall k {:trigger GoodAt(docs, k)} :: 0 <= k < |docs| ==> GoodAt(docs, k))
    && (forall k {:trigger StepAt(docs, runs, k)} :: 0 <= k < |runs| ==> StepAt(docs, runs, k))
  }

  lemma TracedCons(all: seq<Doc>, docs: seq<Doc>, runs: seq<Release>, rest: seq<Release>)
    requires runs != [] && rest == runs[1..] && Traced(docs, rest) && |all| == |docs| + 1 && docs == all[1..]
    requires GoodAt(all, 0) && StepAt(all, runs, 0)
    ensures Traced(all, runs)
  {
    forall k | 0 < k < |all| ensures GoodAt(all, k) { GoodShifts(all, docs, k); }
    forall k | 0 < k < |runs| ensures StepAt(all, runs, k) { StepShifts(all, docs, runs, rest, k); }
  }

  lemma GoodShifts(all: seq<Doc>, docs: seq<Doc>, k: nat)
    requires 0 < k < |all| && docs == all[1..] && GoodAt(docs, k - 1)
    ensures GoodAt(all, k)
  {
    assert all[k] == docs[k - 1];
  }

  lemma StepShifts(all: seq<Doc>, docs: seq<Doc>, runs: seq<Release>, rest: seq<Release>, k: nat)
    requires 0 < k < |runs| < |all| && docs == all[1..] && rest == runs[1..] && StepAt(docs, rest, k - 1)
    ensures StepAt(all, runs, k)
  {
    assert rest[k - 1] == runs[k] && all[k] == docs[k - 1] && all[k + 1] == docs[k];
  }

  /** Everything the runs ask of the changelog they start from. */
  ghost predicate Starts(d: Doc, runs: seq<Release>) { Good(d) && AllReady(d, runs) }

  lemma FirstStep(d: Doc, runs: seq<Release>, rest: seq<Release>) returns (next: Doc)
    requires Starts(d, runs) && runs != [] && rest == runs[1..]
    ensures Starts(next, rest) && Ready(d, runs[0]) && next == Step(d, runs[0])
  {
    NextReady(d, runs);
    next := Step(d, runs[0]);
  }

  lemma FirstOf(docs: seq<Doc>, d: Doc, next: Doc, runs: seq<Release>)
    requires Good(d) && runs != [] && Ready(d, runs[0]) && |docs| > |runs|
    requires docs[0] == d && docs[1] == next && next == Step(d, runs[0])
    ensures GoodAt(docs, 0) && StepAt(docs, runs, 0)
  {
  }

  lemma TraceMore(d: Doc, next: Doc, later: seq<Doc>, runs: seq<Release>, rest: seq<Release>) returns (docs: seq<Doc>)
    requires Good(d) && runs != [] && Ready(d, runs[0]) && rest == runs[1..] && next == Step(d, runs[0])
    requires Traced(later, rest) && later[0] == next
    ensures Traced(docs, runs) && docs[0] == d
  {
    docs := [d] + later;
    assert docs[1] == later[0] && docs[1..] == later;
    FirstOf(docs, d, next, runs);
    TracedCons(docs, later, runs, rest);
  }

  lemma TraceNone(d: Doc, runs: seq<Release>) returns (docs: seq<Doc>)
    requires Good(d) && runs == []
    ensures Traced(docs, runs) && docs[0] == d
  {
    docs := [d];
    assert GoodAt(docs, 0);
  }

  /** The changelogs that the runs lead through. */
  lemma {:induction false} Trace(d: Doc, runs: seq<Release>) returns (docs: seq<Doc>)
    requires Starts(d, runs)
    ensures Traced(docs, runs) && docs[0] == d
    decreases |runs|
  {
    if runs == [] {
      docs := TraceNone(d, runs);
    } else {
      var next := FirstStep(d, runs, runs[1..]);
      var later := Trace(next, runs[1..]);
      docs := TraceMore(d, next, later, runs, runs[1..]);
    }
  }

  lemma AssembleNext(lines: Lines, next: Lines, runs: seq<Release>, i: nat)
    requires Renderable(runs) && i < |runs| && Assemble(lines, runs[i].version, SectionOf(runs[i])) == Written(next)
    ensures Renderable(runs[i..]) && Renderable(runs[i + 1..]) &&
            AssembleAll(lines, runs[i..]) == AssembleAll(next, runs[i + 1..])
  {
    assert runs[i..][0] == runs[i] && runs[i..][1..] == runs[i + 1..];
  }

  /** Every run is accepted, and writes the text of the next changelog. */
  lemma {:induction false} TracedAssembles(docs: seq<Doc>, runs: seq<Release>, i: nat)
    requires Traced(docs, runs) && Renderable(runs) && i <= |runs|
    ensures Renderable(runs[i..]) && AssembleAll(DocLines(docs[i]), runs[i..]) == Written(DocLines(docs[|runs|]))
    decreases |runs| - i
  {
    if i < |runs| {
      RunWrites(docs, runs, i);
      AssembleNext(DocLines(docs[i]), DocLines(docs[i + 1]), runs, i);
      TracedAssembles(docs, runs, i + 1);
    }
  }

  lemma RunWrites(docs: seq<Doc>, runs: seq<Release>, i: nat)
    requires Traced(docs, runs) && Renderable(runs) && i < |runs|
    ensures Assemble(DocLines(docs[i]), runs[i].version, SectionOf(runs[i])) == Written(DocLines(docs[i + 1]))
  {
    assert StepAt(docs, runs, i);
    StepRefines(docs[i], runs[i]);
  }

  // ---- Notes ----

  /** No run from `i` on adds a heading that `p` asks for. */
  ghost predicate Unasked(runs: seq<Release>, i: nat, p: string -> bool) {
    forall k {:trigger runs[k]} :: i <= k < |runs| ==> !p(HeadingLine(runs[k].version, runs[k].date))
  }

  /** A section is still there, with its body, after runs that add none of its name. */
  lemma {:induction false} AllKeep(docs: seq<Doc>, runs: seq<Release>, i: nat, at: nat, p: string -> bool, body: Lines)
      returns (end: nat)
    requires Traced(docs, runs) && i <= |runs| && Unasked(runs, i, p) && SectionAt(docs[i], at, p, body)
    ensures SectionAt(docs[|runs|], end, p, body)
    decreases |runs| - i
  {
    if i == |runs| {
      end := at;
    } else {
      KeepNext(docs, runs, i, at, p, body);
      end := AllKeep(docs, runs, i + 1, at + 1, p, body);
    }
  }

  lemma KeepNext(docs: seq<Doc>, runs: seq<Release>, i: nat, at: nat, p: string -> bool, body: Lines)
    requires Traced(docs, runs) && i < |runs| && Unasked(runs, i, p) && SectionAt(docs[i], at, p, body)
    ensures SectionAt(docs[i + 1], at + 1, p, body)
  {
    assert StepAt(docs, runs, i);
    StepKeeps(docs[i], runs[i], at, p, body);
  }

  lemma OthersUnasked(docs: seq<Doc>, runs: seq<Release>, k: nat, p: string -> bool)
    requires Traced(docs, runs) && DistinctVersions(runs) && k < |runs| && p == HeadingOf(runs[k].version)
    ensures Unasked(runs, k + 1, p)
  {
    forall i | k + 1 <= i < |runs| ensures !p(HeadingLine(runs[i].version, runs[i].date)) {
      var r := runs[i];
      assert StepAt(docs, runs, i) && !SameNoCase(runs[k].version, r.version);
      OwnHeading(r.version, r.date, runs[k].version);
      if SameNoCase(r.version, runs[k].version) { SameNoCaseTrans(r.version, runs[k].version, r.version); }
    }
  }

  lemma ReleaseStands(docs: seq<Doc>, runs: seq<Release>, k: nat, p: string -> bool) returns (end: nat, body: Lines)
    requires Traced(docs, runs) && DistinctVersions(runs) && k < |runs| && p == HeadingOf(runs[k].version)
    ensures ValidFragments(runs[k].fragments) && body == Rendered(runs[k]) && SectionAt(docs[|runs|], end, p, body)
  {
    var at;
    at, body := ReleaseAdded(docs, runs, k, p);
    OthersUnasked(docs, runs, k, p);
    end := AllKeep(docs, runs, k + 1, at, p, body);
  }

  lemma ReleaseAdded(docs: seq<Doc>, runs: seq<Release>, k: nat, p: string -> bool) returns (at: nat, body: Lines)
    requires Traced(docs, runs) && k < |runs| && p == HeadingOf(runs[k].version)
    ensures ValidFragments(runs[k].fragments) && body == Rendered(runs[k]) && SectionAt(docs[k + 1], at, p, body)
  {
    assert StepAt(docs, runs, k);
    StepAdds(docs[k], runs[k], p);
    at, body := docs[k].u + 1, Rendered(runs[k]);
  }

  /** What release `k` rendered are its notes in the text after all of them. */
  lemma NotesOfRelease(docs: seq<Doc>, runs: seq<Release>, k: nat, p: string -> bool)
    requires Traced(docs, runs) && DistinctVersions(runs) && k < |runs| && p == HeadingOf(runs[k].version)
    ensures ValidFragments(runs[k].fragments) && NotesBy(DocLines(docs[|runs|]), p) == Found(Rendered(runs[k]))
  {
    var end, body := ReleaseStands(docs, runs, k, p);
    assert GoodAt(docs, |runs|);
    SectionNotes(docs[|runs|], end, p, body);
  }

  // ---- Earlier parts survive ----

  function Versions(runs: seq<Release>): (r: seq<string>)
    ensures |r| == |runs| && forall k {:trigger r[k]} :: 0 <= k < |runs| ==> r[k] == runs[k].version
  {
    seq(|runs|, k requires 0 <= k < |runs| => runs[k].version)
  }

  /** A compare link, or one of these versions' own link lines. */
  predicate IsLinkLine(line: string, versions: seq<string>) {
    CompareLinks.ParseLink(line).Some? || exists v :: v in versions && PrefixNoCase(LinkPrefix(v), line)
  }

  /** The lines without links. */
  function TextOf(lines: Lines, versions: seq<string>): Lines {
    if lines == [] then []
    else (if IsLinkLine(lines[0], versions) then [] else [lines[0]]) + TextOf(lines[1..], versions)
  }

  lemma {:induction false} TextAppend(a: Lines, b: Lines, versions: seq<string>)
    ensures TextOf(a + b, versions) == TextOf(a, versions) + TextOf(b, versions)
    decreases |a|
  {
    if a == [] {
      assert a + b == b;
    } else {
      assert (a + b)[0] == a[0] && (a + b)[1..] == a[1..] + b;
      TextAppend(a[1..], b, versions);
    }
  }

  lemma TextAround(x: Lines, l: Lines, y: Lines, versions: seq<string>)
    requires TextOf(l, versions) == []
    ensures TextOf(x + l + y, versions) == TextOf(x, versions) + TextOf(y, versions)
  {
    TextAppend(x + l, y, versions);
    TextAppend(x, l, versions);
  }

  lemma OneLineText(line: string, versions: seq<string>)
    requires IsLinkLine(line, versions)
    ensures TextOf([line], versions) == []
  {
    assert [line][1..] == [];
  }

  lemma VersionLineIsLink(version: string, base: string, prev: string, tag: string, versions: seq<string>)
    requires version in versions
    ensures IsLinkLine(CompareLinks.VersionLine(version, base, prev, tag), versions)
  {
    var line := CompareLinks.VersionLine(version, base, prev, tag);
    assert LinkPrefix(version) == line[..|LinkPrefix(version)|];
    PrefixIff(LinkPrefix(version), line);
  }

  /** A link, and what stands for it after a release, are no text. */
  lemma MovedNoText(line: string, version: string, versions: seq<string>)
    requires CompareLinks.ParseLink(line).Some? && version in versions && CompareLinks.GoodTag(version)
    ensures TextOf([line], versions) == [] && TextOf(CompareLinks.MovedLine(line, version), versions) == []
  {
    var link, m := CompareLinks.ParseLink(line).value, CompareLinks.MovedLine(line, version);
    var tag := CompareLinks.Tag(link.prev, version);
    CompareLinks.ParsedEnds(line);
    LinkChains.TagIsGood(link.prev, version);
    CompareLinks.ReadLine(link.base, tag, link.head, tag + CompareLinks.DOTS + link.head);
    VersionLineIsLink(version, link.base, link.prev, tag, versions);
    OneLineText(line, versions);
    OneLineText(m[0], versions);
    OneLineText(m[1], versions);
    assert m == [m[0]] + [m[1]];
    TextAppend([m[0]], [m[1]], versions);
  }

  lemma ReplaceText(part: Lines, i: nat, lines: Lines, versions: seq<string>)
    requires i < |part| && TextOf([part[i]], versions) == [] && TextOf(lines, versions) == []
    ensures TextOf(Replace(part, i, lines), versions) == TextOf(part, versions)
  {
    TextAround(part[..i], [part[i]], part[i + 1..], versions);
    TextAround(part[..i], lines, part[i + 1..], versions);
    assert part == part[..i] + [part[i]] + part[i + 1..];
  }

  lemma MoveInText(part: Lines, version: string, versions: seq<string>)
    requires HasLink(part) && version in versions && CompareLinks.GoodTag(version)
    ensures TextOf(MoveIn(part, version), versions) == TextOf(part, versions)
  {
    var i := CompareLinks.FirstLink(part);
    CompareLinks.FirstLinkFacts(part, i);
    MovedNoText(part[i], version, versions);
    ReplaceText(part, i, CompareLinks.MovedLine(part[i], version), versions);
  }

  lemma UpdatedText(parts: seq<Lines>, version: string, versions: seq<string>, k: nat)
    requires k < |parts| && version in versions && CompareLinks.GoodTag(version)
    ensures TextOf(UpdateParts(parts, version)[k], versions) == TextOf(parts[k], versions)
  {
    UpdatedPart(parts, version, k);
    if HasLink(parts[k]) { MoveInText(parts[k], version, versions); }
  }

  lemma BlankIsText(line: string, versions: seq<string>)
    requires IsBlank(line)
    ensures !IsLinkLine(line, versions) && CompareLinks.NoBracket(line)
  {
    CompareLinks.NoBracketNoLink(line);
    forall v | v in versions ensures !PrefixNoCase(LinkPrefix(v), line) { OtherStart(LinkPrefix(v), line, 0); }
  }

  lemma {:induction false} BlanksAreText(lines: Lines, versions: seq<string>)
    requires forall i :: 0 <= i < |lines| ==> IsBlank(lines[i])
    ensures TextOf(lines, versions) == lines
    decreases |lines|
  {
    if lines != [] {
      BlankIsText(lines[0], versions);
      BlanksAreText(lines[1..], versions);
      assert lines == [lines[0]] + lines[1..];
    }
  }

  lemma {:induction false} DropsBlanks(a: Lines, b: Lines)
    requires forall i :: 0 <= i < |b| ==> IsBlank(b[i])
    ensures DropBlankTail(a + b) == DropBlankTail(a)
    decreases |b|
  {
    if b == [] {
      assert a + b == a;
    } else {
      assert (a + b)[..|a + b| - 1] == a + b[..|b| - 1];
      DropsBlanks(a, b[..|b| - 1]);
    }
  }

  lemma TextBeforeBlanks(top: Lines, gap: Lines, versions: seq<string>)
    requires forall i :: 0 <= i < |gap| ==> IsBlank(gap[i])
    ensures DropBlankTail(TextOf(top + gap, versions)) == DropBlankTail(TextOf(top, versions))
  {
    TextAppend(top, gap, versions);
    BlanksAreText(gap, versions);
    DropsBlanks(TextOf(top, versions), gap);
  }

  /** Trimming a part leaves its text, up to the blank lines that end it. */
  lemma TrimText(part: Lines, versions: seq<string>)
    requires part != []
    ensures DropBlankTail(TextOf(TrimPart(part), versions)) == DropBlankTail(TextOf(part, versions))
  {
    var kept := DropBlankTail(part[1..]);
    var top, gap := [part[0]] + kept, part[1 + |kept|..];
    assert part == top + gap && TrimPart(part) == top + [""];
    forall i | 0 <= i < |gap| ensures IsBlank(gap[i]) { assert gap[i] == part[1..][|kept| + i]; }
    assert TrimLeft("") == "";
    TextBeforeBlanks(top, gap, versions);
    TextBeforeBlanks(top, [""], versions);
  }

  /** Where a part stands after `n` releases. */
  function Moves(u: nat, k: nat, n: nat): nat { if k <= u then k else k + n }

  /** Equal texts; when `loose`, the blank lines that end them may differ. */
  predicate SameText(a: Lines, b: Lines, loose: bool) { DropBlankTail(a) == DropBlankTail(b) && (!loose ==> a == b) }

  /** All parts of `a` are in `b`, below `n` new ones for those after [Unreleased]. */
  ghost predicate Survives(a: seq<Lines>, u: nat, n: nat, b: seq<Lines>, versions: seq<string>) {
    && |b| == |a| + n
    && forall k {:trigger Moves(u, k, n)} :: 0 <= k < |a| ==>
         SameText(TextOf(a[k], versions), TextOf(b[Moves(u, k, n)], versions), k == u)
  }

  lemma TextSurvives(a: seq<Lines>, u: nat, x: Lines, ins: seq<Lines>, b: seq<Lines>, versions: seq<string>)
    requires u < |a| && |ins| == |b| == |a| + 1 && ins[u] == x
    requires DropBlankTail(TextOf(x, versions)) == DropBlankTail(TextOf(a[u], versions))
    requires (forall k :: 0 <= k < u ==> ins[k] == a[k]) && forall j :: u + 1 < j < |ins| ==> ins[j] == a[j - 1]
    requires forall j {:trigger b[j]} :: 0 <= j < |b| ==> TextOf(b[j], versions) == TextOf(ins[j], versions)
    ensures Survives(a, u, 1, b, versions)
  {
    forall k | 0 <= k < |a| ensures SameText(TextOf(a[k], versions), TextOf(b[Moves(u, k, 1)], versions), k == u) {
      var j := Moves(u, k, 1);
      SameTextThrough(TextOf(a[k], versions), TextOf(ins[j], versions), TextOf(b[j], versions), k == u);
    }
  }

  lemma SameTextThrough(a: Lines, b: Lines, c: Lines, loose: bool)
    requires c == b && if loose then DropBlankTail(b) == DropBlankTail(a) else b == a
    ensures SameText(a, c, loose)
  {
  }

  lemma InsertSurvives(a: seq<Lines>, u: nat, x: Lines, y: Lines, ins: seq<Lines>, version: string,
                       versions: seq<string>)
    requires u < |a| && ins == a[..u] + [x, y] + a[u + 1..] && version in versions && CompareLinks.GoodTag(version)
    requires DropBlankTail(TextOf(x, versions)) == DropBlankTail(TextOf(a[u], versions))
    ensures Survives(a, u, 1, UpdateParts(ins, version), versions)
  {
    InsertIndex(a, u, x, y, ins);
    forall j | 0 <= j < |ins| ensures TextOf(UpdateParts(ins, version)[j], versions) == TextOf(ins[j], versions) {
      UpdatedText(ins, version, versions, j);
    }
    TextSurvives(a, u, x, ins, UpdateParts(ins, version), versions);
  }

  lemma DocSurvives(d: Doc, section: Lines, version: string, versions: seq<string>)
    requires d.u < |d.parts| && d.parts[d.u] != [] && version in versions && CompareLinks.GoodTag(version)
    ensures Survives(d.parts, d.u, 1, UpdateParts(Insert(d, section).parts, version), versions)
  {
    TrimText(d.parts[d.u], versions);
    InsertSurvives(d.parts, d.u, TrimPart(d.parts[d.u]), Spaced(section, d.u + 1 == |d.parts|),
                   Insert(d, section).parts, version, versions);
  }

  lemma SurvivesSelf(a: seq<Lines>, u: nat, versions: seq<string>)
    ensures Survives(a, u, 0, a, versions)
  {
  }

  lemma SurvivesAgain(a: seq<Lines>, u: nat, b: seq<Lines>, n: nat, c: seq<Lines>, versions: seq<string>)
    requires u < |a| && Survives(a, u, 1, b, versions) && Survives(b, u, n, c, versions)
    ensures Survives(a, u, n + 1, c, versions)
  {
    forall k | 0 <= k < |a| ensures SameText(TextOf(a[k], versions), TextOf(c[Moves(u, k, n + 1)], versions), k == u) {
      var j := Moves(u, k, 1);
      assert SameText(TextOf(a[k], versions), TextOf(b[j], versions), k == u);
      assert SameText(TextOf(b[j], versions), TextOf(c[Moves(u, j, n)], versions), j == u);
      assert Moves(u, j, n) == Moves(u, k, n + 1);
    }
  }

  ghost predicate Covered(runs: seq<Release>, versions: seq<string>) {
    forall k {:trigger runs[k]} :: 0 <= k < |runs| ==> runs[k].version in versions
  }

  lemma NextSurvives(docs: seq<Doc>, runs: seq<Release>, i: nat, versions: seq<string>)
    requires Traced(docs, runs) && i < |runs| && Covered(runs, versions)
    ensures docs[i + 1].u == docs[i].u < |docs[i].parts| &&
            Survives(docs[i].parts, docs[i].u, 1, docs[i + 1].parts, versions)
  {
    assert StepAt(docs, runs, i);
    DocSurvives(docs[i], SectionOf(runs[i]), runs[i].version, versions);
  }

  lemma {:induction false} AllSurvive(docs: seq<Doc>, runs: seq<Release>, i: nat, versions: seq<string>)
    requires Traced(docs, runs) && i <= |runs| && Covered(runs, versions)
    ensures docs[|runs|].u == docs[i].u && Survives(docs[i].parts, docs[i].u, |runs| - i, docs[|runs|].parts, versions)
    decreases |runs| - i
  {
    if i == |runs| {
      SurvivesSelf(docs[i].parts, docs[i].u, versions);
    } else {
      NextSurvives(docs, runs, i, versions);
      AllSurvive(docs, runs, i + 1, versions);
      SurvivesAgain(docs[i].parts, docs[i].u, docs[i + 1].parts, |runs| - i - 1, docs[|runs|].parts, versions);
    }
  }

  /** Before the releases, no line is one of their versions' links. */
  lemma {:induction false} NewText(lines: Lines, versions: seq<string>)
    requires forall v {:trigger LinkPrefix(v)} :: v in versions ==> NoPrefix(lines, LinkPrefix(v))
    ensures TextOf(lines, versions) == TextOf(lines, [])
    decreases |lines|
  {
    if lines != [] {
      assert forall v :: v in versions ==> lines[0] in lines && NoPrefix(lines, LinkPrefix(v));
      forall v | v in versions ensures NoPrefix(lines[1..], LinkPrefix(v)) { assert NoPrefix(lines, LinkPrefix(v)); }
      NewText(lines[1..], versions);
    }
  }

  /**
   * Every part is still there, line for line apart from links; only blank lines at the end of [Unreleased] may
   * differ.
   */
  ghost predicate Preserved(d: Doc, end: Doc, runs: seq<Release>) {
    && end.u == d.u && |end.parts| == |d.parts| + |runs|
    && forall k {:trigger Moves(d.u, k, |runs|)} :: 0 <= k < |d.parts| ==>
         SameText(TextOf(d.parts[k], []), TextOf(end.parts[Moves(d.u, k, |runs|)], Versions(runs)), k == d.u)
  }

  lemma AllPreserve(docs: seq<Doc>, runs: seq<Release>)
    requires Traced(docs, runs) && Good(docs[0]) && AllReady(docs[0], runs)
    ensures Preserved(docs[0], docs[|runs|], runs)
  {
    var d, end, versions := docs[0], docs[|runs|], Versions(runs);
    forall k | 0 <= k < |runs| ensures runs[k].version in versions { assert versions[k] in versions; }
    AllSurvive(docs, runs, 0, versions);
    forall k | 0 <= k < |d.parts| ensures TextOf(d.parts[k], versions) == TextOf(d.parts[k], []) {
      NewPartText(d, runs, k);
    }
    assert forall k :: 0 <= k < |d.parts| ==>
      SameText(TextOf(d.parts[k], versions), TextOf(end.parts[Moves(d.u, k, |runs|)], versions), k == d.u);
  }

  lemma NewPartText(d: Doc, runs: seq<Release>, k: nat)
    requires Good(d) && AllReady(d, runs) && k < |d.parts|
    ensures TextOf(d.parts[k], Versions(runs)) == TextOf(d.parts[k], [])
  {
    forall v | v in Versions(runs) ensures NoPrefix(d.parts[k], LinkPrefix(v)) {
      var i :| 0 <= i < |runs| && Versions(runs)[i] == v;
      assert Ready(d, runs[i]);
      NewToLines(d, v);
    }
    NewText(d.parts[k], Versions(runs));
  }

  // ---- The chain of links ----

  ghost predicate Chained(lines: Lines, link: CompareLinks.Link, versions: seq<string>) {
    exists i :: LinkChains.ChainAt(lines, i, link, versions)
  }

  lemma InsertedParts(head: Lines, body: Lines, kept: Lines, section: Lines, rest: Lines)
    requires kept == DropBlankTail(body)
    ensures head + body + rest == (head + kept) + body[|kept|..] + rest
    ensures Inserted(head, body, section, rest) == (head + kept) + ([""] + Spaced(section, rest == [])) + rest
  {
    KeptAndGap(head, body, |kept|, rest);
    InsertedAround(head + kept, section, rest);
  }

  lemma KeptAndGap(head: Lines, body: Lines, n: nat, rest: Lines)
    requires n <= |body|
    ensures head + body + rest == (head + body[..n]) + body[n..] + rest
  {
    assert body == body[..n] + body[n..];
  }

  lemma InsertedAround(x: Lines, section: Lines, rest: Lines)
    ensures x + [""] + section + (if rest == [] then [] else [""] + rest) ==
            x + ([""] + Spaced(section, rest == [])) + rest
  {
    if rest != [] { assert Spaced(section, false) + rest == section + ([""] + rest); }
  }

  lemma GapUnlinked(body: Lines, kept: Lines)
    requires kept == DropBlankTail(body)
    ensures LinkChains.Unlinked(body[|kept|..])
  {
    forall j | 0 <= j < |body[|kept|..]| ensures CompareLinks.NoBracket(body[|kept|..][j]) {
      BlankIsText(body[|kept| + j], []);
    }
  }

  /** Lines that are no links may take each other's place. */
  lemma ChainedAround(x: Lines, gap: Lines, added: Lines, y: Lines, link: CompareLinks.Link, versions: seq<string>)
    requires LinkChains.Unlinked(gap) && LinkChains.Unlinked(added) && (y != [] ==> CompareLinks.NoBracket(y[0]))
    ensures Chained(x + gap + y, link, versions) <==> Chained(x + added + y, link, versions)
  {
    if i :| LinkChains.ChainAt(x + gap + y, i, link, versions) {
      var _ := LinkChains.ChainAround(x, gap, added, y, i, link, versions);
    }
    if i :| LinkChains.ChainAt(x + added + y, i, link, versions) {
      var _ := LinkChains.ChainAround(x, added, gap, y, i, link, versions);
    }
  }

  /** Inserting a section neither breaks nor mends the chain. */
  lemma InsertChained(d: Doc, section: Lines, link: CompareLinks.Link, versions: seq<string>)
    requires ValidDoc(d) && d.parts[d.u] != [] && LinkChains.Unlinked(section)
    ensures Chained(DocLines(Insert(d, section)), link, versions) <==> Chained(DocLines(d), link, versions)
  {
    var head, body, rest := DocSplits(d, section);
    var kept := DropBlankTail(body);
    InsertedParts(head, body, kept, section, rest);
    GapUnlinked(body, kept);
    assert rest != [] ==> rest[0][0] == '#';
    ChainedAround(head + kept, body[|kept|..], [""] + Spaced(section, rest == []), rest, link, versions);
  }

  lemma UpdateChained(lines: Lines, version: string, link: CompareLinks.Link, versions: seq<string>)
    requires !CompareLinks.HasVersion(lines, version) && CompareLinks.GoodTag(version)
    ensures Chained(CompareLinks.UpdateLinks(lines, version), link, versions + [version])
       <==> Chained(lines, link, versions) &&
            CompareLinks.DotsApart(CompareLinks.Tag(LinkChains.TagAfter(link.prev, versions), version))
  {
    forall i: nat ensures LinkChains.ChainAt(CompareLinks.UpdateLinks(lines, version), i, link, versions + [version])
      <==> LinkChains.ChainAt(lines, i, link, versions)
           && CompareLinks.DotsApart(CompareLinks.Tag(LinkChains.TagAfter(link.prev, versions), version))
    {
      LinkChains.UpdateChainIff(lines, i, link, versions, version);
    }
  }

  lemma StepChained(d: Doc, r: Release, link: CompareLinks.Link, versions: seq<string>)
    requires Good(d) && Ready(d, r)
    ensures Chained(DocLines(Step(d, r)), link, versions + [r.version])
       <==> Chained(DocLines(d), link, versions) &&
            CompareLinks.DotsApart(CompareLinks.Tag(LinkChains.TagAfter(link.prev, versions), r.version))
  {
    var section := SectionOf(r);
    SectionIsSection(r);
    InsertChained(d, section, link, versions);
    NoNewVersion(d, r);
    UpdateFlat(Insert(d, section).parts, r.version);
    UpdateChained(DocLines(Insert(d, section)), r.version, link, versions);
  }

  /** No tag's own dots come before the range's. */
  predicate TagsApart(prev: string, versions: seq<string>)
    decreases |versions|
  {
    versions == [] ||
    var tag := CompareLinks.Tag(prev, versions[0]);
    CompareLinks.DotsApart(tag) && TagsApart(tag, versions[1..])
  }

  lemma NextTags(runs: seq<Release>, link: CompareLinks.Link, versions: seq<string>, all: seq<string>)
    requires runs != [] && all == versions + [runs[0].version]
    ensures TagsApart(LinkChains.TagAfter(link.prev, versions), Versions(runs)) <==>
            && CompareLinks.DotsApart(CompareLinks.Tag(LinkChains.TagAfter(link.prev, versions), runs[0].version))
            && TagsApart(LinkChains.TagAfter(link.prev, all), Versions(runs[1..]))
    ensures versions + Versions(runs) == all + Versions(runs[1..])
  {
    LinkChains.TagStep(link.prev, versions, runs[0].version);
    assert Versions(runs)[1..] == Versions(runs[1..]);
    assert Versions(runs) == [runs[0].version] + Versions(runs[1..]);
  }

  lemma {:induction false} AllChained(docs: seq<Doc>, runs: seq<Release>, i: nat, link: CompareLinks.Link,
                                      versions: seq<string>)
    requires Traced(docs, runs) && i <= |runs|
    ensures Chained(DocLines(docs[|runs|]), link, versions + Versions(runs[i..]))
       <==> Chained(DocLines(docs[i]), link, versions) &&
            TagsApart(LinkChains.TagAfter(link.prev, versions), Versions(runs[i..]))
    decreases |runs| - i
  {
    if i == |runs| {
      assert versions + Versions(runs[i..]) == versions;
    } else {
      var all := versions + [runs[i].version];
      NextChained(docs, runs, i, link, versions);
      AllChained(docs, runs, i + 1, link, all);
      assert runs[i..][0] == runs[i] && runs[i..][1..] == runs[i + 1..];
      NextTags(runs[i..], link, versions, all);
    }
  }

  lemma NextChained(docs: seq<Doc>, runs: seq<Release>, i: nat, link: CompareLinks.Link, versions: seq<string>)
    requires Traced(docs, runs) && i < |runs|
    ensures Chained(DocLines(docs[i + 1]), link, versions + [runs[i].version])
       <==> Chained(DocLines(docs[i]), link, versions)
            && CompareLinks.DotsApart(CompareLinks.Tag(LinkChains.TagAfter(link.prev, versions), runs[i].version))
  {
    assert StepAt(docs, runs, i);
    StepChained(docs[i], runs[i], link, versions);
  }

  // ---- On the text itself ----

  /** A text is lines before its first section, and sections. */
  lemma {:induction false} Partition(lines: Lines, open: bool) returns (pre: Lines, sections: seq<Lines>)
    ensures lines == pre + Flat(sections) && NoHeading(pre, open) && Sections(sections) &&
            (sections != [] ==> !Open(pre, open))
    decreases |lines|
  {
    if lines == [] {
      pre, sections := [], [];
    } else {
      var line, rest := lines[0], lines[1..];
      assert lines == [line] + rest;
      var starts := !IsFence(line) && !open && IsH2(line);
      pre, sections := Partition(rest, if IsFence(line) then !open else open);
      if starts {
        sections := StartSection(line, pre, sections);
        pre := [];
      } else {
        assert ([line] + pre)[1..] == pre;
        pre := [line] + pre;
      }
    }
  }

  lemma StartSection(line: string, body: Lines, sections: seq<Lines>) returns (r: seq<Lines>)
    requires IsH2(line) && NoHeading(body, false) && Sections(sections) && (sections != [] ==> !Open(body, false))
    ensures Sections(r) && Flat(r) == [line] + (body + Flat(sections))
  {
    r := [[line] + body] + sections;
    assert ([line] + body)[1..] == body;
    FlatCons([line] + body, sections);
    assert forall i :: 1 <= i < |r| ==> r[i] == sections[i - 1];
  }

  /** Every text that splits at an [Unreleased] section is that of some parts. */
  lemma DocOf(lines: Lines) returns (d: Doc)
    requires Split(lines).Some?
    ensures ValidDoc(d) && DocLines(d) == lines && d.parts[d.u] != []
    ensures Split(lines).value.1 == d.parts[d.u][1..] && Split(lines).value.2 == Flat(d.parts[d.u + 1..])
  {
    var pre, sections := Partition(lines, false);
    var u := FindsUnreleased(lines, pre, sections);
    d := Doc([pre] + sections, u + 1);
    assert d.parts[1..] == sections;
    FlatCons(pre, sections);
    assert d.parts[1..][u] == d.parts[d.u];
    BodyAndRest(d);
  }

  lemma FindsUnreleased(lines: Lines, pre: Lines, sections: seq<Lines>) returns (u: nat)
    requires Split(lines).Some? && lines == pre + Flat(sections) && NoHeading(pre, false) && Sections(sections)
    requires sections != [] ==> !Open(pre, false)
    ensures u < |sections| && First(sections, Unreleased()) == u
  {
    u := First(sections, Unreleased());
    if sections == [] {
      assert lines == pre && lines[0..0 + |lines|] == pre;
      ScanPlain(lines, 0, |lines|, false, None, Unreleased());
    } else {
      FlatFirst(lines, pre, Flat(sections));
      ScanParts(lines, pre, sections, Unreleased(), u, |pre| + |Flat(sections[..u])|);
    }
  }

  /** The script takes the text: [Unreleased] keeps only a note, and no code is open at its end. */
  ghost predicate CanAssemble(lines: Lines) {
    Split(lines).Some? && NoteOnly(Split(lines).value.1, false) && !Open(Split(lines).value.1, false)
  }

  /** The version has no section and no link in the text. */
  ghost predicate NewVersion(lines: Lines, version: string) {
    && Split(lines).Some? && NotesOf(lines, version) == Missing
    && !HasHeading(Split(lines).value.2, version) && !CompareLinks.HasVersion(lines, version)
  }

  ghost predicate NewRelease(lines: Lines, r: Release) { GoodRelease(r) && NewVersion(lines, r.version) }

  ghost predicate NewReleases(lines: Lines, runs: seq<Release>) {
    (forall k {:trigger runs[k]} :: 0 <= k < |runs| ==> NewRelease(lines, runs[k])) && DistinctVersions(runs)
  }

  lemma MissingIff(d: Doc, name: string, p: string -> bool)
    requires ValidDoc(d) && p == HeadingOf(name)
    ensures NotesBy(DocLines(d), p) == Missing <==> NoHeadingOf(d.parts, name)
  {
    var sections := d.parts[1..];
    var k := First(sections, p);
    FlatFirst(DocLines(d), d.parts[0], Flat(sections));
    ScanParts(DocLines(d), d.parts[0], sections, p, k, |d.parts[0]| + |Flat(sections[..k])|);
    assert forall i :: 0 <= i < |sections| ==> sections[i] == d.parts[i + 1];
    assert NoHeadingOf(d.parts, name) <==> k == |sections| by { HeadingsAsked(d, name, p, k); }
  }

  lemma HeadingsAsked(d: Doc, name: string, p: string -> bool, k: nat)
    requires ValidDoc(d) && p == HeadingOf(name) && k == First(d.parts[1..], p)
    ensures NoHeadingOf(d.parts, name) <==> k == |d.parts[1..]|
  {
    var sections := d.parts[1..];
    forall i | 1 <= i < |d.parts|
      ensures d.parts[i] == sections[i - 1] && (IsHeadingOf(d.parts[i][0], name) <==> p(sections[i - 1][0])) {}
  }

  lemma BodyAndRest(d: Doc)
    requires ValidDoc(d) && d.parts[d.u] != []
    ensures var split := Split(DocLines(d));
            split.Some? && split.value.1 == d.parts[d.u][1..] && split.value.2 == Flat(d.parts[d.u + 1..])
  {
    SplitDoc(d);
  }

  lemma NewOnLines(d: Doc, version: string)
    requires ValidDoc(d) && d.parts[d.u] != []
    ensures IsNew(d, version) <==> NewVersion(DocLines(d), version)
  {
    BodyAndRest(d);
    MissingIff(d, version, HeadingOf(version));
  }

  /** Code can only be open at the end of [Unreleased] when no section follows it. */
  lemma OpenOnlyAtEnd(lines: Lines)
    requires Split(lines).Some? && Split(lines).value.2 != []
    ensures !Open(Split(lines).value.1, false)
  {
    var d := DocOf(lines);
    assert d.u + 1 < |d.parts|;
    assert d.parts[1..][d.u - 1] == d.parts[d.u] && Closed(d.parts[1..][d.u - 1]);
  }

  /** The parts of a text that the script takes. */
  lemma GoodDoc(lines: Lines, runs: seq<Release>) returns (d: Doc)
    requires CanAssemble(lines) && NewReleases(lines, runs)
    ensures Good(d) && DocLines(d) == lines && AllReady(d, runs) && DistinctVersions(runs) && Renderable(runs)
  {
    d := DocOf(lines);
    assert Renderable(runs) by {
      forall k | 0 <= k < |runs| ensures ValidFragments(runs[k].fragments) { assert NewRelease(lines, runs[k]); }
    }
    forall k | 0 <= k < |runs| ensures Ready(d, runs[k]) {
      NewOnLines(d, runs[k].version);
      assert NewRelease(lines, runs[k]);
    }
  }

  // ---- Starting from a new changelog ----

  const TITLE := "## [Unreleased]"

  lemma HeadingOnly(title: string, p: string -> bool)
    requires p == Unreleased() && p(title) && IsH2(title)
    ensures var d := Doc([[], [title]], 1); ValidDoc(d) && DocLines(d) == [title]
  {
    var parts := [[], [title]];
    var sections := parts[1..];
    assert sections == [[title]] && [title][1..] == [];
    FirstIs(sections, p, 0);
    FlatCons([], sections);
    FlatCons([title], []);
  }

  /** A changelog of only the heading can be assembled. */
  lemma NewChangelogTaken()
    ensures CanAssemble([TITLE])
  {
    PrefixIff(TITLE, TITLE);
    assert TITLE[..3] == H2;
    HeadingOnly(TITLE, Unreleased());
    BodyAndRest(Doc([[], [TITLE]], 1));
    assert [TITLE][1..] == [];
  }

  lemma BracketedName(title: string, name: string, other: string)
    requires title == "## [" + name + "]" && name != [] && NoSpace(name) && ']' !in name
    ensures IsHeadingOf(title, other) <==> SameNoCase(name, other)
  {
    var n := 4 + |name|;
    assert title[4..n] == name && title[n..n + 1] == "]" && OccursAt(title, "]", n);
    var j := Find(title, "]", 4);
    assert title[j..j + 1][0] == title[j];
    assert forall m :: 4 <= m < n ==> title[m] == name[m - 4];
    assert TrimLeft(name) == name && Strip(name) == name;
  }

  lemma TitleNames(name: string)
    ensures IsHeadingOf(TITLE, name) <==> SameNoCase("Unreleased", name)
  {
    assert TITLE == "## [" + "Unreleased" + "]";
    BracketedName(TITLE, "Unreleased", name);
  }

  lemma FirstVersionNew(d: Doc, version: string)
    requires d == Doc([[], [TITLE]], 1) && ValidDoc(d) && !SameNoCase("Unreleased", version)
    ensures NewTo(d, version)
  {
    TitleNames(version);
    OtherStart(LinkPrefix(version), TITLE, 0);
    assert NoPrefix([], LinkPrefix(version)) && NoPrefix([TITLE], LinkPrefix(version));
  }

  /** It takes any first release but one named after its own heading. */
  lemma FirstReleaseTaken(r: Release)
    requires GoodRelease(r) && !SameNoCase("Unreleased", r.version)
    ensures NewRelease([TITLE], r)
  {
    var d := Doc([[], [TITLE]], 1);
    PrefixIff(TITLE, TITLE);
    assert TITLE[..3] == H2;
    HeadingOnly(TITLE, Unreleased());
    FirstVersionNew(d, r.version);
    NewByParts(d, r.version);
    NewOnLines(d, r.version);
  }

  // ---- What any number of releases keep ----

  /** The changelogs that the script leads through, from the text to what it writes. */
  lemma TraceText(lines: Lines, runs: seq<Release>) returns (docs: seq<Doc>)
    requires CanAssemble(lines) && NewReleases(lines, runs)
    ensures Traced(docs, runs) && DistinctVersions(runs) && Good(docs[0]) && AllReady(docs[0], runs) &&
            DocLines(docs[0]) == lines
    ensures Renderable(runs) && AssembleAll(lines, runs) == Written(DocLines(docs[|runs|]))
  {
    var d := GoodDoc(lines, runs);
    docs := Trace(d, runs);
    TracedAssembles(docs, runs, 0);
    assert runs[0..] == runs;
  }

  /** After any releases, the notes extracted for each version are exactly the section rendered for it. */
  lemma NotesOfEveryRelease(lines: Lines, runs: seq<Release>, k: nat)
    requires CanAssemble(lines) && NewReleases(lines, runs) && k < |runs|
    ensures Renderable(runs) && runs[k] in runs && AssembleAll(lines, runs).Written?
    ensures NotesOf(AssembleAll(lines, runs).lines, runs[k].version) == Found(Rendered(runs[k]))
  {
    var docs := TraceText(lines, runs);
    NotesOfRelease(docs, runs, k, HeadingOf(runs[k].version));
  }

  /** So each fragment is listed once, in its release's notes, in the order of headings and issues. */
  lemma FragmentsOfEveryRelease(lines: Lines, runs: seq<Release>, k: nat)
    requires CanAssemble(lines) && NewReleases(lines, runs) && k < |runs|
    ensures Renderable(runs)
    ensures var fs := Ordered(SECTIONS, runs[k].fragments);
            && multiset(fs) == multiset(runs[k].fragments) && InOrder(fs, SECTIONS)
            && (forall f :: f in fs ==> f.entry != []) && AssembleAll(lines, runs).Written?
            && var notes := NotesOf(AssembleAll(lines, runs).lines, runs[k].version);
               notes.Found? && Bullets(notes.body) == AllLinked(fs)
  {
    NotesOfEveryRelease(lines, runs, k);
    SectionsDistinct();
    assert NewRelease(lines, runs[k]);
    EachOnceInOrder(SECTIONS, runs[k].fragments);
    RenderedBullets(SECTIONS, runs[k].fragments);
  }

  /** Every part of the first text is still there, line for line apart from links. */
  lemma EarlierTextSurvives(lines: Lines, runs: seq<Release>) returns (d: Doc, end: Doc)
    requires CanAssemble(lines) && NewReleases(lines, runs)
    ensures Renderable(runs) && AssembleAll(lines, runs) == Written(DocLines(end))
    ensures ValidDoc(d) && DocLines(d) == lines && ValidDoc(end) && Preserved(d, end, runs)
  {
    var docs := TraceText(lines, runs);
    AllPreserve(docs, runs);
    d, end := docs[0], docs[|runs|];
    assert GoodAt(docs, |runs|);
  }

  /** After any releases the links form one unbroken chain exactly when they did and every tag's dots are apart. */
  lemma ChainOfEveryRelease(lines: Lines, runs: seq<Release>, link: CompareLinks.Link, versions: seq<string>)
    requires CanAssemble(lines) && NewReleases(lines, runs)
    ensures Renderable(runs) && AssembleAll(lines, runs).Written?
    ensures Chained(AssembleAll(lines, runs).lines, link, versions + Versions(runs))
       <==> Chained(lines, link, versions) && TagsApart(LinkChains.TagAfter(link.prev, versions), Versions(runs))
  {
    var docs := TraceText(lines, runs);
    AllChained(docs, runs, 0, link, versions);
    assert runs[0..] == runs;
  }
}
