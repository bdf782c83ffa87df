/**
 * Assembling a release section into the changelog, and extracting a release's notes from it, over
 * any number of releases. Text is its lines; a line holds no line break.
 */
module Changelog {
  import opened Search
  import opened Texts
  import opened ChangelogSections
  import opened ChangelogEntries
  import CompareLinks

  predicate IsBlank(line: string) { TrimLeft(line) == [] }

  predicate AllBlank(lines: Lines) { lines == [] || (IsBlank(lines[0]) && AllBlank(lines[1..])) }

  predicate IsUnreleased(line: string) { PrefixNoCase("## [Unreleased]", line) }

  // ---- Notes: the section of one version ----

  function Strip(s: string): string { TrimRight(TrimLeft(s)) }

  /** A heading whose bracketed name is `name`, in any case. */
  predicate IsHeadingOf(line: string, name: string) {
    "## [" <= line &&
    var j := Find(line, "]", 4);
    j > 4 && SameNoCase(Strip(line[4..j]), name)
  }

  function HeadingOf(name: string): string -> bool { (line: string) => IsHeadingOf(line, name) }

  function Unreleased(): string -> bool { (line: string) => IsUnreleased(line) }

  function DropEmptyHead(lines: Lines): Lines {
    if lines != [] && lines[0] == "" then DropEmptyHead(lines[1..]) else lines
  }

  function DropEmptyTail(lines: Lines): Lines {
    if lines != [] && lines[|lines| - 1] == "" then DropEmptyTail(lines[..|lines| - 1]) else lines
  }

  function StripEmpty(lines: Lines): Lines { DropEmptyTail(DropEmptyHead(lines)) }

  datatype Notes = Found(body: Lines) | Missing | Empty

  /** The notes that a section's body gives. */
  function BodyNotes(lines: Lines): Notes {
    var body := StripEmpty(lines);
    if AllBlank(body) then Empty else Found(body)
  }

  function NotesIn(lines: Lines, found: Option<(nat, nat)>): Notes
    requires found.Some? ==> found.value.0 < found.value.1 <= |lines|
  {
    if found.None? then Missing else BodyNotes(lines[found.value.0 + 1..found.value.1])
  }

  lemma {:induction false} ScanBounds(lines: Lines, i: nat, open: bool, start: Option<nat>, p: string -> bool)
    requires i <= |lines| && (start.Some? ==> start.value < i)
    ensures var r := Scan(lines, i, open, start, p);
            r.Some? ==> r.value.0 < r.value.1 <= |lines| && (r.value.1 < |lines| ==> IsH2(lines[r.value.1]))
    decreases |lines| - i
  {
    if i < |lines| {
      if IsFence(lines[i]) {
        ScanBounds(lines, i + 1, !open, start, p);
      } else if open || !IsH2(lines[i]) {
        ScanBounds(lines, i + 1, open, start, p);
      } else if start.None? {
        ScanBounds(lines, i + 1, open, if p(lines[i]) then Some(i) else None, p);
      }
    }
  }

  /** The body of the first section whose heading `p` asks for, without its heading. */
  function NotesBy(lines: Lines, p: string -> bool): Notes {
    ScanBounds(lines, 0, false, None, p);
    NotesIn(lines, Scan(lines, 0, false, None, p))
  }

  function NotesOf(lines: Lines, name: string): Notes { NotesBy(lines, HeadingOf(name)) }

  method ExtractNotes(lines: Lines, name: string) returns (r: Notes)
    ensures r == NotesOf(lines, name)
  {
    var found := FindSection(lines, HeadingOf(name));
    ScanBounds(lines, 0, false, None, HeadingOf(name));
    r := NotesIn(lines, found);
  }

  // ---- Assembling ----

  /** The lines up to the [Unreleased] heading, its body, and the rest. */
  function Split(lines: Lines): Option<(Lines, Lines, Lines)> {
    ScanBounds(lines, 0, false, None, Unreleased());
    match Scan(lines, 0, false, None, Unreleased())
    case None => None
    case Some((start, end)) => Some((lines[..start + 1], lines[start + 1..end], lines[end..]))
  }

  method SplitChangelog(lines: Lines) returns (r: Option<(Lines, Lines, Lines)>)
    ensures r == Split(lines)
  {
    var found := FindSection(lines, Unreleased());
    ScanBounds(lines, 0, false, None, Unreleased());
    if found.None? { return None; }
    var (start, end) := found.value;
    r := Some((lines[..start + 1], lines[start + 1..end], lines[end..]));
  }

  /** A line that starts a list item or a heading. */
  predicate IsItem(line: string) {
    var n := SpacesAt(line);
    n <= 3 && n < |line| &&
    var s := line[n..];
    var digits, marks := DigitsAt(s), RunAt(s, '#');
    || (s[0] in {'-', '*', '+'} && EndsAt(s, 1))
    || (0 < digits < |s| && s[digits] in {'.', ')'} && EndsAt(s, digits + 1))
    || (1 <= marks <= 6 && EndsAt(s, marks))
  }

  /** A word ends before `i`. */
  predicate EndsAt(s: string, i: nat) { i >= |s| || IsSpace(s[i]) }

  /** [Unreleased] keeps only a note: outside code, no line starts a list item or a heading. */
  predicate NoteOnly(lines: Lines, open: bool) {
    lines == [] ||
    var now := if IsFence(lines[0]) then !open else open;
    (now || !IsItem(lines[0])) && NoteOnly(lines[1..], now)
  }

  /** The loop that looks for entries. */
  method HoldsNote(body: Lines) returns (ok: bool)
    ensures ok == NoteOnly(body, false)
  {
    var open := false;
    ok := true;
    for i := 0 to |body|
      invariant ok && NoteOnly(body[i..], open) <==> NoteOnly(body, false)
    {
      assert body[i..][0] == body[i] && body[i..][1..] == body[i + 1..];
      if IsFence(body[i]) { open := !open; }
      if !open && IsItem(body[i]) { ok := false; }
    }
    assert body[|body|..] == [];
  }

  function DropBlankTail(lines: Lines): (r: Lines)
    ensures r <= lines && forall i :: |r| <= i < |lines| ==> IsBlank(lines[i])
  {
    if lines != [] && IsBlank(lines[|lines| - 1]) then DropBlankTail(lines[..|lines| - 1]) else lines
  }

  function HeadingLine(version: string, date: string): string { "## [" + version + "] - " + date }

  /** The new section: its heading, and the rendered entries after a blank line. */
  function SectionLines(version: string, date: string, rendered: Lines): Lines {
    [HeadingLine(version, date)] + if rendered == [] then [] else [""] + rendered
  }

  predicate HasHeading(lines: Lines, version: string) {
    exists i :: 0 <= i < |lines| && PrefixNoCase("## [" + version + "]", lines[i])
  }

  /** The new text before its links are updated. */
  function Inserted(head: Lines, body: Lines, section: Lines, rest: Lines): Lines {
    head + DropBlankTail(body) + [""] + section + if rest == [] then [] else [""] + rest
  }

  datatype Assembled = Written(lines: Lines) | NoUnreleased | HasEntries | AlreadyReleased

  /** The changelog with a new section below [Unreleased]. */
  function Assemble(lines: Lines, version: string, section: Lines): Assembled {
    match Split(lines)
    case None => NoUnreleased
    case Some((head, body, rest)) =>
      if !NoteOnly(body, false) then HasEntries
      else if HasHeading(rest, version) then AlreadyReleased
      else Written(CompareLinks.UpdateLinks(Inserted(head, body, section, rest), version))
  }

  /** CHANGELOG.md and the fragments that wait beside it. */
  class Repository {
    var lines: Lines
    var fragments: seq<Fragment>

    constructor (lines: Lines, fragments: seq<Fragment>)
      ensures this.lines == lines && this.fragments == fragments
    {
      this.lines, this.fragments := lines, fragments;
    }

    /** Write the waiting fragments as a release section and delete them, or change nothing. */
    method AssembleRelease(version: string, date: string, allowEmpty: bool) returns (ok: bool)
      requires forall f :: f in fragments ==> f.entry != []
      modifies this
      ensures var r :=
              Assemble(old(lines), version, SectionLines(version, date, RenderLines(SECTIONS, old(fragments))));
              && (ok <==> r.Written? && (old(fragments) != [] || allowEmpty))
              && (if ok then lines == r.lines && fragments == []
                 else lines == old(lines) && fragments == old(fragments))
    {
      var rendered := Render(SECTIONS, fragments);
      var split := SplitChangelog(lines);
      if split.None? { return false; }
      var note := HoldsNote(split.value.1);
      if !note { return false; }
      if fragments == [] && !allowEmpty { return false; }
      var (head, body, rest) := split.value;
      if HasHeading(rest, version) { return false; }
      while body != [] && IsBlank(body[|body| - 1])
        invariant DropBlankTail(body) == DropBlankTail(split.value.1)
      {
        body := body[..|body| - 1];
      }
      var section := SectionLines(version, date, rendered);
      var text := head + body + [""] + section + if rest == [] then [] else [""] + rest;
      lines := CompareLinks.UpdateLinks(text, version);
      fragments := [];
      ok := true;
    }
  }
}
