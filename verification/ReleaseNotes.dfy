/** Cutting release notes to a length, without leaving a code block open. */
module ReleaseNotes {
  import opened Search
  import opened Texts

  // ---- Fences ----

  predicate IsRun(run: string) {
    |run| >= 3 && run[0] in {'`', '~'} && forall i :: 0 <= i < |run| ==> run[i] == run[0]
  }

  /** The fence characters that start a line, after at most three spaces, and what follows them. */
  function FenceRun(line: string): (r: Option<(string, string)>)
    ensures r.Some? ==> IsRun(r.value.0) && |r.value.0| <= |line|
  {
    var n := SpacesAt(line);
    if n > 3 || n == |line| || line[n] !in {'`', '~'} then None
    else
      var m := n + RunAt(line[n..], line[n]);
      if m - n < 3 then None else Some((line[n..m], line[m..]))
  }

  /** The open fence after a line, if `fence` was before it; an empty one means none. */
  function FenceStep(fence: string, line: string): string {
    match FenceRun(line)
    case None => fence
    case Some((run, after)) =>
      if fence == "" then run
      else if run[0] == fence[0] && |run| >= |fence| && TrimLeft(after) == "" then ""
      else fence
  }

  function FenceAfter(fence: string, lines: seq<string>): string
    decreases |lines|
  {
    if lines == [] then fence else FenceAfter(FenceStep(fence, lines[0]), lines[1..])
  }

  function OpenFence(text: string): string { FenceAfter("", SplitLines(text)) }

  /** The loop over the lines. */
  method FindOpenFence(text: string) returns (fence: string)
    ensures fence == OpenFence(text)
  {
    fence := "";
    var lines := SplitLines(text);
    for i := 0 to |lines|
      invariant FenceAfter(fence, lines[i..]) == OpenFence(text)
    {
      assert lines[i..][0] == lines[i] && lines[i..][1..] == lines[i + 1..];
      var m := FenceRun(lines[i]);
      if m.None? { continue; }
      var (run, after) := m.value;
      if fence == "" {
        fence := run;
      } else if run[0] == fence[0] && |run| >= |fence| && TrimLeft(after) == "" {
        fence := "";
      }
    }
    assert lines[|lines|..] == [];
  }

  lemma {:induction false} FenceAppend(fence: string, a: seq<string>, b: seq<string>)
    ensures FenceAfter(fence, a + b) == FenceAfter(FenceAfter(fence, a), b)
    decreases |a|
  {
    if a == [] {
      assert a + b == b;
    } else {
      assert (a + b)[0] == a[0] && (a + b)[1..] == a[1..] + b;
      FenceAppend(FenceStep(fence, a[0]), a[1..], b);
    }
  }

  /** An open fence is a run. */
  lemma {:induction false} OpenIsRun(fence: string, lines: seq<string>)
    requires fence == "" || IsRun(fence)
    ensures FenceAfter(fence, lines) == "" || IsRun(FenceAfter(fence, lines))
    decreases |lines|
  {
    if lines != [] { OpenIsRun(FenceStep(fence, lines[0]), lines[1..]); }
  }

  /** A run alone on its line closes the block it opened. */
  lemma RunCloses(run: string)
    requires IsRun(run)
    ensures FenceStep(run, run) == "" && NoBreak(run)
  {
    assert !IsSpace('`') && !IsSpace('~') && !IsSpace(run[0]) && SpacesAt(run) == 0;
    assert run[0..] == run && RunAt(run, run[0]) == |run|;
    assert run[0..|run|] == run && run[|run|..] == "";
    forall i | 0 <= i < |run| ensures !IsBreak(run[i]) { assert run[i] == run[0]; }
  }

  /** Text after a line end is read from the fence open there. */
  lemma OpenAfterLine(a: string, b: string)
    ensures OpenFence(a + "\n" + b) == FenceAfter(OpenFence(a + "\n"), SplitLines(b))
  {
    LinesAppend(a, '\n', b);
    FenceAppend("", SplitLines(a + "\n"), SplitLines(b));
  }

  lemma OneLine(fence: string, line: string)
    requires NoBreak(line)
    ensures FenceAfter(fence, SplitLines(line + "\n")) == FenceStep(fence, line)
  {
    LinesCons(line, "");
    assert line + "\n" + "" == line + "\n";
    assert [line][1..] == [] && FenceAfter(fence, [line]) == FenceAfter(FenceStep(fence, line), []);
  }

  // ---- Cutting ----

  const BLANK := "\n\n"
  const BREAK := "\n"

  /** Where the last blank line, or else the last line end, starts that `limit` leaves room for. */
  function CutIndex(body: string, limit: nat): (n: nat)
    requires 0 < limit <= |body|
    ensures n <= limit
  {
    var blank := RFind(body, BLANK, 0, limit);
    if blank > 0 then blank
    else
      var newline := RFind(body, BREAK, 0, limit);
      if newline > 0 then newline else limit
  }

  /** A blank line is cut at before any line end, and the last of either. */
  lemma CutAtLast(body: string, limit: nat, j: nat)
    requires 0 < limit <= |body| && 0 < j < limit
    ensures var n := CutIndex(body, limit);
            && (j + 2 <= limit && OccursAt(body, BLANK, j) ==> j <= n && OccursAt(body, BLANK, n))
            && (OccursAt(body, BREAK, j) ==> OccursAt(body, BLANK, n) || (j <= n && OccursAt(body, BREAK, n)))
  {
  }

  function TrimBreaks(s: string): (r: string)
    ensures r <= s
  {
    if s != [] && s[|s| - 1] == '\n' then TrimBreaks(s[..|s| - 1]) else s
  }

  const CUT_SHORT := ["_These notes ", "are cut short. ", "The full list ", "is in ", "[CHANGELOG.md]("]

  /** The footer's sentence, up to its link target. */
  function Sentence(words: seq<string>): string {
    if words == [] then "" else words[0] + Sentence(words[1..])
  }

  function Footer(url: string): string { "\n" + Sentence(CUT_SHORT) + url + ")._" + "\n" }

  /** Text as a last line, with the code block it leaves open closed. */
  function Closing(kept: string): string {
    var fence := OpenFence(kept + "\n");
    if fence == "" then kept + "\n" else kept + "\n" + fence + "\n"
  }

  /** The body cut for a limit. */
  function Cut(body: string, limit: int): string {
    if 0 < limit <= |body| then Closing(TrimBreaks(body[..CutIndex(body, limit)])) else ""
  }

  function Cuts(body: string): int -> string { (limit: int) => Cut(body, limit) }

  /** The notes with their footer, from this limit down, or none when there is no room. */
  function CutDown(cut: int -> string, max: int, footer: string, limit: int): Option<string>
    decreases limit
  {
    if limit <= 0 then None
    else
      var over := |cut(limit)| + |footer| - max;
      if over <= 0 then Some(cut(limit) + footer) else CutDown(cut, max, footer, limit - over)
  }

  function Truncated(body: string, max: int, footer: string): Option<string> {
    if |body| <= max then Some(body) else CutDown(Cuts(body), max, footer, max - |footer|)
  }

  /** `cut` gives the cuts of the body. */
  ghost predicate CutsOf(cut: int -> string, body: string) {
    forall n {:trigger Cut(body, n)} :: 0 < n <= |body| ==> cut(n) == Cut(body, n)
  }

  method CutNotes(body: string, limit: int, ghost cut: int -> string) returns (kept: string)
    requires 0 < limit <= |body| && CutsOf(cut, body)
    ensures kept == cut(limit)
  {
    kept := TrimBreaks(body[..CutIndex(body, limit)]) + "\n";
    var fence := FindOpenFence(kept);
    if fence != "" { kept := kept + fence + "\n"; }
    assert kept == Cut(body, limit);
  }

  /** The loop that lowers the limit by what is over. */
  method Shorten(body: string, max: int, footer: string, ghost cut: int -> string) returns (r: Option<string>)
    requires |body| > max && CutsOf(cut, body)
    ensures r == CutDown(cut, max, footer, max - |footer|)
  {
    var limit := max - |footer|;
    while limit > 0
      invariant limit <= |body|
      invariant CutDown(cut, max, footer, limit) == CutDown(cut, max, footer, max - |footer|)
    {
      var kept := CutNotes(body, limit, cut);
      if |kept| + |footer| <= max { return Some(kept + footer); }
      limit := limit - (|kept| + |footer| - max);
    }
    r := None;
  }

  lemma CutsAre(body: string)
    ensures CutsOf(Cuts(body), body)
  {
  }

  method Fit(body: string, max: int, footer: string) returns (r: Option<string>)
    ensures r == Truncated(body, max, footer)
  {
    if |body| <= max { return Some(body); }
    CutsAre(body);
    r := Shorten(body, max, footer, Cuts(body));
  }

  method Truncate(body: string, max: int, url: string) returns (r: Option<string>)
    ensures r == Truncated(body, max, Footer(url))
  {
    r := Fit(body, max, Footer(url));
  }

  // ---- What a cut keeps ----

  /** Closing leaves no block open. */
  lemma ClosingCloses(kept: string)
    ensures OpenFence(Closing(kept)) == "" && |Closing(kept)| >= 1 && Closing(kept)[|Closing(kept)| - 1] == '\n'
  {
    var fence := OpenFence(kept + "\n");
    if fence != "" {
      OpenIsRun("", SplitLines(kept + "\n"));
      RunCloses(fence);
      OpenAfterLine(kept, fence + "\n");
      OneLine(fence, fence);
      assert Closing(kept) == kept + "\n" + (fence + "\n");
    }
  }

  lemma ClosedFooter(text: string, footer: string)
    ensures OpenFence(Closing(text) + footer) == OpenFence(footer)
  {
    ClosingCloses(text);
    var kept := Closing(text);
    var init := kept[..|kept| - 1];
    assert kept == init + "\n";
    OpenAfterLine(init, footer);
  }

  /** Cut notes: a start of the body with its code closed, and the footer. */
  ghost predicate IsCut(body: string, n: nat, footer: string, r: string) {
    n <= |body| && r == Closing(body[..n]) + footer
  }

  /** Lowering the limit ends at a cut that fits. */
  lemma {:induction false} CutDownFits(cut: int -> string, max: int, footer: string, limit: int) returns (at: int)
    requires CutDown(cut, max, footer, limit).Some?
    ensures 0 < at <= limit && CutDown(cut, max, footer, limit).value == cut(at) + footer && |cut(at) + footer| <= max
    decreases limit
  {
    var over := |cut(limit)| + |footer| - max;
    if over > 0 { at := CutDownFits(cut, max, footer, limit - over); } else { at := limit; }
  }

  lemma CutIsCut(body: string, limit: int, footer: string) returns (n: nat)
    requires 0 < limit <= |body|
    ensures n <= limit && IsCut(body, n, footer, Cut(body, limit) + footer)
    ensures OpenFence(Cut(body, limit) + footer) == OpenFence(footer)
  {
    var text := TrimBreaks(body[..CutIndex(body, limit)]);
    n := |text|;
    assert text == body[..n];
    ClosedFooter(text, footer);
  }

  lemma GivenCut(body: string, limit: int, footer: string, cut: int -> string, r: string) returns (n: nat)
    requires 0 < limit <= |body| && CutsOf(cut, body) && r == cut(limit) + footer
    ensures n <= limit && IsCut(body, n, footer, r) && OpenFence(r) == OpenFence(footer)
  {
    n := CutIsCut(body, limit, footer);
    assert cut(limit) == Cut(body, limit);
  }

  lemma NoBreakAppend(a: string, b: string)
    requires NoBreak(a) && NoBreak(b)
    ensures NoBreak(a + b)
  {
  }

  lemma {:induction false} SentenceUnbroken(words: seq<string>)
    requires forall i :: 0 <= i < |words| ==> NoBreak(words[i])
    ensures NoBreak(Sentence(words))
    decreases |words|
  {
    if words != [] {
      SentenceUnbroken(words[1..]);
      NoBreakAppend(words[0], Sentence(words[1..]));
    }
  }

  lemma WordsUnbroken(words: string)
    requires words == Sentence(CUT_SHORT)
    ensures NoBreak(words) && words != [] && words[0] == '_'
  {
    assert forall i :: 0 <= i < |CUT_SHORT| ==> NoBreak(CUT_SHORT[i]);
    SentenceUnbroken(CUT_SHORT);
    assert words == CUT_SHORT[0] + Sentence(CUT_SHORT[1..]) && CUT_SHORT[0][0] == '_';
  }

  lemma PlainSentence(words: string, url: string)
    requires NoBreak(words) && words != [] && words[0] == '_' && NoBreak(url)
    ensures OpenFence("\n" + words + url + ")._" + "\n") == ""
  {
    var line := words + url + ")._";
    NoBreakAppend(words, url);
    NoBreakAppend(words + url, ")._");
    PlainFooter(line);
    assert "\n" + words + url + ")._" + "\n" == "\n" + line + "\n";
  }

  /** A link target without line breaks leaves nothing open. */
  lemma FooterOpensNothing(url: string)
    requires NoBreak(url)
    ensures OpenFence(Footer(url)) == ""
  {
    var words := Sentence(CUT_SHORT);
    WordsUnbroken(words);
    PlainSentence(words, url);
  }

  lemma FooterLines(line: string)
    requires NoBreak(line)
    ensures SplitLines("\n" + line + "\n") == ["", line]
  {
    LinesCons(line, "");
    LinesCons("", line + "\n");
    assert "" + "\n" + (line + "\n") == "\n" + line + "\n" && line + "\n" + "" == line + "\n";
  }

  lemma PlainFooter(line: string)
    requires NoBreak(line) && line != [] && line[0] == '_'
    ensures OpenFence("\n" + line + "\n") == ""
  {
    FooterLines(line);
    var lines := ["", line];
    assert SpacesAt(line) == 0 && FenceRun(line).None?;
    NoFences(lines);
  }

  lemma {:induction false} NoFences(lines: seq<string>)
    requires forall i :: 0 <= i < |lines| ==> FenceRun(lines[i]).None?
    ensures FenceAfter("", lines) == ""
    decreases |lines|
  {
    if lines != [] { NoFences(lines[1..]); }
  }

  lemma CutNotesFit(body: string, max: int, footer: string, cut: int -> string) returns (n: nat)
    requires |body| > max && CutsOf(cut, body) && CutDown(cut, max, footer, max - |footer|).Some?
    ensures var r := CutDown(cut, max, footer, max - |footer|).value;
            && |r| <= max && n + |footer| <= max && IsCut(body, n, footer, r)
            && OpenFence(r) == OpenFence(footer)
  {
    var r := CutDown(cut, max, footer, max - |footer|).value;
    var at := CutDownFits(cut, max, footer, max - |footer|);
    n := GivenCut(body, at, footer, cut, r);
  }

  /** Notes that are cut fit, keep a start of the body, and leave open exactly what the footer does. */
  lemma TruncatedFits(body: string, max: int, footer: string) returns (n: nat)
    requires |body| > max && Truncated(body, max, footer).Some?
    ensures var r := Truncated(body, max, footer).value;
            && |r| <= max && n + |footer| <= max && IsCut(body, n, footer, r)
            && OpenFence(r) == OpenFence(footer)
  {
    CutsAre(body);
    n := CutNotesFit(body, max, footer, Cuts(body));
  }

  /** So a link target without line breaks leaves none open. */
  lemma TruncatedCloses(body: string, max: int, url: string, footer: string)
    requires |body| > max && NoBreak(url) && footer == Footer(url) && Truncated(body, max, footer).Some?
    ensures OpenFence(Truncated(body, max, footer).value) == ""
  {
    var n := TruncatedFits(body, max, footer);
    FooterOpensNothing(url);
  }

  // ---- When there is room ----

  /** No start of the body leaves open a fence longer than `f`. */
  ghost predicate FencesWithin(body: string, f: nat) {
    forall n :: 0 <= n <= |body| ==> |OpenFence(body[..n] + "\n")| <= f
  }

  lemma CutLength(body: string, limit: int, f: nat)
    requires 0 < limit <= |body| && FencesWithin(body, f)
    ensures |Cut(body, limit)| <= limit + f + 2
  {
    var text := TrimBreaks(body[..CutIndex(body, limit)]);
    assert text == body[..|text|];
  }

  /** No cut is longer than its limit by more than this. */
  ghost predicate CutsWithin(cut: int -> string, limit: int, more: nat) {
    forall n {:trigger cut(n)} :: 0 < n <= limit ==> |cut(n)| <= n + more
  }

  lemma CutsLength(body: string, f: nat, cut: int -> string)
    requires FencesWithin(body, f) && CutsOf(cut, body)
    ensures CutsWithin(cut, |body|, f + 2)
  {
    forall n | 0 < n <= |body| ensures |cut(n)| <= n + (f + 2) { CutLength(body, n, f); }
  }

  /** However often the limit is lowered, it falls by no more in all than a cut is longer than its limit. */
  lemma {:induction false} LimitStays(cut: int -> string, max: int, footer: string, limit: int, more: nat)
    requires CutsWithin(cut, limit, more) && limit >= max - |footer| - more > 0
    ensures CutDown(cut, max, footer, limit).Some?
    decreases limit
  {
    var over := |cut(limit)| + |footer| - max;
    if over > 0 { LimitStays(cut, max, footer, limit - over, more); }
  }

  lemma RoomForCut(body: string, max: int, footer: string, f: nat, cut: int -> string)
    requires FencesWithin(body, f) && |body| > max > |footer| + f + 2 && CutsOf(cut, body)
    ensures CutDown(cut, max, footer, max - |footer|).Some?
  {
    CutsLength(body, f, cut);
    LimitStays(cut, max, footer, max - |footer|, f + 2);
  }

  /** So notes are refused only when the footer and the longest fence leave no room. */
  lemma RoomEnough(body: string, max: int, footer: string, f: nat)
    requires FencesWithin(body, f) && max > |footer| + f + 2
    ensures Truncated(body, max, footer).Some?
  {
    if |body| > max {
      CutsAre(body);
      RoomForCut(body, max, footer, f, Cuts(body));
    }
  }
}
