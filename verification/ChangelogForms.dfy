/** What the lines of a changelog mean, character by character and by counting fences. */
module ChangelogForms {
  import opened Search
  import opened Texts
  import opened ChangelogSections
  import opened Changelog
  import CompareLinks

  // ---- Lines ----

  predicate Fences(line: string, pad: string) {
    AllSpace(pad) && (pad + "```" <= line || pad + "~~~" <= line)
  }

  ghost predicate Fenced(line: string) { exists pad :: Fences(line, pad) }

  /** A fence is three backticks or tildes after any space. */
  lemma FenceIff(line: string)
    ensures IsFence(line) <==> Fenced(line)
  {
    var pad := TrimLeftIs(line);
    var s := TrimLeft(line);
    assert line == pad + s;
    if IsFence(line) {
      assert "```" <= s ==> pad + "```" <= line;
      assert "~~~" <= s ==> pad + "~~~" <= line;
      assert Fences(line, pad);
    }
    if p :| Fences(line, p) { FencesFence(line, p); }
  }

  lemma FencesFence(line: string, pad: string)
    requires Fences(line, pad)
    ensures IsFence(line)
  {
    var rest, n := line[|pad|..], |pad| + 3;
    assert line[..n][..|pad|] == pad;
    assert line == pad + rest;
    assert rest[..3] == line[..n][|pad|..];
    assert rest[..3] == "```" || rest[..3] == "~~~";
    TrimLeftPad(pad, rest);
  }

  /** `## [`, a name that is not empty and holds no bracket, and `]`. */
  predicate Titles(line: string, inner: string, left: string, core: string, right: string) {
    && "## [" + inner + "]" <= line && inner != "" && ']' !in inner
    && inner == left + core + right && AllSpace(left) && AllSpace(right)
    && (core != "" ==> !IsSpace(core[0]) && !IsSpace(core[|core| - 1]))
  }

  predicate SameText(a: string, b: string) { |a| == |b| && forall i :: 0 <= i < |a| ==> SameLetter(a[i], b[i]) }

  /** Names are compared without the space around them and in any case. */
  ghost predicate Titled(line: string, name: string) {
    exists inner, left, core, right :: Titles(line, inner, left, core, right) && SameText(core, name)
  }

  /** Taking space off both ends leaves what stands between. */
  lemma StripIs(s: string) returns (left: string, core: string, right: string)
    ensures s == left + core + right && core == Strip(s) && AllSpace(left) && AllSpace(right)
    ensures core != "" ==> !IsSpace(core[0]) && !IsSpace(core[|core| - 1])
  {
    left := TrimLeftIs(s);
    core, right := TrimTail(TrimLeft(s));
    assert s == left + (core + right);
  }

  lemma TrimTail(t: string) returns (core: string, right: string)
    ensures t == core + right && core == TrimRight(t) && AllSpace(right)
    ensures core != "" ==> core[0] == t[0] && !IsSpace(core[|core| - 1])
  {
    TrimRightIs(t);
    core := TrimRight(t);
    right := t[|core|..];
  }

  lemma {:induction false} TrimRightPad(core: string, right: string)
    requires AllSpace(right) && (core != "" ==> !IsSpace(core[|core| - 1]))
    ensures TrimRight(core + right) == core
    decreases |right|
  {
    var s := core + right;
    if right == "" {
      assert s == core;
    } else {
      assert s[..|s| - 1] == core + right[..|right| - 1];
      TrimRightPad(core, right[..|right| - 1]);
    }
  }

  lemma StripPadded(s: string, left: string, core: string, right: string)
    requires s == left + core + right && AllSpace(left) && AllSpace(right)
    requires core != "" ==> !IsSpace(core[0]) && !IsSpace(core[|core| - 1])
    ensures Strip(s) == core
  {
    if core == "" {
      assert s == left + right + "" && AllSpace(left + right);
      TrimLeftPad(left + right, "");
    } else {
      assert s == left + (core + right);
      TrimLeftPad(left, core + right);
      TrimRightPad(core, right);
    }
  }

  lemma BracketAt(line: string, inner: string)
    requires "## [" + inner + "]" <= line && ']' !in inner
    ensures Find(line, "]", 4) == 4 + |inner| && line[4..4 + |inner|] == inner
  {
    var top := "## [" + inner + "]";
    assert line == top + line[|top|..];
    assert forall i :: 4 <= i < 4 + |inner| ==> line[i] == inner[i - 4];
    assert line[4 + |inner|..4 + |inner| + 1] == "]";
    assert OccursAt(line, "]", 4 + |inner|);
    var j := Find(line, "]", 4);
    assert line[j] == line[j..j + 1][0];
  }

  /** A heading is a version's exactly when its bracketed text names it. */
  lemma HeadingIff(line: string, name: string)
    ensures IsHeadingOf(line, name) <==> Titled(line, name)
  {
    if IsHeadingOf(line, name) { HeadingTitled(line, name, Find(line, "]", 4)); }
    if inner, left, core, right :| Titles(line, inner, left, core, right) && SameText(core, name) {
      BracketAt(line, inner);
      StripPadded(inner, left, core, right);
      SameNoCaseIff(core, name);
      assert line[..4] == ("## [" + inner + "]")[..4];
    }
  }

  lemma InnerIs(line: string, j: nat, inner: string)
    requires "## [" <= line && 4 < j == Find(line, "]", 4) && inner == line[4..j]
    ensures "## [" + inner + "]" <= line && inner != "" && ']' !in inner
  {
    assert line[j..j + 1] == "]";
    assert line[..j + 1] == "## [" + inner + "]";
    forall i | 4 <= i < j ensures line[i] != ']' {
      assert line[i..i + 1] == [line[i]];
      assert line[i] == ']' ==> OccursAt(line, "]", i);
    }
  }

  lemma HeadingTitled(line: string, name: string, j: nat)
    requires IsHeadingOf(line, name) && j == Find(line, "]", 4)
    ensures Titled(line, name)
  {
    var inner := line[4..j];
    InnerIs(line, j, inner);
    var left, core, right := StripIs(inner);
    SameNoCaseIff(core, name);
    assert Titles(line, inner, left, core, right);
  }

  /** The [Unreleased] heading, in any case and with anything after it. */
  predicate Unreleases(line: string) { |line| >= 15 && SameText(line[..15], "## [Unreleased]") }

  lemma PrefixForm(prefix: string, line: string)
    ensures PrefixNoCase(prefix, line) <==> |line| >= |prefix| && SameText(line[..|prefix|], prefix)
  {
    PrefixIff(prefix, line);
    if |line| >= |prefix| {
      SameNoCaseIff(line[..|prefix|], prefix);
      PrefixIff(line[..|prefix|], prefix);
    }
  }

  lemma UnreleasedIff(line: string)
    ensures IsUnreleased(line) <==> Unreleases(line)
  {
    PrefixForm("## [Unreleased]", line);
  }

  predicate AllDigits(s: string) { forall i :: 0 <= i < |s| ==> '0' <= s[i] <= '9' }

  predicate AllMarks(s: string) { forall i :: 0 <= i < |s| ==> s[i] == '#' }

  /** A bullet, a number or one to six number signs. */
  predicate IsMark(mark: string) {
    || mark == "-" || mark == "*" || mark == "+"
    || (|mark| >= 2 && AllDigits(mark[..|mark| - 1]) && mark[|mark| - 1] in {'.', ')'})
    || (1 <= |mark| <= 6 && AllMarks(mark))
  }

  /** A mark after at most three spaces, with space after it or nothing. */
  predicate Lists(line: string, pad: string, mark: string) {
    && AllSpace(pad) && |pad| <= 3 && IsMark(mark) && pad + mark <= line
    && (|line| > |pad + mark| ==> IsSpace(line[|pad + mark|]))
  }

  ghost predicate Listed(line: string) { exists pad, mark :: Lists(line, pad, mark) }

  lemma {:induction false} DigitsIs(s: string)
    ensures var n := DigitsAt(s); AllDigits(s[..n]) && (n < |s| ==> !('0' <= s[n] <= '9'))
    decreases |s|
  {
    if s != [] && '0' <= s[0] <= '9' {
      DigitsIs(s[1..]);
      var n := DigitsAt(s);
      assert s[..n] == [s[0]] + s[1..][..n - 1];
    }
  }

  /** A number in a text, up to what ends it. */
  lemma NumberMark(s: string, mark: string)
    requires mark <= s && |mark| >= 2 && AllDigits(mark[..|mark| - 1]) && !('0' <= mark[|mark| - 1] <= '9')
    ensures DigitsAt(s) == |mark| - 1 && s[|mark| - 1] == mark[|mark| - 1]
  {
    DigitsIs(s);
    var n, d := |mark| - 1, DigitsAt(s);
    var digits, found := mark[..n], s[..d];
    assert forall i :: 0 <= i < n ==> s[i] == digits[i] && '0' <= digits[i] <= '9';
    assert forall i :: 0 <= i < d ==> s[i] == found[i] && '0' <= found[i] <= '9';
    assert s[n] == mark[n];
  }

  lemma SignMark(s: string, mark: string)
    requires mark <= s && 1 <= |mark| && AllMarks(mark) && EndsAt(s, |mark|)
    ensures RunAt(s, '#') == |mark|
  {
    assert forall i :: 0 <= i < |mark| ==> s[i] == mark[i] == '#';
    assert !IsSpace('#');
    assert |mark| < |s| ==> s[|mark|] != '#';
  }

  lemma ItemMark(s: string, mark: string)
    requires s != [] && mark <= s && IsMark(mark) && EndsAt(s, |mark|)
    ensures || (s[0] in {'-', '*', '+'} && EndsAt(s, 1))
            || (0 < DigitsAt(s) < |s| && s[DigitsAt(s)] in {'.', ')'} && EndsAt(s, DigitsAt(s) + 1))
            || (1 <= RunAt(s, '#') <= 6 && EndsAt(s, RunAt(s, '#')))
  {
    assert s[0] == mark[0];
    if |mark| >= 2 && AllDigits(mark[..|mark| - 1]) && mark[|mark| - 1] in {'.', ')'} {
      NumberMark(s, mark);
    } else if 1 <= |mark| <= 6 && AllMarks(mark) {
      SignMark(s, mark);
    }
  }

  lemma MarkOf(s: string) returns (mark: string)
    requires s != [] && !IsSpace(s[0])
    requires || (s[0] in {'-', '*', '+'} && EndsAt(s, 1))
             || (0 < DigitsAt(s) < |s| && s[DigitsAt(s)] in {'.', ')'} && EndsAt(s, DigitsAt(s) + 1))
             || (1 <= RunAt(s, '#') <= 6 && EndsAt(s, RunAt(s, '#')))
    ensures mark <= s && IsMark(mark) && EndsAt(s, |mark|)
  {
    DigitsIs(s);
    var digits := DigitsAt(s);
    if s[0] in {'-', '*', '+'} && EndsAt(s, 1) {
      mark := s[..1];
      assert mark == [s[0]];
    } else if 0 < digits < |s| && s[digits] in {'.', ')'} && EndsAt(s, digits + 1) {
      mark := s[..digits + 1];
      assert mark[..digits] == s[..digits];
    } else {
      mark := s[..RunAt(s, '#')];
    }
  }

  /** A line that [Unreleased] may not hold is a list item or a heading of Markdown. */
  lemma ItemIff(line: string)
    ensures IsItem(line) <==> Listed(line)
  {
    if IsItem(line) { ItemLists(line, SpacesAt(line)); }
    if pad, mark :| Lists(line, pad, mark) { ListsItem(line, pad, mark); }
  }

  lemma ItemLists(line: string, n: nat)
    requires IsItem(line) && n == SpacesAt(line)
    ensures Listed(line)
  {
    var pad, s := line[..n], line[n..];
    var mark := MarkOf(s);
    assert line[..n + |mark|] == pad + mark;
    assert |line| > n + |mark| ==> line[n + |mark|] == s[|mark|];
    assert Lists(line, pad, mark);
  }

  lemma ListsItem(line: string, pad: string, mark: string)
    requires Lists(line, pad, mark)
    ensures IsItem(line)
  {
    ListsSpaces(line, pad, mark);
    var n := |pad|;
    var s := line[n..];
    assert line[..n + |mark|] == pad + mark && s[..|mark|] == line[..n + |mark|][n..];
    assert |s| > |mark| ==> s[|mark|] == line[n + |mark|];
    ItemMark(s, mark);
  }

  lemma ListsSpaces(line: string, pad: string, mark: string)
    requires Lists(line, pad, mark)
    ensures SpacesAt(line) == |pad| < |line|
  {
    assert forall i :: 0 <= i < |pad| + |mark| ==> line[i] == (pad + mark)[i];
    assert line[|pad|] == mark[0];
    MarkUnspaced(mark);
  }

  lemma MarkUnspaced(mark: string)
    requires IsMark(mark)
    ensures !IsSpace(mark[0])
  {
    assert |mark| >= 2 ==> mark[..|mark| - 1][0] == mark[0];
  }

  // ---- Code ----

  /** How many of the first `n` lines are fences. */
  ghost function Count(lines: Lines, n: int): int
    requires n <= |lines|
  {
    if n <= 0 then 0 else Count(lines, n - 1) + if Fenced(lines[n - 1]) then 1 else 0
  }

  /** An even number of fences stands before the line: it is not code. */
  ghost predicate Outside(lines: Lines, i: int)
    requires i <= |lines|
  {
    Count(lines, i) % 2 == 0
  }

  /** A section starts here. */
  ghost predicate Starts(lines: Lines, i: int) {
    0 <= i < |lines| && "## " <= lines[i] && Outside(lines, i)
  }

  lemma StartIsNoFence(lines: Lines, i: int)
    requires Starts(lines, i)
    ensures !Fenced(lines[i])
  {
    H2IsNoFence(lines[i]);
    FenceIff(lines[i]);
  }

  /** The section that `p` asks for lies here: the first whose heading fits, up to where the next starts. */
  ghost predicate Lies(lines: Lines, p: string -> bool, a: int, b: int) {
    && 0 <= a < b <= |lines| && Starts(lines, a) && p(lines[a])
    && (forall i {:trigger Starts(lines, i)} :: 0 <= i < a && Starts(lines, i) ==> !p(lines[i]))
    && (forall i {:trigger Starts(lines, i)} :: a < i < b ==> !Starts(lines, i))
    && (b < |lines| ==> Starts(lines, b))
  }

  /** What the pass has seen of the lines before `i`. */
  ghost predicate Passed(lines: Lines, p: string -> bool, i: nat, open: bool, start: Option<nat>) {
    && i <= |lines| && (open <==> !Outside(lines, i))
    && (start.None? ==> forall k {:trigger Starts(lines, k)} :: 0 <= k < i && Starts(lines, k) ==> !p(lines[k]))
    && (start.Some? ==>
          var a := start.value;
          && a < i && Starts(lines, a) && p(lines[a])
          && (forall k {:trigger Starts(lines, k)} :: 0 <= k < a && Starts(lines, k) ==> !p(lines[k]))
          && (forall k {:trigger Starts(lines, k)} :: a < k < i ==> !Starts(lines, k)))
  }

  lemma PassedNext(lines: Lines, p: string -> bool, i: nat, open: bool, start: Option<nat>)
    requires Passed(lines, p, i, open, start) && i < |lines|
    ensures IsFence(lines[i]) ==> Passed(lines, p, i + 1, !open, start)
    ensures !IsFence(lines[i]) && (open || !IsH2(lines[i])) ==> Passed(lines, p, i + 1, open, start)
    ensures !IsFence(lines[i]) && !open && IsH2(lines[i]) ==>
            && Starts(lines, i)
            && (start.None? ==> Passed(lines, p, i + 1, open, if p(lines[i]) then Some(i) else None))
  {
    FenceIff(lines[i]);
    if IsFence(lines[i]) || open || !IsH2(lines[i]) {
      assert !Starts(lines, i) by {
        if Starts(lines, i) { StartIsNoFence(lines, i); }
      }
    }
  }

  lemma {:induction false} ScanFrom(lines: Lines, i: nat, open: bool, start: Option<nat>, p: string -> bool)
    requires Passed(lines, p, i, open, start)
    ensures var r := Scan(lines, i, open, start, p);
            && (r.Some? ==> Lies(lines, p, r.value.0, r.value.1))
            && (r.None? ==> forall k {:trigger Starts(lines, k)} :: Starts(lines, k) ==> !p(lines[k]))
    decreases |lines| - i
  {
    if i < |lines| {
      PassedNext(lines, p, i, open, start);
      if IsFence(lines[i]) {
        ScanFrom(lines, i + 1, !open, start, p);
      } else if open || !IsH2(lines[i]) {
        ScanFrom(lines, i + 1, open, start, p);
      } else if start.None? {
        ScanFrom(lines, i + 1, open, if p(lines[i]) then Some(i) else None, p);
      }
    }
  }

  lemma LiesOnce(lines: Lines, p: string -> bool, a: int, b: int, c: int, d: int)
    requires Lies(lines, p, a, b) && Lies(lines, p, c, d)
    ensures a == c && b == d
  {
    assert Starts(lines, a) && Starts(lines, c);
    assert (b < |lines| ==> Starts(lines, b)) && (d < |lines| ==> Starts(lines, d));
  }

  /** The pass finds the section exactly where it lies. */
  lemma ScanIff(lines: Lines, p: string -> bool)
    ensures forall a: nat, b: nat {:trigger Lies(lines, p, a, b)} ::
              Scan(lines, 0, false, None, p) == Some((a, b)) <==> Lies(lines, p, a, b)
    ensures Scan(lines, 0, false, None, p).None? <==>
            forall i {:trigger Starts(lines, i)} :: Starts(lines, i) ==> !p(lines[i])
  {
    ScanFrom(lines, 0, false, None, p);
    var r := Scan(lines, 0, false, None, p);
    forall a: nat, b: nat ensures r == Some((a, b)) <==> Lies(lines, p, a, b) {
      if Lies(lines, p, a, b) {
        assert Starts(lines, a) && r.Some?;
        LiesOnce(lines, p, a, b, r.value.0, r.value.1);
      }
    }
    if r.Some? { assert Starts(lines, r.value.0); }
  }

  // ---- Bodies ----

  /** Only empty lines are taken off the ends, and all of them. */
  predicate Bares(lines: Lines, a: int, b: int) {
    && 0 <= a <= b <= |lines|
    && (forall i :: 0 <= i < a ==> lines[i] == "") && (forall i :: b <= i < |lines| ==> lines[i] == "")
    && (a < b ==> lines[a] != "" && lines[b - 1] != "")
  }

  lemma {:induction false} HeadIs(lines: Lines) returns (a: nat)
    ensures a <= |lines| && DropEmptyHead(lines) == lines[a..] && (forall i :: 0 <= i < a ==> lines[i] == "")
    ensures a < |lines| ==> lines[a] != ""
    decreases |lines|
  {
    a := 0;
    if lines != [] && lines[0] == "" {
      var k := HeadIs(lines[1..]);
      a := k + 1;
      assert forall i :: 1 <= i < a ==> lines[i] == lines[1..][i - 1];
    }
  }

  lemma {:induction false} TailIs(lines: Lines) returns (b: nat)
    ensures b <= |lines| && DropEmptyTail(lines) == lines[..b] && (forall i :: b <= i < |lines| ==> lines[i] == "")
    ensures b > 0 ==> lines[b - 1] != ""
    decreases |lines|
  {
    b := |lines|;
    if lines != [] && lines[|lines| - 1] == "" { b := TailIs(lines[..|lines| - 1]); }
  }

  lemma StripEmptyIs(lines: Lines) returns (a: int, b: int)
    ensures Bares(lines, a, b) && StripEmpty(lines) == lines[a..b]
  {
    a := HeadIs(lines);
    var n := TailIs(lines[a..]);
    b := a + n;
    assert forall i :: b <= i < |lines| ==> lines[i] == lines[a..][i - a];
    assert n > 0 ==> lines[a..][n - 1] == lines[b - 1];
    assert a < b ==> a < |lines|;
  }

  lemma BlankIff(line: string)
    ensures IsBlank(line) <==> AllSpace(line)
  {
    var pad := TrimLeftIs(line);
    if AllSpace(line) {
      assert line + "" == line;
      TrimLeftPad(line, "");
    }
  }

  lemma {:induction false} AllBlankIff(lines: Lines)
    ensures AllBlank(lines) <==> forall i :: 0 <= i < |lines| ==> AllSpace(lines[i])
    decreases |lines|
  {
    if lines != [] {
      BlankIff(lines[0]);
      AllBlankIff(lines[1..]);
      assert forall i :: 1 <= i < |lines| ==> lines[i] == lines[1..][i - 1];
      if forall i :: 0 <= i < |lines| ==> AllSpace(lines[i]) {
        assert forall i :: 0 <= i < |lines[1..]| ==> lines[1..][i] == lines[i + 1];
      }
    }
  }

  ghost predicate Spaces(lines: Lines) { forall i :: 0 <= i < |lines| ==> AllSpace(lines[i]) }

  /** A body with no text. */
  lemma BodyNotesIs(lines: Lines)
    ensures BodyNotes(lines).Empty? <==> Spaces(lines)
    ensures !Spaces(lines) ==> exists a, b :: Bares(lines, a, b) && BodyNotes(lines) == Found(lines[a..b])
  {
    var a, b := StripEmptyIs(lines);
    AllBlankIff(lines[a..b]);
    if Spaces(lines[a..b]) {
      forall i | 0 <= i < |lines| ensures AllSpace(lines[i]) {
        if a <= i < b { assert lines[i] == lines[a..b][i - a]; }
      }
    }
    assert Bares(lines, a, b);
  }

  /**
   * The notes of a version: those of the first section outside code that names it, up to the next one, without
   * empty lines at its ends; missing exactly without such a section, and empty exactly when it has no text.
   */
  lemma NotesIs(lines: Lines, name: string, p: string -> bool)
    requires p == HeadingOf(name)
    ensures forall line: string :: p(line) <==> Titled(line, name)
    ensures NotesOf(lines, name).Missing? <==> forall i :: Starts(lines, i) ==> !Titled(lines[i], name)
    ensures forall a, b {:trigger Lies(lines, p, a, b)} :: Lies(lines, p, a, b) ==>
              NotesOf(lines, name) == BodyNotes(lines[a + 1..b])
  {
    forall line: string ensures p(line) <==> Titled(line, name) { HeadingIff(line, name); }
    NotesLie(lines, name, p, NotesOf(lines, name));
  }

  lemma NotesLie(lines: Lines, name: string, p: string -> bool, notes: Notes)
    requires p == HeadingOf(name) && notes == NotesOf(lines, name)
    ensures notes.Missing? <==> forall i {:trigger Starts(lines, i)} :: Starts(lines, i) ==> !p(lines[i])
    ensures forall a, b {:trigger Lies(lines, p, a, b)} :: Lies(lines, p, a, b) ==> notes == BodyNotes(lines[a + 1..b])
  {
    ScanIff(lines, p);
    ScanBounds(lines, 0, false, None, p);
    FoundLie(lines, p, Scan(lines, 0, false, None, p), notes);
  }

  lemma FoundLie(lines: Lines, p: string -> bool, found: Option<(nat, nat)>, notes: Notes)
    requires found.Some? ==> found.value.0 < found.value.1 <= |lines|
    requires notes == NotesIn(lines, found)
    requires forall a: nat, b: nat {:trigger Lies(lines, p, a, b)} :: found == Some((a, b)) <==> Lies(lines, p, a, b)
    ensures notes.Missing? <==> found.None?
    ensures forall a, b {:trigger Lies(lines, p, a, b)} :: Lies(lines, p, a, b) ==> notes == BodyNotes(lines[a + 1..b])
  {
    forall a, b | Lies(lines, p, a, b) ensures notes == BodyNotes(lines[a + 1..b]) {
      assert found == Some((a as nat, b as nat));
    }
  }

  // ---- Assembling ----

  /** An item or heading outside code; a fence's own line counts as what it leaves open. */
  ghost predicate Carries(body: Lines, k: int) { 0 <= k < |body| && Outside(body, k + 1) && Listed(body[k]) }

  lemma {:induction false} NoteFrom(body: Lines, i: nat)
    requires i <= |body|
    ensures NoteOnly(body[i..], !Outside(body, i)) <==>
            forall k {:trigger Carries(body, k)} :: i <= k ==> !Carries(body, k)
    decreases |body| - i
  {
    if i < |body| {
      assert body[i..][0] == body[i] && body[i..][1..] == body[i + 1..];
      FenceIff(body[i]);
      ItemIff(body[i]);
      NoteFrom(body, i + 1);
      assert Outside(body, i + 1) <==> (Fenced(body[i]) <==> !Outside(body, i));
      assert Carries(body, i) <==> Outside(body, i + 1) && IsItem(body[i]);
    }
  }

  /** The note holds none of these. */
  lemma NoteIff(body: Lines)
    ensures NoteOnly(body, false) <==> forall k {:trigger Carries(body, k)} :: !Carries(body, k)
  {
    NoteFrom(body, 0);
    assert body[0..] == body && Outside(body, 0);
  }

  lemma {:induction false} BlankTailIs(lines: Lines)
    ensures var r := DropBlankTail(lines); r != [] ==> !AllSpace(r[|r| - 1])
    decreases |lines|
  {
    if lines != [] {
      BlankIff(lines[|lines| - 1]);
      if IsBlank(lines[|lines| - 1]) { BlankTailIs(lines[..|lines| - 1]); }
    }
  }

  /** The note is the body up to its last line with text. */
  predicate Keeps(body: Lines, note: Lines) {
    && note <= body && (note != [] ==> !AllSpace(note[|note| - 1]))
    && forall i :: |note| <= i < |body| ==> AllSpace(body[i])
  }

  lemma KeptIs(body: Lines)
    ensures Keeps(body, DropBlankTail(body))
  {
    BlankTailIs(body);
    forall i | |DropBlankTail(body)| <= i < |body| ensures AllSpace(body[i]) { BlankIff(body[i]); }
  }

  /** A heading of this version, dated or not. */
  predicate Names(line: string, version: string) {
    |line| >= |version| + 5 && SameText(line[..|version| + 5], "## [" + version + "]")
  }

  lemma HasHeadingIff(lines: Lines, version: string)
    ensures HasHeading(lines, version) <==> exists i :: 0 <= i < |lines| && Names(lines[i], version)
  {
    forall line: string ensures PrefixNoCase("## [" + version + "]", line) <==> Names(line, version) {
      PrefixForm("## [" + version + "]", line);
    }
  }

  /** A section is its dated heading and, after a blank line, what was rendered. */
  lemma SectionIs(version: string, date: string, rendered: Lines)
    ensures var section := SectionLines(version, date, rendered);
            && section[0] == "## [" + version + "] - " + date
            && (rendered == [] ==> |section| == 1)
            && (rendered != [] ==> |section| == |rendered| + 2 && section[1] == "" && section[2..] == rendered)
  {
  }

  /** The lines with the new section between the note and what follows it, blank lines between. */
  ghost predicate Inserts(lines: Lines, a: int, b: int, section: Lines, text: Lines, note: Lines) {
    && 0 <= a < b <= |lines| && Keeps(lines[a + 1..b], note)
    && text == lines[..a + 1] + note + [""] + section + if b == |lines| then [] else [""] + lines[b..]
  }

  /**
   * Assembling, from the lines alone: refused without an [Unreleased] heading outside code, with an item or
   * heading in its body outside code, or with a later heading of the version; otherwise the section stands
   * between the note and what follows it.
   */
  lemma AssembledIs(lines: Lines, version: string, section: Lines, p: string -> bool)
    requires p == Unreleased()
    ensures forall line: string :: p(line) <==> Unreleases(line)
    ensures Assemble(lines, version, section).NoUnreleased? <==>
            forall i {:trigger Starts(lines, i)} :: Starts(lines, i) ==> !Unreleases(lines[i])
    ensures forall a, b {:trigger Lies(lines, p, a, b)} :: Lies(lines, p, a, b) ==>
              var r, body := Assemble(lines, version, section), lines[a + 1..b];
              && (r.HasEntries? <==> exists k :: Carries(body, k))
              && (r.AlreadyReleased? <==>
                    !r.HasEntries? && exists i :: b <= i < |lines| && Names(lines[i], version))
              && (r.Written? ==> exists text, note :: Inserts(lines, a, b, section, text, note) &&
                                                      r.lines == CompareLinks.UpdateLinks(text, version))
  {
    forall line: string ensures p(line) <==> Unreleases(line) { UnreleasedIff(line); }
    ScanIff(lines, p);
    ScanBounds(lines, 0, false, None, p);
    forall a, b | Lies(lines, p, a, b)
      ensures var r, body := Assemble(lines, version, section), lines[a + 1..b];
              && (r.HasEntries? <==> exists k :: Carries(body, k))
              && (r.AlreadyReleased? <==>
                    !r.HasEntries? && exists i :: b <= i < |lines| && Names(lines[i], version))
              && (r.Written? ==> exists text, note :: Inserts(lines, a, b, section, text, note) &&
                                                      r.lines == CompareLinks.UpdateLinks(text, version))
    {
      assert Split(lines) == Some((lines[..a + 1], lines[a + 1..b], lines[b..]));
      AssembledAt(lines, version, section, a, b);
    }
  }

  lemma AssembledAt(lines: Lines, version: string, section: Lines, a: int, b: int)
    requires 0 <= a < b <= |lines| && Split(lines) == Some((lines[..a + 1], lines[a + 1..b], lines[b..]))
    ensures var r, body := Assemble(lines, version, section), lines[a + 1..b];
            && !r.NoUnreleased?
            && (r.HasEntries? <==> exists k :: Carries(body, k))
            && (r.AlreadyReleased? <==>
                  !r.HasEntries? && exists i :: b <= i < |lines| && Names(lines[i], version))
            && (r.Written? ==> exists text, note :: Inserts(lines, a, b, section, text, note) &&
                                                    r.lines == CompareLinks.UpdateLinks(text, version))
  {
    var body, rest := lines[a + 1..b], lines[b..];
    NoteIff(body);
    HasHeadingIff(rest, version);
    assert forall i :: 0 <= i < |rest| ==> rest[i] == lines[b + i];
    if i :| b <= i < |lines| && Names(lines[i], version) { assert rest[i - b] == lines[i]; }
    KeptIs(body);
    var text := Inserted(lines[..a + 1], body, section, rest);
    assert Inserts(lines, a, b, section, text, DropBlankTail(body));
  }
}
