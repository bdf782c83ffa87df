/**
 * What cut notes are, in terms of the text alone: where the cut falls, which fence is open there, what is
 * written after it, and which limits were tried before it.
 */
module NotesCut {
  import opened Search
  import opened Texts
  import opened ReleaseNotes

  // ---- Fences ----

  /** After at most three spaces, the line starts with this run of marks. */
  predicate StartsRun(line: string, indent: string, run: string, after: string) {
    && line == indent + run + after && |indent| <= 3 && AllSpace(indent) && IsRun(run)
    && (after != [] ==> after[0] != run[0])
  }

  lemma RunParts(line: string) returns (indent: string)
    requires FenceRun(line).Some?
    ensures StartsRun(line, indent, FenceRun(line).value.0, FenceRun(line).value.1)
  {
    var n := SpacesAt(line);
    var m := n + RunAt(line[n..], line[n]);
    indent := line[..n];
    assert m < |line| ==> line[m] == line[n..][m - n];
    ThreeSlices(line, n, m);
  }

  lemma ThreeSlices(s: string, n: nat, m: nat)
    requires n <= m <= |s|
    ensures s == s[..n] + s[n..m] + s[m..]
  {
  }

  lemma RunFound(line: string, indent: string, run: string, after: string)
    requires StartsRun(line, indent, run, after)
    ensures FenceRun(line) == Some((run, after))
  {
    assert !IsSpace('`') && !IsSpace('~');
    var n := |indent|;
    assert line[n] == run[0];
    SpacesIs(line, n);
    var tail := line[n..];
    assert tail == run + after;
    RunIs(tail, run[0], |run|);
    assert line[n..n + |run|] == run && line[n + |run|..] == after;
  }

  lemma SpacesIs(line: string, n: nat)
    requires n < |line| && !IsSpace(line[n]) && forall i :: 0 <= i < n ==> IsSpace(line[i])
    ensures SpacesAt(line) == n
  {
  }

  lemma RunIs(s: string, c: char, n: nat)
    requires n <= |s| && (forall i :: 0 <= i < n ==> s[i] == c) && (n < |s| ==> s[n] != c)
    ensures RunAt(s, c) == n
  {
  }

  /** A line's run and what follows it are those of its text. */
  lemma FenceRunIff(line: string, run: string, after: string)
    ensures FenceRun(line) == Some((run, after)) <==> exists indent :: StartsRun(line, indent, run, after)
  {
    if FenceRun(line) == Some((run, after)) { var indent := RunParts(line); }
    if indent :| StartsRun(line, indent, run, after) { RunFound(line, indent, run, after); }
  }

  ghost predicate Opens(line: string, fence: string) { exists indent, after :: StartsRun(line, indent, fence, after) }

  /** The line is a run of the fence's mark, at least as long, and nothing but space after it. */
  ghost predicate ClosesFence(line: string, fence: string) {
    exists indent, run, after ::
      StartsRun(line, indent, run, after) && fence != "" && run[0] == fence[0] && |run| >= |fence| && AllSpace(after)
  }

  lemma {:induction false} TrimmedAway(s: string)
    ensures TrimLeft(s) == "" <==> AllSpace(s)
    decreases |s|
  {
    if s != [] && IsSpace(s[0]) { TrimmedAway(s[1..]); }
  }

  /** A line opens a fence where none is open, closes the open one, or changes nothing. */
  lemma FenceStepIs(fence: string, line: string)
    ensures fence == "" && FenceStep(fence, line) != "" ==> Opens(line, FenceStep(fence, line))
    ensures fence == "" && FenceStep(fence, line) == "" ==> forall run :: !Opens(line, run)
    ensures fence != "" ==> FenceStep(fence, line) == if ClosesFence(line, fence) then "" else fence
  {
    if FenceRun(line).Some? {
      var (run, after) := FenceRun(line).value;
      var indent := RunParts(line);
      TrimmedAway(after);
    }
    forall indent, run, after | StartsRun(line, indent, run, after) ensures FenceRun(line) == Some((run, after)) {
      RunFound(line, indent, run, after);
    }
  }

  /** Fences are read line by line. */
  lemma FenceAfterIs(fence: string, lines: seq<string>)
    ensures FenceAfter(fence, []) == fence
    ensures lines != [] ==>
            FenceAfter(fence, lines) == FenceStep(FenceAfter(fence, lines[..|lines| - 1]), lines[|lines| - 1])
  {
    if lines != [] {
      var init, last := lines[..|lines| - 1], lines[|lines| - 1];
      assert lines == init + [last];
      FenceAppend(fence, init, [last]);
      assert [last][1..] == [];
    }
  }

  // ---- Where a cut falls ----

  /** There is one past the start, within the limit. */
  ghost predicate Occurs(body: string, pat: string, limit: nat) {
    exists j :: 0 < j && j + |pat| <= limit && OccursAt(body, pat, j)
  }

  /** It is the last one within the limit. */
  ghost predicate IsLast(body: string, pat: string, limit: nat, c: nat) {
    && c + |pat| <= limit && OccursAt(body, pat, c)
    && forall j :: j + |pat| <= limit && OccursAt(body, pat, j) ==> j <= c
  }

  /** The last blank line that the limit leaves room for, else the last line end, else the limit. */
  ghost predicate IsCutPlace(body: string, limit: nat, c: nat) {
    if Occurs(body, "\n\n", limit) then IsLast(body, "\n\n", limit, c)
    else if Occurs(body, "\n", limit) then IsLast(body, "\n", limit, c)
    else c == limit
  }

  lemma CutIndexIs(body: string, limit: nat)
    requires 0 < limit <= |body|
    ensures IsCutPlace(body, limit, CutIndex(body, limit))
  {
    var blank, newline := RFind(body, BLANK, 0, limit), RFind(body, BREAK, 0, limit);
    assert Occurs(body, "\n\n", limit) <==> blank > 0;
    assert Occurs(body, "\n", limit) <==> newline > 0;
  }

  /** The text before the cut, without the line ends right before it. */
  ghost predicate IsKept(body: string, limit: nat, n: nat) {
    exists c :: IsCutPlace(body, limit, c) && OnlyBreaks(body, n, c)
  }

  /** Up to `c` there are only line ends, and none right before `n`. */
  ghost predicate OnlyBreaks(body: string, n: nat, c: nat) {
    n <= c <= |body| && (forall i :: n <= i < c ==> body[i] == '\n') && (n > 0 ==> body[n - 1] != '\n')
  }

  lemma {:induction false} TrimBreaksIs(s: string)
    ensures forall i :: |TrimBreaks(s)| <= i < |s| ==> s[i] == '\n'
    ensures TrimBreaks(s) != [] ==> TrimBreaks(s)[|TrimBreaks(s)| - 1] != '\n'
    decreases |s|
  {
    if s != [] && s[|s| - 1] == '\n' { TrimBreaksIs(s[..|s| - 1]); }
  }

  /** What is written for a limit: the text kept, a line end, and the open fence, if any, on a line of its own. */
  ghost predicate IsCutFor(body: string, limit: nat, n: nat, cut: string) {
    && n <= |body| && IsKept(body, limit, n)
    && var fence := OpenFence(body[..n] + "\n");
       cut == body[..n] + "\n" + if fence == "" then "" else fence + "\n"
  }

  lemma CutIs(body: string, limit: nat) returns (n: nat)
    requires 0 < limit <= |body|
    ensures n <= limit && IsCutFor(body, limit, n, Cut(body, limit))
  {
    n := KeptIs(body, limit);
    ClosingIs(body[..n]);
  }

  lemma TrimmedTo(body: string, c: nat) returns (n: nat)
    requires c <= |body|
    ensures n <= c && TrimBreaks(body[..c]) == body[..n] && OnlyBreaks(body, n, c)
  {
    TrimBreaksIs(body[..c]);
    n := |TrimBreaks(body[..c])|;
    assert forall i :: 0 <= i < c ==> body[..c][i] == body[i];
  }

  lemma KeptIs(body: string, limit: nat) returns (n: nat)
    requires 0 < limit <= |body|
    ensures n <= limit && IsKept(body, limit, n) && TrimBreaks(body[..CutIndex(body, limit)]) == body[..n]
  {
    CutIndexIs(body, limit);
    n := TrimmedTo(body, CutIndex(body, limit));
  }

  lemma ClosingIs(text: string)
    ensures var fence := OpenFence(text + "\n"); Closing(text) == text + "\n" + if fence == "" then "" else fence + "\n"
  {
    var fence := OpenFence(text + "\n");
    if fence == "" { assert text + "\n" + "" == text + "\n"; }
    else { assert text + "\n" + (fence + "\n") == text + "\n" + fence + "\n"; }
  }

  // ---- The limits tried ----

  /** Each limit is tried where the one before was, lowered by what that cut was too long. */
  ghost predicate IsDescent(cut: int -> string, max: int, footer: string, limits: seq<int>) {
    && limits != [] && limits[0] == max - |footer|
    && forall i {:trigger limits[i]} :: 0 <= i < |limits| - 1 ==> IsLowered(cut, max, footer, limits[i], limits[i + 1])
  }

  predicate IsLowered(cut: int -> string, max: int, footer: string, limit: int, next: int) {
    var over := |cut(limit)| + |footer| - max;
    limit > 0 && over > 0 && next == limit - over
  }

  lemma {:induction false} Descends(cut: int -> string, max: int, footer: string, limits: seq<int>)
      returns (all: seq<int>)
    requires IsDescent(cut, max, footer, limits)
    ensures IsDescent(cut, max, footer, all)
    ensures var at, r := all[|all| - 1], CutDown(cut, max, footer, limits[|limits| - 1]);
            if r.None? then at <= 0 else at > 0 && |r.value| <= max && r.value == cut(at) + footer
    decreases limits[|limits| - 1]
  {
    var limit := limits[|limits| - 1];
    var over := |cut(limit)| + |footer| - max;
    if limit <= 0 || over <= 0 {
      all := limits;
    } else {
      var more := limits + [limit - over];
      forall i | 0 <= i < |more| - 1 ensures IsLowered(cut, max, footer, more[i], more[i + 1]) {
        if i < |limits| - 1 { assert more[i] == limits[i] && more[i + 1] == limits[i + 1]; }
      }
      all := Descends(cut, max, footer, more);
    }
  }

  // ---- Truncating ----

  /** Notes that fit stay as they are, and longer ones never do. */
  lemma WholeIff(body: string, max: int, footer: string)
    ensures Truncated(body, max, footer) == Some(body) <==> |body| <= max
  {
    if |body| > max && Truncated(body, max, footer).Some? { var n := TruncatedFits(body, max, footer); }
  }

  /**
   * Longer notes are cut for the last of a descent of limits: the first whose cut fits beside the footer, or
   * there is none left.
   */
  lemma TruncatedIs(body: string, max: int, footer: string) returns (limits: seq<int>, n: nat)
    requires |body| > max
    ensures IsDescent(Cuts(body), max, footer, limits)
    ensures var at, r := limits[|limits| - 1], Truncated(body, max, footer);
            if r.None? then at <= 0
            else && 0 < at <= |body| && |r.value| <= max && r.value == Cut(body, at) + footer
                 && IsCutFor(body, at, n, Cut(body, at))
  {
    CutsAre(body);
    limits, n := CutNotesAre(body, max, footer, Cuts(body));
  }

  lemma CutNotesAre(body: string, max: int, footer: string, cut: int -> string) returns (limits: seq<int>, n: nat)
    requires |body| > max && CutsOf(cut, body)
    ensures IsDescent(cut, max, footer, limits)
    ensures var at, r := limits[|limits| - 1], CutDown(cut, max, footer, max - |footer|);
            if r.None? then at <= 0
            else && 0 < at <= |body| && |r.value| <= max && r.value == Cut(body, at) + footer
                 && IsCutFor(body, at, n, Cut(body, at))
  {
    limits := Descends(cut, max, footer, [max - |footer|]);
    n := 0;
    if CutDown(cut, max, footer, max - |footer|).Some? {
      DescentFalls(cut, max, footer, limits, |limits| - 1);
      n := CutIs(body, limits[|limits| - 1]);
    }
  }

  lemma {:induction false} DescentFalls(cut: int -> string, max: int, footer: string, limits: seq<int>, i: nat)
    requires IsDescent(cut, max, footer, limits) && i < |limits|
    ensures limits[i] <= max - |footer|
  {
    if i > 0 {
      DescentFalls(cut, max, footer, limits, i - 1);
      assert IsLowered(cut, max, footer, limits[i - 1], limits[i - 1 + 1]);
    }
  }

  /** The footer links to the changelog. */
  lemma FooterLinks(url: string)
    ensures exists words :: NoBreak(words) && Footer(url) == "\n" + words + "[CHANGELOG.md](" + url + ")._\n"
  {
    var w := CUT_SHORT;
    var words := Sentence(w[..4]);
    assert forall i :: 0 <= i < 4 ==> NoBreak(w[..4][i]);
    SentenceUnbroken(w[..4]);
    SentenceAppend(w[..4], w[4]);
    assert w == w[..4] + [w[4]];
    assert ")._" + "\n" == ")._\n";
    Rejoin(words, "[CHANGELOG.md](", url, ")._", "\n");
  }

  lemma {:induction false} SentenceAppend(words: seq<string>, last: string)
    ensures Sentence(words + [last]) == Sentence(words) + last
    decreases |words|
  {
    if words == [] {
      assert words + [last] == [last] && [last][1..] == [];
      assert Sentence([last]) == last + Sentence([]);
    } else {
      assert (words + [last])[1..] == words[1..] + [last];
      SentenceAppend(words[1..], last);
    }
  }

  lemma Rejoin(a: string, b: string, c: string, d: string, e: string)
    ensures "\n" + (a + b) + c + d + e == "\n" + a + b + c + (d + e)
  {
  }
}
