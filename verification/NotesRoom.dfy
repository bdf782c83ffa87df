/**
 * How much room cut notes need. The limit falls by what a cut is too long, and a fence that a cut leaves
 * open is written again to close it, so a long fence can use up the limit although a shorter cut would fit.
 */
module NotesRoom {
  import opened Search
  import opened Texts
  import opened ReleaseNotes

  // ---- One line of ticks ----

  function Ticks(n: nat): string { seq(n, _ => '`') }

  function Letters(n: nat): string { seq(n, _ => 'x') }

  /** A line that opens a fence of `g` ticks, if there are enough. */
  function TickLine(g: nat, n: nat): string { Ticks(g) + Letters(n) }

  lemma TickLineUnbroken(g: nat, n: nat)
    ensures NoBreak(TickLine(g, n))
  {
    assert !IsBreak('`') && !IsBreak('x');
  }

  lemma TickLineRun(g: nat, n: nat)
    ensures FenceRun(TickLine(g, n)) == if g >= 3 then Some((Ticks(g), Letters(n))) else None
  {
    var line := TickLine(g, n);
    assert !IsSpace('`') && !IsSpace('x');
    assert SpacesAt(line) == 0 && line[0..] == line;
    if g > 0 {
      assert forall i :: 0 <= i < g ==> line[i] == '`';
      assert n > 0 ==> line[g] == 'x';
      assert RunAt(line, '`') == g;
      assert line[0..g] == Ticks(g) && line[g..] == Letters(n);
    }
  }

  lemma TickLineFence(g: nat, n: nat)
    ensures OpenFence(TickLine(g, n) + "\n") == if g >= 3 then Ticks(g) else ""
  {
    TickLineUnbroken(g, n);
    TickLineRun(g, n);
    OneLine("", TickLine(g, n));
  }

  lemma TickLineStart(g: nat, n: nat, k: nat)
    requires k <= g + n
    ensures TickLine(g, n)[..k] == if k <= g then TickLine(k, 0) else TickLine(g, k - g)
  {
  }

  /** How many ticks the first `k` characters hold. */
  function TicksIn(g: nat, k: nat): nat { if k <= g then k else g }

  lemma StartFence(g: nat, n: nat, k: nat)
    requires k <= g + n
    ensures |OpenFence(TickLine(g, n)[..k] + "\n")| == if TicksIn(g, k) >= 3 then TicksIn(g, k) else 0
  {
    TickLineStart(g, n, k);
    if k <= g { TickLineFence(k, 0); } else { TickLineFence(g, k - g); }
  }

  lemma UnbrokenCut(body: string, limit: nat)
    requires 0 < limit <= |body| && NoBreak(body)
    ensures CutIndex(body, limit) == limit && TrimBreaks(body[..limit]) == body[..limit]
  {
    assert IsBreak('\n');
    forall i | 0 <= i < |body| ensures !OccursAt(body, BREAK, i) && !OccursAt(body, BLANK, i) {
      assert body[i] != '\n' && body[i..i + 1][0] == body[i];
      assert i + 2 <= |body| ==> body[i..i + 2][0] == body[i];
    }
  }

  lemma TickCut(g: nat, n: nat, limit: nat)
    requires 0 < limit <= g + n
    ensures |Cut(TickLine(g, n), limit)| == limit + 1 + if TicksIn(g, limit) >= 3 then TicksIn(g, limit) + 1 else 0
  {
    TickLineUnbroken(g, n);
    UnbrokenCut(TickLine(g, n), limit);
    StartFence(g, n, limit);
  }

  lemma TicksWithin(g: nat, n: nat, f: nat)
    requires g <= f || g < 3
    ensures FencesWithin(TickLine(g, n), f)
  {
    var body := TickLine(g, n);
    forall k | 0 <= k <= |body| ensures |OpenFence(body[..k] + "\n")| <= f { StartFence(g, n, k); }
  }

  // ---- Where there is none ----

  /** A first cut twice as long as its limit uses the limit up. */
  lemma UsedUp(cut: int -> string, max: int, footer: string)
    requires var limit := max - |footer|; limit <= 0 || |cut(limit)| >= 2 * limit
    ensures CutDown(cut, max, footer, max - |footer|) == None
  {
    var limit := max - |footer|;
    if limit > 0 { assert CutDown(cut, max, footer, limit - (|cut(limit)| - limit)) == None; }
  }

  lemma TicksRefused(g: nat, n: nat, max: int, footer: string)
    requires g + n > max
    requires var limit := max - |footer|; limit <= 1 || (3 <= limit <= g + 2 && g >= 3)
    ensures Truncated(TickLine(g, n), max, footer) == None
  {
    var body, limit := TickLine(g, n), max - |footer|;
    if limit > 0 { TickCut(g, n, limit); }
    UsedUp(Cuts(body), max, footer);
  }

  /** Notes may be refused although a cut at a lower limit fits. */
  lemma RefusedThoughFits(footer: string)
    ensures var body, max := TickLine(|footer| + 51, 0), |footer| + 50;
            Truncated(body, max, footer) == None && |Cut(body, 24) + footer| <= max
  {
    TicksRefused(|footer| + 51, 0, |footer| + 50, footer);
    TickCut(|footer| + 51, 0, 24);
  }

  // ---- Where there is enough ----

  lemma {:induction false} ShortLines(s: string)
    ensures forall i :: 0 <= i < |SplitLines(s + "\n")| ==> |SplitLines(s + "\n")[i]| <= |s|
    decreases |s|
  {
    if s == [] {
      LinesCons("", "");
      assert "" + "\n" + "" == s + "\n" && SplitLines("") == [];
    } else {
      assert (s + "\n")[0] == s[0] && (s + "\n")[1..] == s[1..] + "\n";
      ShortLines(s[1..]);
    }
  }

  /** Two characters open no fence. */
  lemma ShortFence(text: string)
    requires |text| <= 2
    ensures OpenFence(text + "\n") == ""
  {
    ShortLines(text);
    NoFences(SplitLines(text + "\n"));
  }

  lemma ShortCut(body: string, limit: nat)
    requires 0 < limit <= |body| && limit <= 2
    ensures |Cut(body, limit)| <= limit + 1
  {
    ShortFence(TrimBreaks(body[..CutIndex(body, limit)]));
  }

  /** Nor is there one where none is as long as three. */
  lemma UnfencedCut(body: string, limit: nat, f: nat)
    requires 0 < limit <= |body| && f < 3 && FencesWithin(body, f)
    ensures |Cut(body, limit)| <= limit + 1
  {
    var text := TrimBreaks(body[..CutIndex(body, limit)]);
    assert text == body[..|text|];
    OpenIsRun("", SplitLines(text + "\n"));
  }

  /** The room that every body with fences up to `f` gets by with. */
  predicate Room(max: int, footer: string, f: nat) {
    if f < 3 then max >= |footer| + 2 else max > |footer| + f + 2 || max == |footer| + 2
  }

  lemma RoomByOne(body: string, max: int, footer: string, f: nat, cut: int -> string)
    requires |body| > max >= |footer| + 2 && (f < 3 || max == |footer| + 2) && FencesWithin(body, f) &&
             CutsOf(cut, body)
    ensures CutDown(cut, max, footer, max - |footer|).Some?
  {
    var limit := max - |footer|;
    forall n | 0 < n <= limit ensures |cut(n)| <= n + 1 {
      assert cut(n) == Cut(body, n);
      if f < 3 { UnfencedCut(body, n, f); } else { ShortCut(body, n); }
    }
    LimitStays(cut, max, footer, limit, 1);
  }

  lemma RoomFits(body: string, max: int, footer: string, f: nat)
    requires Room(max, footer, f) && FencesWithin(body, f)
    ensures Truncated(body, max, footer).Some?
  {
    if f >= 3 && max != |footer| + 2 {
      RoomEnough(body, max, footer, f);
    } else if |body| > max {
      CutsAre(body);
      RoomByOne(body, max, footer, f, Cuts(body));
    }
  }

  // ---- Exactly then ----

  ghost predicate AlwaysFits(max: int, footer: string, f: nat) {
    forall body {:trigger FencesWithin(body, f)} :: FencesWithin(body, f) ==> Truncated(body, max, footer).Some?
  }

  /** No body with fences up to `f` is refused exactly when there is that room. */
  lemma RoomIff(max: int, footer: string, f: nat)
    ensures AlwaysFits(max, footer, f) <==> Room(max, footer, f)
  {
    if Room(max, footer, f) {
      forall body | FencesWithin(body, f) ensures Truncated(body, max, footer).Some? { RoomFits(body, max, footer, f); }
    } else {
      var g, n := if f < 3 then 0 else f, if max < 0 then 1 else max + 1;
      TicksWithin(g, n, f);
      TicksRefused(g, n, max, footer);
    }
  }
}
