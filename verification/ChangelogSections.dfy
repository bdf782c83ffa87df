/**
 * Level-2 sections of a changelog, as both tools find them: one pass that skips fenced code. A
 * changelog is also a sequence of parts, and the pass finds a part.
 */
module ChangelogSections {
  import opened Search
  import opened Texts

  type Lines = seq<string>

  const H2 := "## "

  /** A line that opens or closes a code fence: the tools toggle at each. */
  predicate IsFence(line: string) {
    var s := TrimLeft(line);
    "```" <= s || "~~~" <= s
  }

  predicate IsH2(line: string) { H2 <= line }

  lemma H2IsNoFence(line: string)
    requires IsH2(line)
    ensures !IsFence(line)
  {
    assert line[0] == H2[0];
  }

  /** Whether code is open after the lines, if it was before them. */
  function Open(lines: Lines, open: bool): bool {
    if lines == [] then open else Open(lines[1..], if IsFence(lines[0]) then !open else open)
  }

  /** No line outside code starts a section. */
  predicate NoHeading(lines: Lines, open: bool) {
    lines == [] || (if IsFence(lines[0]) then NoHeading(lines[1..], !open)
                    else (open || !IsH2(lines[0])) && NoHeading(lines[1..], open))
  }

  lemma {:induction false} OpenAppend(a: Lines, b: Lines, open: bool)
    ensures Open(a + b, open) == Open(b, Open(a, open))
    ensures NoHeading(a + b, open) <==> NoHeading(a, open) && NoHeading(b, Open(a, open))
    decreases |a|
  {
    if a == [] {
      assert a + b == b;
    } else {
      assert (a + b)[0] == a[0] && (a + b)[1..] == a[1..] + b;
      OpenAppend(a[1..], b, if IsFence(a[0]) then !open else open);
    }
  }

  // ---- The pass ----

  /** Where the first section whose heading satisfies `p` starts and ends, from line `i` on. */
  function Scan(lines: Lines, i: nat, open: bool, start: Option<nat>, p: string -> bool): Option<(nat, nat)>
    requires i <= |lines|
    decreases |lines| - i
  {
    if i == |lines| then (if start.Some? then Some((start.value, i)) else None)
    else if IsFence(lines[i]) then Scan(lines, i + 1, !open, start, p)
    else if open || !IsH2(lines[i]) then Scan(lines, i + 1, open, start, p)
    else if start.Some? then Some((start.value, i))
    else Scan(lines, i + 1, open, if p(lines[i]) then Some(i) else None, p)
  }

  /** The loop that both tools run. */
  method FindSection(lines: Lines, p: string -> bool) returns (r: Option<(nat, nat)>)
    ensures r == Scan(lines, 0, false, None, p)
  {
    var start: Option<nat> := None;
    var open := false;
    for i := 0 to |lines|
      invariant Scan(lines, i, open, start, p) == Scan(lines, 0, false, None, p)
    {
      if IsFence(lines[i]) {
        open := !open;
        continue;
      }
      if open || !IsH2(lines[i]) { continue; }
      if start.Some? { return Some((start.value, i)); }
      if p(lines[i]) { start := Some(i); }
    }
    r := if start.Some? then Some((start.value, |lines|)) else None;
  }

  // ---- Parts ----

  function Flat(parts: seq<Lines>): Lines {
    if parts == [] then [] else parts[0] + Flat(parts[1..])
  }

  lemma {:induction false} FlatAppend(a: seq<Lines>, b: seq<Lines>)
    ensures Flat(a + b) == Flat(a) + Flat(b)
    decreases |a|
  {
    if a == [] {
      assert a + b == b;
    } else {
      assert (a + b)[0] == a[0] && (a + b)[1..] == a[1..] + b;
      FlatAppend(a[1..], b);
    }
  }

  /** Lines that start no section and leave no code open. */
  predicate Plain(lines: Lines) { NoHeading(lines, false) && !Open(lines, false) }

  /** A section: its heading, then lines that start no other. */
  predicate IsSection(part: Lines) { part != [] && IsH2(part[0]) && NoHeading(part[1..], false) }

  predicate Closed(part: Lines) { part != [] && !Open(part[1..], false) }

  /** Sections in a row; only the last may leave code open. */
  ghost predicate Sections(parts: seq<Lines>) {
    && (forall i :: 0 <= i < |parts| ==> IsSection(parts[i]))
    && (forall i :: 0 <= i < |parts| - 1 ==> Closed(parts[i]))
  }

  /** Over lines that start no section, the pass only tracks fences. */
  lemma {:induction false} ScanPlain(lines: Lines, i: nat, n: nat, open: bool, start: Option<nat>, p: string -> bool)
    requires i + n <= |lines| && NoHeading(lines[i..i + n], open)
    ensures Scan(lines, i, open, start, p) == Scan(lines, i + n, Open(lines[i..i + n], open), start, p)
    decreases n
  {
    if n > 0 {
      var part := lines[i..i + n];
      assert part[0] == lines[i] && part[1..] == lines[i + 1..i + 1 + (n - 1)];
      ScanPlain(lines, i + 1, n - 1, if IsFence(lines[i]) then !open else open, start, p);
    }
  }

  /** Over a section, it stops at the section's end if it was looking for that, and starts there if the heading fits. */
  lemma ScanSection(lines: Lines, i: nat, part: Lines, p: string -> bool)
    requires IsSection(part) && i + |part| <= |lines| && lines[i..i + |part|] == part
    requires i + |part| < |lines| ==> Closed(part) && IsH2(lines[i + |part|])
    ensures Scan(lines, i, false, None, p) ==
            if p(part[0]) then Some((i, i + |part|))
            else if i + |part| == |lines| then None else Scan(lines, i + |part|, false, None, p)
  {
    assert lines[i] == part[0];
    H2IsNoFence(part[0]);
    var n := |part| - 1;
    assert lines[i + 1..i + 1 + n] == part[1..];
    var start: Option<nat> := if p(part[0]) then Some(i) else None;
    ScanPlain(lines, i + 1, n, false, start, p);
    if i + |part| < |lines| { H2IsNoFence(lines[i + |part|]); }
  }

  /** The first section whose heading fits, by index. */
  function First(parts: seq<Lines>, p: string -> bool): (k: nat)
    requires forall i :: 0 <= i < |parts| ==> parts[i] != []
    ensures k <= |parts| && (forall i :: 0 <= i < k ==> !p(parts[i][0])) && (k < |parts| ==> p(parts[k][0]))
  {
    if parts == [] || p(parts[0][0]) then 0 else 1 + First(parts[1..], p)
  }

  lemma SectionsTail(parts: seq<Lines>)
    requires Sections(parts) && parts != []
    ensures Sections(parts[1..]) && IsSection(parts[0])
    ensures parts[1..] != [] ==>
            Closed(parts[0]) && IsH2(parts[1..][0][0]) && Flat(parts[1..]) != [] &&
            Flat(parts[1..])[0] == parts[1..][0][0]
  {
    var rest := parts[1..];
    assert forall i :: 0 <= i < |rest| ==> rest[i] == parts[i + 1];
  }

  lemma FirstTail(parts: seq<Lines>, p: string -> bool)
    requires (forall i :: 0 <= i < |parts| ==> parts[i] != []) && parts != [] && !p(parts[0][0])
    ensures First(parts, p) == First(parts[1..], p) + 1
    ensures Flat(parts[..First(parts, p)]) == parts[0] + Flat(parts[1..][..First(parts[1..], p)])
  {
    var k := First(parts[1..], p);
    assert parts[..k + 1] == [parts[0]] + parts[1..][..k];
    assert parts[..k + 1][1..] == parts[1..][..k];
  }

  lemma LinesTail(lines: Lines, at: nat, part: Lines, rest: Lines)
    requires at <= |lines| && lines[at..] == part + rest
    ensures at + |part| <= |lines| && lines[at..at + |part|] == part && lines[at + |part|..] == rest
    ensures rest != [] ==> at + |part| < |lines| && lines[at + |part|] == rest[0]
  {
    assert lines[at..][..|part|] == part && lines[at..][|part|..] == rest;
  }

  /** From where to where the first section that fits lies, when the sections start at `at`. */
  function Bounds(parts: seq<Lines>, p: string -> bool, at: nat): Option<(nat, nat)> {
    if parts == [] then None
    else if parts[0] != [] && p(parts[0][0]) then Some((at, at + |parts[0]|))
    else Bounds(parts[1..], p, at + |parts[0]|)
  }

  lemma {:induction false} ScanSections(lines: Lines, at: nat, parts: seq<Lines>, p: string -> bool)
    requires Sections(parts) && at <= |lines| && lines[at..] == Flat(parts)
    ensures Scan(lines, at, false, None, p) == Bounds(parts, p, at)
    decreases |parts|
  {
    if parts != [] {
      SectionsTail(parts);
      LinesTail(lines, at, parts[0], Flat(parts[1..]));
      ScanSection(lines, at, parts[0], p);
      ScanSections(lines, at + |parts[0]|, parts[1..], p);
    }
  }

  lemma {:induction false} BoundsOfFirst(parts: seq<Lines>, p: string -> bool, at: nat)
    requires forall i :: 0 <= i < |parts| ==> parts[i] != []
    ensures var k := First(parts, p); var start := at + |Flat(parts[..k])|;
            Bounds(parts, p, at) == if k == |parts| then None else Some((start, start + |parts[k]|))
    decreases |parts|
  {
    if parts != [] && !p(parts[0][0]) {
      FirstTail(parts, p);
      BoundsOfFirst(parts[1..], p, at + |parts[0]|);
    }
  }

  lemma FlatTake(parts: seq<Lines>, k: nat)
    requires 1 <= k <= |parts|
    ensures |Flat(parts[..k])| == |parts[0]| + |Flat(parts[1..][..k - 1])|
  {
    assert parts[..k][0] == parts[0] && parts[..k][1..] == parts[1..][..k - 1];
  }

  /** The pass over a preamble and sections finds the first section that fits. */
  lemma ScanParts(lines: Lines, pre: Lines, parts: seq<Lines>, p: string -> bool, k: nat, at: nat)
    requires |pre| <= |lines| && lines[..|pre|] == pre && lines[|pre|..] == Flat(parts) && Plain(pre) && Sections(parts)
    requires k == First(parts, p) && at == |pre| + |Flat(parts[..k])|
    ensures Scan(lines, 0, false, None, p) == if k == |parts| then None else Some((at, at + |parts[k]|))
  {
    ScanFinds(lines, pre, parts, p);
    BoundsOfFirst(parts, p, |pre|);
  }

  lemma ScanFinds(lines: Lines, pre: Lines, parts: seq<Lines>, p: string -> bool)
    requires |pre| <= |lines| && lines[..|pre|] == pre && lines[|pre|..] == Flat(parts) && Plain(pre) && Sections(parts)
    ensures Scan(lines, 0, false, None, p) == Bounds(parts, p, |pre|)
  {
    ScanPreamble(lines, pre, p);
    ScanSections(lines, |pre|, parts, p);
  }

  lemma ScanPreamble(lines: Lines, pre: Lines, p: string -> bool)
    requires |pre| <= |lines| && lines[..|pre|] == pre && Plain(pre)
    ensures Scan(lines, 0, false, None, p) == Scan(lines, |pre|, false, None, p)
  {
    assert lines[0..0 + |pre|] == pre;
    ScanPlain(lines, 0, |pre|, false, None, p);
  }
}
