/** Links between versions: reading the [Unreleased] one, and moving it past a release. */
module CompareLinks {
  import opened Search
  import opened Texts

  /** `[Unreleased]: base/compare/prev...head` */
  datatype Link = Link(base: string, prev: string, head: string)

  const UNRELEASED := "[Unreleased]:"
  const COMPARE := "/compare/"
  const DOTS := "..."

  /** A link line's parts: the base is as long as it can be, and what starts the range as short. */
  function ParseLink(line: string): Option<Link> {
    if |line| < |UNRELEASED| || !PrefixNoCase(UNRELEASED, line) then None
    else ParseTarget(TrimRight(TrimLeft(line[|UNRELEASED|..])))
  }

  function ParseTarget(body: string): Option<Link> { if NoSpace(body) then LastRange(body, |body|) else None }

  /** The ends of a range: text, the first dots that some text precedes, and more text. */
  function RangeOf(range: string): Option<(string, string)> {
    var j := Find(range, DOTS, 1);
    if j < 0 || j + |DOTS| >= |range| then None else Some((range[..j], range[j + |DOTS|..]))
  }

  /** A `/compare/` at `i`, in any case. */
  predicate CompareAt(body: string, i: nat) { i + |COMPARE| <= |body| && PrefixNoCase(COMPARE, body[i..]) }

  /** One with a range after it. */
  predicate RangeAt(body: string, i: nat) { CompareAt(body, i) && RangeOf(body[i + |COMPARE|..]).Some? }

  function LinkAt(body: string, i: nat): Link
    requires RangeAt(body, i)
  {
    var range := RangeOf(body[i + |COMPARE|..]).value;
    Link(body[..i], range.0, range.1)
  }

  /** The link at the last such place up to `i`. */
  function LastRange(body: string, i: nat): Option<Link> {
    if i == 0 then None else if RangeAt(body, i) then Some(LinkAt(body, i)) else LastRange(body, i - 1)
  }

  function Target(base: string, a: string, b: string): string { base + COMPARE + a + DOTS + b }

  function UnreleasedLine(link: Link): string { UNRELEASED + " " + Target(link.base, link.prev, link.head) }

  function VersionLine(version: string, base: string, prev: string, tag: string): string {
    "[" + version + "]: " + Target(base, prev, tag)
  }

  /** The version's tag, spelt like the previous one. */
  function Tag(prev: string, version: string): string { if "v" <= prev then "v" + version else version }

  // ---- Reading what was written ----

  /** Text that a link's base and head may be: no later `/compare/` in the head has a range. */
  ghost predicate GoodEnds(base: string, head: string) {
    base != [] && head != [] && NoSpace(base) && NoSpace(head) &&
    forall i {:trigger RangeAt(head, i)} :: i >= 0 ==> !RangeAt(head, i)
  }

  predicate GoodTag(tag: string) { tag != [] && NoSpace(tag) && '/' !in tag }

  /** The dots after the tag are the first in it, its own first character aside. */
  predicate DotsApart(tag: string) { forall i :: 1 <= i < |tag| ==> !OccursAt(tag + DOTS, DOTS, i) }

  lemma {:induction false} LastRangeIs(body: string, n: nat, i: nat)
    requires 1 <= i <= n && RangeAt(body, i) && forall j {:trigger RangeAt(body, j)} :: i < j <= n ==> !RangeAt(body, j)
    ensures LastRange(body, n) == Some(LinkAt(body, i))
    decreases n
  {
    if i < n {
      assert !RangeAt(body, n);
      LastRangeIs(body, n - 1, i);
    }
  }

  lemma {:induction false} LastRangeAt(body: string, n: nat) returns (i: nat)
    requires LastRange(body, n).Some?
    ensures 1 <= i <= n && RangeAt(body, i) && LastRange(body, n) == Some(LinkAt(body, i))
    ensures forall j {:trigger RangeAt(body, j)} :: i < j <= n ==> !RangeAt(body, j)
    decreases n
  {
    if RangeAt(body, n) { i := n; } else { i := LastRangeAt(body, n - 1); }
  }

  lemma OccursHere<T>(a: seq<T>, pat: seq<T>, b: seq<T>)
    ensures OccursAt(a + pat + b, pat, |a|)
  {
    assert (a + pat + b)[|a|..|a| + |pat|] == pat;
  }

  lemma CompareHere(base: string, range: string)
    ensures CompareAt(base + COMPARE + range, |base|)
  {
    assert (base + COMPARE + range)[|base|..] == COMPARE + range;
    PrefixIff(COMPARE, COMPARE + range);
  }

  lemma CompareInTail(body: string, at: nat, k: nat)
    requires at <= |body|
    ensures CompareAt(body[at..], k) <==> CompareAt(body, at + k)
  {
    assert at + k <= |body| ==> body[at..][k..] == body[at + k..];
  }

  /** A later place in a link's text is one in its head. */
  lemma RangeInHead(body: string, at: nat, head: string, j: nat)
    requires at <= |body| && body[at..] == head && j >= at && RangeAt(body, j)
    ensures RangeAt(head, j - at)
  {
    CompareInTail(body, at, j - at);
    assert head[j - at + |COMPARE|..] == body[j + |COMPARE|..];
  }

  /** No `/compare/` with a range starts after the one that ends the base. */
  lemma LastCompare(base: string, tag: string, head: string, body: string)
    requires GoodEnds(base, head) && GoodTag(tag) && body == Target(base, tag, head)
    ensures forall j {:trigger RangeAt(body, j)} :: |base| < j <= |body| ==> !RangeAt(body, j)
  {
    var at := |base| + |COMPARE| + |tag| + |DOTS|;
    assert body[at..] == head;
    forall j | |base| < j <= |body| ensures !RangeAt(body, j) {
      if j < at { NoCompareBetween(base, tag, head, j); } else if RangeAt(body, j) { RangeInHead(body, at, head, j); }
    }
  }

  lemma OtherCompare(body: string, j: nat, k: nat)
    requires k < |COMPARE| && j + k < |body| && Lower(body[j + k]) != Lower(COMPARE[k])
    ensures !CompareAt(body, j)
  {
    assert body[j..][k] == body[j + k];
    PrefixIff(COMPARE, body[j..]);
  }

  lemma NoCompareBetween(base: string, tag: string, head: string, j: nat)
    requires GoodTag(tag)
    requires |base| < j < |base| + |COMPARE| + |tag| + |DOTS|
    ensures !CompareAt(Target(base, tag, head), j)
  {
    var body := Target(base, tag, head);
    var s := |base| + |COMPARE|;
    if j < s - 1 {
      assert body[j] == COMPARE[j - |base|];
      OtherCompare(body, j, 0);
    } else if j == s - 1 {
      CompareBeforeTag(body, s, tag);
    } else {
      assert body[j] == if j < s + |tag| then tag[j - s] else '.';
      OtherCompare(body, j, 0);
    }
  }

  lemma CompareBeforeTag(body: string, s: nat, tag: string)
    requires 0 < s && s + |tag| < |body| && body[s..s + |tag|] == tag && body[s + |tag|] == '.' && '/' !in tag
    ensures !CompareAt(body, s - 1)
  {
    var d := if |tag| > 7 then 7 else |tag|;
    assert d < |tag| ==> body[s + d] == body[s..s + |tag|][d];
    assert body[s + d] == if d < |tag| then tag[d] else '.';
    OtherCompare(body, s - 1, 1 + d);
  }

  /**
   * The first dots after a tag, from its second character on, are where it ends exactly when its own don't come
   * first.
   */
  lemma FirstDots(tag: string, head: string)
    requires tag != []
    ensures Find(tag + DOTS + head, DOTS, 1) == |tag| <==> DotsApart(tag)
    ensures 1 <= Find(tag + DOTS + head, DOTS, 1) <= |tag|
  {
    var range, n := tag + DOTS + head, |tag| + |DOTS|;
    OccursHere(tag, DOTS, head);
    assert range[0..n] == tag + DOTS;
    var j := Find(range, DOTS, 1);
    if j < |tag| {
      OccursInSlice(range, 0, n, DOTS, j);
    } else {
      forall i | 1 <= i < |tag| ensures !OccursAt(tag + DOTS, DOTS, i) {
        if OccursAt(tag + DOTS, DOTS, i) { OccursFromSlice(range, 0, n, DOTS, i); }
      }
    }
  }

  /** What a written target is read as: the range ends at its first dots. */
  lemma ReadTarget(base: string, tag: string, head: string, range: string)
    requires GoodEnds(base, head) && GoodTag(tag) && range == tag + DOTS + head
    ensures RangeOf(range).Some?
    ensures ParseTarget(Target(base, tag, head)) == Some(Link(base, RangeOf(range).value.0, RangeOf(range).value.1))
    ensures RangeOf(range) == Some((tag, head)) <==> DotsApart(tag)
    ensures RangeOf(range).value.0 == tag <==> DotsApart(tag)
  {
    var body := Target(base, tag, head);
    assert body == base + COMPARE + range;
    CompareHere(base, range);
    assert body[..|base|] == base && body[|base| + |COMPARE|..] == range;
    RangeEnds(tag, head, range);
    LastCompare(base, tag, head, body);
    LastRangeIs(body, |body|, |base|);
    TargetUnspaced(base, tag, head);
  }

  lemma RangeEnds(tag: string, head: string, range: string)
    requires tag != [] && head != [] && range == tag + DOTS + head
    ensures RangeOf(range).Some?
    ensures RangeOf(range) == Some((tag, head)) <==> DotsApart(tag)
    ensures RangeOf(range).value.0 == tag <==> DotsApart(tag)
  {
    FirstDots(tag, head);
    assert range[..|tag|] == tag && range[|tag| + |DOTS|..] == head;
  }

  lemma PrintableUnspaced(c: char)
    requires '!' <= c <= '~'
    ensures !IsSpace(c)
  {
  }

  lemma TargetUnspaced(base: string, tag: string, head: string)
    requires NoSpace(base) && NoSpace(tag) && NoSpace(head)
    ensures NoSpace(Target(base, tag, head))
  {
    var body, s := Target(base, tag, head), |base| + |COMPARE|;
    var e := s + |tag| + |DOTS|;
    forall i | 0 <= i < |body| ensures !IsSpace(body[i]) {
      if i < |base| {
        assert body[i] == base[i];
      } else if i < s {
        assert body[i] == COMPARE[i - |base|] && '!' <= COMPARE[i - |base|] <= '~';
        PrintableUnspaced(body[i]);
      } else if i < s + |tag| {
        assert body[i] == tag[i - s];
      } else if i < e {
        assert body[i] == '.';
        PrintableUnspaced(body[i]);
      } else {
        assert body[i] == head[i - e];
      }
    }
  }

  lemma LineTarget(link: Link, line: string, target: string)
    requires line == UnreleasedLine(link) && target == Target(link.base, link.prev, link.head) && target != []
    requires !IsSpace(target[0]) && !IsSpace(target[|target| - 1])
    ensures ParseLink(line) == ParseTarget(target)
  {
    PrefixIff(UNRELEASED, line);
    assert line[..|UNRELEASED|] == UNRELEASED && line[|UNRELEASED|..] == " " + target;
    assert (" " + target)[1..] == target;
    assert TrimLeft(" " + target) == target;
  }

  /** The same for a whole line. */
  lemma ReadLine(base: string, tag: string, head: string, range: string)
    requires GoodEnds(base, head) && GoodTag(tag) && range == tag + DOTS + head
    ensures RangeOf(range).Some?
    ensures ParseLink(UnreleasedLine(Link(base, tag, head))) ==
            Some(Link(base, RangeOf(range).value.0, RangeOf(range).value.1))
    ensures RangeOf(range) == Some((tag, head)) <==> DotsApart(tag)
    ensures RangeOf(range).value.0 == tag <==> DotsApart(tag)
  {
    var target := Target(base, tag, head);
    assert target[0] == base[0] && target[|target| - 1] == head[|head| - 1];
    LineTarget(Link(base, tag, head), UnreleasedLine(Link(base, tag, head)), target);
    ReadTarget(base, tag, head, range);
  }

  /** A written link line reads back exactly when the tag's own dots don't come first. */
  lemma ReadUnreleased(base: string, tag: string, head: string)
    requires GoodEnds(base, head) && GoodTag(tag)
    ensures ParseLink(UnreleasedLine(Link(base, tag, head))) == Some(Link(base, tag, head)) <==> DotsApart(tag)
  {
    ReadLine(base, tag, head, tag + DOTS + head);
  }

  /** What is read has ends that can be written again. */
  lemma ParsedEnds(line: string)
    requires ParseLink(line).Some?
    ensures var link := ParseLink(line).value; GoodEnds(link.base, link.head) && link.prev != []
  {
    TargetEnds(TrimRight(TrimLeft(line[|UNRELEASED|..])));
  }

  lemma TargetEnds(body: string)
    requires ParseTarget(body).Some?
    ensures var link := ParseTarget(body).value; GoodEnds(link.base, link.head) && link.prev != []
  {
    var i := LastRangeAt(body, |body|);
    var link := LinkAt(body, i);
    var at := |body| - |link.head|;
    assert body[at..] == link.head;
    forall k | k >= 0 ensures !RangeAt(link.head, k) {
      if RangeAt(link.head, k) { RangeFromHead(body, at, link.head, k); }
    }
  }

  lemma RangeFromHead(body: string, at: nat, head: string, k: nat)
    requires at <= |body| && body[at..] == head && RangeAt(head, k)
    ensures RangeAt(body, at + k)
  {
    assert body[at..|body|] == head;
    CompareInTail(body, at, k);
    assert head[k + |COMPARE|..] == body[at + k + |COMPARE|..];
  }

  // ---- Moving the link past a release ----

  type Lines = seq<string>

  predicate HasVersion(lines: Lines, version: string) {
    exists i :: 0 <= i < |lines| && PrefixNoCase("[" + version + "]:", lines[i])
  }

  function FirstLink(lines: Lines): (i: nat)
    ensures i <= |lines|
  {
    if lines == [] || ParseLink(lines[0]).Some? then 0 else 1 + FirstLink(lines[1..])
  }

  function Moved(link: Link, version: string): Lines {
    var tag := Tag(link.prev, version);
    [UnreleasedLine(Link(link.base, tag, link.head)), VersionLine(version, link.base, link.prev, tag)]
  }

  /** What stands for a link line after the version is released. */
  function MovedLine(line: string, version: string): Lines {
    match ParseLink(line)
    case Some(link) => Moved(link, version)
    case None => [line]
  }

  /** Point the [Unreleased] link past the version and add the version's. */
  function UpdateLinks(lines: Lines, version: string): Lines {
    var i := FirstLink(lines);
    if HasVersion(lines, version) || i == |lines| then lines
    else lines[..i] + MovedLine(lines[i], version) + lines[i + 1..]
  }

  lemma {:induction false} FirstLinkFacts(lines: Lines, j: nat)
    requires j < |lines| && j <= FirstLink(lines)
    ensures ParseLink(lines[j]).Some? <==> j == FirstLink(lines)
    decreases |lines|
  {
    if j > 0 && ParseLink(lines[0]).None? { FirstLinkFacts(lines[1..], j - 1); }
  }

  /** A line that is not a link: it does not start with a bracket. */
  predicate NoBracket(line: string) { line == [] || line[0] != '[' }

  lemma NoBracketNoLink(line: string)
    requires NoBracket(line)
    ensures ParseLink(line).None?
  {
    assert UNRELEASED[0] == '[';
  }
}
