/**
 * The strict reader of guides: one pass that returns the only fence of a language, under a profile
 * of Markdown whose fences follow section 4.5 of CommonMark. `Grammar` says what a guide is as a
 * sequence of blocks; `Extract` is the pass, and the two agree.
 */
module GuideSample {
  import opened ByteStrings
  import opened Search

  const TICK: byte := 96
  const TILDE: byte := 126
  const SPACE: byte := 32
  const TAB: byte := 9
  const LF: byte := 10
  const CR: byte := 13
  /** "---", "...", "+++", ":::" and the byte order mark. */
  const DASHES: Bytes := [45, 45, 45]
  const DOTS: Bytes := [46, 46, 46]
  const PLUSES: Bytes := [43, 43, 43]
  const COLONS: Bytes := [58, 58, 58]
  const BOM: Bytes := [0xef, 0xbb, 0xbf]

  // ---- Bytes of a line ----

  predicate Horizontal(b: byte) { b == SPACE || b == TAB }

  predicate Blank(s: Bytes) { forall i :: 0 <= i < |s| ==> Horizontal(s[i]) }

  predicate Whitespace(b: byte) { Horizontal(b) || b == LF || b == CR || b == 12 }

  predicate AllWhitespace(s: Bytes) { forall i :: 0 <= i < |s| ==> Whitespace(s[i]) }

  predicate Digit(b: byte) { 48 <= b <= 57 }

  predicate Letter(b: byte) { 65 <= b <= 90 || 97 <= b <= 122 }

  predicate TokenByte(b: byte) { Digit(b) || Letter(b) || b == 95 || b == 45 || b == 43 }

  function Lower(b: byte): byte { if 65 <= b <= 90 then b + 32 else b }

  predicate EqIgnoreCase(a: Bytes, b: Bytes) {
    |a| == |b| && forall i :: 0 <= i < |a| ==> Lower(a[i]) == Lower(b[i])
  }

  /** How many bytes equal to `b` the line starts with. */
  function Run(line: Bytes, b: byte): (n: nat)
    ensures n <= |line|
  {
    if line == [] || line[0] != b then 0 else 1 + Run(line[1..], b)
  }

  function Digits(line: Bytes): (n: nat)
    ensures n <= |line| && (n > 0 ==> Digit(line[0]))
  {
    if line == [] || !Digit(line[0]) then 0 else 1 + Digits(line[1..])
  }

  function TrimLeft(s: Bytes): (r: Bytes)
    ensures |r| <= |s|
  {
    if s != [] && Horizontal(s[0]) then TrimLeft(s[1..]) else s
  }

  function TrimRight(s: Bytes): (r: Bytes)
    ensures |r| <= |s|
  {
    if s != [] && Horizontal(s[|s| - 1]) then TrimRight(s[..|s| - 1]) else s
  }

  function Trim(s: Bytes): Bytes { TrimRight(TrimLeft(s)) }

  /** Where the first token of `s` ends. */
  function TokenEnd(s: Bytes): (n: nat)
    ensures n <= |s|
  {
    if s == [] || Horizontal(s[0]) then 0 else 1 + TokenEnd(s[1..])
  }

  /** The line without its ending. */
  function Marker(line: Bytes): Bytes {
    var m := if line != [] && line[|line| - 1] == LF then line[..|line| - 1] else line;
    if m != [] && m[|m| - 1] == CR then m[..|m| - 1] else m
  }

  // ---- Fences ----

  datatype Fence = Fence(kind: byte, width: nat, wanted: bool)

  function Delimiter(line: Bytes): Option<(byte, nat, Bytes)> {
    if line == [] || (line[0] != TICK && line[0] != TILDE) then None
    else
      var width := Run(line, line[0]);
      if width >= 3 then Some((line[0], width, line[width..])) else None
  }

  predicate Closes(line: Bytes, fence: Fence) {
    var indent := Run(line, SPACE);
    indent <= 3 &&
    match Delimiter(line[indent..])
    case None => false
    case Some((kind, width, rest)) => kind == fence.kind && width >= fence.width && Blank(rest)
  }

  /** Containers, HTML and definitions that the profile refuses outside fences. */
  predicate UnsupportedContext(line: Bytes) {
    !Blank(line) &&
    var digits := Digits(line);
    || Horizontal(line[0])
    || ((line[0] == 45 || line[0] == 43 || line[0] == 42) && (|line| == 1 || Horizontal(line[1])))
    || (digits > 0 && digits < |line| && (line[digits] == 46 || line[digits] == 41)
        && (|line| == digits + 1 || Horizontal(line[digits + 1])))
    || (line[0] == 91 && (Find(line, [93, 58], 0) >= 0 || Find(line, [93, 40], 0) < 0))
    || line[0] == 62
    || COLONS <= line || DASHES <= line || PLUSES <= line
    || 60 in line
  }

  datatype Opening = NotFence | Refused | Opens(fence: Fence)

  /** What a line outside fences and front matter opens. */
  function Open(line: Bytes, language: Bytes): Opening {
    match Delimiter(line)
    case None => NotFence
    case Some((kind, width, info)) =>
      if kind == TICK && TICK in info then Refused
      else
        var info := Trim(info);
        var end := TokenEnd(info);
        if exists i :: 0 <= i < end && !TokenByte(info[i]) then Refused
        else
          var wanted := EqIgnoreCase(info[..end], language);
          if wanted && Trim(info[end..]) != [] then Refused else Opens(Fence(kind, width, wanted))
  }

  // ---- The grammar ----

  datatype Block = Text(line: Bytes)
                 | Fenced(opener: Bytes, content: seq<Bytes>, closer: Bytes)
                 | Front(opener: Bytes, content: seq<Bytes>, closer: Bytes)

  function BlockLines(b: Block): seq<Bytes> {
    match b
    case Text(line) => [line]
    case Fenced(opener, content, closer) => [opener] + content + [closer]
    case Front(opener, content, closer) => [opener] + content + [closer]
  }

  function AllLines(blocks: seq<Block>): seq<Bytes> {
    if blocks == [] then [] else BlockLines(blocks[0]) + AllLines(blocks[1..])
  }

  function Concat(lines: seq<Bytes>): Bytes {
    if lines == [] then [] else lines[0] + Concat(lines[1..])
  }

  ghost predicate IsText(b: Block, language: Bytes) {
    b.Text? && !UnsupportedContext(Marker(b.line)) && Open(Marker(b.line), language) == NotFence
  }

  ghost predicate StaysOpen(content: seq<Bytes>, fence: Fence) {
    forall i {:trigger Closes(Marker(content[i]), fence)} :: 0 <= i < |content| ==> !Closes(Marker(content[i]), fence)
  }

  /** A fence's content is anything that does not close it. */
  ghost predicate IsFenced(b: Block, language: Bytes) {
    && b.Fenced? && !UnsupportedContext(Marker(b.opener))
    && var opening := Open(Marker(b.opener), language);
       && opening.Opens?
       && StaysOpen(b.content, opening.fence)
       && Closes(Marker(b.closer), opening.fence)
  }

  predicate FrontEnd(line: Bytes) { DASHES <= Marker(line) || DOTS <= Marker(line) }

  ghost predicate IsFront(b: Block) {
    && b.Front? && Marker(b.opener) == DASHES && Marker(b.closer) == DASHES
    && forall i {:trigger FrontEnd(b.content[i])} :: 0 <= i < |b.content| ==> !FrontEnd(b.content[i])
  }

  ghost predicate IsBlock(b: Block, language: Bytes) { IsText(b, language) || IsFenced(b, language) }

  ghost predicate Body(blocks: seq<Block>, language: Bytes) {
    forall i {:trigger IsBlock(blocks[i], language)} :: 0 <= i < |blocks| ==> IsBlock(blocks[i], language)
  }

  /** The lines are these blocks: front matter at most at the start, then text and fences. */
  ghost predicate Grammar(lines: seq<Bytes>, blocks: seq<Block>, language: Bytes) {
    lines == AllLines(blocks) && Guide(blocks, language)
  }

  ghost predicate Guide(blocks: seq<Block>, language: Bytes) {
    Body(blocks, language) || (blocks != [] && IsFront(blocks[0]) && Body(blocks[1..], language))
  }

  predicate IsWanted(b: Block, language: Bytes) {
    b.Fenced? && Open(Marker(b.opener), language).Opens? && Open(Marker(b.opener), language).fence.wanted
  }

  /** One fence of the language, with something in it, whose bytes are `content`. */
  ghost predicate Sole(blocks: seq<Block>, language: Bytes, content: Bytes) {
    exists k :: 0 <= k < |blocks| && IsSole(blocks, language, k) && content == Concat(blocks[k].content) &&
      !AllWhitespace(content)
  }

  ghost predicate IsSole(blocks: seq<Block>, language: Bytes, k: nat) {
    && k < |blocks| && IsWanted(blocks[k], language)
    && forall i :: 0 <= i < |blocks| && i != k ==> !IsWanted(blocks[i], language)
  }

  // ---- The pass, step by step ----

  /**
   * Where the pass is: at the first line, outside, in front matter, or in a fence whose content so far is
   * `content`.
   */
  datatype Mode = Start | Outside | InFront | Inside(fence: Fence, content: Bytes)

  datatype State = State(mode: Mode, seen: bool, found: Option<Bytes>)

  function Step(s: State, line: Bytes, language: Bytes): Option<State> {
    var m := Marker(line);
    if s.mode.Start? && m == DASHES then Some(s.(mode := InFront))
    else match s.mode
      case InFront =>
        if m == DASHES then Some(s.(mode := Outside)) else if FrontEnd(line) then None else Some(s)
      case Inside(fence, content) =>
        if !Closes(m, fence) then Some(s.(mode := Inside(fence, content + line)))
        else if !fence.wanted then Some(s.(mode := Outside))
        else if AllWhitespace(content) then None
        else Some(s.(mode := Outside, found := Some(content)))
      case _ =>
        if UnsupportedContext(m) then None
        else match Open(m, language)
          case NotFence => Some(s.(mode := Outside))
          case Refused => None
          case Opens(fence) =>
            if fence.wanted && s.seen then None
            else Some(State(Inside(fence, []), s.seen || fence.wanted, s.found))
  }

  function Pass(s: State, lines: seq<Bytes>, language: Bytes): Option<Bytes>
    decreases |lines|
  {
    if lines == [] then (if s.mode.InFront? || s.mode.Inside? then None else s.found)
    else match Step(s, lines[0], language)
      case None => None
      case Some(next) => Pass(next, lines[1..], language)
  }

  const INITIAL := State(Start, false, None)

  // ---- The pass refines the grammar ----

  /** The first line from `i` on that closes the fence. */
  function Closer(lines: seq<Bytes>, fence: Fence, i: nat): (j: nat)
    requires i <= |lines|
    ensures i <= j <= |lines|
    decreases |lines| - i
  {
    if i == |lines| || Closes(Marker(lines[i]), fence) then i else Closer(lines, fence, i + 1)
  }

  /** Up to it, the first closer stays the same. */
  lemma {:induction false} CloserStays(lines: seq<Bytes>, fence: Fence, i: nat, k: nat)
    requires i <= k <= |lines| && k <= Closer(lines, fence, i)
    ensures Closer(lines, fence, k) == Closer(lines, fence, i)
    decreases k - i
  {
    if i < k { CloserStays(lines, fence, i + 1, k); }
  }

  lemma CloserIsFirst(lines: seq<Bytes>, fence: Fence, i: nat, k: nat)
    requires i <= k < |lines| && k <= Closer(lines, fence, i)
    ensures Closes(Marker(lines[k]), fence) <==> k == Closer(lines, fence, i)
  {
    CloserStays(lines, fence, i, k);
  }

  lemma PassFrom(s: State, lines: seq<Bytes>, i: nat, language: Bytes)
    requires i < |lines|
    ensures Pass(s, lines[i..], language) ==
            match Step(s, lines[i], language) {
              case None => None
              case Some(next) => Pass(next, lines[i + 1..], language)
            }
  {
    assert lines[i..][0] == lines[i] && lines[i..][1..] == lines[i + 1..];
  }

  /** Where the closing of a fence leaves the pass. */
  function AfterFence(s: State, fence: Fence, content: Bytes): Option<State> {
    if !fence.wanted then Some(State(Outside, s.seen, s.found))
    else if AllWhitespace(content) then None
    else Some(State(Outside, s.seen, Some(content)))
  }

  lemma StepInside(s: State, line: Bytes, language: Bytes)
    requires s.mode.Inside?
    ensures Step(s, line, language) ==
            if Closes(Marker(line), s.mode.fence) then AfterFence(s, s.mode.fence, s.mode.content)
            else Some(s.(mode := Inside(s.mode.fence, s.mode.content + line)))
  {
  }

  lemma ConcatSlice(lines: seq<Bytes>, i: nat, j: nat, content: Bytes)
    requires i < j <= |lines|
    ensures (content + lines[i]) + Concat(lines[i + 1..j]) == content + Concat(lines[i..j])
  {
    assert lines[i..j][0] == lines[i] && lines[i..j][1..] == lines[i + 1..j];
    assert Concat(lines[i..j]) == lines[i] + Concat(lines[i + 1..j]);
  }

  /**
   * What the pass gives from a line inside a fence, given the content up to the closer at `j` and the state
   * around it.
   */
  function FromInside(outside: State, fence: Fence, lines: seq<Bytes>, j: nat, content: Bytes,
                      language: Bytes): Option<Bytes>
    requires j <= |lines|
  {
    if j == |lines| then None
    else match AfterFence(outside, fence, content)
      case None => None
      case Some(next) => Pass(next, lines[j + 1..], language)
  }

  /** Inside a fence, the pass goes to its closer and takes up what lies between. */
  lemma {:induction false} InsideFence(s: State, lines: seq<Bytes>, i: nat, j: nat, language: Bytes)
    requires s.mode.Inside? && i <= |lines| && j == Closer(lines, s.mode.fence, i)
    ensures Pass(s, lines[i..], language) ==
            FromInside(s.(mode := Outside), s.mode.fence, lines, j, s.mode.content + Concat(lines[i..j]), language)
    decreases |lines| - i
  {
    if i < j {
      CloserStays(lines, s.mode.fence, i, i + 1);
      var next := TakesLine(s, lines, i, language);
      InsideFence(next, lines, i + 1, j, language);
      ConcatSlice(lines, i, j, s.mode.content);
    } else {
      assert lines[i..j] == [] && s.mode.content + Concat(lines[i..j]) == s.mode.content;
      AtCloser(s, lines, i, language);
    }
  }

  lemma TakesLine(s: State, lines: seq<Bytes>, i: nat, language: Bytes) returns (next: State)
    requires s.mode.Inside? && i < |lines| && i < Closer(lines, s.mode.fence, i)
    ensures next == s.(mode := Inside(s.mode.fence, s.mode.content + lines[i]))
    ensures Pass(s, lines[i..], language) == Pass(next, lines[i + 1..], language)
  {
    next := s.(mode := Inside(s.mode.fence, s.mode.content + lines[i]));
    CloserIsFirst(lines, s.mode.fence, i, i);
    PassFrom(s, lines, i, language);
    StepInside(s, lines[i], language);
  }

  lemma AtCloser(s: State, lines: seq<Bytes>, i: nat, language: Bytes)
    requires s.mode.Inside? && i <= |lines| && i == Closer(lines, s.mode.fence, i)
    ensures Pass(s, lines[i..], language) ==
            FromInside(s.(mode := Outside), s.mode.fence, lines, i, s.mode.content, language)
  {
    if i < |lines| {
      CloserIsFirst(lines, s.mode.fence, i, i);
      PassFrom(s, lines, i, language);
      StepInside(s, lines[i], language);
    }
  }

  /** From a line that opens a fence, over its content to the closer. */
  lemma PassOpened(s: State, lines: seq<Bytes>, next: State, j: nat, content: Bytes, language: Bytes)
    requires lines != [] && Step(s, lines[0], language) == Some(next) && next.mode.Inside? && next.mode.content == []
    requires j == Closer(lines, next.mode.fence, 1) && content == Concat(lines[1..j])
    ensures Pass(s, lines, language) == FromInside(next.(mode := Outside), next.mode.fence, lines, j, content, language)
  {
    InsideFence(next, lines, 1, j, language);
    assert [] + content == content;
  }

  lemma StepOpens(s: State, line: Bytes, language: Bytes, fence: Fence)
    requires (s.mode.Outside? || (s.mode.Start? && Marker(line) != DASHES)) &&
             Open(Marker(line), language) == Opens(fence)
    ensures Step(s, line, language) ==
            if UnsupportedContext(Marker(line)) || (fence.wanted && s.seen) then None
            else Some(State(Inside(fence, []), s.seen || fence.wanted, s.found))
  {
  }

  /** What a sequence of blocks gives, from a state outside fences. */
  function Give(blocks: seq<Block>, language: Bytes, seen: bool, found: Option<Bytes>): Option<Bytes> {
    if blocks == [] then found
    else if !IsWanted(blocks[0], language) then Give(blocks[1..], language, seen, found)
    else if seen || AllWhitespace(Concat(blocks[0].content)) then None
    else Give(blocks[1..], language, true, Some(Concat(blocks[0].content)))
  }

  lemma AllLinesCons(b: Block, blocks: seq<Block>)
    ensures AllLines([b] + blocks) == BlockLines(b) + AllLines(blocks)
  {
    assert ([b] + blocks)[1..] == blocks;
  }

  lemma BlockShape(opener: Bytes, content: seq<Bytes>, closer: Bytes, rest: seq<Bytes>)
    ensures var lines := [opener] + content + [closer] + rest; var n := |content| + 1;
            && lines[0] == opener && lines[n] == closer && lines[1..n] == content && lines[n + 1..] == rest
            && forall k :: 1 <= k < n ==> lines[k] == content[k - 1]
  {
  }

  lemma CloserIs(lines: seq<Bytes>, fence: Fence, i: nat, j: nat)
    requires i <= j < |lines| && Closes(Marker(lines[j]), fence)
    requires forall k {:trigger Closes(Marker(lines[k]), fence)} :: i <= k < j ==> !Closes(Marker(lines[k]), fence)
    ensures Closer(lines, fence, i) == j
  {
    var c := Closer(lines, fence, i);
    CloserIsFirst(lines, fence, i, if c < j then c else j);
  }

  /** The closer of a fenced block is the first line after its opener that closes it. */
  lemma FencedCloser(b: Block, rest: seq<Bytes>, language: Bytes)
    requires IsFenced(b, language)
    ensures Closer(BlockLines(b) + rest, Open(Marker(b.opener), language).fence, 1) == |b.content| + 1
  {
    var lines, fence := BlockLines(b) + rest, Open(Marker(b.opener), language).fence;
    BlockShape(b.opener, b.content, b.closer, rest);
    forall k | 1 <= k < |b.content| + 1 ensures !Closes(Marker(lines[k]), fence) {
      assert !Closes(Marker(b.content[k - 1]), fence);
    }
    CloserIs(lines, fence, 1, |b.content| + 1);
  }

  /** Along a fenced block, the pass takes its content. */
  lemma PassFenced(b: Block, rest: seq<Bytes>, language: Bytes, s: State)
    requires IsFenced(b, language) && (s.mode.Outside? || (s.mode.Start? && Marker(b.opener) != DASHES))
    ensures Pass(s, BlockLines(b) + rest, language) ==
            if !IsWanted(b, language) then Pass(State(Outside, s.seen, s.found), rest, language)
            else if s.seen || AllWhitespace(Concat(b.content)) then None
            else Pass(State(Outside, true, Some(Concat(b.content))), rest, language)
  {
    var lines := BlockLines(b) + rest;
    var fence := Open(Marker(b.opener), language).fence;
    FencedCloser(b, rest, language);
    BlockShape(b.opener, b.content, b.closer, rest);
    StepOpens(s, b.opener, language, fence);
    assert lines[0] == b.opener && !UnsupportedContext(Marker(b.opener));
    PassFencedLines(lines, fence, |b.content| + 1, Concat(b.content), rest, language, s);
  }

  lemma PassFencedLines(lines: seq<Bytes>, fence: Fence, j: nat, content: Bytes, rest: seq<Bytes>, language: Bytes,
                        s: State)
    requires lines != [] && j == Closer(lines, fence, 1) < |lines| && content == Concat(lines[1..j]) &&
             rest == lines[j + 1..]
    requires Step(s, lines[0], language) ==
             if fence.wanted && s.seen then None else Some(State(Inside(fence, []), s.seen || fence.wanted, s.found))
    ensures Pass(s, lines, language) ==
            if !fence.wanted then Pass(State(Outside, s.seen, s.found), rest, language)
            else if s.seen || AllWhitespace(content) then None
            else Pass(State(Outside, true, Some(content)), rest, language)
  {
    if !(fence.wanted && s.seen) {
      var next := State(Inside(fence, []), s.seen || fence.wanted, s.found);
      PassOpened(s, lines, next, j, content, language);
      LeavesInside(next.(mode := Outside), fence, lines, j, content, language);
    }
  }

  lemma LeavesInside(outside: State, fence: Fence, lines: seq<Bytes>, j: nat, content: Bytes, language: Bytes)
    requires outside.mode.Outside? && j < |lines|
    ensures FromInside(outside, fence, lines, j, content, language) ==
            if !fence.wanted then Pass(outside, lines[j + 1..], language)
            else if AllWhitespace(content) then None
            else Pass(outside.(found := Some(content)), lines[j + 1..], language)
  {
  }

  lemma PassText(b: Block, rest: seq<Bytes>, language: Bytes, s: State)
    requires IsText(b, language) && (s.mode.Outside? || s.mode.Start?)
    ensures Pass(s, BlockLines(b) + rest, language) == Pass(s.(mode := Outside), rest, language)
  {
    var lines := BlockLines(b) + rest;
    assert lines[0] == b.line && lines[1..] == rest;
    assert Marker(b.line) != DASHES;
  }

  lemma BodyTail(blocks: seq<Block>, language: Bytes)
    requires Body(blocks, language) && blocks != []
    ensures IsBlock(blocks[0], language) && Body(blocks[1..], language)
  {
    forall i | 0 <= i < |blocks[1..]| ensures IsBlock(blocks[1..][i], language) {
      assert IsBlock(blocks[i + 1], language);
    }
  }

  /** The pass over the lines of text and fences gives what the blocks give. */
  lemma {:induction false} PassBody(blocks: seq<Block>, language: Bytes, s: State)
    requires Body(blocks, language) && (s.mode.Outside? || s.mode.Start?)
    ensures Pass(s, AllLines(blocks), language) == Give(blocks, language, s.seen, s.found)
    decreases |blocks|
  {
    if blocks != [] {
      var b, rest := blocks[0], blocks[1..];
      BodyTail(blocks, language);
      if IsText(b, language) {
        PassText(b, AllLines(rest), language, s);
        PassBody(rest, language, s.(mode := Outside));
      } else {
        assert Marker(b.opener) != DASHES;
        PassFenced(b, AllLines(rest), language, s);
        PassBody(rest, language, State(Outside, s.seen, s.found));
        PassBody(rest, language, State(Outside, true, Some(Concat(b.content))));
      }
    }
  }

  // ---- Front matter ----

  function FrontCloser(lines: seq<Bytes>, i: nat): (j: nat)
    requires i <= |lines|
    ensures i <= j <= |lines|
    decreases |lines| - i
  {
    if i == |lines| || FrontEnd(lines[i]) then i else FrontCloser(lines, i + 1)
  }

  lemma {:induction false} FrontCloserIsFirst(lines: seq<Bytes>, i: nat, k: nat)
    requires i <= k < |lines| && k <= FrontCloser(lines, i)
    ensures FrontEnd(lines[k]) <==> k == FrontCloser(lines, i)
    decreases k - i
  {
    if i < k { FrontCloserIsFirst(lines, i + 1, k); }
  }

  lemma StepFront(s: State, line: Bytes, language: Bytes)
    requires s.mode.InFront?
    ensures Step(s, line, language) ==
            if !FrontEnd(line) then Some(s) else if Marker(line) == DASHES then Some(s.(mode := Outside)) else None
  {
  }

  /** What the pass gives from a line in front matter that ends at `j`. */
  function FromFront(s: State, lines: seq<Bytes>, j: nat, language: Bytes): Option<Bytes>
    requires j <= |lines|
  {
    if j == |lines| || Marker(lines[j]) != DASHES then None else Pass(s.(mode := Outside), lines[j + 1..], language)
  }

  lemma {:induction false} InsideFront(s: State, lines: seq<Bytes>, i: nat, language: Bytes)
    requires s.mode.InFront? && i <= |lines|
    ensures Pass(s, lines[i..], language) == FromFront(s, lines, FrontCloser(lines, i), language)
    decreases |lines| - i
  {
    if i < |lines| {
      PassFrom(s, lines, i, language);
      StepFront(s, lines[i], language);
      if !FrontEnd(lines[i]) { InsideFront(s, lines, i + 1, language); }
    }
  }

  /** Front matter's closer is the first line after its opener that ends it. */
  lemma FrontCloserIs(b: Block, rest: seq<Bytes>)
    requires IsFront(b)
    ensures FrontCloser(BlockLines(b) + rest, 1) == |b.content| + 1
  {
    var lines := BlockLines(b) + rest;
    BlockShape(b.opener, b.content, b.closer, rest);
    var c, j := FrontCloser(lines, 1), |b.content| + 1;
    forall k | 1 <= k < j ensures !FrontEnd(lines[k]) { assert !FrontEnd(b.content[k - 1]); }
    FrontCloserIsFirst(lines, 1, if c < j then c else j);
  }

  lemma PassFront(b: Block, rest: seq<Bytes>, language: Bytes)
    requires IsFront(b)
    ensures Pass(INITIAL, BlockLines(b) + rest, language) == Pass(State(Outside, false, None), rest, language)
  {
    var lines := BlockLines(b) + rest;
    BlockShape(b.opener, b.content, b.closer, rest);
    assert Step(INITIAL, lines[0], language) == Some(State(InFront, false, None));
    FrontCloserIs(b, rest);
    InsideFront(State(InFront, false, None), lines, 1, language);
  }

  /** On any guide the grammar accepts, the pass gives what its blocks give. */
  lemma PassGrammar(lines: seq<Bytes>, blocks: seq<Block>, language: Bytes)
    requires Grammar(lines, blocks, language)
    ensures Pass(INITIAL, lines, language) == Give(blocks, language, false, None)
  {
    if Body(blocks, language) {
      PassBody(blocks, language, INITIAL);
    } else {
      PassFront(blocks[0], AllLines(blocks[1..]), language);
      PassBody(blocks[1..], language, State(Outside, false, None));
    }
  }

  // ---- What the blocks give ----

  ghost predicate NoneWanted(blocks: seq<Block>, language: Bytes) {
    forall i {:trigger IsWanted(blocks[i], language)} :: 0 <= i < |blocks| ==> !IsWanted(blocks[i], language)
  }

  lemma {:induction false} GiveSeen(blocks: seq<Block>, language: Bytes, content: Bytes)
    ensures Give(blocks, language, true, Some(content)) == if NoneWanted(blocks, language) then Some(content) else None
    decreases |blocks|
  {
    if blocks != [] && !IsWanted(blocks[0], language) {
      GiveSeen(blocks[1..], language, content);
      assert NoneWanted(blocks, language) <==> NoneWanted(blocks[1..], language) by {
        if NoneWanted(blocks[1..], language) {
          forall i | 0 <= i < |blocks| ensures !IsWanted(blocks[i], language) {
            if i > 0 { assert blocks[i] == blocks[1..][i - 1]; }
          }
        }
      }
    }
  }

  /** They give a content exactly when it is that of their sole wanted fence. */
  lemma {:induction false} GiveSole(blocks: seq<Block>, language: Bytes, content: Bytes)
    ensures Give(blocks, language, false, None) == Some(content) <==> Sole(blocks, language, content)
    decreases |blocks|
  {
    if blocks != [] {
      var rest := blocks[1..];
      assert forall i :: 0 <= i < |rest| ==> rest[i] == blocks[i + 1];
      if IsWanted(blocks[0], language) {
        GiveSeen(rest, language, Concat(blocks[0].content));
        assert NoneWanted(rest, language) <==> IsSole(blocks, language, 0);
        assert forall k :: 0 < k < |blocks| ==> !IsSole(blocks, language, k);
      } else {
        GiveSole(rest, language, content);
        assert forall k :: 0 <= k < |rest| ==> (IsSole(rest, language, k) <==> IsSole(blocks, language, k + 1));
        assert !IsSole(blocks, language, 0);
        if k :| 0 <= k < |blocks| && IsSole(blocks, language, k) { assert IsSole(rest, language, k - 1); }
      }
    }
  }

  // ---- And any guide the pass takes is one ----

  lemma SliceBlock(lines: seq<Bytes>, j: nat)
    requires 0 < j < |lines|
    ensures [lines[0]] + lines[1..j] + [lines[j]] == lines[..j + 1]
  {
  }

  lemma FencedOf(s: State, lines: seq<Bytes>, language: Bytes) returns (b: Block, j: nat, next: State)
    requires Pass(s, lines, language).Some? && lines != [] &&
             (s.mode.Outside? || (s.mode.Start? && Marker(lines[0]) != DASHES))
    requires Open(Marker(lines[0]), language).Opens?
    ensures IsFenced(b, language) && 0 < j < |lines| && BlockLines(b) == lines[..j + 1]
    ensures next.mode.Outside? && Pass(next, lines[j + 1..], language) == Pass(s, lines, language)
  {
    var fence := Open(Marker(lines[0]), language).fence;
    StepOpens(s, lines[0], language, fence);
    j, next := LeavesFence(s, lines, State(Inside(fence, []), s.seen || fence.wanted, s.found), language);
    b := FencedBlock(lines, j, fence, language);
  }

  lemma LeavesFence(s: State, lines: seq<Bytes>, inside: State, language: Bytes) returns (j: nat, next: State)
    requires Pass(s, lines, language).Some? && lines != [] && Step(s, lines[0], language) == Some(inside)
    requires inside.mode.Inside? && inside.mode.content == []
    ensures 0 < j < |lines| && j == Closer(lines, inside.mode.fence, 1)
    ensures next.mode.Outside? && Pass(next, lines[j + 1..], language) == Pass(s, lines, language)
  {
    j := Closer(lines, inside.mode.fence, 1);
    var content := Concat(lines[1..j]);
    PassOpened(s, lines, inside, j, content, language);
    next := GoesOn(inside.(mode := Outside), inside.mode.fence, lines, j, content, language);
  }

  /** A pass that gets past a fence found its closer. */
  lemma GoesOn(s: State, fence: Fence, lines: seq<Bytes>, j: nat, content: Bytes, language: Bytes)
      returns (next: State)
    requires j <= |lines| && FromInside(s, fence, lines, j, content, language).Some?
    ensures j < |lines| && next.mode.Outside?
    ensures Pass(next, lines[j + 1..], language) == FromInside(s, fence, lines, j, content, language)
  {
    next := AfterFence(s, fence, content).value;
  }

  lemma FencedBlock(lines: seq<Bytes>, j: nat, fence: Fence, language: Bytes) returns (b: Block)
    requires 0 < j < |lines| && !UnsupportedContext(Marker(lines[0])) &&
             Open(Marker(lines[0]), language) == Opens(fence)
    requires j == Closer(lines, fence, 1)
    ensures IsFenced(b, language) && BlockLines(b) == lines[..j + 1]
  {
    SliceBlock(lines, j);
    b := Fenced(lines[0], lines[1..j], lines[j]);
    BeforeCloser(lines, j, fence);
  }

  lemma BeforeCloser(lines: seq<Bytes>, j: nat, fence: Fence)
    requires 0 < j < |lines| && j == Closer(lines, fence, 1)
    ensures StaysOpen(lines[1..j], fence) && Closes(Marker(lines[j]), fence)
  {
    CloserIsFirst(lines, fence, 1, j);
    var content := lines[1..j];
    forall i | 0 <= i < |content| ensures !Closes(Marker(content[i]), fence) {
      LineBefore(lines, j, fence, i, content[i]);
    }
  }

  lemma LineBefore(lines: seq<Bytes>, j: nat, fence: Fence, i: nat, line: Bytes)
    requires i + 1 < j < |lines| && j == Closer(lines, fence, 1) && line == lines[i + 1]
    ensures !Closes(Marker(line), fence)
  {
    CloserIsFirst(lines, fence, 1, i + 1);
  }

  lemma BodyCons(b: Block, rest: seq<Block>, language: Bytes)
    requires IsBlock(b, language) && Body(rest, language)
    ensures Body([b] + rest, language)
  {
    var all := [b] + rest;
    forall i | 0 <= i < |all| ensures IsBlock(all[i], language) { if i > 0 { assert IsBlock(rest[i - 1], language); } }
  }

  lemma TextOf(s: State, lines: seq<Bytes>, language: Bytes) returns (next: State)
    requires Pass(s, lines, language).Some? && lines != [] &&
             (s.mode.Outside? || (s.mode.Start? && Marker(lines[0]) != DASHES))
    requires !Open(Marker(lines[0]), language).Opens?
    ensures IsText(Text(lines[0]), language) && next.mode.Outside? &&
            Pass(next, lines[1..], language) == Pass(s, lines, language)
  {
    next := s.(mode := Outside);
  }

  lemma {:induction false} BodyOf(s: State, lines: seq<Bytes>, language: Bytes) returns (blocks: seq<Block>)
    requires Pass(s, lines, language).Some? &&
             (s.mode.Outside? || (s.mode.Start? && (lines == [] || Marker(lines[0]) != DASHES)))
    ensures Body(blocks, language) && AllLines(blocks) == lines
    decreases |lines|
  {
    blocks := [];
    if lines != [] {
      var b, j, next := FirstOf(s, lines, language);
      var rest := BodyOf(next, lines[j + 1..], language);
      BodyCons(b, rest, language);
      JoinBlock(b, rest, lines, j);
      blocks := [b] + rest;
    }
  }

  lemma JoinBlock(b: Block, rest: seq<Block>, lines: seq<Bytes>, j: nat)
    requires j < |lines| && BlockLines(b) == lines[..j + 1] && AllLines(rest) == lines[j + 1..]
    ensures AllLines([b] + rest) == lines
  {
    AllLinesCons(b, rest);
    assert lines == lines[..j + 1] + lines[j + 1..];
  }

  /** The first block, and the state after it. */
  lemma FirstOf(s: State, lines: seq<Bytes>, language: Bytes) returns (b: Block, j: nat, next: State)
    requires Pass(s, lines, language).Some? && lines != [] &&
             (s.mode.Outside? || (s.mode.Start? && Marker(lines[0]) != DASHES))
    ensures IsBlock(b, language) && j < |lines| && BlockLines(b) == lines[..j + 1]
    ensures next.mode.Outside? && Pass(next, lines[j + 1..], language).Some?
  {
    if Open(Marker(lines[0]), language).Opens? {
      b, j, next := FencedOf(s, lines, language);
    } else {
      b, j := Text(lines[0]), 0;
      next := TextOf(s, lines, language);
    }
  }

  lemma FrontOf(lines: seq<Bytes>, language: Bytes) returns (b: Block, j: nat)
    requires Pass(INITIAL, lines, language).Some? && lines != [] && Marker(lines[0]) == DASHES
    ensures IsFront(b) && 0 < j < |lines| && BlockLines(b) == lines[..j + 1]
    ensures Pass(State(Outside, false, None), lines[j + 1..], language).Some?
  {
    assert Step(INITIAL, lines[0], language) == Some(State(InFront, false, None));
    InsideFront(State(InFront, false, None), lines, 1, language);
    j := FrontCloser(lines, 1);
    SliceBlock(lines, j);
    b := Front(lines[0], lines[1..j], lines[j]);
    FrontCloserIsFirst(lines, 1, j);
    forall i | 0 <= i < |b.content| ensures !FrontEnd(b.content[i]) { FrontCloserIsFirst(lines, 1, i + 1); }
  }

  lemma BlocksOf(lines: seq<Bytes>, language: Bytes) returns (blocks: seq<Block>)
    requires Pass(INITIAL, lines, language).Some?
    ensures Grammar(lines, blocks, language)
  {
    if lines != [] && Marker(lines[0]) == DASHES {
      var b, j := FrontOf(lines, language);
      var rest := BodyOf(State(Outside, false, None), lines[j + 1..], language);
      JoinBlock(b, rest, lines, j);
      blocks := [b] + rest;
      assert blocks[1..] == rest;
    } else {
      blocks := BodyOf(INITIAL, lines, language);
    }
  }

  /** The pass accepts exactly the guides of the grammar with one sole fence, and gives its bytes. */
  lemma PassRefinesGrammar(lines: seq<Bytes>, language: Bytes, content: Bytes)
    ensures Pass(INITIAL, lines, language) == Some(content) <==>
            exists blocks :: Grammar(lines, blocks, language) && Sole(blocks, language, content)
  {
    if Pass(INITIAL, lines, language) == Some(content) {
      var blocks := BlocksOf(lines, language);
      PassGrammar(lines, blocks, language);
      GiveSole(blocks, language, content);
    }
    if blocks :| Grammar(lines, blocks, language) && Sole(blocks, language, content) {
      PassGrammar(lines, blocks, language);
      GiveSole(blocks, language, content);
    }
  }

  // ---- The pass over a document ----

  /** A byte before the text of these lines. */
  function Prepend(b: byte, lines: seq<Bytes>): seq<Bytes> {
    if b == LF || lines == [] then [[b]] + lines else [[b] + lines[0]] + lines[1..]
  }

  /** Lines with their line feeds. */
  function SplitLines(document: Bytes): seq<Bytes> {
    if document == [] then [] else Prepend(document[0], SplitLines(document[1..]))
  }

  lemma {:induction false} SplitConcat(document: Bytes)
    ensures Concat(SplitLines(document)) == document
    ensures forall i :: 0 <= i < |SplitLines(document)| ==> SplitLines(document)[i] != []
    decreases |document|
  {
    if document != [] {
      SplitConcat(document[1..]);
      PrependConcat(document[0], SplitLines(document[1..]));
      assert document == [document[0]] + document[1..];
    }
  }

  lemma PrependConcat(b: byte, lines: seq<Bytes>)
    ensures Concat(Prepend(b, lines)) == [b] + Concat(lines)
  {
    var r := Prepend(b, lines);
    if b == LF || lines == [] {
      assert r[1..] == lines;
    } else {
      assert r[1..] == lines[1..] && Concat(r) == ([b] + lines[0]) + Concat(lines[1..]);
    }
  }

  lemma {:induction false} ConcatAppend(a: seq<Bytes>, b: seq<Bytes>)
    ensures Concat(a + b) == Concat(a) + Concat(b)
    decreases |a|
  {
    if a == [] {
      assert a + b == b;
    } else {
      ConcatAppend(a[1..], b);
      assert (a + b)[0] == a[0] && (a + b)[1..] == a[1..] + b;
    }
  }

  /** Line `n` is where the lengths before it say. */
  lemma LineAt(lines: seq<Bytes>, n: nat, document: Bytes)
    requires n < |lines| && document == Concat(lines)
    ensures var offset := |Concat(lines[..n])|;
            && |Concat(lines[..n + 1])| == offset + |lines[n]| <= |document|
            && document[offset..offset + |lines[n]|] == lines[n]
  {
    assert lines == lines[..n] + ([lines[n]] + lines[n + 1..]) && lines[..n + 1] == lines[..n] + [lines[n]];
    ConcatAppend(lines[..n], [lines[n]] + lines[n + 1..]);
    ConcatAppend(lines[..n], [lines[n]]);
    ConcatAppend([lines[n]], lines[n + 1..]);
    assert Concat([lines[n]]) == lines[n] + [];
  }

  predicate BadEncoding(document: Bytes) {
    || BOM <= document
    || exists i :: 0 <= i < |document| && BadByte(document, i)
  }

  predicate BadByte(document: Bytes, i: nat)
    requires i < |document|
  {
    || (document[i] == CR && !(i + 1 < |document| && document[i + 1] == LF))
    || (document[i] < SPACE && document[i] != LF && document[i] != CR && document[i] != TAB)
  }

  datatype GuideError = Encoding | FrontDelimiter | Empty | Context | BadFence | Duplicate | UnclosedFront | Unclosed
                      | Missing

  datatype Extraction = Sample(content: Bytes) | Failure(error: GuideError)

  /** The loop's variables: the open fence and where its content starts, and what was seen and found. */
  datatype Cursor = Cursor(active: Option<Fence>, start: nat, frontMatter: bool, seen: bool, result: Option<Bytes>)

  ghost predicate ValidCursor(c: Cursor, offset: nat, document: Bytes) {
    offset <= |document| && (c.active.Some? ==> c.start <= offset && 0 < offset && !c.frontMatter) &&
    (c.frontMatter ==> 0 < offset)
  }

  /** The state of `Pass` that the variables stand for. */
  ghost function StateOf(c: Cursor, offset: nat, document: Bytes): State
    requires ValidCursor(c, offset, document)
  {
    var mode := if c.frontMatter then InFront
                else if c.active.Some? then Inside(c.active.value, document[c.start..offset])
                else if offset == 0 then Start else Outside;
    State(mode, c.seen, c.result)
  }

  datatype Turn = Continue(next: Cursor) | Stop(error: GuideError)

  /** One turn of the loop. */
  method ReadLine(document: Bytes, offset: nat, line: Bytes, language: Bytes, c: Cursor) returns (t: Turn)
    requires ValidCursor(c, offset, document) && line != []
    requires offset + |line| <= |document| && document[offset..offset + |line|] == line
    ensures t.Stop? ==> Step(StateOf(c, offset, document), line, language) == None
    ensures t.Continue? ==> ValidCursor(t.next, offset + |line|, document)
    ensures t.Continue? ==>
            Step(StateOf(c, offset, document), line, language) == Some(StateOf(t.next, offset + |line|, document))
  {
    var marker := Marker(line);
    if offset == 0 && marker == DASHES { return Continue(c.(frontMatter := true)); }
    if c.frontMatter {
      if marker == DASHES { return Continue(c.(frontMatter := false)); }
      return if FrontEnd(line) then Stop(FrontDelimiter) else Continue(c);
    }
    if c.active.Some? {
      t := ReadInside(document, offset, line, language, c);
    } else {
      t := ReadOutside(document, offset, line, language, c);
    }
  }

  /** A turn inside a fence. */
  method ReadInside(document: Bytes, offset: nat, line: Bytes, language: Bytes, c: Cursor) returns (t: Turn)
    requires ValidCursor(c, offset, document) && line != [] && c.active.Some?
    requires offset + |line| <= |document| && document[offset..offset + |line|] == line
    ensures t.Stop? ==> Step(StateOf(c, offset, document), line, language) == None
    ensures t.Continue? ==> ValidCursor(t.next, offset + |line|, document)
    ensures t.Continue? ==>
            Step(StateOf(c, offset, document), line, language) == Some(StateOf(t.next, offset + |line|, document))
  {
    StepInside(StateOf(c, offset, document), line, language);
    assert document[c.start..offset] + line == document[c.start..offset + |line|];
    if !Closes(Marker(line), c.active.value) { return Continue(c); }
    if !c.active.value.wanted { return Continue(c.(active := None)); }
    var content := document[c.start..offset];
    if AllWhitespace(content) { return Stop(Empty); }
    t := Continue(c.(active := None, result := Some(content)));
  }

  /** A turn outside fences and front matter. */
  method ReadOutside(document: Bytes, offset: nat, line: Bytes, language: Bytes, c: Cursor) returns (t: Turn)
    requires ValidCursor(c, offset, document) && line != [] && c.active.None? && !c.frontMatter &&
             (offset == 0 ==> Marker(line) != DASHES)
    requires offset + |line| <= |document| && document[offset..offset + |line|] == line
    ensures t.Stop? ==> Step(StateOf(c, offset, document), line, language) == None
    ensures t.Continue? ==> ValidCursor(t.next, offset + |line|, document)
    ensures t.Continue? ==>
            Step(StateOf(c, offset, document), line, language) == Some(StateOf(t.next, offset + |line|, document))
  {
    if UnsupportedContext(Marker(line)) { return Stop(Context); }
    match Open(Marker(line), language)
    case NotFence => t := Continue(c);
    case Refused => t := Stop(BadFence);
    case Opens(fence) =>
      StepOpens(StateOf(c, offset, document), line, language, fence);
      if fence.wanted && c.seen { return Stop(Duplicate); }
      assert document[offset + |line|..offset + |line|] == [];
      t := Continue(c.(active := Some(fence), start := offset + |line|, seen := c.seen || fence.wanted));
  }

  /** `document` is a guide of the profile whose only fence of the language holds `content`. */
  ghost predicate Accepts(document: Bytes, language: Bytes, content: Bytes) {
    !BadEncoding(document) &&
    exists blocks :: Grammar(SplitLines(document), blocks, language) && Sole(blocks, language, content)
  }

  /** The sole nonempty fence of the language, exactly where the grammar has one. */
  method Extract(document: Bytes, language: Bytes) returns (r: Extraction)
    ensures forall content :: r == Sample(content) <==> Accepts(document, language, content)
  {
    if BadEncoding(document) { return Failure(Encoding); }
    SplitConcat(document);
    r := ReadAll(document, SplitLines(document), language);
    forall content ensures r == Sample(content) <==> Accepts(document, language, content) {
      PassRefinesGrammar(SplitLines(document), language, content);
    }
  }

  /** A turn of the loop is a step of the pass. */
  method TakeTurn(document: Bytes, offset: nat, lines: seq<Bytes>, n: nat, language: Bytes, c: Cursor) returns (t: Turn)
    requires n < |lines| && lines[n] != [] && ValidCursor(c, offset, document)
    requires offset + |lines[n]| <= |document| && document[offset..offset + |lines[n]|] == lines[n]
    ensures t.Continue? ==> ValidCursor(t.next, offset + |lines[n]|, document)
    ensures Pass(StateOf(c, offset, document), lines[n..], language) ==
            if t.Stop? then None else Pass(StateOf(t.next, offset + |lines[n]|, document), lines[n + 1..], language)
  {
    t := ReadLine(document, offset, lines[n], language, c);
    TurnPasses(StateOf(c, offset, document), lines, n, language, t.Stop?,
               if t.Stop? then INITIAL else StateOf(t.next, offset + |lines[n]|, document));
  }

  lemma TurnPasses(s: State, lines: seq<Bytes>, n: nat, language: Bytes, stop: bool, next: State)
    requires n < |lines| && Step(s, lines[n], language) == if stop then None else Some(next)
    ensures Pass(s, lines[n..], language) == if stop then None else Pass(next, lines[n + 1..], language)
  {
    PassFrom(s, lines, n, language);
  }

  /** What the variables say once every line is read. */
  function Decide(c: Cursor): Extraction {
    if c.frontMatter then Failure(UnclosedFront)
    else if c.active.Some? then Failure(Unclosed)
    else if c.result.Some? then Sample(c.result.value) else Failure(Missing)
  }

  function Given(r: Extraction): Option<Bytes> { if r.Sample? then Some(r.content) else None }

  lemma DecideEndsPass(c: Cursor, offset: nat, document: Bytes, language: Bytes)
    requires ValidCursor(c, offset, document)
    ensures Pass(StateOf(c, offset, document), [], language) == Given(Decide(c))
  {
  }

  /** The loop over `lines`, which make up the document. */
  method ReadAll(document: Bytes, lines: seq<Bytes>, language: Bytes) returns (r: Extraction)
    requires document == Concat(lines) && forall i :: 0 <= i < |lines| ==> lines[i] != []
    ensures Given(r) == Pass(INITIAL, lines, language)
  {
    var c, offset := Cursor(None, 0, false, false, None), 0;
    assert lines[0..] == lines && StateOf(c, offset, document) == INITIAL;
    ghost var given := Pass(INITIAL, lines, language);
    for n := 0 to |lines|
      invariant offset == |Concat(lines[..n])| && ValidCursor(c, offset, document)
      invariant Pass(StateOf(c, offset, document), lines[n..], language) == given
    {
      LineAt(lines, n, document);
      var turn := TakeTurn(document, offset, lines, n, language, c);
      if turn.Stop? { return Failure(turn.error); }
      c, offset := turn.next, offset + |lines[n]|;
    }
    DecideEndsPass(c, offset, document, language);
    r := Decide(c);
  }

  // ---- Wrapping content in a fence longer than its runs ----

  lemma {:induction false} RunIs(line: Bytes, b: byte, n: nat)
    requires n <= |line| && (forall i :: 0 <= i < n ==> line[i] == b) && (n < |line| ==> line[n] != b)
    ensures Run(line, b) == n
  {
    if n > 0 { RunIs(line[1..], b, n - 1); }
  }

  lemma {:induction false} RunHolds(line: Bytes, b: byte)
    ensures forall i :: 0 <= i < Run(line, b) ==> line[i] == b
  {
    if line != [] && line[0] == b {
      RunHolds(line[1..], b);
      assert forall i :: 1 <= i < Run(line, b) ==> line[i] == line[1..][i - 1];
    }
  }

  predicate Mark(kind: byte) { kind == TICK || kind == TILDE }

  /** A run of fence marks. */
  function Marks(kind: byte, w: nat): Bytes { seq(w, _ => kind) }

  /** A line that closes a fence of width `w` holds `w` of its marks in a row. */
  lemma ClosingRun(line: Bytes, fence: Fence)
    requires Closes(line, fence)
    ensures exists i :: OccursAt(line, Marks(fence.kind, fence.width), i)
  {
    var indent := Run(line, SPACE);
    var rest := line[indent..];
    RunHolds(rest, fence.kind);
    assert forall i :: 0 <= i < fence.width ==> rest[i] == line[indent + i];
    assert line[indent..indent + fence.width] == Marks(fence.kind, fence.width);
    assert OccursAt(line, Marks(fence.kind, fence.width), indent);
  }

  lemma OccursInMarker(line: Bytes, pat: Bytes, i: nat)
    requires OccursAt(Marker(line), pat, i)
    ensures OccursAt(line, pat, i)
  {
    assert Marker(line) == line[0..|Marker(line)|];
    OccursFromSlice(line, 0, |Marker(line)|, pat, i);
  }

  /** What occurs in a line occurs in the content. */
  lemma OccursInContent(content: Bytes, lines: seq<Bytes>, n: nat, pat: Bytes, i: nat)
    requires content == Concat(lines) && n < |lines| && OccursAt(lines[n], pat, i)
    ensures OccursAt(content, pat, |Concat(lines[..n])| + i)
  {
    var at := |Concat(lines[..n])|;
    LineAt(lines, n, content);
    OccursFromSlice(content, at, at + |lines[n]|, pat, i);
  }

  /** A line of `content` closes no fence wider than every run of its marks in it. */
  lemma LineStaysOpen(content: Bytes, n: nat, fence: Fence)
    requires n < |SplitLines(content)| && forall i :: !OccursAt(content, Marks(fence.kind, fence.width), i)
    ensures !Closes(Marker(SplitLines(content)[n]), fence)
  {
    var line := Marker(SplitLines(content)[n]);
    if Closes(line, fence) {
      ClosingRun(line, fence);
      var i :| OccursAt(line, Marks(fence.kind, fence.width), i);
      OccursInMarker(SplitLines(content)[n], Marks(fence.kind, fence.width), i);
      SplitConcat(content);
      OccursInContent(content, SplitLines(content), n, Marks(fence.kind, fence.width), i);
    }
  }

  lemma PrependAppend(b: byte, x: seq<Bytes>, y: seq<Bytes>)
    requires b == LF || x != []
    ensures Prepend(b, x + y) == Prepend(b, x) + y
  {
    if b == LF {
      Regroup([[b]], x, y);
    } else {
      assert (x + y)[0] == x[0] && (x + y)[1..] == x[1..] + y;
      Regroup([[b] + x[0]], x[1..], y);
    }
  }

  lemma Regroup(a: seq<Bytes>, b: seq<Bytes>, c: seq<Bytes>)
    ensures a + (b + c) == (a + b) + c
  {
  }

  lemma {:induction false} SplitAppend(a: Bytes, b: Bytes)
    requires a != [] ==> a[|a| - 1] == LF
    ensures SplitLines(a + b) == SplitLines(a) + SplitLines(b) && (a != [] ==> SplitLines(a) != [])
    decreases |a|
  {
    if a == [] {
      assert a + b == b && SplitLines(a) == [];
    } else {
      assert (a + b)[0] == a[0] && (a + b)[1..] == a[1..] + b;
      SplitAppend(a[1..], b);
      PrependAppend(a[0], SplitLines(a[1..]), SplitLines(b));
    }
  }

  lemma SplitThree(a: Bytes, b: Bytes, c: Bytes)
    requires (a != [] ==> a[|a| - 1] == LF) && b != [] && b[|b| - 1] == LF
    ensures SplitLines(a + b + c) == SplitLines(a) + SplitLines(b) + SplitLines(c)
  {
    SplitAppend(a + b, c);
    SplitAppend(a, b);
  }

  lemma {:induction false} SingleLine(line: Bytes)
    requires line != [] && line[|line| - 1] == LF && forall i :: 0 <= i < |line| - 1 ==> line[i] != LF
    ensures SplitLines(line) == [line]
    decreases |line|
  {
    if |line| > 1 {
      SingleLine(line[1..]);
      assert line == [line[0]] + line[1..];
    } else {
      assert line[1..] == [] && line == [LF];
    }
  }

  predicate IsToken(language: Bytes) {
    language != [] && forall i :: 0 <= i < |language| ==> TokenByte(language[i])
  }

  lemma {:induction false} TokenEndIs(language: Bytes)
    requires forall i :: 0 <= i < |language| ==> TokenByte(language[i])
    ensures TokenEnd(language) == |language|
  {
    if language != [] { TokenEndIs(language[1..]); }
  }

  /** Marks and a token open a wanted fence of that width. */
  lemma OpenerOpens(language: Bytes, kind: byte, w: nat)
    requires IsToken(language) && Mark(kind) && w >= 3
    ensures Open(Marks(kind, w) + language, language) == Opens(Fence(kind, w, true))
    ensures !UnsupportedContext(Marks(kind, w) + language)
  {
    var line := Marks(kind, w) + language;
    assert line[0] == kind && forall i :: 0 <= i < w ==> line[i] == kind;
    assert line[w] == language[0];
    RunIs(line, kind, w);
    assert line[w..] == language;
    assert Trim(language) == language;
    TokenEndIs(language);
    assert language[..|language|] == language && language[|language|..] == [];
    OpenerSupported(language, kind, w);
  }

  lemma OpenerSupported(language: Bytes, kind: byte, w: nat)
    requires IsToken(language) && Mark(kind) && w >= 3
    ensures !UnsupportedContext(Marks(kind, w) + language)
  {
    var line := Marks(kind, w) + language;
    assert line[0] == kind;
    assert 60 !in line;
  }

  lemma CloserCloses(kind: byte, w: nat, wanted: bool)
    requires Mark(kind) && w >= 3
    ensures Closes(Marks(kind, w), Fence(kind, w, wanted))
  {
    var line := Marks(kind, w);
    RunIs(line, SPACE, 0);
    assert line[0..] == line;
    RunIs(line, kind, w);
    assert line[w..] == [];
  }

  function Opener(language: Bytes, kind: byte, w: nat): Bytes { Marks(kind, w) + language + [LF] }

  function Ender(kind: byte, w: nat): Bytes { Marks(kind, w) + [LF] }

  function Wrap(content: Bytes, language: Bytes, kind: byte, w: nat): Bytes {
    Opener(language, kind, w) + content + Ender(kind, w)
  }

  lemma WrapLines(content: Bytes, language: Bytes, kind: byte, w: nat)
    requires IsToken(language) && Mark(kind) && content != [] && content[|content| - 1] == LF
    ensures SplitLines(Wrap(content, language, kind, w)) ==
            [Opener(language, kind, w)] + SplitLines(content) + [Ender(kind, w)]
  {
    OpenerLine(language, kind, w);
    ThreeParts(Opener(language, kind, w), content, Ender(kind, w));
  }

  lemma OpenerLine(language: Bytes, kind: byte, w: nat)
    requires IsToken(language) && Mark(kind)
    ensures var opener := Opener(language, kind, w); forall i :: 0 <= i < |opener| - 1 ==> opener[i] != LF
  {
  }

  lemma ThreeParts(opener: Bytes, content: Bytes, closer: Bytes)
    requires opener != [] && opener[|opener| - 1] == LF && forall i :: 0 <= i < |opener| - 1 ==> opener[i] != LF
    requires closer != [] && closer[|closer| - 1] == LF && forall i :: 0 <= i < |closer| - 1 ==> closer[i] != LF
    requires content != [] && content[|content| - 1] == LF
    ensures SplitLines(opener + content + closer) == [opener] + SplitLines(content) + [closer]
  {
    SplitThree(opener, content, closer);
    SingleLine(opener);
    SingleLine(closer);
  }

  lemma WrapEncoding(content: Bytes, language: Bytes, kind: byte, w: nat)
    requires IsToken(language) && Mark(kind) && w >= 3 && forall i :: 0 <= i < |content| ==> !BadByte(content, i)
    ensures !BadEncoding(Wrap(content, language, kind, w))
  {
    var d := Wrap(content, language, kind, w);
    var n := w + |language| + 1;
    assert d[0] == kind;
    forall i | 0 <= i < |d| ensures !BadByte(d, i) {
      if i < n {
        assert d[i] == kind || TokenByte(d[i]) || d[i] == LF;
      } else if i < n + |content| {
        assert d[i] == content[i - n] && !BadByte(content, i - n);
        assert i + 1 < n + |content| ==> d[i + 1] == content[i + 1 - n];
      } else {
        assert d[i] == kind || d[i] == LF;
      }
    }
  }

  /** The content's lines as a block of their own. */
  function WrapBlock(content: Bytes, language: Bytes, kind: byte, w: nat): Block {
    Fenced(Opener(language, kind, w), SplitLines(content), Ender(kind, w))
  }

  lemma WrapIsFenced(content: Bytes, language: Bytes, kind: byte, w: nat, b: Block)
    requires IsToken(language) && Mark(kind) && w >= 3 && forall i :: !OccursAt(content, Marks(kind, w), i)
    requires b == WrapBlock(content, language, kind, w)
    ensures IsFenced(b, language) && IsWanted(b, language)
  {
    var opener, closer, fence := b.opener, b.closer, Fence(kind, w, true);
    assert Marker(opener) == Marks(kind, w) + language by {
      assert opener[..|opener| - 1] == Marks(kind, w) + language;
    }
    assert Marker(closer) == Marks(kind, w) by { assert closer[..|closer| - 1] == Marks(kind, w); }
    OpenerOpens(language, kind, w);
    CloserCloses(kind, w, true);
    forall n | 0 <= n < |SplitLines(content)| ensures !Closes(Marker(SplitLines(content)[n]), fence) {
      LineStaysOpen(content, n, fence);
    }
  }

  /** A wanted fence among blocks that are not is the sole one. */
  lemma SoleAmong(before: seq<Block>, b: Block, after: seq<Block>, language: Bytes)
    requires IsFenced(b, language) && IsWanted(b, language) && !AllWhitespace(Concat(b.content))
    requires NoneWanted(before, language) && NoneWanted(after, language)
    ensures Sole(before + [b] + after, language, Concat(b.content))
  {
    var all, k := before + [b] + after, |before|;
    forall i | 0 <= i < |all| && i != k ensures !IsWanted(all[i], language) {
      if i < k { assert all[i] == before[i]; } else { assert all[i] == after[i - k - 1]; }
    }
    assert all[k] == b && IsSole(all, language, k);
  }

  lemma Tail(before: seq<Block>, b: Block, after: seq<Block>)
    requires before != []
    ensures (before + [b] + after)[0] == before[0] && (before + [b] + after)[1..] == before[1..] + [b] + after
  {
  }

  lemma GuideAmong(before: seq<Block>, b: Block, after: seq<Block>, language: Bytes)
    requires Guide(before, language) && IsFenced(b, language) && Body(after, language)
    ensures Guide(before + [b] + after, language)
  {
    if Body(before, language) {
      BodyAmong(before, b, after, language);
    } else {
      BodyAmong(before[1..], b, after, language);
      Tail(before, b, after);
    }
  }

  lemma BodyAmong(before: seq<Block>, b: Block, after: seq<Block>, language: Bytes)
    requires Body(before, language) && IsFenced(b, language) && Body(after, language)
    ensures Body(before + [b] + after, language)
  {
    var all, k := before + [b] + after, |before|;
    forall i | 0 <= i < |all| ensures IsBlock(all[i], language) {
      if i < k { assert IsBlock(before[i], language); } else if i > k { assert IsBlock(after[i - k - 1], language); }
    }
  }

  lemma {:induction false} AllLinesAppend(a: seq<Block>, b: seq<Block>)
    ensures AllLines(a + b) == AllLines(a) + AllLines(b)
    decreases |a|
  {
    if a == [] {
      assert a + b == b;
    } else {
      assert (a + b)[0] == a[0] && (a + b)[1..] == a[1..] + b;
      AllLinesAppend(a[1..], b);
      Regroup(BlockLines(a[0]), AllLines(a[1..]), AllLines(b));
    }
  }

  lemma AllLinesThree(before: seq<Block>, b: Block, after: seq<Block>)
    ensures AllLines(before + [b] + after) == AllLines(before) + BlockLines(b) + AllLines(after)
  {
    AllLinesAppend(before + [b], after);
    AllLinesAppend(before, [b]);
    OneBlock(b, [b]);
  }

  lemma OneBlock(b: Block, blocks: seq<Block>)
    requires blocks == [b]
    ensures AllLines(blocks) == BlockLines(b)
  {
    assert blocks[0] == b && blocks[1..] == [] && AllLines([]) == [];
  }

  lemma LinesAmong(pre: Bytes, before: seq<Block>, text: Bytes, b: Block, post: Bytes, after: seq<Block>)
    requires (pre != [] ==> pre[|pre| - 1] == LF) && text != [] && text[|text| - 1] == LF
    requires SplitLines(pre) == AllLines(before) && SplitLines(text) == BlockLines(b) &&
             SplitLines(post) == AllLines(after)
    ensures SplitLines(pre + text + post) == AllLines(before + [b] + after)
  {
    SplitThree(pre, text, post);
    AllLinesThree(before, b, after);
  }

  /** A wanted fence's text among other blocks' is accepted with its content. */
  lemma BlockAmong(pre: Bytes, before: seq<Block>, text: Bytes, b: Block, post: Bytes, after: seq<Block>,
                   language: Bytes)
    requires SplitLines(pre) == AllLines(before) && (pre != [] ==> pre[|pre| - 1] == LF) &&
             SplitLines(post) == AllLines(after)
    requires text != [] && text[|text| - 1] == LF && SplitLines(text) == BlockLines(b)
    requires IsFenced(b, language) && IsWanted(b, language) && !AllWhitespace(Concat(b.content))
    requires Guide(before, language) && Body(after, language) && NoneWanted(before, language) &&
             NoneWanted(after, language)
    requires !BadEncoding(pre + text + post)
    ensures Accepts(pre + text + post, language, Concat(b.content))
  {
    LinesAmong(pre, before, text, b, post, after);
    GuideAmong(before, b, after, language);
    SoleAmong(before, b, after, language);
    AcceptsGuide(pre + text + post, before + [b] + after, language, Concat(b.content));
  }

  lemma AcceptsGuide(document: Bytes, blocks: seq<Block>, language: Bytes, content: Bytes)
    requires !BadEncoding(document) && SplitLines(document) == AllLines(blocks)
    requires Guide(blocks, language) && Sole(blocks, language, content)
    ensures Accepts(document, language, content)
  {
    assert Grammar(SplitLines(document), blocks, language);
  }

  /** The block of a wrapped content. */
  lemma Wrapped(content: Bytes, language: Bytes, kind: byte, w: nat) returns (b: Block)
    requires IsToken(language) && Mark(kind) && w >= 3 && content != [] && content[|content| - 1] == LF
    requires forall i :: !OccursAt(content, Marks(kind, w), i)
    ensures IsFenced(b, language) && IsWanted(b, language)
    ensures SplitLines(Wrap(content, language, kind, w)) == BlockLines(b) && Concat(b.content) == content
  {
    b := WrapBlock(content, language, kind, w);
    WrapIsFenced(content, language, kind, w, b);
    WrapLines(content, language, kind, w);
    SplitConcat(content);
  }

  /**
   * Any admissible content in a fence longer than its runs of the same mark is extracted byte for byte, from
   * among any blocks that hold no other fence of the language, front matter included.
   */
  lemma WrapAmong(pre: Bytes, before: seq<Block>, content: Bytes, language: Bytes, kind: byte, w: nat, post: Bytes,
                  after: seq<Block>)
    requires IsToken(language) && Mark(kind) && w >= 3 && content != [] && content[|content| - 1] == LF &&
             !AllWhitespace(content)
    requires forall i :: !OccursAt(content, Marks(kind, w), i)
    requires SplitLines(pre) == AllLines(before) && (pre != [] ==> pre[|pre| - 1] == LF) &&
             SplitLines(post) == AllLines(after)
    requires Guide(before, language) && Body(after, language) && NoneWanted(before, language) &&
             NoneWanted(after, language)
    requires !BadEncoding(pre + Wrap(content, language, kind, w) + post)
    ensures Accepts(pre + Wrap(content, language, kind, w) + post, language, content)
  {
    var b := Wrapped(content, language, kind, w);
    BlockAmong(pre, before, Wrap(content, language, kind, w), b, post, after, language);
  }

  /** So it is from a document of its own. */
  lemma WrapRoundTrip(content: Bytes, language: Bytes, kind: byte, w: nat)
    requires IsToken(language) && Mark(kind) && w >= 3 && content != [] && content[|content| - 1] == LF
    requires !AllWhitespace(content) && forall i :: 0 <= i < |content| ==> !BadByte(content, i)
    requires forall i :: !OccursAt(content, Marks(kind, w), i)
    ensures Accepts(Wrap(content, language, kind, w), language, content)
  {
    var text := Wrap(content, language, kind, w);
    WrapEncoding(content, language, kind, w);
    assert [] + text + [] == text && SplitLines([]) == [] && AllLines([]) == [];
    WrapAmong([], [], content, language, kind, w, [], []);
  }

  // ---- What does not matter ----

  lemma BodyReplaced(before: seq<Block>, b: Block, c: Block, after: seq<Block>, language: Bytes)
    requires Body(before + [b] + after, language) && IsFenced(c, language)
    ensures Body(before + [c] + after, language)
  {
    var x, y := before + [b] + after, before + [c] + after;
    forall i | 0 <= i < |y| ensures IsBlock(y[i], language) { if i != |before| { assert IsBlock(x[i], language); } }
  }

  lemma GuideReplaced(before: seq<Block>, b: Block, c: Block, after: seq<Block>, language: Bytes)
    requires Guide(before + [b] + after, language) && b.Fenced? && IsFenced(c, language)
    ensures Guide(before + [c] + after, language)
  {
    assert before == [] ==> (before + [b] + after)[0] == b;
    if Body(before + [b] + after, language) {
      BodyReplaced(before, b, c, after, language);
    } else {
      Tail(before, b, after);
      Tail(before, c, after);
      BodyReplaced(before[1..], b, c, after, language);
    }
  }

  /** What stands in another fence is opaque: any lines that do not close it leave the result alone. */
  lemma OpaqueContent(before: seq<Block>, b: Block, after: seq<Block>, content: seq<Bytes>, language: Bytes)
    requires b.Fenced? && IsFenced(b, language) && !IsWanted(b, language) && Guide(before + [b] + after, language)
    requires IsFenced(Fenced(b.opener, content, b.closer), language)
    ensures Pass(INITIAL, AllLines(before + [Fenced(b.opener, content, b.closer)] + after), language) ==
            Pass(INITIAL, AllLines(before + [b] + after), language)
  {
    var other := Fenced(b.opener, content, b.closer);
    GuideReplaced(before, b, other, after, language);
    SamePass(before, b, other, after, language);
  }

  lemma SamePass(before: seq<Block>, b: Block, c: Block, after: seq<Block>, language: Bytes)
    requires !IsWanted(b, language) && !IsWanted(c, language) && Guide(before + [b] + after, language) &&
             Guide(before + [c] + after, language)
    ensures Pass(INITIAL, AllLines(before + [c] + after), language) ==
            Pass(INITIAL, AllLines(before + [b] + after), language)
  {
    PassGrammar(AllLines(before + [b] + after), before + [b] + after, language);
    PassGrammar(AllLines(before + [c] + after), before + [c] + after, language);
    SameGive(before, b, c, after, language, false, None);
  }

  /** Front matter is opaque: whatever it holds, the rest of the guide decides. */
  lemma OpaqueFront(front: Block, other: Block, body: seq<Block>, language: Bytes)
    requires IsFront(front) && IsFront(other) && Body(body, language)
    ensures Pass(INITIAL, AllLines([front] + body), language) == Pass(INITIAL, AllLines([other] + body), language)
  {
    FrontGives(front, body, language);
    FrontGives(other, body, language);
  }

  lemma FrontGives(front: Block, body: seq<Block>, language: Bytes)
    requires IsFront(front) && Body(body, language)
    ensures Pass(INITIAL, AllLines([front] + body), language) == Give(body, language, false, None)
  {
    var all := [front] + body;
    assert all[0] == front && all[1..] == body;
    PassGrammar(AllLines(all), all, language);
  }

  lemma {:induction false} SameGive(before: seq<Block>, b: Block, b': Block, after: seq<Block>, language: Bytes,
                                    seen: bool, found: Option<Bytes>)
    requires !IsWanted(b, language) && !IsWanted(b', language)
    ensures Give(before + [b] + after, language, seen, found) == Give(before + [b'] + after, language, seen, found)
    decreases |before|
  {
    var x, y := before + [b] + after, before + [b'] + after;
    if before == [] {
      assert x[0] == b && y[0] == b' && x[1..] == after == y[1..];
    } else {
      assert x[0] == before[0] == y[0] && x[1..] == before[1..] + [b] + after && y[1..] == before[1..] + [b'] + after;
      SameGive(before[1..], b, b', after, language, seen, found);
      if IsWanted(before[0], language) {
        SameGive(before[1..], b, b', after, language, true, Some(Concat(before[0].content)));
      }
    }
  }
}
