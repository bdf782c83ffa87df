/**
 * The profile's lines, form by form: which lines it refuses outside fences, which open a fence and which close
 * one, each as the bytes it is made of.
 */
module GuideForms {
  import opened ByteStrings
  import opened Search
  import opened GuideSample

  predicate IsPad(s: Bytes) { forall i :: 0 <= i < |s| ==> s[i] in {32, 9} }

  /** Nothing follows, or a space or tab does. */
  predicate EndsWord(rest: Bytes) { rest == [] || rest[0] in {32, 9} }

  // ---- Lines refused outside fences ----

  /** `-`, `+` or `*`, then a space, a tab or nothing. */
  ghost predicate IsBullet(line: Bytes) {
    exists mark, rest :: mark in {45, 43, 42} && line == [mark] + rest && EndsWord(rest)
  }

  predicate IsNumber(s: Bytes) { s != [] && forall i :: 0 <= i < |s| ==> 48 <= s[i] <= 57 }

  /** A number, `.` or `)`, then a space, a tab or nothing. */
  ghost predicate IsNumbered(line: Bytes) {
    exists number, mark, rest :: IsItem(line, number, mark, rest)
  }

  predicate IsItem(line: Bytes, number: Bytes, mark: byte, rest: Bytes) {
    IsNumber(number) && mark in {46, 41} && line == number + [mark] + rest && EndsWord(rest)
  }

  ghost predicate Holds(line: Bytes, pat: Bytes) { exists a, b :: line == a + pat + b }

  /** `[` at the start, and a definition's `]:` or no link's `](`. */
  ghost predicate IsReference(line: Bytes) { [91] <= line && (Holds(line, [93, 58]) || !Holds(line, [93, 40])) }

  /** Indented, a list item, a reference, a quote, a directive, a rule, or with HTML in it. */
  ghost predicate IsRefused(line: Bytes) {
    !IsPad(line) &&
    (|| line[0] in {32, 9} || IsBullet(line) || IsNumbered(line) || IsReference(line) || [62] <= line
     || [58, 58, 58] <= line || [45, 45, 45] <= line || [43, 43, 43] <= line || 60 in line)
  }

  lemma {:induction false} DigitsAre(line: Bytes)
    ensures var n := Digits(line);
            (forall i :: 0 <= i < n ==> 48 <= line[i] <= 57) && (n < |line| ==> !(48 <= line[n] <= 57))
    decreases |line|
  {
    if line != [] && Digit(line[0]) { DigitsAre(line[1..]); }
  }

  predicate StartsNumbered(line: Bytes, n: nat) {
    0 < n < |line| && (line[n] == 46 || line[n] == 41) && (|line| == n + 1 || Horizontal(line[n + 1]))
  }

  lemma NumberFound(line: Bytes)
    requires StartsNumbered(line, Digits(line))
    ensures IsItem(line, line[..Digits(line)], line[Digits(line)], line[Digits(line) + 1..])
  {
    DigitsAre(line);
  }

  lemma NumberIs(line: Bytes, number: Bytes, mark: byte, rest: Bytes)
    requires IsItem(line, number, mark, rest)
    ensures Digits(line) == |number| && StartsNumbered(line, |number|)
  {
    DigitsAre(line);
    assert forall i :: 0 <= i < |number| ==> line[i] == number[i];
    assert line[|number|] == mark && (rest != [] ==> line[|number| + 1] == rest[0]);
  }

  lemma NumberedIff(line: Bytes)
    ensures IsNumbered(line) <==> StartsNumbered(line, Digits(line))
  {
    if StartsNumbered(line, Digits(line)) { NumberFound(line); }
    if number, mark, rest :| IsItem(line, number, mark, rest) { NumberIs(line, number, mark, rest); }
  }

  lemma BulletIff(line: Bytes)
    ensures IsBullet(line) <==> line != [] && line[0] in {45, 43, 42} && (|line| == 1 || Horizontal(line[1]))
  {
    if line != [] && line[0] in {45, 43, 42} && (|line| == 1 || Horizontal(line[1])) {
      assert line == [line[0]] + line[1..] && EndsWord(line[1..]);
    }
  }

  lemma HoldsIff(line: Bytes, pat: Bytes)
    ensures Holds(line, pat) <==> Find(line, pat, 0) >= 0
  {
    var i := Find(line, pat, 0);
    if i >= 0 { assert line == line[..i] + pat + line[i + |pat|..]; }
    if a, b :| line == a + pat + b { assert line[|a|..|a| + |pat|] == pat && OccursAt(line, pat, |a|); }
  }

  /** Outside fences, exactly these lines are refused. */
  lemma RefusedIff(line: Bytes)
    ensures UnsupportedContext(line) <==> IsRefused(line)
  {
    BulletIff(line);
    NumberedIff(line);
    HoldsIff(line, [93, 58]);
    HoldsIff(line, [93, 40]);
    assert Blank(line) <==> IsPad(line);
    assert line != [] ==> ([91] <= line <==> line[0] == 91) && ([62] <= line <==> line[0] == 62);
  }

  // ---- Fences ----

  /** A line of at least three marks and what follows them. */
  predicate IsDelimiter(line: Bytes, kind: byte, w: nat, rest: Bytes) {
    kind in {96, 126} && w >= 3 && line == Marks(kind, w) + rest && (rest != [] ==> rest[0] != kind)
  }

  lemma DelimiterIff(line: Bytes, kind: byte, w: nat, rest: Bytes)
    ensures Delimiter(line) == Some((kind, w, rest)) <==> IsDelimiter(line, kind, w, rest)
  {
    if Delimiter(line) == Some((kind, w, rest)) {
      RunHolds(line, kind);
      RunEnds(line, kind);
      assert line == Marks(kind, w) + rest;
    }
    if IsDelimiter(line, kind, w, rest) {
      assert line[0] == kind && (forall i :: 0 <= i < w ==> line[i] == kind) && (rest != [] ==> line[w] == rest[0]);
      RunIs(line, kind, w);
      assert line[w..] == rest;
    }
  }

  lemma {:induction false} RunEnds(line: Bytes, b: byte)
    ensures Run(line, b) < |line| ==> line[Run(line, b)] != b
    decreases |line|
  {
    if line != [] && line[0] == b { RunEnds(line[1..], b); }
  }

  /** At most three spaces, at least as many marks of the kind, and then only spaces and tabs. */
  predicate IsCloser(line: Bytes, fence: Fence, n: nat, w: nat, rest: Bytes) {
    && n <= 3 && w >= 3 && w >= fence.width && fence.kind in {96, 126}
    && line == Marks(32, n) + (Marks(fence.kind, w) + rest) && IsPad(rest)
  }

  lemma CloserFound(line: Bytes, fence: Fence)
    requires Closes(line, fence)
    ensures exists n, w, rest :: IsCloser(line, fence, n, w, rest)
  {
    var n := Run(line, 32);
    var tail := line[n..];
    var (kind, w, rest) := Delimiter(tail).value;
    RunHolds(line, 32);
    DelimiterIff(tail, kind, w, rest);
    assert line[..n] == Marks(32, n) && line == line[..n] + tail;
    assert IsCloser(line, fence, n, w, rest);
  }

  lemma CloserIs(line: Bytes, fence: Fence, n: nat, w: nat, rest: Bytes)
    requires IsCloser(line, fence, n, w, rest)
    ensures Closes(line, fence)
  {
    var tail := Marks(fence.kind, w) + rest;
    assert tail[0] == fence.kind && line[n] == tail[0] && forall i :: 0 <= i < n ==> line[i] == 32;
    RunIs(line, 32, n);
    assert line[n..] == tail;
    DelimiterIff(tail, fence.kind, w, rest);
  }

  /** A line closes a fence exactly when it is such a line. */
  lemma ClosesIff(line: Bytes, fence: Fence)
    ensures Closes(line, fence) <==> exists n, w, rest :: IsCloser(line, fence, n, w, rest)
  {
    if Closes(line, fence) { CloserFound(line, fence); }
    if n, w, rest :| IsCloser(line, fence, n, w, rest) { CloserIs(line, fence, n, w, rest); }
  }

  /** What follows the marks: a token, up to the first space or tab after the padding, and more. */
  predicate IsInfo(info: Bytes, pad: Bytes, token: Bytes, more: Bytes) {
    && info == pad + token + more && IsPad(pad) && (forall i :: 0 <= i < |token| ==> token[i] !in {32, 9})
    && (more != [] ==> more[0] in {32, 9} && token != [])
  }

  predicate IsTokenByte(b: byte) { 48 <= b <= 57 || 65 <= b <= 90 || 97 <= b <= 122 || b in {95, 45, 43} }

  /** Letters are compared without case. */
  predicate SameToken(a: Bytes, b: Bytes) { |a| == |b| && forall i :: 0 <= i < |a| ==> SameLetter(a[i], b[i]) }

  predicate SameLetter(a: byte, b: byte) {
    a == b || (65 <= a <= 90 && b == a + 32) || (65 <= b <= 90 && a == b + 32)
  }

  /** What a line of marks opens, from its parts. */
  function Opened(kind: byte, w: nat, info: Bytes, token: Bytes, more: Bytes, language: Bytes): Opening {
    if kind == 96 && 96 in info then Refused
    else if exists i :: 0 <= i < |token| && !IsTokenByte(token[i]) then Refused
    else if SameToken(token, language) && !IsPad(more) then Refused
    else Opens(Fence(kind, w, SameToken(token, language)))
  }

  lemma {:induction false} TrimLeftIs(s: Bytes) returns (pad: Bytes)
    ensures s == pad + TrimLeft(s) && IsPad(pad) && (TrimLeft(s) != [] ==> TrimLeft(s)[0] !in {32, 9})
    decreases |s|
  {
    pad := [];
    if s != [] && Horizontal(s[0]) {
      var rest := TrimLeftIs(s[1..]);
      pad := [s[0]] + rest;
      assert s == [s[0]] + s[1..];
    }
  }

  lemma {:induction false} TrimRightEnds(s: Bytes)
    ensures var r := TrimRight(s);
            && r <= s && (r != [] ==> r[|r| - 1] !in {32, 9}) && forall i :: |r| <= i < |s| ==> s[i] in {32, 9}
    decreases |s|
  {
    if s != [] && Horizontal(s[|s| - 1]) { TrimRightEnds(s[..|s| - 1]); }
  }

  lemma TrimRightIs(s: Bytes) returns (pad: Bytes)
    ensures s == TrimRight(s) + pad && IsPad(pad)
    ensures TrimRight(s) != [] ==> TrimRight(s)[|TrimRight(s)| - 1] !in {32, 9}
  {
    TrimRightEnds(s);
    pad := s[|TrimRight(s)|..];
  }

  lemma {:induction false} TokenEndIs(s: Bytes)
    ensures var n := TokenEnd(s); (forall i :: 0 <= i < n ==> s[i] !in {32, 9}) && (n < |s| ==> s[n] in {32, 9})
    decreases |s|
  {
    if s != [] && !Horizontal(s[0]) { TokenEndIs(s[1..]); }
  }

  lemma EqIs(a: Bytes, b: Bytes)
    ensures EqIgnoreCase(a, b) <==> SameToken(a, b)
  {
    assert forall x: byte, y: byte :: Lower(x) == Lower(y) <==> SameLetter(x, y);
  }

  lemma PadJoin(a: Bytes, b: Bytes)
    ensures IsPad(a + b) <==> IsPad(a) && IsPad(b)
  {
    assert forall i :: 0 <= i < |a| ==> (a + b)[i] == a[i];
    assert forall i :: 0 <= i < |b| ==> (a + b)[|a| + i] == b[i];
  }

  lemma TrimEmptyIff(s: Bytes)
    ensures Trim(s) == [] <==> IsPad(s)
  {
    var left := TrimLeftIs(s);
    var right := TrimRightIs(TrimLeft(s));
    PadJoin(left, TrimLeft(s));
    PadJoin(Trim(s), right);
    assert Trim(s) != [] ==> !IsPad(Trim(s));
  }

  /** The parts of what follows the marks, as the reader takes them. */
  lemma InfoParts(info: Bytes) returns (pad: Bytes, token: Bytes, more: Bytes)
    ensures IsInfo(info, pad, token, more)
    ensures var trimmed := Trim(info); var end := TokenEnd(trimmed);
            token == trimmed[..end] && (Trim(trimmed[end..]) == [] <==> IsPad(more))
  {
    pad := TrimLeftIs(info);
    var left := TrimLeft(info);
    var right := TrimRightIs(left);
    var trimmed := Trim(info);
    var end := TokenEnd(trimmed);
    TokenEndIs(trimmed);
    token, more := trimmed[..end], trimmed[end..] + right;
    TrimEmptyIff(trimmed[end..]);
    PadJoin(trimmed[end..], right);
    PartsJoin(info, pad, left, trimmed, right, end);
    FirstOfTrimmed(left, trimmed, right, end);
  }

  lemma PartsJoin(info: Bytes, pad: Bytes, left: Bytes, trimmed: Bytes, right: Bytes, end: nat)
    requires info == pad + left && left == trimmed + right && end <= |trimmed|
    ensures info == pad + trimmed[..end] + (trimmed[end..] + right)
  {
  }

  lemma FirstOfTrimmed(left: Bytes, trimmed: Bytes, right: Bytes, end: nat)
    requires left == trimmed + right && trimmed == TrimRight(left) && IsPad(right) && end == TokenEnd(trimmed)
    requires left != [] ==> left[0] !in {32, 9}
    ensures var more := trimmed[end..] + right; more != [] ==> more[0] in {32, 9} && trimmed[..end] != []
  {
    TokenEndIs(trimmed);
    var more := trimmed[end..] + right;
    if more != [] {
      assert end < |trimmed| ==> more[0] == trimmed[end];
      assert end == |trimmed| ==> more[0] == right[0];
      assert trimmed == [] ==> left == right;
      assert right != [] ==> right[0] in {32, 9};
      assert trimmed != [] ==> trimmed[0] == left[0] && end > 0;
    }
  }

  /** A line outside fences opens one, is refused or is no fence, exactly by its parts. */
  lemma OpenIs(line: Bytes, language: Bytes)
    ensures Open(line, language) == NotFence <==> forall kind: byte, w: nat, info :: !IsDelimiter(line, kind, w, info)
    ensures forall kind: byte, w: nat, info :: IsDelimiter(line, kind, w, info) ==>
              exists pad, token, more :: IsInfo(info, pad, token, more)
                                         && Open(line, language) == Opened(kind, w, info, token, more, language)
  {
    forall kind: byte, w: nat, info
      ensures Delimiter(line) == Some((kind, w, info)) <==> IsDelimiter(line, kind, w, info)
    {
      DelimiterIff(line, kind, w, info);
    }
    if Delimiter(line).Some? {
      var (kind, w, info) := Delimiter(line).value;
      assert IsDelimiter(line, kind, w, info);
      OpenParts(line, language, kind, w, info);
    }
  }

  lemma OpenParts(line: Bytes, language: Bytes, kind: byte, w: nat, info: Bytes)
    requires Delimiter(line) == Some((kind, w, info))
    ensures Open(line, language) != NotFence
    ensures exists pad, token, more :: IsInfo(info, pad, token, more)
                                       && Open(line, language) == Opened(kind, w, info, token, more, language)
  {
    var pad, token, more := InfoParts(info);
    var trimmed := Trim(info);
    var end := TokenEnd(trimmed);
    EqIs(token, language);
    assert forall i :: 0 <= i < end ==> token[i] == trimmed[i] && (TokenByte(token[i]) <==> IsTokenByte(token[i]));
    assert Open(line, language) == Opened(kind, w, info, token, more, language);
  }

  // ---- Line ends and bytes ----

  /** A line without its ending: a line feed, and a carriage return before it or alone. */
  lemma MarkerIs(line: Bytes)
    ensures var m := Marker(line);
            || (line == m && (m != [] ==> m[|m| - 1] !in {10, 13}))
            || (line == m + [10] && (m != [] ==> m[|m| - 1] != 13))
            || line == m + [13] || line == m + [13, 10]
  {
    var m := Marker(line);
    var n := |line|;
    assert n > 0 ==> line == line[..n - 1] + [line[n - 1]];
    assert n > 1 ==> line == line[..n - 2] + [line[n - 2], line[n - 1]] && line[..n - 1][..n - 2] == line[..n - 2];
  }

  /** A control byte other than tab, line feed and carriage return. */
  predicate IsControl(document: Bytes, i: nat) { i < |document| && document[i] < 32 && document[i] !in {9, 10, 13} }

  predicate IsLoneReturn(document: Bytes, i: nat) {
    i < |document| && document[i] == 13 && !(i + 1 < |document| && document[i + 1] == 10)
  }

  /** Documents that are refused for their bytes. */
  lemma BadEncodingIff(document: Bytes)
    ensures BadEncoding(document) <==>
            || [0xef, 0xbb, 0xbf] <= document || (exists i :: IsControl(document, i))
            || exists i :: IsLoneReturn(document, i)
  {
    forall i: nat | i < |document|
      ensures BadByte(document, i) <==> IsControl(document, i) || IsLoneReturn(document, i)
    {
    }
    if i :| 0 <= i < |document| && BadByte(document, i) { assert IsControl(document, i) || IsLoneReturn(document, i); }
    if i: nat :| IsControl(document, i) { assert BadByte(document, i); }
    if i: nat :| IsLoneReturn(document, i) { assert BadByte(document, i); }
  }

  lemma AllWhitespaceIff(s: Bytes)
    ensures AllWhitespace(s) <==> forall i :: 0 <= i < |s| ==> s[i] in {9, 10, 12, 13, 32}
  {
  }

  /** A line that front matter may not hold: it starts with three dashes or three dots. */
  predicate EndsFront(line: Bytes) { [45, 45, 45] <= Marker(line) || [46, 46, 46] <= Marker(line) }

  /** Front matter is what two lines of three dashes enclose, with no such line between them. */
  lemma FrontIff(b: Block)
    ensures IsFront(b) <==>
            && b.Front? && Marker(b.opener) == [45, 45, 45] && Marker(b.closer) == [45, 45, 45]
            && forall i {:trigger EndsFront(b.content[i])} :: 0 <= i < |b.content| ==> !EndsFront(b.content[i])
  {
    if b.Front? {
      forall i | 0 <= i < |b.content| ensures FrontEnd(b.content[i]) <==> EndsFront(b.content[i]) { }
    }
  }
}
