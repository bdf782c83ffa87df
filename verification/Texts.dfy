/** Characters and the order of strings, as Python has them. */
module Texts {

  predicate IsBreak(c: char) {
    0x0a as char <= c <= 0x0d as char || 0x1c as char <= c <= 0x1e as char
    || c in {0x85 as char, 0x2028 as char, 0x2029 as char}
  }

  predicate IsSpace(c: char) {
    IsBreak(c) || 0x2000 as char <= c <= 0x200a as char
    || c in {' ', '\t', 0x1f as char, 0xa0 as char, 0x1680 as char, 0x202f as char, 0x205f as char, 0x3000 as char}
  }

  predicate NoBreak(s: string) { forall i :: 0 <= i < |s| ==> !IsBreak(s[i]) }

  predicate NoSpace(s: string) { forall i :: 0 <= i < |s| ==> !IsSpace(s[i]) }

  predicate AllSpace(s: string) { forall i :: 0 <= i < |s| ==> IsSpace(s[i]) }

  predicate Leq(a: string, b: string) {
    a == [] || (b != [] && (a[0] < b[0] || (a[0] == b[0] && Leq(a[1..], b[1..]))))
  }

  lemma {:induction false} LeqOrder(a: string, b: string, c: string)
    ensures Leq(a, b) || Leq(b, a)
    ensures Leq(a, b) && Leq(b, a) ==> a == b
    ensures Leq(a, b) && Leq(b, c) ==> Leq(a, c)
  {
    if a != [] && b != [] {
      LeqOrder(a[1..], b[1..], if c == [] then [] else c[1..]);
      assert a == [a[0]] + a[1..] && b == [b[0]] + b[1..];
    }
  }

  /** The texts part at `i`, where the first has the smaller character or ends. */
  predicate PartsAt(a: string, b: string, i: int) {
    0 <= i <= |a| && i <= |b| && a[..i] == b[..i] && (i == |a| || (i < |b| && a[i] < b[i]))
  }

  /** One text is up to another exactly when it starts it, or is smaller where the two first differ. */
  lemma {:induction false} LeqIff(a: string, b: string)
    ensures Leq(a, b) <==> exists i :: PartsAt(a, b, i)
    decreases |a|
  {
    if a == [] {
      assert PartsAt(a, b, 0);
    } else if b != [] {
      LeqIff(a[1..], b[1..]);
      if a[0] < b[0] { assert PartsAt(a, b, 0); }
      if i :| a[0] == b[0] && PartsAt(a[1..], b[1..], i) {
        assert a[..i + 1] == [a[0]] + a[1..][..i] && b[..i + 1] == [b[0]] + b[1..][..i];
        assert PartsAt(a, b, i + 1);
      }
      if i :| PartsAt(a, b, i) && i > 0 {
        assert a[..i][0] == b[..i][0] && a[1..][..i - 1] == a[..i][1..] && b[1..][..i - 1] == b[..i][1..];
        assert PartsAt(a[1..], b[1..], i - 1);
      }
    } else {
      assert forall i :: !PartsAt(a, b, i);
    }
  }

  function TrimLeft(s: string): (r: string)
    ensures |r| <= |s| && (r != [] ==> !IsSpace(r[0]))
    ensures s != [] && IsSpace(s[0]) ==> |r| < |s|
    ensures s != [] && !IsSpace(s[0]) ==> r == s
  {
    if s != [] && IsSpace(s[0]) then TrimLeft(s[1..]) else s
  }

  function TrimRight(s: string): (r: string)
    ensures r <= s && (s != [] && !IsSpace(s[|s| - 1]) ==> r == s)
  {
    if s != [] && IsSpace(s[|s| - 1]) then TrimRight(s[..|s| - 1]) else s
  }

  lemma {:induction false} TrimUnbroken(s: string)
    requires NoBreak(s)
    ensures NoBreak(TrimLeft(s))
  {
    if s != [] && IsSpace(s[0]) { TrimUnbroken(s[1..]); }
  }

  /** Trimming takes the space off, and only that. */
  lemma {:induction false} TrimLeftIs(s: string) returns (pad: string)
    ensures AllSpace(pad) && s == pad + TrimLeft(s)
    decreases |s|
  {
    pad := [];
    if s != [] && IsSpace(s[0]) {
      var rest := TrimLeftIs(s[1..]);
      pad := [s[0]] + rest;
      assert s == [s[0]] + s[1..];
    }
  }

  lemma {:induction false} TrimLeftPad(pad: string, rest: string)
    requires AllSpace(pad) && (rest != [] ==> !IsSpace(rest[0]))
    ensures TrimLeft(pad + rest) == rest
    decreases |pad|
  {
    if pad == [] {
      assert pad + rest == rest;
    } else {
      assert (pad + rest)[1..] == pad[1..] + rest;
      TrimLeftPad(pad[1..], rest);
    }
  }

  lemma {:induction false} TrimRightIs(s: string)
    ensures var r := TrimRight(s);
            && (r != [] ==> !IsSpace(r[|r| - 1])) && forall i :: |r| <= i < |s| ==> IsSpace(s[i])
    decreases |s|
  {
    if s != [] && IsSpace(s[|s| - 1]) { TrimRightIs(s[..|s| - 1]); }
  }

  function SpacesAt(line: string): (n: nat)
    ensures n <= |line| && (forall i :: 0 <= i < n ==> IsSpace(line[i])) && (n < |line| ==> !IsSpace(line[n]))
  {
    if line == [] || !IsSpace(line[0]) then 0 else 1 + SpacesAt(line[1..])
  }

  function RunAt(s: string, c: char): (n: nat)
    ensures n <= |s| && (forall i :: 0 <= i < n ==> s[i] == c) && (n < |s| ==> s[n] != c)
  {
    if s == [] || s[0] != c then 0 else 1 + RunAt(s[1..], c)
  }

  function DigitsAt(s: string): (n: nat)
    ensures n <= |s|
  {
    if s == [] || !('0' <= s[0] <= '9') then 0 else 1 + DigitsAt(s[1..])
  }

  /** Lower case, for the letters that headings and links are compared by. */
  function Lower(c: char): char { if 'A' <= c <= 'Z' then c - 'A' + 'a' else c }

  /** Whether a text starts so, in any case. */
  predicate PrefixNoCase(prefix: string, s: string) {
    prefix == [] || (s != [] && Lower(prefix[0]) == Lower(s[0]) && PrefixNoCase(prefix[1..], s[1..]))
  }

  lemma {:induction false} PrefixIff(prefix: string, s: string)
    ensures PrefixNoCase(prefix, s) <==>
            |prefix| <= |s| && forall i :: 0 <= i < |prefix| ==> Lower(prefix[i]) == Lower(s[i])
    decreases |prefix|
  {
    if prefix != [] && s != [] {
      var p, t := prefix[1..], s[1..];
      PrefixIff(p, t);
      assert forall i :: 0 <= i < |p| ==> p[i] == prefix[i + 1];
      assert forall i :: 0 <= i < |t| ==> t[i] == s[i + 1];
      if forall i :: 0 <= i < |prefix| && i < |s| ==> Lower(prefix[i]) == Lower(s[i]) {
        forall i | 0 <= i < |p| && i < |t| ensures Lower(p[i]) == Lower(t[i]) {
          assert Lower(prefix[i + 1]) == Lower(s[i + 1]);
        }
      }
      if Lower(prefix[0]) == Lower(s[0]) && forall i :: 0 <= i < |p| && i < |t| ==> Lower(p[i]) == Lower(t[i]) {
        forall i | 1 <= i < |prefix| && i < |s| ensures Lower(prefix[i]) == Lower(s[i]) {
          assert Lower(p[i - 1]) == Lower(t[i - 1]);
        }
      }
    }
  }

  predicate SameNoCase(a: string, b: string) { |a| == |b| && PrefixNoCase(a, b) }

  /** The same character, or a letter and its capital. */
  predicate SameLetter(a: char, b: char) {
    a == b || ('A' <= a <= 'Z' && b as int == a as int + 32) || ('A' <= b <= 'Z' && a as int == b as int + 32)
  }

  /** Texts are the same but for case exactly when their letters are. */
  lemma SameNoCaseIff(a: string, b: string)
    ensures SameNoCase(a, b) <==> |a| == |b| && forall i :: 0 <= i < |a| ==> SameLetter(a[i], b[i])
  {
    PrefixIff(a, b);
    assert forall x: char, y: char :: Lower(x) == Lower(y) <==> SameLetter(x, y);
  }

  lemma SameNoCaseSelf(a: string)
    ensures SameNoCase(a, a)
  {
    PrefixIff(a, a);
  }

  /** Texts that differ only in case are alike to every third. */
  lemma SameNoCaseTrans(a: string, b: string, c: string)
    requires SameNoCase(a, b)
    ensures SameNoCase(b, a) && (SameNoCase(b, c) <==> SameNoCase(a, c)) && (SameNoCase(c, a) <==> SameNoCase(c, b))
  {
    PrefixIff(a, b);
    PrefixIff(b, a);
    PrefixIff(a, c);
    PrefixIff(b, c);
    PrefixIff(c, a);
    PrefixIff(c, b);
  }

  // ---- Lines ----

  /** A character before the text of these lines. */
  function Prepend(c: char, lines: seq<string>): seq<string> {
    if IsBreak(c) then [""] + lines else if lines == [] then [[c]] else [[c] + lines[0]] + lines[1..]
  }

  /** Lines without their breaks. A CR LF pair gives one more empty line here, which every reader here skips. */
  function SplitLines(text: string): seq<string> {
    if text == [] then [] else Prepend(text[0], SplitLines(text[1..]))
  }

  lemma PrependAppend(c: char, a: seq<string>, b: seq<string>)
    requires a != [] || IsBreak(c)
    ensures Prepend(c, a + b) == Prepend(c, a) + b
  {
    if IsBreak(c) {
      assert [""] + (a + b) == [""] + a + b;
    } else {
      assert (a + b)[0] == a[0] && (a + b)[1..] == a[1..] + b;
    }
  }

  lemma {:induction false} LinesCons(line: string, rest: string)
    requires NoBreak(line)
    ensures SplitLines(line + "\n" + rest) == [line] + SplitLines(rest)
    decreases |line|
  {
    var text := line + "\n" + rest;
    if line == [] {
      assert text[0] == '\n' && text[1..] == rest;
    } else {
      assert text[0] == line[0] && text[1..] == line[1..] + "\n" + rest;
      LinesCons(line[1..], rest);
      PrependAppend(line[0], [line[1..]], SplitLines(rest));
      assert [line[0]] + line[1..] == line;
    }
  }

  lemma {:induction false} LinesUnbroken(text: string)
    ensures forall i :: 0 <= i < |SplitLines(text)| ==> NoBreak(SplitLines(text)[i])
    decreases |text|
  {
    if text != [] { LinesUnbroken(text[1..]); }
  }

  /** Lines of text after a line end are lines after those before it. */
  lemma {:induction false} LinesAppend(a: string, end: char, b: string)
    requires IsBreak(end)
    ensures SplitLines(a + [end] + b) == SplitLines(a + [end]) + SplitLines(b) && SplitLines(a + [end]) != []
    decreases |a|
  {
    var text, top := a + [end] + b, a + [end];
    if a == [] {
      assert text[0] == top[0] == end && text[1..] == b && top[1..] == [];
      PrependAppend(end, [], SplitLines(b));
    } else {
      assert text[0] == top[0] == a[0] && text[1..] == a[1..] + [end] + b && top[1..] == a[1..] + [end];
      LinesAppend(a[1..], end, b);
      PrependAppend(a[0], SplitLines(top[1..]), SplitLines(b));
    }
  }
}
