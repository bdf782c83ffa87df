/** SHA256SUMS: writing it from a map of digests, and reading it back. */
module ChecksumList {
  import opened Search
  import opened Texts

  /** Names to the digests that stand beside them. */
  type Digests = map<string, string>

  /** The names that survive a round trip. */
  predicate GoodName(name: string) {
    name != [] && !IsSpace(name[0]) && name[0] != '*' && NoBreak(name)
  }

  predicate GoodDigest(digest: string) { digest != [] && NoSpace(digest) }

  // ---- Names in order ----

  predicate IsLeast(n: string, names: set<string>) {
    n in names && forall x :: x in names ==> Leq(n, x)
  }

  lemma {:induction false} LeastExists(names: set<string>) returns (n: string)
    requires names != {}
    ensures IsLeast(n, names)
  {
    var m :| m in names;
    if names == {m} {
      n := m;
      LeqOrder(m, m, m);
    } else {
      n := LeastExists(names - {m});
      var l := n;
      if !Leq(n, m) { n := m; }
      LeqOrder(l, m, m);
      forall x | x in names ensures Leq(n, x) {
        if x != m { LeqOrder(n, l, x); } else { LeqOrder(m, m, m); }
      }
    }
  }

  function Least(names: set<string>): (n: string)
    requires names != {}
    ensures IsLeast(n, names)
  {
    assert exists n :: IsLeast(n, names) by { var n := LeastExists(names); }
    assert forall a, b :: IsLeast(a, names) && IsLeast(b, names) ==> a == b by {
      forall a, b | IsLeast(a, names) && IsLeast(b, names) ensures a == b { LeqOrder(a, b, b); }
    }
    var n :| IsLeast(n, names); n
  }

  function SortedNames(names: set<string>): (s: seq<string>)
    ensures forall n :: n in s <==> n in names
    decreases |names|
  {
    if names == {} then [] else var n := Least(names); [n] + SortedNames(names - {n})
  }

  /** Names are listed each once, in the order of texts. */
  lemma {:induction false} NamesAscend(names: set<string>, i: nat, j: nat)
    requires i < j < |SortedNames(names)|
    ensures var s := SortedNames(names); s[i] != s[j] && exists k :: PartsAt(s[i], s[j], k)
    decreases |names|
  {
    var n := Least(names);
    var rest := SortedNames(names - {n});
    if i > 0 {
      NamesAscend(names - {n}, i - 1, j - 1);
    } else {
      assert rest[j - 1] in rest && rest[j - 1] in names - {n};
      LeqIff(n, rest[j - 1]);
    }
  }

  // ---- Writing ----

  function SumsLine(digest: string, name: string): string { digest + "  " + name + "\n" }

  function WriteNames(names: seq<string>, digests: Digests): string
    requires forall n :: n in names ==> n in digests
  {
    if names == [] then [] else SumsLine(digests[names[0]], names[0]) + WriteNames(names[1..], digests)
  }

  /** The file's text, in sha256sum's format. */
  function SumsText(digests: Digests): string {
    WriteNames(SortedNames(digests.Keys), digests)
  }

  // ---- Reading ----

  function SpaceIndex(s: string): (i: nat)
    ensures i <= |s| && NoSpace(s[..i]) && (i < |s| ==> IsSpace(s[i]))
  {
    if s == [] || IsSpace(s[0]) then 0 else 1 + SpaceIndex(s[1..])
  }

  function StripStars(s: string): (r: string)
    ensures |r| <= |s| && (r != [] ==> r[0] != '*')
    ensures s != [] && s[0] != '*' ==> r == s
    ensures NoBreak(s) ==> NoBreak(r)
  {
    if s != [] && s[0] == '*' then StripStars(s[1..]) else s
  }

  /** A line's digest and name; None when it holds one word only, which stops the reader. */
  function ReadLine(line: string): Option<(string, string)>
    requires TrimLeft(line) != []
  {
    var words := TrimLeft(line);
    var i := SpaceIndex(words);
    var rest := TrimLeft(words[i..]);
    if rest == [] then None else Some((words[..i], StripStars(rest)))
  }

  function ReadLines(lines: seq<string>, sums: Digests): Option<Digests> {
    if lines == [] then Some(sums)
    else if TrimLeft(lines[0]) == [] then ReadLines(lines[1..], sums)
    else match ReadLine(lines[0])
      case None => None
      case Some((digest, name)) => ReadLines(lines[1..], sums[name := digest])
  }

  function ParseSums(text: string): Option<Digests> { ReadLines(SplitLines(text), map[]) }

  /** The loop the script runs. */
  method ReadSums(text: string) returns (r: Option<Digests>)
    ensures r == ParseSums(text)
  {
    var lines := SplitLines(text);
    var sums: Digests := map[];
    for n := 0 to |lines|
      invariant ReadLines(lines[n..], sums) == ParseSums(text)
    {
      if TrimLeft(lines[n]) != [] {
        var parsed := ReadLine(lines[n]);
        if parsed.None? { return None; }
        sums := sums[parsed.value.1 := parsed.value.0];
      }
    }
    r := Some(sums);
  }

  // ---- The round trip ----

  /** What the reader makes of a line the writer wrote. */
  lemma WrittenLine(digest: string, name: string)
    requires GoodDigest(digest)
    ensures TrimLeft(digest + "  " + name) != []
    ensures ReadLine(digest + "  " + name) ==
            if TrimLeft(name) == [] then None else Some((digest, StripStars(TrimLeft(name))))
  {
    var line := digest + "  " + name;
    assert line[0] == digest[0] && TrimLeft(line) == line;
    var i := SpaceIndex(line);
    assert line[|digest|] == ' ' && forall j :: 0 <= j < |digest| ==> line[j] == digest[j];
    assert i == |digest| && line[..i] == digest && line[i..] == "  " + name;
    assert ("  " + name)[1..] == " " + name && (" " + name)[1..] == name;
    assert TrimLeft("  " + name) == TrimLeft(name);
  }

  /** One written line, read. */
  lemma ReadStep(digest: string, name: string, rest: string, sums: Digests)
    requires GoodDigest(digest) && NoBreak(name)
    ensures ReadLines(SplitLines(SumsLine(digest, name) + rest), sums) ==
            if TrimLeft(name) == [] then None
            else ReadLines(SplitLines(rest), sums[StripStars(TrimLeft(name)) := digest])
  {
    var line := digest + "  " + name;
    assert NoBreak(line);
    assert SumsLine(digest, name) + rest == line + "\n" + rest;
    LinesCons(line, rest);
    WrittenLine(digest, name);
    var lines := [line] + SplitLines(rest);
    assert lines[0] == line && lines[1..] == SplitLines(rest);
  }

  /** The reader at work on what the writer wrote, name by name. */
  function ReadBack(names: seq<string>, digests: Digests, sums: Digests): Option<Digests>
    requires forall n :: n in names ==> n in digests
  {
    if names == [] then Some(sums)
    else if TrimLeft(names[0]) == [] then None
    else ReadBack(names[1..], digests, sums[StripStars(TrimLeft(names[0])) := digests[names[0]]])
  }

  lemma {:induction false} ReadWritten(names: seq<string>, digests: Digests, sums: Digests)
    requires forall n :: n in names ==> n in digests && NoBreak(n) && GoodDigest(digests[n])
    ensures ReadLines(SplitLines(WriteNames(names, digests)), sums) == ReadBack(names, digests, sums)
    decreases |names|
  {
    if names != [] {
      var n := names[0];
      ReadStep(digests[n], n, WriteNames(names[1..], digests), sums);
      if TrimLeft(n) != [] {
        ReadWritten(names[1..], digests, sums[StripStars(TrimLeft(n)) := digests[n]]);
      }
    }
  }

  function Restrict(names: seq<string>, digests: Digests): Digests { map n | n in names && n in digests :: digests[n] }

  lemma {:induction false} ReadBackGood(names: seq<string>, digests: Digests, sums: Digests)
    requires forall n :: n in names ==> n in digests && GoodName(n)
    ensures ReadBack(names, digests, sums) == Some(sums + Restrict(names, digests))
    decreases |names|
  {
    if names == [] {
      assert sums + Restrict(names, digests) == sums;
    } else {
      var n := names[0];
      ReadBackGood(names[1..], digests, sums[n := digests[n]]);
      JoinFirst(names, digests, sums);
    }
  }

  lemma JoinFirst(names: seq<string>, digests: Digests, sums: Digests)
    requires names != [] && forall n :: n in names ==> n in digests
    ensures sums[names[0] := digests[names[0]]] + Restrict(names[1..], digests) == sums + Restrict(names, digests)
  {
    assert forall x :: x in names <==> x == names[0] || x in names[1..];
  }

  /** Good names survive: reading inverts writing. */
  lemma RoundTrip(digests: Digests)
    requires forall n :: n in digests ==> GoodDigest(digests[n]) && GoodName(n)
    ensures ParseSums(SumsText(digests)) == Some(digests)
  {
    var names := SortedNames(digests.Keys);
    ReadWritten(names, digests, map[]);
    ReadBackGood(names, digests, map[]);
    assert map[] + Restrict(names, digests) == digests;
  }

  /** So the text says which files it is for. */
  lemma SumsTextInjective(a: Digests, b: Digests)
    requires forall n :: n in a ==> GoodDigest(a[n]) && GoodName(n)
    requires forall n :: n in b ==> GoodDigest(b[n]) && GoodName(n)
    requires SumsText(a) == SumsText(b)
    ensures a == b
  {
    RoundTrip(a);
    RoundTrip(b);
  }

  // ---- And only they do ----

  /** No name that is read starts with a star or holds a line break. */
  lemma {:induction false} ReadNames(lines: seq<string>, sums: Digests)
    requires forall i :: 0 <= i < |lines| ==> NoBreak(lines[i])
    requires forall n :: n in sums ==> NoBreak(n) && (n != [] ==> n[0] != '*')
    ensures var r := ReadLines(lines, sums);
            r.Some? ==> forall n :: n in r.value ==> NoBreak(n) && (n != [] ==> n[0] != '*')
    decreases |lines|
  {
    if lines != [] {
      if TrimLeft(lines[0]) == [] {
        ReadNames(lines[1..], sums);
      } else if ReadLine(lines[0]).Some? {
        var (digest, name) := ReadLine(lines[0]).value;
        var words := TrimLeft(lines[0]);
        TrimUnbroken(lines[0]);
        assert NoBreak(words[SpaceIndex(words)..]);
        TrimUnbroken(words[SpaceIndex(words)..]);
        ReadNames(lines[1..], sums[name := digest]);
      }
    }
  }

  /** `x` is what the reader makes of one of `names`. */
  ghost predicate Sourced(x: string, names: set<string>) {
    exists n :: n in names && x == StripStars(TrimLeft(n))
  }

  /** Every name that is read came from a written one, shortened if that started with a space. */
  lemma {:induction false} ReadBackSources(names: seq<string>, digests: Digests, sums: Digests, all: set<string>)
    requires forall n :: n in names ==> n in digests && n in all
    requires ReadBack(names, digests, sums).Some?
    ensures [] !in names
    ensures forall x :: x in ReadBack(names, digests, sums).value && x !in sums ==> Sourced(x, all)
    decreases |names|
  {
    if names != [] {
      var n := names[0];
      assert TrimLeft([]) == [];
      assert Sourced(StripStars(TrimLeft(n)), all);
      ReadBackSources(names[1..], digests, sums[StripStars(TrimLeft(n)) := digests[n]], all);
    }
  }

  lemma {:induction false} Longest(names: set<string>) returns (n: string)
    requires names != {}
    ensures n in names && forall x :: x in names ==> |x| <= |n|
  {
    var m :| m in names;
    n := m;
    if names != {m} {
      var l := Longest(names - {m});
      if |l| > |m| { n := l; }
      assert forall x :: x in names ==> x == m || x in names - {m};
    }
  }

  /** The longest name with a leading space would have to come from a longer one. */
  lemma LongestUnsourced(names: set<string>, x: string)
    requires forall n :: n in names ==> n != [] && n[0] != '*'
    requires x in names && IsSpace(x[0]) && forall n :: n in names && IsSpace(n[0]) ==> |n| <= |x|
    ensures !Sourced(x, names)
  {
    forall n | n in names ensures x != StripStars(TrimLeft(n)) {
      if !IsSpace(n[0]) { assert StripStars(TrimLeft(n)) == n; }
    }
  }

  lemma NoLeadingSpace(names: set<string>)
    requires forall n :: n in names ==> n != [] && n[0] != '*'
    requires forall x {:trigger Sourced(x, names)} :: x in names ==> Sourced(x, names)
    ensures forall n :: n in names ==> !IsSpace(n[0])
  {
    var spaced := set n | n in names && IsSpace(n[0]);
    assert forall n :: n in names && IsSpace(n[0]) ==> n in spaced;
    if spaced != {} {
      var x := Longest(spaced);
      LongestUnsourced(names, x);
    }
  }

  lemma OnlyGoodNames(digests: Digests)
    requires forall n :: n in digests ==> GoodDigest(digests[n])
    requires ParseSums(SumsText(digests)) == Some(digests)
    ensures forall n :: n in digests ==> GoodName(n)
  {
    LinesUnbroken(SumsText(digests));
    ReadNames(SplitLines(SumsText(digests)), map[]);
    var names := SortedNames(digests.Keys);
    ReadWritten(names, digests, map[]);
    ReadBackSources(names, digests, map[], digests.Keys);
    NoLeadingSpace(digests.Keys);
  }

  /** Reading inverts writing exactly when every name is good. */
  lemma RoundTripIff(digests: Digests)
    requires forall n :: n in digests ==> GoodDigest(digests[n])
    ensures ParseSums(SumsText(digests)) == Some(digests) <==> forall n :: n in digests ==> GoodName(n)
  {
    if forall n :: n in digests ==> GoodName(n) { RoundTrip(digests); }
    if ParseSums(SumsText(digests)) == Some(digests) { OnlyGoodNames(digests); }
  }

  /** So one name survives exactly when it is good. */
  lemma OneNameIff(name: string, digest: string)
    requires GoodDigest(digest)
    ensures ParseSums(SumsText(map[name := digest])) == Some(map[name := digest]) <==> GoodName(name)
  {
    var digests := map[name := digest];
    assert name in digests;
    RoundTripIff(digests);
  }

  /** White space inside a name survives. */
  lemma SpaceSurvives(digest: string)
    requires GoodDigest(digest)
    ensures ParseSums(SumsText(map["a b.txt" := digest])) == Some(map["a b.txt" := digest])
  {
    OneNameIff("a b.txt", digest);
  }

  /** A leading asterisk does not. */
  lemma StarIsLost(digest: string)
    requires GoodDigest(digest)
    ensures ParseSums(SumsText(map["*a" := digest])) != Some(map["*a" := digest])
  {
    OneNameIff("*a", digest);
  }
}
