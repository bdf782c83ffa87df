/** Which lines are compare links, by how they split, and what a release makes of one. */
module LinkForms {
  import opened Search
  import opened Texts
  import opened CompareLinks
  import opened ChangelogForms

  /** One way to read a target: a base, `/compare/` in any case, two ends with dots between. */
  predicate Splits(body: string, base: string, mark: string, prev: string, head: string) {
    && body == base + mark + prev + "..." + head && base != "" && prev != "" && head != ""
    && SameText(mark, "/compare/")
  }

  /** The way it is read: the longest base there is, and for that the shortest first end. */
  ghost predicate Reads(body: string, link: Link) {
    && (exists mark :: Splits(body, link.base, mark, link.prev, link.head))
    && (forall base, mark, prev, head {:trigger Splits(body, base, mark, prev, head)} ::
          Splits(body, base, mark, prev, head) ==>
            |base| < |link.base| || (|base| == |link.base| && |prev| >= |link.prev|))
  }

  lemma CompareIff(body: string, i: nat)
    ensures CompareAt(body, i) <==> i + 9 <= |body| && SameText(body[i..i + 9], "/compare/")
  {
    if i + 9 <= |body| {
      PrefixForm("/compare/", body[i..]);
      assert body[i..][..9] == body[i..i + 9];
    }
  }

  /** A split is a range at the end of its base, which starts no longer than it. */
  lemma SplitRange(body: string, base: string, mark: string, prev: string, head: string)
    requires Splits(body, base, mark, prev, head)
    ensures |base| >= 1 && |base| <= |body| && RangeAt(body, |base|)
    ensures |LinkAt(body, |base|).prev| <= |prev| && LinkAt(body, |base|).base == base
  {
    var i := |base|;
    var range := prev + "..." + head;
    assert body == base + mark + range;
    assert body[i..i + 9] == mark && body[i + 9..] == range && body[..i] == base;
    CompareIff(body, i);
    OccursHere(prev, "...", head);
  }

  lemma RangeParts(range: string)
    requires RangeOf(range).Some?
    ensures var (prev, head) := RangeOf(range).value; range == prev + "..." + head && prev != "" && head != ""
  {
    var j := Find(range, "...", 1);
    assert range[j..j + 3] == "...";
  }

  /** And a range is a split. */
  lemma RangeSplit(body: string, i: nat) returns (mark: string)
    requires i >= 1 && RangeAt(body, i)
    ensures var link := LinkAt(body, i); Splits(body, link.base, mark, link.prev, link.head)
  {
    mark := body[i..i + 9];
    CompareIff(body, i);
    var range, link := body[i + 9..], LinkAt(body, i);
    RangeParts(range);
    assert body == body[..i] + mark + range;
    assert body == link.base + mark + link.prev + "..." + link.head;
  }

  lemma {:induction false} NoRange(body: string, n: nat)
    requires LastRange(body, n).None?
    ensures forall i {:trigger RangeAt(body, i)} :: 1 <= i <= n ==> !RangeAt(body, i)
    decreases n
  {
    if n > 0 { NoRange(body, n - 1); }
  }

  /** A target is read exactly so, and not at all exactly when it holds space or splits in no way. */
  lemma TargetIff(body: string)
    ensures forall link {:trigger Reads(body, link)} ::
              ParseTarget(body) == Some(link) <==> NoSpace(body) && Reads(body, link)
    ensures ParseTarget(body).None? <==>
            !NoSpace(body) || forall base, mark, prev, head :: !Splits(body, base, mark, prev, head)
  {
    assert !NoSpace(body) ==> ParseTarget(body).None?;
    if NoSpace(body) {
      if ParseTarget(body).None? {
        NoRange(body, |body|);
        forall base, mark, prev, head ensures !Splits(body, base, mark, prev, head) {
          if Splits(body, base, mark, prev, head) { SplitRange(body, base, mark, prev, head); }
        }
      } else {
        var link := ParseTarget(body).value;
        ReadIs(body, link);
        var mark :| Splits(body, link.base, mark, link.prev, link.head);
        forall other | Reads(body, other) ensures other == link { ReadOnce(body, link, other); }
      }
    }
  }

  lemma ReadIs(body: string, link: Link)
    requires ParseTarget(body) == Some(link)
    ensures Reads(body, link)
  {
    var i := LastRangeAt(body, |body|);
    var mark := RangeSplit(body, i);
    forall base, mark, prev, head | Splits(body, base, mark, prev, head)
      ensures |base| < |link.base| || (|base| == |link.base| && |prev| >= |link.prev|)
    {
      SplitRange(body, base, mark, prev, head);
      assert RangeAt(body, |base|);
    }
  }

  lemma ReadOnce(body: string, a: Link, b: Link)
    requires Reads(body, a) && Reads(body, b)
    ensures a == b
  {
    var m :| Splits(body, a.base, m, a.prev, a.head);
    var n :| Splits(body, b.base, n, b.prev, b.head);
    assert |a.base| == |b.base| && |a.prev| == |b.prev|;
    var i, j := |a.base|, |a.prev|;
    assert body[..i] == a.base && body[..i] == b.base;
    assert body[i + 9..i + 9 + j] == a.prev && body[i + 9..i + 9 + j] == b.prev;
    assert body[i + 9 + j + 3..] == a.head && body[i + 9 + j + 3..] == b.head;
  }

  /** A link line is `[Unreleased]:`, in any case, and a target with any space around it. */
  predicate Labels(line: string, name: string, left: string, body: string, right: string) {
    && line == name + left + body + right && SameText(name, "[Unreleased]:") && AllSpace(left) && AllSpace(right)
    && (body != "" ==> !IsSpace(body[0]) && !IsSpace(body[|body| - 1]))
  }

  lemma LineIff(line: string)
    ensures forall name, left, body, right {:trigger Labels(line, name, left, body, right)} ::
              Labels(line, name, left, body, right) ==> ParseLink(line) == ParseTarget(body)
    ensures (forall name, left, body, right :: !Labels(line, name, left, body, right)) ==> ParseLink(line).None?
  {
    PrefixForm("[Unreleased]:", line);
    if |line| >= 13 && PrefixNoCase("[Unreleased]:", line) {
      var rest := line[13..];
      var left, core, right := StripIs(rest);
      assert line == line[..13] + left + core + right;
      assert Labels(line, line[..13], left, core, right);
    }
    forall name, left, body, right | Labels(line, name, left, body, right)
      ensures ParseLink(line) == ParseTarget(body)
    {
      assert line[..13] == name && line[13..] == left + body + right;
      StripPadded(line[13..], left, body, right);
    }
  }

  // ---- A release's links ----

  predicate HasRow(line: string, version: string) {
    |line| >= |version| + 3 && SameText(line[..|version| + 3], "[" + version + "]:")
  }

  lemma HasVersionIff(lines: Lines, version: string)
    ensures HasVersion(lines, version) <==> exists i :: 0 <= i < |lines| && HasRow(lines[i], version)
  {
    forall line: string ensures PrefixNoCase("[" + version + "]:", line) <==> HasRow(line, version) {
      PrefixForm("[" + version + "]:", line);
    }
  }

  function TagFor(prev: string, version: string): string
    requires prev != ""
  {
    if prev[0] == 'v' then "v" + version else version
  }

  /** The first link, at `i`. */
  ghost predicate FirstAt(lines: Lines, i: int) {
    && 0 <= i < |lines| && ParseLink(lines[i]).Some? && forall j :: 0 <= j < i ==> ParseLink(lines[j]).None?
  }

  /**
   * A release changes only the first [Unreleased] link: it then starts at the release's tag, spelt like the last
   * one, and the line below it links the release from that last one. With a link of the version nothing changes.
   */
  lemma UpdatedIs(lines: Lines, version: string)
    ensures (exists i :: 0 <= i < |lines| && HasRow(lines[i], version)) ==> UpdateLinks(lines, version) == lines
    ensures (forall i :: 0 <= i < |lines| ==> ParseLink(lines[i]).None?) ==> UpdateLinks(lines, version) == lines
    ensures forall i {:trigger FirstAt(lines, i)} ::
              FirstAt(lines, i) && (forall k :: 0 <= k < |lines| ==> !HasRow(lines[k], version)) ==>
                var Link(base, prev, head) := ParseLink(lines[i]).value;
                && prev != ""
                && UpdateLinks(lines, version) ==
                   lines[..i]
                   + ["[Unreleased]: " + base + "/compare/" + TagFor(prev, version) + "..." + head,
                      "[" + version + "]: " + base + "/compare/" + prev + "..." + TagFor(prev, version)]
                   + lines[i + 1..]
  {
    HasVersionIff(lines, version);
    var n := FirstLink(lines);
    forall j | 0 <= j < |lines| && j <= n ensures ParseLink(lines[j]).Some? <==> j == n { FirstLinkFacts(lines, j); }
    forall i | FirstAt(lines, i) && (forall k :: 0 <= k < |lines| ==> !HasRow(lines[k], version))
      ensures var Link(base, prev, head) := ParseLink(lines[i]).value;
              && prev != ""
              && UpdateLinks(lines, version) ==
                 lines[..i]
                 + ["[Unreleased]: " + base + "/compare/" + TagFor(prev, version) + "..." + head,
                    "[" + version + "]: " + base + "/compare/" + prev + "..." + TagFor(prev, version)]
                 + lines[i + 1..]
    {
      assert n < |lines| ==> ParseLink(lines[n]).Some?;
      assert i == n;
      ParsedEnds(lines[i]);
      MovedIs(ParseLink(lines[i]).value, version);
    }
  }

  lemma MovedIs(link: Link, version: string)
    requires link.prev != ""
    ensures var tag := TagFor(link.prev, version);
            Moved(link, version) ==
            ["[Unreleased]: " + link.base + "/compare/" + tag + "..." + link.head,
             "[" + version + "]: " + link.base + "/compare/" + link.prev + "..." + tag]
  {
    var tag := TagFor(link.prev, version);
    assert tag == Tag(link.prev, version);
    assert UnreleasedLine(Link(link.base, tag, link.head)) ==
           "[Unreleased]: " + link.base + "/compare/" + tag + "..." + link.head by {
      assert UNRELEASED + " " == "[Unreleased]: ";
    }
    assert VersionLine(version, link.base, link.prev, tag) ==
           "[" + version + "]: " + link.base + "/compare/" + link.prev + "..." + tag;
  }
}
