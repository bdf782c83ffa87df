/** How a release section reads: which heading each line stands under, and where blank lines are. */
module EntryForms {
  import opened Search
  import opened Texts
  import opened ChangelogSections
  import opened ChangelogEntries

  // ---- Entries ----

  function Short(sha: string): string { if |sha| <= 7 then sha else sha[..7] }

  /** Only the last line changes, and only when the commit is known: it ends with the commit's link. */
  lemma LinkedIs(f: Fragment, i: nat)
    requires i < |f.entry|
    ensures Linked(f)[i] ==
            if f.commit.None? || i < |f.entry| - 1 then f.entry[i]
            else f.entry[i] + " ([" + Short(f.commit.value) + "](" +
                 "https://github.com/jscott3201/rusty-bacnet/commit/" + f.commit.value + "))"
  {
  }

  /** One bullet, its other lines indented. */
  predicate OneBullet(f: Fragment) {
    f.entry != [] && "- " <= f.entry[0] && forall i :: 1 <= i < |f.entry| ==> "  " <= f.entry[i]
  }

  lemma LinkedBullet(f: Fragment)
    requires OneBullet(f)
    ensures "- " <= Linked(f)[0] && forall i :: 1 <= i < |f.entry| ==> "  " <= Linked(f)[i]
  {
    forall i | 0 <= i < |f.entry| ensures Linked(f)[i] == f.entry[i] || f.entry[i] <= Linked(f)[i] { LinkedIs(f, i); }
    assert forall i :: 0 <= i < |f.entry| && f.entry[i] <= Linked(f)[i] && "  " <= f.entry[i] ==> "  " <= Linked(f)[i];
  }

  // ---- Headings ----

  predicate Heads(line: string) { "### " <= line }

  /** The lines that are neither headings nor empty, each with the heading it stands under. */
  function Filed(lines: Lines, under: string): seq<(string, string)> {
    if lines == [] then []
    else if Heads(lines[0]) then Filed(lines[1..], lines[0])
    else if lines[0] == "" then Filed(lines[1..], under)
    else [(under, lines[0])] + Filed(lines[1..], under)
  }

  function Headings(lines: Lines): Lines {
    if lines == [] then [] else (if Heads(lines[0]) then [lines[0]] else []) + Headings(lines[1..])
  }

  function LastOf(lines: Lines, under: string): string {
    if lines == [] then under else LastOf(lines[1..], if Heads(lines[0]) then lines[0] else under)
  }

  lemma {:induction false} FiledAppend(a: Lines, b: Lines, under: string)
    ensures Filed(a + b, under) == Filed(a, under) + Filed(b, LastOf(a, under))
    decreases |a|
  {
    if a == [] {
      assert a + b == b;
    } else {
      var all := a + b;
      assert all[0] == a[0] && all[1..] == a[1..] + b;
      FiledAppend(a[1..], b, if Heads(a[0]) then a[0] else under);
    }
  }

  lemma {:induction false} HeadingsAppend(a: Lines, b: Lines)
    ensures Headings(a + b) == Headings(a) + Headings(b)
    decreases |a|
  {
    if a == [] {
      assert a + b == b;
    } else {
      var all := a + b;
      assert all[0] == a[0] && all[1..] == a[1..] + b;
      HeadingsAppend(a[1..], b);
    }
  }

  lemma FiledJoin(a: Lines, b: Lines, under: string)
    ensures Filed(Join(a, b), under) == Filed(a, under) + Filed(b, LastOf(a, under))
    ensures Headings(Join(a, b)) == Headings(a) + Headings(b)
  {
    if a != [] && b != [] {
      var gap := [""] + b;
      assert gap[0] == "" && gap[1..] == b && !Heads("");
      FiledAppend(a, gap, under);
      HeadingsAppend(a, gap);
      assert a + [""] + b == a + gap;
    }
  }

  function Under(heading: string, lines: Lines): seq<(string, string)> {
    if lines == [] then [] else [(heading, lines[0])] + Under(heading, lines[1..])
  }

  /** Each line of each fragment, under the fragment's own heading. */
  function AllFiled(fs: seq<Fragment>): seq<(string, string)>
    requires forall f :: f in fs ==> f.entry != []
  {
    if fs == [] then [] else Under("### " + fs[0].section, Linked(fs[0])) + AllFiled(fs[1..])
  }

  lemma {:induction false} AllFiledAppend(a: seq<Fragment>, b: seq<Fragment>)
    requires forall f :: f in a || f in b ==> f.entry != []
    ensures AllFiled(a + b) == AllFiled(a) + AllFiled(b)
    decreases |a|
  {
    if a == [] {
      assert a + b == b;
    } else {
      assert (a + b)[0] == a[0] && (a + b)[1..] == a[1..] + b;
      AllFiledAppend(a[1..], b);
    }
  }

  lemma {:induction false} EntriesFiled(lines: Lines, under: string)
    requires forall i :: 0 <= i < |lines| ==> IsEntryLine(lines[i])
    ensures Filed(lines, under) == Under(under, lines) && LastOf(lines, under) == under && Headings(lines) == []
    decreases |lines|
  {
    if lines != [] {
      assert lines[0][0] != '#';
      EntriesFiled(lines[1..], under);
    }
  }

  ghost predicate Fits(f: Fragment) { ValidFragment(f) && OneBullet(f) }

  lemma {:induction false} GroupFiled(section: string, fs: seq<Fragment>, under: string)
    requires forall f :: f in fs ==> f.entry != [] && Fits(f) && f.section == section
    requires under == "### " + section
    ensures Filed(EntryLines(fs), under) == AllFiled(fs) && Headings(EntryLines(fs)) == []
    decreases |fs|
  {
    if fs != [] {
      assert Fits(fs[0]);
      LinkedLines(fs[0]);
      EntriesFiled(Linked(fs[0]), under);
      FiledJoin(Linked(fs[0]), EntryLines(fs[1..]), under);
      GroupFiled(section, fs[1..], under);
    }
  }

  lemma SectionFiled(section: string, fs: seq<Fragment>, under: string)
    requires forall f :: f in fs ==> f.entry != [] && Fits(f) && f.section == section
    ensures Filed(GroupLines(section, fs), under) == AllFiled(fs)
    ensures Headings(GroupLines(section, fs)) == if fs == [] then [] else ["### " + section]
  {
    if fs != [] {
      var lines, top := GroupLines(section, fs), "### " + section;
      assert lines[0] == top && lines[1..][0] == "" && lines[1..][1..] == EntryLines(fs);
      assert Heads(top);
      GroupFiled(section, fs, top);
    }
  }

  /** The headings that some fragment names, in order. */
  function Used(sections: seq<string>, fs: seq<Fragment>): Lines {
    if sections == [] then []
    else (if exists i :: 0 <= i < |fs| && fs[i].section == sections[0] then ["### " + sections[0]] else [])
         + Used(sections[1..], fs)
  }

  lemma UnderNone(fs: seq<Fragment>, section: string)
    ensures Sort(ChangelogEntries.Under(fs, section)) == [] <==> forall i :: 0 <= i < |fs| ==> fs[i].section != section
  {
    var group := ChangelogEntries.Under(fs, section);
    SortSorts(group);
    assert |Sort(group)| == |multiset(Sort(group))| == |multiset(group)| == |group|;
    if group != [] {
      UnderCounts(fs, section, group[0]);
      assert group[0] in multiset(group);
      assert group[0] in multiset(fs);
    }
    if i :| 0 <= i < |fs| && fs[i].section == section {
      UnderCounts(fs, section, fs[i]);
      assert fs[i] in multiset(fs);
      assert fs[i] in multiset(group);
    }
  }

  /** Read line by line, a release section has each fragment's lines under its own heading, in release order. */
  lemma {:induction false} RenderedFiled(sections: seq<string>, fs: seq<Fragment>, under: string)
    requires forall f :: f in fs ==> f.entry != [] && Fits(f)
    ensures forall f :: f in Ordered(sections, fs) ==> f.entry != []
    ensures Filed(RenderLines(sections, fs), under) == AllFiled(Ordered(sections, fs))
    ensures Headings(RenderLines(sections, fs)) == Used(sections, fs)
    decreases |sections|
  {
    forall f | f in Ordered(sections, fs) ensures f.entry != [] { OrderedMember(sections, fs, f); }
    if sections != [] {
      var group := Sort(ChangelogEntries.Under(fs, sections[0]));
      forall f | f in group ensures f.entry != [] && Fits(f) && f.section == sections[0] {
        UnderMember(fs, sections[0], f);
      }
      var lines := GroupLines(sections[0], group);
      SectionFiled(sections[0], group, under);
      RenderedFiled(sections[1..], fs, LastOf(lines, under));
      FiledJoin(lines, RenderLines(sections[1..], fs), under);
      AllFiledAppend(group, Ordered(sections[1..], fs));
      UnderNone(fs, sections[0]);
    }
  }

  // ---- Blank lines ----

  predicate Opens(line: string) { Heads(line) || "- " <= line }

  /**
   * A blank line stands before every heading and every bullet but the first line, and nowhere else; a heading is
   * followed by one and then a bullet.
   */
  ghost predicate Spaced(lines: Lines) {
    && (lines != [] ==> Opens(lines[0]))
    && (forall i :: 1 <= i < |lines| && Opens(lines[i]) ==> lines[i - 1] == "")
    && (forall i :: 0 <= i < |lines| && lines[i] == "" ==> i + 1 < |lines| && Opens(lines[i + 1]))
    && (forall i :: 0 <= i < |lines| && Heads(lines[i]) ==> i + 2 < |lines| && "- " <= lines[i + 2])
  }

  lemma EmptyOpensNot()
    ensures !Opens("") && !Heads("")
  {
  }

  lemma SpacedJoin(a: Lines, b: Lines)
    requires Spaced(a) && Spaced(b)
    ensures Spaced(Join(a, b))
  {
    if a != [] && b != [] {
      var all, n := a + [""] + b, |a| + 1;
      EmptyOpensNot();
      assert forall i :: 0 <= i < |a| ==> all[i] == a[i];
      assert all[|a|] == "";
      assert forall i :: n <= i < |all| ==> all[i] == b[i - n];
      forall i | 1 <= i < |all| && Opens(all[i]) ensures all[i - 1] == "" {
        if i < |a| { assert a[i - 1] == ""; } else if i > n { assert b[i - n - 1] == ""; }
      }
      forall i | 0 <= i < |all| && all[i] == "" ensures i + 1 < |all| && Opens(all[i + 1]) {
        if i < |a| { assert Opens(a[i + 1]); } else if i >= n { assert Opens(b[i - n + 1]); }
      }
      forall i | 0 <= i < |all| && Heads(all[i]) ensures i + 2 < |all| && "- " <= all[i + 2] {
        if i < |a| { assert "- " <= a[i + 2]; } else { assert "- " <= b[i - n + 2]; }
      }
    }
  }

  lemma EntrySpaced(f: Fragment)
    requires OneBullet(f)
    ensures Spaced(Linked(f))
  {
    LinkedBullet(f);
    var lines := Linked(f);
    assert !Heads(lines[0]) by { assert lines[0][0] == '-'; }
    forall i | 1 <= i < |lines| ensures !Opens(lines[i]) && lines[i] != "" { assert lines[i][0] == ' '; }
  }

  lemma {:induction false} GroupSpaced(fs: seq<Fragment>)
    requires forall f :: f in fs ==> f.entry != [] && OneBullet(f)
    ensures Spaced(EntryLines(fs)) && (fs != [] ==> EntryLines(fs) != [] && "- " <= EntryLines(fs)[0])
    decreases |fs|
  {
    if fs != [] {
      assert OneBullet(fs[0]);
      EntrySpaced(fs[0]);
      LinkedBullet(fs[0]);
      GroupSpaced(fs[1..]);
      SpacedJoin(Linked(fs[0]), EntryLines(fs[1..]));
    }
  }

  lemma SectionSpaced(section: string, fs: seq<Fragment>)
    requires forall f :: f in fs ==> f.entry != [] && OneBullet(f)
    ensures Spaced(GroupLines(section, fs))
  {
    if fs != [] {
      GroupSpaced(fs);
      EmptyOpensNot();
      var entries, lines := EntryLines(fs), GroupLines(section, fs);
      assert lines[0] == "### " + section && lines[1] == "";
      assert forall i :: 2 <= i < |lines| ==> lines[i] == entries[i - 2];
      forall i | 1 <= i < |lines| && Opens(lines[i]) ensures lines[i - 1] == "" {
        if i > 2 { assert entries[i - 3] == ""; }
      }
      forall i | 0 <= i < |lines| && lines[i] == "" ensures i + 1 < |lines| && Opens(lines[i + 1]) {
        if i >= 2 { assert Opens(entries[i - 1]); }
      }
      forall i | 0 <= i < |lines| && Heads(lines[i]) ensures i + 2 < |lines| && "- " <= lines[i + 2] {
        if i >= 2 { assert "- " <= entries[i]; }
      }
    }
  }

  /** And its blank lines are where they belong. */
  lemma {:induction false} RenderedSpaced(sections: seq<string>, fs: seq<Fragment>)
    requires forall f :: f in fs ==> f.entry != [] && OneBullet(f)
    ensures Spaced(RenderLines(sections, fs))
    decreases |sections|
  {
    if sections != [] {
      var group := Sort(ChangelogEntries.Under(fs, sections[0]));
      forall f | f in group ensures f.entry != [] && OneBullet(f) { UnderMember(fs, sections[0], f); }
      SectionSpaced(sections[0], group);
      RenderedSpaced(sections[1..], fs);
      SpacedJoin(GroupLines(sections[0], group), RenderLines(sections[1..], fs));
    }
  }

  // ---- Order ----

  function Place(section: string): int {
    match section
    case "Migration notes" => 0
    case "Security" => 1
    case "Added" => 2
    case "Changed" => 3
    case "Deprecated" => 4
    case "Removed" => 5
    case "Fixed" => 6
    case _ => 7
  }

  /** One fragment is listed before another: by heading, then numbered before unnumbered, by number, by slug. */
  ghost predicate Before(a: Fragment, b: Fragment) {
    || Place(a.section) < Place(b.section)
    || (&& Place(a.section) == Place(b.section)
        && (|| (a.issue.Some? && b.issue.None?)
            || (a.issue.Some? && b.issue.Some? && a.issue.value < b.issue.value)
            || (a.issue == b.issue && exists i :: PartsAt(a.slug, b.slug, i))))
  }

  lemma RankIs(section: string)
    requires section in SECTIONS
    ensures Rank(section, SECTIONS) == Place(section) < 7
  {
    RankAt(section, SECTIONS);
    PlaceAt(Rank(section, SECTIONS));
  }

  lemma PlaceAt(k: nat)
    requires k < |SECTIONS|
    ensures Place(SECTIONS[k]) == k < 7
  {
  }

  lemma {:induction false} RankAt(section: string, s: seq<string>)
    requires section in s
    ensures Rank(section, s) < |s| && s[Rank(section, s)] == section
    decreases |s|
  {
    if s[0] != section { RankAt(section, s[1..]); }
  }

  /** A release lists its fragments in that order. */
  lemma ListedInOrder(fs: seq<Fragment>, i: nat, j: nat)
    requires (forall f :: f in fs ==> f.section in SECTIONS) && i < j < |Ordered(SECTIONS, fs)|
    ensures Before(Ordered(SECTIONS, fs)[i], Ordered(SECTIONS, fs)[j])
  {
    SectionsDistinct();
    OrderedInOrder(SECTIONS, fs);
    var a, b := Ordered(SECTIONS, fs)[i], Ordered(SECTIONS, fs)[j];
    OrderedMember(SECTIONS, fs, a);
    OrderedMember(SECTIONS, fs, b);
    RankIs(a.section);
    RankIs(b.section);
    LeqIff(a.slug, b.slug);
  }
}
