/** Changelog fragments and the release section they render to. */
module ChangelogEntries {
  import opened Search
  import opened Texts
  import opened ChangelogSections
  import Sorting

  /** One validated fragment: an entry of one bullet, under a heading, with the commit that brought it in if known. */
  datatype Fragment = Fragment(issue: Option<nat>, slug: string, section: string, entry: Lines, commit: Option<string>)

  const SECTIONS := ["Migration notes", "Security", "Added", "Changed", "Deprecated", "Removed", "Fixed"]
  const COMMIT_URL := "https://github.com/jscott3201/rusty-bacnet/commit/"

  /** What validation leaves: a bullet with indented continuation lines, under one of the headings. */
  ghost predicate ValidFragment(f: Fragment) {
    f.section in SECTIONS && f.entry != [] && forall i :: 0 <= i < |f.entry| ==> IsEntryLine(f.entry[i])
  }

  predicate IsEntryLine(line: string) { "- " <= line || "  " <= line }

  // ---- Order ----

  /**
   * The order under one heading. No issue counts as a number above all others; equal numbers are told apart by
   * slug.
   */
  predicate KeyLeq(a: Fragment, b: Fragment) {
    match (a.issue, b.issue)
    case (Some(m), Some(n)) => m < n || (m == n && Leq(a.slug, b.slug))
    case (Some(_), None) => true
    case (None, Some(_)) => false
    case (None, None) => Leq(a.slug, b.slug)
  }

  lemma KeyOrder(a: Fragment, b: Fragment, c: Fragment)
    ensures KeyLeq(a, b) || KeyLeq(b, a)
    ensures KeyLeq(a, b) && KeyLeq(b, c) ==> KeyLeq(a, c)
  {
    LeqOrder(a.slug, b.slug, c.slug);
  }

  ghost predicate Sorted(fs: seq<Fragment>) {
    forall i, j :: 0 <= i < j < |fs| ==> KeyLeq(fs[i], fs[j])
  }

  function ByKey(): Sorting.Order<Fragment> { (a: Fragment, b: Fragment) => KeyLeq(a, b) }

  /** A stable sort by key. */
  function Sort(fs: seq<Fragment>): seq<Fragment> { Sorting.Sort(fs, ByKey()) }

  lemma KeysOrder()
    ensures Sorting.IsOrder(ByKey())
  {
    forall a, b ensures ByKey()(a, b) || ByKey()(b, a) { KeyOrder(a, b, a); }
    forall a, b, c | ByKey()(a, b) && ByKey()(b, c) ensures ByKey()(a, c) { KeyOrder(a, b, c); }
  }

  lemma SortSorts(fs: seq<Fragment>)
    ensures Sorted(Sort(fs)) && multiset(Sort(fs)) == multiset(fs)
  {
    KeysOrder();
    Sorting.SortSorts(fs, ByKey());
    forall i, j | 0 <= i < j < |Sort(fs)| ensures KeyLeq(Sort(fs)[i], Sort(fs)[j]) {
      assert ByKey()(Sort(fs)[i], Sort(fs)[j]);
    }
  }

  /** The fragments under one heading, as listed. */
  function Under(fs: seq<Fragment>, section: string): seq<Fragment> {
    if fs == [] then [] else (if fs[0].section == section then [fs[0]] else []) + Under(fs[1..], section)
  }

  lemma {:induction false} UnderCounts(fs: seq<Fragment>, section: string, x: Fragment)
    ensures multiset(Under(fs, section))[x] == if x.section == section then multiset(fs)[x] else 0
  {
    if fs != [] {
      assert fs == [fs[0]] + fs[1..];
      UnderCounts(fs[1..], section, x);
    }
  }

  /** All fragments in the order a release lists them. */
  function Ordered(sections: seq<string>, fs: seq<Fragment>): seq<Fragment> {
    if sections == [] then [] else Sort(Under(fs, sections[0])) + Ordered(sections[1..], fs)
  }

  predicate Distinct(s: seq<string>) { forall i, j :: 0 <= i < j < |s| ==> s[i] != s[j] }

  lemma {:induction false} OrderedCounts(sections: seq<string>, fs: seq<Fragment>, x: Fragment)
    requires Distinct(sections)
    ensures multiset(Ordered(sections, fs))[x] == if x.section in sections then multiset(fs)[x] else 0
    decreases |sections|
  {
    if sections != [] {
      OrderedCounts(sections[1..], fs, x);
      SortSorts(Under(fs, sections[0]));
      UnderCounts(fs, sections[0], x);
      assert x.section in sections <==> x.section == sections[0] || x.section in sections[1..];
    }
  }

  /** Where a heading stands in the release's list of them. */
  function Rank(section: string, sections: seq<string>): nat {
    if sections == [] || sections[0] == section then 0 else 1 + Rank(section, sections[1..])
  }

  /** In the order of the headings, and by key under each. */
  ghost predicate InOrder(fs: seq<Fragment>, sections: seq<string>) {
    forall i, j :: 0 <= i < j < |fs| ==>
      Rank(fs[i].section, sections) < Rank(fs[j].section, sections) ||
      (fs[i].section == fs[j].section && KeyLeq(fs[i], fs[j]))
  }

  lemma UnderMember(fs: seq<Fragment>, section: string, x: Fragment)
    requires x in Sort(Under(fs, section))
    ensures x.section == section && x in fs
  {
    SortSorts(Under(fs, section));
    UnderCounts(fs, section, x);
    assert x in multiset(Sort(Under(fs, section)));
  }

  lemma {:induction false} OrderedMember(sections: seq<string>, fs: seq<Fragment>, x: Fragment)
    requires x in Ordered(sections, fs)
    ensures x.section in sections && x in fs
    decreases |sections|
  {
    if x in Sort(Under(fs, sections[0])) {
      UnderMember(fs, sections[0], x);
    } else {
      OrderedMember(sections[1..], fs, x);
    }
  }

  lemma {:induction false} OrderedInOrder(sections: seq<string>, fs: seq<Fragment>)
    requires Distinct(sections)
    ensures InOrder(Ordered(sections, fs), sections)
    decreases |sections|
  {
    if sections != [] {
      var a, b := Sort(Under(fs, sections[0])), Ordered(sections[1..], fs);
      SortSorts(Under(fs, sections[0]));
      OrderedInOrder(sections[1..], fs);
      forall x | x in a ensures x.section == sections[0] { UnderMember(fs, sections[0], x); }
      forall x | x in b ensures x.section in sections[1..] && x.section != sections[0] {
        OrderedMember(sections[1..], fs, x);
      }
      var all := a + b;
      forall i, j | 0 <= i < j < |all|
        ensures Rank(all[i].section, sections) < Rank(all[j].section, sections) ||
                (all[i].section == all[j].section && KeyLeq(all[i], all[j]))
      {
        if j < |a| {
          assert all[i] == a[i] && all[j] == a[j];
        } else if i < |a| {
          assert all[i] in a && all[j] in b;
        } else {
          assert all[i] == b[i - |a|] && all[j] == b[j - |a|] && all[i] in b && all[j] in b;
        }
      }
    }
  }

  /** Each fragment lands once, under its heading, in the order of the headings and then by issue and slug. */
  lemma EachOnceInOrder(sections: seq<string>, fs: seq<Fragment>)
    requires Distinct(sections) && forall f :: f in fs ==> f.section in sections
    ensures multiset(Ordered(sections, fs)) == multiset(fs)
    ensures InOrder(Ordered(sections, fs), sections)
  {
    OrderedInOrder(sections, fs);
    forall x ensures multiset(Ordered(sections, fs))[x] == multiset(fs)[x] {
      OrderedCounts(sections, fs, x);
      if x !in fs { assert multiset(fs)[x] == 0; }
    }
  }

  lemma SectionsDistinct()
    ensures Distinct(SECTIONS)
  {
  }

  // ---- Rendering ----

  function Take(s: string, n: nat): string { if |s| <= n then s else s[..n] }

  /** A fragment as it is listed: its text, with the commit's link appended if the commit is known. */
  function Linked(f: Fragment): (r: Lines)
    requires f.entry != []
    ensures |r| == |f.entry|
  {
    if f.commit.None? then f.entry
    else
      var sha, last := f.commit.value, |f.entry| - 1;
      f.entry[last := f.entry[last] + " ([" + Take(sha, 7) + "](" + COMMIT_URL + sha + "))"]
  }

  /** Blocks of lines with a blank line between them. */
  function Join(a: Lines, b: Lines): Lines {
    if a == [] then b else if b == [] then a else a + [""] + b
  }

  function EntryLines(fs: seq<Fragment>): Lines
    requires forall f :: f in fs ==> f.entry != []
  {
    if fs == [] then [] else Join(Linked(fs[0]), EntryLines(fs[1..]))
  }

  /** The section under one heading, if it has entries. */
  function GroupLines(section: string, fs: seq<Fragment>): Lines
    requires forall f :: f in fs ==> f.entry != []
  {
    if fs == [] then [] else ["### " + section, ""] + EntryLines(fs)
  }

  lemma SortedEntries(fs: seq<Fragment>, section: string)
    requires forall f :: f in fs ==> f.entry != []
    ensures forall f :: f in Sort(Under(fs, section)) ==> f.entry != []
  {
    forall f | f in Sort(Under(fs, section)) ensures f.entry != [] { UnderMember(fs, section, f); }
  }

  /** The release section's body. */
  function RenderLines(sections: seq<string>, fs: seq<Fragment>): Lines
    requires forall f :: f in fs ==> f.entry != []
  {
    if sections == [] then []
    else
      SortedEntries(fs, sections[0]);
      Join(GroupLines(sections[0], Sort(Under(fs, sections[0]))), RenderLines(sections[1..], fs))
  }

  lemma JoinAssociative(a: Lines, b: Lines, c: Lines)
    ensures Join(Join(a, b), c) == Join(a, Join(b, c))
  {
    if a != [] && b != [] && c != [] { assert (a + [""] + b) + [""] + c == a + [""] + (b + [""] + c); }
  }

  /** The loop over the headings. */
  method Render(sections: seq<string>, fs: seq<Fragment>) returns (lines: Lines)
    requires forall f :: f in fs ==> f.entry != []
    ensures lines == RenderLines(sections, fs)
  {
    lines := [];
    for i := 0 to |sections|
      invariant Join(lines, RenderLines(sections[i..], fs)) == RenderLines(sections, fs)
    {
      var group := Sort(Under(fs, sections[i]));
      SortedEntries(fs, sections[i]);
      JoinAssociative(lines, GroupLines(sections[i], group), RenderLines(sections[i + 1..], fs));
      assert sections[i..][0] == sections[i] && sections[i..][1..] == sections[i + 1..];
      if group == [] { continue; }
      lines := Join(lines, GroupLines(sections[i], group));
    }
    assert sections[|sections|..] == [];
  }

  /** A line that lists an entry, rather than heading or spacing. */
  predicate IsBullet(line: string) { line != "" && !("### " <= line) }

  function Bullets(lines: Lines): Lines {
    if lines == [] then [] else (if IsBullet(lines[0]) then [lines[0]] else []) + Bullets(lines[1..])
  }

  lemma {:induction false} BulletsAppend(a: Lines, b: Lines)
    ensures Bullets(a + b) == Bullets(a) + Bullets(b)
    decreases |a|
  {
    if a == [] {
      assert a + b == b;
    } else {
      assert (a + b)[0] == a[0] && (a + b)[1..] == a[1..] + b;
      BulletsAppend(a[1..], b);
    }
  }

  lemma BulletsJoin(a: Lines, b: Lines)
    ensures Bullets(Join(a, b)) == Bullets(a) + Bullets(b)
  {
    BulletsAppend(a + [""], b);
    BulletsAppend(a, [""]);
    assert Bullets([""]) == [];
  }

  lemma {:induction false} BulletsAll(lines: Lines)
    requires forall i :: 0 <= i < |lines| ==> IsEntryLine(lines[i])
    ensures Bullets(lines) == lines
    decreases |lines|
  {
    if lines != [] {
      BulletsAll(lines[1..]);
      assert lines[0][0] != '#';
      assert IsBullet(lines[0]);
      assert lines == [lines[0]] + lines[1..];
    }
  }

  /** Linking a commit keeps the entry an entry. */
  lemma LinkedLines(f: Fragment)
    requires ValidFragment(f)
    ensures forall i :: 0 <= i < |f.entry| ==> IsEntryLine(Linked(f)[i])
  {
    var r, last := Linked(f), |f.entry| - 1;
    assert f.entry[last] <= r[last];
    assert IsEntryLine(f.entry[last]);
    assert forall i :: 0 <= i < last ==> r[i] == f.entry[i];
  }

  function AllLinked(fs: seq<Fragment>): Lines
    requires forall f :: f in fs ==> f.entry != []
  {
    if fs == [] then [] else Linked(fs[0]) + AllLinked(fs[1..])
  }

  lemma {:induction false} EntryBullets(fs: seq<Fragment>)
    requires forall f :: f in fs ==> f.entry != [] && ValidFragment(f)
    ensures Bullets(EntryLines(fs)) == AllLinked(fs)
    decreases |fs|
  {
    if fs != [] {
      EntryBullets(fs[1..]);
      BulletsJoin(Linked(fs[0]), EntryLines(fs[1..]));
      LinkedLines(fs[0]);
      BulletsAll(Linked(fs[0]));
    }
  }

  lemma {:induction false} LinkedAppend(a: seq<Fragment>, b: seq<Fragment>)
    requires forall f :: f in a || f in b ==> f.entry != []
    ensures AllLinked(a + b) == AllLinked(a) + AllLinked(b)
    decreases |a|
  {
    if a == [] {
      assert a + b == b;
    } else {
      assert (a + b)[0] == a[0] && (a + b)[1..] == a[1..] + b;
      LinkedAppend(a[1..], b);
    }
  }

  lemma GroupBullets(section: string, fs: seq<Fragment>)
    requires forall f :: f in fs ==> f.entry != [] && ValidFragment(f)
    ensures Bullets(GroupLines(section, fs)) == AllLinked(fs)
  {
    if fs != [] {
      var top := ["### " + section, ""];
      BulletsAppend(top, EntryLines(fs));
      assert "### " <= top[0] && top[1..] == [""] && Bullets([""]) == [] && Bullets(top) == [];
      EntryBullets(fs);
    }
  }

  /** The rendered bullets are the fragments' entries, each once, in release order. */
  lemma {:induction false} RenderedBullets(sections: seq<string>, fs: seq<Fragment>)
    requires forall f :: f in fs ==> f.entry != [] && ValidFragment(f)
    ensures forall f :: f in Ordered(sections, fs) ==> f.entry != []
    ensures Bullets(RenderLines(sections, fs)) == AllLinked(Ordered(sections, fs))
    decreases |sections|
  {
    forall f | f in Ordered(sections, fs) ensures f.entry != [] { OrderedMember(sections, fs, f); }
    if sections != [] {
      var group := Sort(Under(fs, sections[0]));
      forall f | f in group ensures f.entry != [] && ValidFragment(f) { UnderMember(fs, sections[0], f); }
      RenderedBullets(sections[1..], fs);
      GroupBullets(sections[0], group);
      BulletsJoin(GroupLines(sections[0], group), RenderLines(sections[1..], fs));
      LinkedAppend(group, Ordered(sections[1..], fs));
    }
  }
}
