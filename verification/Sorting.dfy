/** Insertion sort by any order, as the sources use their languages' stable sorts. */
module Sorting {

  type Order<!T> = (T, T) -> bool

  ghost predicate IsOrder<T(!new)>(leq: Order<T>) {
    && (forall x, y :: leq(x, y) || leq(y, x))
    && (forall x, y, z :: leq(x, y) && leq(y, z) ==> leq(x, z))
  }

  ghost predicate Sorted<T>(s: seq<T>, leq: Order<T>) { forall i, j :: 0 <= i < j < |s| ==> leq(s[i], s[j]) }

  function Insert<T>(x: T, s: seq<T>, leq: Order<T>): (r: seq<T>)
    ensures |r| == |s| + 1
  {
    if s == [] || leq(x, s[0]) then [x] + s else [s[0]] + Insert(x, s[1..], leq)
  }

  function Sort<T>(s: seq<T>, leq: Order<T>): (r: seq<T>)
    ensures |r| == |s|
  {
    if s == [] then [] else Insert(s[0], Sort(s[1..], leq), leq)
  }

  lemma {:induction false} InsertKeeps<T>(x: T, s: seq<T>, leq: Order<T>)
    ensures multiset(Insert(x, s, leq)) == multiset{x} + multiset(s)
    decreases |s|
  {
    if s != [] {
      assert s == [s[0]] + s[1..];
      if !leq(x, s[0]) { InsertKeeps(x, s[1..], leq); }
    }
  }

  lemma {:induction false} InsertAbove<T>(x: T, s: seq<T>, leq: Order<T>, low: T)
    requires leq(low, x) && forall i :: 0 <= i < |s| ==> leq(low, s[i])
    ensures forall i :: 0 <= i < |Insert(x, s, leq)| ==> leq(low, Insert(x, s, leq)[i])
    decreases |s|
  {
    if s != [] && !leq(x, s[0]) { InsertAbove(x, s[1..], leq, low); }
  }

  lemma {:induction false} InsertSorts<T(!new)>(x: T, s: seq<T>, leq: Order<T>)
    requires IsOrder(leq) && Sorted(s, leq)
    ensures Sorted(Insert(x, s, leq), leq)
    decreases |s|
  {
    if s != [] {
      if leq(x, s[0]) {
        forall i | 0 <= i < |s| ensures leq(x, s[i]) { if i > 0 { assert leq(s[0], s[i]); } }
      } else {
        InsertSorts(x, s[1..], leq);
        assert leq(s[0], x);
        InsertAbove(x, s[1..], leq, s[0]);
      }
    }
  }

  /** The same elements, in order. */
  lemma {:induction false} SortSorts<T(!new)>(s: seq<T>, leq: Order<T>)
    requires IsOrder(leq)
    ensures Sorted(Sort(s, leq), leq) && multiset(Sort(s, leq)) == multiset(s)
    decreases |s|
  {
    if s != [] {
      SortSorts(s[1..], leq);
      InsertSorts(s[0], Sort(s[1..], leq), leq);
      InsertKeeps(s[0], Sort(s[1..], leq), leq);
      assert s == [s[0]] + s[1..];
    }
  }

  lemma FirstSame<T(!new)>(a: seq<T>, b: seq<T>, leq: Order<T>)
    requires (forall x, y :: leq(x, y) && leq(y, x) ==> x == y)
    requires Sorted(a, leq) && Sorted(b, leq) && multiset(a) == multiset(b) && a != [] && b != []
    ensures a[0] == b[0]
  {
    assert a[0] in multiset(b) && b[0] in multiset(a);
    var i :| 0 <= i < |b| && b[i] == a[0];
    var j :| 0 <= j < |a| && a[j] == b[0];
  }

  lemma WithoutFirst<T>(s: seq<T>)
    requires s != []
    ensures multiset(s[1..]) == multiset(s) - multiset{s[0]}
  {
    assert s == [s[0]] + s[1..];
  }

  /** Sorted sequences of the same elements are equal, when no two elements tie. */
  lemma {:induction false} SortedUnique<T(!new)>(a: seq<T>, b: seq<T>, leq: Order<T>)
    requires (forall x, y :: leq(x, y) && leq(y, x) ==> x == y)
    requires Sorted(a, leq) && Sorted(b, leq) && multiset(a) == multiset(b)
    ensures a == b
    decreases |a|
  {
    assert |a| == |multiset(a)| && |b| == |multiset(b)|;
    if a != [] {
      FirstSame(a, b, leq);
      WithoutFirst(a);
      WithoutFirst(b);
      SortedUnique(a[1..], b[1..], leq);
      assert a == [a[0]] + a[1..] && b == [b[0]] + b[1..];
    }
  }
}
