/**
 * The java.util.stream operations the services are built from, on finite
 * sequences: filter, min/max under a comparator, and a stable sort.
 *
 * A comparator is given as its "at most" relation le(a, b), which stands for
 * compare(a, b) <= 0; it must be a total preorder.
 */
module Streams {

  ghost predicate TotalPreorder<T(!new)>(le: (T, T) -> bool) {
    && (forall a, b :: le(a, b) || le(b, a))
    && (forall a, b, c :: le(a, b) && le(b, c) ==> le(a, c))
  }

  /** Stream.filter: the elements satisfying p, in their original order. */
  function Filter<T(!new)>(s: seq<T>, p: T -> bool): (r: seq<T>)
    ensures |r| <= |s|
    ensures forall x :: multiset(r)[x] == if p(x) then multiset(s)[x] else 0
    ensures forall x :: x in r <==> x in s && p(x)
  {
    if s == [] then []
    else
      var rest := Filter(s[1..], p);
      assert s == [s[0]] + s[1..];
      if p(s[0]) then [s[0]] + rest else rest
  }

  /** k is the first position of a least element of s under le. */
  ghost predicate IsFirstLeast<T>(s: seq<T>, k: int, le: (T, T) -> bool) {
    && 0 <= k < |s|
    && (forall j :: 0 <= j < |s| ==> le(s[k], s[j]))
    && (forall j :: 0 <= j < k ==> !le(s[j], s[k]))
  }

  /**
   * Stream.min(comparator): a left reduction that keeps the earlier element
   * unless the later one is strictly smaller, so the first least element wins.
   */
  function MinBy<T(!new)>(s: seq<T>, le: (T, T) -> bool): (k: nat)
    requires |s| > 0 && TotalPreorder(le)
    ensures IsFirstLeast(s, k, le)
  {
    if |s| == 1 then 0
    else
      var init := s[..|s| - 1];
      var k := MinBy(init, le);
      assert forall j :: 0 <= j < |init| ==> init[j] == s[j];
      if le(s[k], s[|s| - 1]) then k else |s| - 1
  }

  /** The relation le read backwards: a comparator's reversed(). */
  function Reversed<T>(le: (T, T) -> bool): (T, T) -> bool {
    (a: T, b: T) => le(b, a)
  }

  /** k is the first position of a greatest element of s under le. */
  ghost predicate IsFirstGreatest<T>(s: seq<T>, k: int, le: (T, T) -> bool) {
    && 0 <= k < |s|
    && (forall j :: 0 <= j < |s| ==> le(s[j], s[k]))
    && (forall j :: 0 <= j < k ==> !le(s[k], s[j]))
  }

  /**
   * Stream.max(comparator): the reduction keeps the earlier element unless
   * the later one is strictly greater, so the first greatest element wins.
   */
  function MaxBy<T(!new)>(s: seq<T>, le: (T, T) -> bool): (k: nat)
    requires |s| > 0 && TotalPreorder(le)
    ensures IsFirstGreatest(s, k, le)
  {
    var k := MinBy(s, Reversed(le));
    assert IsFirstLeast(s, k, Reversed(le));
    k
  }

  /** A first least (or greatest) position is unique. */
  lemma FirstLeastUnique<T>(s: seq<T>, k1: int, k2: int, le: (T, T) -> bool)
    requires IsFirstLeast(s, k1, le) && IsFirstLeast(s, k2, le)
    ensures k1 == k2
  {
    assert le(s[k1], s[k2]) && le(s[k2], s[k1]);
  }

  lemma FirstGreatestUnique<T>(s: seq<T>, k1: int, k2: int, le: (T, T) -> bool)
    requires IsFirstGreatest(s, k1, le) && IsFirstGreatest(s, k2, le)
    ensures k1 == k2
  {
    assert le(s[k1], s[k2]) && le(s[k2], s[k1]);
  }

  /**
   * Filtering keeps encounter order: the kept elements of a + b are those
   * of a, followed by those of b.
   */
  lemma {:induction false} FilterConcat<T(!new)>(a: seq<T>, b: seq<T>, p: T -> bool)
    ensures Filter(a + b, p) == Filter(a, p) + Filter(b, p)
  {
    if a == [] {
      assert a + b == b;
    } else {
      var x, t := a[0], a[1..];
      var head := if p(x) then [x] else [];
      SplitHead(a, b);
      FilterConcat(t, b, p);
      FilterCons(x, t + b, p);
      FilterCons(x, t, p);
      Associative(head, Filter(t, p), Filter(b, p));
    }
  }

  lemma SplitHead<T>(a: seq<T>, b: seq<T>)
    requires a != []
    ensures a == [a[0]] + a[1..] && a + b == [a[0]] + (a[1..] + b)
  {
  }

  lemma Associative<T>(a: seq<T>, b: seq<T>, c: seq<T>)
    ensures a + (b + c) == (a + b) + c
  {
  }

  lemma FilterCons<T(!new)>(x: T, s: seq<T>, p: T -> bool)
    ensures Filter([x] + s, p) == (if p(x) then [x] else []) + Filter(s, p)
  {
    assert ([x] + s)[1..] == s;
  }

  /** Filtering depends only on which elements the predicate keeps. */
  lemma {:induction false} FilterSame<T(!new)>(s: seq<T>, p: T -> bool, q: T -> bool)
    requires forall x :: x in s ==> p(x) == q(x)
    ensures Filter(s, p) == Filter(s, q)
  {
    if s != [] {
      FilterSame(s[1..], p, q);
    }
  }

  ghost predicate Distinct<T>(s: seq<T>) {
    forall i, j :: 0 <= i < j < |s| ==> s[i] != s[j]
  }

  /** Appending an element not yet present keeps a sequence duplicate-free. */
  lemma DistinctSnoc<T>(s: seq<T>, x: T)
    requires Distinct(s) && x !in s
    ensures Distinct(s + [x])
  {
    var t := s + [x];
    forall i, j | 0 <= i < j < |t| ensures t[i] != t[j] {
      assert t[i] == s[i];
      if j == |s| {
        assert s[i] in s;
      } else {
        assert t[j] == s[j];
      }
    }
  }

  /** A rearrangement of a sequence without repeats has no repeats. */
  lemma DistinctPermutation<T>(s: seq<T>, t: seq<T>)
    requires Distinct(s) && multiset(s) == multiset(t)
    ensures Distinct(t)
  {
    forall i, j | 0 <= i < j < |t| ensures t[i] != t[j] {
      if t[i] == t[j] {
        TwiceCounted(t, i, j);
        CountedOnce(s, t[i]);
        assert false;
      }
    }
  }

  lemma TwiceCounted<T>(s: seq<T>, i: int, j: int)
    requires 0 <= i < j < |s| && s[i] == s[j]
    ensures multiset(s)[s[i]] >= 2
  {
    assert s == s[..j] + [s[j]] + s[j + 1..];
    assert s[i] in s[..j];
  }

  lemma {:induction false} CountedOnce<T>(s: seq<T>, x: T)
    requires Distinct(s)
    ensures multiset(s)[x] <= 1
  {
    if s != [] {
      assert s == [s[0]] + s[1..];
      CountedOnce(s[1..], x);
      if x == s[0] {
        assert x !in s[1..];
      }
    }
  }

  ghost predicate SortedBy<T>(s: seq<T>, le: (T, T) -> bool) {
    forall i, j :: 0 <= i < j < |s| ==> le(s[i], s[j])
  }

  /** Places x after every element of s that is at most x (so the sort is stable). */
  function Insert<T(!new)>(x: T, s: seq<T>, le: (T, T) -> bool): (r: seq<T>)
    requires TotalPreorder(le) && SortedBy(s, le)
    ensures multiset(r) == multiset(s) + multiset{x}
    ensures SortedBy(r, le)
  {
    if s == [] then [x]
    else if !le(s[0], x) then
      assert forall j :: 0 <= j < |s| ==> le(x, s[j]) by {
        forall j | 0 <= j < |s| ensures le(x, s[j]) {
          if j > 0 { assert le(s[0], s[j]); }
        }
      }
      [x] + s
    else
      var rest := Insert(x, s[1..], le);
      assert s == [s[0]] + s[1..];
      assert forall y :: y in rest ==> le(s[0], y) by {
        forall y | y in rest ensures le(s[0], y) {
          assert y in multiset(rest);
          assert y == x || y in s[1..];
        }
      }
      [s[0]] + rest
  }

  /** Stream.sorted(comparator): a stable sort, here by insertion. */
  function Sorted<T(!new)>(s: seq<T>, le: (T, T) -> bool): (r: seq<T>)
    requires TotalPreorder(le)
    ensures multiset(r) == multiset(s)
    ensures |r| == |s|
    ensures SortedBy(r, le)
  {
    if s == [] then []
    else
      var init := s[..|s| - 1];
      assert s == init + [s[|s| - 1]];
      assert multiset(s) == multiset(init) + multiset{s[|s| - 1]};
      var r := Insert(s[|s| - 1], Sorted(init, le), le);
      r
  }
}
