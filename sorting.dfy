/**
 * Python's `sorted(..., key=...)` (with or without `reverse=True`) as a
 * stable insertion sort over an ordering relation `le`, with the facts the
 * report renderers rely on: the output is ordered, is a permutation of the
 * input, keeps equal elements in input order, and does not depend on the
 * input order when `le` is antisymmetric.
 */
module Sorting {

  ghost predicate TotalPreorder<T(!new)>(le: (T, T) -> bool) {
    && (forall a, b :: le(a, b) || le(b, a))
    && (forall a, b, c :: le(a, b) && le(b, c) ==> le(a, c))
  }

  ghost predicate Antisymmetric<T(!new)>(le: (T, T) -> bool) {
    forall a, b :: le(a, b) && le(b, a) ==> a == b
  }

  predicate SortedBy<T>(s: seq<T>, le: (T, T) -> bool) {
    forall i, j :: 0 <= i < j < |s| ==> le(s[i], s[j])
  }

  /** Insert `x` in front of the first element it may precede. */
  function Insert<T>(x: T, s: seq<T>, le: (T, T) -> bool): (r: seq<T>)
    ensures multiset(r) == multiset(s) + multiset{x}
  {
    if s == [] || le(x, s[0]) then [x] + s
    else
      assert s == [s[0]] + s[1..];
      [s[0]] + Insert(x, s[1..], le)
  }

  /** `sorted(s)` under `le`. */
  function SortBy<T>(s: seq<T>, le: (T, T) -> bool): (r: seq<T>)
    ensures multiset(r) == multiset(s)
  {
    if s == [] then []
    else
      assert s == [s[0]] + s[1..];
      Insert(s[0], SortBy(s[1..], le), le)
  }

  /** The elements of `s` that satisfy `p`, in order. */
  function Filter<T>(s: seq<T>, p: T -> bool): seq<T> {
    if s == [] then [] else (if p(s[0]) then [s[0]] else []) + Filter(s[1..], p)
  }

  lemma {:induction false} InsertSorted<T(!new)>(x: T, s: seq<T>, le: (T, T) -> bool)
    requires TotalPreorder(le) && SortedBy(s, le)
    ensures SortedBy(Insert(x, s, le), le)
  {
    if s != [] && !le(x, s[0]) {
      var r := Insert(x, s[1..], le);
      InsertSorted(x, s[1..], le);
      forall i | 0 <= i < |r| ensures le(s[0], r[i]) {
        assert r[i] in multiset(r);
        if r[i] != x {
          assert r[i] in multiset(s[1..]);
          var j :| 0 <= j < |s[1..]| && s[1..][j] == r[i];
          assert s[j + 1] == r[i];
        }
      }
      assert Insert(x, s, le) == [s[0]] + r;
    }
  }

  /** The output of `SortBy` is ordered by `le`. */
  lemma {:induction false} SortBySorted<T(!new)>(s: seq<T>, le: (T, T) -> bool)
    requires TotalPreorder(le)
    ensures SortedBy(SortBy(s, le), le)
  {
    if s != [] {
      SortBySorted(s[1..], le);
      InsertSorted(s[0], SortBy(s[1..], le), le);
    }
  }

  /** `p` picks out elements that `le` ranks all equal to one another. */
  ghost predicate TiedUnder<T(!new)>(p: T -> bool, le: (T, T) -> bool) {
    forall x, y :: p(x) && p(y) ==> le(x, y) && le(y, x)
  }

  lemma {:induction false} InsertFilter<T(!new)>(x: T, s: seq<T>, le: (T, T) -> bool, p: T -> bool)
    requires TiedUnder(p, le)
    ensures Filter(Insert(x, s, le), p) == (if p(x) then [x] else []) + Filter(s, p)
  {
    if s != [] && !le(x, s[0]) {
      InsertFilter(x, s[1..], le, p);
      var a := s[0];
      assert p(x) && p(a) ==> le(x, a);
      InsertFilterPast(x, s, le, p);
    } else {
      FilterCons(x, s, p);
    }
  }

  /** The step of `InsertFilter` where `x` moves past a first element that `p` does not pick with it. */
  lemma InsertFilterPast<T>(x: T, s: seq<T>, le: (T, T) -> bool, p: T -> bool)
    requires s != [] && !le(x, s[0]) && !(p(x) && p(s[0]))
    requires Filter(Insert(x, s[1..], le), p) == (if p(x) then [x] else []) + Filter(s[1..], p)
    ensures Filter(Insert(x, s, le), p) == (if p(x) then [x] else []) + Filter(s, p)
  {
    var a, t := s[0], s[1..];
    var r := Insert(x, t, le);
    var pa, px, ft := (if p(a) then [a] else []), (if p(x) then [x] else []), Filter(t, p);
    InsertPast(x, s, le);
    FilterCons(a, r, p);
    assert Filter(Insert(x, s, le), p) == pa + (px + ft);
    FilterCons(a, t, p);
    assert s == [a] + t;
    assert Filter(s, p) == pa + ft;
    SwapAtMostOne(pa, px, ft);
  }

  /** Past a first element it may not precede, `x` is inserted into the rest. */
  lemma InsertPast<T>(x: T, s: seq<T>, le: (T, T) -> bool)
    requires s != [] && !le(x, s[0])
    ensures Insert(x, s, le) == [s[0]] + Insert(x, s[1..], le)
  {
  }

  /** Two blocks of which one is empty can be put in either order. */
  lemma SwapAtMostOne<T>(u: seq<T>, v: seq<T>, w: seq<T>)
    requires u == [] || v == []
    ensures u + (v + w) == v + (u + w)
  {
    if u == [] {
      assert u + (v + w) == v + w;
      assert u + w == w;
    } else {
      assert v + w == w;
      assert v + (u + w) == u + w;
    }
  }

  lemma FilterCons<T>(a: T, r: seq<T>, p: T -> bool)
    ensures Filter([a] + r, p) == (if p(a) then [a] else []) + Filter(r, p)
  {
    assert ([a] + r)[1..] == r;
  }

  /** `sorted` is stable: elements that `le` ranks equal keep their input order. */
  lemma {:induction false} SortByStable<T(!new)>(s: seq<T>, le: (T, T) -> bool, p: T -> bool)
    requires TotalPreorder(le) && TiedUnder(p, le)
    ensures Filter(SortBy(s, le), p) == Filter(s, p)
  {
    if s != [] {
      SortByStable(s[1..], le, p);
      InsertFilter(s[0], SortBy(s[1..], le), le, p);
    }
  }

  /** Under an antisymmetric order a sorted arrangement of a multiset is unique. */
  lemma {:induction false} SortedUnique<T(!new)>(a: seq<T>, b: seq<T>, le: (T, T) -> bool)
    requires TotalPreorder(le) && Antisymmetric(le)
    requires SortedBy(a, le) && SortedBy(b, le) && multiset(a) == multiset(b)
    ensures a == b
  {
    assert |a| == |multiset(a)| == |multiset(b)| == |b|;
    if a != [] {
      SortedHeads(a, b, le);
      TailsPermute(a, b);
      assert SortedBy(a[1..], le) && SortedBy(b[1..], le);
      SortedUnique(a[1..], b[1..], le);
      assert a == [a[0]] + a[1..] && b == [b[0]] + b[1..];
    }
  }

  /** Two sorted arrangements of one multiset start with the same element. */
  lemma SortedHeads<T(!new)>(a: seq<T>, b: seq<T>, le: (T, T) -> bool)
    requires TotalPreorder(le) && Antisymmetric(le) && a != [] && b != []
    requires SortedBy(a, le) && SortedBy(b, le) && multiset(a) == multiset(b)
    ensures a[0] == b[0]
  {
    assert a[0] in multiset(b);
    var j :| 0 <= j < |b| && b[j] == a[0];
    assert le(b[0], a[0]);
    assert b[0] in multiset(a);
    var i :| 0 <= i < |a| && a[i] == b[0];
    assert le(a[0], b[0]);
  }

  lemma TailsPermute<T>(a: seq<T>, b: seq<T>)
    requires a != [] && b != [] && a[0] == b[0] && multiset(a) == multiset(b)
    ensures multiset(a[1..]) == multiset(b[1..])
  {
    assert a == [a[0]] + a[1..] && b == [b[0]] + b[1..];
    assert multiset(a[1..]) == multiset(a) - multiset{a[0]};
    assert multiset(b[1..]) == multiset(b) - multiset{a[0]};
  }

  /** Sorting two permutations of each other gives the same sequence. */
  lemma SortByCanonical<T(!new)>(s1: seq<T>, s2: seq<T>, le: (T, T) -> bool)
    requires TotalPreorder(le) && Antisymmetric(le)
    requires multiset(s1) == multiset(s2)
    ensures SortBy(s1, le) == SortBy(s2, le)
  {
    SortBySorted(s1, le);
    SortBySorted(s2, le);
    SortedUnique(SortBy(s1, le), SortBy(s2, le), le);
  }

  /** The set of elements of a sequence: `set(s)`. */
  function Elements<T>(s: seq<T>): set<T> {
    set x | x in s
  }

  predicate NoDuplicates<T(==)>(s: seq<T>) {
    forall i, j :: 0 <= i < j < |s| ==> s[i] != s[j]
  }

  lemma {:induction false} NoDuplicatesCount<T>(s: seq<T>, x: T)
    requires NoDuplicates(s)
    ensures multiset(s)[x] == if x in s then 1 else 0
  {
    if s != [] {
      assert s == [s[0]] + s[1..];
      forall j | 0 <= j < |s[1..]| ensures s[1..][j] != s[0] {
        assert s[1..][j] == s[j + 1];
      }
      NoDuplicatesCount(s[1..], x);
    }
  }

  /** A permutation of a duplicate-free sequence is duplicate-free. */
  lemma PermutationNoDuplicates<T>(a: seq<T>, b: seq<T>)
    requires NoDuplicates(a) && multiset(b) == multiset(a)
    ensures NoDuplicates(b)
  {
    forall i, j | 0 <= i < j < |b| ensures b[i] != b[j] {
      if b[i] == b[j] {
        assert b == b[..j] + [b[j]] + b[j + 1..];
        assert b[i] in b[..j];
        assert multiset(b)[b[i]] >= 2 by {
          assert multiset(b) == multiset(b[..j]) + multiset{b[j]} + multiset(b[j + 1..]);
        }
        NoDuplicatesCount(a, b[i]);
      }
    }
  }

  /** Two duplicate-free listings of one set are permutations of each other. */
  lemma ListingsArePermutations<T>(a: seq<T>, b: seq<T>)
    requires NoDuplicates(a) && NoDuplicates(b) && Elements(a) == Elements(b)
    ensures multiset(a) == multiset(b)
  {
    forall x ensures multiset(a)[x] == multiset(b)[x] {
      NoDuplicatesCount(a, x);
      NoDuplicatesCount(b, x);
      assert x in a <==> x in Elements(a);
      assert x in b <==> x in Elements(b);
    }
  }

  /** `a` is `b` with some elements left out, the rest kept in order. */
  predicate IsSubsequence<T(==)>(a: seq<T>, b: seq<T>)
    decreases |b|
  {
    a == [] || (b != [] && (if a[0] == b[0] then IsSubsequence(a[1..], b[1..]) else IsSubsequence(a, b[1..])))
  }

  lemma FilterFacts<T>(s: seq<T>, p: T -> bool)
    ensures forall i :: 0 <= i < |Filter(s, p)| ==> p(Filter(s, p)[i])
    ensures IsSubsequence(Filter(s, p), s)
    ensures forall x :: p(x) ==> multiset(Filter(s, p))[x] == multiset(s)[x]
  {
    FilterKeepsMatches(s, p);
    FilterIsSubsequence(s, p);
    FilterCounts(s, p);
  }

  /** Every element `Filter` keeps passes the test. */
  lemma {:induction false} FilterKeepsMatches<T>(s: seq<T>, p: T -> bool)
    ensures forall i :: 0 <= i < |Filter(s, p)| ==> p(Filter(s, p)[i])
  {
    if s != [] {
      FilterKeepsMatches(s[1..], p);
      var r := Filter(s, p);
      if p(s[0]) {
        assert r == [s[0]] + Filter(s[1..], p);
        forall i | 0 <= i < |r| ensures p(r[i]) {
          if i > 0 { assert r[i] == Filter(s[1..], p)[i - 1]; }
        }
      }
    }
  }

  /** `Filter` keeps elements in their order. */
  lemma {:induction false} FilterIsSubsequence<T>(s: seq<T>, p: T -> bool)
    ensures IsSubsequence(Filter(s, p), s)
  {
    if s != [] {
      FilterIsSubsequence(s[1..], p);
      var r := Filter(s, p);
      if p(s[0]) {
        assert r[0] == s[0] && r[1..] == Filter(s[1..], p);
      } else {
        assert r == Filter(s[1..], p);
        if r != [] {
          FilterKeepsMatches(s, p);
          assert p(r[0]) && r[0] != s[0];
        }
      }
    }
  }

  /** `Filter` keeps every copy of every element that passes. */
  lemma {:induction false} FilterCounts<T>(s: seq<T>, p: T -> bool)
    ensures forall x :: p(x) ==> multiset(Filter(s, p))[x] == multiset(s)[x]
  {
    if s != [] {
      FilterCounts(s[1..], p);
      assert s == [s[0]] + s[1..];
      assert multiset(s) == multiset([s[0]]) + multiset(s[1..]);
      if p(s[0]) {
        assert Filter(s, p) == [s[0]] + Filter(s[1..], p);
        assert multiset(Filter(s, p)) == multiset([s[0]]) + multiset(Filter(s[1..], p));
      }
    }
  }

  lemma {:induction false} FilterIdempotent<T>(s: seq<T>, p: T -> bool)
    ensures Filter(Filter(s, p), p) == Filter(s, p)
  {
    if s != [] {
      FilterIdempotent(s[1..], p);
      var t := Filter(s[1..], p);
      if p(s[0]) {
        assert Filter(s, p) == [s[0]] + t;
        assert ([s[0]] + t)[1..] == t;
        assert Filter([s[0]] + t, p) == [s[0]] + Filter(t, p);
      } else {
        assert Filter(s, p) == t;
      }
    }
  }

  lemma {:induction false} FilterAppend<T>(a: seq<T>, b: seq<T>, p: T -> bool)
    ensures Filter(a + b, p) == Filter(a, p) + Filter(b, p)
  {
    if a == [] {
      assert a + b == b;
    } else {
      var x, t := a[0], a[1..];
      FilterAppend(t, b, p);
      assert a == [x] + t;
      assert a + b == [x] + (t + b);
      FilterCons(x, t + b, p);
      FilterCons(x, t, p);
      var head, ft, fb := if p(x) then [x] else [], Filter(t, p), Filter(b, p);
      assert head + (ft + fb) == (head + ft) + fb;
    }
  }

  /** Filtering by a stricter test after a looser one is filtering by the stricter one. */
  lemma {:induction false} FilterNarrower<T>(s: seq<T>, p: T -> bool, q: T -> bool)
    requires forall x :: q(x) ==> p(x)
    ensures Filter(Filter(s, p), q) == Filter(s, q)
  {
    if s != [] {
      FilterNarrower(s[1..], p, q);
      var t := Filter(s[1..], p);
      if p(s[0]) {
        assert Filter(s, p) == [s[0]] + t;
        assert ([s[0]] + t)[1..] == t;
      } else {
        assert Filter(s, p) == t;
      }
    }
  }

  /** An element survives the filter exactly when it is in the sequence and passes the test. */
  lemma FilterMember<T>(s: seq<T>, p: T -> bool, e: T)
    ensures e in Filter(s, p) <==> e in s && p(e)
  {
    FilterFacts(s, p);
    if e in Filter(s, p) {
      var i :| 0 <= i < |Filter(s, p)| && Filter(s, p)[i] == e;
      assert p(e);
      assert multiset(Filter(s, p))[e] == multiset(s)[e];
    }
    if e in s && p(e) {
      assert multiset(s)[e] > 0;
    }
  }

  /** Two tests that agree everywhere filter alike. */
  lemma {:induction false} FilterSameTest<T>(s: seq<T>, p: T -> bool, q: T -> bool)
    requires forall x :: p(x) == q(x)
    ensures Filter(s, p) == Filter(s, q)
  {
    if s != [] {
      FilterSameTest(s[1..], p, q);
    }
  }
}
