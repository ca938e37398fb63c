/**
 * A Python `dict` as the sequence of its items in insertion order, and a
 * `collections.Counter` as a dictionary from element to count: `d.get`,
 * `d[k] = v` (which keeps the position of an existing key and appends a
 * new one), `Counter(iterable)` and `Counter.update(iterable)`.
 */
module Dicts {
  import opened Options
  import opened Sorting

  type Dict<K, V> = seq<(K, V)>

  /** `list(d.keys())`. */
  function Keys<K, V>(d: Dict<K, V>): (ks: seq<K>)
    ensures |ks| == |d| && forall i :: 0 <= i < |d| ==> ks[i] == d[i].0
  {
    seq(|d|, i requires 0 <= i < |d| => d[i].0)
  }

  /** `list(d.values())`. */
  function Values<K, V>(d: Dict<K, V>): (vs: seq<V>)
    ensures |vs| == |d| && forall i :: 0 <= i < |d| ==> vs[i] == d[i].1
  {
    seq(|d|, i requires 0 <= i < |d| => d[i].1)
  }

  /** Appending an item appends its key. */
  lemma KeysAppend<K, V>(d: Dict<K, V>, e: (K, V))
    ensures Keys(d + [e]) == Keys(d) + [e.0]
  {
    var r := Keys(d + [e]);
    var t := Keys(d) + [e.0];
    assert |r| == |t|;
    forall k | 0 <= k < |r| ensures r[k] == t[k] {
      if k < |d| { assert (d + [e])[k] == d[k]; }
    }
  }

  /** The keys of a dictionary with a first item: its key, then the others'. */
  lemma KeysCons<K, V>(e: (K, V), d: Dict<K, V>)
    ensures Keys([e] + d) == [e.0] + Keys(d)
  {
    var r := Keys([e] + d);
    var t := [e.0] + Keys(d);
    assert |r| == |t|;
    forall k | 0 <= k < |r| ensures r[k] == t[k] {
      if k > 0 { assert ([e] + d)[k] == d[k - 1]; }
    }
  }

  /** The keys of a non-empty dictionary split at the first item. */
  lemma KeysTail<K, V>(d: Dict<K, V>)
    requires d != []
    ensures Keys(d) == [d[0].0] + Keys(d[1..])
  {
    assert d == [d[0]] + d[1..];
    KeysCons(d[0], d[1..]);
  }

  /** The keys of a longer prefix: one more key. */
  lemma KeysPrefixStep<K, V>(d: Dict<K, V>, i: nat)
    requires i < |d|
    ensures Keys(d[..i + 1]) == Keys(d[..i]) + [d[i].0]
  {
    assert d[..i + 1] == d[..i] + [d[i]];
    KeysAppend(d[..i], d[i]);
  }

  /** With distinct keys, the next key is not among the keys before it. */
  lemma KeyNotInPrefix<K, V>(d: Dict<K, V>, i: nat)
    requires DistinctKeys(d) && i < |d|
    ensures d[i].0 !in Keys(d[..i])
  {
    forall j | 0 <= j < i ensures Keys(d[..i])[j] != d[i].0 {
      assert Keys(d[..i])[j] == d[j].0;
    }
  }

  /** Every key occurs once: the shape of every dictionary Python builds. */
  predicate DistinctKeys<K(==), V>(d: Dict<K, V>) {
    forall i, j :: 0 <= i < j < |d| ==> d[i].0 != d[j].0
  }

  /** `d.get(k)`, with `None` for a missing key. */
  function Get<K(==), V>(d: Dict<K, V>, k: K): (r: Option<V>)
    ensures r.None? <==> k !in Keys(d)
  {
    if d == [] then None
    else if d[0].0 == k then Some(d[0].1)
    else
      KeysTail(d);
      Get(d[1..], k)
  }

  /** What `Get` finds is an item of the dictionary. */
  lemma {:induction false} GetIsItem<K, V>(d: Dict<K, V>, k: K)
    requires k in Keys(d)
    ensures (k, Get(d, k).value) in d
  {
    if d[0].0 != k {
      KeysTail(d);
      GetIsItem(d[1..], k);
    }
  }

  /** In a dictionary with distinct keys, `Get` finds the one item carrying the key. */
  lemma {:induction false} GetFindsItem<K, V>(d: Dict<K, V>, k: K, v: V)
    requires DistinctKeys(d) && (k, v) in d
    ensures Get(d, k) == Some(v)
  {
    if d[0] != (k, v) {
      var i :| 0 <= i < |d| && d[i] == (k, v);
      assert d[1..][i - 1] == d[i];
      DistinctKeysTail(d);
      GetFindsItem(d[1..], k, v);
    }
  }

  lemma DistinctKeysTail<K, V>(d: Dict<K, V>)
    requires d != [] && DistinctKeys(d)
    ensures DistinctKeys(d[1..])
    ensures forall i :: 0 <= i < |d[1..]| ==> d[1..][i].0 != d[0].0
  {
    forall i, j | 0 <= i < j < |d[1..]| ensures d[1..][i].0 != d[1..][j].0 {
      assert d[1..][i] == d[i + 1] && d[1..][j] == d[j + 1];
    }
    forall i | 0 <= i < |d[1..]| ensures d[1..][i].0 != d[0].0 {
      assert d[1..][i] == d[i + 1];
    }
  }

  /** `d[k] = v`: an existing key keeps its place, a new key goes last. */
  function Assign<K(==), V>(d: Dict<K, V>, k: K, v: V): (r: Dict<K, V>)
  {
    if d == [] then [(k, v)]
    else if d[0].0 == k then [(k, v)] + d[1..]
    else [d[0]] + Assign(d[1..], k, v)
  }

  /** After `d[k] = v`, `d.get(k)` is `v`. */
  lemma {:induction false} AssignGetValue<K, V>(d: Dict<K, V>, k: K, v: V)
    ensures Get(Assign(d, k, v), k) == Some(v)
  {
    if d != [] && d[0].0 != k {
      AssignGetValue(d[1..], k, v);
      var r := Assign(d[1..], k, v);
      assert Assign(d, k, v) == [d[0]] + r;
      assert ([d[0]] + r)[1..] == r;
    }
  }

  /** `d[k] = v` with a new key appends the item. */
  lemma {:induction false} AssignAppendsNew<K, V>(d: Dict<K, V>, k: K, v: V)
    requires k !in Keys(d)
    ensures Assign(d, k, v) == d + [(k, v)]
  {
    if d != [] {
      KeysTail(d);
      AssignAppendsNew(d[1..], k, v);
      assert d == [d[0]] + d[1..];
      assert [d[0]] + (d[1..] + [(k, v)]) == ([d[0]] + d[1..]) + [(k, v)];
    }
  }

  /** After `d[k] = v`, `d.get(k)` is `v`, and a new key is appended. */
  lemma AssignGet<K, V>(d: Dict<K, V>, k: K, v: V)
    ensures Get(Assign(d, k, v), k) == Some(v)
    ensures k !in Keys(d) ==> Assign(d, k, v) == d + [(k, v)]
  {
    AssignGetValue(d, k, v);
    if k !in Keys(d) {
      AssignAppendsNew(d, k, v);
    }
  }

  /** Assigning leaves the value of every other key alone. */
  lemma {:induction false} AssignOthers<K, V>(d: Dict<K, V>, k: K, v: V, j: K)
    requires j != k
    ensures Get(Assign(d, k, v), j) == Get(d, j)
  {
    if d != [] && d[0].0 != k {
      AssignOthers(d[1..], k, v, j);
      var r := Assign(d[1..], k, v);
      assert Assign(d, k, v) == [d[0]] + r;
      assert ([d[0]] + r)[1..] == r;
    } else if d != [] {
      assert Assign(d, k, v)[1..] == d[1..];
    }
  }

  /** Assigning keeps the key order and adds a new key last. */
  lemma {:induction false} AssignKeys<K, V>(d: Dict<K, V>, k: K, v: V)
    ensures Keys(Assign(d, k, v)) == if k in Keys(d) then Keys(d) else Keys(d) + [k]
  {
    if d == [] {
      assert Keys([(k, v)]) == [k];
    } else if d[0].0 != k {
      AssignKeys(d[1..], k, v);
      var r := Assign(d[1..], k, v);
      KeysTail(d);
      KeysCons(d[0], r);
      assert Assign(d, k, v) == [d[0]] + r;
      if k !in Keys(d) {
        assert [d[0].0] + (Keys(d[1..]) + [k]) == ([d[0].0] + Keys(d[1..])) + [k];
      }
    } else {
      KeysTail(d);
      KeysCons((k, v), d[1..]);
      assert Assign(d, k, v) == [(k, v)] + d[1..];
    }
  }

  /** Assigning keeps the keys distinct. */
  lemma AssignDistinct<K, V>(d: Dict<K, V>, k: K, v: V)
    requires DistinctKeys(d)
    ensures DistinctKeys(Assign(d, k, v))
  {
    var r := Assign(d, k, v);
    AssignKeys(d, k, v);
    forall i, j | 0 <= i < j < |r| ensures r[i].0 != r[j].0 {
      assert Keys(r)[i] == r[i].0 && Keys(r)[j] == r[j].0;
      if j < |d| {
        assert Keys(d)[i] == d[i].0 && Keys(d)[j] == d[j].0;
      } else {
        assert k !in Keys(d) && Keys(r)[j] == k;
        assert Keys(r)[i] == Keys(d)[i];
      }
    }
  }

  /** A prefix of a dictionary with distinct keys has distinct keys. */
  lemma DistinctKeysPrefix<K, V>(d: Dict<K, V>, n: nat)
    requires DistinctKeys(d) && n <= |d|
    ensures DistinctKeys(d[..n])
  {
    forall i, j | 0 <= i < j < n ensures d[..n][i].0 != d[..n][j].0 {
      assert d[..n][i] == d[i] && d[..n][j] == d[j];
    }
  }

  /** `{k: f(k, v) for k, v in items}`, built by one `d[k] = f(k, v)` per item. */
  function MapItems<K(==), A, V>(items: Dict<K, A>, f: (K, A) -> V): Dict<K, V> {
    if items == [] then []
    else
      var last := items[|items| - 1];
      Assign(MapItems(items[..|items| - 1], f), last.0, f(last.0, last.1))
  }

  /** With distinct keys, the built dictionary holds one item per item, in order, with the value `f` gives. */
  lemma {:induction false} MapItemsPointwise<K, A, V>(items: Dict<K, A>, f: (K, A) -> V)
    requires DistinctKeys(items)
    ensures |MapItems(items, f)| == |items|
    ensures forall i :: 0 <= i < |items| ==> MapItems(items, f)[i] == (items[i].0, f(items[i].0, items[i].1))
  {
    if items != [] {
      var n := |items| - 1;
      var init := items[..n];
      var last := items[n];
      DistinctKeysPrefix(items, n);
      MapItemsPointwise(init, f);
      var before := MapItems(init, f);
      assert last.0 !in Keys(before) by {
        forall j | 0 <= j < |before| ensures Keys(before)[j] != last.0 {
          assert Keys(before)[j] == before[j].0 == init[j].0 == items[j].0;
        }
      }
      AssignAppendsNew(before, last.0, f(last.0, last.1));
      var all := MapItems(items, f);
      assert all == before + [(last.0, f(last.0, last.1))];
      forall i | 0 <= i < |items| ensures all[i] == (items[i].0, f(items[i].0, items[i].1)) {
        if i < n {
          assert all[i] == before[i] && init[i] == items[i];
        }
      }
    }
  }

  /** One more item appends one more entry. */
  lemma MapItemsStep<K, A, V>(items: Dict<K, A>, f: (K, A) -> V, i: nat)
    requires DistinctKeys(items) && i < |items|
    ensures MapItems(items[..i + 1], f) == MapItems(items[..i], f) + [(items[i].0, f(items[i].0, items[i].1))]
  {
    var prefix := items[..i + 1];
    assert prefix[..i] == items[..i] && prefix[i] == items[i];
    var before := MapItems(items[..i], f);
    DistinctKeysPrefix(items, i);
    MapItemsPointwise(items[..i], f);
    assert Keys(before) == Keys(items[..i]);
    KeyNotInPrefix(items, i);
    AssignAppendsNew(before, items[i].0, f(items[i].0, items[i].1));
  }

  // ------------------------------------------------------------ counters

  /** `counter[x]`: 0 for an element never counted. */
  function Count<K(==)>(c: Dict<K, nat>, x: K): nat {
    Get(c, x).GetOr(0)
  }

  /** `counter.update(xs)`: one more for each element, new elements going last. */
  function UpdateCounts<K(==)>(c: Dict<K, nat>, xs: seq<K>): Dict<K, nat> {
    FoldLeft(c, xs, Bump)
  }

  /** `counter[x] += 1`. */
  function Bump<K(==)>(c: Dict<K, nat>, x: K): Dict<K, nat> {
    var n: nat := Count(c, x) + 1;
    Assign(c, x, n)
  }

  /** `Counter(xs)`. */
  function CounterOf<K(==)>(xs: seq<K>): Dict<K, nat> {
    UpdateCounts([], xs)
  }

  /** The distinct elements of `xs` in order of first appearance. */
  function FirstAppearances<K(==)>(xs: seq<K>): (r: seq<K>)
    ensures NoDuplicates(r) && Elements(r) == Elements(xs)
  {
    if xs == [] then []
    else
      var init := xs[..|xs| - 1];
      var x := xs[|xs| - 1];
      var before := FirstAppearances(init);
      assert xs == init + [x];
      assert Elements(xs) == Elements(init) + {x};
      if x in Elements(init) then before
      else
        var r := before + [x];
        assert NoDuplicates(r) by {
          forall i, j | 0 <= i < j < |r| ensures r[i] != r[j] {
            assert r[i] == before[i];
            if j < |before| { assert r[j] == before[j]; }
          }
        }
        r
  }

  /** Counting `ys` after `xs` is counting `xs + ys`. */
  lemma UpdateCountsAppend<K>(c: Dict<K, nat>, xs: seq<K>, ys: seq<K>)
    ensures UpdateCounts(UpdateCounts(c, xs), ys) == UpdateCounts(c, xs + ys)
  {
    FoldLeftAppend(c, xs, ys, Bump);
  }

  /** `Counter(xs)` counts every occurrence. */
  lemma {:induction false} CounterCounts<K>(xs: seq<K>, y: K)
    ensures Count(CounterOf(xs), y) == multiset(xs)[y]
  {
    if xs != [] {
      var init := xs[..|xs| - 1];
      var x := xs[|xs| - 1];
      CounterCounts(init, y);
      assert xs == init + [x];
      var before := CounterOf(init);
      var n: nat := Count(before, x) + 1;
      assert CounterOf(xs) == Assign(before, x, n);
      if x != y {
        AssignOthers(before, x, n, y);
      } else {
        AssignGet(before, x, n);
      }
    }
  }

  /** `Counter(xs)` lists each element once, in the order the elements first appear. */
  lemma {:induction false} CounterKeys<K>(xs: seq<K>)
    ensures Keys(CounterOf(xs)) == FirstAppearances(xs)
    ensures DistinctKeys(CounterOf(xs))
  {
    if xs != [] {
      var init := xs[..|xs| - 1];
      var x := xs[|xs| - 1];
      CounterKeys(init);
      var before := CounterOf(init);
      var n: nat := Count(before, x) + 1;
      assert CounterOf(xs) == Assign(before, x, n);
      AssignKeys(before, x, n);
      AssignDistinct(before, x, n);
      assert x in Keys(before) <==> x in Elements(init) by {
        assert Elements(Keys(before)) == Elements(init);
      }
    }
  }

  /** `{k: n for k, n in c.items() if n >= m}`: the items with count at least `m`, in order. */
  function AtLeast<K>(c: Dict<K, nat>, m: int): Dict<K, nat> {
    Filter(c, (e: (K, nat)) => e.1 >= m)
  }

  /** A filtered dictionary keeps its keys distinct. */
  lemma {:induction false} FilterKeepsItems<K, V>(d: Dict<K, V>, p: ((K, V)) -> bool)
    requires DistinctKeys(d)
    ensures DistinctKeys(Filter(d, p))
  {
    if d != [] {
      var rest := d[1..];
      assert DistinctKeys(rest) by {
        forall i, j | 0 <= i < j < |rest| ensures rest[i].0 != rest[j].0 {
          assert rest[i] == d[i + 1] && rest[j] == d[j + 1];
        }
      }
      FilterKeepsItems(rest, p);
      assert d == [d[0]] + rest;
      var f := Filter(rest, p);
      if p(d[0]) {
        assert Filter(d, p) == [d[0]] + f;
        forall i | 0 <= i < |f| ensures f[i].0 != d[0].0 {
          FilterFrom(rest, p, f[i]);
          var j :| 0 <= j < |rest| && rest[j] == f[i];
          assert d[j + 1] == f[i];
        }
      } else {
        assert Filter(d, p) == f;
      }
    }
  }

  lemma FilterFrom<T>(s: seq<T>, p: T -> bool, e: T)
    requires e in Filter(s, p)
    ensures e in s
  {
    FilterFacts(s, p);
    var i :| 0 <= i < |Filter(s, p)| && Filter(s, p)[i] == e;
    assert p(e);
    assert multiset(Filter(s, p))[e] == multiset(s)[e];
  }

  /** In a dictionary with distinct keys, an item is a key together with what `Get` finds for it. */
  lemma ItemIffGet<K, V>(d: Dict<K, V>, e: (K, V))
    requires DistinctKeys(d)
    ensures e in d <==> e.0 in Keys(d) && Get(d, e.0) == Some(e.1)
  {
    if e in d {
      GetFindsItem(d, e.0, e.1);
      var i :| 0 <= i < |d| && d[i] == e;
      assert Keys(d)[i] == e.0;
    }
    if e.0 in Keys(d) {
      GetIsItem(d, e.0);
    }
  }

  /** Items with distinct keys are distinct items. */
  lemma DistinctKeysNoDuplicates<K, V>(d: Dict<K, V>)
    requires DistinctKeys(d)
    ensures NoDuplicates(d)
  {
  }

  /** A permutation of a dictionary with distinct keys has distinct keys. */
  lemma PermutationDistinctKeys<K, V>(d: Dict<K, V>, e: Dict<K, V>)
    requires DistinctKeys(d) && multiset(d) == multiset(e)
    ensures DistinctKeys(e)
  {
    forall i, j | 0 <= i < j < |e| ensures e[i].0 != e[j].0 {
      if e[i].0 == e[j].0 {
        assert e[i] in multiset(d) && e[j] in multiset(d);
        var a :| 0 <= a < |d| && d[a] == e[i];
        var b :| 0 <= b < |d| && d[b] == e[j];
        assert a == b;
        assert e == e[..j] + [e[j]] + e[j + 1..];
        assert e[i] in e[..j];
        assert multiset(e)[e[i]] >= 2 by {
          assert multiset(e) == multiset(e[..j]) + multiset{e[j]} + multiset(e[j + 1..]);
        }
        DistinctKeysNoDuplicates(d);
        NoDuplicatesCount(d, e[i]);
      }
    }
  }
}
