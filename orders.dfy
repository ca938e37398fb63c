/**
 * Python's ordering of strings (code point by code point, a proper prefix
 * first) as a sorting order, and what sorting a list of distinct strings,
 * or a list of items by a string key, gives.
 */
module Orders {
  import opened Text
  import opened Sorting

  lemma LexLeIsTotalPreorder()
    ensures TotalPreorder(LexLe)
  {
    forall a, b ensures LexLe(a, b) || LexLe(b, a) {
      LexLeTotal(a, b);
    }
    forall a, b, c | LexLe(a, b) && LexLe(b, c) ensures LexLe(a, c) {
      LexLeTransitive(a, b, c);
    }
  }

  lemma LexLeIsAntisymmetric()
    ensures Antisymmetric(LexLe)
  {
    forall a, b | LexLe(a, b) && LexLe(b, a) ensures a == b {
      LexLeAntisymmetric(a, b);
    }
  }

  /**
   * `sorted(keys)` for distinct strings: the same strings, each once, in
   * strictly ascending order, whatever order they were listed in.
   */
  lemma SortedStrings(keys: seq<string>, others: seq<string>)
    requires NoDuplicates(keys) && multiset(others) == multiset(keys)
    ensures var s := SortBy(keys, LexLe);
      && multiset(s) == multiset(keys)
      && (forall i, j :: 0 <= i < j < |s| ==> LexLe(s[i], s[j]) && s[i] != s[j])
      && s == SortBy(others, LexLe)
  {
    var s := SortBy(keys, LexLe);
    LexLeIsTotalPreorder();
    LexLeIsAntisymmetric();
    SortBySorted(keys, LexLe);
    SortByCanonical(keys, others, LexLe);
    PermutationNoDuplicates(keys, s);
  }

  /** An order that compares a string key is a total preorder, so sorting by it orders and permutes. */
  lemma SortedByKey<T(!new)>(s: seq<T>, key: T -> string, le: (T, T) -> bool)
    requires forall a, b :: le(a, b) == LexLe(key(a), key(b))
    ensures TotalPreorder(le)
    ensures SortedBy(SortBy(s, le), le) && multiset(SortBy(s, le)) == multiset(s)
  {
    forall a, b ensures le(a, b) || le(b, a) {
      LexLeTotal(key(a), key(b));
    }
    forall a, b, c | le(a, b) && le(b, c) ensures le(a, c) {
      LexLeTransitive(key(a), key(b), key(c));
    }
    SortBySorted(s, le);
  }
}
