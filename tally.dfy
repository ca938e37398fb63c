/**
 * Counting OMA groups: the tally of fingerprint matches over a Pfam
 * family's records and its `>= min_count` threshold (find_orthologues.py),
 * and `filter_frequent_omas` (ortho_counts.py, ortho_counts_old.py), which
 * counts the groups an accession mapping points to, keeps the frequent ones
 * and orders them by non-increasing count.
 */
module Tally {
  import opened Options
  import opened Sorting
  import opened Dicts
  import opened Fingerprints
  import opened Records
  import opened ProteinTable

  // ------------------------------------------------------------ find_orthologues

  /** Every `[A-Z]{7}` match of the records' OMA fields, record by record, repeats included. */
  function AllMatches(rs: seq<ProteinRecord>): (ms: seq<string>)
    ensures forall k :: 0 <= k < |ms| ==> IsFingerprint(ms[k])
  {
    if rs == [] then []
    else
      var last := rs[|rs| - 1];
      AllMatches(rs[..|rs| - 1]) + (if last.omaRefs != [] then FindFingerprints(last.omaRefs) else [])
  }

  /** How often `f` is matched in the OMA fields of `rs`: the per-record match counts, summed. */
  function MatchCount(rs: seq<ProteinRecord>, f: string): nat {
    if rs == [] then 0
    else MatchCount(rs[..|rs| - 1], f) + multiset(FindFingerprints(rs[|rs| - 1].omaRefs))[f]
  }

  /** The accessions of `rs`. */
  function Accessions(rs: seq<ProteinRecord>): set<string> {
    set k | 0 <= k < |rs| :: rs[k].accession
  }

  /**
   * The tally loop: `pfam_accessions` collects every accession, and
   * `oma_counts` counts every match of every record, in order.
   */
  method TallyOmaCounts(proteins: seq<ProteinRecord>) returns (counts: Dict<string, nat>, accessions: set<string>)
    ensures counts == CounterOf(AllMatches(proteins))
    ensures accessions == Accessions(proteins)
  {
    counts, accessions := [], {};
    for i := 0 to |proteins|
      invariant counts == CounterOf(AllMatches(proteins[..i]))
      invariant accessions == Accessions(proteins[..i])
    {
      TallyStep(proteins, i);
      accessions := accessions + {proteins[i].accession};
      if proteins[i].omaRefs != [] {
        var matches := FindFingerprints(proteins[i].omaRefs);
        UpdateCountsAppend([], AllMatches(proteins[..i]), matches);
        counts := UpdateCounts(counts, matches);
      }
    }
    assert proteins[..|proteins|] == proteins;
  }

  /** One more record adds its accession and appends its matches. */
  lemma TallyStep(proteins: seq<ProteinRecord>, i: nat)
    requires i < |proteins|
    ensures Accessions(proteins[..i + 1]) == Accessions(proteins[..i]) + {proteins[i].accession}
    ensures AllMatches(proteins[..i + 1]) == AllMatches(proteins[..i])
      + (if proteins[i].omaRefs != [] then FindFingerprints(proteins[i].omaRefs) else [])
    ensures proteins[i].omaRefs == [] ==> AllMatches(proteins[..i + 1]) == AllMatches(proteins[..i])
  {
    assert proteins[..i + 1][..i] == proteins[..i];
    assert forall k :: 0 <= k < i ==> proteins[..i + 1][k] == proteins[..i][k];
  }

  /** A fingerprint's tally is the number of times it is matched, over all records. */
  lemma {:induction false} TallyCountsEveryMatch(rs: seq<ProteinRecord>, f: string)
    ensures Count(CounterOf(AllMatches(rs)), f) == MatchCount(rs, f)
  {
    CounterCounts(AllMatches(rs), f);
    MatchesCounted(rs, f);
  }

  lemma {:induction false} MatchesCounted(rs: seq<ProteinRecord>, f: string)
    ensures multiset(AllMatches(rs))[f] == MatchCount(rs, f)
  {
    if rs != [] {
      MatchesCounted(rs[..|rs| - 1], f);
      if rs[|rs| - 1].omaRefs == [] {
        NoRunNoFingerprint(rs[|rs| - 1].omaRefs, 0);
      }
    }
  }

  /** The tallied fingerprints are exactly the set `get_oma_proteins` collected. */
  lemma {:induction false} TallyKeysAreFingerprints(rs: seq<ProteinRecord>)
    ensures Elements(Keys(CounterOf(AllMatches(rs)))) == FingerprintsOf(rs)
  {
    CounterKeys(AllMatches(rs));
    MatchesAreFingerprints(rs);
  }

  lemma {:induction false} MatchesAreFingerprints(rs: seq<ProteinRecord>)
    ensures Elements(AllMatches(rs)) == FingerprintsOf(rs)
  {
    if rs != [] {
      var init := rs[..|rs| - 1];
      var last := rs[|rs| - 1];
      MatchesAreFingerprints(init);
      assert rs == init + [last];
      FingerprintsOfAppend(init, last);
      if last.omaRefs == [] {
        NoRunNoFingerprint(last.omaRefs, 0);
      }
      var tail := if last.omaRefs != [] then FindFingerprints(last.omaRefs) else [];
      assert Elements(AllMatches(init) + tail) == Elements(AllMatches(init)) + Elements(tail);
    }
  }

  /** An item of `Counter(xs)` is an element of `xs` paired with its number of occurrences. */
  lemma CounterItem<K>(xs: seq<K>, e: (K, nat))
    ensures e in CounterOf(xs) <==> e.1 == multiset(xs)[e.0] && e.1 >= 1
  {
    var c := CounterOf(xs);
    CounterKeys(xs);
    CounterCounts(xs, e.0);
    ItemIffGet(c, e);
    assert e.0 in Keys(c) <==> e.0 in xs by {
      assert e.0 in Keys(c) <==> e.0 in Elements(Keys(c));
      assert e.0 in xs <==> e.0 in Elements(xs);
    }
  }

  // `{oma: count for oma, count in oma_counts.items() if count >= min_count}` is `AtLeast(oma_counts, min_count)`.

  lemma AtLeastItem<K>(c: Dict<K, nat>, m: int, e: (K, nat))
    ensures e in AtLeast(c, m) <==> e in c && e.1 >= m
  {
    FilterMember(c, (x: (K, nat)) => x.1 >= m, e);
  }

  /** The frequent groups are exactly the matched fingerprints whose tally reaches `min_count`, counts unchanged. */
  lemma FrequentExactly(rs: seq<ProteinRecord>, minCount: int, f: string, n: nat)
    ensures (f, n) in AtLeast(CounterOf(AllMatches(rs)), minCount)
            <==> n == MatchCount(rs, f) && n >= 1 && n >= minCount
  {
    AtLeastItem(CounterOf(AllMatches(rs)), minCount, (f, n));
    CounterItem(AllMatches(rs), (f, n));
    MatchesCounted(rs, f);
  }

  /** Raising the threshold can only drop groups: the stricter result is the looser one filtered again. */
  lemma FrequentMonotone(counts: Dict<string, nat>, m1: int, m2: int)
    requires m1 <= m2
    ensures AtLeast(counts, m2) == AtLeast(AtLeast(counts, m1), m2)
    ensures IsSubsequence(AtLeast(counts, m2), AtLeast(counts, m1))
  {
    FilterNarrower(counts, (e: (string, nat)) => e.1 >= m1, (e: (string, nat)) => e.1 >= m2);
    FilterFacts(AtLeast(counts, m1), (e: (string, nat)) => e.1 >= m2);
  }

  // ------------------------------------------------------------ ortho_counts

  /** The order of `sorted(..., key=lambda x: x[1], reverse=True)`. */
  predicate ByCountDesc(a: (string, nat), b: (string, nat)) {
    a.1 >= b.1
  }

  lemma ByCountDescIsPreorder()
    ensures TotalPreorder(ByCountDesc)
  {
  }

  /**
   * `filter_frequent_omas`: the groups the mapping points to at least
   * `min_count` times, with their counts, most frequent first, ties in the
   * order the groups first appear among the mapping's values.
   */
  function FrequentByCount(mapping: Dict<string, string>, minCount: int): Dict<string, nat> {
    SortBy(AtLeast(CounterOf(Values(mapping)), minCount), ByCountDesc)
  }

  method FilterFrequentOmas(mapping: Dict<string, string>, minCount: int) returns (frequent: Dict<string, nat>)
    ensures frequent == FrequentByCount(mapping, minCount)
  {
    var counts := CounterOf(Values(mapping));
    CounterKeys(Values(mapping));
    frequent := [];
    for i := 0 to |counts|
      invariant frequent == AtLeast(counts[..i], minCount)
    {
      AtLeastStep(counts, minCount, i);
      if counts[i].1 >= minCount {
        frequent := Assign(frequent, counts[i].0, counts[i].1);
      }
    }
    assert counts[..|counts|] == counts;
    frequent := SortBy(frequent, ByCountDesc);
  }

  /** One turn of the filtering loop: a count that reaches `min_count` is assigned, and lands last. */
  lemma AtLeastStep(counts: Dict<string, nat>, minCount: int, i: nat)
    requires DistinctKeys(counts) && i < |counts|
    ensures var before := AtLeast(counts[..i], minCount);
      AtLeast(counts[..i + 1], minCount)
      == if counts[i].1 >= minCount then Assign(before, counts[i].0, counts[i].1) else before
  {
    var p := (e: (string, nat)) => e.1 >= minCount;
    var before := AtLeast(counts[..i], minCount);
    assert counts[..i + 1] == counts[..i] + [counts[i]];
    FilterAppend(counts[..i], [counts[i]], p);
    assert Filter([counts[i]], p) == if p(counts[i]) then [counts[i]] else [];
    if counts[i].1 >= minCount {
      assert counts[i].0 !in Keys(before) by {
        forall j | 0 <= j < |before| ensures Keys(before)[j] != counts[i].0 {
          assert before[j] in before;
          FilterFrom(counts[..i], p, before[j]);
          var k :| 0 <= k < i && counts[..i][k] == before[j];
          assert counts[k] == before[j];
        }
      }
      AssignAppendsNew(before, counts[i].0, counts[i].1);
    }
  }

  /**
   * What `filter_frequent_omas` returns: each group mapped to at least
   * `min_count` (and at least once) paired with the number of accessions
   * mapped to it, each group once, by non-increasing count.
   */
  lemma FrequentByCountFacts(mapping: Dict<string, string>, minCount: int)
    ensures forall e :: e in FrequentByCount(mapping, minCount)
                       <==> e.1 == multiset(Values(mapping))[e.0] && e.1 >= 1 && e.1 >= minCount
    ensures SortedBy(FrequentByCount(mapping, minCount), ByCountDesc)
    ensures DistinctKeys(FrequentByCount(mapping, minCount))
  {
    FrequentItems(mapping, minCount);
    ByCountDescIsPreorder();
    SortBySorted(AtLeast(CounterOf(Values(mapping)), minCount), ByCountDesc);
    FrequentDistinct(mapping, minCount);
  }

  /** Each group of `filter_frequent_omas` appears once. */
  lemma FrequentDistinct(mapping: Dict<string, string>, minCount: int)
    ensures DistinctKeys(FrequentByCount(mapping, minCount))
  {
    var xs := Values(mapping);
    var c := CounterOf(xs);
    CounterKeys(xs);
    FilterKeepsItems(c, (e: (string, nat)) => e.1 >= minCount);
    PermutationDistinctKeys(AtLeast(c, minCount), FrequentByCount(mapping, minCount));
  }

  /** The items of `filter_frequent_omas`: the groups counted at least `min_count` times, with their counts. */
  lemma FrequentItems(mapping: Dict<string, string>, minCount: int)
    ensures forall e :: e in FrequentByCount(mapping, minCount)
                       <==> e.1 == multiset(Values(mapping))[e.0] && e.1 >= 1 && e.1 >= minCount
  {
    forall e ensures e in FrequentByCount(mapping, minCount)
                     <==> e.1 == multiset(Values(mapping))[e.0] && e.1 >= 1 && e.1 >= minCount {
      FrequentItem(mapping, minCount, e);
    }
  }

  lemma FrequentItem(mapping: Dict<string, string>, minCount: int, e: (string, nat))
    ensures e in FrequentByCount(mapping, minCount)
            <==> e.1 == multiset(Values(mapping))[e.0] && e.1 >= 1 && e.1 >= minCount
  {
    var xs := Values(mapping);
    var c := CounterOf(xs);
    var f := AtLeast(c, minCount);
    assert e in FrequentByCount(mapping, minCount) <==> e in multiset(f);
    FilterMember(c, (e: (string, nat)) => e.1 >= minCount, e);
    CounterItem(xs, e);
  }

  /** Groups with equal counts keep the order in which they first appear among the mapping's values. */
  lemma FrequentTiesKeepOrder(mapping: Dict<string, string>, minCount: int, n: nat)
    ensures var tie := (e: (string, nat)) => e.1 == n;
      Filter(FrequentByCount(mapping, minCount), tie) == Filter(AtLeast(CounterOf(Values(mapping)), minCount), tie)
  {
    var tie := (e: (string, nat)) => e.1 == n;
    ByCountDescIsPreorder();
    SortByStable(AtLeast(CounterOf(Values(mapping)), minCount), ByCountDesc, tie);
  }
}
