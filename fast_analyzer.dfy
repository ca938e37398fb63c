/**
 * `FastPfamOMAAnalyzer.analyze_pfam_family` (find_orthologues.py): fetch a
 * Pfam family's proteins, tally the OMA fingerprints their cross-references
 * name, keep the groups matched at least `min_count` times, and for each
 * such group fetch the group's proteins that lack the Pfam domain.
 *
 * The UniProt service and the clock are parameters (`Uniprot`).
 */
module FastAnalyzer {
  import opened Options
  import opened Text
  import opened Sorting
  import opened Dicts
  import opened Fingerprints
  import opened Records
  import opened ProteinTable
  import opened Tally
  import opened FamilyFiles

  /** What the outside world answers during one analysis. */
  datatype Uniprot = Uniprot(
    // the TSV body `/uniprotkb/stream` returns for a query; `None` when the request fails
    stream: string -> Option<string>,
    // `get_total_oma_group_size`: the `count` of the search for a group; 0 when the request fails
    groupSize: string -> int,
    // `time.strftime('%Y-%m-%d %H:%M:%S')` when the analysis ends
    timestamp: string)

  /** One entry of `unique_to_oma`. */
  datatype GroupGap = GroupGap(pfamCount: nat, totalOmaSize: int, uniqueProteins: seq<ProteinRecord>, uniqueCount: nat)

  /**
   * The dictionary `analyze_pfam_family` returns: `{}` is `NoResults`; a
   * missing `min_count` or `analysis_timestamp` key is `None`.
   */
  datatype Results =
    | NoResults
    | Results(
        pfamId: string,
        minCount: Option<int>,
        proteinCount: nat,
        proteins: seq<ProteinRecord>,
        frequent: Dict<string, nat>,
        gaps: Dict<string, GroupGap>,
        uniqueCount: nat,
        timestamp: Option<string>)

  /** `get_oma_proteins(pfam_id=pfam)`: the family's proteins. */
  function FamilyProteins(api: Uniprot, pfam: string): seq<ProteinRecord>
    requires pfam != []
  {
    FetchedProteins(api.stream(BuildQuery("", pfam, true).value))
  }

  /** The gap entry for group `fp`, matched `n` times in the family. */
  function GapFor(api: Uniprot, pfam: string, fp: string, n: nat): GroupGap
    requires pfam != []
  {
    var outside := FetchedProteins(api.stream(BuildQuery(fp, pfam, false).value));
    GroupGap(n, api.groupSize(fp), outside, |outside|)
  }

  /** The gap entry of each group, as a function of the group and its count. */
  function GapOf(api: Uniprot, pfam: string): (string, nat) -> GroupGap
    requires pfam != []
  {
    (fp: string, n: nat) => GapFor(api, pfam, fp, n)
  }

  /** `unique_to_oma` once the group loop has visited `items`. */
  function GroupGaps(api: Uniprot, pfam: string, items: Dict<string, nat>): Dict<string, GroupGap>
    requires pfam != []
  {
    MapItems(items, GapOf(api, pfam))
  }

  /** The sum of the `unique_count` entries. */
  function SumUnique(gaps: Dict<string, GroupGap>): nat {
    if gaps == [] then 0 else SumUnique(gaps[..|gaps| - 1]) + gaps[|gaps| - 1].1.uniqueCount
  }

  /**
   * What `analyze_pfam_family` returns, with the early return for a family
   * without fingerprints carrying `min_count` like the full result does (see
   * `AnalysisAsWritten`).
   */
  function Analysis(pfam: string, minCount: int, api: Uniprot): Results {
    if !IsPfamId(pfam) then NoResults
    else
      var proteins := FamilyProteins(api, pfam);
      if proteins == [] then NoResults
      else if FingerprintsOf(proteins) == {} then
        Results(pfam, Some(minCount), |proteins|, proteins, [], [], 0, None)
      else
        var frequent := AtLeast(CounterOf(AllMatches(proteins)), minCount);
        var gaps := GroupGaps(api, pfam, frequent);
        Results(pfam, Some(minCount), |proteins|, proteins, frequent, gaps, SumUnique(gaps), Some(api.timestamp))
  }

  /** The code as written: the early return for a family without fingerprints has no `min_count`. */
  function AnalysisAsWritten(pfam: string, minCount: int, api: Uniprot): Results {
    var r := Analysis(pfam, minCount, api);
    if r.Results? && FingerprintsOf(r.proteins) == {} then r.(minCount := None) else r
  }

  /**
   * `analyze_pfam_family` as written; `Analysis` is the result it was
   * evidently meant to give, which the properties below are about.
   */
  method AnalyzePfamFamily(pfamId: string, minCount: int, api: Uniprot) returns (results: Results)
    ensures results == AnalysisAsWritten(pfamId, minCount, api)
  {
    if !IsPfamId(pfamId) {
      return NoResults;
    }
    var proteins, fingerprints := GetOmaProteins(api.stream(BuildQuery("", pfamId, true).value));
    if proteins == [] {
      return NoResults;
    }
    if fingerprints == {} {
      results := Results(pfamId, None, |proteins|, proteins, [], [], 0, None);
      AsWrittenOfBareProteins(pfamId, minCount, api, proteins);
      return;
    }
    var counts, _ := TallyOmaCounts(proteins);
    var frequent := AtLeast(counts, minCount);
    CounterKeys(AllMatches(proteins));
    FilterKeepsItems(counts, (e: (string, nat)) => e.1 >= minCount);
    var gaps, total := CollectGaps(api, pfamId, frequent);
    results := Results(pfamId, Some(minCount), |proteins|, proteins, frequent, gaps, total, Some(api.timestamp));
    AnalysisOfProteins(pfamId, minCount, api, proteins);
  }

  /**
   * The code as written differs from `Analysis` only in the early return
   * for a family without fingerprints, and there only in `min_count`.
   */
  lemma AsWrittenDiffersOnlyInMinCount(pfam: string, minCount: int, api: Uniprot)
    ensures AnalysisAsWritten(pfam, minCount, api).NoResults? <==> Analysis(pfam, minCount, api).NoResults?
    ensures Analysis(pfam, minCount, api).Results? ==>
              AnalysisAsWritten(pfam, minCount, api)
              == Analysis(pfam, minCount, api).(minCount := AnalysisAsWritten(pfam, minCount, api).minCount)
    ensures AnalysisAsWritten(pfam, minCount, api).Results? && AnalysisAsWritten(pfam, minCount, api).minCount.None?
            <==> Analysis(pfam, minCount, api).Results? && FingerprintsOf(Analysis(pfam, minCount, api).proteins) == {}
  {
  }

  /** `Analysis` once the family's proteins are known and name at least one fingerprint. */
  lemma AnalysisOfProteins(pfam: string, minCount: int, api: Uniprot, proteins: seq<ProteinRecord>)
    requires IsPfamId(pfam) && proteins == FamilyProteins(api, pfam)
    requires proteins != [] && FingerprintsOf(proteins) != {}
    ensures var frequent := AtLeast(CounterOf(AllMatches(proteins)), minCount);
      var gaps := GroupGaps(api, pfam, frequent);
      Analysis(pfam, minCount, api)
      == Results(pfam, Some(minCount), |proteins|, proteins, frequent, gaps, SumUnique(gaps), Some(api.timestamp))
    ensures AnalysisAsWritten(pfam, minCount, api) == Analysis(pfam, minCount, api)
  {
  }

  /** `AnalysisAsWritten` once the family's proteins are known and name no fingerprint. */
  lemma AsWrittenOfBareProteins(pfam: string, minCount: int, api: Uniprot, proteins: seq<ProteinRecord>)
    requires IsPfamId(pfam) && proteins == FamilyProteins(api, pfam)
    requires proteins != [] && FingerprintsOf(proteins) == {}
    ensures AnalysisAsWritten(pfam, minCount, api) == Results(pfam, None, |proteins|, proteins, [], [], 0, None)
  {
  }

  /** The group loop: one gap entry per frequent group, in the dictionary's order, and the running total. */
  method CollectGaps(api: Uniprot, pfamId: string, frequent: Dict<string, nat>) returns (gaps: Dict<string, GroupGap>, total: nat)
    requires pfamId != [] && DistinctKeys(frequent)
    ensures gaps == GroupGaps(api, pfamId, frequent)
    ensures total == SumUnique(gaps)
  {
    gaps, total := [], 0;
    for i := 0 to |frequent|
      invariant gaps == GroupGaps(api, pfamId, frequent[..i])
      invariant total == SumUnique(gaps)
    {
      var fp, pfamCount := frequent[i].0, frequent[i].1;
      var outside, _ := GetOmaProteins(api.stream(BuildQuery(fp, pfamId, false).value));
      var size := api.groupSize(fp);
      var gap := GroupGap(pfamCount, size, outside, |outside|);
      assert gap == GapOf(api, pfamId)(fp, pfamCount);
      MapItemsStep(frequent, GapOf(api, pfamId), i);
      SumUniqueAppend(gaps, (fp, gap));
      gaps := gaps + [(fp, gap)];
      total := total + |outside|;
    }
    assert frequent[..|frequent|] == frequent;
  }

  lemma SumUniqueAppend(gaps: Dict<string, GroupGap>, e: (string, GroupGap))
    ensures SumUnique(gaps + [e]) == SumUnique(gaps) + e.1.uniqueCount
  {
    assert (gaps + [e])[..|gaps|] == gaps;
  }

  // ------------------------------------------------------------ properties

  /** Each frequent group gets exactly one entry, in the order of `frequent_omas`, built from its own downloads. */
  lemma GroupGapsListsEveryGroup(api: Uniprot, pfam: string, items: Dict<string, nat>)
    requires pfam != [] && DistinctKeys(items)
    ensures |GroupGaps(api, pfam, items)| == |items|
    ensures forall i :: 0 <= i < |items| ==>
              GroupGaps(api, pfam, items)[i] == (items[i].0, GapFor(api, pfam, items[i].0, items[i].1))
  {
    MapItemsPointwise(items, GapOf(api, pfam));
  }

  /** The total is zero exactly when no group has a protein outside the family. */
  lemma {:induction false} SumUniqueZero(gaps: Dict<string, GroupGap>)
    requires forall i :: 0 <= i < |gaps| ==> gaps[i].1.uniqueCount == |gaps[i].1.uniqueProteins|
    ensures SumUnique(gaps) == 0 <==> forall i :: 0 <= i < |gaps| ==> gaps[i].1.uniqueProteins == []
  {
    if gaps != [] {
      var init := gaps[..|gaps| - 1];
      SumUniqueZero(init);
      assert forall i :: 0 <= i < |init| ==> init[i] == gaps[i];
    }
  }

  /** Every group's count is part of the total: the total adds the groups up, with no deduplication. */
  lemma {:induction false} SumUniqueCoversEachGroup(gaps: Dict<string, GroupGap>, i: nat)
    requires i < |gaps|
    ensures gaps[i].1.uniqueCount <= SumUnique(gaps)
  {
    var init := gaps[..|gaps| - 1];
    if i < |init| {
      assert init[i] == gaps[i];
      SumUniqueCoversEachGroup(init, i);
    }
  }

  /** The analysis gives up (`{}`) exactly for a malformed identifier or a family without proteins. */
  lemma AnalysisFailsIff(pfam: string, minCount: int, api: Uniprot)
    ensures Analysis(pfam, minCount, api).NoResults? <==> !IsPfamId(pfam) || FamilyProteins(api, pfam) == []
    ensures Analysis(pfam, minCount, api).Results? ==>
              var r := Analysis(pfam, minCount, api);
              && r.pfamId == pfam && r.minCount == Some(minCount)
              && r.proteins == FamilyProteins(api, pfam) && r.proteinCount == |r.proteins| && AllWellFormed(r.proteins)
              && r.uniqueCount == SumUnique(r.gaps)
  {
  }

  /**
   * The frequent groups are the fingerprints matched at least `min_count`
   * times (and at least once) among the family's OMA fields, each with its
   * number of matches.
   */
  lemma AnalysisFrequent(pfam: string, minCount: int, api: Uniprot, f: string, n: nat)
    requires Analysis(pfam, minCount, api).Results?
    ensures var r := Analysis(pfam, minCount, api);
      (f, n) in r.frequent <==> n == MatchCount(r.proteins, f) && n >= 1 && n >= minCount
  {
    var r := Analysis(pfam, minCount, api);
    FrequentExactly(r.proteins, minCount, f, n);
    if FingerprintsOf(r.proteins) == {} {
      MatchesAreFingerprints(r.proteins);
      MatchesCounted(r.proteins, f);
      assert f !in Elements(AllMatches(r.proteins));
    }
  }

  /**
   * `unique_to_oma` has one entry per frequent group, keyed and ordered
   * like `frequent_omas`; each entry carries the group's count, its total
   * size and the group's downloaded proteins outside the family, unfiltered.
   */
  lemma AnalysisGaps(pfam: string, minCount: int, api: Uniprot)
    requires Analysis(pfam, minCount, api).Results?
    ensures var r := Analysis(pfam, minCount, api);
      && Keys(r.gaps) == Keys(r.frequent)
      && forall i :: 0 <= i < |r.gaps| ==>
           var g := r.gaps[i].1;
           && g.pfamCount == r.frequent[i].1
           && g.totalOmaSize == api.groupSize(r.frequent[i].0)
           && g.uniqueProteins == FetchedProteins(api.stream(BuildQuery(r.frequent[i].0, pfam, false).value))
           && g.uniqueCount == |g.uniqueProteins|
  {
    var r := Analysis(pfam, minCount, api);
    if FingerprintsOf(r.proteins) != {} {
      var counts := CounterOf(AllMatches(r.proteins));
      AnalysisOfProteins(pfam, minCount, api, r.proteins);
      CounterKeys(AllMatches(r.proteins));
      FilterKeepsItems(counts, (e: (string, nat)) => e.1 >= minCount);
      GapsOfFrequent(api, pfam, r.frequent, r.gaps);
    }
  }

  /** The gap entries of distinct frequent groups, entry by entry. */
  lemma GapsOfFrequent(api: Uniprot, pfam: string, frequent: Dict<string, nat>, gaps: Dict<string, GroupGap>)
    requires pfam != [] && DistinctKeys(frequent) && gaps == GroupGaps(api, pfam, frequent)
    ensures && Keys(gaps) == Keys(frequent)
            && forall i :: 0 <= i < |gaps| ==>
                 var g := gaps[i].1;
                 && g.pfamCount == frequent[i].1
                 && g.totalOmaSize == api.groupSize(frequent[i].0)
                 && g.uniqueProteins == FetchedProteins(api.stream(BuildQuery(frequent[i].0, pfam, false).value))
                 && g.uniqueCount == |g.uniqueProteins|
  {
    GroupGapsListsEveryGroup(api, pfam, frequent);
  }

  /** The total counts every downloaded protein of every group: zero exactly when all those downloads are empty. */
  lemma AnalysisTotal(pfam: string, minCount: int, api: Uniprot)
    requires Analysis(pfam, minCount, api).Results?
    ensures var r := Analysis(pfam, minCount, api);
      && (r.uniqueCount == 0 <==> forall i :: 0 <= i < |r.gaps| ==> r.gaps[i].1.uniqueProteins == [])
      && forall i :: 0 <= i < |r.gaps| ==> r.gaps[i].1.uniqueCount <= r.uniqueCount
  {
    var r := Analysis(pfam, minCount, api);
    AnalysisGaps(pfam, minCount, api);
    SumUniqueZero(r.gaps);
    forall i | 0 <= i < |r.gaps| ensures r.gaps[i].1.uniqueCount <= r.uniqueCount {
      SumUniqueCoversEachGroup(r.gaps, i);
    }
  }
}
