/**
 * `PfamOMAAnalyzer` of ortho_counts_old.py: every frequent OMA group gets
 * an entry (its fingerprint falls back to the group id), and the report
 * lists the accessions unique to OMA under a single kingdom heading, each
 * with the group it came from.
 */
module OmaAnalyzerOld {
  import opened Options
  import opened Text
  import opened Sorting
  import opened Dicts
  import opened Tally
  import opened FamilyFiles
  import opened Orders
  import opened OmaPipeline
  import Kingdoms

  // ------------------------------------------------------------ the analysis

  /**
   * `get_oma_fingerprint_from_group`: the API's `fingerprint` field, else
   * the group id; nothing when the request fails or `raise_for_status`
   * raises.
   */
  function GroupFingerprint(api: Reply<GroupJson>, omaId: string): (r: Option<string>)
    ensures !api.Ok? ==> r.None?
    ensures api.Ok? ==> r == Some(api.body.fingerprint.GetOr(omaId))
  {
    match api
    case Ok(json) => if json.fingerprint.Some? then json.fingerprint else Some(omaId)
    case _ => None
  }

  /** The fingerprint the group loop uses: a falsy one is replaced by the group id. */
  function UsedFingerprint(api: Reply<GroupJson>, omaId: string): (fp: string)
    ensures fp == omaId || (api.Ok? && api.body.fingerprint == Some(fp) && fp != "")
    ensures !api.Ok? ==> fp == omaId
  {
    var g := GroupFingerprint(api, omaId);
    if Truthy(g) then g.value else omaId
  }

  /**
   * What one frequent group puts into `oma_details`: its count, the size of
   * UniProt's list for the fingerprint (which may be empty), the
   * fingerprint, and the listed accessions outside the family.
   */
  function Entry(s: OmaServices, family: set<string>, omaId: string, count: nat): (d: GroupDetails)
    ensures var fp := UsedFingerprint(s.groupApi(omaId), omaId);
      && d.count == count && d.fingerprint == fp
      && d.totalMembers == |s.membersWith(fp)|
      && Elements(d.uniprotIds) == Elements(s.membersWith(fp)) - family
      && OutsideFamilyEntry(d, family)
  {
    var fp := UsedFingerprint(s.groupApi(omaId), omaId);
    var list := s.membersWith(fp);
    OutsideFamilyFacts(list, family);
    GroupDetails(count, |list|, fp, OutsideFamily(list, family))
  }

  function EntryOf(s: OmaServices, family: set<string>): (string, nat) -> Option<GroupDetails> {
    (omaId: string, count: nat) => Some(Entry(s, family, omaId, count))
  }

  /** `analyze_pfam_family(pfam_folder, min_count)`. */
  function Analysis(folder: PfamFolder, minCount: int, s: OmaServices): OmaResults {
    var ids := FolderIds(folder);
    if ids == [] then NoResults
    else
      var mapping := BatchMapping(ids, s.omaGroupOf);
      if mapping == [] then NoResults
      else
        var frequent := FrequentByCount(mapping, minCount);
        var details := Collect(frequent, EntryOf(s, Elements(ids)));
        OmaResults(PfamIdFor(folder.path, folder.desc), folder.path, minCount, ids, mapping, frequent, details, UnionOfIds(details))
  }

  method AnalyzePfamFamily(folder: PfamFolder, minCount: int, s: OmaServices) returns (results: OmaResults)
    ensures results == Analysis(folder, minCount, s)
  {
    var pfamId := GetPfamIdFromFolder(folder.path, folder.desc);
    var ids := ReadPfamScores(folder.scores);
    if ids == [] {
      return NoResults;
    }
    var family := Elements(ids);
    var mapping := BatchGetOmaFingerprints(ids, s.omaGroupOf);
    if mapping == [] {
      return NoResults;
    }
    var frequent := FilterFrequentOmas(mapping, minCount);
    FrequentDistinct(mapping, minCount);
    var details, unique := CollectGroups(s, family, frequent);
    results := OmaResults(pfamId, folder.path, minCount, ids, mapping, frequent, details, unique);
    AnalysisOfMapping(folder, minCount, s, ids, mapping);
  }

  /** `Analysis` once the accessions and their mapping are known and neither is empty. */
  lemma AnalysisOfMapping(folder: PfamFolder, minCount: int, s: OmaServices, ids: seq<string>, mapping: Dict<string, string>)
    requires ids == FolderIds(folder) && ids != []
    requires mapping == BatchMapping(ids, s.omaGroupOf) && mapping != []
    ensures var frequent := FrequentByCount(mapping, minCount);
      var details := Collect(frequent, EntryOf(s, Elements(ids)));
      Analysis(folder, minCount, s)
      == OmaResults(PfamIdFor(folder.path, folder.desc), folder.path, minCount, ids, mapping, frequent, details, UnionOfIds(details))
  {
  }

  /** The `for oma_id, count in frequent_omas.items()` loop. */
  method CollectGroups(s: OmaServices, family: set<string>, frequent: Dict<string, nat>)
    returns (details: Dict<string, GroupDetails>, unique: set<string>)
    requires DistinctKeys(frequent)
    ensures details == Collect(frequent, EntryOf(s, family))
    ensures unique == UnionOfIds(details)
  {
    details := [];
    unique := {};
    for i := 0 to |frequent|
      invariant details == Collect(frequent[..i], EntryOf(s, family))
      invariant forall k :: k in Keys(details) ==> k in Keys(frequent[..i])
      invariant unique == UnionOfIds(details)
    {
      var omaId := frequent[i].0;
      var count := frequent[i].1;
      CollectStep(frequent, EntryOf(s, family), i, details);
      var fingerprint := GroupFingerprint(s.groupApi(omaId), omaId);
      if !(fingerprint.Some? && fingerprint.value != "") {
        fingerprint := Some(omaId);
      }
      var list := s.membersWith(fingerprint.value);
      var outside := OutsideFamily(list, family);
      unique := unique + Elements(outside);
      details := Assign(details, omaId, GroupDetails(count, |list|, fingerprint.value, outside));
    }
    assert frequent[..|frequent|] == frequent;
  }

  /** An empty `{}` comes back exactly when the family has no accession or none of them maps to an OMA group. */
  lemma AnalysisFailsIff(folder: PfamFolder, minCount: int, s: OmaServices)
    ensures Analysis(folder, minCount, s).NoResults?
            <==> FolderIds(folder) == [] || BatchMapping(FolderIds(folder), s.omaGroupOf) == []
  {
  }

  /** No group is skipped: `oma_details` has the frequent groups' keys in the same order, each with its entry. */
  lemma AnalysisGroups(folder: PfamFolder, minCount: int, s: OmaServices)
    requires Analysis(folder, minCount, s).OmaResults?
    ensures var r := Analysis(folder, minCount, s);
      && DistinctKeys(r.omaDetails)
      && Keys(r.omaDetails) == Keys(r.frequentOmas)
      && forall i :: 0 <= i < |r.frequentOmas| ==>
           Get(r.omaDetails, r.frequentOmas[i].0) == Some(Entry(s, Elements(r.pfamUniprotIds), r.frequentOmas[i].0, r.frequentOmas[i].1))
  {
    var r := Analysis(folder, minCount, s);
    var entry := EntryOf(s, Elements(r.pfamUniprotIds));
    FrequentDistinct(r.omaMapping, minCount);
    CollectExactly(r.frequentOmas, entry);
    CollectTotal(r.frequentOmas, entry);
  }

  /**
   * The accessions unique to OMA: outside the family, the union of the
   * groups' accessions, each group's accessions among them.
   */
  lemma AnalysisUnique(folder: PfamFolder, minCount: int, s: OmaServices)
    requires Analysis(folder, minCount, s).OmaResults?
    ensures var r := Analysis(folder, minCount, s);
      && r.uniqueIds !! Elements(r.pfamUniprotIds)
      && (forall j :: 0 <= j < |r.omaDetails| ==> OutsideFamilyEntry(r.omaDetails[j].1, Elements(r.pfamUniprotIds)))
      && (forall j :: 0 <= j < |r.omaDetails| ==> Elements(r.omaDetails[j].1.uniprotIds) <= r.uniqueIds)
      && forall x :: x in r.uniqueIds <==> exists j :: 0 <= j < |r.omaDetails| && x in r.omaDetails[j].1.uniprotIds
  {
    var r := Analysis(folder, minCount, s);
    var family := Elements(r.pfamUniprotIds);
    var entry := EntryOf(s, family);
    FrequentDistinct(r.omaMapping, minCount);
    forall j | 0 <= j < |r.omaDetails| ensures OutsideFamilyEntry(r.omaDetails[j].1, family) {
      CollectedFrom(r.frequentOmas, entry, j);
    }
    UnionOutsideFamily(r.omaDetails, family);
    forall x ensures x in r.uniqueIds <==> exists j :: 0 <= j < |r.omaDetails| && x in r.omaDetails[j].1.uniprotIds {
      UnionOfIdsMember(r.omaDetails, x);
    }
  }

  // ------------------------------------------------------------ the report

  /** Every frequent group has an entry in `oma_details`, so `results['oma_details'][oma_id]` finds it. */
  predicate EveryGroupDetailed(r: OmaResults)
    requires r.OmaResults?
  {
    forall i :: 0 <= i < |r.frequentOmas| ==> r.frequentOmas[i].0 in Keys(r.omaDetails)
  }

  function FrequentLine(item: (string, nat), details: Dict<string, GroupDetails>): string
    requires item.0 in Keys(details)
  {
    item.0 + ": " + NatToString(item.1) + " occurrences in Pfam, "
    + NatToString(Get(details, item.0).value.totalMembers) + " total valid members"
  }

  function FrequentLines(items: Dict<string, nat>, details: Dict<string, GroupDetails>): (ls: seq<string>)
    requires forall i :: 0 <= i < |items| ==> items[i].0 in Keys(details)
    ensures |ls| == |items|
  {
    if items == [] then []
    else
      var init := items[..|items| - 1];
      assert forall i :: 0 <= i < |init| ==> init[i] == items[i];
      FrequentLines(init, details) + [FrequentLine(items[|items| - 1], details)]
  }

  /** One entry of `kingdom_groups["Eukaryota"]`. */
  datatype KingdomEntry = KingdomEntry(uniprotId: string, description: string, omaId: string)

  /** The entries of one group, in the order its accessions are iterated. */
  function GroupEntries(omaId: string, ids: seq<string>, describe: string -> string): (es: seq<KingdomEntry>)
    ensures |es| == |ids|
    ensures forall k :: 0 <= k < |ids| ==> es[k] == KingdomEntry(ids[k], describe(ids[k]), omaId)
  {
    if ids == [] then []
    else GroupEntries(omaId, ids[..|ids| - 1], describe) + [KingdomEntry(ids[|ids| - 1], describe(ids[|ids| - 1]), omaId)]
  }

  /** The accessions of a list of entries. */
  function EntryIds(es: seq<KingdomEntry>): (ids: seq<string>)
    ensures |ids| == |es| && forall k :: 0 <= k < |es| ==> ids[k] == es[k].uniprotId
  {
    seq(|es|, k requires 0 <= k < |es| => es[k].uniprotId)
  }

  /** `kingdom_groups["Eukaryota"]`: the entries of every group, group by group in `oma_details` order. */
  function KingdomEntries(details: Dict<string, GroupDetails>, describe: string -> string): seq<KingdomEntry> {
    if details == [] then []
    else
      var last := details[|details| - 1];
      KingdomEntries(details[..|details| - 1], describe) + GroupEntries(last.0, last.1.uniprotIds, describe)
  }

  /** `sorted(..., key=lambda x: x['uniprot_id'])`. */
  predicate ById(a: KingdomEntry, b: KingdomEntry) {
    LexLe(a.uniprotId, b.uniprotId)
  }

  function EntryLine(e: KingdomEntry): string {
    "      " + e.uniprotId + " | " + e.description + " | OMA: " + e.omaId
  }

  function EntryLines(es: seq<KingdomEntry>): (ls: seq<string>)
    ensures |ls| == |es|
  {
    if es == [] then [] else EntryLines(es[..|es| - 1]) + [EntryLine(es[|es| - 1])]
  }

  /**
   * The block of the one kingdom every entry is put under; a `kingdom_groups`
   * without entries has no key and prints nothing.
   */
  function KingdomBlock(entries: seq<KingdomEntry>): seq<string> {
    if entries == [] then []
    else ["KINGDOM: " + Kingdoms.Name(Kingdoms.Eukaryota), Repeat('=', 40)] + EntryLines(SortBy(entries, ById)) + [""]
  }

  function UniqueSection(r: OmaResults, describe: string -> string): seq<string>
    requires r.OmaResults?
  {
    if r.uniqueIds != {} then
      ["UNIPROT IDs UNIQUE TO OMA (Not in Pfam)", Repeat('-', 50)] + KingdomBlock(KingdomEntries(r.omaDetails, describe))
    else
      ["No UniProt IDs found that are unique to OMA groups."]
  }

  function ReportLines(r: OmaResults, date: string, describe: string -> string): seq<string>
    requires r.OmaResults? && EveryGroupDetailed(r)
  {
    SummaryLines(r, date) + FrequentLines(r.frequentOmas, r.omaDetails) + [""] + UniqueSection(r, describe) + [Repeat('=', 80)]
  }

  /**
   * `generate_report(results)`: the text written and returned; `None` when
   * a frequent group has no entry and `results['oma_details'][oma_id]`
   * raises `KeyError`.
   */
  function Report(r: OmaResults, date: string, describe: string -> string): (text: Option<string>)
    ensures text.None? <==> r.OmaResults? && !EveryGroupDetailed(r)
  {
    if r.NoResults? then Some(NoResultsText)
    else if !EveryGroupDetailed(r) then None
    else Some(Join(ReportLines(r, date, describe), "\n"))
  }

  /** The report of an analysis never raises: every frequent group was given an entry. */
  lemma AnalysisReportIsWritten(folder: PfamFolder, minCount: int, s: OmaServices, date: string, describe: string -> string)
    ensures Report(Analysis(folder, minCount, s), date, describe).Some?
  {
    var r := Analysis(folder, minCount, s);
    if r.OmaResults? {
      AnalysisGroups(folder, minCount, s);
      forall i | 0 <= i < |r.frequentOmas| ensures r.frequentOmas[i].0 in Keys(r.omaDetails) {
        assert Keys(r.frequentOmas)[i] == r.frequentOmas[i].0;
      }
    }
  }

  /** The kingdom block lists exactly the accessions unique to OMA (an accession of two groups twice). */
  lemma {:induction false} EntriesCoverUnique(details: Dict<string, GroupDetails>, describe: string -> string)
    ensures Elements(EntryIds(KingdomEntries(details, describe))) == UnionOfIds(details)
  {
    if details != [] {
      var init := details[..|details| - 1];
      var last := details[|details| - 1];
      var before := KingdomEntries(init, describe);
      var group := GroupEntries(last.0, last.1.uniprotIds, describe);
      EntriesCoverUnique(init, describe);
      assert EntryIds(group) == last.1.uniprotIds;
      assert EntryIds(before + group) == EntryIds(before) + EntryIds(group);
      assert Elements(EntryIds(before) + last.1.uniprotIds) == Elements(EntryIds(before)) + Elements(last.1.uniprotIds);
    }
  }

  /**
   * The kingdom block comes by ascending accession, as a permutation of the
   * entries, and entries with the same accession keep their group order.
   */
  lemma EntriesListedById(entries: seq<KingdomEntry>, id: string)
    ensures SortedBy(SortBy(entries, ById), ById)
    ensures multiset(SortBy(entries, ById)) == multiset(entries)
    ensures var same := (e: KingdomEntry) => e.uniprotId == id;
      Filter(SortBy(entries, ById), same) == Filter(entries, same)
  {
    SortedByKey(entries, (e: KingdomEntry) => e.uniprotId, ById);
    var same := (e: KingdomEntry) => e.uniprotId == id;
    forall x, y | same(x) && same(y) ensures ById(x, y) && ById(y, x) {
      LexLeReflexive(id);
    }
    SortByStable(entries, ById, same);
  }

  /** With accessions unique to OMA, the kingdom block is printed: some group holds one of them. */
  lemma UniqueIdsGiveKingdomBlock(details: Dict<string, GroupDetails>, describe: string -> string)
    requires UnionOfIds(details) != {}
    ensures KingdomEntries(details, describe) != []
  {
    EntriesCoverUnique(details, describe);
  }

  /** The report starts with its title and ends with a rule of `=`, without a final newline. */
  lemma ReportShape(r: OmaResults, date: string, describe: string -> string)
    requires r.OmaResults? && EveryGroupDetailed(r)
    ensures var text := Report(r, date, describe).value;
      && StartsWith(text, Repeat('=', 80) + "\n" + ReportTitle + "\n")
      && |text| >= 80 && text[|text| - 80..] == Repeat('=', 80)
  {
    var head, f, u := SummaryLines(r, date), FrequentLines(r.frequentOmas, r.omaDetails), UniqueSection(r, describe);
    var body := head + f + [""] + u;
    assert ReportLines(r, date, describe) == body + [Repeat('=', 80)];
    assert body[0] == head[0] && body[1] == head[1];
    JoinFrame(body, Repeat('=', 80));
  }

  // ------------------------------------------------------------ the writer

  method GenerateReport(results: OmaResults, date: string, describe: string -> string) returns (text: Option<string>)
    ensures text == Report(results, date, describe)
  {
    if results.NoResults? {
      return Some(NoResultsText);
    }
    var lines := SummaryLines(results, date);
    var frequent := WriteFrequentLines(results.frequentOmas, results.omaDetails);
    if frequent.None? {
      return None;
    }
    lines := lines + frequent.value + [""];
    var unique := WriteUniqueSection(results, describe);
    lines := lines + unique + [Repeat('=', 80)];
    text := Some(Join(lines, "\n"));
  }

  /** The frequent groups' lines; `None` at the first group without an entry. */
  method WriteFrequentLines(items: Dict<string, nat>, details: Dict<string, GroupDetails>) returns (lines: Option<seq<string>>)
    ensures lines.None? <==> exists i :: 0 <= i < |items| && items[i].0 !in Keys(details)
    ensures lines.Some? ==> lines.value == FrequentLines(items, details)
  {
    var written := [];
    for i := 0 to |items|
      invariant forall j :: 0 <= j < i ==> items[j].0 in Keys(details)
      invariant written == FrequentLines(items[..i], details)
    {
      assert items[..i + 1][..i] == items[..i];
      if items[i].0 !in Keys(details) {
        return None;
      }
      written := written + [FrequentLine(items[i], details)];
    }
    assert items[..|items|] == items;
    return Some(written);
  }

  method WriteUniqueSection(results: OmaResults, describe: string -> string) returns (lines: seq<string>)
    requires results.OmaResults?
    ensures lines == UniqueSection(results, describe)
  {
    if results.uniqueIds == {} {
      return ["No UniProt IDs found that are unique to OMA groups."];
    }
    var entries := CollectKingdomEntries(results.omaDetails, describe);
    lines := ["UNIPROT IDs UNIQUE TO OMA (Not in Pfam)", Repeat('-', 50)];
    if entries != [] {
      var entryLines := WriteEntries(SortBy(entries, ById));
      lines := lines + (["KINGDOM: " + Kingdoms.Name(Kingdoms.Eukaryota), Repeat('=', 40)] + entryLines + [""]);
    }
  }

  /** The two nested loops that fill `kingdom_groups["Eukaryota"]`. */
  method CollectKingdomEntries(details: Dict<string, GroupDetails>, describe: string -> string) returns (entries: seq<KingdomEntry>)
    ensures entries == KingdomEntries(details, describe)
  {
    entries := [];
    for i := 0 to |details|
      invariant entries == KingdomEntries(details[..i], describe)
    {
      assert details[..i + 1][..i] == details[..i];
      var omaId := details[i].0;
      var ids := details[i].1.uniprotIds;
      var before := entries;
      for j := 0 to |ids|
        invariant entries == before + GroupEntries(omaId, ids[..j], describe)
      {
        assert ids[..j + 1][..j] == ids[..j];
        var e := KingdomEntry(ids[j], describe(ids[j]), omaId);
        AppendAssociates(before, GroupEntries(omaId, ids[..j], describe), [e]);
        entries := entries + [e];
      }
      assert ids[..|ids|] == ids;
    }
    assert details[..|details|] == details;
  }

  method WriteEntries(es: seq<KingdomEntry>) returns (lines: seq<string>)
    ensures lines == EntryLines(es)
  {
    lines := [];
    for i := 0 to |es|
      invariant lines == EntryLines(es[..i])
    {
      assert es[..i + 1][..i] == es[..i];
      lines := lines + [EntryLine(es[i])];
    }
    assert es[..|es|] == es;
  }
}
