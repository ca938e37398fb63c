/**
 * `PfamOMAAnalyzer` of ortho_counts.py: the fingerprint of each frequent
 * OMA group (the OMA API, then the group's web page, then the UniProt pages
 * of the family's members in that group), the groups skipped for want of a
 * fingerprint or of members, and the report.
 */
module OmaAnalyzer {
  import opened Options
  import opened Text
  import opened Sorting
  import opened Dicts
  import opened Fingerprints
  import opened Tally
  import opened FamilyFiles
  import opened Orders
  import opened OmaPipeline

  // ------------------------------------------------------------ fingerprints

  /** The scrape of a group page that came back with status 200; nothing otherwise. */
  function PageFingerprint(page: Reply<string>): (r: Option<string>)
    ensures r.Some? ==> page.Ok? && r == GroupPageFingerprint(page.body)
    ensures page.Ok? ==> r == GroupPageFingerprint(page.body)
    ensures !page.Ok? ==> r.None?
  {
    if page.Ok? then GroupPageFingerprint(page.body) else None
  }

  /**
   * `get_oma_fingerprint_from_group`: the API's `fingerprint` field, else
   * its `group_id` field; when the API gives neither (or a status other than
   * 200), the scrape of the group's page; nothing once a request fails.
   */
  function GroupFingerprint(api: Reply<GroupJson>, page: Reply<string>): (r: Option<string>)
    ensures api.RequestError? ==> r.None?
    ensures api.Ok? && api.body.fingerprint.Some? ==> r == api.body.fingerprint
    ensures api.Ok? && api.body.fingerprint.None? && api.body.groupId.Some? ==> r == api.body.groupId
    ensures r.Some? && !(api.Ok? && (api.body.fingerprint.Some? || api.body.groupId.Some?)) ==>
              page.Ok? && |r.value| == FingerprintLength && forall k :: 0 <= k < |r.value| ==> IsLetter(r.value[k])
    ensures api.NotOk? || (api.Ok? && api.body.fingerprint.None? && api.body.groupId.None?) ==> r == PageFingerprint(page)
  {
    match api
    case RequestError => None
    case NotOk => PageFingerprint(page)
    case Ok(json) =>
      if json.fingerprint.Some? then json.fingerprint
      else if json.groupId.Some? then json.groupId
      else PageFingerprint(page)
  }

  /** `get_oma_fingerprint_from_uniprot_member`: the scrape of a UniProt page that came back with status 200. */
  function MemberFingerprint(page: Reply<string>): (r: Option<string>)
    ensures r.Some? ==> page.Ok? && |r.value| == FingerprintLength && forall k :: 0 <= k < |r.value| ==> IsLetter(r.value[k])
    ensures page.Ok? ==> r == MemberPageFingerprint(page.body)
    ensures !page.Ok? ==> r.None?
  {
    if page.Ok? then
      var r := MemberPageFingerprint(page.body);
      assert r.Some? ==> |r.value| == FingerprintLength && forall k :: 0 <= k < |r.value| ==> IsLetter(r.value[k]) by {
        if r.Some? && forall p :: !GroupLinkAt(page.body, p) {
          var p :| LabeledAt(page.body, "oma", p) && r.value == LabeledCapture(page.body, "oma", p);
        }
      }
      r
    else None
  }

  /** The `i`-th accession of the mapping is in group `omaId` and its UniProt page yields a fingerprint. */
  predicate MemberGives(mapping: Dict<string, string>, omaId: string, memberPage: string -> Reply<string>, i: int)
    requires 0 <= i < |mapping|
  {
    mapping[i].1 == omaId && Truthy(MemberFingerprint(memberPage(mapping[i].0)))
  }

  /** The member fall-back: the first mapped member of the group, in insertion order, whose page yields a fingerprint. */
  function FirstMemberFingerprint(mapping: Dict<string, string>, omaId: string, memberPage: string -> Reply<string>): (r: Option<string>)
    ensures r.Some? ==> Truthy(r)
  {
    if mapping == [] then None
    else if MemberGives(mapping, omaId, memberPage, 0) then MemberFingerprint(memberPage(mapping[0].0))
    else FirstMemberFingerprint(mapping[1..], omaId, memberPage)
  }

  /**
   * The fall-back finds a fingerprint exactly when some member of the group
   * yields one, and then it is the first such member's.
   */
  lemma {:induction false} FirstMemberIsFirst(mapping: Dict<string, string>, omaId: string, memberPage: string -> Reply<string>)
    ensures var r := FirstMemberFingerprint(mapping, omaId, memberPage);
      && (r.Some? <==> exists i :: 0 <= i < |mapping| && MemberGives(mapping, omaId, memberPage, i))
      && (r.Some? ==> exists i :: && 0 <= i < |mapping| && MemberGives(mapping, omaId, memberPage, i)
                                  && r == MemberFingerprint(memberPage(mapping[i].0))
                                  && forall j :: 0 <= j < i ==> !MemberGives(mapping, omaId, memberPage, j))
  {
    if mapping != [] && !MemberGives(mapping, omaId, memberPage, 0) {
      var rest := mapping[1..];
      FirstMemberIsFirst(rest, omaId, memberPage);
      forall i | 0 <= i < |rest| ensures MemberGives(rest, omaId, memberPage, i) == MemberGives(mapping, omaId, memberPage, i + 1) {
        assert rest[i] == mapping[i + 1];
      }
      if exists i :: 0 <= i < |mapping| && MemberGives(mapping, omaId, memberPage, i) {
        var i :| 0 <= i < |mapping| && MemberGives(mapping, omaId, memberPage, i);
        assert MemberGives(rest, omaId, memberPage, i - 1);
      }
      var r := FirstMemberFingerprint(mapping, omaId, memberPage);
      if r.Some? {
        var i :| && 0 <= i < |rest| && MemberGives(rest, omaId, memberPage, i)
                 && r == MemberFingerprint(memberPage(rest[i].0))
                 && forall j :: 0 <= j < i ==> !MemberGives(rest, omaId, memberPage, j);
        assert rest[i] == mapping[i + 1];
        forall j | 0 <= j < i + 1 ensures !MemberGives(mapping, omaId, memberPage, j) {
          if j > 0 {
            assert !MemberGives(rest, omaId, memberPage, j - 1);
          }
        }
      }
    }
  }

  /** The fingerprint the group loop settles on; `None` when it is falsy and the group is skipped. */
  function FingerprintFor(s: OmaServices, mapping: Dict<string, string>, omaId: string): (r: Option<string>)
    ensures r.Some? ==> Truthy(r)
  {
    var g := GroupFingerprint(s.groupApi(omaId), s.groupPage(omaId));
    if Truthy(g) then g else FirstMemberFingerprint(mapping, omaId, s.memberPage)
  }

  /** The `for uniprot_id, mapped_oma in oma_mapping.items()` loop, left by `break` at the first fingerprint. */
  method FindMemberFingerprint(mapping: Dict<string, string>, omaId: string, memberPage: string -> Reply<string>, start: Option<string>)
    returns (fingerprint: Option<string>)
    requires !Truthy(start)
    ensures Truthy(fingerprint) <==> FirstMemberFingerprint(mapping, omaId, memberPage).Some?
    ensures Truthy(fingerprint) ==> fingerprint == FirstMemberFingerprint(mapping, omaId, memberPage)
  {
    fingerprint := start;
    var i := 0;
    while i < |mapping|
      invariant 0 <= i <= |mapping|
      invariant !Truthy(fingerprint)
      invariant FirstMemberFingerprint(mapping, omaId, memberPage) == FirstMemberFingerprint(mapping[i..], omaId, memberPage)
    {
      var rest := mapping[i..];
      assert rest[0] == mapping[i] && rest[1..] == mapping[i + 1..];
      if mapping[i].1 == omaId {
        fingerprint := MemberFingerprint(memberPage(mapping[i].0));
        if fingerprint.Some? && fingerprint.value != "" {
          assert MemberGives(rest, omaId, memberPage, 0);
          break;
        }
      }
      assert !MemberGives(rest, omaId, memberPage, 0);
      i := i + 1;
    }
  }

  /** The fingerprint lookup of one group: the group first, its members when the group gives nothing truthy. */
  method ResolveFingerprint(s: OmaServices, mapping: Dict<string, string>, omaId: string) returns (fingerprint: Option<string>)
    ensures Truthy(fingerprint) <==> FingerprintFor(s, mapping, omaId).Some?
    ensures Truthy(fingerprint) ==> fingerprint == FingerprintFor(s, mapping, omaId)
  {
    fingerprint := GroupFingerprint(s.groupApi(omaId), s.groupPage(omaId));
    if !(fingerprint.Some? && fingerprint.value != "") {
      fingerprint := FindMemberFingerprint(mapping, omaId, s.memberPage, fingerprint);
    }
  }

  // ------------------------------------------------------------ the analysis

  /**
   * What one frequent group puts into `oma_details`: nothing when it has no
   * fingerprint or UniProt lists no accession for the fingerprint;
   * otherwise its count, the size of the list, the fingerprint and the
   * listed accessions outside the family.
   */
  function NewEntry(s: OmaServices, mapping: Dict<string, string>, family: set<string>, omaId: string, count: nat): (r: Option<GroupDetails>)
    ensures var fp := FingerprintFor(s, mapping, omaId);
      r.None? <==> fp.None? || s.membersWith(fp.value) == []
    ensures r.Some? ==> var fp := FingerprintFor(s, mapping, omaId).value;
      && r.value.count == count && r.value.fingerprint == fp && fp != ""
      && r.value.totalMembers == |s.membersWith(fp)|
      && Elements(r.value.uniprotIds) == Elements(s.membersWith(fp)) - family
      && OutsideFamilyEntry(r.value, family)
  {
    var fp := FingerprintFor(s, mapping, omaId);
    if fp.None? then None
    else
      var list := s.membersWith(fp.value);
      if list == [] then None
      else
        OutsideFamilyFacts(list, family);
        Some(GroupDetails(count, |list|, fp.value, OutsideFamily(list, family)))
  }

  function EntryOf(s: OmaServices, mapping: Dict<string, string>, family: set<string>): (string, nat) -> Option<GroupDetails> {
    (omaId: string, count: nat) => NewEntry(s, mapping, family, omaId, count)
  }

  /** `analyze_pfam_family(pfam_folder, min_count)`. */
  function Analysis(folder: PfamFolder, minCount: int, s: OmaServices): OmaResults {
    var ids := FolderIds(folder);
    if ids == [] then NoResults
    else
      var mapping := BatchMapping(ids, s.omaGroupOf);
      if mapping == [] then NoResults
      else
        var frequent := FrequentByCount(mapping, minCount);
        var details := Collect(frequent, EntryOf(s, mapping, Elements(ids)));
        OmaResults(PfamIdFor(folder.path, folder.desc), folder.path, minCount, ids, mapping, frequent, details, UnionOfIds(details))
  }

  method AnalyzePfamFamily(folder: PfamFolder, minCount: int, s: OmaServices) returns (results: OmaResults)
    ensures results == Analysis(folder, minCount, s)
  {
    var pfamId := GetPfamIdFromFolder(folder.path, folder.desc);
    var ids := ReadPfamScores(folder.scores);
    if ids == [] {
      return NoResults;
    }
    var family := Elements(ids);
    var mapping := BatchGetOmaFingerprints(ids, s.omaGroupOf);
    if mapping == [] {
      return NoResults;
    }
    var frequent := FilterFrequentOmas(mapping, minCount);
    FrequentDistinct(mapping, minCount);
    var details, unique := CollectGroups(s, mapping, family, frequent);
    results := OmaResults(pfamId, folder.path, minCount, ids, mapping, frequent, details, unique);
    AnalysisOfMapping(folder, minCount, s, ids, mapping);
  }

  /** `Analysis` once the accessions and their mapping are known and neither is empty. */
  lemma AnalysisOfMapping(folder: PfamFolder, minCount: int, s: OmaServices, ids: seq<string>, mapping: Dict<string, string>)
    requires ids == FolderIds(folder) && ids != []
    requires mapping == BatchMapping(ids, s.omaGroupOf) && mapping != []
    ensures var frequent := FrequentByCount(mapping, minCount);
      var details := Collect(frequent, EntryOf(s, mapping, Elements(ids)));
      Analysis(folder, minCount, s)
      == OmaResults(PfamIdFor(folder.path, folder.desc), folder.path, minCount, ids, mapping, frequent, details, UnionOfIds(details))
  {
  }

  /** The `for oma_id, count in frequent_omas.items()` loop, with its two `continue`s. */
  method CollectGroups(s: OmaServices, mapping: Dict<string, string>, family: set<string>, frequent: Dict<string, nat>)
    returns (details: Dict<string, GroupDetails>, unique: set<string>)
    requires DistinctKeys(frequent)
    ensures details == Collect(frequent, EntryOf(s, mapping, family))
    ensures unique == UnionOfIds(details)
  {
    details := [];
    unique := {};
    for i := 0 to |frequent|
      invariant details == Collect(frequent[..i], EntryOf(s, mapping, family))
      invariant forall k :: k in Keys(details) ==> k in Keys(frequent[..i])
      invariant unique == UnionOfIds(details)
    {
      var omaId := frequent[i].0;
      var count := frequent[i].1;
      CollectStep(frequent, EntryOf(s, mapping, family), i, details);
      var fingerprint := ResolveFingerprint(s, mapping, omaId);
      if !(fingerprint.Some? && fingerprint.value != "") {
        continue;
      }
      var list := s.membersWith(fingerprint.value);
      if list == [] {
        continue;
      }
      var outside := OutsideFamily(list, family);
      unique := unique + Elements(outside);
      details := Assign(details, omaId, GroupDetails(count, |list|, fingerprint.value, outside));
    }
    assert frequent[..|frequent|] == frequent;
  }

  /** An empty `{}` comes back exactly when the family has no accession or none of them maps to an OMA group. */
  lemma AnalysisFailsIff(folder: PfamFolder, minCount: int, s: OmaServices)
    ensures Analysis(folder, minCount, s).NoResults?
            <==> FolderIds(folder) == [] || BatchMapping(FolderIds(folder), s.omaGroupOf) == []
  {
  }

  /**
   * `oma_details` holds one entry per frequent group that is not skipped
   * and nothing else: a group without a truthy fingerprint, or whose
   * fingerprint lists no accession, is absent.
   */
  lemma AnalysisGroups(folder: PfamFolder, minCount: int, s: OmaServices)
    requires Analysis(folder, minCount, s).OmaResults?
    ensures var r := Analysis(folder, minCount, s);
      && DistinctKeys(r.omaDetails)
      && (forall k :: k in Keys(r.omaDetails) ==> k in Keys(r.frequentOmas))
      && forall i :: 0 <= i < |r.frequentOmas| ==>
           Get(r.omaDetails, r.frequentOmas[i].0)
           == NewEntry(s, r.omaMapping, Elements(r.pfamUniprotIds), r.frequentOmas[i].0, r.frequentOmas[i].1)
  {
    var r := Analysis(folder, minCount, s);
    FrequentDistinct(r.omaMapping, minCount);
    CollectExactly(r.frequentOmas, EntryOf(s, r.omaMapping, Elements(r.pfamUniprotIds)));
  }

  /**
   * The accessions unique to OMA: outside the family, the union of the
   * groups' accessions, each group's accessions among them.
   */
  lemma AnalysisUnique(folder: PfamFolder, minCount: int, s: OmaServices)
    requires Analysis(folder, minCount, s).OmaResults?
    ensures var r := Analysis(folder, minCount, s);
      && r.uniqueIds !! Elements(r.pfamUniprotIds)
      && (forall j :: 0 <= j < |r.omaDetails| ==> OutsideFamilyEntry(r.omaDetails[j].1, Elements(r.pfamUniprotIds)))
      && (forall j :: 0 <= j < |r.omaDetails| ==> Elements(r.omaDetails[j].1.uniprotIds) <= r.uniqueIds)
      && forall x :: x in r.uniqueIds <==> exists j :: 0 <= j < |r.omaDetails| && x in r.omaDetails[j].1.uniprotIds
  {
    var r := Analysis(folder, minCount, s);
    var family := Elements(r.pfamUniprotIds);
    var entry := EntryOf(s, r.omaMapping, family);
    FrequentDistinct(r.omaMapping, minCount);
    forall j | 0 <= j < |r.omaDetails| ensures OutsideFamilyEntry(r.omaDetails[j].1, family) {
      CollectedFrom(r.frequentOmas, entry, j);
    }
    UnionOutsideFamily(r.omaDetails, family);
    forall x ensures x in r.uniqueIds <==> exists j :: 0 <= j < |r.omaDetails| && x in r.omaDetails[j].1.uniprotIds {
      UnionOfIdsMember(r.omaDetails, x);
    }
  }

  // ------------------------------------------------------------ the report

  /** One frequent group; a group missing from `oma_details` shows fingerprint "Unknown" and 0 members. */
  function FrequentLine(item: (string, nat), details: Dict<string, GroupDetails>): string {
    var d := Get(details, item.0);
    item.0 + " (fingerprint: " + (if d.Some? then d.value.fingerprint else "Unknown") + "): "
    + NatToString(item.1) + " occurrences in Pfam, "
    + NatToString(if d.Some? then d.value.totalMembers else 0) + " total valid members"
  }

  function FrequentLines(items: Dict<string, nat>, details: Dict<string, GroupDetails>): (ls: seq<string>)
    ensures |ls| == |items|
  {
    if items == [] then [] else FrequentLines(items[..|items| - 1], details) + [FrequentLine(items[|items| - 1], details)]
  }

  function EntryLine(id: string, describe: string -> string): string {
    "      " + id + " | " + describe(id)
  }

  function EntryLines(ids: seq<string>, describe: string -> string): (ls: seq<string>)
    ensures |ls| == |ids|
  {
    if ids == [] then [] else EntryLines(ids[..|ids| - 1], describe) + [EntryLine(ids[|ids| - 1], describe)]
  }

  /** The keys of `oma_group_proteins`: the groups with at least one accession outside the family. */
  function ListedGroups(details: Dict<string, GroupDetails>): Dict<string, GroupDetails> {
    Filter(details, (e: (string, GroupDetails)) => e.1.uniprotIds != [])
  }

  /** `sorted(oma_group_proteins.keys())`, carrying each group's details along. */
  predicate ByGroupId(a: (string, GroupDetails), b: (string, GroupDetails)) {
    LexLe(a.0, b.0)
  }

  /** One group's block; its entries sorted by accession. */
  function GroupBlock(group: (string, GroupDetails), describe: string -> string): seq<string> {
    ["OMA GROUP: " + group.0 + " (Fingerprint: " + group.1.fingerprint + ")", Repeat('=', 60)]
    + EntryLines(SortBy(group.1.uniprotIds, LexLe), describe) + [""]
  }

  function GroupBlocks(groups: Dict<string, GroupDetails>, describe: string -> string): seq<string> {
    if groups == [] then [] else GroupBlocks(groups[..|groups| - 1], describe) + GroupBlock(groups[|groups| - 1], describe)
  }

  function UniqueSection(r: OmaResults, describe: string -> string): seq<string>
    requires r.OmaResults?
  {
    if r.uniqueIds != {} then
      ["UNIPROT IDs UNIQUE TO OMA (Not in Pfam)", Repeat('-', 50)]
      + GroupBlocks(SortBy(ListedGroups(r.omaDetails), ByGroupId), describe)
    else
      ["No UniProt IDs found that are unique to OMA groups."]
  }

  function ReportLines(r: OmaResults, date: string, describe: string -> string): seq<string>
    requires r.OmaResults?
  {
    SummaryLines(r, date) + FrequentLines(r.frequentOmas, r.omaDetails) + [""] + UniqueSection(r, describe) + [Repeat('=', 80)]
  }

  /** `generate_report(results)`: the text written to the file and returned, lines joined by newlines. */
  function Report(r: OmaResults, date: string, describe: string -> string): string {
    if r.NoResults? then NoResultsText else Join(ReportLines(r, date, describe), "\n")
  }

  /** A frequent group missing from `oma_details` is printed with fingerprint "Unknown" and 0 members. */
  lemma FrequentLineMissing(item: (string, nat), details: Dict<string, GroupDetails>)
    requires item.0 !in Keys(details)
    ensures FrequentLine(item, details)
            == item.0 + " (fingerprint: Unknown): " + NatToString(item.1) + " occurrences in Pfam, 0 total valid members"
  {
  }

  /** A frequent group that the analysis skipped is missing from `oma_details`, so it is printed that way. */
  lemma SkippedGroupShowsUnknown(folder: PfamFolder, minCount: int, s: OmaServices, i: nat)
    requires Analysis(folder, minCount, s).OmaResults?
    requires var r := Analysis(folder, minCount, s);
      i < |r.frequentOmas| && NewEntry(s, r.omaMapping, Elements(r.pfamUniprotIds), r.frequentOmas[i].0, r.frequentOmas[i].1).None?
    ensures var r := Analysis(folder, minCount, s);
      && r.frequentOmas[i].0 !in Keys(r.omaDetails)
      && FrequentLine(r.frequentOmas[i], r.omaDetails)
         == r.frequentOmas[i].0 + " (fingerprint: Unknown): " + NatToString(r.frequentOmas[i].1) + " occurrences in Pfam, 0 total valid members"
  {
    var r := Analysis(folder, minCount, s);
    AnalysisGroups(folder, minCount, s);
    FrequentLineMissing(r.frequentOmas[i], r.omaDetails);
  }

  /**
   * The group blocks come in strictly ascending group-id order, one per
   * group with accessions outside the family, and none for other groups.
   */
  lemma GroupsListedById(details: Dict<string, GroupDetails>)
    requires DistinctKeys(details)
    ensures var gs := SortBy(ListedGroups(details), ByGroupId);
      && multiset(gs) == multiset(ListedGroups(details))
      && (forall i, j :: 0 <= i < j < |gs| ==> LexLe(gs[i].0, gs[j].0) && gs[i].0 != gs[j].0)
      && forall e :: e in gs <==> e in details && e.1.uniprotIds != []
  {
    var p := (e: (string, GroupDetails)) => e.1.uniprotIds != [];
    var listed := ListedGroups(details);
    var gs := SortBy(listed, ByGroupId);
    SortedByKey(listed, (e: (string, GroupDetails)) => e.0, ByGroupId);
    FilterKeepsItems(details, p);
    PermutationDistinctKeys(listed, gs);
    forall i, j | 0 <= i < j < |gs| ensures LexLe(gs[i].0, gs[j].0) && gs[i].0 != gs[j].0 {
      assert ByGroupId(gs[i], gs[j]);
    }
    forall e ensures e in gs <==> e in details && e.1.uniprotIds != [] {
      assert e in gs <==> e in multiset(listed);
      FilterMember(details, p, e);
    }
  }

  /**
   * Within a group, the entries come in strictly ascending accession order,
   * the same whatever order the accession set is iterated in.
   */
  lemma EntriesListedById(ids: seq<string>, others: seq<string>)
    requires NoDuplicates(ids) && multiset(others) == multiset(ids)
    ensures var sorted := SortBy(ids, LexLe);
      && multiset(sorted) == multiset(ids)
      && (forall i, j :: 0 <= i < j < |sorted| ==> LexLe(sorted[i], sorted[j]) && sorted[i] != sorted[j])
      && sorted == SortBy(others, LexLe)
  {
    SortedStrings(ids, others);
  }

  /** The report starts with its title and ends with a rule of `=`, without a final newline. */
  lemma ReportShape(r: OmaResults, date: string, describe: string -> string)
    requires r.OmaResults?
    ensures var text := Report(r, date, describe);
      && StartsWith(text, Repeat('=', 80) + "\n" + ReportTitle + "\n")
      && |text| >= 80 && text[|text| - 80..] == Repeat('=', 80)
  {
    var head, f, u := SummaryLines(r, date), FrequentLines(r.frequentOmas, r.omaDetails), UniqueSection(r, describe);
    var body := head + f + [""] + u;
    assert ReportLines(r, date, describe) == body + [Repeat('=', 80)];
    assert body[0] == head[0] && body[1] == head[1];
    JoinFrame(body, Repeat('=', 80));
  }

  // ------------------------------------------------------------ the writer

  method GenerateReport(results: OmaResults, date: string, describe: string -> string) returns (text: string)
    ensures text == Report(results, date, describe)
  {
    if results.NoResults? {
      return NoResultsText;
    }
    var lines := SummaryLines(results, date);
    var frequent := WriteFrequentLines(results.frequentOmas, results.omaDetails);
    lines := lines + frequent + [""];
    var unique := WriteUniqueSection(results, describe);
    lines := lines + unique + [Repeat('=', 80)];
    text := Join(lines, "\n");
  }

  method WriteFrequentLines(items: Dict<string, nat>, details: Dict<string, GroupDetails>) returns (lines: seq<string>)
    ensures lines == FrequentLines(items, details)
  {
    lines := [];
    for i := 0 to |items|
      invariant lines == FrequentLines(items[..i], details)
    {
      assert items[..i + 1][..i] == items[..i];
      lines := lines + [FrequentLine(items[i], details)];
    }
    assert items[..|items|] == items;
  }

  method WriteUniqueSection(results: OmaResults, describe: string -> string) returns (lines: seq<string>)
    requires results.OmaResults?
    ensures lines == UniqueSection(results, describe)
  {
    if results.uniqueIds == {} {
      return ["No UniProt IDs found that are unique to OMA groups."];
    }
    var blocks := WriteGroupBlocks(SortBy(ListedGroups(results.omaDetails), ByGroupId), describe);
    lines := ["UNIPROT IDs UNIQUE TO OMA (Not in Pfam)", Repeat('-', 50)] + blocks;
  }

  method WriteGroupBlocks(groups: Dict<string, GroupDetails>, describe: string -> string) returns (lines: seq<string>)
    ensures lines == GroupBlocks(groups, describe)
  {
    lines := [];
    for i := 0 to |groups|
      invariant lines == GroupBlocks(groups[..i], describe)
    {
      assert groups[..i + 1][..i] == groups[..i];
      var entries := WriteEntries(SortBy(groups[i].1.uniprotIds, LexLe), describe);
      lines := lines + (["OMA GROUP: " + groups[i].0 + " (Fingerprint: " + groups[i].1.fingerprint + ")", Repeat('=', 60)] + entries + [""]);
    }
    assert groups[..|groups|] == groups;
  }

  method WriteEntries(ids: seq<string>, describe: string -> string) returns (lines: seq<string>)
    ensures lines == EntryLines(ids, describe)
  {
    lines := [];
    for i := 0 to |ids|
      invariant lines == EntryLines(ids[..i], describe)
    {
      assert ids[..i + 1][..i] == ids[..i];
      lines := lines + [EntryLine(ids[i], describe)];
    }
    assert ids[..|ids|] == ids;
  }
}
