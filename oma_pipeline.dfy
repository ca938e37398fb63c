/**
 * What `PfamOMAAnalyzer.analyze_pfam_family` does the same way in
 * ortho_counts.py and ortho_counts_old.py: map each family accession to its
 * OMA group (`batch_get_oma_fingerprints`), and per frequent group take the
 * group's accessions outside the family (`set(list) - pfam_uniprot_set`),
 * collecting them in `oma_details` and in one global set.
 *
 * The web services are parameters (`OmaServices`).
 */
module OmaPipeline {
  import opened Options
  import opened Text
  import opened Sorting
  import opened Dicts
  import opened FamilyFiles

  /** What one HTTP request gives: a failure that raises, a status other than 200, or a 200 body. */
  datatype Reply<T> = RequestError | NotOk | Ok(body: T)

  /** The keys of the OMA API's group object that the code looks at (`None`: key absent). */
  datatype GroupJson = GroupJson(fingerprint: Option<string>, groupId: Option<string>)

  /** The outside world of one analysis. */
  datatype OmaServices = OmaServices(
    // `get_oma_fingerprint(uniprot_id)`: the OMA group of an accession, if found
    omaGroupOf: string -> Option<string>,
    // the OMA API's answer for `group/{oma_id}/`
    groupApi: string -> Reply<GroupJson>,
    // the OMA browser's page for a group
    groupPage: string -> Reply<string>,
    // the UniProt entry page of an accession
    memberPage: string -> Reply<string>,
    // `get_uniprot_ids_with_oma_fingerprint(fingerprint)`: the accessions UniProt lists; `[]` on error
    membersWith: string -> seq<string>,
    // `get_uniprot_description(uniprot_id)`; "Unknown" when nothing is found
    description: string -> string)

  /** Python truthiness of an optional string: present and non-empty. */
  predicate Truthy(s: Option<string>) {
    s.Some? && s.value != ""
  }

  // ------------------------------------------------------------ the OMA mapping

  /** `oma_mapping` after `batch_get_oma_fingerprints` has looked up `ids`. */
  function BatchMapping(ids: seq<string>, omaGroupOf: string -> Option<string>): Dict<string, string> {
    if ids == [] then []
    else
      var before := BatchMapping(ids[..|ids| - 1], omaGroupOf);
      var id := ids[|ids| - 1];
      if Truthy(omaGroupOf(id)) then Assign(before, id, omaGroupOf(id).value) else before
  }

  method BatchGetOmaFingerprints(ids: seq<string>, omaGroupOf: string -> Option<string>) returns (mapping: Dict<string, string>)
    ensures mapping == BatchMapping(ids, omaGroupOf)
  {
    mapping := [];
    for i := 0 to |ids|
      invariant mapping == BatchMapping(ids[..i], omaGroupOf)
    {
      assert ids[..i + 1][..i] == ids[..i];
      var omaId := omaGroupOf(ids[i]);
      if omaId.Some? && omaId.value != "" {
        mapping := Assign(mapping, ids[i], omaId.value);
      }
    }
    assert ids[..|ids|] == ids;
  }

  /**
   * The mapping pairs each looked-up accession whose lookup gave a
   * non-empty group with that group, once per accession.
   */
  lemma {:induction false} BatchMappingExactly(ids: seq<string>, omaGroupOf: string -> Option<string>)
    ensures DistinctKeys(BatchMapping(ids, omaGroupOf))
    ensures forall e :: e in BatchMapping(ids, omaGroupOf)
                       <==> e.0 in ids && Truthy(omaGroupOf(e.0)) && e.1 == omaGroupOf(e.0).value
  {
    if ids != [] {
      var init := ids[..|ids| - 1];
      var id := ids[|ids| - 1];
      var before := BatchMapping(init, omaGroupOf);
      BatchMappingExactly(init, omaGroupOf);
      assert ids == init + [id];
      var m := BatchMapping(ids, omaGroupOf);
      if Truthy(omaGroupOf(id)) {
        var g := omaGroupOf(id).value;
        AssignDistinct(before, id, g);
        AssignGet(before, id, g);
        AssignKeys(before, id, g);
        forall e ensures e in m <==> e.0 in ids && Truthy(omaGroupOf(e.0)) && e.1 == omaGroupOf(e.0).value {
          ItemIffGet(m, e);
          ItemIffGet(before, e);
          if e.0 != id {
            AssignOthers(before, id, g, e.0);
            assert e.0 in Keys(m) <==> e.0 in Keys(before);
          }
        }
      }
    }
  }

  // ------------------------------------------------------------ per-group set algebra

  /** `set(oma_uniprot_ids_list) - pfam_uniprot_set`, listed without repeats. */
  function OutsideFamily(list: seq<string>, family: set<string>): seq<string> {
    FirstAppearances(Filter(list, (x: string) => x !in family))
  }

  lemma {:induction false} FilterShorter<T>(s: seq<T>, p: T -> bool)
    ensures |Filter(s, p)| <= |s|
  {
    if s != [] {
      FilterShorter(s[1..], p);
    }
  }

  lemma {:induction false} FirstAppearancesShorter<T>(xs: seq<T>)
    ensures |FirstAppearances(xs)| <= |xs|
  {
    if xs != [] {
      FirstAppearancesShorter(xs[..|xs| - 1]);
    }
  }

  /**
   * The group's accessions outside the family: each listed accession not in
   * the family, each once, none of the family's; at most as many as listed.
   */
  lemma OutsideFamilyFacts(list: seq<string>, family: set<string>)
    ensures NoDuplicates(OutsideFamily(list, family))
    ensures Elements(OutsideFamily(list, family)) == Elements(list) - family
    ensures |OutsideFamily(list, family)| <= |list|
  {
    var p := (x: string) => x !in family;
    FilterShorter(list, p);
    FirstAppearancesShorter(Filter(list, p));
    forall x ensures x in Elements(Filter(list, p)) <==> x in Elements(list) && x !in family {
      FilterMember(list, p, x);
    }
  }

  // ------------------------------------------------------------ oma_details

  /** One entry of `oma_details`. */
  datatype GroupDetails = GroupDetails(count: nat, totalMembers: nat, fingerprint: string, uniprotIds: seq<string>)

  /**
   * `oma_details` once the group loop has visited `items`, where `entry`
   * says what a group contributes (`None`: the group is skipped).
   */
  function Collect(items: Dict<string, nat>, entry: (string, nat) -> Option<GroupDetails>): Dict<string, GroupDetails> {
    if items == [] then []
    else
      var before := Collect(items[..|items| - 1], entry);
      var last := items[|items| - 1];
      var e := entry(last.0, last.1);
      if e.Some? then Assign(before, last.0, e.value) else before
  }

  /** `all_oma_uniprot_ids`: the union of the groups' accession sets. */
  function UnionOfIds(details: Dict<string, GroupDetails>): set<string> {
    if details == [] then {}
    else UnionOfIds(details[..|details| - 1]) + Elements(details[|details| - 1].1.uniprotIds)
  }

  /** One turn of the group loop. */
  lemma CollectStep(items: Dict<string, nat>, entry: (string, nat) -> Option<GroupDetails>, i: nat, details: Dict<string, GroupDetails>)
    requires DistinctKeys(items) && i < |items|
    requires details == Collect(items[..i], entry)
    requires forall k :: k in Keys(details) ==> k in Keys(items[..i])
    ensures var e := entry(items[i].0, items[i].1);
      var next := if e.Some? then Assign(details, items[i].0, e.value) else details;
      && next == Collect(items[..i + 1], entry)
      && (forall k :: k in Keys(next) ==> k in Keys(items[..i + 1]))
      && UnionOfIds(next) == UnionOfIds(details) + (if e.Some? then Elements(e.value.uniprotIds) else {})
  {
    var k := items[i].0;
    var e := entry(k, items[i].1);
    CollectNext(items, entry, i);
    KeysPrefixStep(items, i);
    if e.Some? {
      KeyNotInPrefix(items, i);
      AssignAppendsNew(details, k, e.value);
      KeysAppend(details, (k, e.value));
      UnionOfIdsAppend(details, (k, e.value));
    }
  }

  /** Visiting one more group assigns what `entry` gives it, if anything. */
  lemma CollectNext(items: Dict<string, nat>, entry: (string, nat) -> Option<GroupDetails>, i: nat)
    requires i < |items|
    ensures var before := Collect(items[..i], entry);
      var e := entry(items[i].0, items[i].1);
      Collect(items[..i + 1], entry) == if e.Some? then Assign(before, items[i].0, e.value) else before
  {
    var prefix := items[..i + 1];
    assert prefix[..i] == items[..i] && prefix[i] == items[i];
  }

  /** A group added last adds its accessions to the union. */
  lemma UnionOfIdsAppend(details: Dict<string, GroupDetails>, e: (string, GroupDetails))
    ensures UnionOfIds(details + [e]) == UnionOfIds(details) + Elements(e.1.uniprotIds)
  {
    assert (details + [e])[..|details|] == details;
  }

  /**
   * With distinct group keys, `oma_details` holds for each group exactly
   * what `entry` gives it: a skipped group is absent.
   */
  lemma {:induction false} CollectExactly(items: Dict<string, nat>, entry: (string, nat) -> Option<GroupDetails>)
    requires DistinctKeys(items)
    ensures DistinctKeys(Collect(items, entry))
    ensures forall k :: k in Keys(Collect(items, entry)) ==> k in Keys(items)
    ensures forall i :: 0 <= i < |items| ==> Get(Collect(items, entry), items[i].0) == entry(items[i].0, items[i].1)
  {
    if items != [] {
      var n := |items| - 1;
      var init := items[..n];
      var last := items[n];
      DistinctKeysPrefix(items, n);
      CollectExactly(init, entry);
      var before := Collect(init, entry);
      var e := entry(last.0, last.1);
      CollectNext(items, entry, n);
      KeysPrefixStep(items, n);
      assert items[..n + 1] == items;
      if e.Some? {
        AssignDistinct(before, last.0, e.value);
        AssignKeys(before, last.0, e.value);
        AssignGet(before, last.0, e.value);
      }
      forall i | 0 <= i < |items| ensures Get(Collect(items, entry), items[i].0) == entry(items[i].0, items[i].1) {
        if i < n {
          assert init[i] == items[i];
          if e.Some? {
            AssignOthers(before, last.0, e.value, items[i].0);
          }
        } else if e.None? {
          KeyNotInPrefix(items, n);
        }
      }
    }
  }

  /** The union holds each group's accessions, and only those. */
  lemma {:induction false} UnionOfIdsMember(details: Dict<string, GroupDetails>, x: string)
    ensures x in UnionOfIds(details) <==> exists i :: 0 <= i < |details| && x in details[i].1.uniprotIds
  {
    if details != [] {
      var init := details[..|details| - 1];
      UnionOfIdsMember(init, x);
      if x in UnionOfIds(init) {
        var i :| 0 <= i < |init| && x in init[i].1.uniprotIds;
        assert details[i] == init[i];
      }
      if exists i :: 0 <= i < |details| && x in details[i].1.uniprotIds {
        var i :| 0 <= i < |details| && x in details[i].1.uniprotIds;
        if i < |init| {
          assert init[i] == details[i];
        } else {
          assert x in Elements(details[|details| - 1].1.uniprotIds);
        }
      }
    }
  }

  /** The entry of every collected group is what `entry` gave some group of `items` with that key. */
  lemma CollectedFrom(items: Dict<string, nat>, entry: (string, nat) -> Option<GroupDetails>, j: nat)
    requires DistinctKeys(items) && j < |Collect(items, entry)|
    ensures exists i :: 0 <= i < |items| && items[i].0 == Collect(items, entry)[j].0
                        && entry(items[i].0, items[i].1) == Some(Collect(items, entry)[j].1)
  {
    var details := Collect(items, entry);
    CollectExactly(items, entry);
    var k := details[j].0;
    assert k in Keys(details) by { assert Keys(details)[j] == k; }
    var i :| 0 <= i < |items| && Keys(items)[i] == k;
    assert details[j] in details;
    GetFindsItem(details, k, details[j].1);
  }

  /** When no group is skipped, `oma_details` has the groups' keys, in the same order. */
  lemma {:induction false} CollectTotal(items: Dict<string, nat>, entry: (string, nat) -> Option<GroupDetails>)
    requires DistinctKeys(items)
    requires forall i :: 0 <= i < |items| ==> entry(items[i].0, items[i].1).Some?
    ensures Keys(Collect(items, entry)) == Keys(items)
  {
    if items != [] {
      var n := |items| - 1;
      var init := items[..n];
      DistinctKeysPrefix(items, n);
      forall i | 0 <= i < |init| ensures entry(init[i].0, init[i].1).Some? {
        assert init[i] == items[i];
      }
      CollectTotal(init, entry);
      var before := Collect(init, entry);
      var k := items[n].0;
      var v := entry(k, items[n].1).value;
      CollectNext(items, entry, n);
      KeyNotInPrefix(items, n);
      AssignAppendsNew(before, k, v);
      KeysAppend(before, (k, v));
      KeysPrefixStep(items, n);
      assert items[..n + 1] == items;
    }
  }

  /** What holds of each group's accessions: listed once, outside the family, no more than the group has. */
  predicate OutsideFamilyEntry(d: GroupDetails, family: set<string>) {
    && NoDuplicates(d.uniprotIds)
    && Elements(d.uniprotIds) !! family
    && |d.uniprotIds| <= d.totalMembers
  }

  /** When every group's accessions lie outside the family, so does their union. */
  lemma UnionOutsideFamily(details: Dict<string, GroupDetails>, family: set<string>)
    requires forall j :: 0 <= j < |details| ==> OutsideFamilyEntry(details[j].1, family)
    ensures UnionOfIds(details) !! family
    ensures forall j :: 0 <= j < |details| ==> Elements(details[j].1.uniprotIds) <= UnionOfIds(details)
  {
    forall x | x in UnionOfIds(details) ensures x !in family {
      UnionOfIdsMember(details, x);
      var i :| 0 <= i < |details| && x in details[i].1.uniprotIds;
      assert OutsideFamilyEntry(details[i].1, family);
    }
    forall j, x | 0 <= j < |details| && x in Elements(details[j].1.uniprotIds) ensures x in UnionOfIds(details) {
      UnionOfIdsMember(details, x);
    }
  }

  // ------------------------------------------------------------ the analysis results

  /** A Pfam family folder: its path and, when they exist, the lines of its `scores` and `DESC` files. */
  datatype PfamFolder = PfamFolder(path: string, scores: Option<seq<string>>, desc: Option<seq<string>>)

  /** The accessions `read_pfam_scores_file` gives for the folder. */
  function FolderIds(folder: PfamFolder): seq<string> {
    if folder.scores.None? then [] else ScoreIds(folder.scores.value)
  }

  /**
   * The dictionary `analyze_pfam_family` returns: `{}`, or the results;
   * `pfam_uniprot_count` is `|pfamUniprotIds|`, `unique_to_oma_count` is
   * `|uniqueIds|`, and `unique_to_oma_ids` lists `uniqueIds`.
   */
  datatype OmaResults =
    | NoResults
    | OmaResults(pfamId: string, pfamFolder: string, minCount: int, pfamUniprotIds: seq<string>,
                 omaMapping: Dict<string, string>, frequentOmas: Dict<string, nat>,
                 omaDetails: Dict<string, GroupDetails>, uniqueIds: set<string>)

  // ------------------------------------------------------------ the report's common part

  /** The report's lines up to the list of frequent groups, the same in both analyzers. */
  function SummaryLines(r: OmaResults, date: string): (ls: seq<string>)
    requires r.OmaResults?
    ensures |ls| == 16 && ls[0] == Repeat('=', 80) && ls[1] == ReportTitle
  {
    var m := IntToString(r.minCount);
    [ Repeat('=', 80),
      ReportTitle,
      Repeat('=', 80),
      "Pfam Family: " + r.pfamId,
      "Minimum Count Threshold: " + m,
      "Analysis Date: " + date,
      "",
      "SUMMARY STATISTICS",
      Repeat('-', 50),
      "Total UniProt IDs in Pfam family: " + NatToString(|r.pfamUniprotIds|),
      "UniProt IDs with OMA fingerprints: " + NatToString(|r.omaMapping|),
      "Frequent OMA groups (>=" + m + " occurrences): " + NatToString(|r.frequentOmas|),
      "UniProt IDs unique to OMA: " + NatToString(|r.uniqueIds|),
      "",
      "FREQUENT OMA GROUPS (>=" + m + " occurrences)",
      Repeat('-', 50) ]
  }

  const ReportTitle: string := "PFAM-OMA ORTHOLOG ANALYSIS REPORT"

  const NoResultsText: string := "No results to report."

  /** `"\n".join(lines + [last])`: the text ends with the last line, with no newline after it. */
  lemma {:induction false} JoinSnoc(lines: seq<string>, last: string)
    ensures Join(lines + [last], "\n") == if lines == [] then last else Join(lines, "\n") + "\n" + last
  {
    if lines != [] {
      var rest := lines[1..] + [last];
      assert lines + [last] == [lines[0]] + rest;
      assert (lines + [last])[1..] == rest;
      JoinSnoc(lines[1..], last);
      if lines[1..] == [] {
        assert lines == [lines[0]];
      }
    }
  }

  /** `"\n".join(first + rest)`: the text starts with the first group of lines. */
  lemma {:induction false} JoinPrefix(first: seq<string>, rest: seq<string>)
    requires first != [] && rest != []
    ensures Join(first + rest, "\n") == Join(first, "\n") + "\n" + Join(rest, "\n")
  {
    var all := first + rest;
    if |first| == 1 {
      assert all[1..] == rest;
    } else {
      assert all[1..] == first[1..] + rest;
      JoinPrefix(first[1..], rest);
    }
  }

  /** Joined lines start with the first two lines, each ended, and end with the last line. */
  lemma JoinFrame(body: seq<string>, last: string)
    requires |body| >= 2
    ensures var text := Join(body + [last], "\n");
      && StartsWith(text, body[0] + "\n" + body[1] + "\n")
      && |text| >= |last| && text[|text| - |last|..] == last
  {
    var ls := body + [last];
    var text := Join(ls, "\n");
    assert text == ls[0] + "\n" + Join(ls[1..], "\n");
    assert ls[1..][0] == ls[1] && ls[1..][1..] == ls[2..];
    assert Join(ls[1..], "\n") == ls[1] + "\n" + Join(ls[2..], "\n");
    JoinSnoc(body, last);
  }
}
