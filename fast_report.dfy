/**
 * `FastPfamOMAAnalyzer.generate_report` (find_orthologues.py): the text
 * file the analysis results are written to, one `f.write(line + "\n")` at a
 * time, and what the call returns.
 */
module FastReport {
  import opened Options
  import opened Text
  import opened Sorting
  import opened Dicts
  import Records
  import opened Tally
  import opened Orders
  import opened ProteinTable
  import opened FamilyFiles
  import opened FastAnalyzer

  /** What one call of `generate_report` amounts to. */
  datatype ReportRun =
    | NothingToReport          // `{}`: nothing is written
    | Written(text: string)    // the whole report was written
    | Raised(partial: string)  // a `KeyError` escapes after `partial` was written (the `with` block closes the file)

  /** The string the call returns; `None` when it raises. */
  function StatusMessage(run: ReportRun, outputFile: string): (m: Option<string>)
    ensures m.None? <==> run.Raised?
  {
    match run
    case NothingToReport => Some("No results to report.")
    case Written(_) => Some("Report successfully written to " + outputFile)
    case Raised(_) => None
  }

  /** The file's text after writing each line followed by a newline. */
  function Lines(ls: seq<string>): string {
    if ls == [] then "" else Lines(ls[..|ls| - 1]) + ls[|ls| - 1] + "\n"
  }

  lemma {:induction false} LinesAppend(a: seq<string>, b: seq<string>)
    ensures Lines(a + b) == Lines(a) + Lines(b)
  {
    if b != [] {
      var init := b[..|b| - 1];
      LinesAppend(a, init);
      assert (a + b)[..|a + b| - 1] == a + init;
      assert (a + b)[|a + b| - 1] == b[|b| - 1];
    } else {
      assert a + b == a;
    }
  }

  /** `name[:80] + "..." if len(name) > 80 else name`. */
  function Truncate80(name: string): (t: string)
    ensures |name| <= 80 ==> t == name
    ensures |name| > 80 ==> |t| == 83 && t[..80] == name[..80] && t[80..] == "..."
  {
    if |name| > 80 then name[..80] + "..." else name
  }

  /** Truncating a truncated name changes nothing. */
  lemma Truncate80Idempotent(name: string)
    ensures Truncate80(Truncate80(name)) == Truncate80(name)
  {
    if |name| > 80 {
      var t := name[..80] + "...";
      assert t[..80] == name[..80];
    }
  }

  // ------------------------------------------------------------ the layout

  function HeaderLines(pfamId: string): seq<string> {
    [Repeat('=', 80), "FAST PFAM-OMA ORTHOLOG ANALYSIS REPORT", Repeat('=', 80), "Pfam Family: " + pfamId]
  }

  function SummaryLines(r: Results, m: int): seq<string>
    requires r.Results?
  {
    [ "Minimum Count Threshold: " + IntToString(m),
      "Analysis Date: " + r.timestamp.GetOr("Unknown"),
      "",
      "SUMMARY STATISTICS",
      Repeat('-', 50),
      "Total proteins in Pfam family: " + NatToString(r.proteinCount),
      "OMA groups with >=" + IntToString(m) + " occurrences: " + NatToString(|r.frequent|),
      "Proteins unique to OMA groups: " + NatToString(r.uniqueCount),
      "" ]
  }

  /** `sorted(oma_fingerprints.items(), key=lambda x: x[1], reverse=True)`. */
  function FrequentOrder(frequent: Dict<string, nat>): Dict<string, nat> {
    SortBy(frequent, ByCountDesc)
  }

  /** One frequent group; a group without a gap entry shows 0 and 0 (`.get(..., {})`). */
  function FrequentLine(item: (string, nat), gaps: Dict<string, GroupGap>): string {
    var g := Get(gaps, item.0);
    item.0 + ": " + NatToString(item.1) + " in Pfam, "
    + IntToString(if g.Some? then g.value.totalOmaSize else 0) + " total in OMA, "
    + NatToString(if g.Some? then g.value.uniqueCount else 0) + " unique to OMA"
  }

  function FrequentLines(items: Dict<string, nat>, gaps: Dict<string, GroupGap>): (ls: seq<string>)
    ensures |ls| == |items|
  {
    if items == [] then [] else FrequentLines(items[..|items| - 1], gaps) + [FrequentLine(items[|items| - 1], gaps)]
  }

  function FrequentSection(r: Results, m: int): seq<string>
    requires r.Results?
  {
    if r.frequent == [] then []
    else ["FREQUENT OMA GROUPS (>=" + IntToString(m) + " occurrences)", Repeat('-', 50)]
         + FrequentLines(FrequentOrder(r.frequent), r.gaps) + [""]
  }

  /** `sorted(unique_proteins, key=lambda x: x['accession'])`. */
  predicate ByAccession(a: Records.ProteinRecord, b: Records.ProteinRecord) {
    LexLe(a.accession, b.accession)
  }

  function ProteinLine(p: Records.ProteinRecord): string {
    "      " + p.accession + " | " + Truncate80(p.proteinName)
  }

  function ProteinLines(ps: seq<Records.ProteinRecord>): (ls: seq<string>)
    ensures |ls| == |ps|
  {
    if ps == [] then [] else ProteinLines(ps[..|ps| - 1]) + [ProteinLine(ps[|ps| - 1])]
  }

  /** The block of one group; a group whose download came back empty is left out. */
  function GroupBlock(fp: string, gaps: Dict<string, GroupGap>): seq<string> {
    var g := Get(gaps, fp);
    var ps := if g.Some? then g.value.uniqueProteins else [];
    if ps == [] then []
    else ["OMA GROUP: " + fp, Repeat('=', 60)] + ProteinLines(SortBy(ps, ByAccession)) + [""]
  }

  function GroupBlocks(keys: seq<string>, gaps: Dict<string, GroupGap>): seq<string> {
    if keys == [] then [] else GroupBlocks(keys[..|keys| - 1], gaps) + GroupBlock(keys[|keys| - 1], gaps)
  }

  function UniqueSection(r: Results): seq<string>
    requires r.Results?
  {
    if r.uniqueCount > 0 then
      ["PROTEINS UNIQUE TO OMA GROUPS (Not in Pfam)", Repeat('-', 50)] + GroupBlocks(SortBy(Keys(r.gaps), LexLe), r.gaps)
    else
      ["No proteins found that are unique to OMA groups.", ""]
  }

  function ReportLines(r: Results, m: int): seq<string>
    requires r.Results?
  {
    HeaderLines(r.pfamId) + SummaryLines(r, m) + FrequentSection(r, m) + UniqueSection(r) + [Repeat('=', 80)]
  }

  /** What `generate_report` does: a results dictionary without `min_count` raises at the threshold line. */
  function Report(r: Results): ReportRun {
    if r.NoResults? then NothingToReport
    else if r.minCount.None? then Raised(Lines(HeaderLines(r.pfamId)))
    else Written(Lines(ReportLines(r, r.minCount.value)))
  }

  // ------------------------------------------------------------ properties

  /**
   * The frequent groups are listed by non-increasing count, each once, and
   * groups with equal counts in the order of `frequent_omas`.
   */
  lemma FrequentListedByCount(frequent: Dict<string, nat>, n: nat)
    ensures SortedBy(FrequentOrder(frequent), ByCountDesc)
    ensures multiset(FrequentOrder(frequent)) == multiset(frequent)
    ensures var tie := (e: (string, nat)) => e.1 == n;
      Filter(FrequentOrder(frequent), tie) == Filter(frequent, tie)
  {
    ByCountDescIsPreorder();
    SortBySorted(frequent, ByCountDesc);
    SortByStable(frequent, ByCountDesc, (e: (string, nat)) => e.1 == n);
  }

  /** The groups of the unique section come in strictly ascending fingerprint order, each key once. */
  lemma GroupsListedByFingerprint(gaps: Dict<string, GroupGap>)
    requires DistinctKeys(gaps)
    ensures var keys := SortBy(Keys(gaps), LexLe);
      && multiset(keys) == multiset(Keys(gaps))
      && forall i, j :: 0 <= i < j < |keys| ==> LexLe(keys[i], keys[j]) && keys[i] != keys[j]
  {
    assert NoDuplicates(Keys(gaps)) by {
      forall i, j | 0 <= i < j < |gaps| ensures Keys(gaps)[i] != Keys(gaps)[j] {
        assert Keys(gaps)[i] == gaps[i].0 && Keys(gaps)[j] == gaps[j].0;
      }
    }
    SortedStrings(Keys(gaps), Keys(gaps));
  }

  /** Within a group, proteins come by ascending accession; equal accessions keep their download order. */
  lemma ProteinsListedByAccession(ps: seq<Records.ProteinRecord>, accession: string)
    ensures SortedBy(SortBy(ps, ByAccession), ByAccession)
    ensures multiset(SortBy(ps, ByAccession)) == multiset(ps)
    ensures var same := (p: Records.ProteinRecord) => p.accession == accession;
      Filter(SortBy(ps, ByAccession), same) == Filter(ps, same)
  {
    SortedByKey(ps, (p: Records.ProteinRecord) => p.accession, ByAccession);
    var same := (p: Records.ProteinRecord) => p.accession == accession;
    forall x, y | same(x) && same(y) ensures ByAccession(x, y) && ByAccession(y, x) {
      LexLeReflexive(accession);
    }
    SortByStable(ps, ByAccession, same);
  }

  /** What a raising call leaves in the file is the start of the complete report. */
  lemma RaisedTextStartsReport(r: Results, m: int)
    requires r.Results?
    ensures StartsWith(Lines(ReportLines(r, m)), Lines(HeaderLines(r.pfamId)))
  {
    var h, a, b, c, d := HeaderLines(r.pfamId), SummaryLines(r, m), FrequentSection(r, m), UniqueSection(r), [Repeat('=', 80)];
    assert ReportLines(r, m) == h + a + b + c + d;
    AppendRegroups(h, a, b, c, d);
    LinesAppend(h, a + b + c + d);
  }

  /**
   * As written, a family whose proteins carry no OMA cross-reference gives
   * a result without `min_count`, and the report raises after the header.
   */
  lemma AsWrittenReportRaises(pfam: string, minCount: int, api: Uniprot)
    requires IsPfamId(pfam) && FamilyProteins(api, pfam) != []
    requires FingerprintsOf(FamilyProteins(api, pfam)) == {}
    ensures Report(AnalysisAsWritten(pfam, minCount, api)) == Raised(Lines(HeaderLines(pfam)))
    ensures StatusMessage(Report(AnalysisAsWritten(pfam, minCount, api)), "report.txt") == None
  {
  }

  /** With `min_count` in every result, a report is always written. */
  lemma CorrectedReportIsWritten(pfam: string, minCount: int, api: Uniprot)
    ensures !Report(Analysis(pfam, minCount, api)).Raised?
  {
    AnalysisFailsIff(pfam, minCount, api);
  }

  /**
   * The corrected report for a family without fingerprints: no date, no
   * frequent section, and the "No proteins found" line.
   */
  lemma NoFingerprintReport(r: Results, m: int)
    requires r.Results? && r.frequent == [] && r.uniqueCount == 0 && r.timestamp.None?
    ensures SummaryLines(r, m)[1] == "Analysis Date: Unknown"
    ensures ReportLines(r, m) == HeaderLines(r.pfamId) + SummaryLines(r, m)
              + ["No proteins found that are unique to OMA groups.", "", Repeat('=', 80)]
  {
  }

  /** The corrected analysis of a family without fingerprints is such a result. */
  lemma NoFingerprintResult(pfam: string, minCount: int, api: Uniprot)
    requires IsPfamId(pfam) && FamilyProteins(api, pfam) != []
    requires FingerprintsOf(FamilyProteins(api, pfam)) == {}
    ensures var r := Analysis(pfam, minCount, api);
      r.Results? && r.minCount == Some(minCount) && r.frequent == [] && r.uniqueCount == 0 && r.timestamp.None?
  {
  }

  // ------------------------------------------------------------ the writer

  method GenerateReport(results: Results) returns (run: ReportRun)
    ensures run == Report(results)
  {
    if results.NoResults? {
      return NothingToReport;
    }
    var written := HeaderLines(results.pfamId);
    if results.minCount.None? {
      return Raised(Lines(written));
    }
    var m := results.minCount.value;
    written := written + SummaryLines(results, m);
    var frequent := WriteFrequentSection(results, m);
    written := written + frequent;
    var unique := WriteUniqueSection(results);
    written := written + unique;
    written := written + [Repeat('=', 80)];
    return Written(Lines(written));
  }

  method WriteFrequentSection(results: Results, m: int) returns (lines: seq<string>)
    requires results.Results?
    ensures lines == FrequentSection(results, m)
  {
    lines := [];
    if results.frequent != [] {
      var groupLines := WriteFrequentGroups(FrequentOrder(results.frequent), results.gaps);
      lines := ["FREQUENT OMA GROUPS (>=" + IntToString(m) + " occurrences)", Repeat('-', 50)] + groupLines + [""];
    }
  }

  method WriteUniqueSection(results: Results) returns (lines: seq<string>)
    requires results.Results?
    ensures lines == UniqueSection(results)
  {
    if results.uniqueCount > 0 {
      var blocks := WriteGroupBlocks(SortBy(Keys(results.gaps), LexLe), results.gaps);
      lines := ["PROTEINS UNIQUE TO OMA GROUPS (Not in Pfam)", Repeat('-', 50)] + blocks;
    } else {
      lines := ["No proteins found that are unique to OMA groups.", ""];
    }
  }

  method WriteFrequentGroups(items: Dict<string, nat>, gaps: Dict<string, GroupGap>) returns (lines: seq<string>)
    ensures lines == FrequentLines(items, gaps)
  {
    lines := [];
    for i := 0 to |items|
      invariant lines == FrequentLines(items[..i], gaps)
    {
      assert items[..i + 1][..i] == items[..i];
      lines := lines + [FrequentLine(items[i], gaps)];
    }
    assert items[..|items|] == items;
  }

  method WriteGroupBlocks(keys: seq<string>, gaps: Dict<string, GroupGap>) returns (lines: seq<string>)
    ensures lines == GroupBlocks(keys, gaps)
  {
    lines := [];
    for i := 0 to |keys|
      invariant lines == GroupBlocks(keys[..i], gaps)
    {
      assert keys[..i + 1][..i] == keys[..i];
      var g := Get(gaps, keys[i]);
      var proteins := if g.Some? then g.value.uniqueProteins else [];
      if proteins != [] {
        var proteinLines := WriteProteins(SortBy(proteins, ByAccession));
        lines := lines + (["OMA GROUP: " + keys[i], Repeat('=', 60)] + proteinLines + [""]);
      }
    }
    assert keys[..|keys|] == keys;
  }

  method WriteProteins(ps: seq<Records.ProteinRecord>) returns (lines: seq<string>)
    ensures lines == ProteinLines(ps)
  {
    lines := [];
    for i := 0 to |ps|
      invariant lines == ProteinLines(ps[..i])
    {
      assert ps[..i + 1][..i] == ps[..i];
      lines := lines + [ProteinLine(ps[i])];
    }
    assert ps[..|ps|] == ps;
  }
}
