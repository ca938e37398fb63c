/**
 * The table-level parse of `get_oma_proteins` (find_orthologues.py): the
 * structured loop over the rows the `csv` reader yields, stopped by the
 * first `csv.Error`; the positional fall-back loop that then runs over every
 * line after the first; and the fingerprint set collected along the way.
 */
module ProteinTable {
  import opened Options
  import opened Text
  import opened Sorting
  import opened Fingerprints
  import opened Records

  /** What the structured loop has appended, and whether the reader has raised `csv.Error`. */
  datatype TableRead = TableRead(records: seq<ProteinRecord>, failed: bool)

  /** The outcome of each data row under `header`. */
  function RowResults(header: seq<string>, data: seq<seq<string>>): (rs: seq<RowResult>)
    ensures |rs| == |data|
    ensures forall k :: 0 <= k < |data| ==> rs[k] == ReadRow(header, data[k])
  {
    seq(|data|, k requires 0 <= k < |data| => ReadRow(header, data[k]))
  }

  predicate ResultsWellFormed(results: seq<RowResult>) {
    forall k :: 0 <= k < |results| && results[k].Read? ==> WellFormed(results[k].record)
  }

  /**
   * The `for row in csv_reader` loop over row outcomes: the records of the
   * rows before the first that raises, and whether one did.
   */
  function ReadRows(results: seq<RowResult>): (t: TableRead)
    ensures ResultsWellFormed(results) ==> AllWellFormed(t.records)
  {
    if results == [] then TableRead([], false)
    else
      var init := results[..|results| - 1];
      assert forall k :: 0 <= k < |init| ==> init[k] == results[k];
      var before := ReadRows(init);
      if before.failed then before
      else match results[|results| - 1]
        case Raised => TableRead(before.records, true)
        case Skipped => before
        case Read(r) => TableRead(before.records + [r], false)
  }

  /** The reader raises exactly when some row raises. */
  lemma {:induction false} ReadRowsFailsIff(results: seq<RowResult>)
    ensures ReadRows(results).failed <==> exists k :: 0 <= k < |results| && results[k].Raised?
  {
    if results != [] {
      var init := results[..|results| - 1];
      ReadRowsFailsIff(init);
      assert forall k :: 0 <= k < |init| ==> init[k] == results[k];
    }
  }

  /** Once a row has raised, later rows change nothing. */
  lemma {:induction false} ReadRowsStops(results: seq<RowResult>, i: nat)
    requires i <= |results| && ReadRows(results[..i]).failed
    ensures ReadRows(results) == ReadRows(results[..i])
    decreases |results| - i
  {
    if i < |results| {
      assert results[..i + 1][..i] == results[..i];
      ReadRowsStops(results, i + 1);
    } else {
      assert results[..i] == results;
    }
  }

  /** The structured parse: the first row is the header; an oversized header fails at once. */
  function ReadTable(rows: seq<seq<string>>): (t: TableRead)
    ensures AllWellFormed(t.records)
  {
    if rows == [] then TableRead([], false)
    else if Oversized(rows[0]) then TableRead([], true)
    else ReadRows(RowResults(rows[0], rows[1..]))
  }

  /**
   * The fall-back parse runs exactly when some line, the header included,
   * has a field longer than the limit.
   */
  lemma ReadTableFailsIff(rows: seq<seq<string>>)
    ensures ReadTable(rows).failed <==> exists k :: 0 <= k < |rows| && Oversized(rows[k])
  {
    if rows != [] && !Oversized(rows[0]) {
      var results := RowResults(rows[0], rows[1..]);
      ReadRowsFailsIff(results);
      assert forall k :: 1 <= k < |rows| ==> results[k - 1] == ReadRow(rows[0], rows[k]);
    }
  }

  /** The outcome of each line of the positional parse. */
  function LineResults(lines: seq<string>): (rs: seq<Option<ProteinRecord>>)
    ensures |rs| == |lines|
    ensures forall k :: 0 <= k < |lines| ==> rs[k] == LineRecord(lines[k])
  {
    seq(|lines|, k requires 0 <= k < |lines| => LineRecord(lines[k]))
  }

  /** The records the fall-back loop appends for `lines`, in order. */
  function FallbackRecords(lines: seq<string>): (rs: seq<ProteinRecord>)
    ensures AllWellFormed(rs)
  {
    var results := LineResults(lines);
    PresentFrom(results);
    Present(results)
  }

  // ------------------------------------------------------------ whole parse

  /**
   * The protein list for sanitised, non-blank content: the structured
   * records; after a `csv.Error`, the records appended before it followed
   * by the fall-back records of every line after the first.
   */
  function ParseProteins(content: string): (rs: seq<ProteinRecord>)
    ensures AllWellFormed(rs)
  {
    var t := ReadTable(CsvRows(content));
    if t.failed then t.records + FallbackRecords(Split(content, '\n')[1..]) else t.records
  }

  /** The union of `re.findall(r'[A-Z]{7}', oma_refs)` over the records. */
  function FingerprintsOf(rs: seq<ProteinRecord>): (fs: set<string>)
    ensures forall f :: f in fs ==> IsFingerprint(f)
    ensures forall k :: 0 <= k < |rs| ==> Elements(FindFingerprints(rs[k].omaRefs)) <= fs
  {
    if rs == [] then {}
    else
      var last := rs[|rs| - 1];
      var before := FingerprintsOf(rs[..|rs| - 1]);
      assert forall k :: 0 <= k < |rs| - 1 ==> rs[..|rs| - 1][k] == rs[k];
      before + Elements(FindFingerprints(last.omaRefs))
  }

  /** The set after one more record, as the loops update it (only for a non-empty OMA field). */
  function AddFingerprints(fs: set<string>, r: ProteinRecord): set<string> {
    if r.omaRefs != [] then fs + Elements(FindFingerprints(r.omaRefs)) else fs
  }

  lemma FingerprintsOfAppend(rs: seq<ProteinRecord>, r: ProteinRecord)
    ensures FingerprintsOf(rs + [r]) == AddFingerprints(FingerprintsOf(rs), r)
  {
    assert (rs + [r])[..|rs|] == rs;
    if r.omaRefs == [] {
      assert FindFingerprints(r.omaRefs) == [];
    }
  }

  /** Each fingerprint of the set comes from the OMA field of some record. */
  lemma {:induction false} FingerprintsHaveASource(rs: seq<ProteinRecord>, f: string)
    requires f in FingerprintsOf(rs)
    ensures exists k :: 0 <= k < |rs| && f in FindFingerprints(rs[k].omaRefs)
  {
    var last := rs[|rs| - 1];
    if f in FindFingerprints(last.omaRefs) {
      assert f in FindFingerprints(rs[|rs| - 1].omaRefs);
    } else {
      FingerprintsHaveASource(rs[..|rs| - 1], f);
      var k :| 0 <= k < |rs| - 1 && f in FindFingerprints(rs[..|rs| - 1][k].omaRefs);
      assert rs[..|rs| - 1][k] == rs[k];
    }
  }

  // ------------------------------------------------------------ the methods

  /** The protein list `get_oma_proteins` returns for a download (`None` for a failed request). */
  function FetchedProteins(response: Option<string>): (rs: seq<ProteinRecord>)
    ensures AllWellFormed(rs)
  {
    if response.None? || AllSpace(Sanitise(response.value)) then []
    else ParseProteins(Sanitise(response.value))
  }

  /** A failed request, or a download that is blank once sanitised, gives no records and no fingerprints. */
  lemma BlankDownloadYieldsNothing(response: Option<string>)
    requires response.None? || Strip(Sanitise(response.value)) == []
    ensures FetchedProteins(response) == [] && FingerprintsOf(FetchedProteins(response)) == {}
  {
    if response.Some? {
      StripEmptyIff(Sanitise(response.value));
    }
  }

  /**
   * `get_oma_proteins` after the request: `response` is the text the
   * download produced, or `None` when the request failed
   * (`RequestException`, an error status), which yields empty results.
   */
  method GetOmaProteins(response: Option<string>) returns (proteins: seq<ProteinRecord>, fingerprints: set<string>)
    ensures proteins == FetchedProteins(response)
    ensures fingerprints == FingerprintsOf(proteins)
  {
    proteins := [];
    fingerprints := {};
    if response.None? {
      return;
    }
    var content := Sanitise(response.value);
    StripEmptyIff(content);
    if Strip(content) == [] {
      return;
    }
    var rows := CsvRows(content);
    var failed := false;
    if rows == [] {
    } else if Oversized(rows[0]) {
      failed := true;
    } else {
      proteins, fingerprints, failed := ReadStructured(rows[0], rows[1..]);
    }
    if failed {
      var lines := Split(content, '\n');
      proteins, fingerprints := ReadPositional(lines[1..], proteins, fingerprints);
    }
  }

  /** The `for row in csv_reader` loop, stopped by the first `csv.Error`. */
  method ReadStructured(header: seq<string>, data: seq<seq<string>>)
    returns (proteins: seq<ProteinRecord>, fingerprints: set<string>, failed: bool)
    ensures TableRead(proteins, failed) == ReadRows(RowResults(header, data))
    ensures fingerprints == FingerprintsOf(proteins)
  {
    ghost var results := RowResults(header, data);
    proteins, fingerprints, failed := [], {}, false;
    var i := 0;
    while i < |data| && !failed
      invariant 0 <= i <= |data|
      invariant ReadRows(results[..i]) == TableRead(proteins, failed)
      invariant failed ==> ReadRows(results) == ReadRows(results[..i])
      invariant fingerprints == FingerprintsOf(proteins)
    {
      assert results[..i + 1][..i] == results[..i];
      match ReadRow(header, data[i]) {
        case Raised =>
          failed := true;
          ReadRowsStops(results, i + 1);
        case Skipped =>
        case Read(rec) =>
          proteins, fingerprints := AppendRecord(proteins, fingerprints, rec);
      }
      i := i + 1;
    }
    if !failed {
      assert results[..i] == results;
    }
  }

  /** The fall-back loop over `lines[1:]`, appending to what the structured loop left. */
  method ReadPositional(lines: seq<string>, proteins0: seq<ProteinRecord>, fingerprints0: set<string>)
    returns (proteins: seq<ProteinRecord>, fingerprints: set<string>)
    requires fingerprints0 == FingerprintsOf(proteins0)
    ensures proteins == proteins0 + FallbackRecords(lines)
    ensures fingerprints == FingerprintsOf(proteins)
  {
    ghost var results := LineResults(lines);
    proteins, fingerprints := proteins0, fingerprints0;
    var j := 0;
    while j < |lines|
      invariant 0 <= j <= |lines|
      invariant proteins == proteins0 + Present(results[..j])
      invariant fingerprints == FingerprintsOf(proteins)
    {
      var rec := LineRecord(lines[j]);
      assert rec == results[j];
      PositionalStep(proteins0, results, j);
      if rec.Some? {
        proteins, fingerprints := AppendRecord(proteins, fingerprints, rec.value);
      }
      j := j + 1;
    }
    assert results[..j] == results;
  }

  /** One turn of the fall-back loop appends the next line's record, if it has one. */
  lemma PositionalStep(proteins0: seq<ProteinRecord>, results: seq<Option<ProteinRecord>>, j: nat)
    requires j < |results|
    ensures results[j].Some? ==> proteins0 + Present(results[..j + 1]) == proteins0 + Present(results[..j]) + [results[j].value]
    ensures results[j].None? ==> proteins0 + Present(results[..j + 1]) == proteins0 + Present(results[..j])
  {
    PresentPrefix(results, j);
    if results[j].Some? {
      AppendAssociates(proteins0, Present(results[..j]), [results[j].value]);
    }
  }

  /** `proteins.append(protein_data)`, then `oma_fingerprints.update(...)` when the OMA field is not empty. */
  method AppendRecord(proteins0: seq<ProteinRecord>, fingerprints0: set<string>, r: ProteinRecord)
    returns (proteins: seq<ProteinRecord>, fingerprints: set<string>)
    requires fingerprints0 == FingerprintsOf(proteins0)
    ensures proteins == proteins0 + [r]
    ensures fingerprints == FingerprintsOf(proteins)
  {
    FingerprintsOfAppend(proteins0, r);
    proteins := proteins0 + [r];
    fingerprints := fingerprints0;
    if r.omaRefs != [] {
      fingerprints := fingerprints + Elements(FindFingerprints(r.omaRefs));
    }
  }
}
