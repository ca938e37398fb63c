/**
 * The UniProt TSV normaliser of `get_oma_proteins` (find_orthologues.py):
 * the query string, the sanitising of the downloaded text, the
 * header-keyed (`csv.DictReader`) parse, the positional fall-back parse
 * that runs after a `csv.Error`, the Swiss-Prot/TrEMBL flag and the set of
 * OMA fingerprints found in the records.
 */
module Records {
  import opened Options
  import opened Text
  import opened Sorting
  import opened Fingerprints

  // ---------------------------------------------------------------- records

  datatype Status = SwissProt | TrEMBL

  /** The text stored under `uniprot_status`. */
  function StatusName(st: Status): (r: string)
    ensures r == "Swiss-Prot" || r == "TrEMBL"
  {
    match st
    case SwissProt => "Swiss-Prot"
    case TrEMBL => "TrEMBL"
  }

  /** The stripped flag spells `reviewed` in any mix of upper and lower case. */
  predicate SpellsReviewed(flag: string) {
    var t := Strip(flag);
    |t| == |"reviewed"| && forall k :: 0 <= k < |t| ==> LowerChar(t[k]) == "reviewed"[k]
  }

  /** `"Swiss-Prot" if reviewed.strip().lower() == "reviewed" else "TrEMBL"`. */
  function StatusOf(flag: string): (st: Status)
    ensures st == SwissProt <==> SpellsReviewed(flag)
  {
    var lowered := Lower(Strip(flag));
    assert SpellsReviewed(flag) ==> lowered == "reviewed";
    if lowered == "reviewed" then SwissProt else TrEMBL
  }

  /** One protein dictionary of the returned list. */
  datatype ProteinRecord = ProteinRecord(
    accession: string,
    entryName: string,
    proteinName: string,
    pfamRefs: string,
    omaRefs: string,
    status: Status)

  /** No whitespace at either end: what `.strip()` leaves. */
  predicate Trimmed(s: string) {
    s == [] || (!IsSpace(s[0]) && !IsSpace(s[|s| - 1]))
  }

  /** Every emitted record has a non-empty, stripped accession. */
  predicate WellFormed(r: ProteinRecord) {
    r.accession != [] && Trimmed(r.accession)
  }

  predicate AllWellFormed(rs: seq<ProteinRecord>) {
    forall k :: 0 <= k < |rs| ==> WellFormed(rs[k])
  }

  // ------------------------------------------------------------------ query

  /**
   * The UniProt query. An empty string stands for a missing argument.
   * With neither argument `query_parts[0]` raises `IndexError`: `None`.
   */
  function BuildQuery(fingerprint: string, pfam: string, inPfam: bool): (q: Option<string>)
    ensures q.None? <==> fingerprint == [] && pfam == []
    ensures fingerprint != [] && pfam == [] ==> q == Some("(" + OmaTerm(fingerprint) + ")")
    ensures fingerprint == [] && pfam != [] ==> q == Some("(" + PfamTerm(pfam, inPfam) + ")")
    ensures fingerprint != [] && pfam != [] ==> q == Some("(" + OmaTerm(fingerprint) + ") AND " + PfamTerm(pfam, inPfam))
  {
    var parts := (if fingerprint != [] then [OmaTerm(fingerprint)] else [])
                 + (if pfam != [] then [PfamTerm(pfam, inPfam)] else []);
    if |parts| == 0 then None
    else if |parts| == 1 then Some("(" + parts[0] + ")")
    else Some("(" + parts[0] + ") AND " + parts[1])
  }

  /** The cross-reference term of an OMA group. */
  function OmaTerm(fingerprint: string): string { "xref:oma-" + fingerprint }

  /** The family term, negated to ask for proteins outside the family. */
  function PfamTerm(pfam: string, inPfam: bool): string { if inPfam then pfam else "NOT " + pfam }

  // -------------------------------------------------------------- sanitising

  /** The characters the join keeps: printable ones, tab and newline. */
  predicate Kept(c: char) { IsPrintable(c) || c == '\t' || c == '\n' }

  /**
   * Drop NUL and carriage return, then every character that is neither
   * printable nor a tab or newline.
   */
  function Sanitise(content: string): (r: string)
    ensures '\0' !in r && '\r' !in r
    ensures forall i :: 0 <= i < |r| ==> Kept(r[i])
    ensures IsSubsequence(r, content)
    ensures forall c :: Kept(c) ==> multiset(r)[c] == multiset(content)[c]
  {
    SanitiseFacts(content);
    Filter(RemoveChar(RemoveChar(content, '\0'), '\r'), Kept)
  }

  lemma SanitiseFacts(content: string)
    ensures var r := Filter(RemoveChar(RemoveChar(content, '\0'), '\r'), Kept);
      && '\0' !in r && '\r' !in r
      && (forall i :: 0 <= i < |r| ==> Kept(r[i]))
      && IsSubsequence(r, content)
      && (forall c :: Kept(c) ==> multiset(r)[c] == multiset(content)[c])
  {
    var r := Filter(RemoveChar(RemoveChar(content, '\0'), '\r'), Kept);
    SanitiseIsOneFilter(content);
    FilterFacts(content, Kept);
    assert !Kept('\0') && !Kept('\r');
  }

  /** Removing a character the filter drops anyway changes nothing. */
  lemma {:induction false} FilterAfterRemove(s: string, c: char)
    requires !Kept(c)
    ensures Filter(RemoveChar(s, c), Kept) == Filter(s, Kept)
  {
    if s != [] {
      FilterAfterRemove(s[1..], c);
      if s[0] != c {
        assert ([s[0]] + RemoveChar(s[1..], c))[1..] == RemoveChar(s[1..], c);
      }
    }
  }

  /** The two `replace` calls are subsumed by the `isprintable` filter. */
  lemma SanitiseIsOneFilter(content: string)
    ensures Filter(RemoveChar(RemoveChar(content, '\0'), '\r'), Kept) == Filter(content, Kept)
  {
    FilterAfterRemove(RemoveChar(content, '\0'), '\r');
    FilterAfterRemove(content, '\0');
  }

  /** Sanitising sanitised text changes nothing. */
  lemma SanitiseIdempotent(content: string)
    ensures Sanitise(Sanitise(content)) == Sanitise(content)
  {
    SanitiseIsOneFilter(content);
    SanitiseIsOneFilter(Sanitise(content));
    FilterIdempotent(content, Kept);
  }

  // ------------------------------------------------------------ csv reading

  /** The `csv` module's default `field_size_limit()`. */
  const FieldLimit: nat := 131072

  /** The lines the reader sees: a final newline ends the last line instead of opening a new one. */
  function CsvLines(content: string): (ls: seq<string>)
    ensures forall k :: 0 <= k < |ls| ==> '\n' !in ls[k]
  {
    var ls := Split(content, '\n');
    if ls[|ls| - 1] == [] then ls[..|ls| - 1] else ls
  }

  /** The row the reader makes of one line (no quoting): an empty line is the empty row. */
  function CsvFields(line: string): (fs: seq<string>)
    ensures line != [] ==> fs == Split(line, '\t')
    ensures fs == [] <==> line == []
  {
    if line == [] then [] else Split(line, '\t')
  }

  /** Reading this row raises `csv.Error: field larger than field limit`. */
  predicate Oversized(fields: seq<string>) {
    exists k :: 0 <= k < |fields| && |fields[k]| > FieldLimit
  }

  function CsvRows(content: string): (rows: seq<seq<string>>)
    ensures |rows| == |CsvLines(content)|
    ensures forall k :: 0 <= k < |rows| ==> rows[k] == CsvFields(CsvLines(content)[k])
  {
    var ls := CsvLines(content);
    seq(|ls|, k requires 0 <= k < |ls| => CsvFields(ls[k]))
  }

  /** The last column that carries `name` (the one `dict(zip(...))` keeps), or -1. */
  function LastIndex(header: seq<string>, name: string): (j: int)
    ensures -1 <= j < |header|
    ensures j >= 0 ==> header[j] == name
    ensures forall k :: j < k < |header| ==> header[k] != name
  {
    if header == [] then -1
    else if header[|header| - 1] == name then |header| - 1
    else LastIndex(header[..|header| - 1], name)
  }

  /**
   * `row.get(name, '')` on the dictionary `DictReader` builds: `''` for a
   * name the header lacks; Python's `None` (the Option's `None` here) when a
   * column carrying the name lies past the end of a short row, whose missing columns are set to
   * `restval = None` after the zip; otherwise the text of the last column
   * carrying the name.
   */
  function Get(header: seq<string>, row: seq<string>, name: string): (r: Option<string>)
    ensures name !in header ==> r == Some("")
    ensures name in header ==>
              (r.None? <==> exists k :: 0 <= k < |header| && header[k] == name && k >= |row|)
    ensures r.Some? && name in header ==>
              exists k :: && 0 <= k < |header| && k < |row| && header[k] == name && r.value == row[k]
                          && forall m :: k < m < |header| ==> header[m] != name
  {
    var j := LastIndex(header, name);
    assert j >= 0 ==> header[j] == name;
    if j < 0 then Some("")
    else if j < |row| then Some(row[j])
    else None
  }

  /**
   * The body of the `for row in csv_reader` loop for one row: `None` when
   * the row is skipped, either because one of the six `.strip()` calls met
   * `None` (caught as an exception) or because the accession is empty.
   */
  function DictRecord(header: seq<string>, row: seq<string>): (r: Option<ProteinRecord>)
    ensures r.Some? ==> WellFormed(r.value)
    ensures r.Some? <==> && Get(header, row, "Entry").Some? && Get(header, row, "Entry Name").Some?
                         && Get(header, row, "Protein names").Some? && Get(header, row, "Pfam").Some?
                         && Get(header, row, "OMA").Some? && Get(header, row, "Reviewed").Some?
                         && Strip(Get(header, row, "Entry").value) != []
  {
    var entry := Get(header, row, "Entry");
    var entryName := Get(header, row, "Entry Name");
    var proteinName := Get(header, row, "Protein names");
    var pfam := Get(header, row, "Pfam");
    var oma := Get(header, row, "OMA");
    var reviewed := Get(header, row, "Reviewed");
    if entry.None? || entryName.None? || proteinName.None? || pfam.None? || oma.None? || reviewed.None? then None
    else if Strip(entry.value) == [] then None
    else Some(ProteinRecord(Strip(entry.value), Strip(entryName.value), Strip(proteinName.value),
                            Strip(pfam.value), Strip(oma.value), StatusOf(reviewed.value)))
  }

  /** A data row as `DictReader` hands it over: empty rows are passed over. */
  function RowRecord(header: seq<string>, row: seq<string>): (r: Option<ProteinRecord>)
    ensures r.Some? ==> WellFormed(r.value)
    ensures row == [] ==> r.None?
  {
    if row == [] then None else DictRecord(header, row)
  }

  /** What reading one data row does: raise `csv.Error`, pass over the row, or append a record. */
  datatype RowResult = Raised | Skipped | Read(record: ProteinRecord)

  function ReadRow(header: seq<string>, row: seq<string>): (r: RowResult)
    ensures r.Raised? <==> Oversized(row)
    ensures r.Read? ==> WellFormed(r.record) && RowRecord(header, row) == Some(r.record)
    ensures r.Skipped? <==> !Oversized(row) && RowRecord(header, row).None?
  {
    if Oversized(row) then Raised
    else
      var rec := RowRecord(header, row);
      if rec.Some? then Read(rec.value) else Skipped
  }

  // -------------------------------------------------------- fall-back parse

  /** `parts[k].strip() if len(parts) > k else ''`. */
  function Column(parts: seq<string>, k: nat): (c: string)
    ensures k < |parts| ==> c == Strip(parts[k])
    ensures k >= |parts| ==> c == []
  {
    if k < |parts| then Strip(parts[k]) else ""
  }

  /**
   * One line of the positional parse: columns 0 to 5 are accession, entry
   * name, protein name, Pfam, OMA and the reviewed flag, `''` where the
   * line is short. The `line.strip()` guard is implied by the accession
   * guard, so a record is made exactly when the first tab-separated piece
   * is not blank.
   */
  function LineRecord(line: string): (r: Option<ProteinRecord>)
    ensures r.Some? <==> Strip(Split(line, '\t')[0]) != []
    ensures r.Some? ==> WellFormed(r.value)
  {
    var parts := Split(line, '\t');
    BlankLineBlankAccession(line);
    if Strip(line) == [] || Strip(parts[0]) == [] then None
    else Some(ProteinRecord(Column(parts, 0), Column(parts, 1), Column(parts, 2), Column(parts, 3), Column(parts, 4),
                            StatusOf(if |parts| > 5 then parts[5] else "")))
  }

  lemma BlankLineBlankAccession(line: string)
    ensures Strip(line) == [] ==> Strip(Split(line, '\t')[0]) == []
  {
    var first := Split(line, '\t')[0];
    StripEmptyIff(line);
    StripEmptyIff(first);
    assert first == line[..|first|];
  }

  /** The column order the query's `fields` parameter asks for. */
  const StandardHeader: seq<string> := ["Entry", "Entry Name", "Protein names", "Pfam", "OMA", "Reviewed"]

  /**
   * On a line with all six columns under the standard header, the
   * structured and the positional parse make the same record.
   */
  lemma FullRowsParseAlike(line: string)
    requires |Split(line, '\t')| >= 6
    ensures RowRecord(StandardHeader, CsvFields(line)) == LineRecord(line)
  {
    var parts := Split(line, '\t');
    assert line != [] by { assert |Split([], '\t')| == 1; }
    assert CsvFields(line) == parts;
    FullRowRecord(parts);
    FullLineRecord(line);
  }

  /** The positional parse of a line with all six columns. */
  lemma FullLineRecord(line: string)
    requires |Split(line, '\t')| >= 6
    ensures var parts := Split(line, '\t');
      LineRecord(line)
      == if Strip(parts[0]) == [] then None
         else Some(ProteinRecord(Strip(parts[0]), Strip(parts[1]), Strip(parts[2]), Strip(parts[3]), Strip(parts[4]),
                                 StatusOf(parts[5])))
  {
    BlankLineBlankAccession(line);
  }

  /** The structured parse of a full row under the standard header, column by column. */
  lemma FullRowRecord(row: seq<string>)
    requires |row| >= 6
    ensures DictRecord(StandardHeader, row)
            == if Strip(row[0]) == [] then None
               else Some(ProteinRecord(Strip(row[0]), Strip(row[1]), Strip(row[2]), Strip(row[3]), Strip(row[4]),
                                       StatusOf(row[5])))
  {
    StandardGet(row);
  }

  /** Under the standard header each of the six names reads its own column of a full row. */
  lemma StandardGet(row: seq<string>)
    requires |row| >= 6
    ensures Get(StandardHeader, row, "Entry") == Some(row[0])
    ensures Get(StandardHeader, row, "Entry Name") == Some(row[1])
    ensures Get(StandardHeader, row, "Protein names") == Some(row[2])
    ensures Get(StandardHeader, row, "Pfam") == Some(row[3])
    ensures Get(StandardHeader, row, "OMA") == Some(row[4])
    ensures Get(StandardHeader, row, "Reviewed") == Some(row[5])
  {
    StandardColumns();
    assert StandardHeader[0] == "Entry" && StandardHeader[1] == "Entry Name" && StandardHeader[2] == "Protein names";
    assert StandardHeader[3] == "Pfam" && StandardHeader[4] == "OMA" && StandardHeader[5] == "Reviewed";
  }

  /** Each name of the standard header is found at its own column. */
  lemma StandardColumns()
    ensures forall k :: 0 <= k < |StandardHeader| ==> LastIndex(StandardHeader, StandardHeader[k]) == k
  {
    forall k | 0 <= k < |StandardHeader| ensures LastIndex(StandardHeader, StandardHeader[k]) == k {
      var j := LastIndex(StandardHeader, StandardHeader[k]);
      assert k <= j;
      assert StandardHeader[j] == StandardHeader[k];
    }
  }

  /**
   * A short line (fewer than six columns) with a non-blank accession: the
   * structured parse skips it (the missing cells are `None`), while the
   * positional parse keeps it with `''` for the missing columns.
   */
  lemma ShortRowsOnlyInFallback(line: string)
    requires |Split(line, '\t')| < 6 && Strip(Split(line, '\t')[0]) != []
    ensures RowRecord(StandardHeader, CsvFields(line)).None?
    ensures LineRecord(line).Some? && LineRecord(line).value.status == TrEMBL
  {
    ShortRowNotStructured(line);
    ShortRowPositional(line);
  }

  lemma ShortRowNotStructured(line: string)
    requires |Split(line, '\t')| < 6
    ensures RowRecord(StandardHeader, CsvFields(line)).None?
  {
    StandardColumns();
    assert StandardHeader[5] == "Reviewed";
  }

  lemma ShortRowPositional(line: string)
    requires |Split(line, '\t')| < 6 && Strip(Split(line, '\t')[0]) != []
    ensures LineRecord(line).Some? && LineRecord(line).value.status == TrEMBL
  {
    assert Strip("") == "";
  }

  /**
   * The positional record reads the stripped tab-separated pieces 0 to 4 in
   * their fixed order, `''` for a piece the line lacks, and the status from
   * piece 5.
   */
  lemma LineRecordColumns(line: string)
    requires Strip(Split(line, '\t')[0]) != []
    ensures var parts := Split(line, '\t');
      var r := LineRecord(line).value;
      && r.accession == Strip(parts[0])
      && r.entryName == (if |parts| > 1 then Strip(parts[1]) else "")
      && r.proteinName == (if |parts| > 2 then Strip(parts[2]) else "")
      && r.pfamRefs == (if |parts| > 3 then Strip(parts[3]) else "")
      && r.omaRefs == (if |parts| > 4 then Strip(parts[4]) else "")
      && r.status == StatusOf(if |parts| > 5 then parts[5] else "")
  {
    BlankLineBlankAccession(line);
  }

}
