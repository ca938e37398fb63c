# find_orthos in Dafny

This project models the Pfam/OMA ortholog pipeline of the find_orthos
repository. The pipeline exists in three versions:

- `find_orthologues.py`, the "fast" bulk-query version. Only its first copy, lines 1-416, is modelled.
- `ortho_counts.py`, the per-accession version with the fingerprint fall-backs.
- `ortho_counts_old.py`, its predecessor.

Each version takes the proteins of one Pfam family and finds the OMA groups
that are frequent among them. For each such group it gathers the members that
lie outside the family, then lays out a text report. Every network answer is a
parameter of the model:

- the UniProt TSV stream for a query (`None` for a failed request);
- the OMA group size;
- the OMA group of an accession;
- the OMA API object and browser page of a group;
- the UniProt page of an accession;
- the members of a fingerprint;
- the description of an accession;
- the analysis date.

The family folder's `scores` and `DESC` files are given as sequences of lines,
or `None` when they are absent. Python dictionaries, which keep insertion
order, are sequences of pairs with distinct keys (module `Dicts`).

Modules, each in its own file:

| module | what it models |
|---|---|
| `Options`, `Text`, `Sorting`, `Orders`, `Dicts` | the Python library behaviour the scripts rely on: `strip`, `lower`, `split`, `split()`, `sorted` (stable, by key, reversed), `Counter`, dictionary assignment and lookup, string ordering, integer formatting |
| `Fingerprints` | the left-to-right, non-overlapping `[A-Z]{7}` scan, and the HTML fingerprint scrapers |
| `Records`, `ProteinTable` | `get_oma_proteins`: the query string, sanitising, the header-keyed row parse, the positional fall-back after a `csv.Error`, the Swiss-Prot/TrEMBL flag, and the fingerprint set |
| `Tally` | the `Counter` tally, the `>= min_count` threshold, and `filter_frequent_omas` |
| `FastAnalyzer`, `FastReport` | `analyze_pfam_family` and `generate_report` of `find_orthologues.py` |
| `FamilyFiles` | `read_pfam_scores_file` and `get_pfam_id_from_folder` (the same code in both `ortho_counts` files) |
| `OmaPipeline` | the parts both `ortho_counts` analyzers share: the batch mapping, the `oma_details` accumulation, the union of ids, the report head, and the line join |
| `OmaAnalyzer` | `ortho_counts.py`: the fingerprint fall-backs, the skip rules, the analysis, and the report |
| `OmaAnalyzerOld`, `Kingdoms` | `ortho_counts_old.py`: the analysis, the report with its kingdom block, and the two kingdom classifiers |

Where the code changes state step by step (the row loops, the tally loop, the
group loops, the scores and DESC loops, the report writers), the model is a
`method` with a loop. Each method is proved equal to a specification function,
and the properties are proved about that function. The decision lists, regular
expressions, comprehensions and the query string are functions.

Lines 30-204 of `ortho_counts.py` and `ortho_counts_old.py` are the same code,
except for `get_oma_fingerprint_from_group`. The rows below cite
`ortho_counts.py` for the shared part.

Three behaviours of the code that are easy to miss:

- The tally counts every textual match. A fingerprint repeated inside one record counts twice, not once per record.
- `find_orthologues.py` does not filter the outside-the-family candidates against the family's accessions again.
- After a `csv.Error`, the positional parse reads every line after the first again. It appends to the records the structured parse has already collected, so they can repeat.

## Model

| member | source | states |
|---|---|---|
| Records.BuildQuery | find_orthologues.py:48-61 | the query is `(xref:oma-F)`, `(P)` or `(NOT P)`, or `(xref:oma-F) AND P`/`AND NOT P` when both are given; with neither part given there is no query (the code's `query_parts[0]` raises) |
| Records.StatusOf | find_orthologues.py:106-107 | the status is Swiss-Prot exactly when the stripped flag spells `reviewed` in any case |
| Records.StatusName | find_orthologues.py:107 | the stored status text is `Swiss-Prot` or `TrEMBL` |
| Records.Sanitise | find_orthologues.py:87-88 | the result has no NUL and no `\r`, every character in it is printable or a tab or newline, it is a subsequence of the input, and it keeps every kept character as often as the input has it |
| Records.SanitiseIsOneFilter | find_orthologues.py:87-88 | removing NUL and `\r` first changes nothing: sanitising is the one printable-or-tab-or-newline filter |
| Records.SanitiseIdempotent | find_orthologues.py:87-88 | sanitising twice is sanitising once |
| Records.CsvFields | find_orthologues.py:97 | a non-empty line is split at tabs; an empty line gives the empty row that the reader passes over |
| Records.CsvRows | find_orthologues.py:97 | one row per line, each row the tab fields of its line |
| Records.LastIndex | find_orthologues.py:97 | a header name that occurs twice is looked up at its last column, as the dictionary a reader builds keeps the last one |
| Records.Get | find_orthologues.py:101-106 | a name missing from the header reads `''`; a name whose column the row lacks reads `None`; otherwise the cell of the last column carrying that name |
| Records.DictRecord | find_orthologues.py:101-121 | a record is made exactly when all six cells are present and the stripped accession is non-empty, and the record is well formed |
| Records.RowRecord | find_orthologues.py:99-121 | an empty row gives no record; any record is well formed |
| Records.ReadRow | find_orthologues.py:96-131 | a row raises `csv.Error` exactly when a field exceeds the reader's field size limit; otherwise it is read or passed over, as the row's record says |
| Records.Column | find_orthologues.py:147-149 | column k is the stripped piece k, or `''` when the line has fewer pieces |
| Records.LineRecord | find_orthologues.py:137-152 | a fall-back line gives a record exactly when its first tab piece is not blank, and the record is well formed |
| Records.LineRecordColumns | find_orthologues.py:140-152 | the fall-back record reads pieces 0 to 4 in the fixed order accession, entry name, protein name, Pfam, OMA, `''` for a missing piece, and the status from piece 5 |
| Records.BlankLineBlankAccession | find_orthologues.py:137-139 | a blank line has a blank first piece, so the `line.strip()` guard is implied by the accession guard |
| Records.StandardColumns | find_orthologues.py:66 | each of the six requested field names is looked up at its own column of the header |
| Records.StandardGet | find_orthologues.py:101-106 | under the requested header, each of the six names reads its own column of a full row |
| Records.FullRowRecord | find_orthologues.py:100-110 | under the requested header, a full row makes no record when its stripped accession is blank; otherwise the stripped columns 0 to 4 in order, with the status from column 5 |
| Records.FullLineRecord | find_orthologues.py:136-152 | a line with six or more tab-separated pieces makes no record when its stripped first piece is blank; otherwise the stripped pieces 0 to 4 in order, with the status from piece 5 |
| Records.FullRowsParseAlike | find_orthologues.py:101-152 | under the requested header, on a line with six or more columns, the structured and the positional parse make the same record |
| Records.ShortRowNotStructured | find_orthologues.py:101-129 | under the requested header, a row with fewer than six columns gives no structured record (a missing cell is `None`, and `.strip()` on it is caught) |
| Records.ShortRowPositional | find_orthologues.py:137-152 | the fall-back parse makes a TrEMBL record of any line whose short row has a non-blank accession |
| Records.ShortRowsOnlyInFallback | find_orthologues.py:99-152 | under the requested header, a short line with an accession is dropped by the structured parse and kept, as a TrEMBL record, by the fall-back |
| ProteinTable.RowResults | find_orthologues.py:99 | one outcome per data row, each the outcome of reading that row |
| ProteinTable.ReadRows | find_orthologues.py:96-131 | the structured loop emits only well-formed records |
| ProteinTable.ReadRowsFailsIff | find_orthologues.py:96-131 | the structured loop fails exactly when some row raises |
| ProteinTable.ReadRowsStops | find_orthologues.py:131 | nothing after the first raising row changes the structured result |
| ProteinTable.ReadTable | find_orthologues.py:96-131 | with the header row taken from the first line, every record is well formed |
| ProteinTable.ReadTableFailsIff | find_orthologues.py:96-131 | the table read fails exactly when some row, the header included, has an oversized field |
| ProteinTable.LineResults | find_orthologues.py:135 | one outcome per line after the first, each that line's fall-back outcome |
| ProteinTable.FallbackRecords | find_orthologues.py:133-159 | the fall-back records are all well formed |
| ProteinTable.ParseProteins | find_orthologues.py:93-159 | every record of either path has a non-empty stripped accession |
| ProteinTable.FingerprintsOf | find_orthologues.py:123-125 | only seven-letter upper-case fingerprints are collected, and each record's matches are all in the set |
| ProteinTable.FingerprintsOfAppend | find_orthologues.py:123-125 | one more record adds its matches, and only when its OMA field is non-empty |
| ProteinTable.FingerprintsHaveASource | find_orthologues.py:124-125 | every collected fingerprint is a match in some record's OMA field |
| ProteinTable.FetchedProteins | find_orthologues.py:71-170 | the protein list of a download is always well formed |
| ProteinTable.BlankDownloadYieldsNothing | find_orthologues.py:90-91 | a failed request, or content that is blank once sanitised, gives no records and no fingerprints |
| ProteinTable.GetOmaProteins | find_orthologues.py:71-170 | the method returns the download's protein list and exactly the union of its records' fingerprints |
| ProteinTable.ReadStructured | find_orthologues.py:96-129 | the row loop returns the structured records, the failure flag and their fingerprint set |
| ProteinTable.ReadPositional | find_orthologues.py:133-159 | the fall-back loop appends the fall-back records to those already read, and keeps the fingerprint set in step |
| ProteinTable.PositionalStep | find_orthologues.py:145 | one fall-back line appends its record, or nothing |
| ProteinTable.AppendRecord | find_orthologues.py:121-125 | appending a record updates the fingerprint set with its matches |
| Fingerprints.MatchStarts | find_orthologues.py:124 | the match positions form a left-to-right, non-overlapping scan that takes every run of seven capitals, as `re.findall` does |
| Fingerprints.ScanIsUnique | find_orthologues.py:124 | there is only one such scan, so the matches are determined by the text |
| Fingerprints.FindFrom | find_orthologues.py:124 | the matches from a position are the texts at the scan's positions, each a fingerprint |
| Fingerprints.FindFingerprints | find_orthologues.py:124 | every match is seven upper-case ASCII letters, and the matches are exactly the texts at the non-overlapping match starts of a left-to-right scan, in order |
| Fingerprints.NoRunNoFingerprint | find_orthologues.py:124 | a text with no run of seven capitals has no matches |
| Fingerprints.LabeledCapture | ortho_counts.py:209-212 | the captured group is seven characters of `[A-Z]` under `IGNORECASE`: the 52 ASCII letters plus İ, ı, ſ and the Kelvin sign |
| Fingerprints.LabeledSearch | ortho_counts.py:209-212 | `None` exactly when the label pattern occurs nowhere; otherwise the capture at its first occurrence |
| Fingerprints.FirstWordRun | ortho_counts.py:215-219 | `None` exactly when no word-bounded run of seven capitals exists; otherwise the first such run |
| Fingerprints.GroupPageFingerprint | ortho_counts.py:206-219 | the group page gives the labelled fingerprint when there is one, otherwise the first word-bounded run |
| Fingerprints.MemberPageFingerprint | ortho_counts.py:235-246 | a page with a group link gives the seven capitals after its first group link; a page without one gives the labelled `OMA` search |
| Text.Strip | find_orthologues.py:101 | the stripped text is a slice of the input with only whitespace before and after it, and it starts and ends with a non-space |
| Text.StripEmptyIff | find_orthologues.py:90 | stripping gives the empty text exactly when the text is all whitespace |
| Text.Lower | find_orthologues.py:106 | lower-casing maps each character, and only upper-case letters change |
| Text.RemoveChar | find_orthologues.py:87 | the character no longer occurs, and every other character is kept, in order |
| Text.Split | find_orthologues.py:133 | the pieces contain no separator, and joined with it they give the text back |
| Text.Words | ortho_counts.py:55 | whitespace splitting gives non-empty words without whitespace |
| Text.WordsStrip | ortho_counts.py:51-55 | splitting the stripped line gives the same words as splitting the line |
| Text.RStripChar | ortho_counts.py:84 | the trailing `;` characters are all removed |
| Text.NatToStringRoundTrip | find_orthologues.py:309 | the decimal text of a count reads back as that count |
| Text.LexLeTotal | find_orthologues.py:338 | any two strings are ordered one way or the other |
| Text.LexLeTransitive | find_orthologues.py:338 | the string order is transitive |
| Text.LexLeAntisymmetric | find_orthologues.py:338 | strings ordered both ways are equal |
| Sorting.SortBy | find_orthologues.py:320-321 | sorting permutes its input |
| Sorting.SortBySorted | find_orthologues.py:320-321 | sorting by a total preorder gives a sorted list |
| Sorting.SortByStable | find_orthologues.py:320-321 | sorting keeps the order of items with equal keys, as Python's sort does, also with `reverse=True` |
| Sorting.SortByCanonical | find_orthologues.py:338 | under an antisymmetric order, the sorted result depends only on the multiset of items, not on their listing order |
| Sorting.SortedUnique | find_orthologues.py:338 | two sorted permutations of each other are equal |
| Sorting.FilterFacts | find_orthologues.py:88 | the filter keeps only accepted items, in order, and each accepted item as often as the input has it |
| Sorting.FilterIdempotent | find_orthologues.py:88 | filtering twice is filtering once |
| Orders.SortedStrings | find_orthologues.py:338 | sorting distinct keys lists each once, strictly ascending, whatever their listing order |
| Orders.SortedByKey | find_orthologues.py:347 | sorting by a string key gives a sorted permutation |
| Dicts.Get | find_orthologues.py:324 | a lookup is `None` exactly for a missing key |
| Dicts.AssignKeys | find_orthologues.py:262 | assigning a new key appends it; assigning an existing key leaves the key order alone |
| Dicts.AssignGet | find_orthologues.py:262 | after an assignment the key reads the new value, and a new key goes at the end |
| Dicts.AssignOthers | find_orthologues.py:262 | an assignment leaves every other key's value alone |
| Dicts.GetFindsItem | find_orthologues.py:324 | with distinct keys, a stored pair is what a lookup finds |
| Dicts.MapItemsPointwise | find_orthologues.py:253-267 | building one entry per item keeps the items' keys in order, with each value computed from its own item |
| Dicts.CounterCounts | find_orthologues.py:234-241 | a `Counter` holds each item's number of occurrences |
| Dicts.CounterKeys | find_orthologues.py:234-241 | a `Counter`'s keys are the items in order of first appearance, each once |
| Dicts.UpdateCountsAppend | find_orthologues.py:241 | updating a counter with two lists in turn is updating it with their concatenation |
| Dicts.FirstAppearances | ortho_counts.py:174 | the first appearances list each item once, and exactly the items of the input |
| Tally.AllMatches | find_orthologues.py:239-241 | every tallied match is a fingerprint |
| Tally.TallyOmaCounts | find_orthologues.py:234-241 | the loop's counter is the `Counter` of all matches, and its accession set holds every record's accession |
| Tally.TallyStep | find_orthologues.py:237-241 | one record adds its accession, and its matches only when its OMA field is non-empty |
| Tally.TallyCountsEveryMatch | find_orthologues.py:237-241 | a fingerprint's count is its number of textual matches over all records, so a repeat inside one record counts twice |
| Tally.MatchesCounted | find_orthologues.py:240-241 | the matches list holds each fingerprint once per textual match |
| Tally.TallyKeysAreFingerprints | find_orthologues.py:234-241 | the counter's keys are exactly the fingerprints `get_oma_proteins` collected |
| Tally.MatchesAreFingerprints | find_orthologues.py:240 | the matches are exactly the collected fingerprints |
| Tally.CounterItem | find_orthologues.py:241 | a counter entry pairs an item with its number of occurrences, at least 1 |
| Tally.AtLeastItem | find_orthologues.py:244-245 | the threshold keeps exactly the entries whose count is at least `min_count`, unchanged |
| Tally.FrequentExactly | find_orthologues.py:244-245 | a frequent entry is a fingerprint with its full match count, which is at least `min_count` |
| Tally.FrequentMonotone | find_orthologues.py:244-245 | raising `min_count` can only remove entries, and keeps the others in order |
| Tally.ByCountDescIsPreorder | ortho_counts.py:181 | ordering by non-increasing count is a total preorder |
| Tally.FilterFrequentOmas | ortho_counts.py:170-183 | the loop builds the frequent groups sorted by count |
| Tally.AtLeastStep | ortho_counts.py:177-179 | one more counter entry is assigned exactly when its count reaches `min_count` |
| Tally.FrequentItems | ortho_counts.py:174-181 | a pair is a frequent group exactly when its count is the number of accessions mapped to that group and at least `min_count` |
| Tally.FrequentItem | ortho_counts.py:174-181 | the same for a single pair |
| Tally.FrequentDistinct | ortho_counts.py:174-181 | each frequent group appears once |
| Tally.FrequentByCountFacts | ortho_counts.py:174-181 | the frequent groups are exactly those pairs, each once, sorted by non-increasing count |
| Tally.FrequentTiesKeepOrder | ortho_counts.py:181 | groups with equal counts keep the order in which they first appear in the mapping |
| FamilyFiles.UniprotIdWithoutSpace | ortho_counts.py:62 | for a word, the id pattern, whose `$` allows a final newline, is the plain shape `[A-Z0-9]{6,10}` |
| FamilyFiles.PfamIdLength | ortho_counts.py:75 | an accepted Pfam id is `PF` and five digits, possibly followed by one newline |
| FamilyFiles.BeforeDot | ortho_counts.py:60 | the id is the longest prefix without a dot |
| FamilyFiles.BeforeDotOf | ortho_counts.py:60 | cutting `id.version` at its first dot gives the id back |
| FamilyFiles.ScoreLineId | ortho_counts.py:51-63 | a line gives an id only if it is not a comment and has two or more fields, and the id is the second field cut at its first dot, of the accepted shape |
| FamilyFiles.ScoreLineReadsId | ortho_counts.py:51-63 | conversely, such a line with a well-shaped id yields that id |
| FamilyFiles.StrippedFields | ortho_counts.py:51-55 | stripping the line keeps its fields, and its first character is the first field's |
| FamilyFiles.IdHasNoDot | ortho_counts.py:60-62 | an accepted id has no dot |
| FamilyFiles.ScoreIds | ortho_counts.py:50-63 | there are at most as many ids as lines, each of the accepted shape |
| FamilyFiles.ScoreIdsShaped | ortho_counts.py:62-63 | every listed id has the accepted shape |
| FamilyFiles.ScoreIdsAppend | ortho_counts.py:50-63 | ids keep file order: the ids of two blocks of lines are the ids of each in turn, duplicates kept |
| FamilyFiles.ScoreIdsFromLines | ortho_counts.py:50-63 | every listed id comes from some line |
| FamilyFiles.ReadPfamScores | ortho_counts.py:38-71 | a missing file gives no ids; otherwise the loop returns the ids of its lines |
| FamilyFiles.ReadScoreLine | ortho_counts.py:51-63 | one iteration of the line loop yields that line's id, if any |
| FamilyFiles.LastSlash | ortho_counts.py:74 | finds the last `/`, or -1 when there is none |
| FamilyFiles.Basename | ortho_counts.py:74 | a basename contains no `/` |
| FamilyFiles.BasenameOfJoin | ortho_counts.py:74 | the basename of `parent/name` is `name` |
| FamilyFiles.FolderName | ortho_counts.py:74 | the folder name contains no `/` |
| FamilyFiles.FolderNameTrailingSlash | ortho_counts.py:74 | a trailing `/` does not change the folder name |
| FamilyFiles.DescLine | ortho_counts.py:83-86 | an `AC ` line yields its second word without trailing `;` when that is a Pfam id; an `AC ` line with one word breaks the scan |
| FamilyFiles.DescAcLineNeverBreaks | ortho_counts.py:83-84 | an `AC ` line followed by a word does not break the scan |
| FamilyFiles.DescPfamId | ortho_counts.py:82-86 | the DESC scan returns only Pfam ids |
| FamilyFiles.DescPfamIdFound | ortho_counts.py:82-86 | a found id comes from the first `AC ` line that yields one |
| FamilyFiles.DescPfamIdSkips | ortho_counts.py:82-86 | lines that neither yield an id nor break the scan do not change its result |
| FamilyFiles.DescPfamIdNone | ortho_counts.py:82-90 | without a yielding line nothing is found |
| FamilyFiles.PfamIdFor | ortho_counts.py:73-90 | a valid folder name wins; otherwise the first valid `AC ` id of DESC; otherwise the folder name |
| FamilyFiles.PfamIdForIsPfamId | ortho_counts.py:73-90 | when the folder name or DESC has a valid id, the result is a valid Pfam id |
| FamilyFiles.GetPfamIdFromFolder | ortho_counts.py:73-90 | the method returns that id |
| FamilyFiles.ScanDesc | ortho_counts.py:82-86 | the DESC loop returns the scan's result |
| Kingdoms.KingdomFromTaxon | ortho_counts_old.py:312-350 | an empty, zero or missing taxon id gives Unknown |
| Kingdoms.TaxonTwoIsProkaryote | ortho_counts_old.py:322-326 | every id starting with `2` gives Archaea when it starts with `2157`, and Bacteria otherwise |
| Kingdoms.UnreachableKingdoms | ortho_counts_old.py:337-348 | Rhodophyta, Diplomonadida and Other Eukaryota are never returned, since their prefixes start with `2` |
| Kingdoms.EukaryoticPrefixes | ortho_counts_old.py:329-344 | each reachable eukaryotic kingdom is returned exactly for the ids with its prefix |
| Kingdoms.FirstEukaryoticPrefixes | ortho_counts_old.py:329-336 | the same, for Metazoa, Viridiplantae, Fungi and Amoebozoa |
| Kingdoms.LaterEukaryoticPrefixes | ortho_counts_old.py:339-344 | the same, for Cryptophyta, Ciliophora and Apicomplexa |
| Kingdoms.Excludes | ortho_counts_old.py:329-348 | an id with one prefix cannot start with a prefix that differs from it at a shared position |
| Kingdoms.LowerCharFull | ortho_counts_old.py:295 | full lower-casing maps each character other than U+0130 to one character |
| Kingdoms.LowerFullAppend | ortho_counts_old.py:295 | lower-casing a concatenation lower-cases each part |
| Kingdoms.KingdomFromLineage | ortho_counts_old.py:292-310 | an empty lineage gives Unknown |
| Kingdoms.LineageDecides | ortho_counts_old.py:295-310 | a non-empty lineage is decided by searching its lower-cased, space-joined text in the fixed order Bacteria, Archaea, Metazoa, Viridiplantae, Fungi, Eukaryota, Unknown |
| Kingdoms.LineageSearchedNameByName | ortho_counts_old.py:295-310 | since no search term contains a space, the same decision is made by searching each lineage name on its own |
| Kingdoms.ContainsAnyThree | ortho_counts_old.py:301-304 | `any` over three terms is the disjunction of the three searches |
| Kingdoms.JoinedSearch | ortho_counts_old.py:295 | a term without spaces occurs in the joined text exactly when it occurs in some lower-cased name |
| Kingdoms.SearchAcrossSpace | ortho_counts_old.py:295 | a term without spaces occurs in `a b` exactly when it occurs in `a` or in `b` |
| FastAnalyzer.AnalyzePfamFamily | find_orthologues.py:204-286 | the method returns the result of the code as written, whose early return for a family without fingerprints has no `min_count`; `Analysis` is the corrected result (see Findings) |
| FastAnalyzer.AsWrittenDiffersOnlyInMinCount | find_orthologues.py:222-231 | the code as written and the corrected analysis fail on the same inputs, and differ only in `min_count`, which is missing exactly for a family without fingerprints |
| FastAnalyzer.CollectGaps | find_orthologues.py:250-272 | the group loop builds one gap entry per frequent group, and the sum of the unique counts |
| FastAnalyzer.SumUniqueAppend | find_orthologues.py:269 | one more group adds its unique count to the total |
| FastAnalyzer.GroupGapsListsEveryGroup | find_orthologues.py:253-267 | `unique_to_oma` has one entry per frequent group, in order, each built from that group and its count |
| FastAnalyzer.SumUniqueZero | find_orthologues.py:269 | the total is 0 exactly when every group has an empty candidate list |
| FastAnalyzer.SumUniqueCoversEachGroup | find_orthologues.py:269 | the total is at least each group's count, as it sums without deduplication |
| FastAnalyzer.AnalysisFailsIff | find_orthologues.py:211-231 | the result is empty exactly for a malformed Pfam id or a family without proteins; otherwise it holds the id, the proteins and their count, and the summed total |
| FastAnalyzer.AnalysisFrequent | find_orthologues.py:237-245 | a frequent entry pairs a fingerprint with its match count over the family, which is at least `min_count` |
| FastAnalyzer.AnalysisGaps | find_orthologues.py:253-267 | each group's entry holds its family count, the group size, the proteins of the group outside the family (not filtered again), and their number |
| FastAnalyzer.AnalysisTotal | find_orthologues.py:269-281 | the total is 0 exactly when no group has candidates, and is at least each group's count |
| FastReport.StatusMessage | find_orthologues.py:362-367 | the call returns a message exactly when it does not raise |
| FastReport.LinesAppend | find_orthologues.py:296-360 | the text of two line blocks is their texts in turn |
| FastReport.Truncate80 | find_orthologues.py:351 | a name of at most 80 characters is kept; a longer one becomes its first 80 characters followed by `...` |
| FastReport.Truncate80Idempotent | find_orthologues.py:351 | truncating twice is truncating once |
| FastReport.FrequentLines | find_orthologues.py:323-329 | one line per frequent group |
| FastReport.ProteinLines | find_orthologues.py:349-352 | one line per protein |
| FastReport.FrequentListedByCount | find_orthologues.py:319-321 | frequent groups are listed by non-increasing count, each once, with ties in their original order |
| FastReport.GroupsListedByFingerprint | find_orthologues.py:338 | unique groups are listed in strictly ascending fingerprint order, each once |
| FastReport.ProteinsListedByAccession | find_orthologues.py:347 | proteins are listed by ascending accession, and those with the same accession keep their order |
| FastReport.RaisedTextStartsReport | find_orthologues.py:296-304 | the text left by an interrupted report is the start of the full report |
| FastReport.NoFingerprintResult | find_orthologues.py:222-231 | a family without fingerprints gives a result with no frequent groups, a total of 0 and no date |
| FastReport.NoFingerprintReport | find_orthologues.py:292-360 | such a result reports `Analysis Date: Unknown`, no frequent section, and the "No proteins found" line |
| FastReport.AsWrittenReportRaises | find_orthologues.py:222-231 | as written, the report of a family without fingerprints raises after the header lines, and the call returns nothing |
| FastReport.CorrectedReportIsWritten | find_orthologues.py:288-367 | with `min_count` in every result, the report is never interrupted |
| FastReport.GenerateReport | find_orthologues.py:288-367 | the writer produces the report text, or nothing for an empty result |
| FastReport.WriteFrequentSection | find_orthologues.py:315-330 | the frequent section, written line by line |
| FastReport.WriteUniqueSection | find_orthologues.py:333-357 | the unique section, written line by line |
| FastReport.WriteFrequentGroups | find_orthologues.py:323-329 | the frequent group lines, in sorted order |
| FastReport.WriteGroupBlocks | find_orthologues.py:338-354 | one block per group that has candidates, in fingerprint order |
| FastReport.WriteProteins | find_orthologues.py:349-352 | the protein lines, in accession order |
| OmaPipeline.BatchGetOmaFingerprints | ortho_counts.py:153-168 | the loop builds the accession-to-group mapping |
| OmaPipeline.BatchMappingExactly | ortho_counts.py:157-163 | the mapping has distinct keys and holds exactly the pairs of a listed accession and its non-empty group |
| OmaPipeline.OutsideFamilyFacts | ortho_counts.py:337 | the members outside the family are listed once each, are exactly the members minus the family, and are no more than the members |
| OmaPipeline.CollectStep | ortho_counts.py:307-346 | one more group assigns its entry when it has one, keeps the keys among the visited groups, and adds its ids to the union |
| OmaPipeline.CollectNext | ortho_counts.py:307-346 | the details after one more group are the earlier details, with that group's entry assigned when it has one |
| OmaPipeline.UnionOfIdsAppend | ortho_counts.py:339 | one more group adds its ids to the union |
| OmaPipeline.CollectExactly | ortho_counts.py:307-346 | the details have distinct keys, every key is a frequent group, and each frequent group's lookup is its entry, or `None` when skipped |
| OmaPipeline.UnionOfIdsMember | ortho_counts.py:339 | an id is in the union exactly when some group lists it |
| OmaPipeline.CollectedFrom | ortho_counts.py:341 | every details entry is the entry of some frequent group |
| OmaPipeline.CollectTotal | ortho_counts_old.py:372-395 | when no group is skipped, the details have exactly the frequent groups' keys, in order |
| OmaPipeline.UnionOutsideFamily | ortho_counts.py:337-339 | a union of per-group ids that each lie outside the family also lies outside it, and holds each group's ids |
| OmaPipeline.SummaryLines | ortho_counts.py:371-388 | the report head has 16 lines, starting with the rule and the title |
| OmaPipeline.JoinSnoc | ortho_counts.py:432 | joining with one more line appends a newline and that line |
| OmaPipeline.JoinPrefix | ortho_counts.py:432 | joining two non-empty blocks puts one newline between their joins |
| OmaPipeline.JoinFrame | ortho_counts.py:430-432 | the joined text starts with its first two lines and ends with its last line, with no trailing newline |
| OmaAnalyzer.PageFingerprint | ortho_counts.py:202-219 | an OK reply gives the group page scrape of its body; any other reply gives `None` |
| OmaAnalyzer.GroupFingerprint | ortho_counts.py:185-224 | a request error gives `None`; an OK API reply gives `fingerprint` before `group_id`; only then (on a status other than 200, or an OK reply with neither field) the scraped page, whose capture is seven `IGNORECASE` `[A-Z]` characters |
| OmaAnalyzer.MemberFingerprint | ortho_counts.py:226-251 | an OK reply gives the member page scrape of its body, seven `IGNORECASE` `[A-Z]` characters; any other reply gives `None` |
| OmaAnalyzer.FirstMemberFingerprint | ortho_counts.py:314-321 | the member fall-back gives only non-empty fingerprints |
| OmaAnalyzer.FirstMemberIsFirst | ortho_counts.py:314-321 | the fall-back finds a fingerprint exactly when some member of the group, in mapping order, gives one, and it takes the first such member's |
| OmaAnalyzer.FingerprintFor | ortho_counts.py:310-321 | the resolved fingerprint is never empty |
| OmaAnalyzer.FindMemberFingerprint | ortho_counts.py:314-321 | the early-exit loop finds a fingerprint exactly when the fall-back does, and the same one |
| OmaAnalyzer.ResolveFingerprint | ortho_counts.py:310-321 | the group, then member, resolution finds a fingerprint exactly when the specification does, and the same one |
| OmaAnalyzer.NewEntry | ortho_counts.py:310-346 | a group is skipped exactly when it has no fingerprint or no members; otherwise its entry holds its count, the fingerprint, the member count, and exactly the members outside the family |
| OmaAnalyzer.AnalyzePfamFamily | ortho_counts.py:287-365 | the method returns the analysis of the folder |
| OmaAnalyzer.CollectGroups | ortho_counts.py:304-348 | the group loop builds the details and the union of their ids |
| OmaAnalyzer.AnalysisFailsIff | ortho_counts.py:288-300 | the result is empty exactly when the scores file gives no ids or no id maps to a group |
| OmaAnalyzer.AnalysisGroups | ortho_counts.py:307-346 | the details have distinct keys among the frequent groups, and each frequent group's lookup is its entry, or absent when skipped |
| OmaAnalyzer.AnalysisUnique | ortho_counts.py:337-361 | the unique ids are disjoint from the family, each group's ids lie outside the family and inside the union, and an id is unique exactly when some group lists it |
| OmaAnalyzer.FrequentLines | ortho_counts.py:389-392 | one line per frequent group |
| OmaAnalyzer.EntryLines | ortho_counts.py:423-424 | one line per entry |
| OmaAnalyzer.FrequentLineMissing | ortho_counts.py:389-392 | a group missing from the details is printed with fingerprint `Unknown` and 0 members |
| OmaAnalyzer.SkippedGroupShowsUnknown | ortho_counts.py:389-392 | a skipped group is absent from the details and is printed that way |
| OmaAnalyzer.GroupsListedById | ortho_counts.py:403-418 | the listed groups are exactly the details entries with ids, each once, in strictly ascending group id order |
| OmaAnalyzer.EntriesListedById | ortho_counts.py:421 | a group's entries are listed once each, in strictly ascending id order, whatever the set's order |
| OmaAnalyzer.ReportShape | ortho_counts.py:371-432 | the report starts with the rule and title lines and ends with the rule, without a trailing newline |
| OmaAnalyzer.GenerateReport | ortho_counts.py:367-442 | the writer returns the report text |
| OmaAnalyzer.WriteFrequentLines | ortho_counts.py:389-392 | the frequent group lines, in the order of the frequent groups |
| OmaAnalyzer.WriteUniqueSection | ortho_counts.py:395-428 | the unique section, or the single "No UniProt IDs found" line |
| OmaAnalyzer.WriteGroupBlocks | ortho_counts.py:415-426 | one block per listed group |
| OmaAnalyzer.WriteEntries | ortho_counts.py:423-424 | the entry lines of a group |
| OmaAnalyzerOld.GroupFingerprint | ortho_counts_old.py:185-204 | only an OK reply gives a fingerprint: its `fingerprint`, or the group id when the key is missing |
| OmaAnalyzerOld.UsedFingerprint | ortho_counts_old.py:376-379 | the used fingerprint is the reply's non-empty one, or else the group id |
| OmaAnalyzerOld.Entry | ortho_counts_old.py:383-395 | each group's entry holds its count, the used fingerprint, the member count and exactly the members outside the family |
| OmaAnalyzerOld.AnalyzePfamFamily | ortho_counts_old.py:352-414 | the method returns the analysis of the folder |
| OmaAnalyzerOld.CollectGroups | ortho_counts_old.py:369-397 | the group loop builds the details and the union of their ids |
| OmaAnalyzerOld.AnalysisFailsIff | ortho_counts_old.py:353-365 | the result is empty exactly when the scores file gives no ids or no id maps to a group |
| OmaAnalyzerOld.AnalysisGroups | ortho_counts_old.py:372-395 | every frequent group has an entry, in order, and each lookup is that group's entry |
| OmaAnalyzerOld.AnalysisUnique | ortho_counts_old.py:386-410 | the unique ids are disjoint from the family, each group's ids lie inside the union, and an id is unique exactly when some group lists it, so it is counted once |
| OmaAnalyzerOld.FrequentLines | ortho_counts_old.py:438-440 | one line per frequent group |
| OmaAnalyzerOld.GroupEntries | ortho_counts_old.py:451-468 | each id of a group becomes an entry with its description and the group |
| OmaAnalyzerOld.EntryIds | ortho_counts_old.py:464-468 | the entries' ids, in order |
| OmaAnalyzerOld.EntryLines | ortho_counts_old.py:478-479 | one line per entry |
| OmaAnalyzerOld.Report | ortho_counts_old.py:416-497 | the report raises exactly when a frequent group lacks details |
| OmaAnalyzerOld.AnalysisReportIsWritten | ortho_counts_old.py:438-440 | an analysis result always details every frequent group, so its report never raises |
| OmaAnalyzerOld.EntriesCoverUnique | ortho_counts_old.py:451-468 | the kingdom block lists exactly the unique ids |
| OmaAnalyzerOld.EntriesListedById | ortho_counts_old.py:476 | entries are listed by ascending id, and those with the same id keep their order |
| OmaAnalyzerOld.UniqueIdsGiveKingdomBlock | ortho_counts_old.py:443-472 | when there are unique ids, the kingdom block has entries |
| OmaAnalyzerOld.ReportShape | ortho_counts_old.py:420-487 | the report starts with the rule and title lines and ends with the rule, without a trailing newline |
| OmaAnalyzerOld.GenerateReport | ortho_counts_old.py:416-497 | the writer returns the report text, or nothing when it raises |
| OmaAnalyzerOld.WriteFrequentLines | ortho_counts_old.py:436-441 | the lines fail exactly when a frequent group lacks details; otherwise they are the frequent lines |
| OmaAnalyzerOld.WriteUniqueSection | ortho_counts_old.py:443-483 | the unique section, or the single "No UniProt IDs found" line |
| OmaAnalyzerOld.CollectKingdomEntries | ortho_counts_old.py:448-468 | the loop gathers the kingdom block's entries |
| OmaAnalyzerOld.WriteEntries | ortho_counts_old.py:478-479 | the entry lines |

## Left out

- HTTP requests, status codes, `raise_for_status`, timeouts and JSON decoding. Their results are parameters: `Option`/`Reply` values and functions from a query, id or fingerprint to the answer.
- `get_total_oma_group_size`, `get_oma_fingerprint`, `get_uniprot_ids_with_oma_fingerprint` and `get_uniprot_description` are network calls. Their results are the parameters `groupSize`, `omaGroupOf`, `membersWith` and `describe`.
- `get_oma_group_members_with_valid_uniprot` and `_validate_uniprot_id` in `ortho_counts_old.py` are network calls that the analysis never uses. They are not part of this model. The kingdom classifiers are modelled on their own.
- The gzip decompression and the uncompressed re-fetch (find_orthologues.py:76-85): the download is the decoded text.
- `time.sleep`, logging, `argparse`, `main`, `sys.exit` and the `os.path.exists` checks: they do not affect results. A missing scores or DESC file is `None`.
- File opening and writing, and `IOError`: the scores and DESC files are line sequences, and a report is returned as text or lines.
- `time.strftime`: the analysis date is a parameter.
- `csv.DictReader` quoting, escaping and dialects: rows are tab splits with a header lookup. The only `csv.Error` modelled is the field size limit (131072 characters).
- The Unicode meaning of `str.isprintable`, `str.isspace`/`\s` and `\w`: they are predicates whose ASCII part follows Python. Upper- and lower-casing are exact only for ASCII plus the non-ASCII characters that change case into ASCII.
- JSON values that are not strings (for example a numeric fingerprint) are not modelled. A taxon id may be text, a number or null.
- Python sets that are listed, such as a group's `uniprot_ids`, are sequences without duplicates in some order. Each report sorts them, and the ordering lemmas show that the text does not depend on that order.
- The shell transcript and the duplicated program in find_orthologues.py:418-854.
- Kingdoms.KingdomFromTaxon: its ensures states only the empty case. The prefix decisions are stated by TaxonTwoIsProkaryote, UnreachableKingdoms and EukaryoticPrefixes.
- Kingdoms.KingdomFromLineage: its ensures states only the empty case. The decision order is stated by LineageDecides and LineageSearchedNameByName.

## Findings

| source | as written | input that shows it | evidently intended | confidence | as-written member | corrected member |
|---|---|---|---|---|---|---|
| find_orthologues.py:222-231 and find_orthologues.py:302 | the early return for a family without OMA fingerprints has no `min_count` key, so `generate_report` raises `KeyError` after writing the four header lines, and no message is returned | a valid Pfam id whose proteins all have OMA fields without seven-capital runs | the early return carries `min_count` like the full result, and the report says "No proteins found that are unique to OMA groups." | not executed | FastReport.AsWrittenReportRaises | FastReport.CorrectedReportIsWritten |
