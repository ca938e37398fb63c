/**
 * Reading a Pfam family folder (ortho_counts.py, ortho_counts_old.py): the
 * UniProt accessions listed in its `scores` file, and the family's Pfam id,
 * taken from the folder's name or else from the `AC` line of its `DESC`
 * file. What the files hold is given as their lines, each as Python's text
 * iteration yields it; `None` stands for a file that does not exist.
 */
module FamilyFiles {
  import opened Options
  import opened Text

  // ------------------------------------------------------------ identifiers

  /** `[A-Z0-9]` without IGNORECASE: an ASCII capital or digit. */
  predicate IsIdChar(c: char) { IsUpper(c) || IsDigit(c) }

  /** Six to ten characters, each `[A-Z0-9]`. */
  predicate IdShaped(s: string) {
    6 <= |s| <= 10 && forall k :: 0 <= k < |s| ==> IsIdChar(s[k])
  }

  /** `re.match(r'^[A-Z0-9]{6,10}$', s)`: `$` also matches just before one final newline. */
  predicate IsUniprotId(s: string) {
    IdShaped(s) || (s != [] && s[|s| - 1] == '\n' && IdShaped(s[..|s| - 1]))
  }

  /** `re.match(r'^PF\d{5}$', s)`, with `\d` any Unicode decimal digit and the same `$` rule. */
  predicate IsPfamId(s: string) {
    PfamShaped(s) || (s != [] && s[|s| - 1] == '\n' && PfamShaped(s[..|s| - 1]))
  }

  predicate PfamShaped(s: string) {
    |s| == 7 && s[..2] == "PF" && forall k :: 2 <= k < 7 ==> IsDecimal(s[k])
  }

  /** A string without whitespace passes the accession pattern exactly when it has the plain shape. */
  lemma UniprotIdWithoutSpace(s: string)
    requires NoSpace(s)
    ensures IsUniprotId(s) <==> IdShaped(s)
  {
    if s != [] {
      assert !IsSpace(s[|s| - 1]);
    }
  }

  /** A Pfam id is seven characters, or eight when the eighth is the newline `$` lets through. */
  lemma PfamIdLength(s: string)
    requires IsPfamId(s)
    ensures |s| == 7 || (|s| == 8 && s[7] == '\n' && PfamShaped(s[..7]))
  {
  }

  // ------------------------------------------------------------ scores file

  /** `potential.split('.')[0] if '.' in potential else potential`. */
  function BeforeDot(s: string): (r: string)
    ensures StartsWith(s, r) && '.' !in r
    ensures |r| == |s| || s[|r|] == '.'
  {
    if '.' in s then s[..FirstIndex(s, '.')] else s
  }

  /** Text that already ends before its first `.` is its own prefix. */
  lemma BeforeDotOf(id: string, suffix: string)
    requires '.' !in id && (suffix == [] || suffix[0] == '.')
    ensures BeforeDot(id + suffix) == id
  {
    if suffix != [] {
      FirstIndexAfter(id, suffix, '.');
      assert (id + suffix)[..|id|] == id;
    } else {
      assert id + suffix == id;
    }
  }

  /**
   * The accession one line of `scores` contributes: the second
   * whitespace-separated field up to its first `.`, when the stripped line is
   * not blank, is not a `#` comment, and that text passes the accession
   * pattern.
   */
  function ScoreLineId(line: string): (r: Option<string>)
    ensures r.Some? ==> IdShaped(r.value)
    ensures r.Some? ==> |Words(line)| >= 2 && Words(line)[0][0] != '#'
                        && r.value == BeforeDot(Words(line)[1])
  {
    var t := Strip(line);
    if t == [] || t[0] == '#' then None
    else
      WordsStrip(line);
      StripFirstWord(line);
      var parts := Words(t);
      if |parts| < 2 then None
      else
        var id := BeforeDot(parts[1]);
        BeforeDotNoSpace(parts[1]);
        UniprotIdWithoutSpace(id);
        if IsUniprotId(id) then Some(id) else None
  }

  /** A field cut at its first `.` is still free of whitespace. */
  lemma BeforeDotNoSpace(w: string)
    requires NoSpace(w)
    ensures NoSpace(BeforeDot(w))
  {
    var id := BeforeDot(w);
    assert forall k :: 0 <= k < |id| ==> id[k] == w[k];
  }

  /**
   * A line whose first field is not a comment and whose second field is an
   * accession, perhaps followed by `.version` and more, yields that accession.
   */
  lemma ScoreLineReadsId(line: string, id: string, suffix: string)
    requires |Words(line)| >= 2 && Words(line)[0][0] != '#'
    requires Words(line)[1] == id + suffix && IdShaped(id) && (suffix == [] || suffix[0] == '.')
    ensures ScoreLineId(line) == Some(id)
  {
    IdHasNoDot(id);
    BeforeDotOf(id, suffix);
    assert IsUniprotId(id);
    StrippedFields(line);
  }

  /** A line with fields strips to a non-blank line that starts with the first field. */
  lemma StrippedFields(line: string)
    requires Words(line) != []
    ensures Strip(line) != [] && Words(Strip(line)) == Words(line) && Strip(line)[0] == Words(line)[0][0]
  {
    WordsStrip(line);
    assert Words([]) == [];
    StripFirstWord(line);
  }

  lemma IdHasNoDot(id: string)
    requires IdShaped(id)
    ensures '.' !in id
  {
    forall k | 0 <= k < |id| ensures id[k] != '.' {
      assert IsIdChar(id[k]);
    }
  }

  /** The accessions of `scores`, line by line and in order, duplicates kept. */
  function ScoreIds(lines: seq<string>): (ids: seq<string>)
    ensures |ids| <= |lines|
    ensures forall k :: 0 <= k < |ids| ==> IdShaped(ids[k])
  {
    ScoreIdsShaped(lines);
    Picked(lines, ScoreLineId)
  }

  lemma ScoreIdsShaped(lines: seq<string>)
    ensures forall k :: 0 <= k < |Picked(lines, ScoreLineId)| ==> IdShaped(Picked(lines, ScoreLineId)[k])
  {
    var ids := Picked(lines, ScoreLineId);
    forall k | 0 <= k < |ids| ensures IdShaped(ids[k]) {
      PickedFrom(lines, ScoreLineId, ids[k]);
      var j :| 0 <= j < |lines| && ScoreLineId(lines[j]) == Some(ids[k]);
    }
  }

  /** Reading two files one after the other is reading their concatenation. */
  lemma ScoreIdsAppend(a: seq<string>, b: seq<string>)
    ensures ScoreIds(a + b) == ScoreIds(a) + ScoreIds(b)
  {
    PickedAppend(a, b, ScoreLineId);
  }

  /** Each accession read comes from some line of the file. */
  lemma ScoreIdsFromLines(lines: seq<string>, id: string)
    requires id in ScoreIds(lines)
    ensures exists k :: 0 <= k < |lines| && ScoreLineId(lines[k]) == Some(id)
  {
    PickedFrom(lines, ScoreLineId, id);
  }

  /** `read_pfam_scores_file`: no accessions when the file does not exist. */
  method ReadPfamScores(scores: Option<seq<string>>) returns (ids: seq<string>)
    ensures scores.None? ==> ids == []
    ensures scores.Some? ==> ids == ScoreIds(scores.value)
  {
    ids := [];
    if scores.None? {
      return;
    }
    var lines := scores.value;
    for i := 0 to |lines|
      invariant ids == ScoreIds(lines[..i])
    {
      PickedStep(lines, ScoreLineId, i);
      var id := ReadScoreLine(lines[i]);
      if id.Some? {
        ids := ids + [id.value];
      }
    }
    assert lines[..|lines|] == lines;
  }

  /** The body of the loop over the lines of `scores`, its `continue`s as early returns. */
  method ReadScoreLine(line: string) returns (id: Option<string>)
    ensures id == ScoreLineId(line)
  {
    var t := Strip(line);
    if t == [] || t[0] == '#' {
      return None;
    }
    var parts := Words(t);
    if |parts| < 2 {
      return None;
    }
    var potential := BeforeDot(parts[1]);
    id := if IsUniprotId(potential) then Some(potential) else None;
  }

  // ------------------------------------------------------------ folder name

  /** `p.rfind('/')`: the index of the last `/`, or -1. */
  function LastSlash(p: string): (i: int)
    ensures -1 <= i < |p|
    ensures i >= 0 ==> p[i] == '/'
    ensures forall k :: i < k < |p| ==> p[k] != '/'
  {
    if p == [] then -1
    else if p[|p| - 1] == '/' then |p| - 1
    else LastSlash(p[..|p| - 1])
  }

  /** `os.path.basename(p)` for POSIX paths: what follows the last `/`. */
  function Basename(p: string): (b: string)
    ensures '/' !in b
  {
    p[LastSlash(p) + 1..]
  }

  /** The base name of `parent/name` is `name`. */
  lemma BasenameOfJoin(parent: string, name: string)
    requires '/' !in name
    ensures Basename(parent + "/" + name) == name
  {
    var p := parent + "/" + name;
    assert p[|parent|] == '/';
    assert forall k :: |parent| < k < |p| ==> p[k] == name[k - |parent| - 1];
    assert LastSlash(p) == |parent|;
    assert p[|parent| + 1..] == name;
  }

  /** `os.path.basename(pfam_folder.rstrip('/'))`. */
  function FolderName(folder: string): (name: string)
    ensures '/' !in name
  {
    Basename(RStripChar(folder, '/'))
  }

  /** Trailing slashes do not change the folder name. */
  lemma FolderNameTrailingSlash(folder: string)
    ensures FolderName(folder + "/") == FolderName(folder)
  {
    assert (folder + "/")[..|folder|] == folder;
  }

  // ------------------------------------------------------------ DESC file

  /** What one line of `DESC` does to the scan. */
  datatype DescStep =
    | Pass           // not an `AC ` line, or one whose id does not match
    | Found(id: string)
    | Broken         // `line.split()[1]` raises `IndexError`, which ends the scan

  function DescLine(line: string): (step: DescStep)
    ensures step.Found? ==> IsPfamId(step.id) && StartsWith(line, "AC ")
                            && |Words(line)| >= 2 && step.id == RStripChar(Words(line)[1], ';')
    ensures step.Broken? <==> StartsWith(line, "AC ") && |Words(line)| < 2
  {
    if !StartsWith(line, "AC ") then Pass
    else
      var parts := Words(line);
      if |parts| < 2 then Broken
      else
        var id := RStripChar(parts[1], ';');
        if IsPfamId(id) then Found(id) else Pass
  }

  /** An `AC` line of `DESC` whose one word follows a single space, such as `AC PF00001.23;`, never breaks the scan. */
  lemma DescAcLineNeverBreaks(rest: string)
    requires rest != [] && NoSpace(rest)
    ensures !DescLine("AC " + rest).Broken?
  {
    var line := "AC " + rest;
    assert line == "AC" + (" " + rest);
    WordsCons("AC", " " + rest);
    WordsSkipSpace(" " + rest);
    assert (" " + rest)[1..] == rest;
    WordsCons(rest, []);
    assert rest + [] == rest;
  }

  /** The scan's result: the id of the first line that is `Found`, unless a `Broken` line comes first. */
  function DescPfamId(lines: seq<string>): (r: Option<string>)
    ensures r.Some? ==> IsPfamId(r.value)
  {
    if lines == [] then None
    else match DescLine(lines[0])
      case Found(id) => Some(id)
      case Broken => None
      case Pass => DescPfamId(lines[1..])
  }

  /** An id the scan returns is that of an `AC` line which only lines that pass precede. */
  lemma {:induction false} DescPfamIdFound(lines: seq<string>)
    requires DescPfamId(lines).Some?
    ensures exists k :: && 0 <= k < |lines| && DescLine(lines[k]) == Found(DescPfamId(lines).value)
                        && forall j :: 0 <= j < k ==> DescLine(lines[j]).Pass?
  {
    if DescLine(lines[0]).Found? {
      assert DescLine(lines[0]) == Found(DescPfamId(lines).value);
    } else {
      var r := DescPfamId(lines[1..]);
      DescPfamIdFound(lines[1..]);
      var k :| && 0 <= k < |lines[1..]| && DescLine(lines[1..][k]) == Found(r.value)
               && forall j :: 0 <= j < k ==> DescLine(lines[1..][j]).Pass?;
      assert DescLine(lines[k + 1]) == Found(r.value);
      forall j | 1 <= j < k + 1 ensures DescLine(lines[j]).Pass? {
        assert lines[j] == lines[1..][j - 1];
      }
    }
  }

  /** Lines that pass are skipped: the scan goes on from the first line that does not. */
  lemma {:induction false} DescPfamIdSkips(lines: seq<string>, k: nat)
    requires k <= |lines| && forall j :: 0 <= j < k ==> DescLine(lines[j]).Pass?
    ensures DescPfamId(lines) == DescPfamId(lines[k..])
  {
    if k > 0 {
      assert DescLine(lines[0]).Pass?;
      DescPfamIdSkips(lines[1..], k - 1);
      assert lines[1..][k - 1..] == lines[k..];
    }
  }

  /** Without any matching `AC` line the scan finds nothing. */
  lemma {:induction false} DescPfamIdNone(lines: seq<string>)
    requires forall k :: 0 <= k < |lines| ==> !DescLine(lines[k]).Found?
    ensures DescPfamId(lines).None?
  {
    if lines != [] {
      assert !DescLine(lines[0]).Found?;
      DescPfamIdNone(lines[1..]);
    }
  }

  /**
   * `get_pfam_id_from_folder`: the folder's name when it is a Pfam id;
   * otherwise the id of the first matching `AC` line of `DESC`; otherwise
   * the folder's name.
   */
  function PfamIdFor(folder: string, desc: Option<seq<string>>): (id: string)
    ensures id == FolderName(folder) || (desc.Some? && DescPfamId(desc.value) == Some(id))
    ensures IsPfamId(FolderName(folder)) ==> id == FolderName(folder)
  {
    var name := FolderName(folder);
    if IsPfamId(name) then name
    else if desc.Some? && DescPfamId(desc.value).Some? then DescPfamId(desc.value).value
    else name
  }

  /** The result is a Pfam id whenever the folder's name or `DESC` supplies one. */
  lemma PfamIdForIsPfamId(folder: string, desc: Option<seq<string>>)
    requires IsPfamId(FolderName(folder)) || (desc.Some? && DescPfamId(desc.value).Some?)
    ensures IsPfamId(PfamIdFor(folder, desc))
  {
  }

  method GetPfamIdFromFolder(folder: string, desc: Option<seq<string>>) returns (id: string)
    ensures id == PfamIdFor(folder, desc)
  {
    var name := FolderName(folder);
    if IsPfamId(name) {
      return name;
    }
    if desc.Some? {
      var found := ScanDesc(desc.value);
      if found.Some? {
        return found.value;
      }
    }
    return name;
  }

  /** The `for line in f` loop over `DESC`, left by `return` or by the caught `IndexError`. */
  method ScanDesc(lines: seq<string>) returns (found: Option<string>)
    ensures found == DescPfamId(lines)
  {
    var i := 0;
    while i < |lines|
      invariant 0 <= i <= |lines|
      invariant DescPfamId(lines) == DescPfamId(lines[i..])
    {
      var rest := lines[i..];
      assert rest[0] == lines[i] && rest[1..] == lines[i + 1..];
      match DescLine(lines[i]) {
        case Broken =>
          return None;
        case Found(acc) =>
          return Some(acc);
        case Pass =>
          DescPfamIdSkips(rest, 1);
      }
      i := i + 1;
    }
    return None;
  }
}
