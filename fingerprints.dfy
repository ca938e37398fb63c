/**
 * Extracting OMA fingerprints (seven-letter group codes) from text: the
 * `re.findall(r'[A-Z]{7}', ...)` scan over a protein's OMA cross-reference
 * field, and the first-match scrapers over an OMA group page or a UniProt
 * entry page.
 */
module Fingerprints {
  import opened Options
  import opened Text

  const FingerprintLength: nat := 7

  /** A fingerprint: exactly seven upper-case ASCII letters. */
  predicate IsFingerprint(f: string) {
    |f| == FingerprintLength && forall k :: 0 <= k < |f| ==> IsUpper(f[k])
  }

  /** `[A-Z]{7}` matches the text at position `p`. */
  predicate UpperRunAt(s: string, p: int) {
    0 <= p && p + FingerprintLength <= |s| && forall k :: p <= k < p + FingerprintLength ==> IsUpper(s[k])
  }

  /**
   * Every position in `ps` starts a run of seven capitals at or after `i`,
   * and each one lies at least seven past the one before: the matches do
   * not overlap and come left to right.
   */
  ghost predicate Spaced(s: string, i: int, ps: seq<nat>)
    decreases |ps|
  {
    ps == [] || (i <= ps[0] && UpperRunAt(s, ps[0]) && Spaced(s, ps[0] + FingerprintLength, ps[1..]))
  }

  /** Position `q` lies inside one of the matches starting at `ps`. */
  ghost predicate Covers(ps: seq<nat>, q: int)
    decreases |ps|
  {
    ps != [] && ((ps[0] <= q < ps[0] + FingerprintLength) || Covers(ps[1..], q))
  }

  /**
   * What a left-to-right, non-overlapping scan from `i` reports: spaced
   * matches such that every run of seven capitals at or after `i` starts
   * inside one of them (none is missed).
   */
  ghost predicate IsScan(s: string, i: nat, ps: seq<nat>) {
    Spaced(s, i, ps) && forall q :: i <= q && UpperRunAt(s, q) ==> Covers(ps, q)
  }

  /** The start positions of `re.findall(r'[A-Z]{7}', s)` at or after `i`. */
  function MatchStarts(s: string, i: nat): (ps: seq<nat>)
    ensures IsScan(s, i, ps)
    decreases |s| - i
  {
    if i + FingerprintLength > |s| then []
    else if UpperRunAt(s, i) then
      var rest := MatchStarts(s, i + FingerprintLength);
      assert ([i] + rest)[1..] == rest;
      [i] + rest
    else
      MatchStarts(s, i + 1)
  }

  lemma {:induction false} CoversOnlyAfter(s: string, j: int, ps: seq<nat>, q: int)
    requires Spaced(s, j, ps) && q < j
    ensures !Covers(ps, q)
    decreases |ps|
  {
    if ps != [] {
      CoversOnlyAfter(s, ps[0] + FingerprintLength, ps[1..], q);
    }
  }

  /**
   * The scan is the only sequence of positions with the facts of `IsScan`,
   * so `IsScan` is an independent definition of what `re.findall` reports.
   */
  lemma {:induction false} ScanIsUnique(s: string, i: nat, ps: seq<nat>)
    requires IsScan(s, i, ps)
    ensures ps == MatchStarts(s, i)
    decreases |s| - i
  {
    if i + FingerprintLength <= |s| {
      if UpperRunAt(s, i) {
        assert Covers(ps, i);
        CoversOnlyAfter(s, ps[0] + FingerprintLength, ps[1..], i);
        var tail := ps[1..];
        forall q | i + FingerprintLength <= q && UpperRunAt(s, q) ensures Covers(tail, q) {
          assert Covers(ps, q);
        }
        ScanIsUnique(s, i + FingerprintLength, tail);
        assert ps == [i] + tail;
      } else {
        ScanIsUnique(s, i + 1, ps);
      }
    }
  }

  /** The texts at positions `ps` that have room for seven characters. */
  ghost function TextsAt(s: string, ps: seq<nat>): seq<string> {
    if ps == [] then []
    else (if ps[0] + FingerprintLength <= |s| then [s[ps[0]..ps[0] + FingerprintLength]] else [])
         + TextsAt(s, ps[1..])
  }

  /** `re.findall(r'[A-Z]{7}', s[i:])`, shifted: the matched texts of the scan, in order. */
  function FindFrom(s: string, i: nat): (r: seq<string>)
    ensures forall k :: 0 <= k < |r| ==> IsFingerprint(r[k])
    ensures r == TextsAt(s, MatchStarts(s, i))
    decreases |s| - i
  {
    if i + FingerprintLength > |s| then []
    else if UpperRunAt(s, i) then
      var rest := MatchStarts(s, i + FingerprintLength);
      assert ([i] + rest)[1..] == rest;
      [s[i..i + FingerprintLength]] + FindFrom(s, i + FingerprintLength)
    else
      FindFrom(s, i + 1)
  }

  /** `re.findall(r'[A-Z]{7}', s)`. */
  function FindFingerprints(s: string): (r: seq<string>)
    ensures forall k :: 0 <= k < |r| ==> IsFingerprint(r[k])
    ensures r == TextsAt(s, MatchStarts(s, 0))
  {
    FindFrom(s, 0)
  }

  /** Text with no run of seven capitals has no fingerprint. */
  lemma {:induction false} NoRunNoFingerprint(s: string, i: nat)
    requires forall p :: i <= p ==> !UpperRunAt(s, p)
    ensures FindFrom(s, i) == []
    decreases |s| - i
  {
    if i + FingerprintLength <= |s| {
      NoRunNoFingerprint(s, i + 1);
    }
  }

  /** The first position in `from..bound` at which `P` holds: how `re.search` scans. */
  function FirstFrom(P: nat -> bool, from: nat, bound: nat): (r: Option<nat>)
    ensures r.Some? ==> from <= r.value <= bound && P(r.value)
    ensures r.Some? ==> forall q :: from <= q < r.value ==> !P(q)
    ensures r.None? ==> forall q :: from <= q <= bound ==> !P(q)
    decreases bound - from
  {
    if from > bound then None
    else if P(from) then Some(from)
    else FirstFrom(P, from + 1, bound)
  }

  /** The class `[:\s]`. */
  predicate IsSeparator(c: char) { c == ':' || IsSpace(c) }

  /** Where the greedy `[:\s]*` starting at `q` stops. */
  function SkipSeparators(s: string, q: nat): (r: nat)
    requires q <= |s|
    ensures q <= r <= |s|
    ensures forall k :: q <= k < r ==> IsSeparator(s[k])
    ensures r == |s| || !IsSeparator(s[r])
    decreases |s| - q
  {
    if q < |s| && IsSeparator(s[q]) then SkipSeparators(s, q + 1) else q
  }

  /** The literal `tag` matches at `p` under `re.IGNORECASE`. */
  predicate LabelAt(s: string, tag: string, p: int) {
    0 <= p && p + |tag| <= |s| && forall k :: 0 <= k < |tag| ==> SameIgnoringCase(s[p + k], tag[k])
  }

  /** `[A-Z]{7}` under `re.IGNORECASE` matches at `q`. */
  predicate LettersAt(s: string, q: int) {
    0 <= q && q + FingerprintLength <= |s| && forall k :: q <= k < q + FingerprintLength ==> IsLetter(s[k])
  }

  /**
   * `tag[:\s]*([A-Z]{7})` with `re.IGNORECASE` matches at `p`. Backing
   * off the greedy separator run never helps, because a separator is not a
   * letter, so the only candidate capture starts where the run stops.
   */
  predicate LabeledAt(s: string, tag: string, p: int) {
    LabelAt(s, tag, p) && LettersAt(s, SkipSeparators(s, p + |tag|))
  }

  /** The seven letters captured by a labelled match at `p`. */
  function LabeledCapture(s: string, tag: string, p: int): (r: string)
    requires LabeledAt(s, tag, p)
    ensures |r| == FingerprintLength && forall k :: 0 <= k < |r| ==> IsLetter(r[k])
  {
    var q := SkipSeparators(s, p + |tag|);
    s[q..q + FingerprintLength]
  }

  /** `re.search(tag + r'[:\s]*([A-Z]{7})', s, re.IGNORECASE)`, group 1. */
  function LabeledSearch(s: string, tag: string): (r: Option<string>)
    ensures r.None? <==> forall p :: !LabeledAt(s, tag, p)
    ensures r.Some? ==> exists p :: && LabeledAt(s, tag, p)
                                    && r.value == LabeledCapture(s, tag, p)
                                    && forall q :: q < p ==> !LabeledAt(s, tag, q)
  {
    var f := FirstFrom((p: nat) => LabeledAt(s, tag, p), 0, |s|);
    assert f.None? ==> forall p :: !LabeledAt(s, tag, p) by {
      if f.None? {
        forall p ensures !LabeledAt(s, tag, p) {
          if 0 <= p <= |s| {
            assert !((q: nat) => LabeledAt(s, tag, q))(p);
          }
        }
      }
    }
    match f
    case Some(p) =>
      assert forall q :: q < p ==> !LabeledAt(s, tag, q) by {
        forall q | q < p ensures !LabeledAt(s, tag, q) {
          if 0 <= q {
            assert !((k: nat) => LabeledAt(s, tag, k))(q);
          }
        }
      }
      Some(LabeledCapture(s, tag, p))
    case None => None
  }

  /** `\b([A-Z]{7})\b` matches at `p` (a word boundary on either side). */
  predicate WordRunAt(s: string, p: int) {
    && UpperRunAt(s, p)
    && (p == 0 || !IsWordChar(s[p - 1]))
    && (p + FingerprintLength == |s| || !IsWordChar(s[p + FingerprintLength]))
  }

  /** `re.findall(r'\b([A-Z]{7})\b', s)[0]`, or `None` for an empty list. */
  function FirstWordRun(s: string): (r: Option<string>)
    ensures r.None? <==> forall p :: !WordRunAt(s, p)
    ensures r.Some? ==> exists p :: && WordRunAt(s, p) && r.value == s[p..p + FingerprintLength]
                                    && forall q :: q < p ==> !WordRunAt(s, q)
    ensures r.Some? ==> IsFingerprint(r.value)
  {
    var f := FirstFrom((p: nat) => WordRunAt(s, p), 0, |s|);
    assert f.None? ==> forall p :: !WordRunAt(s, p) by {
      if f.None? {
        forall p ensures !WordRunAt(s, p) {
          if 0 <= p <= |s| {
            assert !((q: nat) => WordRunAt(s, q))(p);
          }
        }
      }
    }
    match f
    case Some(p) =>
      assert forall q :: q < p ==> !WordRunAt(s, q) by {
        forall q | q < p ensures !WordRunAt(s, q) {
          if 0 <= q {
            assert !((k: nat) => WordRunAt(s, k))(q);
          }
        }
      }
      Some(s[p..p + FingerprintLength])
    case None => None
  }

  /**
   * The scrape of an OMA group page (ortho_counts.py): the first
   * case-insensitive `Fingerprint[:\s]*([A-Z]{7})`, else the first
   * `\b[A-Z]{7}\b`, else nothing.
   */
  function GroupPageFingerprint(page: string): (r: Option<string>)
    ensures LabeledSearch(page, "fingerprint").Some? ==> r == LabeledSearch(page, "fingerprint")
    ensures LabeledSearch(page, "fingerprint").None? ==> r == FirstWordRun(page)
    ensures r.Some? ==> |r.value| == FingerprintLength && forall k :: 0 <= k < FingerprintLength ==> IsLetter(r.value[k])
  {
    var labeled := LabeledSearch(page, "fingerprint");
    if labeled.Some? then labeled else FirstWordRun(page)
  }

  const OmaGroupLink: string := "omabrowser.org/oma/omagroup/"

  /** `omabrowser\.org/oma/omagroup/([A-Z]{7})` matches at `p`. */
  predicate GroupLinkAt(s: string, p: int) {
    0 <= p && p + |OmaGroupLink| <= |s| && s[p..p + |OmaGroupLink|] == OmaGroupLink && UpperRunAt(s, p + |OmaGroupLink|)
  }

  /** `p` is where the first OMA group link of `s` starts. */
  predicate FirstGroupLinkAt(s: string, p: int) {
    GroupLinkAt(s, p) && forall q :: 0 <= q < p ==> !GroupLinkAt(s, q)
  }

  /**
   * The scrape of a UniProt entry page (ortho_counts.py): the first OMA
   * group link followed by seven capitals, else the first case-insensitive
   * `OMA[:\s]*([A-Z]{7})`, else nothing.
   */
  function MemberPageFingerprint(page: string): (r: Option<string>)
    ensures (exists p :: GroupLinkAt(page, p)) ==> r.Some? && IsFingerprint(r.value)
    ensures (forall p :: !GroupLinkAt(page, p)) ==> r == LabeledSearch(page, "oma")
    ensures forall p :: FirstGroupLinkAt(page, p) ==>
      r == Some(page[p + |OmaGroupLink|..p + |OmaGroupLink| + FingerprintLength])
  {
    var f := FirstFrom((p: nat) => GroupLinkAt(page, p), 0, |page|);
    assert f.None? ==> forall p :: !GroupLinkAt(page, p) by {
      if f.None? {
        forall p ensures !GroupLinkAt(page, p) {
          if 0 <= p <= |page| {
            assert !((q: nat) => GroupLinkAt(page, q))(p);
          }
        }
      }
    }
    match f
    case Some(p) =>
      assert forall p' :: FirstGroupLinkAt(page, p') ==> p' == p by {
        assert GroupLinkAt(page, p) by {
          assert ((k: nat) => GroupLinkAt(page, k))(p);
        }
        assert forall q :: 0 <= q < p ==> !GroupLinkAt(page, q) by {
          forall q | 0 <= q < p ensures !GroupLinkAt(page, q) {
            assert !((k: nat) => GroupLinkAt(page, k))(q);
          }
        }
      }
      var q := p + |OmaGroupLink|;
      Some(page[q..q + FingerprintLength])
    case None => LabeledSearch(page, "oma")
  }
}
