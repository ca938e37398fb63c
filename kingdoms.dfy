/**
 * The two kingdom classifiers of ortho_counts_old.py: a decision list over
 * the prefixes of an NCBI taxon id, and one over terms searched in a
 * lower-cased UniProt lineage.
 */
module Kingdoms {
  import opened Text

  /** The kingdoms the classifiers name. */
  datatype Kingdom =
    | Archaea | Bacteria | Metazoa | Viridiplantae | Fungi | Amoebozoa | Rhodophyta
    | Cryptophyta | Ciliophora | Apicomplexa | Diplomonadida | OtherEukaryota | Eukaryota | Unknown

  /** The string the classifiers return for each kingdom. */
  function Name(k: Kingdom): string {
    match k
    case Archaea => "Archaea"
    case Bacteria => "Bacteria"
    case Metazoa => "Metazoa"
    case Viridiplantae => "Viridiplantae"
    case Fungi => "Fungi"
    case Amoebozoa => "Amoebozoa"
    case Rhodophyta => "Rhodophyta"
    case Cryptophyta => "Cryptophyta"
    case Ciliophora => "Ciliophora"
    case Apicomplexa => "Apicomplexa"
    case Diplomonadida => "Diplomonadida"
    case OtherEukaryota => "Other Eukaryota"
    case Eukaryota => "Eukaryota"
    case Unknown => "Unknown"
  }

  // ------------------------------------------------------------ taxon ids

  /** The `taxon_id` value a JSON species record carries: text, a number, or `null`. */
  datatype TaxonValue = TaxonText(text: string) | TaxonNumber(number: int) | TaxonNull

  /** `not taxon_id`. */
  predicate Falsy(t: TaxonValue) {
    t == TaxonText("") || t == TaxonNumber(0) || t == TaxonNull
  }

  /** `str(taxon_id)`. */
  function TaxonString(t: TaxonValue): string {
    match t
    case TaxonText(s) => s
    case TaxonNumber(n) => IntToString(n)
    case TaxonNull => "None"
  }

  /** `_get_kingdom_from_taxon`. */
  function KingdomFromTaxon(t: TaxonValue): (k: Kingdom)
    ensures Falsy(t) ==> k == Unknown
  {
    if Falsy(t) then Unknown else KingdomFromIdText(TaxonString(t))
  }

  /** The prefix tests of `_get_kingdom_from_taxon`, on `str(taxon_id)`. */
  function KingdomFromIdText(s: string): Kingdom {
    if StartsWith(s, "2") then
      if StartsWith(s, "2157") then Archaea else Bacteria
    else if StartsWith(s, "33208") then Metazoa
    else if StartsWith(s, "33090") then Viridiplantae
    else if StartsWith(s, "4751") then Fungi
    else if StartsWith(s, "554915") then Amoebozoa
    else if StartsWith(s, "2763") then Rhodophyta
    else if StartsWith(s, "3027") then Cryptophyta
    else if StartsWith(s, "5878") then Ciliophora
    else if StartsWith(s, "5747") then Apicomplexa
    else if StartsWith(s, "207245") then Diplomonadida
    else if StartsWith(s, "2759") then OtherEukaryota
    else Unknown
  }

  /** A prefix of a prefix is a prefix. */
  lemma StartsWithPrefix(s: string, p: string, q: string)
    requires StartsWith(s, p) && StartsWith(p, q)
    ensures StartsWith(s, q)
  {
    assert s[..|q|] == s[..|p|][..|q|];
  }

  /** Every id starting with `2` is prokaryotic: archaeal under `2157`, bacterial otherwise. */
  lemma TaxonTwoIsProkaryote(t: TaxonValue)
    requires !Falsy(t) && StartsWith(TaxonString(t), "2")
    ensures KingdomFromTaxon(t) == if StartsWith(TaxonString(t), "2157") then Archaea else Bacteria
  {
  }

  /**
   * The `2763`, `207245` and `2759` branches can never be taken: each of
   * those prefixes starts with `2`, which an earlier branch has claimed.
   */
  lemma UnreachableKingdoms(t: TaxonValue)
    ensures KingdomFromTaxon(t) != Rhodophyta
    ensures KingdomFromTaxon(t) != Diplomonadida
    ensures KingdomFromTaxon(t) != OtherEukaryota
  {
    if !Falsy(t) {
      var s := TaxonString(t);
      if StartsWith(s, "2763") { StartsWithPrefix(s, "2763", "2"); }
      if StartsWith(s, "207245") { StartsWithPrefix(s, "207245", "2"); }
      if StartsWith(s, "2759") { StartsWithPrefix(s, "2759", "2"); }
    }
  }

  /** The eukaryotic names the classifier can return, each exactly for its own prefix. */
  lemma EukaryoticPrefixes(t: TaxonValue)
    requires !Falsy(t)
    ensures var s := TaxonString(t);
      && (KingdomFromTaxon(t) == Metazoa <==> StartsWith(s, "33208"))
      && (KingdomFromTaxon(t) == Viridiplantae <==> StartsWith(s, "33090"))
      && (KingdomFromTaxon(t) == Fungi <==> StartsWith(s, "4751"))
      && (KingdomFromTaxon(t) == Amoebozoa <==> StartsWith(s, "554915"))
      && (KingdomFromTaxon(t) == Cryptophyta <==> StartsWith(s, "3027"))
      && (KingdomFromTaxon(t) == Ciliophora <==> StartsWith(s, "5878"))
      && (KingdomFromTaxon(t) == Apicomplexa <==> StartsWith(s, "5747"))
  {
    FirstEukaryoticPrefixes(TaxonString(t));
    LaterEukaryoticPrefixes(TaxonString(t));
  }

  lemma FirstEukaryoticPrefixes(s: string)
    ensures && (KingdomFromIdText(s) == Metazoa <==> StartsWith(s, "33208"))
            && (KingdomFromIdText(s) == Viridiplantae <==> StartsWith(s, "33090"))
            && (KingdomFromIdText(s) == Fungi <==> StartsWith(s, "4751"))
            && (KingdomFromIdText(s) == Amoebozoa <==> StartsWith(s, "554915"))
  {
    if StartsWith(s, "33208") {
      Excludes(s, "33208", "2", 0);
    }
    if StartsWith(s, "33090") {
      Excludes(s, "33090", "2", 0);
      Excludes(s, "33090", "33208", 2);
    }
    if StartsWith(s, "4751") {
      Excludes(s, "4751", "2", 0);
      Excludes(s, "4751", "33208", 0);
      Excludes(s, "4751", "33090", 0);
    }
    if StartsWith(s, "554915") {
      Excludes(s, "554915", "2", 0);
      Excludes(s, "554915", "33208", 0);
      Excludes(s, "554915", "33090", 0);
      Excludes(s, "554915", "4751", 0);
    }
  }

  lemma LaterEukaryoticPrefixes(s: string)
    ensures && (KingdomFromIdText(s) == Cryptophyta <==> StartsWith(s, "3027"))
            && (KingdomFromIdText(s) == Ciliophora <==> StartsWith(s, "5878"))
            && (KingdomFromIdText(s) == Apicomplexa <==> StartsWith(s, "5747"))
  {
    if StartsWith(s, "3027") {
      Excludes(s, "3027", "2", 0);
      Excludes(s, "3027", "33208", 1);
      Excludes(s, "3027", "33090", 1);
      Excludes(s, "3027", "4751", 0);
      Excludes(s, "3027", "554915", 0);
      Excludes(s, "3027", "2763", 0);
    }
    if StartsWith(s, "5878") {
      Excludes(s, "5878", "2", 0);
      Excludes(s, "5878", "33208", 0);
      Excludes(s, "5878", "33090", 0);
      Excludes(s, "5878", "4751", 0);
      Excludes(s, "5878", "554915", 1);
      Excludes(s, "5878", "2763", 0);
      Excludes(s, "5878", "3027", 0);
    }
    if StartsWith(s, "5747") {
      Excludes(s, "5747", "2", 0);
      Excludes(s, "5747", "33208", 0);
      Excludes(s, "5747", "33090", 0);
      Excludes(s, "5747", "4751", 0);
      Excludes(s, "5747", "554915", 1);
      Excludes(s, "5747", "2763", 0);
      Excludes(s, "5747", "3027", 0);
      Excludes(s, "5747", "5878", 1);
    }
  }

  /** Where two prefixes differ, a string that starts with one does not start with the other. */
  lemma Excludes(s: string, p: string, q: string, j: nat)
    requires StartsWith(s, p) && j < |p| && j < |q| && p[j] != q[j]
    ensures !StartsWith(s, q)
  {
    assert s[..|p|][j] == s[j];
    if |q| <= |s| {
      assert s[..|q|][j] == s[j];
    }
  }

  // ------------------------------------------------------------ lineages

  /**
   * `str.lower` on one character, as far as a search for lower-case ASCII
   * terms can tell: ASCII capitals become small letters, U+0130 becomes
   * `i` followed by U+0307, the Kelvin sign becomes `k`. Every other
   * character's lower-case form holds no ASCII letter, so it is kept as it
   * is: it can no more take part in a match than its lower-case form could.
   */
  function LowerCharFull(c: char): (r: string)
    ensures c != '\U{130}' ==> |r| == 1
  {
    if c == '\U{130}' then "i\U{307}"
    else if c == '\U{212A}' then "k"
    else [LowerChar(c)]
  }

  /** `s.lower()`, character by character. */
  function LowerFull(s: string): string {
    if s == [] then [] else LowerCharFull(s[0]) + LowerFull(s[1..])
  }

  lemma {:induction false} LowerFullAppend(a: string, b: string)
    ensures LowerFull(a + b) == LowerFull(a) + LowerFull(b)
  {
    if a == [] {
      assert a + b == b;
    } else {
      assert (a + b)[0] == a[0] && (a + b)[1..] == a[1..] + b;
      LowerFullAppend(a[1..], b);
    }
  }

  /** `any(term in s for term in terms)`. */
  predicate ContainsAny(s: string, terms: seq<string>) {
    exists i :: 0 <= i < |terms| && Contains(s, terms[i])
  }

  const MetazoaTerms: seq<string> := ["metazoa", "animals", "vertebrata"]
  const PlantTerms: seq<string> := ["viridiplantae", "plants", "plantae"]

  /** The decision list of `_get_kingdom_from_lineage` over a `contains` test. */
  function Decide(has: string -> bool): Kingdom {
    if has("bacteria") then Bacteria
    else if has("archaea") then Archaea
    else if has(MetazoaTerms[0]) || has(MetazoaTerms[1]) || has(MetazoaTerms[2]) then Metazoa
    else if has(PlantTerms[0]) || has(PlantTerms[1]) || has(PlantTerms[2]) then Viridiplantae
    else if has("fungi") then Fungi
    else if has("eukaryota") then Eukaryota
    else Unknown
  }

  /** `' '.join(lineage).lower()`. */
  function LineageText(lineage: seq<string>): string {
    LowerFull(Join(lineage, " "))
  }

  /** `_get_kingdom_from_lineage`. */
  function KingdomFromLineage(lineage: seq<string>): (k: Kingdom)
    ensures lineage == [] ==> k == Unknown
  {
    if lineage == [] then Unknown
    else
      var text := LineageText(lineage);
      if Contains(text, "bacteria") then Bacteria
      else if Contains(text, "archaea") then Archaea
      else if ContainsAny(text, MetazoaTerms) then Metazoa
      else if ContainsAny(text, PlantTerms) then Viridiplantae
      else if Contains(text, "fungi") then Fungi
      else if Contains(text, "eukaryota") then Eukaryota
      else Unknown
  }

  /** Some name of the lineage, lower-cased, contains `term`. */
  predicate SomeNameHas(lineage: seq<string>, term: string) {
    exists i :: 0 <= i < |lineage| && Contains(LowerFull(lineage[i]), term)
  }

  /**
   * None of the terms holds a space, so a match never straddles two names:
   * the classifier decides as if it searched every name of the lineage on
   * its own, in the priority order Bacteria, Archaea, Metazoa,
   * Viridiplantae, Fungi, Eukaryota.
   */
  lemma LineageSearchedNameByName(lineage: seq<string>)
    requires lineage != []
    ensures KingdomFromLineage(lineage) == Decide((term: string) => SomeNameHas(lineage, term))
  {
    var text := LineageText(lineage);
    LineageDecides(lineage);
    JoinedSearch(lineage, "bacteria");
    JoinedSearch(lineage, "archaea");
    JoinedSearch(lineage, "metazoa");
    JoinedSearch(lineage, "animals");
    JoinedSearch(lineage, "vertebrata");
    JoinedSearch(lineage, "viridiplantae");
    JoinedSearch(lineage, "plants");
    JoinedSearch(lineage, "plantae");
    JoinedSearch(lineage, "fungi");
    JoinedSearch(lineage, "eukaryota");
    DecideSame((term: string) => Contains(text, term), (term: string) => SomeNameHas(lineage, term));
  }

  /** `_get_kingdom_from_lineage` is the decision list over a search of the joined text. */
  lemma LineageDecides(lineage: seq<string>)
    requires lineage != []
    ensures KingdomFromLineage(lineage) == Decide((term: string) => Contains(LineageText(lineage), term))
  {
    ContainsAnyThree(LineageText(lineage), MetazoaTerms);
    ContainsAnyThree(LineageText(lineage), PlantTerms);
  }

  /** The decision list looks only at its ten terms. */
  lemma DecideSame(f: string -> bool, g: string -> bool)
    requires f("bacteria") == g("bacteria") && f("archaea") == g("archaea")
    requires f("metazoa") == g("metazoa") && f("animals") == g("animals") && f("vertebrata") == g("vertebrata")
    requires f("viridiplantae") == g("viridiplantae") && f("plants") == g("plants") && f("plantae") == g("plantae")
    requires f("fungi") == g("fungi") && f("eukaryota") == g("eukaryota")
    ensures Decide(f) == Decide(g)
  {
  }

  lemma ContainsAnyThree(s: string, terms: seq<string>)
    requires |terms| == 3
    ensures ContainsAny(s, terms) <==> Contains(s, terms[0]) || Contains(s, terms[1]) || Contains(s, terms[2])
  {
    if Contains(s, terms[1]) { assert 0 <= 1 < |terms|; }
    if Contains(s, terms[2]) { assert 0 <= 2 < |terms|; }
  }

  /** A term without a space occurs in the joined, lower-cased lineage exactly when it occurs in one of its names. */
  lemma {:induction false} JoinedSearch(lineage: seq<string>, term: string)
    requires lineage != [] && ' ' !in term
    ensures Contains(LineageText(lineage), term) <==> SomeNameHas(lineage, term)
  {
    if |lineage| == 1 {
      assert Join(lineage, " ") == lineage[0];
    } else {
      var head := LowerFull(lineage[0]);
      var rest := lineage[1..];
      JoinedSearch(rest, term);
      assert Join(lineage, " ") == lineage[0] + " " + Join(rest, " ");
      LowerFullAppend(lineage[0] + " ", Join(rest, " "));
      LowerFullAppend(lineage[0], " ");
      assert LowerFull(" ") == " ";
      assert LineageText(lineage) == head + " " + LineageText(rest);
      SearchAcrossSpace(head, LineageText(rest), term);
      assert SomeNameHas(lineage, term) <==> Contains(head, term) || SomeNameHas(rest, term) by {
        forall i | 0 <= i < |rest| ensures rest[i] == lineage[i + 1] {}
        if SomeNameHas(lineage, term) {
          var i :| 0 <= i < |lineage| && Contains(LowerFull(lineage[i]), term);
          if i > 0 { assert Contains(LowerFull(rest[i - 1]), term); }
        }
      }
    }
  }

  /** Across a single space, a space-free term occurs on one side or the other. */
  lemma SearchAcrossSpace(a: string, b: string, t: string)
    requires ' ' !in t
    ensures Contains(a + " " + b, t) <==> Contains(a, t) || Contains(b, t)
  {
    var s := a + " " + b;
    ContainsIff(s, t);
    ContainsIff(a, t);
    ContainsIff(b, t);
    if Contains(a, t) {
      var i :| Occurs(t, a, i);
      OccursLeft(a, b, t, i);
    }
    if Contains(b, t) {
      var i :| Occurs(t, b, i);
      OccursRight(a, b, t, i);
    }
    if Contains(s, t) {
      var i :| Occurs(t, s, i);
      OccursSplit(a, b, t, i);
    }
  }

  lemma OccursLeft(a: string, b: string, t: string, i: int)
    requires Occurs(t, a, i)
    ensures Occurs(t, a + " " + b, i)
  {
    var s := a + " " + b;
    assert s[i..i + |t|] == a[i..i + |t|];
  }

  lemma OccursRight(a: string, b: string, t: string, i: int)
    requires Occurs(t, b, i)
    ensures Occurs(t, a + " " + b, |a| + 1 + i)
  {
    var s := a + " " + b;
    assert s[|a| + 1 + i..|a| + 1 + i + |t|] == b[i..i + |t|];
  }

  /** An occurrence of a space-free term does not straddle the space. */
  lemma OccursSplit(a: string, b: string, t: string, i: int)
    requires ' ' !in t && Occurs(t, a + " " + b, i)
    ensures Occurs(t, a, i) || Occurs(t, b, i - |a| - 1)
  {
    var s := a + " " + b;
    assert s[|a|] == ' ';
    assert forall k :: i <= k < i + |t| ==> t[k - i] == s[k];
    assert i + |t| <= |a| || |a| + 1 <= i;
    if i + |t| <= |a| {
      assert a[i..i + |t|] == s[i..i + |t|];
    } else {
      assert b[i - |a| - 1..i - |a| - 1 + |t|] == s[i..i + |t|];
    }
  }
}
