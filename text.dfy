/**
 * Python string behaviour the pipeline relies on: character classes, `strip`,
 * `lower`, `split`, `startswith`, `in`, `join`, integer formatting and the
 * code-point order that `sorted` uses on strings.
 */
module Text {
  import opened Sorting

  /** The class `[A-Z]` of a case-sensitive pattern. */
  predicate IsUpper(c: char) { 'A' <= c <= 'Z' }

  predicate IsLowerLetter(c: char) { 'a' <= c <= 'z' }

  /**
   * The class `[A-Z]` of a pattern compiled with `re.IGNORECASE`: the ASCII
   * letters and the four characters whose case folding reaches one of them
   * (dotted and dotless I, long s, the Kelvin sign).
   */
  predicate IsLetter(c: char) {
    IsUpper(c) || IsLowerLetter(c) || c == '\U{130}' || c == '\U{131}' || c == '\U{17F}' || c == '\U{212A}'
  }

  /** Character `c` matches the pattern letter `l` under `re.IGNORECASE`. */
  predicate SameIgnoringCase(c: char, l: char) {
    || LowerChar(c) == LowerChar(l)
    || (LowerChar(l) == 'i' && (c == '\U{130}' || c == '\U{131}'))
    || (LowerChar(l) == 's' && c == '\U{17F}')
    || (LowerChar(l) == 'k' && c == '\U{212A}')
  }

  /** The ASCII digits `0-9`. */
  predicate IsDigit(c: char) { '0' <= c <= '9' }

  /** The class `\d` of a `str` pattern: every Unicode decimal digit (general category Nd, Unicode 15). */
  predicate IsDecimal(c: char) {
    || ('\U{30}' <= c <= '\U{39}') || ('\U{660}' <= c <= '\U{669}') || ('\U{6F0}' <= c <= '\U{6F9}') || ('\U{7C0}' <= c <= '\U{7C9}')
    || ('\U{966}' <= c <= '\U{96F}') || ('\U{9E6}' <= c <= '\U{9EF}') || ('\U{A66}' <= c <= '\U{A6F}') || ('\U{AE6}' <= c <= '\U{AEF}')
    || ('\U{B66}' <= c <= '\U{B6F}') || ('\U{BE6}' <= c <= '\U{BEF}') || ('\U{C66}' <= c <= '\U{C6F}') || ('\U{CE6}' <= c <= '\U{CEF}')
    || ('\U{D66}' <= c <= '\U{D6F}') || ('\U{DE6}' <= c <= '\U{DEF}') || ('\U{E50}' <= c <= '\U{E59}') || ('\U{ED0}' <= c <= '\U{ED9}')
    || ('\U{F20}' <= c <= '\U{F29}') || ('\U{1040}' <= c <= '\U{1049}') || ('\U{1090}' <= c <= '\U{1099}') || ('\U{17E0}' <= c <= '\U{17E9}')
    || ('\U{1810}' <= c <= '\U{1819}') || ('\U{1946}' <= c <= '\U{194F}') || ('\U{19D0}' <= c <= '\U{19D9}') || ('\U{1A80}' <= c <= '\U{1A89}')
    || ('\U{1A90}' <= c <= '\U{1A99}') || ('\U{1B50}' <= c <= '\U{1B59}') || ('\U{1BB0}' <= c <= '\U{1BB9}') || ('\U{1C40}' <= c <= '\U{1C49}')
    || ('\U{1C50}' <= c <= '\U{1C59}') || ('\U{A620}' <= c <= '\U{A629}') || ('\U{A8D0}' <= c <= '\U{A8D9}') || ('\U{A900}' <= c <= '\U{A909}')
    || ('\U{A9D0}' <= c <= '\U{A9D9}') || ('\U{A9F0}' <= c <= '\U{A9F9}') || ('\U{AA50}' <= c <= '\U{AA59}') || ('\U{ABF0}' <= c <= '\U{ABF9}')
    || ('\U{FF10}' <= c <= '\U{FF19}') || ('\U{104A0}' <= c <= '\U{104A9}') || ('\U{10D30}' <= c <= '\U{10D39}') || ('\U{11066}' <= c <= '\U{1106F}')
    || ('\U{110F0}' <= c <= '\U{110F9}') || ('\U{11136}' <= c <= '\U{1113F}') || ('\U{111D0}' <= c <= '\U{111D9}') || ('\U{112F0}' <= c <= '\U{112F9}')
    || ('\U{11450}' <= c <= '\U{11459}') || ('\U{114D0}' <= c <= '\U{114D9}') || ('\U{11650}' <= c <= '\U{11659}') || ('\U{116C0}' <= c <= '\U{116C9}')
    || ('\U{11730}' <= c <= '\U{11739}') || ('\U{118E0}' <= c <= '\U{118E9}') || ('\U{11950}' <= c <= '\U{11959}') || ('\U{11C50}' <= c <= '\U{11C59}')
    || ('\U{11D50}' <= c <= '\U{11D59}') || ('\U{11DA0}' <= c <= '\U{11DA9}') || ('\U{11F50}' <= c <= '\U{11F59}') || ('\U{16A60}' <= c <= '\U{16A69}')
    || ('\U{16AC0}' <= c <= '\U{16AC9}') || ('\U{16B50}' <= c <= '\U{16B59}') || ('\U{1D7CE}' <= c <= '\U{1D7FF}') || ('\U{1E140}' <= c <= '\U{1E149}')
    || ('\U{1E2F0}' <= c <= '\U{1E2F9}') || ('\U{1E4F0}' <= c <= '\U{1E4F9}') || ('\U{1E950}' <= c <= '\U{1E959}') || ('\U{1FBF0}' <= c <= '\U{1FBF9}')
  }

  /** The characters Python treats as whitespace (`str.isspace`, `strip()`, `split()`, `\s`). */
  predicate IsSpace(c: char) {
    || ('\t' <= c <= '\r')
    || ('\U{1C}' <= c <= ' ')
    || c == '\U{85}' || c == '\U{A0}' || c == '\U{1680}'
    || ('\U{2000}' <= c <= '\U{200A}')
    || c == '\U{2028}' || c == '\U{2029}' || c == '\U{202F}' || c == '\U{205F}' || c == '\U{3000}'
  }

  /**
   * Word characters for `\b` (`\w` of a `str` pattern), exact up to U+00FF:
   * ASCII letters, digits and the underscore, and the Latin-1 letters and
   * numerals.
   */
  predicate IsWordChar(c: char) {
    || IsUpper(c) || IsLowerLetter(c) || IsDigit(c) || c == '_'
    || c == '\U{AA}' || c == '\U{B2}' || c == '\U{B3}' || c == '\U{B5}' || c == '\U{B9}' || c == '\U{BA}'
    || ('\U{BC}' <= c <= '\U{BE}') || ('\U{C0}' <= c <= '\U{D6}') || ('\U{D8}' <= c <= '\U{F6}') || ('\U{F8}' <= c <= '\U{FF}')
  }

  /**
   * `str.isprintable` for one character, exact for Latin-1 (up to U+00FF):
   * there, controls, the C1 block, the soft hyphen and every whitespace
   * character except the space are not printable. Above Latin-1 only the
   * whitespace characters are excluded; Python also rejects format
   * characters, separators, unassigned and private-use code points.
   */
  predicate IsPrintable(c: char) {
    c == ' ' || !(c < ' ' || ('\U{7F}' <= c <= '\U{9F}') || c == '\U{AD}' || IsSpace(c))
  }

  /** `str.lower` on one character (ASCII letters). */
  function LowerChar(c: char): (d: char)
    ensures IsUpper(c) ==> IsLowerLetter(d) && d as int == c as int + 32
    ensures !IsUpper(c) ==> d == c
  {
    if IsUpper(c) then (c as int + 32) as char else c
  }

  function Lower(s: string): (r: string)
    ensures |r| == |s|
    ensures forall i :: 0 <= i < |s| ==> r[i] == LowerChar(s[i])
  {
    seq(|s|, i requires 0 <= i < |s| => LowerChar(s[i]))
  }

  /** `str.lstrip()`: the suffix left after dropping leading whitespace. */
  function TrimLeft(s: string): (r: string)
    ensures |r| <= |s| && r == s[|s| - |r|..]
    ensures forall i :: 0 <= i < |s| - |r| ==> IsSpace(s[i])
    ensures r == [] || !IsSpace(r[0])
  {
    if s != [] && IsSpace(s[0]) then TrimLeft(s[1..]) else s
  }

  /** `str.rstrip()`: the prefix left after dropping trailing whitespace. */
  function TrimRight(s: string): (r: string)
    ensures |r| <= |s| && r == s[..|r|]
    ensures forall i :: |r| <= i < |s| ==> IsSpace(s[i])
    ensures r == [] || !IsSpace(r[|r| - 1])
  {
    if s != [] && IsSpace(s[|s| - 1]) then TrimRight(s[..|s| - 1]) else s
  }

  /** `str.strip()`: the input less its leading and trailing whitespace. */
  function Strip(s: string): (r: string)
    ensures r == [] || (!IsSpace(r[0]) && !IsSpace(r[|r| - 1]))
    ensures exists i, j :: 0 <= i <= j <= |s| && r == s[i..j] && AllSpace(s[..i]) && AllSpace(s[j..])
  {
    SliceBetweenSpace(s, TrimLeft(s), TrimRight(TrimLeft(s)));
    TrimRight(TrimLeft(s))
  }

  /**
   * A suffix `t` of `s` after whitespace, and a prefix `r` of `t` before
   * whitespace: `r` is a slice of `s` with only whitespace around it.
   */
  lemma SliceBetweenSpace(s: string, t: string, r: string)
    requires |t| <= |s| && t == s[|s| - |t|..] && forall k :: 0 <= k < |s| - |t| ==> IsSpace(s[k])
    requires |r| <= |t| && r == t[..|r|] && forall k :: |r| <= k < |t| ==> IsSpace(t[k])
    ensures exists i, j :: 0 <= i <= j <= |s| && r == s[i..j] && AllSpace(s[..i]) && AllSpace(s[j..])
  {
    var i := |s| - |t|;
    var j := i + |r|;
    assert r == s[i..j];
    assert AllSpace(s[..i]) by {
      forall k | 0 <= k < i ensures IsSpace(s[..i][k]) {
        assert s[..i][k] == s[k];
      }
    }
    assert AllSpace(s[j..]) by {
      forall k | 0 <= k < |s| - j ensures IsSpace(s[j..][k]) {
        assert s[j..][k] == t[|r| + k];
      }
    }
  }

  predicate AllSpace(s: string) { forall i :: 0 <= i < |s| ==> IsSpace(s[i]) }

  /** `not s.strip()` holds exactly for strings made only of whitespace. */
  lemma StripEmptyIff(s: string)
    ensures Strip(s) == [] <==> AllSpace(s)
  {
    var t := TrimLeft(s);
    if Strip(s) == [] {
      assert t == [];
    }
    if AllSpace(s) {
      TrimLeftAllSpace(s);
    }
  }

  lemma {:induction false} TrimLeftAllSpace(s: string)
    requires AllSpace(s)
    ensures TrimLeft(s) == []
  {
    if s != [] { TrimLeftAllSpace(s[1..]); }
  }

  /** `s.rstrip(c)`: drop every trailing `c`. */
  function RStripChar(s: string, c: char): (r: string)
    ensures |r| <= |s| && r == s[..|r|]
    ensures forall i :: |r| <= i < |s| ==> s[i] == c
    ensures r == [] || r[|r| - 1] != c
  {
    if s != [] && s[|s| - 1] == c then RStripChar(s[..|s| - 1], c) else s
  }

  /** The test "is not `c`". */
  function Unlike(c: char): char -> bool {
    x => x != c
  }

  /** `s.replace(c, '')`: every other character is kept, in order. */
  function RemoveChar(s: string, c: char): (r: string)
    ensures c !in r
    ensures |r| <= |s|
    ensures r == Filter(s, Unlike(c))
  {
    if s == [] then []
    else if s[0] == c then RemoveChar(s[1..], c)
    else [s[0]] + RemoveChar(s[1..], c)
  }

  /** `s.startswith(p)`. */
  predicate StartsWith(s: string, p: string) { |p| <= |s| && s[..|p|] == p }

  /** `t in s` for strings: `t` occurs in `s` at some offset. */
  predicate Occurs(t: string, s: string, i: int) { 0 <= i && i + |t| <= |s| && s[i..i + |t|] == t }

  predicate Contains(s: string, t: string) {
    StartsWith(s, t) || (s != [] && Contains(s[1..], t))
  }

  /** `Contains` is the search for an offset at which `t` occurs. */
  lemma {:induction false} ContainsIff(s: string, t: string)
    ensures Contains(s, t) <==> exists i :: Occurs(t, s, i)
  {
    if StartsWith(s, t) {
      assert Occurs(t, s, 0);
    }
    if s != [] {
      ContainsIff(s[1..], t);
      if Contains(s[1..], t) {
        var i :| Occurs(t, s[1..], i);
        assert Occurs(t, s, i + 1);
      }
      forall i | Occurs(t, s, i) && i > 0 ensures Occurs(t, s[1..], i - 1) {
        assert s[1..][i - 1..i - 1 + |t|] == s[i..i + |t|];
      }
    }
  }

  /** The first index of `c` in `s`, for `s.split(c)`. */
  function FirstIndex(s: string, c: char): (i: nat)
    requires c in s
    ensures i < |s| && s[i] == c && c !in s[..i]
  {
    if s[0] == c then 0 else FirstIndex(s[1..], c) + 1
  }

  /** The first `c` in `a + b` is the head of `b` when `a` holds none. */
  lemma {:induction false} FirstIndexAfter(a: string, b: string, c: char)
    requires c !in a && b != [] && b[0] == c
    ensures c in a + b && FirstIndex(a + b, c) == |a|
  {
    assert (a + b)[|a|] == c;
    if a != [] {
      assert (a + b)[1..] == a[1..] + b;
      FirstIndexAfter(a[1..], b, c);
    }
  }

  /** `sep.join(parts)`. */
  function Join(parts: seq<string>, sep: string): string {
    if parts == [] then ""
    else if |parts| == 1 then parts[0]
    else parts[0] + sep + Join(parts[1..], sep)
  }

  /** `s.split(sep)` for a one-character separator: never empty, and joining gives `s` back. */
  function Split(s: string, sep: char): (parts: seq<string>)
    ensures |parts| >= 1 && StartsWith(s, parts[0])
    ensures forall i :: 0 <= i < |parts| ==> sep !in parts[i]
    ensures Join(parts, [sep]) == s
    decreases |s|
  {
    if sep in s then
      var i := FirstIndex(s, sep);
      var rest := Split(s[i + 1..], sep);
      assert s == s[..i] + [sep] + s[i + 1..];
      [s[..i]] + rest
    else
      [s]
  }

  /** The length of the leading run of non-whitespace characters. */
  function TokenLength(s: string): (n: nat)
    ensures n <= |s|
    ensures forall k :: 0 <= k < n ==> !IsSpace(s[k])
    ensures n == |s| || IsSpace(s[n])
  {
    if s == [] || IsSpace(s[0]) then 0 else TokenLength(s[1..]) + 1
  }

  predicate NoSpace(w: string) { forall k :: 0 <= k < |w| ==> !IsSpace(w[k]) }

  /** `s.split()`: the maximal runs of non-whitespace characters, in order. */
  function Words(s: string): (ws: seq<string>)
    ensures forall i :: 0 <= i < |ws| ==> ws[i] != [] && NoSpace(ws[i])
    decreases |s|
  {
    var t := TrimLeft(s);
    if t == [] then []
    else
      var n := TokenLength(t);
      var rest := Words(t[n..]);
      LeadingWord(t);
      AllWordsCons(t[..n], rest);
      [t[..n]] + rest
  }

  /** The run of non-whitespace that starts a string beginning with a non-space is a word. */
  lemma LeadingWord(t: string)
    requires t != [] && !IsSpace(t[0])
    ensures TokenLength(t) > 0 && NoSpace(t[..TokenLength(t)])
  {
  }

  lemma AllWordsCons(w: string, rest: seq<string>)
    requires w != [] && NoSpace(w)
    requires forall i :: 0 <= i < |rest| ==> rest[i] != [] && NoSpace(rest[i])
    ensures forall i :: 0 <= i < |[w] + rest| ==> ([w] + rest)[i] != [] && NoSpace(([w] + rest)[i])
  {
  }

  /** A leading whitespace character does not change `split()`. */
  lemma WordsSkipSpace(s: string)
    requires s != [] && IsSpace(s[0])
    ensures Words(s) == Words(s[1..])
  {
    assert TrimLeft(s) == TrimLeft(s[1..]);
  }

  /** A token ends where whitespace, or the string, begins. */
  lemma {:induction false} TokenLengthAppend(s: string, u: string)
    requires u == [] || IsSpace(u[0])
    ensures TokenLength(s + u) == TokenLength(s)
  {
    if s == [] {
      assert s + u == u;
    } else if !IsSpace(s[0]) {
      assert (s + u)[1..] == s[1..] + u;
      TokenLengthAppend(s[1..], u);
    }
  }

  /** Trailing whitespace does not change `split()`. */
  lemma {:induction false} WordsAppendSpace(s: string, u: string)
    requires AllSpace(u)
    ensures Words(s + u) == Words(s)
    decreases |s|
  {
    if s == [] {
      assert s + u == u;
      TrimLeftAllSpace(u);
    } else if IsSpace(s[0]) {
      WordsAppendSpace(s[1..], u);
      WordsAppendAfterSpace(s, u);
    } else {
      WordsAppendSpace(s[TokenLength(s)..], u);
      WordsAppendAfterToken(s, u);
    }
  }

  /** The step of `WordsAppendSpace` past a leading whitespace character. */
  lemma WordsAppendAfterSpace(s: string, u: string)
    requires s != [] && IsSpace(s[0]) && Words(s[1..] + u) == Words(s[1..])
    ensures Words(s + u) == Words(s)
  {
    var v := s + u;
    assert v[0] == s[0] && v[1..] == s[1..] + u;
    WordsSkipSpace(v);
    WordsSkipSpace(s);
  }

  /** A string that starts with a word splits into that word and the split of the rest. */
  lemma WordsOfToken(s: string)
    requires s != [] && !IsSpace(s[0])
    ensures Words(s) == [s[..TokenLength(s)]] + Words(s[TokenLength(s)..])
  {
    assert TrimLeft(s) == s;
  }

  /** The step of `WordsAppendSpace` past a leading word. */
  lemma WordsAppendAfterToken(s: string, u: string)
    requires s != [] && !IsSpace(s[0]) && (u == [] || IsSpace(u[0]))
    requires Words(s[TokenLength(s)..] + u) == Words(s[TokenLength(s)..])
    ensures Words(s + u) == Words(s)
  {
    WordsOfTokenAppend(s, u);
    WordsOfToken(s);
  }

  lemma SplitAppend(s: string, n: nat, u: string)
    requires n <= |s|
    ensures s + u == s[..n] + (s[n..] + u)
  {
    assert s == s[..n] + s[n..];
  }

  /** Appending text that starts with whitespace leaves a leading word whole. */
  lemma WordsOfTokenAppend(s: string, u: string)
    requires s != [] && !IsSpace(s[0]) && (u == [] || IsSpace(u[0]))
    ensures Words(s + u) == [s[..TokenLength(s)]] + Words(s[TokenLength(s)..] + u)
  {
    var n := TokenLength(s);
    var rest := s[n..] + u;
    LeadingWord(s);
    SplitAppend(s, n, u);
    assert rest == [] || IsSpace(rest[0]) by {
      if n < |s| {
        assert rest[0] == s[n];
      } else {
        assert rest == u;
      }
    }
    WordsCons(s[..n], rest);
  }


  /** `s.strip().split() == s.split()`. */
  lemma WordsStrip(s: string)
    ensures Words(Strip(s)) == Words(s)
  {
    var t := TrimLeft(s);
    assert Words(t) == Words(s) by {
      assert TrimLeft(t) == t;
    }
    var r := TrimRight(t);
    var u := TrimmedSpace(t);
    WordsAppendSpace(r, u);
  }

  /** What `rstrip()` removes: whitespace only. */
  function TrimmedSpace(t: string): (u: string)
    ensures AllSpace(u) && t == TrimRight(t) + u
  {
    var r := TrimRight(t);
    var u := t[|r|..];
    assert AllSpace(u) by {
      forall i | 0 <= i < |u| ensures IsSpace(u[i]) {
        assert u[i] == t[|r| + i];
      }
    }
    assert t == r + u by {
      assert t == t[..|r|] + t[|r|..];
    }
    u
  }

  /** A string that starts with a word, followed by whitespace or nothing, splits into that word first. */
  lemma WordsCons(w: string, rest: string)
    requires w != [] && NoSpace(w) && (rest == [] || IsSpace(rest[0]))
    ensures Words(w + rest) == [w] + Words(rest)
  {
    TokenLengthAppend(w, rest);
    assert TokenLength(w) == |w| by {
      TokenLengthAll(w);
    }
    assert TrimLeft(w + rest) == w + rest;
    assert (w + rest)[..|w|] == w && (w + rest)[|w|..] == rest;
  }

  lemma {:induction false} TokenLengthAll(w: string)
    requires NoSpace(w)
    ensures TokenLength(w) == |w|
  {
    if w != [] { TokenLengthAll(w[1..]); }
  }

  /** A non-blank stripped line begins with its first word. */
  lemma StripFirstWord(s: string)
    requires Strip(s) != []
    ensures Words(s) != [] && Words(s)[0][0] == Strip(s)[0]
  {
    var t := Strip(s);
    WordsStrip(s);
    assert TrimLeft(t) == t;
  }

  /** `c * n`. */
  function Repeat(c: char, n: nat): (r: string)
    ensures |r| == n && forall i :: 0 <= i < n ==> r[i] == c
  {
    seq(n, _ => c)
  }

  function DigitChar(d: nat): (c: char)
    requires d < 10
    ensures IsDigit(c)
  {
    ('0' as int + d) as char
  }

  /** `str(n)` for a natural number. */
  function NatToString(n: nat): (s: string)
    ensures s != [] && forall i :: 0 <= i < |s| ==> IsDigit(s[i])
  {
    if n < 10 then [DigitChar(n)] else NatToString(n / 10) + [DigitChar(n % 10)]
  }

  /** `str(i)` for an integer. */
  function IntToString(i: int): string {
    if i < 0 then "-" + NatToString(-i) else NatToString(i)
  }

  /** `int(s)` for a string of decimal digits. */
  function DigitsValue(s: string): nat
    requires forall i :: 0 <= i < |s| ==> IsDigit(s[i])
  {
    if s == [] then 0
    else
      assert IsDigit(s[|s| - 1]);
      DigitsValue(s[..|s| - 1]) * 10 + (s[|s| - 1] as int - '0' as int)
  }

  /** `int(str(n)) == n`. */
  lemma {:induction false} NatToStringRoundTrip(n: nat)
    ensures DigitsValue(NatToString(n)) == n
  {
    if n >= 10 {
      var s := NatToString(n);
      assert s[..|s| - 1] == NatToString(n / 10);
      NatToStringRoundTrip(n / 10);
    }
  }

  /** Python's `<=` on strings: lexicographic by code point, a prefix sorting first. */
  predicate LexLe(a: string, b: string)
    decreases |a|
  {
    a == [] || (b != [] && (a[0] < b[0] || (a[0] == b[0] && LexLe(a[1..], b[1..]))))
  }

  lemma {:induction false} LexLeReflexive(a: string)
    ensures LexLe(a, a)
  {
    if a != [] { LexLeReflexive(a[1..]); }
  }

  lemma {:induction false} LexLeTotal(a: string, b: string)
    ensures LexLe(a, b) || LexLe(b, a)
    decreases |a|
  {
    if a != [] && b != [] && a[0] == b[0] { LexLeTotal(a[1..], b[1..]); }
  }

  lemma {:induction false} LexLeAntisymmetric(a: string, b: string)
    requires LexLe(a, b) && LexLe(b, a)
    ensures a == b
    decreases |a|
  {
    if a != [] {
      LexLeAntisymmetric(a[1..], b[1..]);
      assert a == [a[0]] + a[1..] && b == [b[0]] + b[1..];
    }
  }

  lemma {:induction false} LexLeTransitive(a: string, b: string, c: string)
    requires LexLe(a, b) && LexLe(b, c)
    ensures LexLe(a, c)
    decreases |a|
  {
    if a != [] && a[0] == b[0] && b[0] == c[0] { LexLeTransitive(a[1..], b[1..], c[1..]); }
  }
}
