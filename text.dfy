/** The string primitives the naming rules use: Python's whitespace set and `str.split()`,
    and case mapping (`str.lower`, `str.capitalize`) on ASCII letters. */
module Text {

  /** `c.isspace()` in Python: the characters on which `str.split()` without arguments splits. */
  predicate IsWhitespace(c: char) {
    || c == ' '
    || '\t' <= c <= '\r'
    || '\U{1c}' <= c <= '\U{1f}'
    || c == '\U{85}' || c == '\U{a0}' || c == '\U{1680}'
    || '\U{2000}' <= c <= '\U{200a}'
    || c == '\U{2028}' || c == '\U{2029}' || c == '\U{202f}' || c == '\U{205f}' || c == '\U{3000}'
  }

  /** A character that separates words of a group name: whitespace, `-` or `_`. */
  predicate IsSeparator(c: char) {
    IsWhitespace(c) || c == '-' || c == '_'
  }

  function LowerChar(c: char): char {
    if 'A' <= c <= 'Z' then (c as int + 32) as char else c
  }

  function UpperChar(c: char): char {
    if 'a' <= c <= 'z' then (c as int - 32) as char else c
  }

  function Lower(s: string): (r: string)
    ensures |r| == |s|
    ensures forall i | 0 <= i < |s| :: r[i] == LowerChar(s[i])
  {
    if s == [] then [] else [LowerChar(s[0])] + Lower(s[1..])
  }

  /** `str.capitalize`: the first character in upper case, the rest in lower case. It changes
      only letter case, and everything after the first character is already in lower case. */
  function Capitalize(w: string): (r: string)
    ensures |r| == |w|
    ensures Lower(r) == Lower(w)
    ensures w != [] ==> r[0] == UpperChar(w[0])
    ensures forall i | 1 <= i < |r| :: r[i] == LowerChar(r[i])
  {
    if w == [] then [] else [UpperChar(w[0])] + Lower(w[1..])
  }

  function Concat(ws: seq<string>): string {
    if ws == [] then [] else ws[0] + Concat(ws[1..])
  }

  /** `s` with every whitespace character dropped. */
  function RemoveWhitespace(s: string): string {
    if s == [] then []
    else (if IsWhitespace(s[0]) then [] else [s[0]]) + RemoveWhitespace(s[1..])
  }

  /** `s` with every separator character dropped. */
  function RemoveSeparators(s: string): string {
    if s == [] then []
    else (if IsSeparator(s[0]) then [] else [s[0]]) + RemoveSeparators(s[1..])
  }

  /** `s.replace("-", " ").replace("_", " ")`: every `-` and `_` becomes a space, and nothing
      else changes. */
  function Normalize(s: string): (r: string)
    ensures |r| == |s|
    ensures forall i | 0 <= i < |s| :: r[i] == if s[i] == '-' || s[i] == '_' then ' ' else s[i]
  {
    if s == [] then []
    else [if s[0] == '-' || s[0] == '_' then ' ' else s[0]] + Normalize(s[1..])
  }

  /** The number of leading characters of `s` that are not whitespace. */
  function WordLength(s: string): (n: nat)
    ensures n <= |s|
    ensures forall i | 0 <= i < n :: !IsWhitespace(s[i])
    ensures n < |s| ==> IsWhitespace(s[n])
  {
    if s == [] || IsWhitespace(s[0]) then 0 else 1 + WordLength(s[1..])
  }

  /** `s.split()`: the maximal runs of non-whitespace characters, in order. */
  function Split(s: string): seq<string>
    decreases |s|
  {
    if s == [] then []
    else if IsWhitespace(s[0]) then Split(s[1..])
    else
      var n := WordLength(s);
      [s[..n]] + Split(s[n..])
  }

  /** A non-empty string without whitespace: what `str.split()` yields. */
  predicate IsWord(w: string) {
    w != [] && forall i | 0 <= i < |w| :: !IsWhitespace(w[i])
  }

  // ----- case mapping

  lemma LowerAppend(a: string, b: string)
    ensures Lower(a + b) == Lower(a) + Lower(b)
  {
  }

  /** Case mapping never turns a letter into a separator or a separator into anything else. */
  lemma LowerCharSeparator(c: char)
    ensures IsSeparator(LowerChar(c)) <==> IsSeparator(c)
    ensures IsSeparator(c) ==> LowerChar(c) == c
  {
  }

  // ----- concatenation and filtering

  lemma {:induction false} ConcatAppend(a: seq<string>, b: seq<string>)
    ensures Concat(a + b) == Concat(a) + Concat(b)
    decreases |a|
  {
    if a == [] {
      assert a + b == b;
    } else {
      assert (a + b)[0] == a[0];
      assert (a + b)[1..] == a[1..] + b;
      ConcatAppend(a[1..], b);
    }
  }

  lemma {:induction false} RemoveWhitespaceAppend(a: string, b: string)
    ensures RemoveWhitespace(a + b) == RemoveWhitespace(a) + RemoveWhitespace(b)
    decreases |a|
  {
    if a != [] {
      assert (a + b)[0] == a[0];
      assert (a + b)[1..] == a[1..] + b;
      RemoveWhitespaceAppend(a[1..], b);
    } else {
      assert a + b == b;
    }
  }

  lemma {:induction false} RemoveWhitespaceOfWord(w: string)
    requires forall i | 0 <= i < |w| :: !IsWhitespace(w[i])
    ensures RemoveWhitespace(w) == w
    decreases |w|
  {
    if w != [] {
      RemoveWhitespaceOfWord(w[1..]);
      assert w == [w[0]] + w[1..];
    }
  }

  /** Replacing `-` and `_` by spaces and then dropping whitespace drops exactly the separators. */
  lemma {:induction false} RemoveWhitespaceOfNormalize(s: string)
    ensures RemoveWhitespace(Normalize(s)) == RemoveSeparators(s)
    decreases |s|
  {
    if s != [] {
      RemoveWhitespaceOfNormalize(s[1..]);
      var c := if s[0] == '-' || s[0] == '_' then ' ' else s[0];
      assert Normalize(s) == [c] + Normalize(s[1..]);
      assert Normalize(s)[0] == c && Normalize(s)[1..] == Normalize(s[1..]);
    }
  }

  lemma {:induction false} NormalizeAppend(a: string, b: string)
    ensures Normalize(a + b) == Normalize(a) + Normalize(b)
    decreases |a|
  {
    if a == [] {
      assert a + b == b;
    } else {
      assert (a + b)[0] == a[0];
      assert (a + b)[1..] == a[1..] + b;
      NormalizeAppend(a[1..], b);
    }
  }

  lemma {:induction false} RemoveSeparatorsHasNoSeparator(s: string)
    ensures forall i | 0 <= i < |RemoveSeparators(s)| :: !IsSeparator(RemoveSeparators(s)[i])
    decreases |s|
  {
    if s != [] {
      RemoveSeparatorsHasNoSeparator(s[1..]);
    }
  }

  lemma {:induction false} RemoveSeparatorsEmptyIff(s: string)
    ensures RemoveSeparators(s) == [] <==> forall i | 0 <= i < |s| :: IsSeparator(s[i])
    decreases |s|
  {
    if s != [] {
      RemoveSeparatorsEmptyIff(s[1..]);
      assert forall i | 1 <= i < |s| :: s[i] == s[1..][i - 1];
    }
  }

  // ----- str.split()

  lemma {:induction false} WordLengthBeforeWhitespace(a: string, t: string)
    requires t != [] && IsWhitespace(t[0])
    ensures WordLength(a + t) == WordLength(a)
    decreases |a|
  {
    if a == [] {
      assert a + t == t;
    } else {
      assert (a + t)[0] == a[0];
      if !IsWhitespace(a[0]) {
        assert (a + t)[1..] == a[1..] + t;
        WordLengthBeforeWhitespace(a[1..], t);
      }
    }
  }

  /** What `split()` yields: words, which together hold every non-whitespace character in order. */
  lemma {:induction false} SplitWords(s: string)
    ensures forall w | w in Split(s) :: IsWord(w)
    ensures Concat(Split(s)) == RemoveWhitespace(s)
    decreases |s|
  {
    if s != [] {
      if IsWhitespace(s[0]) {
        SplitWords(s[1..]);
      } else {
        var n := WordLength(s);
        SplitWords(s[n..]);
        assert s == s[..n] + s[n..];
        RemoveWhitespaceAppend(s[..n], s[n..]);
        RemoveWhitespaceOfWord(s[..n]);
        assert Split(s) == [s[..n]] + Split(s[n..]);
        assert Concat(Split(s)) == s[..n] + Concat(Split(s[n..]));
      }
    }
  }

  /** `split()` of a single word is that word. */
  lemma SplitSingleWord(w: string)
    requires IsWord(w)
    ensures Split(w) == [w]
  {
    var n := WordLength(w);
    assert n == |w|;
    assert w[..n] == w && w[n..] == [];
  }

  /** `split()` at a whitespace character splits both sides independently. */
  lemma {:induction false} SplitAtWhitespace(a: string, c: char, b: string)
    requires IsWhitespace(c)
    ensures Split(a + [c] + b) == Split(a) + Split(b)
    decreases |a|
  {
    var s := a + [c] + b;
    if a == [] {
      assert s[0] == c && s[1..] == b;
    } else if IsWhitespace(a[0]) {
      assert s[0] == a[0] && s[1..] == a[1..] + [c] + b;
      SplitAtWhitespace(a[1..], c, b);
    } else {
      assert s == a + ([c] + b);
      WordLengthBeforeWhitespace(a, [c] + b);
      var n := WordLength(a);
      assert s[0] == a[0];
      assert s[..n] == a[..n];
      assert s[n..] == a[n..] + [c] + b;
      SplitAtWhitespace(a[n..], c, b);
    }
  }

  /** `split()` yields no word exactly when the string is all whitespace. */
  lemma SplitEmptyIff(s: string)
    ensures Split(s) == [] <==> RemoveWhitespace(s) == []
  {
    SplitWords(s);
    var ws := Split(s);
    if ws != [] {
      assert ws[0] in ws;
      assert |Concat(ws)| >= |ws[0]| > 0;
    }
  }
}
