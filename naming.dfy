/** The naming rules of the scraper: `to_camel_case` for schema names and `dereference`
    for the targets of `$ref` pointers (src/main.py lines 22-27 and 83-86). */
module Naming {
  import opened Text

  /** The words `to_camel_case` sees: `-` and `_` become spaces, then `split()`. */
  function Words(text: string): seq<string> {
    Split(Normalize(text))
  }

  /** `to_camel_case` returns normally: the text is empty or has at least one word.
      A non-empty text made only of separators makes `s[0]` raise. */
  predicate CamelCaseDefined(text: string) {
    |text| == 0 || Words(text) != []
  }

  /** `''.join(i.capitalize() for i in ws)`. */
  function CapitalizeAll(ws: seq<string>): string {
    if ws == [] then [] else Capitalize(ws[0]) + CapitalizeAll(ws[1..])
  }

  /** `to_camel_case`: the first word verbatim, each later word capitalized, nothing between. */
  function ToCamelCase(text: string): string
    requires CamelCaseDefined(text)
  {
    if |text| == 0 then text
    else
      var ws := Words(text);
      ws[0] + CapitalizeAll(ws[1..])
  }

  /** The literal suffix of every page schema's name. */
  const AttributesSuffix: string := ".Attributes"

  /** The registry key of the page whose heading reads `group`. */
  function SchemaName(group: string): (r: string)
    requires CamelCaseDefined(group)
    ensures |r| == |ToCamelCase(group)| + |AttributesSuffix|
    ensures r[|r| - |AttributesSuffix|..] == AttributesSuffix
  {
    ToCamelCase(group) + AttributesSuffix
  }

  /** `object_name.lstrip('#')`. */
  function Dereference(name: string): (r: string)
    ensures |r| <= |name| && r == name[|name| - |r|..]
    ensures forall i | 0 <= i < |name| - |r| :: name[i] == '#'
    ensures r == [] || r[0] != '#'
  {
    if name != [] && name[0] == '#' then Dereference(name[1..]) else name
  }

  /** The prefix of every `$ref` the scraper emits. */
  const SchemasPointer: string := "#/components/schemas/"

  /** The `$ref` value for the link target `href`. */
  function SchemaRef(href: string): string {
    SchemasPointer + Dereference(href)
  }

  // ----- to_camel_case

  lemma CamelCaseOfEmpty()
    ensures CamelCaseDefined("") && ToCamelCase("") == ""
  {
  }

  lemma {:induction false} WordsOfAppend(a: string, c: char, b: string)
    requires IsSeparator(c)
    ensures Words(a + [c] + b) == Words(a) + Words(b)
  {
    NormalizeAppend(a + [c], b);
    NormalizeAppend(a, [c]);
    var nc := if c == '-' || c == '_' then ' ' else c;
    assert Normalize([c]) == [nc];
    SplitAtWhitespace(Normalize(a), nc, Normalize(b));
  }

  /** `to_camel_case` is defined exactly on the texts that are empty or have a non-separator. */
  lemma CamelCaseDefinedIff(text: string)
    ensures CamelCaseDefined(text) <==> |text| == 0 || exists i | 0 <= i < |text| :: !IsSeparator(text[i])
  {
    SplitEmptyIff(Normalize(text));
    RemoveWhitespaceOfNormalize(text);
    RemoveSeparatorsEmptyIff(text);
  }

  lemma {:induction false} LowerOfCapitalizeAll(ws: seq<string>)
    ensures Lower(CapitalizeAll(ws)) == Lower(Concat(ws))
    decreases |ws|
  {
    if ws != [] {
      LowerOfCapitalizeAll(ws[1..]);
      LowerAppend(Capitalize(ws[0]), CapitalizeAll(ws[1..]));
      LowerAppend(ws[0], Concat(ws[1..]));
    }
  }

  lemma {:induction false} CapitalizeAllAppend(a: seq<string>, b: seq<string>)
    ensures CapitalizeAll(a + b) == CapitalizeAll(a) + CapitalizeAll(b)
    decreases |a|
  {
    if a == [] {
      assert a + b == b;
    } else {
      assert (a + b)[0] == a[0];
      assert (a + b)[1..] == a[1..] + b;
      CapitalizeAllAppend(a[1..], b);
    }
  }

  /** The camel-case name is the text's non-separator characters in their order, up to
      letter case: no space, tab, `-` or `_` is left, and nothing else is dropped or added. */
  lemma CamelCaseCharacters(text: string)
    requires CamelCaseDefined(text)
    ensures Lower(ToCamelCase(text)) == Lower(RemoveSeparators(text))
    ensures forall i | 0 <= i < |ToCamelCase(text)| :: !IsSeparator(ToCamelCase(text)[i])
  {
    var r := ToCamelCase(text);
    var kept := RemoveSeparators(text);
    if |text| != 0 {
      var ws := Words(text);
      assert ws == [ws[0]] + ws[1..];
      LowerAppend(ws[0], CapitalizeAll(ws[1..]));
      LowerOfCapitalizeAll(ws[1..]);
      LowerAppend(ws[0], Concat(ws[1..]));
      SplitWords(Normalize(text));
      RemoveWhitespaceOfNormalize(text);
      assert Concat(ws) == ws[0] + Concat(ws[1..]);
    }
    assert Lower(r) == Lower(kept);
    RemoveSeparatorsHasNoSeparator(text);
    forall i | 0 <= i < |r|
      ensures !IsSeparator(r[i])
    {
      assert Lower(r)[i] == LowerChar(r[i]) && Lower(kept)[i] == LowerChar(kept[i]);
      LowerCharSeparator(r[i]);
      LowerCharSeparator(kept[i]);
    }
  }

  /** A single word is its own camel-case name. */
  lemma CamelCaseOfWord(w: string)
    requires w != [] && forall i | 0 <= i < |w| :: !IsSeparator(w[i])
    ensures CamelCaseDefined(w) && ToCamelCase(w) == w
  {
    assert Normalize(w) == w by {
      NormalizeOfWord(w);
    }
    SplitSingleWord(w);
  }

  lemma {:induction false} NormalizeOfWord(w: string)
    requires forall i | 0 <= i < |w| :: !IsSeparator(w[i])
    ensures Normalize(w) == w
    decreases |w|
  {
    if w != [] {
      NormalizeOfWord(w[1..]);
      assert w == [w[0]] + w[1..];
    }
  }

  /** Appending a separator and more text keeps the camel-case name built so far and adds
      each further word capitalized: the first word is the only one left as written. */
  lemma CamelCaseAppend(a: string, c: char, b: string)
    requires IsSeparator(c) && Words(a) != []
    ensures CamelCaseDefined(a + [c] + b)
    ensures ToCamelCase(a + [c] + b) == ToCamelCase(a) + CapitalizeAll(Words(b))
  {
    WordsOfAppend(a, c, b);
    var wa := Words(a);
    assert (wa + Words(b))[0] == wa[0];
    assert (wa + Words(b))[1..] == wa[1..] + Words(b);
    CapitalizeAllAppend(wa[1..], Words(b));
  }

  // ----- dereference

  /** `dereference` leaves a name without a leading `#` as it is. */
  lemma DereferenceUnchanged(name: string)
    requires name == [] || name[0] != '#'
    ensures Dereference(name) == name
  {
  }

  /** `dereference` is idempotent. */
  lemma DereferenceIdempotent(name: string)
    ensures Dereference(Dereference(name)) == Dereference(name)
  {
    DereferenceUnchanged(Dereference(name));
  }

  /** `dereference` removes exactly the leading run of `#`: prepending more `#` changes nothing. */
  lemma {:induction false} DereferenceOfHashes(k: nat, name: string)
    ensures Dereference(seq(k, _ => '#') + name) == Dereference(name)
    decreases k
  {
    if k > 0 {
      var s := seq(k, _ => '#') + name;
      assert s[0] == '#';
      assert s[1..] == seq(k - 1, _ => '#') + name;
      DereferenceOfHashes(k - 1, name);
    } else {
      assert seq(k, _ => '#') + name == name;
    }
  }
}
