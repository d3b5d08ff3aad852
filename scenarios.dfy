/** Concrete inputs and what the model does with them. */
module Scenarios {
  import opened Wrappers
  import opened Text
  import opened Naming
  import opened TypeResolution
  import opened AttributesTable
  import opened PageSchema
  import opened SchemaRegistry

  /** Two words joined by one separator: the first kept, the second capitalized
      (`invoice-line` gives `invoiceLine`, `Invoice_Line` gives `InvoiceLine`). */
  lemma CamelCaseOfTwoWords(a: string, c: char, b: string)
    requires a != [] && forall i | 0 <= i < |a| :: !IsSeparator(a[i])
    requires b != [] && forall i | 0 <= i < |b| :: !IsSeparator(b[i])
    requires IsSeparator(c)
    ensures CamelCaseDefined(a + [c] + b) && ToCamelCase(a + [c] + b) == a + Capitalize(b)
  {
    CamelCaseOfWord(a);
    NormalizeOfWord(b);
    SplitSingleWord(b);
    assert CapitalizeAll([b]) == Capitalize(b) + CapitalizeAll([]);
    CamelCaseAppend(a, c, b);
  }

  /** Three words (`Invoice_Line Item` gives `InvoiceLineItem`). */
  lemma CamelCaseOfThreeWords(a: string, c: char, b: string, d: char, e: string)
    requires a != [] && forall i | 0 <= i < |a| :: !IsSeparator(a[i])
    requires b != [] && forall i | 0 <= i < |b| :: !IsSeparator(b[i])
    requires e != [] && forall i | 0 <= i < |e| :: !IsSeparator(e[i])
    requires IsSeparator(c) && IsSeparator(d)
    ensures CamelCaseDefined(a + [c] + b + [d] + e)
    ensures ToCamelCase(a + [c] + b + [d] + e) == a + Capitalize(b) + Capitalize(e)
  {
    CamelCaseOfTwoWords(a, c, b);
    WordsOfAppend(a, c, b);
    CamelCaseOfWord(a);
    NormalizeOfWord(b);
    SplitSingleWord(b);
    NormalizeOfWord(e);
    SplitSingleWord(e);
    assert CapitalizeAll([e]) == Capitalize(e) + CapitalizeAll([]);
    CamelCaseAppend(a + [c] + b, d, e);
  }

  /** A non-empty heading made only of separators has no camel-case name. */
  lemma CamelCaseOfSeparators()
    ensures !CamelCaseDefined(" -_")
  {
    CamelCaseDefinedIff(" -_");
  }

  lemma DereferenceExamples()
    ensures Dereference("#Foo") == "Foo"
    ensures Dereference("Foo") == "Foo"
    ensures Dereference("##Foo") == "Foo"
  {
  }

  /** A required integer row gives one property and one required name. */
  lemma RequiredIntegerRow()
    ensures TableOf([Row(Some("Required attribute"), "id", ["Integer"], None, "The id")])
         == Ok(Table(map["id" := PropertySchema(Some("integer"), "The id", None, None)], ["id"]))
  {
    var row := Row(Some("Required attribute"), "id", ["Integer"], None, "The id");
    var rows := [row];
    assert rows[..0] == [];
    assert ["Integer"] != ArrayPattern;
    assert "Integer" in SimpleTypes && SimpleTypes["Integer"] == ("integer", None);
    assert RowEntry(row) == PropertySchema(Some("integer"), "The id", None, None);
    assert IsRequired(row);
    assert [] + ["id"] == ["id"];
  }

  /** An `Array[ Object ]` row whose link is `#Target` points its items at `Target`'s schema. */
  lemma ArrayRow(title: Option<string>, name: string, target: string, description: string)
    requires target == [] || target[0] != '#'
    ensures RowEntry(Row(title, name, ArrayPattern, Some(['#'] + target), description))
         == PropertySchema(Some("array"), description, Some(SchemasPointer + target), None)
  {
    var href := ['#'] + target;
    assert href[1..] == target;
    DereferenceUnchanged(target);
    ArrayOfReference(href);
    var row := Row(title, name, ArrayPattern, Some(href), description);
    assert !Unreadable(row);
  }

  /** A decimal row carries its format; an unknown empty token gives no format key. */
  lemma FormatRows()
    ensures RowEntry(Row(None, "total", ["Decimal"], None, "")) == PropertySchema(Some("number"), "", None, Some("decimal"))
    ensures RowEntry(Row(None, "odd", [""], None, "")) == PropertySchema(Some("string"), "", None, None)
    ensures RowEntry(Row(None, "note", ["Markdown", "text"], None, "")) == PropertySchema(None, "", None, None)
  {
    assert "" !in SimpleTypes;
  }

  /** Two headings that differ only in their separator and in the case of the second word's
      letters (`Invoice line`, `Invoice-Line`) share a schema name, so the second page stops the
      run even though both parse. */
  lemma CollidingHeadings(a: string, b: string, b': string)
    requires a != [] && forall i | 0 <= i < |a| :: !IsSeparator(a[i])
    requires b != [] && forall i | 0 <= i < |b| :: !IsSeparator(b[i])
    requires b' != [] && forall i | 0 <= i < |b'| :: !IsSeparator(b'[i])
    requires Capitalize(b) == Capitalize(b')
    ensures Aggregate(map[], Parsed([Page(a + [' '] + b, Some([])), Page(a + ['-'] + b', Some([]))])).Err?
  {
    var pages := [Page(a + [' '] + b, Some([])), Page(a + ['-'] + b', Some([]))];
    CamelCaseOfTwoWords(a, ' ', b);
    CamelCaseOfTwoWords(a, '-', b');
    var name := SchemaName(pages[0].groupName);
    assert SchemaName(pages[1].groupName) == name;
    ParsedAt(pages, 0);
    ParsedAt(pages, 1);
    DuplicateNameAborts(map[], Parsed(pages), 0, 1, name);
  }
}
