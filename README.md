# Documentation-to-schema inference of the Fakturoid API scraper, in Dafny

The scraper reads the HTML reference pages of the Fakturoid v3 API. From each page it infers one
schema in the shape of an OpenAPI 3.0.4 Components Object entry. Every row of the page's
attributes table becomes a property with a type, an optional format, optional array `items` and
a description. The page schema is named `camelCase(group heading) + ".Attributes"` and lists its
required properties. All page schemas are merged into one registry that refuses a name it
already holds.

The model is a set of Dafny modules, one per component of `src/main.py`:

- `Wrappers` (`wrappers.dfy`): `Option`, `Result`, `Outcome` and the three failures that stop a
  run (`MissingArrayLink`, `GroupNameWithoutWords`, `NameCollision`).
- `Text` (`text.dfy`): Python's whitespace set, `str.split()`, `str.lower` and `str.capitalize`,
  with the lemmas that characterise `split()`.
- `Naming` (`naming.dfy`): `to_camel_case`, the schema name, `dereference` and the `$ref` string.
- `TypeResolution` (`types.dfy`): the `SIMPLE_TYPES` table and the three-way classification of a
  type cell.
- `AttributesTable` (`table.dfy`): the row record, the property entry of one row, the table as a
  specification function (`TableOf`), and `parse_attributes_table` as a loop proved equal to it.
- `PageSchema` (`page.dfy`): the page record, the wrapping of a table into a named object schema
  (`PageSchemas`), and `parse_page` as a method proved equal to it.
- `SchemaRegistry` (`registry.dfy`): the run as a specification function (`Aggregate`) over the
  sequence of page results, and the mutable registry as a class. Its `MergePage` and `MergeAll`
  methods are the merge loops of `main`.
- `Scenarios` (`scenarios.dfy`): worked inputs, such as one required integer row, an array row and
  two colliding headings.

The HTML tree is abstracted away. A table row is the record
`Row(title, name, typeTokens, href, description)`. `title` is the `title` attribute of the
visibility cell's `div`, or `None` when there is no `div`. `name` is the text of the name cell's
`code` span. `typeTokens` is the `strings` list of the type cell's `code` span. `href` is the
target of the link inside that span. A page is the record `Page(groupName, attributesTable)`, and
`attributesTable` is `None` when the article has no element with id `attributes`.

Three behaviours of the code that are easy to miss:

- A type cell whose single token lowers to the empty string gets no `format` key, because the
  code emits `format` only when it is truthy.
- A row that cannot be read stops the whole run. The code has no per-row recovery: the
  exception propagates out of `parse_page` and `main`.
- Later words of a camel-case name are lower-cased after their first letter (`str.capitalize`).
  The first word is kept as written.

## Model

| member | source | states |
|---|---|---|
| `Text.SplitWords` | src/main.py:24 | `split()` yields non-empty words without whitespace that, concatenated, are the input with its whitespace removed |
| `Text.SplitAtWhitespace` | src/main.py:24 | `split()` at a whitespace character is the split of the left part followed by the split of the right part |
| `Text.SplitSingleWord` | src/main.py:24 | `split()` of one whitespace-free non-empty string is that string alone |
| `Text.SplitEmptyIff` | src/main.py:24-27 | `split()` yields no word exactly when the string is all whitespace |
| `Text.Lower` | src/main.py:117 | `str.lower` keeps the length and lowers each character on its own |
| `Text.Capitalize` | src/main.py:27 | `str.capitalize` keeps the length and changes only letter case; the first character is upper-cased and every later one is in lower case |
| `Text.Normalize` | src/main.py:23 | `replace("-", " ").replace("_", " ")` keeps the length, turns every `-` and `_` into a space and leaves every other character alone |
| `Text.Split` | src/main.py:24 | `str.split()` is defined as the maximal runs of non-whitespace characters, in order; its contract is given by `SplitWords`, `SplitAtWhitespace` and `SplitSingleWord` |
| `Naming.ToCamelCase` | src/main.py:22-27 | `to_camel_case` is defined, where `CamelCaseDefined` lets it return, as the empty text for the empty text and otherwise the first word followed by each later word capitalized; the lemmas below state its properties |
| `Naming.CamelCaseOfEmpty` | src/main.py:25-26 | the empty text is returned unchanged |
| `Naming.CamelCaseDefinedIff` | src/main.py:22-27 | `to_camel_case` returns normally exactly when the text is empty or holds a character other than whitespace, `-` and `_`; otherwise `s[0]` raises |
| `Naming.CamelCaseCharacters` | src/main.py:22-27 | the result holds no whitespace, `-` or `_`, and is the text's other characters in order up to letter case |
| `Naming.CamelCaseOfWord` | src/main.py:27 | a single separator-free word is returned verbatim (the first word keeps its case) |
| `Naming.CamelCaseAppend` | src/main.py:23-27 | appending a separator and more text keeps the name so far and adds each further word capitalized |
| `Naming.WordsOfAppend` | src/main.py:23-24 | `-`, `_` and whitespace all split words alike |
| `Naming.SchemaName` | src/main.py:63 | the schema name is the camel-case group name followed by the literal `.Attributes` |
| `Naming.Dereference` | src/main.py:83-86 | the result is a suffix of the input, everything removed is `#`, and the result does not start with `#` |
| `Naming.DereferenceUnchanged` | src/main.py:86 | a name without a leading `#` is left unchanged |
| `Naming.DereferenceIdempotent` | src/main.py:86 | dereferencing twice is dereferencing once |
| `Naming.DereferenceOfHashes` | src/main.py:86 | any number of leading `#` is removed |
| `TypeResolution.ResolveType` | src/main.py:104-122 | fails exactly for the array pattern without a link; `items` exactly for type `array`; a type exactly for the array pattern or one token; a format only for one token, beside `string` or `number` |
| `TypeResolution.SimpleTypes` | src/main.py:72-80 | the seven documented type tokens and their (type, format) pairs, entry for entry |
| `TypeResolution.KnownScalarTypes` | src/main.py:72-80 | each `SIMPLE_TYPES` token yields its (type, format) pair, e.g. `Decimal` gives (`number`, `decimal`) and `String` gives (`string`, none) |
| `TypeResolution.UnknownScalarType` | src/main.py:113-118 | any other single token yields type `string` with the lowered token as format |
| `TypeResolution.ArrayOfReference` | src/main.py:109-112 | `Array[`, `Object`, `]` with a link yields type `array`, no format, and items `#/components/schemas/` + the dereferenced target |
| `TypeResolution.UnresolvedShapes` | src/main.py:121-122 | every other token sequence yields no type, no items and no format |
| `AttributesTable.RowEntry` | src/main.py:104-131 | the entry of a readable row is well formed (items exactly for arrays, a format only when non-empty and beside `string` or `number`) and carries the row's description |
| `AttributesTable.Accumulate` | src/main.py:89-134 | the table is defined as a fold over the readable rows in order: each row writes its entry over any earlier entry of the same name and, when required, appends its name; `TableRequired`, `TableKeys`, `TableLastWins` and `TableWellFormed` characterise it |
| `AttributesTable.TableOf` | src/main.py:89-134 | the result of `parse_attributes_table` is defined as `MissingArrayLink` when some row is unreadable, and otherwise the fold `Accumulate` |
| `AttributesTable.ParseAttributesTable` | src/main.py:89-134 | the row loop computes `TableOf`; it fails exactly when some row is unreadable; `required` is the required rows' names in order; the keys are the row names; every required name is a key |
| `AttributesTable.TableRequired` | src/main.py:99-102 | `required` lists, in row order, the names of the rows titled exactly `Required attribute`, repeats included |
| `AttributesTable.TableKeys` | src/main.py:124 | `properties` has exactly the row names as keys |
| `AttributesTable.TableLastWins` | src/main.py:124-131 | for a repeated name the entry of its last row is kept |
| `AttributesTable.TableWellFormed` | src/main.py:124-131 | every property entry has `items` exactly for arrays and a non-empty `format` only beside `string` or `number` |
| `AttributesTable.RequiredNamesMembers` | src/main.py:101-102 | a name is required exactly when some row of that name is required |
| `AttributesTable.RequiredNamesEmptyIff` | src/main.py:101-102 | `required` is empty exactly when no row is required |
| `AttributesTable.TableRequiredAreProperties` | src/main.py:102-124 | every name in `required` is a key of `properties` |
| `AttributesTable.RowEntryIgnoresTitle` | src/main.py:98-100 | the visibility title, and so `readonly`, does not change the row's entry |
| `PageSchema.PageSchemas` | src/main.py:54-69 | a page that yields schemas has a group name that is empty or has a word in it, and yields exactly one, named `camelCase(group) + ".Attributes"` |
| `PageSchema.ParsePage` | src/main.py:39-69 | computes `PageSchemas`; yields a schema exactly when the page contributes; yields nothing, without error, exactly when there is no attributes section |
| `PageSchema.PageWithoutAttributes` | src/main.py:39-41 | a page without an attributes heading yields `None`, not an error |
| `PageSchema.PageErrors` | src/main.py:54-63 | a page with an attributes section fails exactly when a row is unreadable or the group name is non-empty with no word in it; the table error comes first |
| `PageSchema.PageShape` | src/main.py:58-69 | a single entry keyed `camelCase(group) + ".Attributes"`, of type `object`, one property per row name, `required` present exactly when some row is required and then the required names |
| `SchemaRegistry.Aggregate` | src/main.py:199-205 | the run is defined as the page results merged in order; it stops at the first page that raised or at the first name already present; `AggregateOkIff`, `AggregateKeys`, `AggregateValues` and `AggregateSize` characterise it |
| `SchemaRegistry.Registry.constructor` | src/main.py:155 | the registry starts empty |
| `SchemaRegistry.Registry.MergePage` | src/main.py:203-205 | fails with `NameCollision` exactly when a name is already present; on success the registry is the old one plus the page's schemas; earlier entries never change |
| `SchemaRegistry.Registry.MergeAll` | src/main.py:199-205 | the page loop computes `Aggregate` and keeps every earlier entry |
| `SchemaRegistry.CollectSchemas` | src/main.py:155-205 | the components schemas are `Aggregate` from an empty registry; success exactly when all pages parse and the inserted names are distinct; then one entry per inserted schema |
| `SchemaRegistry.AggregateOkIff` | src/main.py:201-205 | the run succeeds exactly when every page parses, the inserted names are pairwise distinct and none was already registered |
| `SchemaRegistry.AggregateKeepsEarlier` | src/main.py:204-205 | a successful run leaves every earlier entry unchanged |
| `SchemaRegistry.AggregateKeys` | src/main.py:202-205 | a successful run adds exactly the inserted names, whatever their order |
| `SchemaRegistry.AggregateValues` | src/main.py:202-205 | a successful run stores every inserted schema under its name exactly as its page produced it |
| `SchemaRegistry.AggregateSize` | src/main.py:202-205 | with distinct names the registry grows by exactly the number of inserted schemas |
| `SchemaRegistry.PresentNameAborts` | src/main.py:204 | a page result holding a name that is already registered stops the run |
| `SchemaRegistry.DuplicateNameAborts` | src/main.py:204 | two page results holding the same schema name stop the run, whatever lies between them |
| `SchemaRegistry.PagesInsertOneEach` | src/main.py:54-69 | every parsed page inserts exactly one schema, so the schemas inserted are as many as the pages that yield one |
| `Scenarios.CamelCaseOfTwoWords` | src/main.py:22-27 | two words joined by a separator give the first word followed by the second capitalized (`invoice-line` to `invoiceLine`) |
| `Scenarios.CamelCaseOfThreeWords` | src/main.py:22-27 | `Invoice_Line Item` to `InvoiceLineItem` |
| `Scenarios.CamelCaseOfSeparators` | src/main.py:25-27 | a non-empty heading of separators only has no camel-case name |
| `Scenarios.DereferenceExamples` | src/main.py:83-86 | `#Foo`, `Foo` and `##Foo` all give `Foo` |
| `Scenarios.RequiredIntegerRow` | src/main.py:89-134 | a required `Integer` row `id` gives one integer property and `required == ["id"]` |
| `Scenarios.ArrayRow` | src/main.py:109-131 | an array row linked to `#Target` gets type `array`, items `#/components/schemas/Target` and no format |
| `Scenarios.FormatRows` | src/main.py:113-131 | `Decimal` carries format `decimal`; an empty unknown token gives no format; a two-token cell gives no type |
| `Scenarios.CollidingHeadings` | src/main.py:22-27 | headings differing only in separator and case of later words share a name, so the run stops |

## Left out

- HTTP fetching with `httpx` (src/main.py:20, 32, 191-194): network I/O. Pages arrive as `Page` records.
- BeautifulSoup tree navigation (src/main.py:34-52, 94-104, 126): a foreign library. Its results are the fields of `Row` and `Page`. The model assumes what the code assumes without checking: the `api-article` container and its `h1` exist, every row has four element cells, the name cell has a `code` span with a single string, the type cell has a `code` span, a marker `div` has a `title`, and the attributes heading is followed by a `div` with a table and a further `div`.
- The diagnostics sent to `Actor.log` (src/main.py:30, 51-52, 84, 116, 122): observability only, and they never change a schema.
- Reading the actor input and `Actor.push_data` (src/main.py:146-153, 207): platform I/O.
- The constant `openapi_info`, `servers` and `externalDoc` literals and the `"openapi": "3.0.4"` wrapper (src/main.py:157-188): static data.
- Link discovery over `li.pb-1` items (src/main.py:199-200): tree navigation. `MergeAll` takes the pages in document order.
- `notes_table_div`, `subobjects_headings_tags` and `requests_headings_tags` (src/main.py:46-52): they are only logged.
- The `async`/`await` structure: there is no concurrency in the core.
- Python dicts remember insertion order, and Dafny maps do not. So the model does not capture the order of `properties` or of the registry; `required` keeps its order.
- `Text.Lower`, `Text.Capitalize`: they change only ASCII letters, while Python's `str.lower` and `str.capitalize` map all Unicode letters.
- `Registry.MergeAll`: the merge check is Python's `assert`. Under `python -O` that check is skipped and a duplicate name overwrites the earlier entry; the model always checks.
- `readonly` (src/main.py:98-100) is computed by the source and never used. The model does not compute it, and `RowEntryIgnoresTitle` states that the title cannot matter.
