/** Type resolution for one attribute's type cell (src/main.py lines 72-80 and 104-122). */
module TypeResolution {
  import opened Wrappers
  import opened Text
  import opened Naming

  /** `SIMPLE_TYPES`: the known scalar type names and their (type, format) pairs. */
  const SimpleTypes: map<string, (string, Option<string>)> := map[
    "String" := ("string", None),
    "Integer" := ("integer", None),
    "Boolean" := ("boolean", None),
    "DateTime" := ("string", Some("date-time")),
    "Datetime" := ("string", Some("date-time")),
    "Date" := ("string", Some("date")),
    "Decimal" := ("number", Some("decimal"))
  ]

  /** The text tokens of a type cell that reads `Array[ Object ]` with `Object` a link. */
  const ArrayPattern: seq<string> := ["Array[", "Object", "]"]

  /** What the row loop knows after resolving a type cell: `prop_type` (`None` when the cell
      made no sense), the `$ref` of `items` (absent while `items` is the falsy `[]`) and
      `prop_format`. */
  datatype Resolution = Resolution(propType: Option<string>, itemsRef: Option<string>, format: Option<string>)

  /** Resolves the type cell's tokens; `href` is the target of the link inside the cell, if any. */
  function ResolveType(tokens: seq<string>, href: Option<string>): (r: Result<Resolution, Error>)
    ensures r.Err? <==> tokens == ArrayPattern && href.None?
    ensures r.Err? ==> r.error == MissingArrayLink
    ensures r.Ok? ==> (r.value.itemsRef.Some? <==> r.value.propType == Some("array"))
    ensures r.Ok? ==> (r.value.propType.Some? <==> tokens == ArrayPattern || |tokens| == 1)
    ensures r.Ok? && r.value.format.Some? ==>
      |tokens| == 1 && r.value.propType in {Some("string"), Some("number")}
  {
    if tokens == ArrayPattern then
      match href
      case None => Err(MissingArrayLink)
      case Some(target) => Ok(Resolution(Some("array"), Some(SchemaRef(target)), None))
    else if |tokens| == 1 then
      if tokens[0] in SimpleTypes then
        Ok(Resolution(Some(SimpleTypes[tokens[0]].0), None, SimpleTypes[tokens[0]].1))
      else
        Ok(Resolution(Some("string"), None, Some(Lower(tokens[0]))))
    else
      Ok(Resolution(None, None, None))
  }

  /** The documented scalar types resolve to exactly their table entries, whatever the link. */
  lemma KnownScalarTypes(href: Option<string>)
    ensures ResolveType(["String"], href) == Ok(Resolution(Some("string"), None, None))
    ensures ResolveType(["Integer"], href) == Ok(Resolution(Some("integer"), None, None))
    ensures ResolveType(["Boolean"], href) == Ok(Resolution(Some("boolean"), None, None))
    ensures ResolveType(["DateTime"], href) == Ok(Resolution(Some("string"), None, Some("date-time")))
    ensures ResolveType(["Datetime"], href) == Ok(Resolution(Some("string"), None, Some("date-time")))
    ensures ResolveType(["Date"], href) == Ok(Resolution(Some("string"), None, Some("date")))
    ensures ResolveType(["Decimal"], href) == Ok(Resolution(Some("number"), None, Some("decimal")))
  {
  }

  /** Any other single token falls back to `string` with the lowered token as its format. */
  lemma UnknownScalarType(token: string, href: Option<string>)
    requires token !in SimpleTypes
    ensures ResolveType([token], href) == Ok(Resolution(Some("string"), None, Some(Lower(token))))
  {
  }

  /** The array pattern with a link gives an array whose items point at the dereferenced target. */
  lemma ArrayOfReference(target: string)
    ensures ResolveType(ArrayPattern, Some(target))
         == Ok(Resolution(Some("array"), Some(SchemasPointer + Dereference(target)), None))
  {
  }

  /** Every other shape of type cell is left unresolved, with neither items nor format. */
  lemma UnresolvedShapes(tokens: seq<string>, href: Option<string>)
    requires tokens != ArrayPattern && |tokens| != 1
    ensures ResolveType(tokens, href) == Ok(Resolution(None, None, None))
  {
  }
}
