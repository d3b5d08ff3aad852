/** One documentation page turned into its named schema: the part of `parse_page` after the
    page has been fetched and parsed (src/main.py lines 39-41 and 54-69). */
module PageSchema {
  import opened Wrappers
  import opened Naming
  import opened AttributesTable

  /** What `parse_page` reads from a page: the text of the group heading (`h1`) above the
      article, and the rows of the attributes table, or `None` when the article has no
      element with id `attributes`. */
  datatype Page = Page(groupName: string, attributesTable: Option<seq<Row>>)

  /** A schema in the components section: `type`, `properties` and, when present, `required`. */
  datatype ObjectSchema = ObjectSchema(
    schemaType: string,
    properties: map<string, PropertySchema>,
    required: Option<seq<string>>)

  /** The object schema wrapping a parsed table: `required` only when the list is non-empty. */
  function ObjectSchemaOf(t: Table): ObjectSchema {
    ObjectSchema("object", t.properties, if |t.required| > 0 then Some(t.required) else None)
  }

  /** The schemas a page contributes: none without an attributes section, else one entry. */
  function PageSchemas(page: Page): (r: Result<Option<map<string, ObjectSchema>>, Error>)
    ensures r.Ok? && r.value.Some? ==> CamelCaseDefined(page.groupName) && r.value.value.Keys == {SchemaName(page.groupName)}
  {
    match page.attributesTable
    case None => Ok(None)
    case Some(rows) =>
      match TableOf(rows)
      case Err(e) => Err(e)
      case Ok(t) =>
        if !CamelCaseDefined(page.groupName) then Err(GroupNameWithoutWords)
        else Ok(Some(map[SchemaName(page.groupName) := ObjectSchemaOf(t)]))
  }

  /** The page has an attributes section that parses and a group name that is empty or has a
      word in it. */
  predicate Contributes(page: Page) {
    && page.attributesTable.Some?
    && TableOf(page.attributesTable.value).Ok?
    && CamelCaseDefined(page.groupName)
  }

  /** `parse_page` from the attributes heading on. */
  method ParsePage(page: Page) returns (res: Result<Option<map<string, ObjectSchema>>, Error>)
    ensures res == PageSchemas(page)
    ensures res.Ok? && res.value.Some? <==> Contributes(page)
    ensures res == Ok(None) <==> page.attributesTable.None?
  {
    if page.attributesTable.None? {
      return Ok(None);
    }
    var table := ParseAttributesTable(page.attributesTable.value);
    if table.Err? {
      return Err(table.error);
    }
    var schema := ObjectSchema("object", table.value.properties, None);
    if !CamelCaseDefined(page.groupName) {
      return Err(GroupNameWithoutWords);
    }
    var name := SchemaName(page.groupName);
    if |table.value.required| > 0 {
      schema := schema.(required := Some(table.value.required));
    }
    res := Ok(Some(map[name := schema]));
  }

  /** A page without an attributes section contributes nothing and is not an error. */
  lemma PageWithoutAttributes(group: string)
    ensures PageSchemas(Page(group, None)) == Ok(None)
  {
  }

  /** A page fails exactly when its table has an unreadable row or its group name is non-empty
      with no word in it; the table is read first. */
  lemma PageErrors(page: Page)
    requires page.attributesTable.Some?
    ensures PageSchemas(page).Err? <==>
      (exists i | 0 <= i < |page.attributesTable.value| :: Unreadable(page.attributesTable.value[i]))
      || !CamelCaseDefined(page.groupName)
    ensures TableOf(page.attributesTable.value).Err? ==> PageSchemas(page) == Err(MissingArrayLink)
  {
  }

  /** A contributing page yields one schema, named after its group with the `.Attributes`
      suffix, of type `object`, with one property per distinct row name, in which `required`
      is present exactly when some row is required and then lists the required rows' names. */
  lemma PageShape(page: Page)
    requires Contributes(page)
    ensures PageSchemas(page).Ok? && PageSchemas(page).value.Some?
    ensures var m := PageSchemas(page).value.value;
      && m.Keys == {ToCamelCase(page.groupName) + AttributesSuffix}
      && var s := m[ToCamelCase(page.groupName) + AttributesSuffix];
      && s.schemaType == "object"
      && s.properties.Keys == Names(page.attributesTable.value)
      && (s.required.Some? <==> exists i | 0 <= i < |page.attributesTable.value| :: IsRequired(page.attributesTable.value[i]))
      && (s.required.Some? ==> s.required.value == RequiredNames(page.attributesTable.value))
  {
    var rows := page.attributesTable.value;
    TableKeys(rows);
    TableRequired(rows);
    RequiredNamesEmptyIff(rows);
  }
}
