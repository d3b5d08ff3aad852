/** The attributes table of one documentation page: `parse_attributes_table`
    (src/main.py lines 89-134). Each table row arrives as a record of what the loop reads from
    its four cells. */
module AttributesTable {
  import opened Wrappers
  import opened Naming
  import opened TypeResolution

  /** One body row of the attributes table.
      `title`: the `title` attribute of the marker `div` of the first cell, `None` when there is
      no marker; `name`: the text of the `code` span of the second cell; `typeTokens`: the text
      pieces of the `code` span of the third cell; `href`: the target of the link inside that
      span, if there is one; `description`: the text of the fourth cell. */
  datatype Row = Row(
    title: Option<string>,
    name: string,
    typeTokens: seq<string>,
    href: Option<string>,
    description: string)

  /** One entry of `properties`: the keys `type` and `description`, and `items` (a `$ref`)
      and `format` when present. */
  datatype PropertySchema = PropertySchema(
    propType: Option<string>,
    description: string,
    itemsRef: Option<string>,
    format: Option<string>)

  /** What `parse_attributes_table` returns: the `properties` dict and the `required` list. */
  datatype Table = Table(properties: map<string, PropertySchema>, required: seq<string>)

  const RequiredTitle: string := "Required attribute"

  predicate IsRequired(row: Row) {
    row.title == Some(RequiredTitle)
  }

  /** The shape every emitted property has: `items` exactly for arrays, a non-empty `format`
      only beside a string or number type, and nothing but a description for an unresolved type. */
  predicate WellFormed(p: PropertySchema) {
    && (p.itemsRef.Some? <==> p.propType == Some("array"))
    && (p.format.Some? ==> p.format.value != "" && p.propType in {Some("string"), Some("number")})
    && (p.propType.None? ==> p.format.None? && p.itemsRef.None?)
  }

  /** A row the loop cannot read: its type cell has the array pattern but no link target. */
  predicate Unreadable(row: Row) {
    row.typeTokens == ArrayPattern && row.href.None?
  }

  predicate AllReadable(rows: seq<Row>) {
    forall i | 0 <= i < |rows| :: !Unreadable(rows[i])
  }

  /** The entry the loop writes for one readable row: `format` only when it is truthy. */
  function RowEntry(row: Row): (p: PropertySchema)
    requires !Unreadable(row)
    ensures WellFormed(p) && p.description == row.description
  {
    var res := ResolveType(row.typeTokens, row.href).value;
    var format := if res.format.Some? && res.format.value != "" then res.format else None;
    PropertySchema(res.propType, row.description, res.itemsRef, format)
  }

  /** The table after its readable rows have been read in order: each row writes its entry
      over any earlier one of the same name and, when required, appends its name to `required`. */
  function Accumulate(rows: seq<Row>): Table
    requires AllReadable(rows)
    decreases |rows|
  {
    if rows == [] then Table(map[], [])
    else
      var row := rows[|rows| - 1];
      var t := Accumulate(rows[..|rows| - 1]);
      Table(t.properties[row.name := RowEntry(row)],
            if IsRequired(row) then t.required + [row.name] else t.required)
  }

  /** What `parse_attributes_table` returns, or the exception that one unreadable row raises. */
  function TableOf(rows: seq<Row>): Result<Table, Error> {
    if AllReadable(rows) then Ok(Accumulate(rows)) else Err(MissingArrayLink)
  }

  /** The names of the required rows, in row order (repeated names repeat). */
  function RequiredNames(rows: seq<Row>): seq<string> {
    if rows == [] then []
    else (if IsRequired(rows[0]) then [rows[0].name] else []) + RequiredNames(rows[1..])
  }

  /** The names of all rows. */
  function Names(rows: seq<Row>): set<string> {
    set i | 0 <= i < |rows| :: rows[i].name
  }

  /** Row `i` is the last row carrying its name. */
  predicate IsLastWithName(rows: seq<Row>, i: int)
    requires 0 <= i < |rows|
  {
    forall j | i < j < |rows| :: rows[j].name != rows[i].name
  }

  /** The row loop of `parse_attributes_table`. */
  method ParseAttributesTable(rows: seq<Row>) returns (res: Result<Table, Error>)
    ensures res == TableOf(rows)
    ensures res.Err? <==> exists i | 0 <= i < |rows| :: Unreadable(rows[i])
    ensures res.Ok? ==> res.value.required == RequiredNames(rows)
    ensures res.Ok? ==> res.value.properties.Keys == Names(rows)
    ensures res.Ok? ==> forall n | n in res.value.required :: n in res.value.properties
  {
    var properties: map<string, PropertySchema> := map[];
    var required: seq<string> := [];
    var i := 0;
    while i < |rows|
      invariant 0 <= i <= |rows|
      invariant AllReadable(rows[..i])
      invariant Accumulate(rows[..i]) == Table(properties, required)
    {
      var row := rows[i];
      if IsRequired(row) {
        required := required + [row.name];
      }
      var resolution := ResolveType(row.typeTokens, row.href);
      if resolution.Err? {
        return Err(resolution.error);
      }
      var prop := PropertySchema(resolution.value.propType, row.description, None, None);
      if resolution.value.itemsRef.Some? {
        prop := prop.(itemsRef := resolution.value.itemsRef);
      }
      if resolution.value.format.Some? && resolution.value.format.value != "" {
        prop := prop.(format := resolution.value.format);
      }
      properties := properties[row.name := prop];
      assert rows[..i + 1][..i] == rows[..i];
      i := i + 1;
    }
    assert rows[..i] == rows;
    res := Ok(Table(properties, required));
    TableRequired(rows);
    TableKeys(rows);
    TableRequiredAreProperties(rows);
  }

  // ----- facts about the table

  lemma {:induction false} RequiredNamesSnoc(rows: seq<Row>, row: Row)
    ensures RequiredNames(rows + [row]) == RequiredNames(rows) + (if IsRequired(row) then [row.name] else [])
    decreases |rows|
  {
    if rows == [] {
      assert rows + [row] == [row];
    } else {
      assert (rows + [row])[0] == rows[0];
      assert (rows + [row])[1..] == rows[1..] + [row];
      RequiredNamesSnoc(rows[1..], row);
    }
  }

  /** `required` lists the names of the required rows, in row order. */
  lemma {:induction false} TableRequired(rows: seq<Row>)
    requires AllReadable(rows)
    ensures Accumulate(rows).required == RequiredNames(rows)
    decreases |rows|
  {
    if rows != [] {
      var p := rows[..|rows| - 1];
      TableRequired(p);
      assert rows == p + [rows[|rows| - 1]];
      RequiredNamesSnoc(p, rows[|rows| - 1]);
    }
  }

  /** `properties` has exactly one key per distinct row name. */
  lemma {:induction false} TableKeys(rows: seq<Row>)
    requires AllReadable(rows)
    ensures Accumulate(rows).properties.Keys == Names(rows)
    decreases |rows|
  {
    if rows != [] {
      var p := rows[..|rows| - 1];
      TableKeys(p);
      assert forall i | 0 <= i < |p| :: p[i] == rows[i];
      assert Names(rows) == Names(p) + {rows[|rows| - 1].name} by {
        forall n | n in Names(rows) ensures n in Names(p) + {rows[|rows| - 1].name} {
          var i :| 0 <= i < |rows| && rows[i].name == n;
          if i < |p| { assert p[i].name == n; }
        }
      }
    }
  }

  /** For a repeated name the last row's entry is the one kept. */
  lemma {:induction false} TableLastWins(rows: seq<Row>)
    requires AllReadable(rows)
    ensures forall i | 0 <= i < |rows| && IsLastWithName(rows, i) ::
      rows[i].name in Accumulate(rows).properties && Accumulate(rows).properties[rows[i].name] == RowEntry(rows[i])
    decreases |rows|
  {
    if rows != [] {
      var p := rows[..|rows| - 1];
      var last := rows[|rows| - 1];
      TableLastWins(p);
      forall i | 0 <= i < |rows| && IsLastWithName(rows, i)
        ensures rows[i].name in Accumulate(rows).properties
        ensures Accumulate(rows).properties[rows[i].name] == RowEntry(rows[i])
      {
        if i < |p| {
          assert rows[i] == p[i];
          assert last.name != rows[i].name;
          assert IsLastWithName(p, i) by {
            forall j | i < j < |p| ensures p[j].name != p[i].name {
              assert p[j] == rows[j];
            }
          }
        }
      }
    }
  }

  /** Every property entry has the well-formed shape. */
  lemma {:induction false} TableWellFormed(rows: seq<Row>)
    requires AllReadable(rows)
    ensures forall n | n in Accumulate(rows).properties :: WellFormed(Accumulate(rows).properties[n])
    decreases |rows|
  {
    if rows != [] {
      TableWellFormed(rows[..|rows| - 1]);
    }
  }

  /** A name is in `required` exactly when some row of that name is required. */
  lemma {:induction false} RequiredNamesMembers(rows: seq<Row>, n: string)
    ensures n in RequiredNames(rows) <==> exists i | 0 <= i < |rows| :: rows[i].name == n && IsRequired(rows[i])
    decreases |rows|
  {
    if rows != [] {
      RequiredNamesMembers(rows[1..], n);
      assert forall i | 1 <= i < |rows| :: rows[i] == rows[1..][i - 1];
      if exists i | 0 <= i < |rows| :: rows[i].name == n && IsRequired(rows[i]) {
        var i :| 0 <= i < |rows| && rows[i].name == n && IsRequired(rows[i]);
        if i > 0 { assert rows[1..][i - 1] == rows[i]; }
      }
    }
  }

  /** `required` is empty exactly when no row is required. */
  lemma RequiredNamesEmptyIff(rows: seq<Row>)
    ensures RequiredNames(rows) == [] <==> forall i | 0 <= i < |rows| :: !IsRequired(rows[i])
  {
    if RequiredNames(rows) != [] {
      RequiredNamesMembers(rows, RequiredNames(rows)[0]);
    }
    if exists i | 0 <= i < |rows| :: IsRequired(rows[i]) {
      var i :| 0 <= i < |rows| && IsRequired(rows[i]);
      RequiredNamesMembers(rows, rows[i].name);
    }
  }

  /** Every name in `required` is a key of `properties`. */
  lemma TableRequiredAreProperties(rows: seq<Row>)
    requires AllReadable(rows)
    ensures forall n | n in Accumulate(rows).required :: n in Accumulate(rows).properties
  {
    TableRequired(rows);
    TableKeys(rows);
    forall n | n in Accumulate(rows).required ensures n in Names(rows) {
      RequiredNamesMembers(rows, n);
    }
  }

  /** The visibility marker decides only whether the row is required: a read-only marker, an
      unknown title or no marker at all give the same entry. */
  lemma RowEntryIgnoresTitle(row: Row, title: Option<string>)
    requires !Unreadable(row)
    ensures RowEntry(row.(title := title)) == RowEntry(row)
  {
  }
}
