/** The components registry that `main` fills page by page (src/main.py lines 155 and 199-205). */
module SchemaRegistry {
  import opened Wrappers
  import opened Naming
  import opened PageSchema

  type Schemas = map<string, ObjectSchema>

  /** What `parse_page` gives back for one page: its schemas, `None`, or the exception it raised. */
  type PageResult = Result<Option<Schemas>, Error>

  /** The results of parsing the pages in order. */
  function Parsed(pages: seq<Page>): (rs: seq<PageResult>)
    ensures |rs| == |pages|
  {
    if pages == [] then [] else [PageSchemas(pages[0])] + Parsed(pages[1..])
  }

  /** The registry after the page results have been merged in order, or the failure that stopped
      the run: a page that raised, or a schema name already present. */
  function Aggregate(registry: Schemas, results: seq<PageResult>): Result<Schemas, Error>
    decreases |results|
  {
    if results == [] then Ok(registry)
    else
      match results[0]
      case Err(e) => Err(e)
      case Ok(None) => Aggregate(registry, results[1..])
      case Ok(Some(m)) =>
        if m.Keys !! registry.Keys then Aggregate(registry + m, results[1..])
        else Err(NameCollision)
  }

  /** The schema maps the results insert, in order (`if schemas:` skips `None`). */
  function Inserted(results: seq<PageResult>): seq<Schemas> {
    if results == [] then []
    else if results[0].Ok? && results[0].value.Some? then [results[0].value.value] + Inserted(results[1..])
    else Inserted(results[1..])
  }

  predicate AllOk(results: seq<PageResult>) {
    forall i | 0 <= i < |results| :: results[i].Ok?
  }

  /** No name is inserted twice. */
  predicate PairwiseDisjoint(ms: seq<Schemas>) {
    forall i, j | 0 <= i < j < |ms| :: ms[i].Keys !! ms[j].Keys
  }

  /** Every name inserted. */
  function KeysOf(ms: seq<Schemas>): set<string> {
    if ms == [] then {} else ms[0].Keys + KeysOf(ms[1..])
  }

  /** The number of schemas inserted. */
  function SizeOf(ms: seq<Schemas>): nat {
    if ms == [] then 0 else |ms[0]| + SizeOf(ms[1..])
  }

  /** `openapi_components["schemas"]`, written only by the merge loop. */
  class Registry {
    var schemas: Schemas

    constructor ()
      ensures schemas == map[]
    {
      schemas := map[];
    }

    /** The inner merge loop over one page's schemas: assert the name is new, then store it. */
    method MergePage(page: Schemas) returns (outcome: Outcome<Error>)
      modifies this
      ensures outcome == if page.Keys !! old(schemas).Keys then Pass else Fail(NameCollision)
      ensures outcome.Pass? ==> schemas == old(schemas) + page
      ensures forall n | n in old(schemas) :: n in schemas && schemas[n] == old(schemas)[n]
    {
      var pending := page.Keys;
      while pending != {}
        invariant pending <= page.Keys
        invariant schemas.Keys == old(schemas).Keys + (page.Keys - pending)
        invariant (page.Keys - pending) !! old(schemas).Keys
        invariant forall n | n in old(schemas) :: schemas[n] == old(schemas)[n]
        invariant forall n | n in page.Keys - pending :: schemas[n] == page[n]
        decreases pending
      {
        var name :| name in pending;
        if name in schemas {
          return Fail(NameCollision);
        }
        schemas := schemas[name := page[name]];
        pending := pending - {name};
      }
      assert schemas == old(schemas) + page;
      return Pass;
    }

    /** The page loop of `main`: parse each page and merge what it yields. */
    method MergeAll(pages: seq<Page>) returns (outcome: Outcome<Error>)
      modifies this
      ensures outcome.Pass? <==> Aggregate(old(schemas), Parsed(pages)).Ok?
      ensures outcome.Pass? ==> schemas == Aggregate(old(schemas), Parsed(pages)).value
      ensures outcome.Fail? ==> Aggregate(old(schemas), Parsed(pages)) == Err(outcome.error)
      ensures forall n | n in old(schemas) :: n in schemas && schemas[n] == old(schemas)[n]
    {
      var i := 0;
      while i < |pages|
        invariant 0 <= i <= |pages|
        invariant Aggregate(old(schemas), Parsed(pages)) == Aggregate(schemas, Parsed(pages[i..]))
        invariant forall n | n in old(schemas) :: n in schemas && schemas[n] == old(schemas)[n]
      {
        assert pages[i..][0] == pages[i] && pages[i..][1..] == pages[i + 1..];
        assert Parsed(pages[i..]) == [PageSchemas(pages[i])] + Parsed(pages[i + 1..]);
        var result := ParsePage(pages[i]);
        if result.Err? {
          return Fail(result.error);
        }
        if result.value.Some? {
          var merged := MergePage(result.value.value);
          if merged.Fail? {
            return merged;
          }
        }
        i := i + 1;
      }
      return Pass;
    }
  }

  /** The components schemas of the run: an empty registry filled from every page. */
  method CollectSchemas(pages: seq<Page>) returns (res: Result<Schemas, Error>)
    ensures res == Aggregate(map[], Parsed(pages))
    ensures res.Ok? <==> AllOk(Parsed(pages)) && PairwiseDisjoint(Inserted(Parsed(pages)))
    ensures res.Ok? ==> |res.value| == |Inserted(Parsed(pages))|
  {
    var registry := new Registry();
    var outcome := registry.MergeAll(pages);
    if outcome.Fail? {
      res := Err(outcome.error);
    } else {
      res := Ok(registry.schemas);
    }
    AggregateOkIff(map[], Parsed(pages));
    AggregateSize(map[], Parsed(pages));
    PagesInsertOneEach(pages);
  }

  // ----- facts about the merge

  lemma AllOkCons(results: seq<PageResult>)
    requires results != []
    ensures AllOk(results) <==> results[0].Ok? && AllOk(results[1..])
  {
    assert forall i | 1 <= i < |results| :: results[i] == results[1..][i - 1];
  }

  lemma PairwiseDisjointCons(m: Schemas, ms: seq<Schemas>)
    ensures PairwiseDisjoint([m] + ms) <==> m.Keys !! KeysOf(ms) && PairwiseDisjoint(ms)
  {
    var t := [m] + ms;
    assert forall i | 1 <= i < |t| :: t[i] == ms[i - 1];
    KeysOfMembers(ms);
    if PairwiseDisjoint(t) {
      forall i, j | 0 <= i < j < |ms| ensures ms[i].Keys !! ms[j].Keys {
        assert ms[i] == t[i + 1] && ms[j] == t[j + 1];
      }
      forall n | n in KeysOf(ms) ensures n !in m.Keys {
        var k :| 0 <= k < |ms| && n in ms[k];
        assert t[0] == m && t[k + 1] == ms[k];
      }
    }
    if m.Keys !! KeysOf(ms) && PairwiseDisjoint(ms) {
      forall i, j | 0 <= i < j < |t| ensures t[i].Keys !! t[j].Keys {
        if i == 0 {
          assert t[j] == ms[j - 1];
        } else {
          assert t[i] == ms[i - 1] && t[j] == ms[j - 1];
        }
      }
    }
  }

  /** A name is inserted exactly when one of the inserted maps holds it. */
  lemma {:induction false} KeysOfMembers(ms: seq<Schemas>)
    ensures forall n :: n in KeysOf(ms) <==> exists k | 0 <= k < |ms| :: n in ms[k]
    decreases |ms|
  {
    if ms != [] {
      KeysOfMembers(ms[1..]);
      assert forall k | 1 <= k < |ms| :: ms[k] == ms[1..][k - 1];
    }
  }

  /** The run succeeds exactly when every page parses, no name is inserted twice and no
      inserted name is already in the registry. */
  lemma {:induction false} AggregateOkIff(registry: Schemas, results: seq<PageResult>)
    ensures Aggregate(registry, results).Ok? <==>
      AllOk(results) && PairwiseDisjoint(Inserted(results)) && KeysOf(Inserted(results)) !! registry.Keys
    decreases |results|
  {
    if results != [] {
      AllOkCons(results);
      var rest := results[1..];
      match results[0]
      case Err(_) =>
      case Ok(None) =>
        AggregateOkIff(registry, rest);
      case Ok(Some(m)) =>
        PairwiseDisjointCons(m, Inserted(rest));
        if m.Keys !! registry.Keys {
          AggregateOkIff(registry + m, rest);
        } else {
          assert Inserted(results) == [m] + Inserted(rest);
        }
    }
  }

  /** A successful run keeps every entry that was already in the registry. */
  lemma {:induction false} AggregateKeepsEarlier(registry: Schemas, results: seq<PageResult>)
    ensures Aggregate(registry, results).Ok? ==>
      forall n | n in registry :: n in Aggregate(registry, results).value && Aggregate(registry, results).value[n] == registry[n]
    decreases |results|
  {
    if results != [] {
      match results[0]
      case Err(_) =>
      case Ok(None) =>
        AggregateKeepsEarlier(registry, results[1..]);
      case Ok(Some(m)) =>
        if m.Keys !! registry.Keys {
          AggregateKeepsEarlier(registry + m, results[1..]);
        }
    }
  }

  /** A successful run adds exactly the inserted names, whatever their order. */
  lemma {:induction false} AggregateKeys(registry: Schemas, results: seq<PageResult>)
    ensures Aggregate(registry, results).Ok? ==>
      Aggregate(registry, results).value.Keys == registry.Keys + KeysOf(Inserted(results))
    decreases |results|
  {
    if results != [] {
      match results[0]
      case Err(_) =>
      case Ok(None) =>
        AggregateKeys(registry, results[1..]);
      case Ok(Some(m)) =>
        if m.Keys !! registry.Keys {
          AggregateKeys(registry + m, results[1..]);
        }
    }
  }

  /** A successful run stores every inserted schema as its page produced it. */
  lemma {:induction false} AggregateValues(registry: Schemas, results: seq<PageResult>)
    ensures Aggregate(registry, results).Ok? ==>
      forall k, n | 0 <= k < |Inserted(results)| && n in Inserted(results)[k] ::
        n in Aggregate(registry, results).value && Aggregate(registry, results).value[n] == Inserted(results)[k][n]
    decreases |results|
  {
    if results != [] {
      var rest := results[1..];
      match results[0]
      case Err(_) =>
      case Ok(None) =>
        AggregateValues(registry, rest);
      case Ok(Some(m)) =>
        if m.Keys !! registry.Keys && Aggregate(registry + m, rest).Ok? {
          AggregateValues(registry + m, rest);
          AggregateKeepsEarlier(registry + m, rest);
          var ms := Inserted(results);
          assert ms == [m] + Inserted(rest);
          forall k, n | 0 <= k < |ms| && n in ms[k]
            ensures n in Aggregate(registry, results).value && Aggregate(registry, results).value[n] == ms[k][n]
          {
            if k > 0 {
              assert ms[k] == Inserted(rest)[k - 1];
            }
          }
        }
    }
  }

  /** With distinct names the registry grows by exactly the number of inserted schemas. */
  lemma {:induction false} AggregateSize(registry: Schemas, results: seq<PageResult>)
    ensures Aggregate(registry, results).Ok? ==>
      |Aggregate(registry, results).value| == |registry| + SizeOf(Inserted(results))
    decreases |results|
  {
    if results != [] {
      match results[0]
      case Err(_) =>
      case Ok(None) =>
        AggregateSize(registry, results[1..]);
      case Ok(Some(m)) =>
        if m.Keys !! registry.Keys {
          assert (registry + m).Keys == registry.Keys + m.Keys;
          assert |(registry + m).Keys| == |registry.Keys| + |m.Keys|;
          AggregateSize(registry + m, results[1..]);
        }
    }
  }

  /** A page result holding a name that is already registered stops the run. */
  lemma {:induction false} PresentNameAborts(registry: Schemas, results: seq<PageResult>, j: nat, name: string)
    requires j < |results| && results[j].Ok? && results[j].value.Some? && name in results[j].value.value
    requires name in registry
    ensures Aggregate(registry, results).Err?
    decreases j
  {
    if j > 0 {
      assert results[1..][j - 1] == results[j];
      match results[0]
      case Err(_) =>
      case Ok(None) =>
        PresentNameAborts(registry, results[1..], j - 1, name);
      case Ok(Some(m)) =>
        if m.Keys !! registry.Keys {
          PresentNameAborts(registry + m, results[1..], j - 1, name);
        }
    }
  }

  /** Two pages that yield the same schema name stop the run: the second one fails the merge
      assertion. */
  lemma {:induction false} DuplicateNameAborts(registry: Schemas, results: seq<PageResult>, i: nat, j: nat, name: string)
    requires i < j < |results|
    requires results[i].Ok? && results[i].value.Some? && name in results[i].value.value
    requires results[j].Ok? && results[j].value.Some? && name in results[j].value.value
    ensures Aggregate(registry, results).Err?
    decreases i
  {
    var rest := results[1..];
    assert rest[j - 1] == results[j];
    match results[0]
    case Err(_) =>
    case Ok(None) =>
      assert rest[i - 1] == results[i];
      DuplicateNameAborts(registry, rest, i - 1, j - 1, name);
    case Ok(Some(m)) =>
      if m.Keys !! registry.Keys {
        if i == 0 {
          PresentNameAborts(registry + m, rest, j - 1, name);
        } else {
          assert rest[i - 1] == results[i];
          DuplicateNameAborts(registry + m, rest, i - 1, j - 1, name);
        }
      }
  }

  // ----- from pages to results

  lemma {:induction false} ParsedAt(pages: seq<Page>, k: nat)
    requires k < |pages|
    ensures Parsed(pages)[k] == PageSchemas(pages[k])
    decreases k
  {
    if k > 0 {
      assert pages[1..][k - 1] == pages[k];
      ParsedAt(pages[1..], k - 1);
    }
  }

  /** Results that each hold at most one schema insert one schema per map. */
  lemma {:induction false} SingletonsInsertOneEach(results: seq<PageResult>)
    requires forall k | 0 <= k < |results| && results[k].Ok? && results[k].value.Some? :: |results[k].value.value| == 1
    ensures forall k | 0 <= k < |Inserted(results)| :: |Inserted(results)[k]| == 1
    ensures SizeOf(Inserted(results)) == |Inserted(results)|
    decreases |results|
  {
    if results != [] {
      var rest := results[1..];
      assert forall k | 0 <= k < |rest| :: rest[k] == results[k + 1];
      SingletonsInsertOneEach(rest);
      var ms := Inserted(results);
      if results[0].Ok? && results[0].value.Some? {
        assert ms == [results[0].value.value] + Inserted(rest);
        assert forall k | 1 <= k < |ms| :: ms[k] == Inserted(rest)[k - 1];
      }
    }
  }

  /** Every page inserts a single schema, so the schemas inserted are as many as the
      contributing pages. */
  lemma PagesInsertOneEach(pages: seq<Page>)
    ensures forall k | 0 <= k < |Inserted(Parsed(pages))| :: |Inserted(Parsed(pages))[k]| == 1
    ensures SizeOf(Inserted(Parsed(pages))) == |Inserted(Parsed(pages))|
  {
    var rs := Parsed(pages);
    forall k | 0 <= k < |rs| && rs[k].Ok? && rs[k].value.Some? ensures |rs[k].value.value| == 1 {
      ParsedAt(pages, k);
      assert rs[k].value.value.Keys == {SchemaName(pages[k].groupName)};
    }
    SingletonsInsertOneEach(rs);
  }
}
