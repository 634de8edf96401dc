/**
 * The `/quotes` router: its two Joi schemas, the resolution of the list
 * route's query parameters into a find filter, and the handlers as
 * transitions of the quote collection.
 */
module Quotes {
  import opened Wrappers
  import Text
  import opened Json
  import opened Schema
  import opened Store

  /** `year`: an object with an optional integer `yearNum` in 0..2020 and a required `yearType` string. */
  const YearRule: Rule := Object([
    Key("yearNum", Integer(0, 2020), false),
    Key("yearType", TrimmedString, true)
  ])

  /** The keys both quote schemas share. */
  const QuoteKeys: seq<Key> := [
    Key("author", TrimmedString, true),
    Key("quote", TrimmedString, true),
    Key("language", TrimmedString, true),
    Key("year", YearRule, false),
    Key("source", TrimmedString, false),
    Key("tags", Array(TrimmedString), false)
  ]

  /** `schemaNID`: the body of a POST, which must not carry an `_id`. */
  const SchemaNID: Rule := Object(QuoteKeys)

  /** `schema`: the body of a PUT, which must also carry the `_id` as a string. */
  const SchemaWithId: Rule := Object([Key("_id", TrimmedString, true)] + QuoteKeys)

  /** A quote `year` value, field by field. */
  predicate IsQuoteYear(v: Json)
  {
    && v.JObj?
    && v.fields.Keys <= {"yearNum", "yearType"}
    && RequiredText(v.fields, "yearType")
    && ("yearNum" in v.fields ==> IsIntegerIn(v.fields["yearNum"], 0, 2020))
  }

  /** A quote body without `_id`, field by field. */
  predicate IsQuoteBody(f: map<string, Json>)
  {
    && f.Keys <= FieldNames
    && RequiredText(f, "author")
    && RequiredText(f, "quote")
    && RequiredText(f, "language")
    && ("year" in f ==> IsQuoteYear(f["year"]))
    && OptionalText(f, "source")
    && ("tags" in f ==> IsTextList(f["tags"]))
  }

  /** The `year` rule accepts exactly the objects described by `IsQuoteYear`; a bare number is refused. */
  lemma YearRuleFields(v: Json)
    ensures Conforms(YearRule, v) <==> IsQuoteYear(v)
  {
    var keys := YearRule.keys;
    assert Names(keys) == {"yearNum", "yearType"} by {
      assert keys[0].name == "yearNum" && keys[1].name == "yearType";
    }
    ObjectConforms(keys, v);
    if v.JObj? {
      assert (forall i :: 0 <= i < |keys| ==> KeyHolds(keys[i], v.fields))
        <==> KeyHolds(keys[0], v.fields) && KeyHolds(keys[1], v.fields);
    }
  }

  lemma QuoteNames()
    ensures Names(QuoteKeys) == FieldNames
  {
    var keys := QuoteKeys;
    assert keys[0].name == "author" && keys[1].name == "quote" && keys[2].name == "language";
    assert keys[3].name == "year" && keys[4].name == "source" && keys[5].name == "tags";
  }

  /** The six declared quote keys hold of `f` exactly when its fields are as `IsQuoteBody` lists them. */
  lemma QuoteKeysHold(f: map<string, Json>)
    ensures (forall i :: 0 <= i < |QuoteKeys| ==> KeyHolds(QuoteKeys[i], f))
        <==> && RequiredText(f, "author") && RequiredText(f, "quote") && RequiredText(f, "language")
             && ("year" in f ==> IsQuoteYear(f["year"]))
             && OptionalText(f, "source")
             && ("tags" in f ==> IsTextList(f["tags"]))
  {
    var keys := QuoteKeys;
    if "year" in f {
      YearRuleFields(f["year"]);
    }
    if "tags" in f {
      TextListConforms(f["tags"]);
    }
    assert KeyHolds(keys[0], f) <==> RequiredText(f, "author");
    assert KeyHolds(keys[1], f) <==> RequiredText(f, "quote");
    assert KeyHolds(keys[2], f) <==> RequiredText(f, "language");
    assert KeyHolds(keys[3], f) <==> ("year" in f ==> IsQuoteYear(f["year"]));
    assert KeyHolds(keys[4], f) <==> OptionalText(f, "source");
    assert KeyHolds(keys[5], f) <==> ("tags" in f ==> IsTextList(f["tags"]));
    assert (forall i :: 0 <= i < |keys| ==> KeyHolds(keys[i], f))
      <==> && KeyHolds(keys[0], f) && KeyHolds(keys[1], f) && KeyHolds(keys[2], f)
           && KeyHolds(keys[3], f) && KeyHolds(keys[4], f) && KeyHolds(keys[5], f);
  }

  /**
   * `schemaNID` accepts exactly the objects with non-blank `author`, `quote`
   * and `language` strings, an optional non-blank `source`, an optional
   * `year` object, an optional array of non-blank strings as `tags`, and no
   * other key (an `_id` included).
   */
  lemma SchemaNIDFields(v: Json)
    ensures Conforms(SchemaNID, v) <==> v.JObj? && IsQuoteBody(v.fields)
  {
    ObjectConforms(QuoteKeys, v);
    QuoteNames();
    if v.JObj? {
      QuoteKeysHold(v.fields);
    }
  }

  /** The keys of `schema`: `_id` first, then the keys of `schemaNID`. */
  lemma WithIdKeys()
    ensures SchemaWithId.keys[0] == Key("_id", TrimmedString, true)
    ensures forall i :: 1 <= i < |SchemaWithId.keys| ==> SchemaWithId.keys[i] == QuoteKeys[i - 1]
    ensures |SchemaWithId.keys| == |QuoteKeys| + 1
    ensures Names(SchemaWithId.keys) == {"_id"} + FieldNames
  {
    var keys := SchemaWithId.keys;
    QuoteNames();
    assert forall i :: 1 <= i < |keys| ==> keys[i] == QuoteKeys[i - 1];
    assert forall n :: n in Names(QuoteKeys) ==> n in Names(keys) by {
      forall n | n in Names(QuoteKeys) ensures n in Names(keys) {
        var i :| 0 <= i < |QuoteKeys| && QuoteKeys[i].name == n;
        assert keys[i + 1].name == n;
      }
    }
    assert keys[0].name == "_id";
  }

  /** The declared keys of `schema` hold of `f` exactly when `_id` does and those of `schemaNID` hold without it. */
  lemma WithIdKeysHold(f: map<string, Json>)
    ensures (forall i :: 0 <= i < |SchemaWithId.keys| ==> KeyHolds(SchemaWithId.keys[i], f))
        <==> RequiredText(f, "_id") && forall i :: 0 <= i < |QuoteKeys| ==> KeyHolds(QuoteKeys[i], f - {"_id"})
  {
    var keys := SchemaWithId.keys;
    var g := f - {"_id"};
    WithIdKeys();
    QuoteNames();
    assert KeyHolds(keys[0], f) <==> RequiredText(f, "_id");
    forall i | 0 <= i < |QuoteKeys| ensures KeyHolds(keys[i + 1], f) <==> KeyHolds(QuoteKeys[i], g) {
      assert QuoteKeys[i].name in FieldNames;
    }
    if RequiredText(f, "_id") && forall i :: 0 <= i < |QuoteKeys| ==> KeyHolds(QuoteKeys[i], g) {
      forall i | 0 <= i < |keys| ensures KeyHolds(keys[i], f) {
        if i > 0 {
          assert KeyHolds(QuoteKeys[i - 1], g);
        }
      }
    }
  }

  /** `schema` is `schemaNID` plus a required non-blank `_id` string. */
  lemma SchemaWithIdFields(v: Json)
    ensures Conforms(SchemaWithId, v)
        <==> v.JObj? && RequiredText(v.fields, "_id") && IsQuoteBody(v.fields - {"_id"})
  {
    ObjectConforms(SchemaWithId.keys, v);
    WithIdKeys();
    if v.JObj? {
      var f := v.fields;
      var g := f - {"_id"};
      WithIdKeysHold(f);
      QuoteKeysHold(g);
      assert (f.Keys <= {"_id"} + FieldNames) <==> g.Keys <= FieldNames;
    }
  }

  /** The quote `year` is an object: a bare number there is refused. */
  lemma QuoteYearShape(f: map<string, Json>)
    ensures "year" in f && f["year"].JNum? ==> !Conforms(SchemaNID, JObj(f))
  {
    SchemaNIDFields(JObj(f));
  }

  /**
   * `{yearNum: 180, yearType: "CE"}` is accepted and a `yearNum` of 3000
   * refused; `yearType` is any non-blank string, "BCE"/"CE" is not enforced.
   */
  lemma YearExamples()
    ensures Conforms(YearRule, JObj(map["yearNum" := JNum(180.0), "yearType" := JStr("CE")]))
    ensures !Conforms(YearRule, JObj(map["yearNum" := JNum(3000.0), "yearType" := JStr("CE")]))
    ensures Conforms(YearRule, JObj(map["yearType" := JStr("AD")]))
  {
    assert !Text.AllSpace("CE") by { assert !Text.IsSpace("CE"[0]); }
    assert !Text.AllSpace("AD") by { assert !Text.IsSpace("AD"[0]); }
    YearRuleFields(JObj(map["yearNum" := JNum(180.0), "yearType" := JStr("CE")]));
    YearRuleFields(JObj(map["yearNum" := JNum(3000.0), "yearType" := JStr("CE")]));
    YearRuleFields(JObj(map["yearType" := JStr("AD")]));
  }

  // ---------------------------------------------------------------------------
  // GET /: query parameters to a find filter

  /** The equality filters the list route can pass to `find`. */
  datatype Filter =
    | MatchAll                                          // {}
    | AuthorAndLanguage(author: string, language: string)
    | ByAuthor(author: string)
    | ByLanguage(language: string)

  /** The document holds exactly the string `value` under `key`. */
  predicate HasText(doc: Doc, key: string, value: string)
  {
    key in doc && doc[key] == JStr(value)
  }

  /** The documents a filter selects. */
  predicate Matches(f: Filter, doc: Doc)
  {
    match f
    case MatchAll => true
    case AuthorAndLanguage(a, l) => HasText(doc, "author", a) && HasText(doc, "language", l)
    case ByAuthor(a) => HasText(doc, "author", a)
    case ByLanguage(l) => HasText(doc, "language", l)
  }

  /** The document agrees with every recognised parameter (`author`, `language`) the query carries. */
  predicate AgreesWith(doc: Doc, query: map<string, string>)
  {
    && ("author" in query ==> HasText(doc, "author", query["author"]))
    && ("language" in query ==> HasText(doc, "language", query["language"]))
  }

  /**
   * The if-chain of GET `/`: an empty query finds everything, then both
   * parameters, then `author` alone, then `language` alone. A non-empty query
   * with neither parameter builds no filter at all. Whenever a filter is built
   * it selects exactly the documents that agree with the query's recognised
   * parameters; other parameters are ignored.
   */
  function ResolveFilter(query: map<string, string>): (r: Option<Filter>)
    ensures r.None? <==> |query| > 0 && "author" !in query && "language" !in query
    ensures r == Some(MatchAll) <==> |query| == 0
    ensures r.Some? ==> forall doc :: Matches(r.value, doc) <==> AgreesWith(doc, query)
  {
    if |query| == 0 then Some(MatchAll)
    else if "author" in query && "language" in query then Some(AuthorAndLanguage(query["author"], query["language"]))
    else if "author" in query then Some(ByAuthor(query["author"]))
    else if "language" in query then Some(ByLanguage(query["language"]))
    else None
  }

  /** `find(filter)`: the stored documents the filter selects, with their ids. */
  function Find(store: Collection, f: Filter): (r: map<Id, Doc>)
    ensures forall id :: id in r <==> id in store && Matches(f, store[id])
    ensures forall id :: id in r ==> r[id] == store[id]
  {
    map id | id in store && Matches(f, store[id]) :: store[id]
  }

  const NoMatchMessage: string := "Successfully queried, but no quote objects were found with your parameters."

  /**
   * GET `/`. An empty find result becomes the fixed message and a non-empty
   * one is sent as it is, so a list reply is never empty and holds exactly the stored quotes
   * that agree with the query's `author` and `language`; when no quote
   * agrees the reply is the fixed message; a non-empty query with neither
   * parameter ends in the catch block with no list at all.
   */
  function List(store: Collection, query: map<string, string>): (r: Reply)
    ensures r.Records? || r == Message(NoMatchMessage) || r == Error(NullItems)
    ensures r == Error(NullItems) <==> |query| > 0 && "author" !in query && "language" !in query
    ensures r.Records? ==> |r.found| > 0
    ensures r.Records? ==> forall id :: id in r.found <==> id in store && AgreesWith(store[id], query)
    ensures r.Records? ==> forall id :: id in r.found ==> r.found[id] == store[id]
    ensures r == Message(NoMatchMessage) ==> forall id :: id in store ==> !AgreesWith(store[id], query)
    ensures r != Error(NullItems) && (exists id :: id in store && AgreesWith(store[id], query)) ==> r.Records?
  {
    match ResolveFilter(query)
    case None => Error(NullItems)
    case Some(f) =>
      var found := Find(store, f);
      assert (exists id :: id in store && AgreesWith(store[id], query)) ==> |found| > 0 by {
        if exists id :: id in store && AgreesWith(store[id], query) {
          var id :| id in store && AgreesWith(store[id], query);
          assert id in found;
        }
      }
      if |found| == 0 then Message(NoMatchMessage) else Records(found)
  }

  // ---------------------------------------------------------------------------
  // GET, POST, PUT and DELETE on single quotes

  const DeletedMessage: string := "Quote object succesfully deleted from the database."

  /**
   * POST `/`: a body `schemaNID` rejects leaves the collection unchanged;
   * an accepted body is stored, trimmed, under the newId id the store
   * assigns, and the stored document is the reply.
   */
  function Create(store: Collection, body: Json, newId: Id): (r: Step)
    requires newId !in store
    ensures !Conforms(SchemaNID, body) ==> r == Step(store, Error(Invalid))
    ensures Conforms(SchemaNID, body) ==>
      && r.store == store[newId := TrimStrings(body).fields]
      && r.reply == Record(newId, TrimStrings(body).fields)
  {
    match Validate(SchemaNID, body)
    case None => Step(store, Error(Invalid))
    case Some(value) => Step(store[newId := value.fields], Record(newId, value.fields))
  }

  /** The validated body names the same `_id` as the path. */
  predicate SameId(value: Json, id: Id)
  {
    value.JObj? && "_id" in value.fields && value.fields["_id"] == JStr(id)
  }

  /**
   * PUT `/:id`. The body is validated before the lookup, so a rejected body
   * fails whether or not the id exists; an absent id writes nothing. A
   * present id gets a `$set` of the validated fields: those fields take the
   * new values, every other stored field and every other quote is left as
   * it was, and the reply echoes the validated body. The store refuses a
   * `$set` whose `_id` differs from the document's.
   */
  function Update(store: Collection, id: Id, body: Json): (r: Step)
    ensures !Conforms(SchemaWithId, body) ==> r == Step(store, Error(Invalid))
    ensures Conforms(SchemaWithId, body) && id !in store ==> r == Step(store, NotFound)
    ensures Conforms(SchemaWithId, body) && id in store && !SameId(TrimStrings(body), id) ==>
      r == Step(store, Error(ImmutableId))
    ensures Conforms(SchemaWithId, body) && id in store && SameId(TrimStrings(body), id) ==>
      r == Step(store[id := SetFields(store[id], TrimStrings(body).fields - {"_id"})], Echo(TrimStrings(body)))
    ensures r.reply.Echo? ==>
      && Conforms(SchemaWithId, body) && id in store && SameId(TrimStrings(body), id)
      && r.reply.value == TrimStrings(body)
      && r.store.Keys == store.Keys
      && r.store[id] == SetFields(store[id], TrimStrings(body).fields - {"_id"})
      && forall other :: other in store && other != id ==> r.store[other] == store[other]
    ensures !r.reply.Echo? ==> r.store == store
  {
    match Validate(SchemaWithId, body)
    case None => Step(store, Error(Invalid))
    case Some(value) =>
      match FindOne(store, id)
      case None => Step(store, NotFound)
      case Some(doc) =>
        if !SameId(value, id) then Step(store, Error(ImmutableId))
        else Step(store[id := SetFields(doc, value.fields - {"_id"})], Echo(value))
  }

  /**
   * DELETE `/:id`: an absent id falls through to "not found" without
   * calling `remove`; a present one is removed and only it.
   */
  function Delete(store: Collection, id: Id): (r: Step)
    ensures id !in store ==> r == Step(store, NotFound)
    ensures id in store ==> r.reply == Message(DeletedMessage)
    ensures id !in r.store && r.store.Keys == store.Keys - {id}
    ensures forall other :: other in r.store ==> r.store[other] == store[other]
  {
    match FindOne(store, id)
    case None => Step(store, NotFound)
    case Some(_) => Step(store - {id}, Message(DeletedMessage))
  }

  // ---------------------------------------------------------------------------
  // Properties across handlers

  /** An empty query returns every stored quote, as long as there is one. */
  lemma EmptyQueryListsAll(store: Collection)
    requires |store| > 0
    ensures List(store, map[]) == Records(store)
  {
    assert Find(store, MatchAll) == store;
  }

  /**
   * Once `author` or `language` is present, any other parameter is ignored;
   * but an unrecognised parameter on its own turns the match-all query into
   * one that builds no filter.
   */
  lemma UnrecognisedParameter(store: Collection, query: map<string, string>, k: string, v: string)
    requires k != "author" && k != "language"
    ensures "author" in query || "language" in query ==> List(store, query[k := v]) == List(store, query)
    ensures List(store, map[k := v]) == Error(NullItems)
  {
    var q := query[k := v];
    assert "author" in q <==> "author" in query;
    assert "language" in q <==> "language" in query;
    assert "author" in query ==> q["author"] == query["author"];
    assert "language" in query ==> q["language"] == query["language"];
  }

  /** Every stored quote is a body `schemaNID` accepts (stored without `_id`). */
  predicate ValidStore(store: Collection)
  {
    forall id :: id in store ==> Conforms(SchemaNID, JObj(store[id]))
  }

  /** A create followed by a GET of the new id returns the trimmed body. */
  lemma CreateThenGet(store: Collection, body: Json, newId: Id)
    requires newId !in store && Conforms(SchemaNID, body)
    ensures Get(Create(store, body, newId).store, newId) == Record(newId, TrimStrings(body).fields)
  {
  }

  /** After a delete, a GET of the same id finds nothing, and a second delete reports "not found" and writes nothing. */
  lemma DeleteThenGet(store: Collection, id: Id)
    ensures Get(Delete(store, id).store, id) == NotFound
    ensures Delete(Delete(store, id).store, id) == Step(Delete(store, id).store, NotFound)
  {
  }

  /**
   * An update merges rather than replaces: when it succeeds, a stored field
   * the body does not name keeps its value, a named one reads back as the
   * trimmed body's, and the body's `_id` is never written as a field.
   */
  lemma UpdateThenGet(store: Collection, id: Id, body: Json, k: string)
    ensures var r := Update(store, id, body);
      r.reply.Echo? ==>
        var after := Get(r.store, id);
        && after.Record?
        && (k in store[id] && k !in body.fields ==> k in after.doc && after.doc[k] == store[id][k])
        && (k != "_id" && k in body.fields ==> k in after.doc && after.doc[k] == TrimStrings(body).fields[k])
        && ("_id" in after.doc ==> "_id" in store[id])
  {
  }

  /** The changes a valid PUT body sets are themselves a body `schemaNID` accepts. */
  lemma UpdateChangesConform(body: Json)
    requires Conforms(SchemaWithId, body)
    ensures Conforms(SchemaNID, JObj(TrimStrings(body).fields - {"_id"}))
  {
    var value := TrimStrings(body);
    ConformsTrimmed(SchemaWithId, body);
    SchemaWithIdFields(value);
    SchemaNIDFields(JObj(value.fields - {"_id"}));
  }

  /** Create and delete keep every stored quote acceptable to `schemaNID`. */
  lemma CreateDeleteKeepValidStore(store: Collection, id: Id, body: Json, newId: Id)
    requires ValidStore(store) && newId !in store
    ensures ValidStore(Create(store, body, newId).store)
    ensures ValidStore(Delete(store, id).store)
  {
    if Conforms(SchemaNID, body) {
      ConformsTrimmed(SchemaNID, body);
    }
  }

  /** Update keeps every stored quote acceptable to `schemaNID`: the merged document is acceptable. */
  lemma UpdateKeepsValidStore(store: Collection, id: Id, body: Json)
    requires ValidStore(store)
    ensures ValidStore(Update(store, id, body).store)
  {
    var r := Update(store, id, body);
    if r.reply.Echo? {
      var changes := TrimStrings(body).fields - {"_id"};
      UpdateChangesConform(body);
      MergeConforms(QuoteKeys, store[id], changes);
      assert r.store[id] == store[id] + changes;
    }
  }
}
