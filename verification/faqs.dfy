/**
 * The `/faqs` router: one Joi schema with a bare-integer `year`, an
 * unfiltered list, and handlers as transitions of the FAQ collection.
 * Unlike the quote router, its delete checks nothing.
 */
module Faqs {
  import opened Json
  import opened Schema
  import opened Store

  /** `schema`: `year` is a bare integer in 1900..1996, not an object. */
  const FaqKeys: seq<Key> := [
    Key("author", TrimmedString, true),
    Key("quote", TrimmedString, true),
    Key("language", TrimmedString, true),
    Key("year", Integer(1900, 1996), false),
    Key("source", TrimmedString, false),
    Key("tags", Array(TrimmedString), false)
  ]

  const FaqSchema: Rule := Object(FaqKeys)

  /** A FAQ body, field by field. */
  predicate IsFaqBody(f: map<string, Json>)
  {
    && f.Keys <= FieldNames
    && RequiredText(f, "author")
    && RequiredText(f, "quote")
    && RequiredText(f, "language")
    && ("year" in f ==> IsIntegerIn(f["year"], 1900, 1996))
    && OptionalText(f, "source")
    && ("tags" in f ==> IsTextList(f["tags"]))
  }

  lemma FaqNames()
    ensures Names(FaqKeys) == FieldNames
  {
    var keys := FaqKeys;
    assert keys[0].name == "author" && keys[1].name == "quote" && keys[2].name == "language";
    assert keys[3].name == "year" && keys[4].name == "source" && keys[5].name == "tags";
  }

  /**
   * The FAQ schema accepts exactly the objects with non-blank `author`,
   * `quote` and `language` strings, an optional non-blank `source`, an
   * optional integer `year` in 1900..1996, an optional array of non-blank
   * strings as `tags`, and no other key.
   */
  lemma FaqSchemaFields(v: Json)
    ensures Conforms(FaqSchema, v) <==> v.JObj? && IsFaqBody(v.fields)
  {
    ObjectConforms(FaqKeys, v);
    FaqNames();
    if v.JObj? {
      var f := v.fields;
      var keys := FaqKeys;
      if "tags" in f {
        TextListConforms(f["tags"]);
      }
      assert KeyHolds(keys[0], f) <==> RequiredText(f, "author");
      assert KeyHolds(keys[1], f) <==> RequiredText(f, "quote");
      assert KeyHolds(keys[2], f) <==> RequiredText(f, "language");
      assert KeyHolds(keys[3], f) <==> ("year" in f ==> IsIntegerIn(f["year"], 1900, 1996));
      assert KeyHolds(keys[4], f) <==> OptionalText(f, "source");
      assert KeyHolds(keys[5], f) <==> ("tags" in f ==> IsTextList(f["tags"]));
      assert (forall i :: 0 <= i < |keys| ==> KeyHolds(keys[i], f))
        <==> && KeyHolds(keys[0], f) && KeyHolds(keys[1], f) && KeyHolds(keys[2], f)
             && KeyHolds(keys[3], f) && KeyHolds(keys[4], f) && KeyHolds(keys[5], f);
    }
  }

  /** The FAQ `year` is a bare number: an object there is refused, and so is a year outside 1900..1996. */
  lemma FaqYearShape(f: map<string, Json>)
    ensures "year" in f && f["year"].JObj? ==> !Conforms(FaqSchema, JObj(f))
    ensures "year" in f && f["year"] == JNum(1997.0) ==> !Conforms(FaqSchema, JObj(f))
  {
    FaqSchemaFields(JObj(f));
  }

  /**
   * GET `/`: every query parameter is ignored and the whole collection is
   * returned, an empty one included.
   */
  function List(store: Collection, query: map<string, string>): (r: Reply)
    ensures r.Records? && r.found == store
  {
    Records(store)
  }

  /**
   * POST `/`: only a body the schema accepts is inserted, trimmed, under
   * the fresh id the store assigns; a rejected body leaves the collection
   * unchanged.
   */
  function Create(store: Collection, body: Json, newId: Id): (r: Step)
    requires newId !in store
    ensures !Conforms(FaqSchema, body) ==> r == Step(store, Error(Invalid))
    ensures Conforms(FaqSchema, body) ==>
      && r.store == store[newId := TrimStrings(body).fields]
      && r.reply == Record(newId, TrimStrings(body).fields)
  {
    match Validate(FaqSchema, body)
    case None => Step(store, Error(Invalid))
    case Some(value) => Step(store[newId := value.fields], Record(newId, value.fields))
  }

  /**
   * PUT `/:id`: the body is validated before the lookup; a rejected body or
   * an absent id writes nothing; a present id gets a `$set` of the validated
   * fields, leaving every other field and every other FAQ as it was, and the
   * reply echoes the validated body.
   */
  function Update(store: Collection, id: Id, body: Json): (r: Step)
    ensures !Conforms(FaqSchema, body) ==> r == Step(store, Error(Invalid))
    ensures Conforms(FaqSchema, body) && id !in store ==> r == Step(store, NotFound)
    ensures Conforms(FaqSchema, body) && id in store ==>
      && r.reply == Echo(TrimStrings(body))
      && r.store.Keys == store.Keys
      && r.store[id] == SetFields(store[id], TrimStrings(body).fields)
      && forall other :: other in store && other != id ==> r.store[other] == store[other]
  {
    match Validate(FaqSchema, body)
    case None => Step(store, Error(Invalid))
    case Some(value) =>
      match FindOne(store, id)
      case None => Step(store, NotFound)
      case Some(doc) => Step(store[id := SetFields(doc, value.fields)], Echo(value))
  }

  const SuccessMessage: string := "Success"

  /**
   * DELETE `/:id`: `remove` is called whether or not the id exists, and
   * the reply is always "Success".
   */
  function Delete(store: Collection, id: Id): (r: Step)
    ensures r.reply == Message(SuccessMessage)
    ensures id !in r.store && r.store.Keys == store.Keys - {id}
    ensures forall other :: other in r.store ==> r.store[other] == store[other]
  {
    Step(store - {id}, Message(SuccessMessage))
  }

  // ---------------------------------------------------------------------------
  // Properties across handlers

  /** The list reply does not depend on the query. */
  lemma ListIgnoresQuery(store: Collection, q1: map<string, string>, q2: map<string, string>)
    ensures List(store, q1) == List(store, q2)
  {
  }

  /** Deleting twice leaves the same collection and the same reply as deleting once, even for an absent id. */
  lemma DeleteIdempotent(store: Collection, id: Id)
    ensures Delete(Delete(store, id).store, id) == Delete(store, id)
    ensures id !in store ==> Delete(store, id) == Step(store, Message(SuccessMessage))
  {
  }

  /** A create followed by a GET of the new id returns the trimmed body; after a delete the GET finds nothing. */
  lemma CreateGetDelete(store: Collection, body: Json, newId: Id)
    requires newId !in store && Conforms(FaqSchema, body)
    ensures Get(Create(store, body, newId).store, newId) == Record(newId, TrimStrings(body).fields)
    ensures Get(Delete(Create(store, body, newId).store, newId).store, newId) == NotFound
  {
  }

  /** Every stored FAQ is a body the schema accepts. */
  predicate ValidStore(store: Collection)
  {
    forall id :: id in store ==> Conforms(FaqSchema, JObj(store[id]))
  }

  /** Create and delete keep every stored FAQ acceptable to the schema. */
  lemma CreateDeleteKeepValidStore(store: Collection, id: Id, body: Json, newId: Id)
    requires ValidStore(store) && newId !in store
    ensures ValidStore(Create(store, body, newId).store)
    ensures ValidStore(Delete(store, id).store)
  {
    if Conforms(FaqSchema, body) {
      ConformsTrimmed(FaqSchema, body);
    }
  }

  /** Update keeps every stored FAQ acceptable to the schema: the merged document is acceptable. */
  lemma UpdateKeepsValidStore(store: Collection, id: Id, body: Json)
    requires ValidStore(store)
    ensures ValidStore(Update(store, id, body).store)
  {
    if Conforms(FaqSchema, body) && id in store {
      var value := TrimStrings(body);
      ConformsTrimmed(FaqSchema, body);
      var r := Update(store, id, body);
      MergeConforms(FaqKeys, store[id], value.fields);
      assert r.store[id] == store[id] + value.fields;
    }
  }
}
