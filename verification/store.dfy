/**
 * The document collection behind each router, abstracted as a map from
 * identifier to document, and the outcomes a route handler can produce.
 * A document is kept without its `_id`, which is the map key.
 */
module Store {
  import opened Wrappers
  import opened Json

  /** The `_id` of a stored document; its ObjectId format is not modelled. */
  type Id = string

  /** A stored document's fields, `_id` excluded. */
  type Doc = map<string, Json>

  type Collection = map<Id, Doc>

  /** The fields a quote or a FAQ may carry besides `_id`: both routers' schemas declare the same six. */
  const FieldNames: set<string> := {"author", "quote", "language", "year", "source", "tags"}

  /** Why a handler failed. */
  datatype Fault =
    | Invalid        // the body failed schema validation
    | ImmutableId    // the store refused a `$set` that would change `_id`
    | NullItems      // `Object.keys(null)`: the list route built no query

  /** What a handler sends back. */
  datatype Reply =
    | Records(found: map<Id, Doc>)   // `res.json(items)` of a list query
    | Record(id: Id, doc: Doc)       // `res.json(item)` / `res.json(inserted)`
    | Echo(value: Json)              // `res.json(value)`: the validated body
    | Message(text: string)          // a plain string body
    | NotFound                       // `next()` with no error: falls through to the 404 handler
    | Error(fault: Fault)            // the error reaches the handler's catch block

  /** A handler's effect: the collection afterwards and the reply. */
  datatype Step = Step(store: Collection, reply: Reply)

  /** `findOne({ _id: id })`. */
  function FindOne(store: Collection, id: Id): (r: Option<Doc>)
    ensures r.Some? <==> id in store
    ensures r.Some? ==> r.value == store[id]
  {
    if id in store then Some(store[id]) else None
  }

  /**
   * GET `/:id` (the same handler in both route files): the stored document,
   * or a fall-through to "not found" when no document has that id.
   */
  function Get(store: Collection, id: Id): (r: Reply)
    ensures r.Record? <==> id in store
    ensures r.Record? ==> r.id == id && r.doc == store[id]
    ensures !r.Record? ==> r == NotFound
  {
    match FindOne(store, id)
    case None => NotFound
    case Some(doc) => Record(id, doc)
  }

  /**
   * MongoDB's `{ $set: changes }` on one document: every field named in
   * `changes` takes its new value, every other field keeps its old one.
   */
  function SetFields(doc: Doc, changes: Doc): (r: Doc)
    ensures r.Keys == doc.Keys + changes.Keys
    ensures forall k :: k in changes ==> r[k] == changes[k]
    ensures forall k :: k in doc && k !in changes ==> r[k] == doc[k]
  {
    doc + changes
  }
}
