# Quote and FAQ REST routes: a Dafny model

This project models the logic of the two Express routers of the quote/FAQ
REST API: `src/api/quotes.js`, mounted at `/quotes`, and `src/api/faqs.js`,
mounted at `/faqs`. It covers three things:

- **Payload validation.** The Joi schemas are data: `Schema.Rule` is the
  fragment of Joi the routers use (`string().trim()`,
  `number().integer().min().max()`, `array().items()`, `object({...})`). Two
  functions interpret a rule. `Schema.Conforms` says declaratively which
  payloads it accepts. `Schema.Validate` is the key-by-key validator that
  rejects a payload or returns it with every string trimmed. The quote
  schemas `schema` and `schemaNID` and the FAQ schema are constants. Lemmas
  restate each of them field by field. The quote `year` (an object) and the
  FAQ `year` (a bare integer) stay two different rules.
- **Query resolution for `GET /quotes`.** The query-parameter map becomes one
  of four equality filters, or no filter at all. The find result becomes a
  list, the fixed "no quote objects were found" message, or the failure that
  `Object.keys(null)` raises.
- **Handlers as store transitions.** Each collection is a
  `map<Id, Doc>`. Each handler is a pure function from the collection and the
  request to the next collection and an abstract reply (`Store.Reply`):
  records, one record, an echo of the validated body, a message, not-found,
  or an error.

Files: `wrappers.dfy` (Option), `text.dfy` (JavaScript `trim`), `json.dfy`
(the JSON value and string trimming inside it), `schema.dfy` (the Joi rules,
validator and their lemmas), `store.dfy` (collection, replies, `findOne`,
`$set`), `quotes.dfy`, `faqs.dfy`.

Joi behaviour that decides whether a body is accepted is modelled:
- `string()` refuses a string that is empty once trimmed.
- `object()` refuses keys its literal does not declare. So a quote POST body
  carrying `_id` is refused, and so is a FAQ PUT body carrying `_id`.
- `null` satisfies no rule.
- Keys are optional unless `required()`.

A quote PUT body must carry `_id`, because `schema` requires it. That
`_id` must equal the path id. MongoDB refuses a `$set` that would change a
document's immutable `_id`. The model returns `Error(ImmutableId)` in that
case and writes nothing.

Some behaviour of the code is easy to misread, and the model states it as
the code has it:
- PUT is a field-wise `$set` merge. A stored field the body does not name
  keeps its value.
- PUT validates the body before it looks up the id, so an invalid body fails
  even for an absent id.
- A POST body with `_id` is refused, because `schemaNID` does not declare it.
  The comments at quotes.js:53 and quotes.js:213 ask clients to leave `_id`
  out of a POST body.
- `yearType` is any non-blank string. The comment at quotes.js:72 describes
  it as "BCE" or "CE", but the schema does not enforce that.
- An empty quote list is the fixed message string, not an empty array.
- A non-empty query with neither `author` nor `language` issues no `find`
  and ends in the catch block.
- FAQ delete calls `remove` without a lookup and never reports "not found".

## Model

| member | source | states |
|---|---|---|
| Text.Trim | src/api/quotes.js:9 | `trim()` leaves no white space at either edge, and the result is empty exactly when the input is all white space |
| Text.TrimUnique | src/api/quotes.js:9 | reference definition: whenever a string is white space + a core without edge spaces + white space, trimming returns that core |
| Text.TrimIdempotent | src/api/quotes.js:9 | trimming a trimmed string changes nothing |
| Json.TrimStringsIdempotent | src/api/quotes.js:7-21 | trimming every string of an already normalised payload changes nothing |
| Schema.Validate | src/api/quotes.js:228 | `validateAsync` fails exactly on the payloads the schema does not accept; otherwise it returns the payload with every string trimmed |
| Schema.ConformsTrimmed | src/api/quotes.js:7-21 | a payload a schema accepts is still accepted after its strings are trimmed |
| Schema.ValidateIdempotent | src/api/quotes.js:270 | validating the value a successful validation returned succeeds and returns that same value |
| Schema.TextListConforms | src/api/quotes.js:17-19 | `array().items(string().trim())` accepts exactly the arrays whose every element is a non-blank string |
| Schema.MergeConforms | src/api/quotes.js:275-282 | a `$set` of accepted fields onto an accepted document yields a document the schema accepts |
| Store.SetFields | src/api/quotes.js:275-282 | MongoDB's `$set`: every field the changes name takes its new value, every other stored field keeps its old one, and no field is lost or invented (faqs.js:71-78 is the same update) |
| Store.Get | src/api/quotes.js:192-203 | GET `/:id` returns the stored document when the id is present, otherwise falls through to not-found (faqs.js:37-48 is the same handler) |
| Quotes.YearRuleFields | src/api/quotes.js:12-15 | the quote `year` must be an object with a required non-blank `yearType`, an optional integer `yearNum` in 0..2020, and no other key |
| Quotes.SchemaNIDFields | src/api/quotes.js:23-36 | `schemaNID` accepts exactly: non-blank `author`, `quote`, `language`; optional non-blank `source`; optional `year` object; optional `tags` of non-blank strings; no other key, `_id` included |
| Quotes.SchemaWithIdFields | src/api/quotes.js:7-21 | `schema` accepts exactly what `schemaNID` accepts plus a required non-blank `_id` string |
| Quotes.QuoteYearShape | src/api/quotes.js:27-30 | a quote whose `year` is a bare number is refused |
| Quotes.YearExamples | src/api/quotes.js:27-30 | `{yearNum: 180, yearType: "CE"}` is accepted; `yearNum` 3000 is refused; `yearType` "AD" is accepted |
| Quotes.ResolveFilter | src/api/quotes.js:137-155 | no filter exactly for a non-empty query without `author` and `language`; match-all exactly for the empty query; any filter built selects exactly the documents that agree with the query's `author` and `language` |
| Quotes.List | src/api/quotes.js:132-168 | GET `/`: an empty find result becomes the fixed message and a non-empty one is sent; so a list reply is non-empty and holds exactly the stored quotes agreeing with `author`/`language`; the message means no quote agrees; a non-empty query without either parameter fails with no list |
| Quotes.EmptyQueryListsAll | src/api/quotes.js:137-138 | an empty query returns every stored quote when there is one |
| Quotes.UnrecognisedParameter | src/api/quotes.js:137-157 | once `author` or `language` is present other parameters change nothing; an unrecognised parameter alone ends in the `Object.keys(null)` failure |
| Quotes.Create | src/api/quotes.js:225-234 | POST: a body `schemaNID` rejects leaves the store unchanged; an accepted one is stored trimmed under the fresh id and returned |
| Quotes.CreateThenGet | src/api/quotes.js:228-230 | after a create, GET of the new id returns the trimmed body |
| Quotes.Update | src/api/quotes.js:267-287 | PUT: a rejected body fails whatever the id; an absent id writes nothing; a body `_id` other than the path id is refused with no write; otherwise (valid body, present id, matching `_id`) the stored quote becomes the `$set` of the validated fields without `_id`, every other quote is unchanged, and the validated body is echoed |
| Quotes.UpdateThenGet | src/api/quotes.js:275-283 | after an update, fields the body omits keep their old values, named fields read back trimmed, and `_id` is never written as a field |
| Quotes.Delete | src/api/quotes.js:315-341 | DELETE: an absent id is not-found with no write; a present id is removed and nothing else changes |
| Quotes.DeleteThenGet | src/api/quotes.js:328-334 | after a delete, GET of the id is not-found and a second delete is not-found with no write |
| Quotes.UpdateChangesConform | src/api/quotes.js:7-36 | the fields a valid PUT body sets, `_id` removed, form a body `schemaNID` accepts |
| Quotes.CreateDeleteKeepValidStore | src/api/quotes.js:225-234 | create (which stores only validated bodies) and delete keep every stored quote acceptable to `schemaNID` |
| Quotes.UpdateKeepsValidStore | src/api/quotes.js:270-282 | the `$set` of a validated PUT body keeps every stored quote acceptable to `schemaNID` |
| Faqs.FaqSchemaFields | src/api/faqs.js:7-17 | the FAQ schema accepts exactly: non-blank `author`, `quote`, `language`; optional non-blank `source`; optional integer `year` in 1900..1996; optional `tags` of non-blank strings; no other key |
| Faqs.FaqYearShape | src/api/faqs.js:11 | a FAQ whose `year` is an object, or the number 1997, is refused |
| Faqs.List | src/api/faqs.js:25-34 | GET `/` returns the whole collection, an empty one included |
| Faqs.ListIgnoresQuery | src/api/faqs.js:28-30 | the list reply does not depend on the query parameters |
| Faqs.Create | src/api/faqs.js:51-60 | POST: only an accepted body is inserted, trimmed, under the fresh id; a rejected one leaves the store unchanged |
| Faqs.Update | src/api/faqs.js:63-83 | PUT: validation first; a rejected body or an absent id writes nothing; otherwise a `$set` of the validated fields, everything else unchanged, and the validated body echoed |
| Faqs.Delete | src/api/faqs.js:86-100 | DELETE: `remove` regardless of existence, always "Success", only that id disappears |
| Faqs.DeleteIdempotent | src/api/faqs.js:89-91 | deleting twice leaves the same store and reply as deleting once; an absent id still reports "Success" |
| Faqs.CreateGetDelete | src/api/faqs.js:40-56 | after a create, GET of the new id returns the trimmed body; after deleting it, GET is not-found |
| Faqs.CreateDeleteKeepValidStore | src/api/faqs.js:51-60 | create (which stores only validated bodies) and delete keep every stored FAQ acceptable to the schema |
| Faqs.UpdateKeepsValidStore | src/api/faqs.js:66-78 | the `$set` of a validated PUT body keeps every stored FAQ acceptable to the schema |

## Left out

- Server bootstrapping, middleware, router mounting and the Swagger
  document (`app.js`, `src/app.js`, `src/api/index.js`): wiring with no logic.
- The MongoDB/Monk driver and connection. Each collection is a map. The fresh
  id of an insert is a parameter that the store guarantees is unused.
- Store failures, such as a lost connection, that would reach the handlers'
  catch blocks. Every store call succeeds in the model.
- ObjectId parsing. Ids are opaque strings, so a malformed id behaves like an
  absent one. The driver would raise an error instead.
- Joi's coercion of numeric strings, and its error details and messages. A
  failure is `Error(Invalid)`.
- JavaScript numbers are reals: no NaN, infinities or rounding.
- Query values that `qs` parses to arrays or objects (repeated or nested
  parameters). The query is a `map<string, string>`.
- MongoDB's match of a string filter against an array field. A filter
  matches a field holding exactly that string, which is what validated
  documents hold.
- The order of a list reply. `res.json(items)` sends the find result as an
  array in the store's order, and the code promises no particular order. A
  list reply is the map of matching documents.
- Async execution, and races between the lookup and the write of PUT and
  DELETE. Each handler is one atomic step.
- `console.log` of the body, HTTP status codes and serialisation. Replies are
  the abstract `Store.Reply`, so "not found" is `next()` reaching the 404
  handler. The list route's catch block sends the error with `res.send`,
  while the other handlers pass it to `next`. Both are `Error`.
- The second response that FAQ delete tries to send after `'Success'`
  (faqs.js:92-94): transport misbehaviour only.
