/**
 * The fragment of Joi that the route files use, as data: a schema is a
 * `Rule`, `Conforms` says declaratively which payloads a rule accepts, and
 * `Validate` is the field-by-field validator that either rejects the payload
 * or returns the normalised value (every string trimmed).
 *
 * Joi behaviour that decides acceptance is modelled: `string()` refuses the
 * empty string (after trimming), `object()` refuses keys its schema does not
 * declare, `null` satisfies no rule, and keys are optional unless marked
 * `required()`. Joi's coercion of numeric strings and its error messages are
 * not modelled.
 */
module Schema {
  import opened Wrappers
  import opened Text
  import opened Json

  datatype Rule =
    | TrimmedString                  // Joi.string().trim()
    | Integer(min: int, max: int)    // Joi.number().integer().min(min).max(max)
    | Array(item: Rule)              // Joi.array().items(item)
    | Object(keys: seq<Key>)         // Joi.object({ ... })

  /** One entry of a `Joi.object({ ... })` literal. */
  datatype Key = Key(name: string, rule: Rule, required: bool)

  /** The names an object schema declares. */
  function Names(keys: seq<Key>): set<string>
  {
    set i | 0 <= i < |keys| :: keys[i].name
  }

  /** The names declared from position `from` on. */
  function NamesFrom(keys: seq<Key>, from: nat): set<string>
  {
    set i | from <= i < |keys| :: keys[i].name
  }

  /** A string `Joi.string().trim()` accepts: non-empty once trimmed. */
  predicate IsText(v: Json)
  {
    v.JStr? && Trim(v.s) != ""
  }

  /** A number `Joi.number().integer().min(lo).max(hi)` accepts. */
  predicate IsIntegerIn(v: Json, lo: int, hi: int)
  {
    v.JNum? && v.n.Floor as real == v.n && lo <= v.n.Floor <= hi
  }

  /** `key` is present and holds a string `Joi.string().trim().required()` accepts. */
  predicate RequiredText(fields: map<string, Json>, key: string)
  {
    key in fields && IsText(fields[key])
  }

  /** `key`, if present, holds a string `Joi.string().trim()` accepts. */
  predicate OptionalText(fields: map<string, Json>, key: string)
  {
    key in fields ==> IsText(fields[key])
  }

  /** An array `Joi.array().items(Joi.string().trim())` accepts (the empty array included). */
  predicate IsTextList(v: Json)
  {
    v.JArr? && forall i :: 0 <= i < |v.items| ==> IsText(v.items[i])
  }

  /** The declarative meaning of a rule: the payloads it accepts. */
  predicate Conforms(rule: Rule, v: Json)
  {
    match rule
    case TrimmedString => IsText(v)
    case Integer(lo, hi) => IsIntegerIn(v, lo, hi)
    case Array(item) =>
      v.JArr? && forall i :: 0 <= i < |v.items| ==> Conforms(item, v.items[i])
    case Object(keys) =>
      && v.JObj?
      && v.fields.Keys <= Names(keys)
      && forall i :: 0 <= i < |keys| ==>
           && (keys[i].required ==> keys[i].name in v.fields)
           && (keys[i].name in v.fields ==> Conforms(keys[i].rule, v.fields[keys[i].name]))
  }

  /** The conditions of `Conforms` for one declared key of an object schema. */
  predicate KeyHolds(k: Key, fields: map<string, Json>)
  {
    && (k.required ==> k.name in fields)
    && (k.name in fields ==> Conforms(k.rule, fields[k.name]))
  }

  /** The object case of `Conforms`, with the per-key conditions named. */
  lemma ObjectConforms(keys: seq<Key>, v: Json)
    ensures Conforms(Object(keys), v)
        <==> v.JObj? && v.fields.Keys <= Names(keys) && forall i :: 0 <= i < |keys| ==> KeyHolds(keys[i], v.fields)
  {
  }

  /** `Joi.array().items(Joi.string().trim())` accepts exactly the arrays of non-blank strings. */
  lemma TextListConforms(v: Json)
    ensures Conforms(Array(TrimmedString), v) <==> IsTextList(v)
  {
    if v.JArr? {
      assert forall i :: 0 <= i < |v.items| ==> (Conforms(TrimmedString, v.items[i]) <==> IsText(v.items[i]));
    }
  }

  /**
   * Joi's `validateAsync`: rejects exactly the payloads the rule does not
   * accept, and otherwise returns the payload with every string trimmed.
   */
  function Validate(rule: Rule, v: Json): (r: Option<Json>)
    ensures r.Some? <==> Conforms(rule, v)
    ensures r.Some? ==> r.value == TrimStrings(v)
    decreases rule, 1
  {
    match rule
    case TrimmedString =>
      if v.JStr? && Trim(v.s) != "" then Some(JStr(Trim(v.s))) else None
    case Integer(lo, hi) =>
      if IsIntegerIn(v, lo, hi) then Some(v) else None
    case Array(item) =>
      if !v.JArr? then None
      else
        (match ValidateItems(rule, v.items, 0)
         case None => None
         case Some(items) =>
           assert items == TrimStrings(v).items;
           Some(JArr(items)))
    case Object(keys) =>
      if !v.JObj? || !(v.fields.Keys <= Names(keys)) then None
      else
        match ValidateKeys(rule, v.fields, 0)
        case None => None
        case Some(m) =>
          assert NamesFrom(keys, 0) == Names(keys);
          assert forall i :: 0 <= i < |keys| ==> KeyHolds(keys[i], v.fields);
          assert m == TrimStrings(v).fields;
          Some(JObj(m))
  }

  /** Validates the array elements from position `i` on, failing at the first rejected one. */
  function ValidateItems(rule: Rule, items: seq<Json>, i: nat): (r: Option<seq<Json>>)
    requires rule.Array? && i <= |items|
    ensures r.Some? <==> forall j :: i <= j < |items| ==> Conforms(rule.item, items[j])
    ensures r.Some? ==> |r.value| == |items| - i
    ensures r.Some? ==> forall j :: 0 <= j < |r.value| ==> r.value[j] == TrimStrings(items[i + j])
    decreases rule, 0, |items| - i
  {
    if i == |items| then Some([])
    else
      match Validate(rule.item, items[i])
      case None => None
      case Some(w) =>
        (match ValidateItems(rule, items, i + 1)
         case None => None
         case Some(rest) => Some([w] + rest))
  }

  /**
   * Validates the declared keys of an object schema from position `i` on:
   * a missing required key or a value its rule rejects fails the object;
   * the result holds the trimmed values of the keys that are present.
   */
  function ValidateKeys(rule: Rule, fields: map<string, Json>, i: nat): (r: Option<map<string, Json>>)
    requires rule.Object? && i <= |rule.keys|
    ensures r.Some? <==> forall j :: i <= j < |rule.keys| ==> KeyHolds(rule.keys[j], fields)
    ensures r.Some? ==> r.value.Keys == fields.Keys * NamesFrom(rule.keys, i)
    ensures r.Some? ==> forall n :: n in r.value ==> r.value[n] == TrimStrings(fields[n])
    decreases rule, 0, |rule.keys| - i
  {
    if i == |rule.keys| then Some(map[])
    else
      var k := rule.keys[i];
      assert NamesFrom(rule.keys, i) == {k.name} + NamesFrom(rule.keys, i + 1);
      if k.name in fields then
        (match Validate(k.rule, fields[k.name])
         case None => None
         case Some(w) =>
           (match ValidateKeys(rule, fields, i + 1)
            case None => None
            case Some(m) => Some(m[k.name := w])))
      else if k.required then None
      else ValidateKeys(rule, fields, i + 1)
  }

  /** A payload a rule accepts is still accepted once its strings are trimmed. */
  lemma {:induction false} ConformsTrimmed(rule: Rule, v: Json)
    requires Conforms(rule, v)
    ensures Conforms(rule, TrimStrings(v))
  {
    match rule
    case TrimmedString =>
      TrimIdempotent(v.s);
    case Integer(_, _) =>
    case Array(item) =>
      var t := TrimStrings(v);
      forall i | 0 <= i < |t.items| ensures Conforms(item, t.items[i]) {
        ConformsTrimmed(item, v.items[i]);
      }
    case Object(keys) =>
      var t := TrimStrings(v);
      forall i | 0 <= i < |keys| && keys[i].name in t.fields
        ensures Conforms(keys[i].rule, t.fields[keys[i].name])
      {
        ConformsTrimmed(keys[i].rule, v.fields[keys[i].name]);
      }
  }

  /**
   * Validation is a normalisation: validating the value a successful
   * validation returned succeeds again and returns that same value.
   */
  lemma ValidateIdempotent(rule: Rule, v: Json)
    requires Conforms(rule, v)
    ensures Validate(rule, TrimStrings(v)) == Some(TrimStrings(v))
  {
    ConformsTrimmed(rule, v);
    TrimStringsIdempotent(v);
  }

  /**
   * Overwriting the fields of an accepted object with the fields of another
   * accepted object (MongoDB's `$set`) yields an object the schema accepts.
   */
  lemma MergeConforms(keys: seq<Key>, stored: map<string, Json>, changes: map<string, Json>)
    requires Conforms(Object(keys), JObj(stored)) && Conforms(Object(keys), JObj(changes))
    ensures Conforms(Object(keys), JObj(stored + changes))
  {
    var merged := stored + changes;
    forall i | 0 <= i < |keys| && keys[i].name in merged
      ensures Conforms(keys[i].rule, merged[keys[i].name])
    {
      if keys[i].name in changes {
        assert merged[keys[i].name] == changes[keys[i].name];
      } else {
        assert merged[keys[i].name] == stored[keys[i].name];
      }
    }
  }
}
