/**
 * The parsed JSON request body and stored documents. JavaScript numbers are
 * modelled as reals (no NaN, no infinities, no rounding), which is enough for
 * the integer and range checks the schemas make.
 */
module Json {
  import opened Text

  datatype Json =
    | JNull
    | JBool(b: bool)
    | JNum(n: real)
    | JStr(s: string)
    | JArr(items: seq<Json>)
    | JObj(fields: map<string, Json>)

  /**
   * `v` with every string inside it trimmed, and nothing else changed: the
   * value Joi hands back when every string rule of the schema carries `trim()`.
   */
  function TrimStrings(v: Json): (r: Json)
    ensures v.JStr? <==> r.JStr?
    ensures v.JNum? ==> r == v
    ensures v.JArr? <==> r.JArr?
    ensures v.JArr? ==> |r.items| == |v.items|
    ensures v.JObj? <==> r.JObj?
    ensures v.JObj? ==> r.fields.Keys == v.fields.Keys
  {
    match v
    case JNull => JNull
    case JBool(b) => JBool(b)
    case JNum(n) => JNum(n)
    case JStr(s) => JStr(Trim(s))
    case JArr(items) => JArr(seq(|items|, i requires 0 <= i < |items| => TrimStrings(items[i])))
    case JObj(fields) => JObj(map k | k in fields :: TrimStrings(fields[k]))
  }

  /** Trimming the strings of an already trimmed value changes nothing. */
  lemma {:induction false} TrimStringsIdempotent(v: Json)
    ensures TrimStrings(TrimStrings(v)) == TrimStrings(v)
  {
    match v
    case JNull =>
    case JBool(_) =>
    case JNum(_) =>
    case JStr(s) =>
      TrimIdempotent(s);
    case JArr(items) =>
      var once := TrimStrings(v).items;
      forall i | 0 <= i < |items| ensures TrimStrings(once[i]) == once[i] {
        TrimStringsIdempotent(items[i]);
      }
      assert TrimStrings(TrimStrings(v)).items == once;
    case JObj(fields) =>
      var once := TrimStrings(v).fields;
      forall k | k in fields ensures TrimStrings(once[k]) == once[k] {
        TrimStringsIdempotent(fields[k]);
      }
      assert TrimStrings(TrimStrings(v)).fields == once;
  }
}
