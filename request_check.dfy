/**
  The backend's checks on a plan request before the generator runs
  (backend/app.py, lines 52-81): the raw body must be non-empty, must decode as
  JSON, and the decoded value must be truthy and hold `subjects` in the sense of
  Python's `in` operator, whatever kind of value it is.
*/
module RequestCheck {
  import opened Wrappers
  import opened Dicts
  import opened Json

  /** Why a request is turned away. */
  datatype Rejection =
    | NoDataReceived   // empty body
    | InvalidJson      // the body does not decode
    | MissingSubjects  // falsy value, or no `subjects` in it
    | InternalError    // `in` raised: the value is a number or `true`

  /** The HTTP status of each rejection. */
  function Status(r: Rejection): int {
    if r == InternalError then 500 else 400
  }

  /** `needle` occurs in `s` starting at position `i`. */
  predicate OccursAt(s: string, needle: string, i: int) {
    0 <= i && i + |needle| <= |s| && s[i..i + |needle|] == needle
  }

  /** `needle` occurs in `s` at some position. */
  predicate HasSubstring(s: string, needle: string) {
    exists i | 0 <= i <= |s| :: OccursAt(s, needle, i)
  }

  /**
    Python's `needle in v`: a key of a dictionary, an element of a list, a
    substring of a string; any other value raises, shown here as `None`.
  */
  function Contains(v: Json, needle: string): (r: Option<bool>)
    ensures r.None? <==> v.JNull? || v.JBool? || v.JNumber?
  {
    match v
    case JObject(fields) => Some(needle in Keys(fields))
    case JArray(items) => Some(JString(needle) in items)
    case JString(s) => Some(HasSubstring(s, needle))
    case _ => None
  }

  /** The value carries `subjects` as the check understands it, by kind of value. */
  predicate HoldsSubjects(v: Json) {
    (v.JObject? && "subjects" in Keys(v.fields)) ||
    (v.JArray? && JString("subjects") in v.items) ||
    (v.JString? && HasSubstring(v.s, "subjects"))
  }

  /**
    Lines 52-81: `raw` is the body as text and `decoded` what the JSON decoder
    made of it (`None` when it fails). An accepted request is passed on as it
    was decoded; the checks run in order, so an empty body is reported as such
    before it could fail to decode.
  */
  function CheckRequest(raw: string, decoded: Option<Json>): (r: Result<Json, Rejection>)
    ensures raw == [] ==> r == Err(NoDataReceived)
    ensures raw != [] && decoded.None? ==> r == Err(InvalidJson)
    ensures r.Ok? <==> raw != [] && decoded.Some? && HoldsSubjects(decoded.value)
    ensures r.Ok? ==> r.value == decoded.value
    ensures r == Err(InternalError) <==>
              raw != [] && (decoded == Some(JBool(true)) || (decoded.Some? && decoded.value.JNumber? && decoded.value.n != 0))
  {
    if raw == [] then Err(NoDataReceived)
    else if decoded.None? then Err(InvalidJson)
    else if !Truthy(decoded.value) then Err(MissingSubjects)
    else
      match Contains(decoded.value, "subjects")
      case None => Err(InternalError)
      case Some(false) => Err(MissingSubjects)
      case Some(true) => Ok(decoded.value)
  }

  /**
    Lines 74-81 on an object: it passes exactly when it has a `subjects` key,
    whatever that key holds, and is otherwise rejected with 400 "Missing subjects".
  */
  lemma ObjectRequest(raw: string, fields: Dict<string, Json>)
    requires raw != []
    ensures CheckRequest(raw, Some(JObject(fields))) ==
              if "subjects" in Keys(fields) then Ok(JObject(fields)) else Err(MissingSubjects)
    ensures CheckRequest(raw, Some(JObject(fields))).Err? ==> Status(CheckRequest(raw, Some(JObject(fields))).error) == 400
  {
  }

  /** Lines 74-81: a falsy value (null, false, 0, "", [], {}) is rejected with 400 "Missing subjects". */
  lemma FalsyRejected(raw: string, v: Json)
    requires raw != [] && !Truthy(v)
    ensures CheckRequest(raw, Some(v)) == Err(MissingSubjects)
    ensures Status(MissingSubjects) == 400
  {
  }

  /**
    Concrete requests: `{}` is missing its subjects; `{"subjects": []}` passes
    with no subject at all; a list holding the string "subjects", and a string
    containing it, pass too.
  */
  lemma Examples(raw: string)
    requires raw != []
    ensures CheckRequest(raw, Some(JObject([]))) == Err(MissingSubjects)
    ensures CheckRequest(raw, Some(JObject([("subjects", JArray([]))]))).Ok?
    ensures CheckRequest(raw, Some(JArray([JString("subjects")]))).Ok?
    ensures CheckRequest(raw, Some(JString("no subjects"))).Ok?
    ensures CheckRequest(raw, Some(JString("subject"))) == Err(MissingSubjects)
    ensures CheckRequest(raw, Some(JNumber(7))) == Err(InternalError)
  {
    assert Keys([("subjects", JArray([]))]) == ["subjects"];
    assert OccursAt("no subjects", "subjects", 3);
  }
}
