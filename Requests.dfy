/** The required-field checks of the two POST handlers (app.py:33-39 and
    app.py:64-71): the primary field (`file_url` for ingestion, `query` for
    retrieval) is checked before `user_id`, and a field counts as missing
    when it is absent or falsy. */
module Requests {

  /** A JSON value as `request.get_json()` decodes it. */
  datatype Json =
    | JNull
    | JBool(b: bool)
    | JInt(i: int)
    /** A number with a fraction or exponent, kept as its `str()` form. */
    | JFloat(repr: string)
    | JString(s: string)
    | JArray(items: seq<Json>)
    | JObject(entries: seq<(string, Json)>)

  /** Python's `data.get(key)`: the value, or `None` when absent. */
  function Get(body: map<string, Json>, key: string): Json {
    if key in body then body[key] else JNull
  }

  /** Python truthiness of a decoded JSON value: `None`, `False`, zero, the
      empty string and empty containers are falsy. */
  predicate Truthy(v: Json) {
    match v
    case JNull => false
    case JBool(b) => b
    case JInt(i) => i != 0
    case JFloat(repr) => repr != "0.0" && repr != "-0.0"
    case JString(s) => s != ""
    case JArray(items) => items != []
    case JObject(entries) => entries != []
  }

  /** The outcome of the checks: the two fields go on to the handler's
      body, or the request is answered with a status and an error message. */
  datatype Validation = Accepted(primary: Json, userId: Json) | Rejected(status: int, error: string)

  /** The two checks, in the handlers' order. */
  function CheckRequired(body: map<string, Json>, field: string): (r: Validation)
    ensures r.Accepted? <==> Truthy(Get(body, field)) && Truthy(Get(body, "user_id"))
    ensures r.Accepted? ==> r.primary == Get(body, field) && r.userId == Get(body, "user_id")
    ensures !Truthy(Get(body, field)) ==> r == Rejected(400, "Missing " + field)
    ensures Truthy(Get(body, field)) && !Truthy(Get(body, "user_id")) ==>
      r == Rejected(400, "Missing user_id")
  {
    var primary, uid := Get(body, field), Get(body, "user_id");
    if !Truthy(primary) then Rejected(400, "Missing " + field)
    else if !Truthy(uid) then Rejected(400, "Missing user_id")
    else Accepted(primary, uid)
  }

  /** POST /api/v1/ingest: `file_url` first, then `user_id` (app.py:34-39). */
  function ValidateIngestion(body: map<string, Json>): (r: Validation)
    ensures r.Accepted? <==> Truthy(Get(body, "file_url")) && Truthy(Get(body, "user_id"))
    ensures !Truthy(Get(body, "file_url")) ==> r == Rejected(400, "Missing file_url")
    ensures Truthy(Get(body, "file_url")) && !Truthy(Get(body, "user_id")) ==>
      r == Rejected(400, "Missing user_id")
  {
    CheckRequired(body, "file_url")
  }

  /** POST /api/v1/retrieval: `query` first, then `user_id` (app.py:65-71). */
  function ValidateRetrieval(body: map<string, Json>): (r: Validation)
    ensures r.Accepted? <==> Truthy(Get(body, "query")) && Truthy(Get(body, "user_id"))
    ensures !Truthy(Get(body, "query")) ==> r == Rejected(400, "Missing query")
    ensures Truthy(Get(body, "query")) && !Truthy(Get(body, "user_id")) ==>
      r == Rejected(400, "Missing user_id")
  {
    CheckRequired(body, "query")
  }

  /** A body holding only `user_id` is rejected for its missing `file_url`. */
  lemma MissingFileUrlExample()
    ensures ValidateIngestion(map["user_id" := JString("u1")]) == Rejected(400, "Missing file_url")
  {
  }
}
