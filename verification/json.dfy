/** Parsed JSON values, as the Python code sees them after `response.json()`
    or as `dict[str, Any]` payloads. Numbers are integers only. */
module JsonValues {
  import opened Wrappers

  datatype Json =
    | JNull
    | JBool(b: bool)
    | JInt(n: int)
    | JString(s: string)
    | JArray(items: seq<Json>)
    | JObject(fields: map<string, Json>)

  /** Python's `obj.get(key)`: the member, or None when the key is absent. */
  function Get(obj: map<string, Json>, key: string): (r: Option<Json>)
    ensures r.Some? <==> key in obj
    ensures r.Some? ==> r.value == obj[key]
  {
    if key in obj then Some(obj[key]) else None
  }
}

/** The request/response shapes the signup clients exchange with the server.
    The transport itself is not modelled: a request is a value, and the
    server's replies are given to the model as an oracle. */
module Http {
  import opened JsonValues

  /** A JSON POST to `path` (relative to the configured base URL). */
  datatype Request = Post(path: string, body: map<string, Json>)

  /** What the server answered: HTTP status and parsed body. */
  datatype Response = Response(status: int, body: Json)

  const StatusOk: int := 200
}
