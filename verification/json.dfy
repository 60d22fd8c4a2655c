/** The JSON values the handler answers with, and `jsonResponse`'s
    payload (contact.php:14-25). Serialisation itself is not modelled. */
module JsonResponses {
  import opened Wrappers

  datatype Json =
    | JBool(b: bool)
    | JString(s: string)
    | JArray(items: seq<Json>)
    | JObject(fields: map<string, Json>)

  /** The object `jsonResponse($success, $message, $data)` encodes: always
      `success`, `message` and `timestamp`, and `data` only when a non-null
      `$data` was passed. */
  function JsonResponse(success: bool, message: string, timestamp: string, data: Option<Json>)
    : (r: map<string, Json>)
    ensures r.Keys == {"success", "message", "timestamp"} + (if data.Some? then {"data"} else {})
    ensures r["success"] == JBool(success) && r["message"] == JString(message)
    ensures r["timestamp"] == JString(timestamp)
    ensures data.Some? ==> r["data"] == data.value
  {
    var base := map["success" := JBool(success), "message" := JString(message), "timestamp" := JString(timestamp)];
    match data
    case None => base
    case Some(d) => base["data" := d]
  }
}
