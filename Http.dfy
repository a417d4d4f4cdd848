/** JSON values and HTTP responses, as the endpoints and error classes build them.
    Serialisation with json.dumps is not modelled: a body holds the JSON value whose
    text the source would send. */
module Http {
  import opened Wrappers

  datatype Json =
    | JNull
    | JBool(b: bool)
    | JInt(n: int)
    | JStr(s: string)
    | JList(items: seq<Json>)
    | JObj(fields: map<string, Json>)
      /** A JSON string whose characters are the serialised text of `doc`
          (a body that was already dumped, then dumped again inside another object). */
    | JText(doc: Json)

  /** A response body: the empty string '', plain text (the bodies bottle gives its own
      errors), or the serialised text of a JSON value. */
  datatype Body = Empty | Text(s: string) | Doc(json: Json)

  /** Python truthiness of a body: only the empty string is false. */
  predicate BodyTruthy(b: Body) {
    b.Doc? || (b.Text? && b.s != "")
  }

  datatype Response = Response(status: int, body: Body, contentType: string)

  const JsonContentType: string := "application/json"

  /** Python truthiness of an optional status: None and 0 are false. */
  predicate Truthy(status: Option<int>) {
    status.Some? && status.value != 0
  }

  /** JSONResponse(body, status): bottle takes `status or default_status`, and the
      class always sets Content-Type to application/json. */
  function JsonResponse(body: Body, status: Option<int>, defaultStatus: int): (r: Response)
    ensures r.contentType == JsonContentType && r.body == body
    ensures Truthy(status) ==> r.status == status.value
    ensures !Truthy(status) ==> r.status == defaultStatus
  {
    Response(if Truthy(status) then status.value else defaultStatus, body, JsonContentType)
  }

  /** JSONResponse(body=data): status 200. */
  function Ok(body: Body): (r: Response)
    ensures r.status == 200 && r.body == body && r.contentType == JsonContentType
  {
    JsonResponse(body, None, 200)
  }

  /** JSONResponseCreated(body=data): status 201. */
  function Created(body: Body): (r: Response)
    ensures r.status == 201 && r.body == body && r.contentType == JsonContentType
  {
    JsonResponse(body, None, 201)
  }
}
