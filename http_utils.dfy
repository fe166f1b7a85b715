/**
 * The response builders of src/utils/http_utils.cpp. A response carries the
 * status, the HTTP version (11 for HTTP/1.1), the header fields it sets and
 * its body; the body is held as the JSON value whose dump() is the body text.
 */
module HttpUtils {
  import opened Wrappers
  import opened JsonModel

  /** http::status, by its numeric code. */
  type Status = n: nat | n < 1000

  const HttpVersion11: nat := 11

  /** The two header fields the builders set. */
  datatype Field = ContentType | AccessControlAllowOrigin

  datatype Response = Response(status: Status, version: nat, headers: map<Field, string>, body: Json)

  /** Content-Type application/json and Access-Control-Allow-Origin *, set by both builders. */
  const JsonHeaders: map<Field, string> := map[ContentType := "application/json", AccessControlAllowOrigin := "*"]

  /** The error envelope {error: true, message, status}. */
  function ErrorBody(status: Status, message: string): Json {
    JObj(map["error" := JBool(true), "message" := JStr(message), "status" := JInt(status)])
  }

  /** utils::create_error_responce */
  function CreateErrorResponse(status: Status, message: string): Response {
    Response(status, HttpVersion11, JsonHeaders, ErrorBody(status, message))
  }

  /** utils::create_json_responce */
  function CreateJsonResponse(status: Status, json: Json): Response {
    Response(status, HttpVersion11, JsonHeaders, json)
  }

  /** What a client reads from an envelope body: its error flag, message and status, when it has them. */
  function ReadEnvelope(body: Json): Option<(bool, string, int)> {
    if body.JObj? && "error" in body.fields && "message" in body.fields && "status" in body.fields
       && body.fields["error"].JBool? && body.fields["message"].JStr? && body.fields["status"].JInt?
    then Some((body.fields["error"].b, body.fields["message"].s, body.fields["status"].n))
    else None
  }

  /** Both builders answer with the given status over HTTP/1.1, and the header fields they set are the two JSON headers. */
  lemma ResponseEnvelopeHeaders(status: Status, message: string, json: Json)
    ensures var e := CreateErrorResponse(status, message);
      e.status == status && e.version == 11 &&
      e.headers[ContentType] == "application/json" && e.headers[AccessControlAllowOrigin] == "*" &&
      e.headers.Keys == {ContentType, AccessControlAllowOrigin}
    ensures var r := CreateJsonResponse(status, json);
      r.status == status && r.version == 11 &&
      r.headers[ContentType] == "application/json" && r.headers[AccessControlAllowOrigin] == "*" &&
      r.headers.Keys == {ContentType, AccessControlAllowOrigin}
  {
  }

  /** The error body reads back as error = true, the message as given and the status's numeric value. */
  lemma ErrorEnvelopeReadsBack(status: Status, message: string)
    ensures ReadEnvelope(CreateErrorResponse(status, message).body) == Some((true, message, status as int))
  {
  }

  /** An error response is the JSON response of its envelope. */
  lemma ErrorResponseIsJsonResponse(status: Status, message: string)
    ensures CreateErrorResponse(status, message) == CreateJsonResponse(status, ErrorBody(status, message))
  {
  }

  /** The JSON response's body is exactly the given value, so different values give different responses. */
  lemma JsonResponseCarriesValue(status: Status, json: Json, other: Json)
    ensures CreateJsonResponse(status, json).body == json
    ensures json != other ==> CreateJsonResponse(status, json) != CreateJsonResponse(status, other)
  {
  }

  /** Different messages or statuses give different error responses. */
  lemma ErrorResponsesDistinguish(status: Status, message: string, status': Status, message': string)
    requires (status, message) != (status', message')
    ensures CreateErrorResponse(status, message) != CreateErrorResponse(status', message')
  {
    ErrorEnvelopeReadsBack(status, message);
    ErrorEnvelopeReadsBack(status', message');
  }
}
