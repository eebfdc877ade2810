/**
 The response envelope of `coopcontrol/views/__init__.py`: every view answers
 with a dict holding the result, a status label and, on errors, a message,
 together with an HTTP status code. A model object passed as data is its JSON
 form, a non-empty dict, and so truthy like the object itself.
 */
module Views {
  import opened Python

  const LabelOk: string := "OK"
  const LabelNotFound: string := "NOT_FOUND"
  const LabelError: string := "ERROR"

  /** `bool(status_code)`: a code was given and is not zero. */
  predicate CodeGiven(statusCode: Option<int>) {
    statusCode.Some? && statusCode.value != 0
  }

  /** `bool(error_message)`: a message was given and is not empty. */
  predicate MessageGiven(errorMessage: Option<string>) {
    errorMessage.Some? && |errorMessage.value| > 0
  }

  /** The body's `status` entry, or "" when it has none. */
  function StatusLabel(body: Json): string {
    if body.JObj? && "status" in body.fields && body.fields["status"].JStr? then body.fields["status"].s else ""
  }

  /** The shape every envelope has: a dict whose `result` is the data when truthy
      and an empty dict otherwise, whose `status` is one of the three labels, and
      which holds a `message` exactly when the label is ERROR. */
  predicate WellFormedEnvelope(body: Json, data: Json) {
    && body.JObj?
    && "result" in body.fields
    && body.fields["result"] == (if Truthy(data) then data else JObj(map[]))
    && "status" in body.fields && body.fields["status"].JStr?
    && StatusLabel(body) in {LabelOk, LabelNotFound, LabelError}
    && ("message" in body.fields <==> StatusLabel(body) == LabelError)
    && body.fields.Keys <= {"result", "status", "message"}
  }

  /** `format_response(data, status_code, error_message)`. */
  function FormatResponse(data: Json, statusCode: Option<int>, errorMessage: Option<string>): (r: Result<(Json, int)>)
    ensures r.Raised? <==> MessageGiven(errorMessage) && !CodeGiven(statusCode)
    ensures r.Raised? ==> r.exc == ValueError("status_code must be set with error_message")
    ensures r.Ok? ==> WellFormedEnvelope(r.value.0, data)
    ensures r.Ok? && MessageGiven(errorMessage) ==>
              && StatusLabel(r.value.0) == LabelError
              && r.value.0.fields["message"] == JStr(errorMessage.value)
              && r.value.1 == statusCode.value
    ensures !MessageGiven(errorMessage) && !Truthy(data) ==>
              && r.Ok? && StatusLabel(r.value.0) == LabelNotFound
              && r.value.1 == (if CodeGiven(statusCode) then statusCode.value else 404)
    ensures !MessageGiven(errorMessage) && Truthy(data) ==>
              && r.Ok? && StatusLabel(r.value.0) == LabelOk
              && r.value.1 == (if CodeGiven(statusCode) then statusCode.value else 200)
  {
    var result := if Truthy(data) then data else JObj(map[]);
    var retval := map["result" := result];
    if MessageGiven(errorMessage) then
      if !CodeGiven(statusCode) then Raised(ValueError("status_code must be set with error_message"))
      else
        var fields := retval["message" := JStr(errorMessage.value)]["status" := JStr(LabelError)];
        Ok((JObj(fields), statusCode.value))
    else if !Truthy(data) then
      var code := if CodeGiven(statusCode) then statusCode.value else 404;
      Ok((JObj(retval["status" := JStr(LabelNotFound)]), code))
    else
      var code := if CodeGiven(statusCode) then statusCode.value else 200;
      Ok((JObj(retval["status" := JStr(LabelOk)]), code))
  }

  /** The label alone tells which case produced an envelope: ERROR exactly when a
      message was given, NOT_FOUND exactly when none was and the data was falsy. */
  lemma LabelClassifiesInputs(data: Json, statusCode: Option<int>, errorMessage: Option<string>)
    requires FormatResponse(data, statusCode, errorMessage).Ok?
    ensures var shown := StatusLabel(FormatResponse(data, statusCode, errorMessage).value.0);
      && (shown == LabelError <==> MessageGiven(errorMessage))
      && (shown == LabelNotFound <==> !MessageGiven(errorMessage) && !Truthy(data))
      && (shown == LabelOk <==> !MessageGiven(errorMessage) && Truthy(data))
  {
  }

  /** The not-found answers of the views: no data gives 404 by default, and the
      204 of a hardware update without a new row keeps its code. */
  lemma NotFoundExamples()
    ensures FormatResponse(JNull, None, None) == Ok((JObj(map["result" := JObj(map[]), "status" := JStr("NOT_FOUND")]), 404))
    ensures FormatResponse(JNull, Some(204), None) == Ok((JObj(map["result" := JObj(map[]), "status" := JStr("NOT_FOUND")]), 204))
  {
  }

  /** An invalid status update answers 400 with an ERROR envelope and an empty result. */
  lemma ErrorExample(message: string)
    requires |message| > 0
    ensures FormatResponse(JNull, Some(400), Some(message))
            == Ok((JObj(map["result" := JObj(map[]), "message" := JStr(message), "status" := JStr("ERROR")]), 400))
  {
  }
}
