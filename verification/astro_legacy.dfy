/**
 The older fetcher of `coopcontrol/astronomical.py`. It builds the same request
 and applies the same acceptance rule as the store's helper, but reads
 `response["status"]` by indexing, returns the results to its caller instead of
 storing them, and its `save` step does nothing.
 */
module AstroLegacy {
  import opened Python
  import Calendar
  import AstroStore

  /** The reply check in the legacy `__call_api`: a dict without "results" or with
      a status other than "OK" is an APIError, a dict with "results" but no
      "status" raises KeyError, and a list or string containing "results" cannot
      be indexed by "status". */
  function CheckResponse(body: Json): (r: Result<Json>)
    ensures r.Ok? <==> AstroStore.Accepted(body)
    ensures r.Ok? ==> r.value == body.fields["results"]
    ensures body.JObj? && "results" !in body.fields ==> r == Raised(ApiError(AstroStore.ApiName, AstroStore.MalformedMessage))
    ensures body.JObj? && "results" in body.fields && "status" !in body.fields ==> r == Raised(KeyError("status"))
    ensures body.JObj? && "results" in body.fields && "status" in body.fields && body.fields["status"] != JStr("OK") ==>
              r == Raised(ApiError(AstroStore.ApiName, AstroStore.MalformedMessage))
    ensures AstroStore.ResultsInNonDict(body) ==> r.Raised? && r.exc.TypeError?
    ensures r.Raised? && r.exc.ApiError? <==> Rejected(body)
  {
    var hasResults :- Contains(body, "results");
    if !hasResults then Raised(ApiError(AstroStore.ApiName, AstroStore.MalformedMessage))
    else
      var status :- Subscript(body, "status");
      if status != JStr("OK") then Raised(ApiError(AstroStore.ApiName, AstroStore.MalformedMessage))
      else MethodGet(body, "results")
  }

  /** The legacy `__call_api`: the same transport, then the legacy check. */
  function CallApi(reply: AstroStore.Reply): (r: Result<Json>)
    ensures r.Ok? <==> reply.JsonReply? && AstroStore.Accepted(reply.body)
    ensures r.Ok? ==> r.value == reply.body.fields["results"]
    ensures !reply.JsonReply? ==> r == AstroStore.Fetch(reply)
    ensures reply.JsonReply? && Rejected(reply.body) ==> r == Raised(ApiError(AstroStore.ApiName, AstroStore.MalformedMessage))
    ensures reply.JsonReply? && reply.body.JObj? && "results" in reply.body.fields && "status" !in reply.body.fields ==>
              r == Raised(KeyError("status"))
  {
    var body :- AstroStore.Fetch(reply);
    CheckResponse(body)
  }

  /** A reply the legacy check refuses with an APIError: a dict, string or list
      without "results", or a dict whose "status" is present and not "OK". */
  predicate Rejected(body: Json) {
    || Contains(body, "results") == Ok(false)
    || (body.JObj? && "results" in body.fields && "status" in body.fields && body.fields["status"] != JStr("OK"))
  }

  /** `__set_local_data`: its body is `pass`, so the table it was meant to
      write is left as it was. */
  function SetLocalData(data: Json, s: AstroStore.Store): (r: AstroStore.Store)
    ensures r == s
  {
    s
  }

  /** What `get_api_data` does: return the results, return None, or let an
      exception out. */
  datatype FetchOutcome = Results(data: Json) | ReturnedNone | Escaped(exc: Exception)

  /** `get_api_data` against the table `s`: the results of an accepted reply; None
      after an HTTPError or APIError; any other exception escapes. Saving goes
      through `SetLocalData`, so the table never changes. */
  function GetApiData(reply: AstroStore.Reply, save: bool, s: AstroStore.Store): (r: (FetchOutcome, AstroStore.Store))
    ensures r.1 == s
    ensures r.0.Results? <==> reply.JsonReply? && AstroStore.Accepted(reply.body)
    ensures r.0.Results? ==> r.0.data == reply.body.fields["results"]
    ensures reply.HttpErrorReply? ==> r.0 == ReturnedNone
    ensures reply.JsonReply? && Rejected(reply.body) ==> r.0 == ReturnedNone
    ensures r.0.ReturnedNone? <==> reply.HttpErrorReply? || (reply.JsonReply? && Rejected(reply.body))
    ensures reply.UrlErrorReply? ==> r.0 == Escaped(UrlError(reply.reason))
    ensures reply.UndecodableReply? ==> r.0.Escaped? && r.0.exc.ValueError?
    ensures reply.JsonReply? && reply.body.JObj? && "results" in reply.body.fields && "status" !in reply.body.fields ==>
              r.0 == Escaped(KeyError("status"))
    ensures reply.JsonReply? && AstroStore.ResultsInNonDict(reply.body) ==> r.0.Escaped? && r.0.exc.TypeError?
    ensures r.0.Escaped? ==> !AstroStore.Caught(r.0.exc)
  {
    match CallApi(reply)
    case Ok(data) => (Results(data), if save then SetLocalData(data, s) else s)
    case Raised(e) => (if AstroStore.Caught(e) then ReturnedNone else Escaped(e), s)
  }

  /** Because saving does nothing, the flag never changes the outcome. */
  lemma SaveFlagHasNoEffect(reply: AstroStore.Reply, s: AstroStore.Store)
    ensures GetApiData(reply, true, s) == GetApiData(reply, false, s)
  {
  }

  /** Both fetchers accept exactly the same replies and hand on the same results. */
  lemma SameAcceptanceRule(body: Json)
    ensures CheckResponse(body).Ok? <==> AstroStore.CheckResponse(body).Ok?
    ensures CheckResponse(body).Ok? ==> CheckResponse(body).value == AstroStore.CheckResponse(body).value
  {
  }

  /** On dict replies the two checks differ only when "results" is present and
      "status" is missing: the legacy check raises KeyError where the store's
      helper raises APIError. */
  lemma ChecksDifferOnlyOnMissingStatus(body: Json)
    requires body.JObj?
    ensures CheckResponse(body) != AstroStore.CheckResponse(body) <==>
              "results" in body.fields && "status" !in body.fields
  {
  }

  /** Consequently a reply with results but no status makes `get_api_data` raise,
      while `add_api_data` returns None and stores nothing. */
  lemma MissingStatusOutcomes(body: Json, s: AstroStore.Store, parse: string -> Option<Calendar.Instant>, save: bool)
    requires body.JObj? && "results" in body.fields && "status" !in body.fields
    ensures GetApiData(AstroStore.JsonReply(body), save, s) == (Escaped(KeyError("status")), s)
    ensures AstroStore.AddApiData(AstroStore.JsonReply(body), s, parse) == (AstroStore.ReturnedNone, s)
  {
  }
}
