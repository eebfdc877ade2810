/**
 The astronomical data cache of `coopcontrol/models/astronomical.py`: one call to
 the Sunrise-Sunset API, the acceptance rule for its JSON reply, the
 normalisation of the reply's results into a table row, the insert-or-return-
 existing step keyed by calendar date, and the UTC half of the read-back view.

 The table is a map from date to row plus the next free id; the `unique=True`
 date column is the `Valid` invariant. The reply of the network call is an
 argument, and `dateutil.parser.parse` is the argument `parse`.
 */
module AstroStore {
  import opened Python
  import opened Calendar

  // ---------------------------------------------------------------------------
  // The API call

  /** A value in the request's query string. */
  datatype QueryValue = QText(text: string) | QReal(r: real) | QInt(n: int)

  /** The query arguments of a request, in the order `urlencode` writes them. */
  function QueryArgs(latitude: real, longitude: real, date: string): (args: seq<(string, QueryValue)>)
    ensures |args| == 4
    ensures forall i, j | 0 <= i < j < |args| :: args[i].0 != args[j].0
    ensures ("date", QText(date)) in args
    ensures ("lat", QReal(latitude)) in args && ("lng", QReal(longitude)) in args
    ensures ("formatted", QInt(0)) in args
  {
    [("date", QText(date)), ("lat", QReal(latitude)), ("lng", QReal(longitude)), ("formatted", QInt(0))]
  }

  /** What `urlopen` followed by `json.load` produced. */
  datatype Reply =
    | HttpErrorReply(reason: string)   // urlopen raised HTTPError
    | UrlErrorReply(reason: string)    // urlopen raised a URLError that is not an HTTPError
    | UndecodableReply                 // json.load raised JSONDecodeError
    | JsonReply(body: Json)

  const ApiName: string := "Sunrise-Sunset API"
  const MalformedMessage: string := "Malformed response, missing results"

  /** The reply is a dict with a `results` entry and a `status` equal to "OK". */
  predicate Accepted(body: Json) {
    body.JObj? && "results" in body.fields && DictGet(body.fields, "status") == JStr("OK")
  }

  /** `"results" in body` holds although `body` is not a dict. */
  predicate ResultsInNonDict(body: Json) {
    !body.JObj? && Contains(body, "results") == Ok(true)
  }

  /** The check of the reply inside `__call_api`: an accepted reply yields its
      `results`; any other dict is an APIError; a list or string that contains
      "results" fails on `.get`, any other list or string is an APIError, and
      any other value cannot be searched with `in`. */
  function CheckResponse(body: Json): (r: Result<Json>)
    ensures r.Ok? <==> Accepted(body)
    ensures r.Ok? ==> r.value == body.fields["results"]
    ensures body.JObj? && !Accepted(body) ==> r == Raised(ApiError(ApiName, MalformedMessage))
    ensures (body.JStr? || body.JArr?) && !ResultsInNonDict(body) ==> r == Raised(ApiError(ApiName, MalformedMessage))
    ensures ResultsInNonDict(body) ==> r.Raised? && r.exc.AttributeError?
    ensures !(body.JObj? || body.JStr? || body.JArr?) ==> r.Raised? && r.exc.TypeError?
  {
    var hasResults :- Contains(body, "results");
    if !hasResults then Raised(ApiError(ApiName, MalformedMessage))
    else
      var status :- MethodGet(body, "status");
      if status != JStr("OK") then Raised(ApiError(ApiName, MalformedMessage))
      else Subscript(body, "results")
  }

  /** `urlopen(url)` then `json.load`: the decoded reply, or the exception the
      transport or the decoder raised. */
  function Fetch(reply: Reply): (r: Result<Json>)
    ensures r.Ok? <==> reply.JsonReply?
    ensures r.Ok? ==> r.value == reply.body
    ensures reply.HttpErrorReply? ==> r == Raised(HttpError(reply.reason))
    ensures reply.UrlErrorReply? ==> r == Raised(UrlError(reply.reason))
    ensures reply.UndecodableReply? ==> r.Raised? && r.exc.ValueError?
  {
    match reply
    case HttpErrorReply(reason) => Raised(HttpError(reason))
    case UrlErrorReply(reason) => Raised(UrlError(reason))
    case UndecodableReply => Raised(ValueError("Expecting value"))
    case JsonReply(body) => Ok(body)
  }

  /** `__call_api`: the raw results, or the exception it raises. Transport and
      decoding failures surface unchanged; a decoded reply is checked. */
  function CallApi(reply: Reply): (r: Result<Json>)
    ensures r.Ok? <==> reply.JsonReply? && Accepted(reply.body)
    ensures r.Ok? ==> r.value == reply.body.fields["results"]
    ensures !reply.JsonReply? ==> r == Fetch(reply)
    ensures reply.JsonReply? && reply.body.JObj? && !Accepted(reply.body) ==> r == Raised(ApiError(ApiName, MalformedMessage))
  {
    var body :- Fetch(reply);
    CheckResponse(body)
  }

  // ---------------------------------------------------------------------------
  // Normalisation

  /** `int(x)` of the real `x`: truncation toward zero. */
  function TruncateReal(x: real): (n: int)
    ensures x >= 0.0 ==> n as real <= x < n as real + 1.0
    ensures x < 0.0 ==> n as real - 1.0 < x <= n as real
  {
    if x >= 0.0 then x.Floor else -((-x).Floor)
  }

  /** `int(seconds / 60 / 60)` for an integer: whole hours, truncated toward zero. */
  function TruncateHours(seconds: int): (hours: int)
    ensures seconds >= 0 ==> 0 <= seconds - hours * 3600 < 3600
    ensures seconds < 0 ==> 0 <= hours * 3600 - seconds < 3600
  {
    if seconds >= 0 then seconds / 3600 else -((-seconds) / 3600)
  }

  /** `int(v / 60 / 60)` for the decoded `day_length`: numbers (a bool counts as
      0 or 1) give their whole hours, anything else cannot be divided. */
  function WholeHours(v: Json): (r: Result<int>)
    ensures v.JInt? ==> r == Ok(TruncateHours(v.i))
    ensures v.JBool? ==> r == Ok(0)
    ensures v.JFloat? ==> r == Ok(TruncateReal(v.f / 3600.0))
    ensures !(v.JInt? || v.JBool? || v.JFloat?) ==> r.Raised? && r.exc.TypeError?
  {
    match v
    case JInt(i) => Ok(TruncateHours(i))
    case JBool(b) => Ok(TruncateHours(if b then 1 else 0))
    case JFloat(f) => Ok(TruncateReal(f / 3600.0))
    case _ => Raised(TypeError("unsupported operand type(s) for /"))
  }

  /** `parser.parse(v)`: strings go to the parser, anything else is refused. */
  function ParseTimestamp(parse: string -> Option<Instant>, v: Json): (r: Result<Instant>)
    ensures r.Ok? <==> v.JStr? && parse(v.s).Some?
    ensures r.Ok? ==> r.value == parse(v.s).value
    ensures v.JStr? && parse(v.s).None? ==> r.Raised? && r.exc.ValueError?
    ensures !v.JStr? ==> r.Raised? && r.exc.TypeError?
  {
    match v
    case JStr(s) =>
      (match parse(s)
       case Some(instant) => Ok(instant)
       case None => Raised(ValueError("Unknown string format")))
    case _ => Raised(TypeError("Parser must be a string or character stream"))
  }

  /** The columns `__save_record` derives from the raw results. */
  datatype Fields = Fields(date: PyDate, sunrise: int, sunset: int, dayLength: int)

  /** The normalisation in `__save_record`: the date is the date the sunrise
      string was written in, the times are Unix seconds, the day length is whole
      hours. Lookups and parses happen in `__save_record`'s order, so the first
      missing or malformed entry names the exception, and that exception is
      always a KeyError, TypeError or ValueError. */
  function Normalise(raw: Json, parse: string -> Option<Instant>): (r: Result<Fields>)
    ensures r.Ok? ==> raw.JObj? && "sunrise" in raw.fields && "sunset" in raw.fields && "day_length" in raw.fields
    ensures r.Ok? ==> ParseTimestamp(parse, raw.fields["sunrise"]) == Ok(Instant(r.value.sunrise, r.value.date))
    ensures r.Ok? ==> ParseTimestamp(parse, raw.fields["sunset"]).Ok?
    ensures r.Ok? ==> r.value.sunset == ParseTimestamp(parse, raw.fields["sunset"]).value.seconds
    ensures r.Ok? ==> WholeHours(raw.fields["day_length"]) == Ok(r.value.dayLength)
    ensures raw.JObj? && "sunrise" !in raw.fields ==> r == Raised(KeyError("sunrise"))
    ensures !raw.JObj? ==> r.Raised? && r.exc.TypeError?
    ensures r.Raised? ==> r.exc.KeyError? || r.exc.TypeError? || r.exc.ValueError?
  {
    var sunriseText :- Subscript(raw, "sunrise");
    var sunrise :- ParseTimestamp(parse, sunriseText);
    var sunsetText :- Subscript(raw, "sunset");
    var sunset :- ParseTimestamp(parse, sunsetText);
    var dayLength :- Subscript(raw, "day_length");
    var hours :- WholeHours(dayLength);
    Ok(Fields(sunrise.date, sunrise.seconds, sunset.seconds, hours))
  }

  // ---------------------------------------------------------------------------
  // The table

  /** A row of the `astronomical` table; `date` is None only for a row built in
      memory without one. */
  datatype Row = Row(id: int, date: Option<PyDate>, sunrise: int, sunset: int, dayLength: int)

  /** The table, keyed by its unique date column, and the id the next insert gets. */
  datatype Store = Store(rows: map<PyDate, Row>, nextId: int)

  const EmptyStore: Store := Store(map[], 1)

  /** Each row sits under its own date, ids are positive and below the next id,
      and no two rows share an id. */
  ghost predicate Valid(s: Store) {
    && s.nextId >= 1
    && (forall d | d in s.rows :: s.rows[d].date == Some(d) && 1 <= s.rows[d].id < s.nextId)
    && (forall d, e | d in s.rows && e in s.rows && d != e :: s.rows[d].id != s.rows[e].id)
  }

  lemma EmptyStoreIsValid()
    ensures Valid(EmptyStore)
  {
  }

  /** `Astronomical.query.filter_by(date=...).first()`. */
  function FindByDate(s: Store, date: PyDate): (r: Option<Row>)
    ensures r.Some? <==> date in s.rows
    ensures r.Some? ==> r.value == s.rows[date]
  {
    if date in s.rows then Some(s.rows[date]) else None
  }

  /** Insert-or-return-existing by date: an existing row's id comes back with the
      table untouched; otherwise exactly one row is added under that date. */
  function Upsert(s: Store, f: Fields): (r: (int, Store))
    ensures f.date in s.rows ==> r == (s.rows[f.date].id, s)
    ensures f.date !in s.rows ==> r.1.rows == s.rows[f.date := Row(r.0, Some(f.date), f.sunrise, f.sunset, f.dayLength)]
    ensures f.date !in s.rows ==> s.nextId <= r.0 < r.1.nextId
  {
    match FindByDate(s, f.date)
    case Some(existing) => (existing.id, s)
    case None =>
      var row := Row(s.nextId, Some(f.date), f.sunrise, f.sunset, f.dayLength);
      (row.id, Store(s.rows[f.date := row], s.nextId + 1))
  }

  /** An insert keeps the table valid, its id is fresh and positive, and the
      table grows by one row exactly when the date was absent. */
  lemma UpsertKeepsValid(s: Store, f: Fields)
    requires Valid(s)
    ensures Valid(Upsert(s, f).1)
    ensures f.date !in s.rows ==> Upsert(s, f).0 >= 1
    ensures f.date !in s.rows ==> forall d | d in s.rows :: s.rows[d].id != Upsert(s, f).0
    ensures |Upsert(s, f).1.rows| == |s.rows| + (if f.date in s.rows then 0 else 1)
  {
  }

  /** Saving the same date twice gives the same id and leaves the table as the
      first save left it, whatever the second save's other columns are. */
  lemma UpsertIdempotent(s: Store, f: Fields, g: Fields)
    requires g.date == f.date
    ensures Upsert(Upsert(s, f).1, g) == (Upsert(s, f).0, Upsert(s, f).1)
  {
  }

  /** `__save_record`: falsy raw results are refused before anything is read;
      a failed normalisation raises its exception and leaves no table behind;
      otherwise the normalised row is inserted or its date's existing id is
      returned, with no other change to the table. */
  function Save(raw: Json, s: Store, parse: string -> Option<Instant>): (r: Result<(int, Store)>)
    ensures !Truthy(raw) ==> r == Raised(ValueError("Cannot save data: raw_data not found"))
    ensures Truthy(raw) && Normalise(raw, parse).Raised? ==> r == Raised(Normalise(raw, parse).exc)
    ensures r.Ok? <==> Truthy(raw) && Normalise(raw, parse).Ok?
    ensures r.Ok? ==> var f := Normalise(raw, parse).value;
      && r.value == Upsert(s, f)
      && f.date in r.value.1.rows && r.value.1.rows[f.date].id == r.value.0
  {
    if !Truthy(raw) then Raised(ValueError("Cannot save data: raw_data not found"))
    else
      var f :- Normalise(raw, parse);
      Ok(Upsert(s, f))
  }

  // ---------------------------------------------------------------------------
  // add_api_data

  /** What `add_api_data` does: return an id, return None, or let an exception out. */
  datatype AddOutcome = SavedId(id: int) | ReturnedNone | Escaped(exc: Exception)

  /** The exceptions `add_api_data` catches and logs. */
  predicate Caught(e: Exception) {
    e.HttpError? || e.ApiError?
  }

  /** `add_api_data`: call the API, then save; an HTTPError or APIError returns
      None, any other exception (a URLError, an undecodable body, a failed `.get`
      on a list or string, a failed save) escapes, and the table only changes on
      success. */
  function AddApiData(reply: Reply, s: Store, parse: string -> Option<Instant>): (r: (AddOutcome, Store))
    ensures reply.HttpErrorReply? ==> r == (ReturnedNone, s)
    ensures reply.UrlErrorReply? ==> r == (Escaped(UrlError(reply.reason)), s)
    ensures reply.JsonReply? && reply.body.JObj? && !Accepted(reply.body) ==> r == (ReturnedNone, s)
    ensures reply.JsonReply? && Accepted(reply.body) && !Truthy(reply.body.fields["results"]) ==>
              r == (Escaped(ValueError("Cannot save data: raw_data not found")), s)
    ensures reply.UndecodableReply? ==> r.0.Escaped? && r.0.exc.ValueError?
    ensures reply.JsonReply? && ResultsInNonDict(reply.body) ==> r.0.Escaped? && r.0.exc.AttributeError?
    ensures reply.JsonReply? && Accepted(reply.body) && Truthy(reply.body.fields["results"])
            && Normalise(reply.body.fields["results"], parse).Raised? ==>
              r == (Escaped(Normalise(reply.body.fields["results"], parse).exc), s)
    ensures r.0.ReturnedNone? <==>
              (reply.HttpErrorReply? || (reply.JsonReply? && CheckResponse(reply.body).Raised? && CheckResponse(reply.body).exc.ApiError?))
    ensures r.0.SavedId? <==> reply.JsonReply? && Accepted(reply.body) && Truthy(reply.body.fields["results"])
                              && Normalise(reply.body.fields["results"], parse).Ok?
    ensures r.0.SavedId? ==> var f := Normalise(reply.body.fields["results"], parse).value;
              f.date in r.1.rows && r.1.rows[f.date].id == r.0.id && r.1 == Upsert(s, f).1
    ensures !r.0.SavedId? ==> r.1 == s
    ensures r.0.Escaped? ==> !Caught(r.0.exc)
  {
    var attempt: Result<(int, Store)> := (var raw :- CallApi(reply); Save(raw, s, parse));
    match attempt
    case Ok(saved) => (SavedId(saved.0), saved.1)
    case Raised(e) => if Caught(e) then (ReturnedNone, s) else (Escaped(e), s)
  }

  /** Every outcome of `add_api_data` keeps the table valid, and a new id is >= 1. */
  lemma AddApiDataKeepsValid(reply: Reply, s: Store, parse: string -> Option<Instant>)
    requires Valid(s)
    ensures Valid(AddApiData(reply, s, parse).1)
    ensures AddApiData(reply, s, parse).0.SavedId? ==> AddApiData(reply, s, parse).0.id >= 1
  {
    var r := AddApiData(reply, s, parse);
    if r.0.SavedId? {
      var f := Normalise(reply.body.fields["results"], parse).value;
      UpsertKeepsValid(s, f);
    }
  }

  /** An accepted reply whose truthy results normalise to `f` saves `f`. */
  lemma AddAcceptedReply(body: Json, s: Store, parse: string -> Option<Instant>, f: Fields)
    requires Accepted(body) && Truthy(body.fields["results"]) && Normalise(body.fields["results"], parse) == Ok(f)
    ensures AddApiData(JsonReply(body), s, parse) == (SavedId(Upsert(s, f).0), Upsert(s, f).1)
  {
  }

  /** Running `add_api_data` again with the same reply returns what the first run
      returned and changes nothing further. */
  lemma AddApiDataIdempotent(reply: Reply, s: Store, parse: string -> Option<Instant>)
    ensures var (o1, s1) := AddApiData(reply, s, parse);
      AddApiData(reply, s1, parse) == (o1, s1)
  {
    var (o1, s1) := AddApiData(reply, s, parse);
    if o1.SavedId? {
      var f := Normalise(reply.body.fields["results"], parse).value;
      UpsertIdempotent(s, f, f);
    }
  }

  // ---------------------------------------------------------------------------
  // get_with_local, UTC half

  /** The UTC entries of the dict `get_with_local` returns. */
  datatype UtcView = UtcView(id: int, date: string, sunrise: string, sunset: string, dayLength: int)

  /** The UTC half of `get_with_local`: a row without a date is refused; the date
      renders as `YYYY-MM-DD`, each time as the `HH:MM:SS+0000` clock reading of
      the timestamp's UTC time of day; id and day length pass through. */
  function RenderUtc(row: Row): (r: Result<UtcView>)
    ensures row.date.None? ==> r == Raised(ValueError("No data found to convert"))
    ensures row.date.Some? && !(MinTimestamp <= row.sunrise <= MaxTimestamp) ==> r == Raised(TimestampOutOfRange)
    ensures r.Ok? <==> row.date.Some? && MinTimestamp <= row.sunrise <= MaxTimestamp && MinTimestamp <= row.sunset <= MaxTimestamp
    ensures r.Ok? ==> r.value.id == row.id && r.value.dayLength == row.dayLength
    ensures r.Ok? ==> IsUtcClockOf(r.value.sunrise, row.sunrise) && IsUtcClockOf(r.value.sunset, row.sunset)
    ensures r.Ok? && row.date.value.year >= 1000 ==>
              && |r.value.date| == 10 && r.value.date[4] == '-' && r.value.date[7] == '-'
              && AllDigits(r.value.date[..4]) && AllDigits(r.value.date[5..7]) && AllDigits(r.value.date[8..])
              && DigitsValue(r.value.date[..4]) == row.date.value.year
              && DigitsValue(r.value.date[5..7]) == row.date.value.month
              && DigitsValue(r.value.date[8..]) == row.date.value.day
  {
    match row.date
    case None => Raised(ValueError("No data found to convert"))
    case Some(d) =>
      var sunrise :- FormatUtcTime(row.sunrise);
      var sunset :- FormatUtcTime(row.sunset);
      Ok(UtcView(row.id, FormatDate(d), sunrise, sunset, row.dayLength))
  }

  // ---------------------------------------------------------------------------
  // The whole cycle on the API's own timestamp format

  /** A UTC time of day as the API writes it inside a timestamp. */
  datatype Clock = Clock(h: int, m: int, s: int)

  predicate ValidClock(c: Clock) {
    0 <= c.h < 24 && 0 <= c.m < 60 && 0 <= c.s < 60
  }

  /** The Unix seconds of time `c` on date `d`. */
  function UnixSeconds(d: PyDate, c: Clock): int {
    EpochDay(d) * SecondsPerDay + c.h * 3600 + c.m * 60 + c.s
  }

  /** Results in the API's format: `extra` entries plus the sunrise and sunset
      written as `+00:00` timestamps and the day length in seconds. */
  function ApiResultsOf(extra: map<string, Json>, d: PyDate, rise: Clock, fallDay: PyDate, fall: Clock, dayLength: int): (raw: map<string, Json>)
    requires d.year >= 1000 && fallDay.year >= 1000 && ValidClock(rise) && ValidClock(fall)
    ensures "sunrise" in raw && "sunset" in raw && "day_length" in raw
    ensures forall k | k in extra && k !in {"sunrise", "sunset", "day_length"} :: k in raw && raw[k] == extra[k]
  {
    extra["sunrise" := JStr(ApiUtcText(d, rise.h, rise.m, rise.s))]
         ["sunset" := JStr(ApiUtcText(fallDay, fall.h, fall.m, fall.s))]
         ["day_length" := JInt(dayLength)]
  }

  /** Fetching a date not yet stored, from results whose sunrise and sunset the
      API wrote as `+00:00` timestamps, stores one row: its date is the sunrise's,
      its times are the two instants' Unix seconds and its day length the whole
      hours of `day_length`. Reading the row back renders the date and the
      clock readings the API sent. */
  lemma FetchThenRender(s: Store, extra: map<string, Json>, d: PyDate, rise: Clock, fallDay: PyDate, fall: Clock, dayLength: int)
    requires d.year >= 1000 && fallDay.year >= 1000 && ValidClock(rise) && ValidClock(fall)
    requires d !in s.rows
    ensures var raw := ApiResultsOf(extra, d, rise, fallDay, fall, dayLength);
      var body := JObj(map["results" := JObj(raw), "status" := JStr("OK")]);
      var (outcome, s') := AddApiData(JsonReply(body), s, ParseApiTimestamp);
      && outcome.SavedId?
      && s'.rows == s.rows[d := Row(outcome.id, Some(d), UnixSeconds(d, rise), UnixSeconds(fallDay, fall), TruncateHours(dayLength))]
      && RenderUtc(s'.rows[d]) == Ok(UtcView(
           outcome.id,
           FormatDate(d),
           Pad2(rise.h) + ":" + Pad2(rise.m) + ":" + Pad2(rise.s) + "+0000",
           Pad2(fall.h) + ":" + Pad2(fall.m) + ":" + Pad2(fall.s) + "+0000",
           TruncateHours(dayLength)))
  {
    var raw := ApiResultsOf(extra, d, rise, fallDay, fall, dayLength);
    var body := JObj(map["results" := JObj(raw), "status" := JStr("OK")]);
    NormaliseApiResults(extra, d, rise, fallDay, fall, dayLength);
    AddAcceptedReply(body, s, ParseApiTimestamp, Fields(d, UnixSeconds(d, rise), UnixSeconds(fallDay, fall), TruncateHours(dayLength)));
    ClockOfApiText(d, rise);
    ClockOfApiText(fallDay, fall);
  }

  /** The results' timestamps parse to their instants and the day length to its
      whole hours. */
  lemma NormaliseApiResults(extra: map<string, Json>, d: PyDate, rise: Clock, fallDay: PyDate, fall: Clock, dayLength: int)
    requires d.year >= 1000 && fallDay.year >= 1000 && ValidClock(rise) && ValidClock(fall)
    ensures Normalise(JObj(ApiResultsOf(extra, d, rise, fallDay, fall, dayLength)), ParseApiTimestamp)
            == Ok(Fields(d, UnixSeconds(d, rise), UnixSeconds(fallDay, fall), TruncateHours(dayLength)))
  {
    var raw := ApiResultsOf(extra, d, rise, fallDay, fall, dayLength);
    ParsesApiText(d, rise);
    ParsesApiText(fallDay, fall);
    NormaliseParsed(raw, ParseApiTimestamp, Instant(UnixSeconds(d, rise), d), Instant(UnixSeconds(fallDay, fall), fallDay), dayLength);
  }

  /** The API's text for time `c` on date `d` parses to that instant. */
  lemma ParsesApiText(d: PyDate, c: Clock)
    requires d.year >= 1000 && ValidClock(c)
    ensures ParseApiTimestamp(ApiUtcText(d, c.h, c.m, c.s)) == Some(Instant(UnixSeconds(d, c), d))
  {
    ParseApiUtcText(d, c.h, c.m, c.s);
  }

  /** Results whose timestamps parse and whose day length is an integer
      normalise to those instants and its whole hours. */
  lemma NormaliseParsed(raw: map<string, Json>, parse: string -> Option<Instant>, sunrise: Instant, sunset: Instant, dayLength: int)
    requires "sunrise" in raw && raw["sunrise"].JStr? && parse(raw["sunrise"].s) == Some(sunrise)
    requires "sunset" in raw && raw["sunset"].JStr? && parse(raw["sunset"].s) == Some(sunset)
    requires "day_length" in raw && raw["day_length"] == JInt(dayLength)
    ensures Normalise(JObj(raw), parse) == Ok(Fields(sunrise.date, sunrise.seconds, sunset.seconds, TruncateHours(dayLength)))
  {
  }

  /** The instant the API wrote as a `+00:00` timestamp renders back as the clock
      reading it wrote. */
  lemma ClockOfApiText(d: PyDate, c: Clock)
    requires d.year >= 1000 && ValidClock(c)
    ensures FormatUtcTime(UnixSeconds(d, c)) == Ok(Pad2(c.h) + ":" + Pad2(c.m) + ":" + Pad2(c.s) + "+0000")
  {
    var text := ApiUtcText(d, c.h, c.m, c.s);
    ParseApiUtcText(d, c.h, c.m, c.s);
    UtcTimestampRoundTrip(text);
    assert text[11..19] == Pad2(c.h) + ":" + Pad2(c.m) + ":" + Pad2(c.s);
  }
}
