/**
 The concrete values the repository's tests pin for the astronomical cache,
 evaluated on the model.
 */
module AstroExamples {
  import opened Python
  import opened Calendar
  import opened AstroStore

  /** The reply the tests use for a good request. */
  const SuccessBody: Json := JObj(map[
    "results" := JObj(map[
      "sunrise" := JStr("2015-05-21T05:05:35+00:00"),
      "sunset" := JStr("2015-05-21T19:22:59+00:00"),
      "solar_noon" := JStr("2015-05-21T12:14:17+00:00"),
      "day_length" := JInt(51444)]),
    "status" := JStr("OK")])

  /** The reply the tests use for bad request parameters. */
  const FailureBody: Json := JObj(map["results" := JStr(""), "status" := JStr("INVALID_REQUEST")])

  const May21: PyDate := Date(2015, 5, 21)

  lemma ApiTimestampExample(s: string)
    requires s == "2015-05-21T05:05:35+00:00"
    ensures ParseApiTimestamp(s) == Some(Instant(1432184735, May21))
  {
    var d, h, m, sec := May21, 5, 5, 35;
    ApiTextOf(d, h, m, sec, s);
    ParseApiUtcText(d, h, m, sec);
  }

  lemma SunsetTimestampExample(s: string)
    requires s == "2015-05-21T19:22:59+00:00"
    ensures ParseApiTimestamp(s) == Some(Instant(1432236179, May21))
  {
    var d, h, m, sec := May21, 19, 22, 59;
    ApiTextOf(d, h, m, sec, s);
    ParseApiUtcText(d, h, m, sec);
  }

  /** The API's text for a time on 2015-05-21 is the date, "T", the padded
      clock and "+00:00". */
  lemma ApiTextOf(d: PyDate, h: int, m: int, sec: int, s: string)
    requires d == May21 && 0 <= h < 24 && 0 <= m < 60 && 0 <= sec < 60
    requires s == "2015-05-21T" + Pad2(h) + ":" + Pad2(m) + ":" + Pad2(sec) + "+00:00"
    ensures s == ApiUtcText(d, h, m, sec)
  {
    May21Text();
  }

  /** 2015-05-21 is written "2015-05-21". */
  lemma May21Text()
    ensures FormatDate(May21) == "2015-05-21"
  {
    assert Decimal(2) == "2";
    assert Decimal(20) == "20";
    assert Decimal(201) == "201";
    assert Decimal(2015) == "2015";
    assert Pad2(5) == "05" && Pad2(21) == "21";
  }

  /** A good reply on an empty table stores one row with id 1 for 2015-05-21,
      day length 51444 seconds becoming 14 hours; a second run returns id 1 again. */
  lemma SuccessfulFetchExample(body: Json)
    requires body == SuccessBody
    ensures AddApiData(JsonReply(body), EmptyStore, ParseApiTimestamp)
            == (SavedId(1), Store(map[May21 := Row(1, Some(May21), 1432184735, 1432236179, 14)], 2))
    ensures var s1 := AddApiData(JsonReply(body), EmptyStore, ParseApiTimestamp).1;
            AddApiData(JsonReply(body), s1, ParseApiTimestamp).0 == SavedId(1)
  {
    var f := Fields(May21, 1432184735, 1432236179, 14);
    SuccessResultsNormalise(body.fields["results"]);
    assert Upsert(EmptyStore, f) == (1, Store(map[May21 := Row(1, Some(May21), 1432184735, 1432236179, 14)], 2));
    AddApiDataIdempotent(JsonReply(body), EmptyStore, ParseApiTimestamp);
  }

  /** The good reply's results normalise to the 2015-05-21 row with 14 hours. */
  lemma SuccessResultsNormalise(raw: Json)
    requires raw == SuccessBody.fields["results"]
    ensures Truthy(raw)
    ensures Normalise(raw, ParseApiTimestamp) == Ok(Fields(May21, 1432184735, 1432236179, 14))
  {
    var fields := raw.fields;
    ApiTimestampExample(fields["sunrise"].s);
    SunsetTimestampExample(fields["sunset"].s);
    NormaliseParsed(fields, ParseApiTimestamp, Instant(1432184735, May21), Instant(1432236179, May21), 51444);
  }

  /** A reply whose status is not OK returns None and stores nothing. */
  lemma MalformedReplyExample(s: Store)
    ensures AddApiData(JsonReply(FailureBody), s, ParseApiTimestamp) == (ReturnedNone, s)
  {
  }

  lemma FixtureSunriseClock(t: int)
    requires t == 12114335
    ensures FormatUtcTime(t) == Ok("05:05:35+0000")
  {
    var text := "05:05:35+0000";
    assert text[0..2] == "05" && text[3..5] == "05" && text[6..8] == "35" && text[8..] == "+0000";
    TwoDigitsValue("05");
    TwoDigitsValue("35");
    assert ClockSeconds(text) == 18335 == t % SecondsPerDay;
    ClockReadingUnique(FormatUtcTime(t).value, text, t);
  }

  lemma FixtureSunsetClock(t: int)
    requires t == 12165779
    ensures FormatUtcTime(t) == Ok("19:22:59+0000")
  {
    var text := "19:22:59+0000";
    assert text[0..2] == "19" && text[3..5] == "22" && text[6..8] == "59" && text[8..] == "+0000";
    TwoDigitsValue("19");
    TwoDigitsValue("22");
    TwoDigitsValue("59");
    assert ClockSeconds(text) == 69779 == t % SecondsPerDay;
    ClockReadingUnique(FormatUtcTime(t).value, text, t);
  }

  lemma FixtureDate(d: PyDate)
    requires d == Date(1970, 5, 21)
    ensures FormatDate(d) == "1970-05-21"
  {
  }

  /** The stored fixture row reads back as 1970-05-21, 05:05:35 and 19:22:59 UTC. */
  lemma FixtureRenderExample(row: Row)
    requires row == Row(1, Some(Date(1970, 5, 21)), 12114335, 12165779, 14)
    ensures RenderUtc(row) == Ok(UtcView(1, "1970-05-21", "05:05:35+0000", "19:22:59+0000", 14))
  {
    FixtureSunriseClock(row.sunrise);
    FixtureSunsetClock(row.sunset);
    FixtureDate(row.date.value);
  }

  /** A row built without a date cannot be rendered. */
  lemma MissingDateExample()
    ensures RenderUtc(Row(0, None, 0, 0, 0)) == Raised(ValueError("No data found to convert"))
  {
  }
}
