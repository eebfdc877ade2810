# coopcontrol core, modelled in Dafny

coopcontrol runs a chicken-coop controller. Its core is modelled here:

- **Astronomical data cache** (`coopcontrol/models/astronomical.py`). It calls the Sunrise-Sunset API for one date and accepts a reply only when it has `results` and `status == "OK"`. It turns the reply's results into a row (date, Unix sunrise and sunset, whole hours of day length) and stores the row keyed by its unique date, returning the existing id when the date is already stored. It also renders a stored row back as `YYYY-MM-DD` and `HH:MM:SS+0000` in UTC.
- **Older fetcher** (`coopcontrol/astronomical.py`). It uses the same request and almost the same acceptance rule. It returns the results instead of storing them, and its save step does nothing.
- **Response envelope** of the web views (`coopcontrol/views/__init__.py`).
- **Configuration lookups** (`coopcontrol/configuration.py`): attribute access, the dotted `get`, and `{{NAME}}` secret substitution from the environment.
- **Enum-as-integer column type** (`coopcontrol/models/__init__.py`) for `AppStatus` and `HardwareStatus`.

Files and modules:

| file | module | contents |
|---|---|---|
| `python.dfy` | `Python` | decoded JSON values, truthiness, the exceptions, a `Result` type, and Python's `in`, `[]` and `.get` on those values |
| `calendar.dfy` | `Calendar` | proleptic Gregorian dates, Unix day numbers, the API's timestamp format, `strftime` of dates and UTC times |
| `astro_store.dfy` | `AstroStore` | `AstroApiHelper` and the `Astronomical` table |
| `astro_examples.dfy` | `AstroExamples` | the values the repository's tests use, evaluated on the model |
| `astro_legacy.dfy` | `AstroLegacy` | the older `Astronomical` fetcher, compared with `AstroStore` |
| `views.dfy` | `Views` | `format_response` |
| `configuration.dfy` | `Configuration` | `_Config.__getattr__`, `get` and `_replace_secrets` |
| `int_enum.dfy` | `IntEnumColumn` | `IntEnum.process_bind_param` and `process_result_value` |

Exceptions are values: each operation returns `Ok(value)` or `Raised(exception)`. The outcome types of `add_api_data` and `get_api_data` say whether an exception was caught (the call returns None) or escapes.

Effects become arguments:

- The network round trip (`urlopen` and then `json.load`) is a `Reply`: an HTTPError, another URLError, an undecodable body, or a decoded JSON value.
- `dateutil.parser.parse` is a function argument `parse`. `Calendar.ParseApiTimestamp` is a concrete parser for the API's own `YYYY-MM-DDTHH:MM:SS±HH:MM` format, and the end-to-end lemmas use it.
- The environment that `os.getenv` reads is a map.
- The database table is a map from date to row, plus the next id to hand out.

Behaviour of the code worth knowing:

- **Transport failures.** Only `HTTPError` is caught. A `URLError` that is not an `HTTPError`, and a body `json.load` cannot decode, escape `add_api_data` and `get_api_data`.
- **Missing `"status"` in the older fetcher.** The older fetcher indexes `response["status"]` (coopcontrol/astronomical.py:115), so a reply with `results` but no `status` raises an uncaught `KeyError` (`AstroLegacy.MissingStatusOutcomes`), where the store's helper raises a caught `APIError`.
- **Duplicate dates.** `__save_record` looks the date up and then inserts, with no retry if another writer inserts the same date in between. The model is sequential (`AstroStore.Upsert`).
- **Older fetcher's request arguments.** They are the same four arguments as the store's (coopcontrol/astronomical.py:104-109), so `AstroStore.QueryArgs` models both.

## Model

| member | source | states |
|---|---|---|
| Python.Contains | coopcontrol/configuration.py:66 | `in` is key membership on a dict and element membership on a list; any value that is not a dict, string or list raises TypeError |
| Python.Subscript | coopcontrol/astronomical.py:115 | `v[key]` succeeds exactly on a dict holding the key and yields its entry; a missing key is KeyError(key), a non-dict is TypeError |
| Python.MethodGet | coopcontrol/models/astronomical.py:232 | `.get(key)` on a dict is the entry or None; on anything else it raises AttributeError |
| Python.FalsyValues | coopcontrol/models/astronomical.py:150 | `bool(v)` (the test behind `if not self.__raw_data` and every `if data` / `if error_message` / `if not status_code` in views/__init__.py) is False exactly for None, False, 0, 0.0, "", [] and {} |
| Calendar.EpochIsDayZero | coopcontrol/models/astronomical.py:159 | 1970-01-01 is day 0 of the Unix day count |
| Calendar.NextDayIsOneMore | coopcontrol/models/astronomical.py:159 | the day count goes up by exactly one from each date to the next, across month and year ends and leap days |
| Calendar.DayRangeEnds | coopcontrol/models/astronomical.py:73-74 | 0001-01-01 and 9999-12-31, the ends of `datetime`'s range, are days MinDay and MaxDay |
| Calendar.EpochDayInRange | coopcontrol/models/astronomical.py:73-74 | every valid date falls between MinDay and MaxDay |
| Calendar.Decimal | coopcontrol/models/astronomical.py:78 | `%Y`'s rendering of a year is digits without a leading zero whose value is the year, with a length that grows with the number of decimal places |
| Calendar.DecimalOfDigits | coopcontrol/models/astronomical.py:78 | digits without a leading zero are rendered back to the same text, the inverse of reading them |
| Calendar.Pad2 | coopcontrol/models/astronomical.py:79-80 | `%02d` is two digits whose value is the number |
| Calendar.Pad2OfDigits | coopcontrol/models/astronomical.py:79-80 | two digits read and padded again give the same two characters |
| Calendar.FormatDate | coopcontrol/models/astronomical.py:78 | `%Y-%m-%d` for a year of four digits reads back as the date's year, month and day at fixed positions |
| Calendar.ClockReadingUnique | coopcontrol/models/astronomical.py:79-80 | two `HH:MM:SS+0000` readings of the same UTC time of day are the same text |
| Calendar.FormatUtcTime | coopcontrol/models/astronomical.py:73-80 | `fromtimestamp(t, UTC)` followed by `%H:%M:%S%z` succeeds exactly inside years 1 to 9999, and then shows hours below 24, minutes and seconds below 60 adding up to t's time of day |
| Calendar.ParseApiTimestamp | coopcontrol/models/astronomical.py:153-155 | a parse of the API's timestamp format yields a valid date and only accepts text of that shape |
| Calendar.ParseApiUtcText | coopcontrol/models/astronomical.py:153-159 | parsing the API's text for a UTC instant gives the date written and the instant's Unix seconds |
| Calendar.UtcTimestampRoundTrip | coopcontrol/models/astronomical.py:154-159 | for a `+00:00` timestamp: the Unix seconds lie in the representable range, fall on the written date's day, render back to the written clock reading, and the date renders back to the written date |
| AstroStore.QueryArgs | coopcontrol/models/astronomical.py:221-226 | the request carries four distinct arguments: the date as given, latitude, longitude, and `formatted=0` |
| AstroStore.CheckResponse | coopcontrol/models/astronomical.py:232-238 | a reply is accepted exactly when it is a dict with `results` and status "OK" (a missing status is not OK); it then yields its results; any other dict is APIError("Sunrise-Sunset API", "Malformed response, missing results"); a list or string containing "results" fails on `.get`; other values fail on `in` |
| AstroStore.Fetch | coopcontrol/models/astronomical.py:230-231 | the call yields the decoded body exactly when there is one; an HTTPError or URLError from the transport, or a ValueError from the decoder, surfaces unchanged |
| AstroStore.CallApi | coopcontrol/models/astronomical.py:230-238 | the call succeeds exactly on a decoded, accepted reply and yields its results; transport and decoding failures surface unchanged; a dict that is not accepted is an APIError |
| AstroStore.TruncateReal | coopcontrol/models/astronomical.py:163 | `int()` of a real truncates toward zero |
| AstroStore.TruncateHours | coopcontrol/models/astronomical.py:163 | `int(s / 60 / 60)` is the whole hours in s, truncated toward zero, for either sign |
| AstroStore.WholeHours | coopcontrol/models/astronomical.py:163 | integers, bools and floats give their truncated hours; any other value raises TypeError |
| AstroStore.ParseTimestamp | coopcontrol/models/astronomical.py:154-155 | strings go to the parser, an unparsable one raises ValueError, and a non-string raises TypeError |
| AstroStore.Normalise | coopcontrol/models/astronomical.py:153-164 | the row's date and sunrise are the parsed sunrise, its sunset the parsed sunset, and its day length the whole hours of `day_length`; a missing sunrise is KeyError, results that are not a dict raise TypeError, and every failure is a KeyError, TypeError or ValueError |
| AstroStore.FindByDate | coopcontrol/models/astronomical.py:169-170 | the lookup finds a row exactly when one is stored for the date, and returns that row |
| AstroStore.EmptyStoreIsValid | coopcontrol/models/astronomical.py:39-40 | the empty table meets the invariant: rows under their own unique date, with distinct positive ids below the next id |
| AstroStore.Upsert | coopcontrol/models/astronomical.py:168-184 | a stored date returns its row's id and leaves the table unchanged; otherwise exactly one row with a fresh id is added under that date |
| AstroStore.UpsertKeepsValid | coopcontrol/models/astronomical.py:168-184 | an insert keeps the invariant, a new id is at least 1 and differs from every stored id, and the table grows by one row exactly when the date was absent |
| AstroStore.UpsertIdempotent | coopcontrol/models/astronomical.py:169-175 | saving the same date a second time returns the first id and leaves the table as it was, whatever the other columns of the second save |
| AstroStore.Save | coopcontrol/models/astronomical.py:150-184 | falsy results raise ValueError("Cannot save data: raw_data not found"); a failed normalisation raises its own exception; otherwise the outcome is exactly the insert-or-return-existing of the normalised row, so no other row is added or changed, and the returned id is the row stored under the normalised date |
| AstroStore.AddApiData | coopcontrol/models/astronomical.py:125-134 | None is returned exactly after an HTTPError or an APIError from the reply check; a URLError, an undecodable body (ValueError), a list or string containing "results" (AttributeError), falsy results (ValueError) and a failed normalisation (its own exception) escape; an id is returned exactly when the reply is accepted, has truthy results and normalises, and the table is then the insert-or-return-existing of that row; otherwise the table is unchanged |
| AstroStore.AddApiDataKeepsValid | coopcontrol/models/astronomical.py:125-134 | every outcome of `add_api_data` keeps the table invariant, and a returned id is at least 1 |
| AstroStore.AddApiDataIdempotent | tests/test_astronomical.py:88-94 | running `add_api_data` again on the same reply gives the same outcome and the same table |
| AstroStore.RenderUtc | coopcontrol/models/astronomical.py:69-82 | a row without a date raises ValueError("No data found to convert"); out-of-range times fail; otherwise id and day length pass through, the times are UTC clock readings of the stored timestamps, and the date reads back as the stored year, month and day |
| AstroStore.NormaliseParsed | coopcontrol/models/astronomical.py:153-164 | results whose sunrise and sunset parse and whose day length is an integer normalise to the sunrise's date, the two instants' seconds and the whole hours |
| AstroStore.ClockOfApiText | coopcontrol/models/astronomical.py:73-80 | an instant the API wrote as a `+00:00` timestamp renders back as the clock reading it wrote |
| AstroStore.FetchThenRender | coopcontrol/models/astronomical.py:153-184 | fetching a date not yet stored, from results in the API's `+00:00` format, adds exactly one row under the sunrise's date with the two instants' Unix seconds and the whole hours of the day length; reading it back renders that date and the clock readings the API sent |
| AstroExamples.ApiTimestampExample | tests/test_astronomical.py:22 | "2015-05-21T05:05:35+00:00" parses to Unix second 1432184735 on 2015-05-21 |
| AstroExamples.SunsetTimestampExample | tests/test_astronomical.py:23 | "2015-05-21T19:22:59+00:00" parses to Unix second 1432236179 on 2015-05-21 |
| AstroExamples.SuccessfulFetchExample | tests/test_astronomical.py:83-94 | the good reply stores row 1 for 2015-05-21 with day length 14 hours, and a second run returns id 1 again |
| AstroExamples.MalformedReplyExample | tests/test_astronomical.py:103-106 | the INVALID_REQUEST reply returns None and stores nothing |
| AstroExamples.FixtureSunriseClock | tests/test_astronomical.py:114 | the fixture sunrise 12114335 renders as "05:05:35+0000" |
| AstroExamples.FixtureSunsetClock | tests/test_astronomical.py:61 | the fixture sunset 12165779 renders as "19:22:59+0000" |
| AstroExamples.FixtureDate | tests/test_astronomical.py:113 | the fixture date renders as "1970-05-21" |
| AstroExamples.FixtureRenderExample | tests/test_astronomical.py:131-136 | the fixture row renders as id 1, "1970-05-21", "05:05:35+0000", "19:22:59+0000", 14 |
| AstroExamples.MissingDateExample | tests/test_astronomical.py:138-144 | a row without a date cannot be rendered and says "No data found to convert" |
| AstroLegacy.CheckResponse | coopcontrol/astronomical.py:115-120 | the older check accepts the same replies and yields their results; it raises APIError exactly for a reply without "results" or with a status other than "OK"; a dict with results and no status raises KeyError("status"), and a list or string containing "results" fails on indexing |
| AstroLegacy.CallApi | coopcontrol/astronomical.py:113-120 | the older call succeeds exactly on decoded, accepted replies and yields `response.get("results")`; transport and decoding failures surface unchanged; a reply without results or with a status other than "OK" is the APIError; results without a status raise KeyError("status") |
| AstroLegacy.SetLocalData | coopcontrol/astronomical.py:157-169 | the save step is `pass`: the table is left exactly as it was |
| AstroLegacy.GetApiData | coopcontrol/astronomical.py:57-70 | the results are returned exactly for accepted replies; None is returned exactly after an HTTPError or an APIError (no results, or a status other than "OK"); a URLError, an undecodable body (ValueError), the missing-status KeyError and the TypeError of indexing a list or string escape; the table never changes |
| AstroLegacy.SaveFlagHasNoEffect | coopcontrol/astronomical.py:62-63 | because the save step does nothing, the `save` flag never changes the outcome |
| AstroLegacy.SameAcceptanceRule | coopcontrol/astronomical.py:115 | both fetchers accept exactly the same replies and yield the same results |
| AstroLegacy.ChecksDifferOnlyOnMissingStatus | coopcontrol/astronomical.py:115 | on dict replies the two checks differ exactly when "results" is present and "status" is missing |
| AstroLegacy.MissingStatusOutcomes | coopcontrol/astronomical.py:65-70 | such a reply makes `get_api_data` raise KeyError, while `add_api_data` returns None and stores nothing |
| Views.FormatResponse | coopcontrol/views/__init__.py:10-33 | a message without a nonzero code raises ValueError; a message with one gives ERROR, the message and that code; otherwise falsy data gives NOT_FOUND with the code or 404, and truthy data gives OK with the code or 200; the result is the data when truthy and an empty dict otherwise, and "message" appears only under ERROR |
| Views.LabelClassifiesInputs | coopcontrol/views/__init__.py:16-33 | the label alone identifies the case: ERROR exactly when a message was given, NOT_FOUND exactly when none was and the data is falsy, OK otherwise |
| Views.NotFoundExamples | coopcontrol/views/__init__.py:24-28 | no data gives 404 by default and keeps an explicit 204, both labelled NOT_FOUND with an empty result |
| Views.ErrorExample | coopcontrol/views/__init__.py:16-22 | a message with code 400 gives an ERROR envelope with that message and an empty result |
| Configuration.SecretName | coopcontrol/configuration.py:82 | a match yields a name in `[A-Z0-9_]+` and the value is exactly that name's `{{NAME}}`, with at most one trailing newline; a bare name without braces never matches |
| Configuration.SecretNameCharacterised | coopcontrol/configuration.py:82 | the secret pattern matches exactly `{{NAME}}` for NAME in `[A-Z0-9_]+`, with or without one trailing newline, and yields NAME |
| Configuration.ReplaceSecrets | coopcontrol/configuration.py:77-87 | non-strings, sub-maps included, come back unchanged; a matching placeholder whose variable is set and non-empty becomes the variable's value; every other string is unchanged |
| Configuration.FirstSegment | coopcontrol/configuration.py:69-70 | the first segment is a dot-free prefix of the key, followed by a dot whenever it is shorter |
| Configuration.Split | coopcontrol/configuration.py:69 | `split(".")` yields at least one dot-free part, the first being the first segment |
| Configuration.JoinSplit | coopcontrol/configuration.py:69-73 | joining the parts of a split with dots gives the key back, so a dotted key is its first segment, a dot and the joined rest |
| Configuration.FirstSegmentOfDotted | coopcontrol/configuration.py:69-70 | the first segment of `a + "." + rest` is a, when a has no dot |
| Configuration.Search | coopcontrol/configuration.py:65-73 | the search raises only AttributeError ("... was not found") or TypeError, never KeyError |
| Configuration.Get | coopcontrol/configuration.py:48-75 | an exact top-level key gives its substituted value; failures are AttributeError or TypeError |
| Configuration.Attr | coopcontrol/configuration.py:44-46 | attribute access succeeds exactly for a top-level key of the section, gives its substituted value, and raises KeyError(name) otherwise |
| Configuration.ExactKeyWins | coopcontrol/configuration.py:66-67 | a key present at the current level is returned before any splitting |
| Configuration.DescendOneSegment | coopcontrol/configuration.py:69-73 | without an exact key, `get("a.b.c")` is the search for "b.c" inside the value of "a" |
| Configuration.MissingFirstSegment | coopcontrol/configuration.py:70-71 | a missing first segment raises AttributeError naming it |
| Configuration.AttrIsTopLevelGet | coopcontrol/configuration.py:44-46 | attribute access agrees with `get` on top-level keys and raises KeyError for any other name |
| Configuration.SubMapsAreNotSubstituted | coopcontrol/configuration.py:78-79 | a sub-map is returned as stored, placeholders inside it untouched |
| Configuration.NestedLookupExample | coopcontrol/configuration.py:57-60 | `get("app.name")` finds the nested name |
| Configuration.DottedAttrExample | coopcontrol/configuration.py:45 | attribute access does not split a dotted name |
| Configuration.SecretExample | coopcontrol/configuration.py:81-84 | "{{API_KEY}}" resolves to the variable's value when it is set and stays as written when it is not |
| Configuration.StringOnTheWay | coopcontrol/configuration.py:66-71 | a string met during the search is searched as a substring: a contained key then raises TypeError on indexing, and a missing one raises AttributeError |
| Configuration.SingleCharSubstring | coopcontrol/configuration.py:66 | a one-character key is `in` a string exactly when the character occurs in it |
| IntEnumColumn.Value | coopcontrol/models/application.py:18-26 | each member stands for 1, 2 or 3 |
| IntEnumColumn.Construct | coopcontrol/models/__init__.py:43-44 | the enum constructor succeeds exactly on 1 to 3 and gives the member of that class with that value; otherwise ValueError("<n> is not a valid <class>") |
| IntEnumColumn.ProcessBindParam | coopcontrol/models/__init__.py:38-41 | ints, bools and members pass unchanged; another object is bound as its `.value`; an object without one raises AttributeError; the stored integer is the value's |
| IntEnumColumn.ProcessResultValue | coopcontrol/models/__init__.py:43-44 | reading succeeds exactly on 1 to 3 and gives the column's class member with that value; otherwise ValueError |
| IntEnumColumn.MemberRoundTrip | coopcontrol/models/__init__.py:38-44 | a member written and read back through its own class is the same member |
| IntEnumColumn.StoredRoundTrip | coopcontrol/models/__init__.py:38-44 | a valid stored integer read and written back is the same integer |
| IntEnumColumn.BindIsUnchecked | coopcontrol/models/__init__.py:39-40 | binding validates nothing: any int is stored, it reads back only when in 1 to 3, and a member of the other class reads back as this class's member with the same value |
| IntEnumColumn.ValuesDistinguishMembers | coopcontrol/models/hardware.py:18-26 | within one class, members are equal exactly when their values are |
| IntEnumColumn.DefaultStatusExample | coopcontrol/models/application.py:39-40 | the default status ACTIVE is stored as 1, and a stored 4 fails with "4 is not a valid AppStatus" |

## Left out

- Network I/O: `urlopen`, `urlencode`, the URL text and `json.load` are not modelled. Their combined outcome is the `Reply` argument.
- `dateutil.parser.parse` in general is the `parse` argument. Only the API's own timestamp format is given a concrete parser.
- The local-time half of `get_with_local` is not modelled: `tz.gettz`, `astimezone`, and the `*_local` entries. These depend on the time-zone database and on the host's zone.
- The older fetcher's `__format_data` is not modelled. It is never called, and it rounds floats and converts time zones.
- Logging, SQLAlchemy sessions, commits and queries are not modelled, and neither is concurrency. The check-then-insert race and an `IntegrityError` from a concurrent insert are out of scope: the model is sequential.
- The Flask routes, the click commands and the app factory are not modelled.
- `bin/astronomical_data.py` is not modelled. It is a command-line wrapper.
- The `TimestampMixin` created and updated defaults are not modelled. They read the wall clock.
- Row ids are a counter. SQLite's rowid can reuse the largest id after a deletion, and nothing in the core deletes.
- `_Config.__init__` is not modelled: reading the YAML file, checking `COOPCONTROL_ENV` and configuring logging. The active section is an argument.
- Attribute names that Python resolves without calling `__getattr__` (`ENV`, `config`, methods) are not distinguished from section keys.
- `datetime.fromtimestamp` distinguishes OverflowError from ValueError at the ends of its range. Both are one `TimestampOutOfRange` exception here.
- JSON floats are exact reals. `day_length` values beyond 2^53 would round in Python before `int()` truncates them.
- `process_result_value` is given only integers. The column is `nullable=False`, so a NULL never comes back.
- Calendar.FormatDate: the digit-by-digit contract covers years 1000 and later. Earlier years are rendered without padding, as glibc's `%Y` does, and the contract says nothing about them.
- AstroStore.RenderUtc: the date part of the contract likewise covers years 1000 and later.
- Configuration.Search: the contract states only which exceptions can occur. What the search finds is stated by ExactKeyWins, DescendOneSegment and MissingFirstSegment.
- AstroStore.FetchThenRender: the end-to-end statement covers replies whose timestamps carry the `+00:00` offset and years 1000 and later. Other offsets go through the same parser but are not followed through to rendering.
