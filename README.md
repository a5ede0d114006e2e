# usgs-flask-app: the map_view handler, modelled in Dafny

The `/map` handler (`map_view` in `app.py`) does four things:

- It builds a query for the USGS earthquake catalog. The query has a fixed GeoJSON format and a whole-globe bounding box. The time window runs from a start date (by default 60 days ago) to today. A magnitude floor is added when one was asked for.
- It calls the service. It saves the decoded answer in a single-slot fallback file (`fallback_earthquakes.json`). When the call fails, it serves that file instead.
- It flattens each GeoJSON Feature into one record: longitude, latitude, depth, magnitude, place and time.
- It renders the millisecond epoch time of each record as a UTC `YYYY-MM-DDTHH:MM:SS` text.

The project has these modules:

- `Wrappers`: the `Option` and `Result` types.
- `Json`: a decoded JSON document.
- `Calendar`: the proleptic Gregorian calendar over Python's datetime range, years 1 to 9999. Days are counted from 1970-01-01 (`DayNumber`) and converted back (`CivilFromDays`, `DateTimeOf`).
- `Iso8601`: the two strftime forms, plus parsers that read them back. The parsers are the reference the rendering is proved against.
- `QueryBuilder`: the request parameters.
- `Normalizer`: the feature loop.
- `Handler`: the fallback file as a class with one `slot`, and the handler method. The handler is proved against the function `Serve`, which gives the page and the new snapshot.

Each call's surroundings are parameters:

- the clock reading, in whole seconds;
- the outcome of the HTTP exchange;
- whether the fallback file can be opened for writing.

Three behaviours of the code are easy to miss:

- **The HTTP status is never checked.** `requests.get` raises only on transport failures (connection, timeout, redirects, a broken body), never for an HTTP status. A response with an error status whose body is JSON is therefore treated as a success: it is saved and shown. Only an undecodable body or no response falls back. `FetchOutcome` carries the status, and `Handler.StatusIgnored` proves that it plays no part.
- **A failed save discards the fresh payload.** The save sits inside the same `try` as the request. A fallback file that cannot be opened for writing sends the handler to the `except` branch. There it serves the old snapshot, or the "unavailable" message when there is none.
- **The default start date is always computed.** Python evaluates the default argument of `request.args.get("start", …)` even when `start` is given. A clock within 60 days of 0001-01-01 would therefore make the handler raise `OverflowError` whatever the arguments.

## Model

| member | source | states |
|---|---|---|
| Calendar.YearAndDay | app.py:60 | splits a day count since 0001-01-01 into a year in 1..9999 and a day of that year, consistent with the year lengths |
| Calendar.MonthAndDay | app.py:60 | finds the month and day of month for a day of the year, within the month's length |
| Calendar.CivilFromDays | app.py:60 | every day number in datetime's range is the day number of a valid calendar date |
| Calendar.DateTimeOf | app.py:60 | every second in datetime's range is the instant of a valid date and time of day |
| Calendar.CivilFromDayNumber | app.py:60 | converting a valid date to its day number and back gives the same date |
| Calendar.DayNumberCountsDays | app.py:19 | the day number grows by exactly one from each date to the next calendar day |
| Calendar.DayNumberIncreasing | app.py:19 | day numbers follow calendar order |
| Calendar.InstantOfInjective | app.py:60 | two valid date-times with the same instant are equal |
| Calendar.EpochIsDayZero | app.py:60 | 1970-01-01 is day 0, the epoch of the millisecond times |
| Iso8601.RenderUtc | app.py:60 | the "%Y-%m-%dT%H:%M:%S" text is 19 characters, with the separators in place |
| Iso8601.DateRoundTrip | app.py:26 | the "%Y-%m-%d" text of a date reads back as that date |
| Iso8601.DateTimeRoundTrip | app.py:60 | the "%Y-%m-%dT%H:%M:%S" text of a date-time reads back as that date-time |
| Iso8601.RenderUtcDenotesInstant | app.py:60 | the rendered timestamp reads back as a valid UTC date-time denoting exactly the given second |
| Iso8601.RenderUtcInjective | app.py:60 | distinct seconds render as distinct texts |
| Iso8601.ParseDateCanonical | app.py:26 | the only text that reads back as a valid date is its zero-padded "%Y-%m-%d" form |
| Iso8601.RenderUtcExample | app.py:60 | second 1700000000 renders as "2023-11-14T22:13:20" |
| QueryBuilder.DayText | app.py:26 | the date text of a second is the calendar day holding it, in ten characters |
| QueryBuilder.BuildQuery | app.py:18-33 | fails exactly when the default start overflows. The keys are the seven fixed ones, plus minmagnitude iff minmag is non-empty. Format and bounding box have their fixed values. endtime is today. starttime is the caller's text verbatim, or the day 60 days ago. minmagnitude is the caller's text verbatim |
| QueryBuilder.WireNameInjective | app.py:23-33 | no two parameters are sent under the same name |
| QueryBuilder.WireKeys | app.py:23-33 | the names sent are exactly format, starttime, endtime, minlatitude, maxlatitude, minlongitude and maxlongitude, plus minmagnitude when it was added |
| QueryBuilder.DefaultWindowIsSixtyDays | app.py:18-26 | the default start date is exactly 60 calendar days before, and so earlier than, the end date |
| Normalizer.CollectQuakes | app.py:51-61 | the loop's result is the normalisation of the payload, stopping at the first unreadable feature |
| Normalizer.FailureIsFinal | app.py:51-61 | once a prefix of the features fails, the outcome of the whole batch is that failure |
| Normalizer.QuakesOfSucceeds | app.py:51-61 | the batch succeeds iff every feature is readable; then it has one record per feature, and record i is read from feature i |
| Normalizer.QuakesOfFails | app.py:51-61 | a failed batch names the first unreadable feature, and all features before it are readable |
| Normalizer.NormalizationPreservesOrder | app.py:51-61 | a successful normalisation has one record per feature of the payload, in order |
| Normalizer.BadFeatureAbortsBatch | app.py:51-61 | one unreadable feature fails the whole normalisation, at that feature or an earlier one |
| Normalizer.ToQuakeCopiesFields | app.py:52-60 | any feature holding the keys the loop reads, whatever else it carries, becomes the record with longitude, latitude and depth = coordinates[0], [1], [2], magnitude = properties.mag and place = properties.place unchanged, and time = the UTC rendering of the floored whole seconds of properties.time |
| Normalizer.ShortCoordinatesReject | app.py:53-57 | fewer than three coordinates make a feature unreadable |
| Normalizer.MissingKeyRejects | app.py:52-60 | a feature without properties, geometry, coordinates, mag, place or time is unreadable |
| Normalizer.NoFeaturesNoQuakes | app.py:51 | a payload without a features key gives no records |
| Normalizer.TimeTextOfMilliseconds | app.py:60 | an integer millisecond time is shown as the rendering of its floored whole seconds |
| Normalizer.TimeTextExample | app.py:60 | time 1700000000000 is shown as "2023-11-14T22:13:20" |
| Handler.FallbackFile.constructor | app.py:10 | before any save the fallback file does not exist |
| Handler.FallbackFile.Save | app.py:41-42 | a writable file then holds exactly the payload; otherwise the save fails and the old snapshot stays |
| Handler.SaveThenLoad | app.py:41-47 | a save followed by a load returns the saved payload |
| Handler.Serve | app.py:35-49 | a snapshot once present is never lost. The snapshot changes only to a freshly received payload that could be written. The degraded page appears iff there is no snapshot and no payload could be saved, and it leaves the file empty |
| Handler.MapView | app.py:16-63 | the page returned and the snapshot left are those Serve gives for the snapshot found, the clock and the fetch outcome |
| Handler.FreshDataIsSavedAndShown | app.py:37-42 | after a successful fetch and save, the slot holds exactly the payload and the page shows its normalisation |
| Handler.OutageShowsSnapshot | app.py:41-47 | after a failed fetch, or a received payload that cannot be written, with a snapshot present, the page shows the snapshot's normalisation and the slot is unchanged; the unsaved payload is dropped |
| Handler.StatusIgnored | app.py:37-38 | two responses with the same body and different HTTP statuses give the same page and snapshot |
| Handler.OutageReplaysLastSuccess | app.py:36-47 | an outage right after a successful request shows the same page and keeps the same snapshot |
| Handler.SnapshotIsLatestSave | app.py:41-42 | after any sequence of requests the file holds the payload of the latest request that saved one |
| Handler.SavedSnapshotPersists | app.py:41-49 | once any request has saved a payload, the file is never empty again |

## Left out

- Flask routing, the `/` redirect, `render_template` and `app.run`. This is presentation and process glue. The rendered page is modelled as the record list it receives (`Handler.Page`).
- The network call and JSON decoding of the response. These are an abstract `FetchOutcome` parameter. The query is built but not transmitted, and the outcome is taken to be the service's answer to it.
- `datetime.now`. It is a whole-seconds parameter within datetime's range.
- Real file I/O. The fallback file is one `Option` slot, saved and loaded verbatim. Not modelled: a write that opens the file and then fails part-way (leaving a truncated file that `json.load` rejects), a corrupt or unreadable file, and `json.dump` rejecting values.
- Concurrent requests sharing the fallback file. Each call is one sequential step.
- Floating point. Coordinates, magnitude and place are opaque values passed through unchanged.
- Normalizer.EpochSeconds: `time / 1000.0` is modelled as exact floor division. Python's float division and the microsecond rounding in `fromtimestamp` can differ by a second for integers beyond 2^53 or a float within half a microsecond below a whole second. NaN and infinities are not modelled.
- Iso8601.FormatDate: years are always written with four zero-padded digits. The platform's strftime may print years below 1000 without padding.
- The exception text and HTTP 500 response of a raising handler are not modelled. A raising call is the `ServerError` page with its cause.
