/** The request parameters map_view sends to the USGS event query service:
    a fixed GeoJSON format and whole-globe bounding box, a time window given
    as two UTC calendar dates, and an optional magnitude floor passed on
    exactly as the caller wrote it. */
module QueryBuilder {
  import opened Wrappers
  import opened Calendar
  import opened Iso8601

  /** A query-string value: the source puts both strings and integers in params. */
  datatype Param = Text(s: string) | Whole(n: int)

  /** The parameter names the handler uses, each sent under WireName. */
  datatype Field =
    | Format | StartTime | EndTime
    | MinLatitude | MaxLatitude | MinLongitude | MaxLongitude
    | MinMagnitude

  function WireName(f: Field): string {
    match f
    case Format => "format"
    case StartTime => "starttime"
    case EndTime => "endtime"
    case MinLatitude => "minlatitude"
    case MaxLatitude => "maxlatitude"
    case MinLongitude => "minlongitude"
    case MaxLongitude => "maxlongitude"
    case MinMagnitude => "minmagnitude"
  }

  type Query = map<Field, Param>

  /** No two parameters share a name on the wire. */
  lemma WireNameInjective(f: Field, g: Field)
    ensures WireName(f) == WireName(g) ==> f == g
  {
  }

  /** The dictionary requests encodes into the query string, keyed by name. */
  function Wire(q: Query): (m: map<string, Param>)
    ensures m.Keys == set f | f in q :: WireName(f)
    ensures forall f :: f in q ==> m[WireName(f)] == q[f]
  {
    forall f, g | f in q && g in q && WireName(f) == WireName(g)
      ensures q[f] == q[g]
    {
      WireNameInjective(f, g);
    }
    map f | f in q :: WireName(f) := q[f]
  }

  /** The names sent are exactly the seven of the fixed parameters, plus
      "minmagnitude" when a magnitude floor was given. */
  lemma WireKeys(q: Query, withMinMagnitude: bool)
    requires q.Keys == FixedKeys + (if withMinMagnitude then {MinMagnitude} else {})
    ensures Wire(q).Keys
      == {"format", "starttime", "endtime", "minlatitude", "maxlatitude", "minlongitude", "maxlongitude"}
         + (if withMinMagnitude then {"minmagnitude"} else {})
  {
    var names := {"format", "starttime", "endtime", "minlatitude", "maxlatitude", "minlongitude", "maxlongitude"}
      + (if withMinMagnitude then {"minmagnitude"} else {});
    forall f | f in q
      ensures WireName(f) in names
    {
    }
    forall name | name in names
      ensures name in Wire(q).Keys
    {
      var f :=
        if name == "format" then Format
        else if name == "starttime" then StartTime
        else if name == "endtime" then EndTime
        else if name == "minlatitude" then MinLatitude
        else if name == "maxlatitude" then MaxLatitude
        else if name == "minlongitude" then MinLongitude
        else if name == "maxlongitude" then MaxLongitude
        else MinMagnitude;
      assert f in q && WireName(f) == name;
    }
  }

  /** datetime.timedelta(days=60), in seconds. */
  const DefaultWindow := 60 * SecondsPerDay

  /** The keys present in every query. */
  const FixedKeys: set<Field> :=
    {Format, StartTime, EndTime, MinLatitude, MaxLatitude, MinLongitude, MaxLongitude}

  /** text is the YYYY-MM-DD form of the UTC calendar day holding the second s. */
  predicate IsDayOf(text: string, s: int) {
    && ParseDate(text).Some?
    && ValidDate(ParseDate(text).value)
    && DayNumber(ParseDate(text).value) == s / SecondsPerDay
  }

  /** strftime("%Y-%m-%d") of the UTC datetime at second s. */
  method DayText(s: int) returns (text: string)
    requires MinInstant <= s <= MaxInstant
    ensures IsDayOf(text, s)
    ensures |text| == 10
  {
    var t := DateTimeOf(s);
    text := FormatDate(t.date);
    DateRoundTrip(t.date);
  }

  /** Builds the parameters for the clock reading now (whole seconds since the
      epoch, UTC) and the request's optional start and minmag arguments.
      None when now - 60 days falls before 0001-01-01, where Python's datetime
      raises OverflowError; the default start date is computed (and can
      overflow) even when the caller supplies start. */
  method BuildQuery(now: int, start: Option<string>, minmag: Option<string>) returns (q: Option<Query>)
    requires MinInstant <= now <= MaxInstant
    ensures q.None? <==> now - DefaultWindow < MinInstant
    ensures q.Some? ==> q.value.Keys == FixedKeys + (if minmag.Some? && minmag.value != "" then {MinMagnitude} else {})
    ensures q.Some? ==> q.value[Format] == Text("geojson")
    ensures q.Some? ==> q.value[MinLatitude] == Whole(-90) && q.value[MaxLatitude] == Whole(90)
    ensures q.Some? ==> q.value[MinLongitude] == Whole(-180) && q.value[MaxLongitude] == Whole(180)
    ensures q.Some? ==> q.value[EndTime].Text? && IsDayOf(q.value[EndTime].s, now)
    ensures q.Some? && start.Some? ==> q.value[StartTime] == Text(start.value)
    ensures q.Some? && start.None? ==> q.value[StartTime].Text? && IsDayOf(q.value[StartTime].s, now - DefaultWindow)
    ensures q.Some? && MinMagnitude in q.value ==> q.value[MinMagnitude] == Text(minmag.value)
  {
    if now - DefaultWindow < MinInstant {
      return None;
    }
    var fallbackStart := DayText(now - DefaultWindow);
    var endText := DayText(now);
    var startText := if start.Some? then start.value else fallbackStart;
    var minmagText := if minmag.Some? then minmag.value else "";
    var params := map[
      Format := Text("geojson"),
      StartTime := Text(startText),
      EndTime := Text(endText),
      MinLatitude := Whole(-90),
      MaxLatitude := Whole(90),
      MinLongitude := Whole(-180),
      MaxLongitude := Whole(180)
    ];
    if minmagText != "" {
      params := params[MinMagnitude := Text(minmagText)];
    }
    return Some(params);
  }

  /** Without a start argument the window is exactly 60 calendar days: the
      two dates read back as valid dates, the start one 60 days before, and
      so strictly earlier than, the end one. */
  lemma DefaultWindowIsSixtyDays(now: int, first: string, last: string)
    ensures IsDayOf(first, now - DefaultWindow) && IsDayOf(last, now) ==>
      && DayNumber(ParseDate(last).value) == DayNumber(ParseDate(first).value) + 60
      && Before(ParseDate(first).value, ParseDate(last).value)
  {
    if IsDayOf(first, now - DefaultWindow) && IsDayOf(last, now) {
      var a, b := ParseDate(first).value, ParseDate(last).value;
      assert (now - DefaultWindow) / SecondsPerDay == now / SecondsPerDay - 60;
      if !Before(a, b) && a != b {
        DayNumberIncreasing(b, a);
      }
    }
  }
}
