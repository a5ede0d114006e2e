/** The loop at the end of map_view: every Feature of the GeoJSON
    FeatureCollection (sections 3.2 and 3.3 of RFC 7946) becomes one flat quake
    record, in order, with longitude, latitude and depth taken by position from
    the geometry's coordinates (the Position order of section 3.1.1), magnitude
    and place copied from the properties, and the epoch-millisecond time
    rendered as a UTC timestamp. Any feature the code cannot read aborts the
    whole batch: the exception escapes the handler. */
module Normalizer {
  import opened Wrappers
  import opened Json
  import opened Calendar
  import opened Iso8601

  /** One entry of quake_data. The numeric fields and place are passed through
      as the payload holds them. */
  datatype Quake = Quake(
    longitude: Value,
    latitude: Value,
    depthKm: Value,
    magnitude: Value,
    place: Value,
    time: string)

  /** Why normalisation stopped, by the Python exception it raises:
      data.get on a non-dictionary (AttributeError), iterating a non-collection
      (TypeError), or the first feature that cannot be read. */
  datatype Fault = PayloadNotObject | FeaturesNotIterable | BadFeature(index: nat)

  /** v[key] for a string key: only a dictionary holding the key answers. */
  function Member(v: Value, key: string): Option<Value> {
    if v.JObject? && key in v.fields then Some(v.fields[key]) else None
  }

  /** v[k] for an integer index: a list gives its element, a string its
      one-character substring; a dictionary (string keys) or a scalar fails. */
  function Element(v: Value, k: nat): Option<Value> {
    match v
    case JArray(items) => if k < |items| then Some(items[k]) else None
    case JString(s) => if k < |s| then Some(JString([s[k]])) else None
    case _ => None
  }

  /** Whole seconds of time / 1000.0, floored as datetime.fromtimestamp does;
      a bool counts as the integer 0 or 1. None where the division raises. */
  function EpochSeconds(time: Value): Option<int> {
    match time
    case JInt(ms) => Some(ms / 1000)
    case JFloat(ms) => Some((ms / 1000.0).Floor)
    case JBool(_) => Some(0)
    case _ => None
  }

  /** The "time" field: None where datetime cannot represent the instant
      (ValueError outside the years 1 to 9999). */
  function TimeText(time: Value): Option<string> {
    var s :- EpochSeconds(time);
    if MinInstant <= s <= MaxInstant then Some(RenderUtc(s)) else None
  }

  /** The six values the loop looks up in one feature, time still raw. */
  datatype Lookups = Lookups(
    longitude: Value,
    latitude: Value,
    depthKm: Value,
    magnitude: Value,
    place: Value,
    time: Value)

  /** The subscripts f["geometry"]["coordinates"][0..2] and
      f["properties"]["mag" / "place" / "time"], in the order the loop
      evaluates them; None at the first that raises. */
  function LookUp(f: Value): Option<Lookups> {
    var props :- Member(f, "properties");
    var geometry :- Member(f, "geometry");
    var coords :- Member(geometry, "coordinates");
    var longitude :- Element(coords, 0);
    var latitude :- Element(coords, 1);
    var depth :- Element(coords, 2);
    var mag :- Member(props, "mag");
    var place :- Member(props, "place");
    var time :- Member(props, "time");
    Some(Lookups(longitude, latitude, depth, mag, place, time))
  }

  /** One feature f as one quake record, or None where reading it raises. */
  function ToQuake(f: Value): Option<Quake> {
    var v :- LookUp(f);
    var text :- TimeText(v.time);
    Some(Quake(v.longitude, v.latitude, v.depthKm, v.magnitude, v.place, text))
  }

  /** What `for f in data.get("features", [])` iterates over. An empty
      dictionary or string iterates nothing; a non-empty one yields keys or
      characters, strings that the first feature access rejects. */
  function FeatureList(data: Value): Result<seq<Value>, Fault> {
    if !data.JObject? then Failure(PayloadNotObject)
    else if "features" !in data.fields then Success([])
    else
      match data.fields["features"]
      case JArray(items) => Success(items)
      case JObject(m) => if |m| == 0 then Success([]) else Failure(BadFeature(0))
      case JString(s) => if |s| == 0 then Success([]) else Failure(BadFeature(0))
      case _ => Failure(FeaturesNotIterable)
  }

  /** The records of fs in order, converting each with read, or the index of
      the first feature read rejects. */
  function QuakesOf(fs: seq<Value>, read: Value -> Option<Quake>): Result<seq<Quake>, nat>
    decreases |fs|
  {
    if fs == [] then Success([])
    else
      match QuakesOf(fs[..|fs| - 1], read)
      case Failure(i) => Failure(i)
      case Success(qs) =>
        match read(fs[|fs| - 1])
        case None => Failure(|fs| - 1)
        case Some(q) => Success(qs + [q])
  }

  /** The record list the handler hands to the template, or why it raised. */
  function Normalization(data: Value): Result<seq<Quake>, Fault> {
    match FeatureList(data)
    case Failure(e) => Failure(e)
    case Success(fs) =>
      match QuakesOf(fs, ToQuake)
      case Failure(i) => Failure(BadFeature(i))
      case Success(qs) => Success(qs)
  }

  /** The handler's loop, appending one record per feature to quake_data. */
  method CollectQuakes(data: Value) returns (r: Result<seq<Quake>, Fault>)
    ensures r == Normalization(data)
  {
    var features := FeatureList(data);
    if features.Failure? {
      return Failure(features.error);
    }
    var fs := features.value;
    var quakes: seq<Quake> := [];
    for i := 0 to |fs|
      invariant QuakesOf(fs[..i], ToQuake) == Success(quakes)
    {
      assert fs[..i + 1][..i] == fs[..i];
      var q := ToQuake(fs[i]);
      if q.None? {
        assert QuakesOf(fs[..i + 1], ToQuake) == Failure(i);
        FailureIsFinal(fs, i + 1, ToQuake);
        return Failure(BadFeature(i));
      }
      quakes := quakes + [q.value];
    }
    assert fs[..|fs|] == fs;
    return Success(quakes);
  }

  // ---------------------------------------------------------------------
  // Properties of normalisation

  /** Once a prefix of the features has failed, reading more features never
      changes the outcome: the loop may stop at the first failure. */
  lemma {:induction false} FailureIsFinal(fs: seq<Value>, k: nat, read: Value -> Option<Quake>)
    requires k <= |fs| && QuakesOf(fs[..k], read).Failure?
    ensures QuakesOf(fs, read) == QuakesOf(fs[..k], read)
    decreases |fs|
  {
    if k == |fs| {
      assert fs[..k] == fs;
    } else {
      var init := fs[..|fs| - 1];
      assert init[..k] == fs[..k];
      FailureIsFinal(init, k, read);
    }
  }

  /** All-or-nothing, order-preserving: the batch succeeds exactly when every
      feature can be read, and then record i is the record of feature i. */
  lemma {:induction false} QuakesOfSucceeds(fs: seq<Value>, read: Value -> Option<Quake>)
    ensures QuakesOf(fs, read).Success? <==> forall i :: 0 <= i < |fs| ==> read(fs[i]).Some?
    ensures QuakesOf(fs, read).Success? ==>
      |QuakesOf(fs, read).value| == |fs| &&
      forall i :: 0 <= i < |fs| ==> read(fs[i]) == Some(QuakesOf(fs, read).value[i])
    decreases |fs|
  {
    if fs != [] {
      var init := fs[..|fs| - 1];
      QuakesOfSucceeds(init, read);
      assert forall i :: 0 <= i < |init| ==> init[i] == fs[i];
    }
  }

  /** A failing batch names the first feature that cannot be read. */
  lemma {:induction false} QuakesOfFails(fs: seq<Value>, read: Value -> Option<Quake>)
    ensures QuakesOf(fs, read).Failure? ==>
      var i := QuakesOf(fs, read).error;
      i < |fs| && read(fs[i]).None? && forall j :: 0 <= j < i ==> read(fs[j]).Some?
    decreases |fs|
  {
    if fs != [] {
      var init := fs[..|fs| - 1];
      QuakesOfFails(init, read);
      QuakesOfSucceeds(init, read);
      assert forall i :: 0 <= i < |init| ==> init[i] == fs[i];
    }
  }

  /** The records the handler shows are exactly the features read one by one,
      in their original order and with none dropped or added. */
  lemma NormalizationPreservesOrder(data: Value)
    requires Normalization(data).Success?
    ensures FeatureList(data).Success?
    ensures |Normalization(data).value| == |FeatureList(data).value|
    ensures forall i :: 0 <= i < |FeatureList(data).value| ==>
      ToQuake(FeatureList(data).value[i]) == Some(Normalization(data).value[i])
  {
    QuakesOfSucceeds(FeatureList(data).value, ToQuake);
  }

  /** One unreadable feature anywhere fails the whole batch, at that feature
      or at an earlier one. */
  lemma BadFeatureAbortsBatch(data: Value, k: nat)
    requires FeatureList(data).Success? && k < |FeatureList(data).value|
    requires ToQuake(FeatureList(data).value[k]).None?
    ensures Normalization(data).Failure?
    ensures Normalization(data).error.BadFeature? && Normalization(data).error.index <= k
  {
    var fs := FeatureList(data).value;
    QuakesOfSucceeds(fs, ToQuake);
    QuakesOfFails(fs, ToQuake);
  }

  /** Any feature holding the keys the loop reads, whatever else it carries
      (an id, a bbox, further properties, a fourth coordinate), becomes the
      record of its own fields: longitude, latitude and depth by position in
      the coordinates, magnitude and place unchanged, and the integer
      millisecond time rendered from its whole seconds. */
  lemma ToQuakeCopiesFields(f: Value)
    requires f.JObject? && "properties" in f.fields && "geometry" in f.fields
    requires f.fields["properties"].JObject? && f.fields["geometry"].JObject?
    requires var p := f.fields["properties"].fields;
      "mag" in p && "place" in p && "time" in p && p["time"].JInt?
    requires var g := f.fields["geometry"].fields;
      "coordinates" in g && g["coordinates"].JArray? && |g["coordinates"].items| >= 3
    requires MinInstant <= f.fields["properties"].fields["time"].i / 1000 <= MaxInstant
    ensures var p := f.fields["properties"].fields;
      var c := f.fields["geometry"].fields["coordinates"].items;
      ToQuake(f) == Some(Quake(c[0], c[1], c[2], p["mag"], p["place"], RenderUtc(p["time"].i / 1000)))
  {
    var p := f.fields["properties"].fields;
    var c := f.fields["geometry"].fields["coordinates"].items;
    assert LookUp(f) == Some(Lookups(c[0], c[1], c[2], p["mag"], p["place"], p["time"]));
    TimeTextOfMilliseconds(p["time"].i);
  }

  /** Fewer than three coordinates (no depth) make a feature unreadable. */
  lemma ShortCoordinatesReject(f: Value)
    requires Member(f, "geometry").Some? && Member(Member(f, "geometry").value, "coordinates").Some?
    requires var c := Member(Member(f, "geometry").value, "coordinates").value;
      (c.JArray? && |c.items| < 3) || (c.JString? && |c.s| < 3)
    ensures ToQuake(f).None?
  {
  }

  /** A feature missing any key the loop reads is unreadable. */
  lemma MissingKeyRejects(f: Value)
    requires || Member(f, "properties").None?
             || Member(f, "geometry").None?
             || Member(f.fields["geometry"], "coordinates").None?
             || Member(f.fields["properties"], "mag").None?
             || Member(f.fields["properties"], "place").None?
             || Member(f.fields["properties"], "time").None?
    ensures ToQuake(f).None?
  {
  }

  /** A worked example: time 1700000000000 ms is shown as
      2023-11-14T22:13:20. */
  lemma TimeTextExample()
    ensures TimeText(JInt(1700000000000)) == Some("2023-11-14T22:13:20")
  {
    var ms := 1700000000000;
    assert ms / 1000 == 1700000000;
    TimeTextOfMilliseconds(ms);
    RenderUtcExample();
  }

  /** An integer millisecond time in range is shown as the rendering of its
      whole seconds. */
  lemma TimeTextOfMilliseconds(ms: int)
    requires MinInstant <= ms / 1000 <= MaxInstant
    ensures TimeText(JInt(ms)) == Some(RenderUtc(ms / 1000))
  {
    assert EpochSeconds(JInt(ms)) == Some(ms / 1000);
  }

  /** A payload without a "features" key yields no records. */
  lemma NoFeaturesNoQuakes(fields: map<string, Value>)
    requires "features" !in fields
    ensures Normalization(JObject(fields)) == Success([])
  {
  }
}
