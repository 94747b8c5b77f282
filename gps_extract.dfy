/** The extractor `extract_lat_lon_with_velocity`: it walks the `"events"` array of a
    decoded JSON document, keeps the `Navigation.Location` events, projects their fix
    time, coordinate and speed, and adds a miles-per-hour column. Every Python exception
    the routine can raise is an `Err`; the method follows the source's loop and is proved
    equal to the pure specification `Extraction`. */
module GpsExtract {
  import opened Wrappers
  import opened JsonValue

  /** The only event tag that produces a row (compared as a whole, case-sensitive string). */
  const LocationTag: string := "Navigation.Location"

  /** Miles per kilometre, the factor applied to `Speed_Kph`. */
  const KphToMph: real := 0.621371

  /** Which `.get` call raised: on the document, an event, its `value`, its `coordinate`
      or its `velocity`. */
  datatype Site = Document | Event | Value | Coordinate | Velocity

  /** The exceptions the routine can raise. */
  datatype Err =
    | NoGet(site: Site)  // AttributeError: `.get` on something that is not a dict
    | NotIterable        // TypeError: `"events"` is null, a boolean or a number
    | NotANumber         // TypeError: a speed that cannot be multiplied by a float
    | MissingColumn      // KeyError 'Speed_Kph': the frame built from no rows has no columns

  /** One dict appended to `gps_data`; `None` is Python's `None`. */
  datatype Fix = Fix(fixTime: Option<Json>, latitude: Option<Json>, longitude: Option<Json>,
                     speedKph: Option<Json>)

  /** One row of the returned frame, columns in the frame's order. */
  datatype Row = Row(fixTime: Option<Json>, latitude: Option<Json>, longitude: Option<Json>,
                     speedKph: Option<Json>, speedMph: Option<real>)

  /** Python's view of a decoded JSON value: `null` is `None`. */
  function Nullable(v: Json): (r: Option<Json>)
    ensures r.None? <==> v == JNull
    ensures r.Some? ==> r.value == v
  {
    if v == JNull then None else Some(v)
  }

  /** `obj.get(key, default)`: only a dict has `.get`; a missing key gives the default. */
  function Get(obj: Json, key: string, default: Json, site: Site): (r: Result<Json, Err>)
    ensures r.Ok? <==> obj.JObj?
    ensures r.Err? ==> r.error == NoGet(site)
    ensures r.Ok? && key in obj.fields ==> r.value == obj.fields[key]
    ensures r.Ok? && key !in obj.fields ==> r.value == default
  {
    match obj
    case JObj(fields) => Ok(if key in fields then fields[key] else default)
    case _ => Err(NoGet(site))
  }

  /** The elements `for event in ...` visits. A string yields its characters and a dict
      its keys, all strings, so the first `.get` on one raises unless there is none. */
  function Iterate(v: Json): (r: Result<seq<Json>, Err>)
    ensures v.JArr? ==> r == Ok(v.elems)
    ensures r.Ok? && !v.JArr? ==> r.value == []
    ensures (v.JNull? || v.JBool? || v.JNum?) ==> r == Err(NotIterable)
  {
    match v
    case JArr(elems) => Ok(elems)
    case JStr(s) => if s == "" then Ok([]) else Err(NoGet(Event))
    case JObj(fields) => if fields == map[] then Ok([]) else Err(NoGet(Event))
    case _ => Err(NotIterable)
  }

  /** `data_json.get("events", [])`, iterated. */
  function EventsOf(doc: Json): (r: Result<seq<Json>, Err>)
    ensures !doc.JObj? ==> r == Err(NoGet(Document))
    ensures doc.JObj? && "events" !in doc.fields ==> r == Ok([])
    ensures doc.JObj? && "events" in doc.fields ==> r == Iterate(doc.fields["events"])
  {
    var events :- Get(doc, "events", JArr([]), Document);
    Iterate(events)
  }

  /** One pass of the loop body: `None` when the tag does not match, the appended dict
      when it does. */
  function FixOf(event: Json): (r: Result<Option<Fix>, Err>)
    ensures !event.JObj? ==> r == Err(NoGet(Event))
    ensures r.Err? ==> r.error.NoGet?
  {
    var tag :- Get(event, "tag", JNull, Event);
    if tag != JStr(LocationTag) then Ok(None)
    else
      // A `.get` on a value that has already answered one cannot raise.
      var val := Get(event, "value", EmptyObject, Event).value;
      var coord :- Get(val, "coordinate", EmptyObject, Value);
      var velocity := Get(val, "velocity", EmptyObject, Value).value;
      var fixTime := Get(val, "fixTime", JNull, Value).value;
      var latitude :- Get(coord, "latitude", JNull, Coordinate);
      var longitude := Get(coord, "longitude", JNull, Coordinate).value;
      var speed :- Get(velocity, "speed", JNull, Velocity);
      Ok(Some(Fix(Nullable(fixTime), Nullable(latitude), Nullable(longitude), Nullable(speed))))
  }

  /** `gps_data` after the loop has visited `events`, or the first exception it raised. */
  function Collect(events: seq<Json>): (r: Result<seq<Fix>, Err>)
    decreases |events|
    ensures r.Err? ==> r.error.NoGet?
    ensures r.Ok? ==> |r.value| <= |events|
  {
    if events == [] then Ok([])
    else
      var fixes :- Collect(events[..|events| - 1]);
      var fix :- FixOf(events[|events| - 1]);
      Ok(if fix.Some? then fixes + [fix.value] else fixes)
  }

  /** A value Python can multiply by a float: a number, or a boolean (an int in Python). */
  predicate IsNumeric(v: Json) {
    v.JNum? || v.JBool?
  }

  /** The numeric value Python gives a number or a boolean. */
  function PyNumber(v: Json): real
    requires IsNumeric(v)
  {
    if v.JNum? then v.n else if v.b then 1.0 else 0.0
  }

  /** The lambda of the `apply`: `x * 0.621371 if pd.notnull(x) else None`. */
  function Mph(speedKph: Option<Json>): (r: Result<Option<real>, Err>)
    ensures r.Ok? <==> speedKph.None? || IsNumeric(speedKph.value)
    ensures r.Ok? ==> (r.value.None? <==> speedKph.None?)
    ensures r.Ok? && speedKph.Some? ==> r.value == Some(PyNumber(speedKph.value) * KphToMph)
  {
    match speedKph
    case None => Ok(None)
    case Some(x) => if IsNumeric(x) then Ok(Some(PyNumber(x) * KphToMph)) else Err(NotANumber)
  }

  /** `row` is `fix` with its miles-per-hour column added. */
  predicate Derived(fix: Fix, row: Row) {
    && row.fixTime == fix.fixTime
    && row.latitude == fix.latitude
    && row.longitude == fix.longitude
    && row.speedKph == fix.speedKph
    && (row.speedMph.None? <==> row.speedKph.None?)
    && (row.speedKph.Some? ==> IsNumeric(row.speedKph.value)
                               && row.speedMph == Some(PyNumber(row.speedKph.value) * KphToMph))
  }

  /** The `Speed_Mph` column applied row by row, in order; each row depends on its own
      fix only. */
  function WithMph(fixes: seq<Fix>): (r: Result<seq<Row>, Err>)
    decreases |fixes|
    ensures r.Ok? <==> forall k :: 0 <= k < |fixes| ==> Mph(fixes[k].speedKph).Ok?
    ensures r.Err? ==> r.error == NotANumber
    ensures r.Ok? ==> |r.value| == |fixes| && forall k :: 0 <= k < |fixes| ==> Derived(fixes[k], r.value[k])
  {
    if fixes == [] then Ok([])
    else
      var rows :- WithMph(fixes[..|fixes| - 1]);
      var last := fixes[|fixes| - 1];
      var mph :- Mph(last.speedKph);
      Ok(rows + [Row(last.fixTime, last.latitude, last.longitude, last.speedKph, mph)])
  }

  /** `pd.DataFrame(gps_data)` followed by the `Speed_Mph` column: a frame built from no
      dicts has no `Speed_Kph` column, so selecting it raises. */
  function Frame(fixes: seq<Fix>): (r: Result<seq<Row>, Err>)
    ensures fixes == [] ==> r == Err(MissingColumn)
    ensures fixes != [] ==> r == WithMph(fixes)
  {
    if fixes == [] then Err(MissingColumn) else WithMph(fixes)
  }

  /** What `extract_lat_lon_with_velocity(doc)` returns or raises. A frame it returns is
      never empty, so the caller's `df.empty` branch cannot be reached. */
  function Extraction(doc: Json): (r: Result<seq<Row>, Err>)
    ensures !doc.JObj? ==> r == Err(NoGet(Document))
    ensures r.Ok? ==> r.value != []
  {
    var events :- EventsOf(doc);
    var fixes :- Collect(events);
    Frame(fixes)
  }

  /** The routine as its caller expects it: no matching event gives an empty frame
      instead of the `KeyError`. */
  function ExtractionIntended(doc: Json): Result<seq<Row>, Err>
  {
    var events :- EventsOf(doc);
    var fixes :- Collect(events);
    WithMph(fixes)
  }

  /** Collecting one more event extends the collection by that event's pass. */
  lemma {:induction false} CollectStep(events: seq<Json>, i: nat)
    requires i < |events|
    ensures Collect(events[..i + 1]) ==
      match Collect(events[..i])
      case Err(e) => Err(e)
      case Ok(fixes) =>
        match FixOf(events[i])
        case Err(e) => Err(e)
        case Ok(fix) => Ok(if fix.Some? then fixes + [fix.value] else fixes)
  {
    assert events[..i + 1][..i] == events[..i];
  }

  /** Once the loop has raised, later events do not matter. */
  lemma {:induction false} CollectRaisedStays(events: seq<Json>, i: nat)
    requires i <= |events|
    ensures Collect(events[..i]).Err? ==> Collect(events) == Collect(events[..i])
    decreases |events| - i
  {
    if i < |events| && Collect(events[..i]).Err? {
      CollectStep(events, i);
      CollectRaisedStays(events, i + 1);
    } else if i == |events| {
      assert events[..i] == events;
    }
  }

  /** The routine as the source runs it: the loop appends one dict to `gps_data` per
      matching event and an exception leaves at once; the frame is built afterwards. */
  method ExtractLatLonWithVelocity(dataJson: Json) returns (r: Result<seq<Row>, Err>)
    ensures r == Extraction(dataJson)
  {
    var gpsData: seq<Fix> := [];
    var events :- EventsOf(dataJson);
    var i := 0;
    while i < |events|
      invariant i <= |events|
      invariant Collect(events[..i]) == Ok(gpsData)
    {
      CollectStep(events, i);
      CollectRaisedStays(events, i + 1);
      var event := events[i];
      var tag :- Get(event, "tag", JNull, Event);
      if tag == JStr(LocationTag) {
        // A `.get` on a value that has already answered one cannot raise.
        var val := Get(event, "value", EmptyObject, Event).value;
        var coord :- Get(val, "coordinate", EmptyObject, Value);
        var velocity := Get(val, "velocity", EmptyObject, Value).value;
        var fixTime := Get(val, "fixTime", JNull, Value).value;
        var latitude :- Get(coord, "latitude", JNull, Coordinate);
        var longitude := Get(coord, "longitude", JNull, Coordinate).value;
        var speed :- Get(velocity, "speed", JNull, Velocity);
        gpsData := gpsData + [Fix(Nullable(fixTime), Nullable(latitude), Nullable(longitude), Nullable(speed))];
      }
      i := i + 1;
    }
    assert events[..i] == events;
    r := Frame(gpsData);
  }
}
