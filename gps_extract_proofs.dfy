/** What `extract_lat_lon_with_velocity` promises, stated against reference definitions
    that do not follow the loop: which events match, where their fields sit, when the
    routine raises, and the miles-per-hour column. */
module GpsExtractProofs {
  import opened Wrappers
  import opened JsonValue
  import opened GpsExtract

  /** An event whose `"tag"` is exactly `"Navigation.Location"`. */
  predicate IsLocation(event: Json) {
    event.JObj? && "tag" in event.fields && event.fields["tag"] == JStr(LocationTag)
  }

  /** The positions of the matching events, in increasing order: exactly the matches,
      none twice. */
  function MatchIndices(events: seq<Json>): (idx: seq<nat>)
    decreases |events|
    ensures forall k :: 0 <= k < |idx| ==> idx[k] < |events| && IsLocation(events[idx[k]])
    ensures forall k, l :: 0 <= k < l < |idx| ==> idx[k] < idx[l]
    ensures forall j :: 0 <= j < |events| && IsLocation(events[j]) ==> j in idx
  {
    if events == [] then []
    else
      var earlier := MatchIndices(events[..|events| - 1]);
      if IsLocation(events[|events| - 1]) then earlier + [|events| - 1] else earlier
  }

  /** The positions of the matching events, as a set. */
  function MatchSet(events: seq<Json>): set<nat> {
    set j: nat | j < |events| && IsLocation(events[j])
  }

  /** Member `key` of an optional object: `None` when there is no object, no such key, or
      the member is null. A path of these is the reference for the row's fields. */
  function Member(v: Option<Json>, key: string): Option<Json> {
    if v.Some? && v.value.JObj? && key in v.value.fields then Nullable(v.value.fields[key]) else None
  }

  function FixTimeOf(event: Json): Option<Json> {
    Member(Member(Some(event), "value"), "fixTime")
  }

  function LatitudeOf(event: Json): Option<Json> {
    Member(Member(Member(Some(event), "value"), "coordinate"), "latitude")
  }

  function LongitudeOf(event: Json): Option<Json> {
    Member(Member(Member(Some(event), "value"), "coordinate"), "longitude")
  }

  function SpeedOf(event: Json): Option<Json> {
    Member(Member(Member(Some(event), "value"), "velocity"), "speed")
  }

  /** `fix` holds the four fields `event` carries at its four paths. */
  predicate FixAgrees(fix: Fix, event: Json) {
    && fix.fixTime == FixTimeOf(event)
    && fix.latitude == LatitudeOf(event)
    && fix.longitude == LongitudeOf(event)
    && fix.speedKph == SpeedOf(event)
  }

  /** `row` holds the four fields of `event` and the speed converted to miles per hour. */
  predicate RowAgrees(row: Row, event: Json) {
    && row.fixTime == FixTimeOf(event)
    && row.latitude == LatitudeOf(event)
    && row.longitude == LongitudeOf(event)
    && row.speedKph == SpeedOf(event)
    && (row.speedMph.None? <==> row.speedKph.None?)
    && (row.speedKph.Some? ==> IsNumeric(row.speedKph.value)
                               && row.speedMph == Some(PyNumber(row.speedKph.value) * KphToMph))
  }

  /** `key` is absent from `obj` or names an object. */
  predicate ObjectOrAbsent(obj: map<string, Json>, key: string) {
    key in obj ==> obj[key].JObj?
  }

  /** An event the loop gets past: an object, and when it matches, its `value` is an
      object or absent, and so are that value's `coordinate` and `velocity`. */
  predicate Shaped(event: Json) {
    && event.JObj?
    && (IsLocation(event) ==>
          && ObjectOrAbsent(event.fields, "value")
          && ("value" in event.fields ==>
                && ObjectOrAbsent(event.fields["value"].fields, "coordinate")
                && ObjectOrAbsent(event.fields["value"].fields, "velocity")))
  }

  /** A speed the `Speed_Mph` lambda accepts: absent, or a number or boolean. */
  predicate SpeedConvertible(event: Json) {
    SpeedOf(event).None? || IsNumeric(SpeedOf(event).value)
  }

  /** The documents the routine returns a frame for. */
  predicate Accepted(doc: Json) {
    && doc.JObj?
    && "events" in doc.fields
    && doc.fields["events"].JArr?
    && var events := doc.fields["events"].elems;
       && (forall k :: 0 <= k < |events| ==> Shaped(events[k]))
       && (forall k :: 0 <= k < |events| && IsLocation(events[k]) ==> SpeedConvertible(events[k]))
       && (exists k :: 0 <= k < |events| && IsLocation(events[k]))
  }

  /** One pass of the loop raises exactly on an event that is not `Shaped`; otherwise it
      appends a dict exactly for a matching event, holding that event's fields. */
  lemma FixOfSpec(event: Json)
    ensures FixOf(event).Ok? <==> Shaped(event)
    ensures FixOf(event).Ok? ==> (FixOf(event).value.Some? <==> IsLocation(event))
    ensures FixOf(event).Ok? && FixOf(event).value.Some? ==> FixAgrees(FixOf(event).value.value, event)
  {
  }

  /** The loop runs to the end exactly when every event is `Shaped`, and then `gps_data`
      holds one dict per matching event, in the events' order. */
  lemma {:induction false} CollectSpec(events: seq<Json>)
    decreases |events|
    ensures Collect(events).Ok? <==> forall k :: 0 <= k < |events| ==> Shaped(events[k])
    ensures Collect(events).Ok? ==>
      var fixes := Collect(events).value;
      var idx := MatchIndices(events);
      && |fixes| == |idx|
      && forall k :: 0 <= k < |idx| ==> FixAgrees(fixes[k], events[idx[k]])
  {
    if events != [] {
      var n := |events| - 1;
      var earlier := events[..n];
      CollectSpec(earlier);
      FixOfSpec(events[n]);
      assert forall k :: 0 <= k < n ==> earlier[k] == events[k];
    }
  }

  /** Field values and order: on success the document has an `"events"` array, and row k
      holds the fields of the k-th matching event, with its speed in miles per hour. */
  lemma ExtractionRows(doc: Json)
    requires Extraction(doc).Ok?
    ensures doc.JObj? && "events" in doc.fields && doc.fields["events"].JArr?
    ensures
      var events := doc.fields["events"].elems;
      var rows := Extraction(doc).value;
      var idx := MatchIndices(events);
      && |rows| == |idx| > 0
      && forall k :: 0 <= k < |rows| ==> RowAgrees(rows[k], events[idx[k]])
  {
    var events := EventsOf(doc).value;
    CollectSpec(events);
    var fixes := Collect(events).value;
    var rows := Extraction(doc).value;
    assert fixes != [];
    assert rows == WithMph(fixes).value;
    forall k | 0 <= k < |rows|
      ensures RowAgrees(rows[k], events[MatchIndices(events)[k]])
    {
      assert Derived(fixes[k], rows[k]);
    }
  }

  /** The routine returns a frame exactly for the `Accepted` documents; on every other
      document it raises. */
  lemma ExtractionSucceedsIff(doc: Json)
    ensures Extraction(doc).Ok? <==> Accepted(doc)
  {
    if Extraction(doc).Ok? {
      ExtractionRows(doc);
      var events := doc.fields["events"].elems;
      var rows := Extraction(doc).value;
      var idx := MatchIndices(events);
      CollectSpec(events);
      forall j | 0 <= j < |events| && IsLocation(events[j])
        ensures SpeedConvertible(events[j])
      {
        var k :| 0 <= k < |idx| && idx[k] == j;
        assert RowAgrees(rows[k], events[j]);
      }
      assert IsLocation(events[idx[0]]);
    }
    if Accepted(doc) {
      var events := doc.fields["events"].elems;
      CollectSpec(events);
      var fixes := Collect(events).value;
      var idx := MatchIndices(events);
      var j :| 0 <= j < |events| && IsLocation(events[j]);
      assert j in idx;
      forall k | 0 <= k < |fixes|
        ensures Mph(fixes[k].speedKph).Ok?
      {
        assert FixAgrees(fixes[k], events[idx[k]]);
        assert SpeedConvertible(events[idx[k]]);
      }
    }
  }

  /** Row count: one row per event whose tag is exactly `"Navigation.Location"`; two
      identical matching events give two rows. */
  lemma RowCount(doc: Json)
    requires Extraction(doc).Ok?
    ensures doc.JObj? && "events" in doc.fields && doc.fields["events"].JArr?
    ensures |Extraction(doc).value| == |MatchSet(doc.fields["events"].elems)|
  {
    ExtractionRows(doc);
    MatchIndicesCount(doc.fields["events"].elems);
  }

  /** The positions of the matching events, listed without repetition. */
  lemma {:induction false} MatchIndicesCount(events: seq<Json>)
    decreases |events|
    ensures |MatchIndices(events)| == |MatchSet(events)|
  {
    if events != [] {
      var n := |events| - 1;
      var earlier := events[..n];
      MatchIndicesCount(earlier);
      MatchSetStep(events);
    }
  }

  /** The matching positions of `events` are those of all but its last element, plus the
      last one when it matches. */
  lemma MatchSetStep(events: seq<Json>)
    requires events != []
    ensures var n := |events| - 1;
      && n !in MatchSet(events[..n])
      && MatchSet(events) == MatchSet(events[..n]) + (if IsLocation(events[n]) then {n} else {})
  {
  }

  /** A matching event without a `"value"` key gives a row whose columns are all null. */
  lemma MissingValueGivesNullRow(doc: Json, k: nat)
    requires Extraction(doc).Ok? && doc.JObj? && "events" in doc.fields && doc.fields["events"].JArr?
    requires k < |Extraction(doc).value| && k < |MatchIndices(doc.fields["events"].elems)|
    requires "value" !in doc.fields["events"].elems[MatchIndices(doc.fields["events"].elems)[k]].fields
    ensures Extraction(doc).value[k] == Row(None, None, None, None, None)
  {
    ExtractionRows(doc);
  }

  /** An event whose tag does not match adds nothing, whatever its payload. */
  lemma NonMatchingSkipped(events: seq<Json>, event: Json)
    requires event.JObj? && !IsLocation(event)
    ensures Collect(events + [event]) == Collect(events)
  {
    assert (events + [event])[..|events|] == events;
  }

  /** A missing `"events"` key is an empty list, not a lookup error; an `"events"` that is
      not an array is never a frame: null, booleans and numbers cannot be iterated, an
      empty string or dict gives nothing to iterate, and a non-empty one gives strings. */
  lemma EventsNotAnArrayRaises(doc: Json)
    requires doc.JObj? && ("events" !in doc.fields || !doc.fields["events"].JArr?)
    ensures "events" !in doc.fields ==> EventsOf(doc) == Ok([]) && Extraction(doc) == Err(MissingColumn)
    ensures "events" in doc.fields ==>
      var v := doc.fields["events"];
      && ((v.JNull? || v.JBool? || v.JNum?) ==> Extraction(doc) == Err(NotIterable))
      && (v == JStr("") || v == EmptyObject ==> Extraction(doc) == Err(MissingColumn))
      && ((v.JStr? && v != JStr("")) || (v.JObj? && v != EmptyObject) ==> Extraction(doc) == Err(NoGet(Event)))
  {
  }

  /** An element of `"events"` that is not an object has no `.get`. */
  lemma NonObjectEventRaises(doc: Json, k: nat)
    requires doc.JObj? && "events" in doc.fields && doc.fields["events"].JArr?
    requires k < |doc.fields["events"].elems| && !doc.fields["events"].elems[k].JObj?
    ensures Extraction(doc).Err?
  {
    ExtractionSucceedsIff(doc);
  }

  /** A matching event whose `value`, or whose value's `coordinate` or `velocity`, is
      present but not an object (null included) makes a `.get` raise. */
  lemma MalformedPayloadRaises(doc: Json, k: nat)
    requires doc.JObj? && "events" in doc.fields && doc.fields["events"].JArr?
    requires k < |doc.fields["events"].elems|
    requires var event := doc.fields["events"].elems[k];
      && IsLocation(event)
      && "value" in event.fields
      && (|| !event.fields["value"].JObj?
          || ("coordinate" in event.fields["value"].fields && !event.fields["value"].fields["coordinate"].JObj?)
          || ("velocity" in event.fields["value"].fields && !event.fields["value"].fields["velocity"].JObj?))
    ensures Extraction(doc).Err?
  {
    ExtractionSucceedsIff(doc);
  }

  /** A matching event's speed that is neither a number nor a boolean makes the
      `Speed_Mph` multiplication raise, once the loop has got past every event. */
  lemma NonNumericSpeedRaises(doc: Json, k: nat)
    requires doc.JObj? && "events" in doc.fields && doc.fields["events"].JArr?
    requires forall j :: 0 <= j < |doc.fields["events"].elems| ==> Shaped(doc.fields["events"].elems[j])
    requires k < |doc.fields["events"].elems|
    requires IsLocation(doc.fields["events"].elems[k]) && !SpeedConvertible(doc.fields["events"].elems[k])
    ensures Extraction(doc) == Err(NotANumber)
  {
    var events := doc.fields["events"].elems;
    CollectSpec(events);
    var fixes := Collect(events).value;
    var idx := MatchIndices(events);
    assert k in idx;
    var m :| 0 <= m < |idx| && idx[m] == k;
    assert FixAgrees(fixes[m], events[k]);
    assert !Mph(fixes[m].speedKph).Ok?;
  }

  /** Zero matches: with no matching event the frame has no `Speed_Kph` column, so the
      routine raises and never returns an empty frame. */
  lemma NoMatchRaises(doc: Json)
    requires doc.JObj? && "events" in doc.fields && doc.fields["events"].JArr?
    requires forall k :: 0 <= k < |doc.fields["events"].elems| ==> !IsLocation(doc.fields["events"].elems[k])
    ensures Extraction(doc).Err?
    ensures (forall k :: 0 <= k < |doc.fields["events"].elems| ==> doc.fields["events"].elems[k].JObj?)
            ==> Extraction(doc) == Err(MissingColumn)
  {
    var events := doc.fields["events"].elems;
    CollectSpec(events);
    ExtractionSucceedsIff(doc);
  }

  /** `{"events": []}`: the routine raises where an empty frame was meant. */
  lemma EmptyEventsRaise()
    ensures Extraction(JObj(map["events" := JArr([])])) == Err(MissingColumn)
    ensures ExtractionIntended(JObj(map["events" := JArr([])])) == Ok([])
  {
  }

  /** The intended extractor returns the empty frame exactly when the loop gets past
      every event and none matches; otherwise it behaves as the routine does. */
  lemma ExtractionIntendedSpec(doc: Json)
    ensures ExtractionIntended(doc) == (if Extraction(doc) == Err(MissingColumn) then Ok([]) else Extraction(doc))
    ensures ExtractionIntended(doc) == Ok([]) <==>
      && EventsOf(doc).Ok?
      && (forall k :: 0 <= k < |EventsOf(doc).value| ==> Shaped(EventsOf(doc).value[k]))
      && (forall k :: 0 <= k < |EventsOf(doc).value| ==> !IsLocation(EventsOf(doc).value[k]))
  {
    if EventsOf(doc).Ok? {
      var events := EventsOf(doc).value;
      CollectSpec(events);
      if Collect(events).Ok? {
        var fixes := Collect(events).value;
        assert Extraction(doc) == Frame(fixes);
        assert ExtractionIntended(doc) == WithMph(fixes);
        var idx := MatchIndices(events);
        if exists k :: 0 <= k < |events| && IsLocation(events[k]) {
          var k :| 0 <= k < |events| && IsLocation(events[k]);
          assert k in idx;
        }
      }
    }
  }
}
