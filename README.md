# GPS fix extractor — a Dafny model

This project models `extract_lat_lon_with_velocity`, the routine at the heart of the
JSON-to-CSV GPS extractor. The routine takes a decoded JSON event log and walks its
`"events"` array. It keeps the events whose `"tag"` is exactly `"Navigation.Location"`.
For each one it reads `value.fixTime`, `value.coordinate.latitude`,
`value.coordinate.longitude` and `value.velocity.speed` through chained
`dict.get` calls with defaults. It then builds a pandas frame and adds a `Speed_Mph`
column equal to `Speed_Kph * 0.621371`.

Files:

- `wrappers.dfy`: `Option` and `Result` (usable with `:-`).
- `json.dfy`: the decoded JSON value `Json`.
- `gps_extract.dfy` (module `GpsExtract`): the routine's pieces as pure functions.
  - `Get` is Python's `dict.get`.
  - `Iterate` is the `for` over `"events"`.
  - `FixOf` is one pass of the loop body.
  - `Collect` is the loop.
  - `Mph` and `WithMph` are the `Speed_Mph` column.
  - `Frame` is `pd.DataFrame` plus the column selection.
  - `Extraction` is the whole routine.
  - The method `ExtractLatLonWithVelocity` is the routine as the source writes it: a
    loop that appends to a `gps_data` accumulator. It is proved equal to `Extraction`.
- `gps_extract_proofs.dfy` (module `GpsExtractProofs`): the properties. They are stated
  against reference definitions that do not follow the loop:
  - `MatchIndices` gives the positions of the matching events.
  - `FixTimeOf`, `LatitudeOf`, `LongitudeOf` and `SpeedOf` are path lookups that give
    `None` as soon as a key is missing.
  - `Shaped` and `Accepted` say which documents the routine gets through.

Every Python exception the routine can raise is a `GpsExtract.Err` value:
- `NoGet(site)`: an `AttributeError` from `.get` on something that is not a dict.
- `NotIterable`: a `TypeError` from iterating a null, boolean or number.
- `NotANumber`: a `TypeError` from multiplying a non-numeric speed.
- `MissingColumn`: the `KeyError` for `Speed_Kph` on a frame with no columns.

Python's `None` is `Option.None`. A missing key and an explicit JSON `null` both read as
`None`, because `.get` returns `None` for both.

The routine is strict in places where a reader might expect it to be tolerant:

- An absent `"events"` reads as an empty list (line 7). A null, boolean or number there
  is not iterable and raises.
- A `value`, `coordinate` or `velocity` that is present but not an object, `null`
  included, makes the next `.get` on it raise (lines 10, 14 and 16).
- An element of `"events"` that is not an object raises at `event.get("tag")` (line 8),
  even though it would not match.
- Zero matching events raise the `Speed_Kph` `KeyError` at line 20. The caller's
  `df.empty` branch at lines 33-34 shows that an empty frame was meant (see
  "## Findings").

## Model

| member | source | states |
|---|---|---|
| `GpsExtract.Get` | JSON_GPS_Search_streamlit.py:7-16 | `.get` succeeds exactly on a dict; it gives the key's value when present and the default otherwise; on anything else it raises at the given site |
| `GpsExtract.Nullable` | JSON_GPS_Search_streamlit.py:13-16 | a JSON null is Python `None`; every other value is kept as it is |
| `GpsExtract.Iterate` | JSON_GPS_Search_streamlit.py:7 | an array iterates over its elements; null, booleans and numbers raise `NotIterable`; any other value that iterates yields no events |
| `GpsExtract.EventsOf` | JSON_GPS_Search_streamlit.py:7 | a non-object document raises at the document; an absent `"events"` is the empty list; a present one is iterated |
| `GpsExtract.FixOf` | JSON_GPS_Search_streamlit.py:8-17 | an event that is not an object raises at the event; every exception of the loop body is a `.get` on a non-dict |
| `GpsExtract.Collect` | JSON_GPS_Search_streamlit.py:6-17 | the loop raises only `.get` errors and appends at most one dict per event |
| `GpsExtract.Mph` | JSON_GPS_Search_streamlit.py:20 | the lambda succeeds exactly on null or numeric speeds; the result is null exactly when the speed is null, and otherwise speed × 0.621371 |
| `GpsExtract.WithMph` | JSON_GPS_Search_streamlit.py:20 | the column succeeds exactly when every row's speed converts; it gives one row per dict in order; row k is dict k plus its own MPH value (rows are independent); the only error is `NotANumber` |
| `GpsExtract.Frame` | JSON_GPS_Search_streamlit.py:18-20 | no dicts give the `Speed_Kph` `KeyError`; otherwise the `Speed_Mph` column is added |
| `GpsExtract.Extraction` | JSON_GPS_Search_streamlit.py:5-21 | a non-object document raises at the document; a returned frame is never empty, so the `df.empty` branch at lines 33-34 is unreachable |
| `GpsExtract.ExtractLatLonWithVelocity` | JSON_GPS_Search_streamlit.py:5-21 | the loop with its accumulator and early exit on an exception returns exactly `Extraction` of its input |
| `GpsExtractProofs.MatchIndices` | JSON_GPS_Search_streamlit.py:7-8 | the matching positions in strictly increasing order: every listed position holds a `Navigation.Location` event, and every such event is listed |
| `GpsExtractProofs.FixOfSpec` | JSON_GPS_Search_streamlit.py:8-17 | one pass raises exactly on an event that is not `Shaped`; otherwise it appends exactly for a matching tag, holding the event's four path values |
| `GpsExtractProofs.CollectSpec` | JSON_GPS_Search_streamlit.py:6-17 | the loop finishes exactly when every event is `Shaped`; `gps_data` then has one dict per matching event, and dict k holds the fields of the k-th match |
| `GpsExtractProofs.ExtractionRows` | JSON_GPS_Search_streamlit.py:7-20 | on success `"events"` is an array and the row count is the (positive) number of matches; row k holds the k-th match's `fixTime`, latitude, longitude and speed (`None` where any key is missing); its `Speed_Mph` is null exactly when `Speed_Kph` is, and otherwise `Speed_Kph` × 0.621371 |
| `GpsExtractProofs.ExtractionSucceedsIff` | JSON_GPS_Search_streamlit.py:5-21 | a frame is returned exactly when the document is an object with an `"events"` array, every event is `Shaped`, every matching speed converts, and at least one event matches |
| `GpsExtractProofs.RowCount` | JSON_GPS_Search_streamlit.py:7-12 | the number of rows is the number of positions whose tag is exactly `"Navigation.Location"`; nothing is deduplicated |
| `GpsExtractProofs.MissingValueGivesNullRow` | JSON_GPS_Search_streamlit.py:9-16 | a matching event without `"value"` gives a row of five nulls |
| `GpsExtractProofs.NonMatchingSkipped` | JSON_GPS_Search_streamlit.py:8 | an object event whose tag does not match leaves `gps_data` unchanged, whatever its payload |
| `GpsExtractProofs.EventsNotAnArrayRaises` | JSON_GPS_Search_streamlit.py:7 | an absent `"events"` is the empty list and ends in the `KeyError`; null, booleans and numbers raise `NotIterable`; an empty string or dict raises the `KeyError`; a non-empty one raises at the first event |
| `GpsExtractProofs.NonObjectEventRaises` | JSON_GPS_Search_streamlit.py:8 | an element of `"events"` that is not an object makes the routine raise |
| `GpsExtractProofs.MalformedPayloadRaises` | JSON_GPS_Search_streamlit.py:9-16 | a matching event whose `value`, `coordinate` or `velocity` is present but not an object makes the routine raise |
| `GpsExtractProofs.NonNumericSpeedRaises` | JSON_GPS_Search_streamlit.py:20 | once every event is `Shaped`, a matching speed that is neither a number nor a boolean raises `NotANumber` |
| `GpsExtractProofs.NoMatchRaises` | JSON_GPS_Search_streamlit.py:18-20 | with no matching event the routine raises, and it raises the `Speed_Kph` `KeyError` when every event is an object |
| `GpsExtractProofs.EmptyEventsRaise` | JSON_GPS_Search_streamlit.py:18-20 | `{"events": []}` raises the `KeyError` as written, and gives the empty frame under the corrected definition |
| `GpsExtractProofs.ExtractionIntendedSpec` | JSON_GPS_Search_streamlit.py:33-34 | the corrected extractor returns the empty frame exactly when iteration succeeds, every event is `Shaped` and none matches; in every other case it agrees with the routine |

## Left out

- The Streamlit page (JSON_GPS_Search_streamlit.py:23-49) is not modelled: the title, uploader, banners, table display and download button have no logic of their own.
- `json.load` (line 29) is not modelled; the model takes an already-decoded `Json` value. Python's non-standard `NaN` and `Infinity` literals are not representable.
- pandas is modelled only as far as the routine depends on it: one row per dict, with the columns in key order, and no `Speed_Kph` column for an empty list. `to_csv` and the UTF-8 encoding (line 38) are not modelled.
- Arithmetic is exact over `real`. IEEE-754 rounding and NaN handling by `pd.notnull` are not modelled.
- GpsExtract.Mph: for a list-valued speed, pandas gives `None`, a `TypeError` or a `ValueError`, depending on the list and the NumPy version; the model always gives `NotANumber`. A dict-valued speed is also `NotANumber`.
- GpsExtract.Iterate: iterating a string or dict yields strings, so the model does not list them. It records only that the first `.get` on them raises, or that nothing is visited when they are empty.
- GpsExtract.Err: the text of each exception message is not modelled. Only the kind of error and the `.get` call that raised are kept.

## Findings

| source | as written | input that shows it | evidently intended | confidence | as-written member | corrected member |
|---|---|---|---|---|---|---|
| JSON_GPS_Search_streamlit.py:18-20 | `pd.DataFrame([])` has no columns, so `df['Speed_Kph']` raises `KeyError`, and the caller reports "Error processing file" | `{"events": []}` (or any document whose events are all objects and none matches) | an empty frame that reaches the "No Navigation.Location events found" warning at lines 33-34 | high; not executed | `GpsExtractProofs.EmptyEventsRaise` | `GpsExtractProofs.ExtractionIntendedSpec` |

`GpsExtract.Extraction` and the method keep the behaviour as written, because that is
what the routine does. `GpsExtract.ExtractionIntended` is the corrected definition.
`ExtractionIntendedSpec` proves that it differs from the routine only in the zero-match
case.
