# UK carbon-intensity map: decision rules

This project models the domain logic of a small application that shows the
UK's regional carbon intensity (gCO2/kWh) from the public carbon-intensity REST
API. The application has two front ends that apply the same rules: a Streamlit
one (`carbon_intensity_app.py`) and a browser one (`app.js`, class
`CarbonIntensityApp`). The rules are these:

- intensity tiers, each with a colour and a label (thresholds 50 / 100 / 200 / 300, upper bounds inclusive);
- the half-hour floor applied to the selected time;
- the request windows (the rounded time + 30 minutes, and now − 24 hours) and their timestamp text;
- the region catalogue (ids 1–14, with a default position for any other id);
- the markers built from a snapshot, with country aggregates (id > 14) skipped;
- the click resolver, which finds the first region within ±1.0° of the click;
- the generation-mix table (positive shares only; the browser also sorts them);
- the time-series preparation (a missing forecast becomes 0; points are sorted by time);
- the browser app's state: `currentData`, `selectedRegion` and `regionMarkers`.

Modules:

- `Wrappers` holds `Option`.
- `Intensity` holds the tier ladder: `Classify`, and each tier's range.
- `Calendar` holds naive date-time records with the Gregorian day numbers of Python's `toordinal`, plus a seconds timeline that gives "+30 minutes" and "−24 hours" their meaning.
- `Timestamps` holds `strftime("%Y-%m-%dT%H:%M")` and `toISOString()` as strings, and a parser for the minute form.
- `Sorting` holds an ascending sort by a key, with the element order otherwise left as it was.
- `Regions` holds the catalogue, the parsed response shapes, the id filter and the marker list.
- `StreamlitApp` models `carbon_intensity_app.py`.
- `BrowserApp` models `app.js`. It includes the class `CarbonIntensityApp`, whose methods take the parsed response as a parameter.
- `Agreement` holds lemmas that the two front ends agree.

The click resolver and the marker builders are loops in the source, so they are
loops here too (`ResolveClick` with `break`, `CreateMap` with `continue`, and
`UpdateMap` pushing into `regionMarkers`). Each loop is proved equal to a
specification function, and lemmas about that function state the property.

The click rule is a coarse one: overlapping tolerance boxes are resolved by
order, and the order is that of the snapshot's region list, not the
catalogue's. You might expect a click at London's centroid (51.5, −0.1) to
select London. The code does not do this. When the snapshot lists the regions
in id order, that click selects South England (id 12), because 12's centroid
(51.0, −1.0) is 0.5° and 0.9° away
(`StreamlitApp.LondonClickSelectsSouthEngland`). In the same way a click on
South East England's centroid (51.2, 0.5) selects London (id 13)
(`StreamlitApp.SouthEastClickSelectsLondon`). The model keeps the code's
behaviour. It also proves that a click on any listed region's centroid selects
some region (`StreamlitApp.CentroidClickSelectsARegion`).

## Model

| member | source | states |
|---|---|---|
| `Intensity.Classify` | carbon_intensity_app.py:84-93 | the tier returned is the one whose range (previous bound, own bound] holds the intensity; negatives are Very Low |
| `Intensity.TiersAreDisjoint` | carbon_intensity_app.py:98-107 | two tiers whose ranges both hold an intensity are the same tier, so the tier is unique |
| `Intensity.ClassifyMonotone` | app.js:108-122 | a larger intensity is never in a less severe tier |
| `StreamlitApp.IntensityColor` | carbon_intensity_app.py:82-93 | the colour is the colour of the intensity's tier (green, lightgreen, orange, red, darkred) |
| `StreamlitApp.IntensityIndex` | carbon_intensity_app.py:96-107 | the label is the label of the intensity's tier (Very Low … Very High) |
| `StreamlitApp.ColorAndIndexAgree` | carbon_intensity_app.py:82-107 | decoding the colour and decoding the label both give back the intensity's tier |
| `StreamlitApp.BoundaryIntensities` | carbon_intensity_app.py:84-91 | 50, 100, 200 and 300 fall in the lower tier; 301 is Very High; 0 and −5 are both green and Very Low |
| `StreamlitApp.RoundToNearestHalfHour` | carbon_intensity_app.py:226-230 | the result is valid and on the grid (minute 0 or 30, second and subsecond 0); year, month, day and hour are unchanged; 0 ≤ minute drop < 30; result ≤ input < result + 30 min on the timeline |
| `StreamlitApp.RoundIdempotent` | carbon_intensity_app.py:226-230 | rounding twice equals rounding once |
| `StreamlitApp.RoundIsFloor` | carbon_intensity_app.py:228-230 | no grid time at or before the input is later than the result, so the result is the floor, not the nearest |
| `StreamlitApp.TimestampParam` | carbon_intensity_app.py:38-39 | the text is 17 characters ending in `Z`, and its first 16 parse back to exactly the year, month, day, hour and minute, with no seconds |
| `StreamlitApp.HistoricalRange` | carbon_intensity_app.py:250-264 | the start is the rounded selection; the end is on the grid exactly 30 minutes later; there is no range exactly when the start is at or after 9999-12-31T23:30 (OverflowError) |
| `StreamlitApp.TimeSeriesRange` | carbon_intensity_app.py:321-322 | the end is now; the start is exactly 24 hours earlier; there is no range only on 0001-01-01 |
| `StreamlitApp.SelectSnapshot` | carbon_intensity_app.py:255-268 | a snapshot is selected exactly when the response exists, has `data` and the list is non-empty, and then it is `data[0]` |
| `StreamlitApp.CreateMap` | carbon_intensity_app.py:109-146 | no markers without a snapshot or region list; otherwise one marker per region with id ≤ 14, in input order, at its table centroid or [54.0, −2.0], in its tier colour |
| `StreamlitApp.FirstHitIsFirst` | carbon_intensity_app.py:303-311 | the result is None exactly when no region is hit; otherwise it is the region at the smallest index that is hit |
| `StreamlitApp.FirstHitIsMapped` | carbon_intensity_app.py:304-306 | a selected region is one of the listed regions and never has id > 14 |
| `StreamlitApp.CentroidClickSelectsARegion` | carbon_intensity_app.py:303-311 | a click on the centroid of any listed region with id 1–14 always selects some region |
| `StreamlitApp.ResolveClick` | carbon_intensity_app.py:298-311 | no click gives None; otherwise the first-match scan with `break` returns FirstHit, the earliest region within ±1.0° |
| `StreamlitApp.LondonClickSelectsSouthEngland` | carbon_intensity_app.py:308-311 | with regions in id order, a click at London's centroid selects South England (id 12) |
| `StreamlitApp.SouthEastClickSelectsLondon` | carbon_intensity_app.py:308-311 | with regions in id order, a click at South East England's centroid selects London (id 13) |
| `StreamlitApp.GenerationMix` | carbon_intensity_app.py:213 | the keys are exactly the display names of the fuels whose share is above 0 |
| `StreamlitApp.GenerationMixLastWins` | carbon_intensity_app.py:213 | each key's value is the share of the last positive entry with that name; later duplicates overwrite earlier ones |
| `StreamlitApp.ZeroShareDropped` | carbon_intensity_app.py:211-215 | solar 0, wind 40, gas 60 gives exactly the two bars wind and gas |
| `Regions.CatalogueIds` | carbon_intensity_app.py:64-79 | the coordinate table holds exactly the ids 1 to 14 |
| `Regions.CentroidOrDefault` | app.js:86-106 | ids 1–14 get their table entry; every other id gets [54.0, −2.0] |
| `Regions.Kept` | carbon_intensity_app.py:117-120 | no longer than the input; a region is kept exactly when it is in the input and has id ≤ 14 |
| `Regions.KeptAppend` | app.js:132-134 | filtering the concatenation equals concatenating the two filtered parts, so input order is kept |
| `Regions.KeptAllMapped` | carbon_intensity_app.py:117-120 | when every id is ≤ 14, nothing is dropped |
| `Regions.MarkersForKept` | carbon_intensity_app.py:117-144 | the marker list has one entry per kept region, in order, with that region's centroid and colour |
| `Calendar.AddHalfHour` | carbon_intensity_app.py:263 | the result is valid and exactly 1800 seconds later on the timeline, with the same seconds and subsecond; None only past 9999-12-31T23:59 |
| `Calendar.SubtractDay` | app.js:223 | the result is valid, exactly 86400 seconds earlier and at the same time of day; None only on 0001-01-01 |
| `Calendar.NextDay` | carbon_intensity_app.py:263 | the result is valid, has day number + 1 and the same time of day; None only on 9999-12-31 |
| `Calendar.YearLength` | carbon_intensity_app.py:322 | a year has 366 days when leap and 365 otherwise, and the day numbers of consecutive years differ by that length |
| `Timestamps.MinuteStampRoundTrip` | carbon_intensity_app.py:38 | parsing the `%Y-%m-%dT%H:%M` text of a date-time gives back its year, month, day, hour and minute |
| `Timestamps.MinuteStampInjective` | carbon_intensity_app.py:38-39 | two date-times print the same stamp exactly when they agree from year to minute |
| `Timestamps.IsoString` | app.js:61 | the `toISOString` text of a date in years 1..9999 is 24 characters |
| `Sorting.SortBy` | app.js:203 | the result is sorted by the key and is a permutation of the input |
| `BrowserApp.IntensityColor` | app.js:108-114 | the colour is the hex colour of the intensity's tier |
| `BrowserApp.IntensityIndex` | app.js:116-122 | the index text is the lower-case label of the intensity's tier |
| `BrowserApp.ColorAndIndexAgree` | app.js:108-122 | decoding the colour and decoding the index text both give back the intensity's tier |
| `BrowserApp.RoundToNearestHalfHour` | app.js:76-84 | the result is on the grid (minutes 0 or 30, seconds and ms 0); date and hour are unchanged; 0 ≤ minute drop < 30; result ≤ input < result + 30 min |
| `BrowserApp.RoundIdempotent` | app.js:76-84 | rounding twice equals rounding once |
| `BrowserApp.TimestampParam` | app.js:61 | `toISOString().slice(0, -5) + 'Z'` is the 20-character `YYYY-MM-DDTHH:MM:SSZ`, whose first 16 characters parse back to the date's year-to-minute fields |
| `BrowserApp.GridTimestamp` | app.js:61-62 | a grid time's timestamp ends in `:00Z` |
| `BrowserApp.HistoricalParams` | app.js:60-62 | `from` is the rounded date's minute stamp + `:00Z`; `to` is the stamp of the grid time exactly 30 minutes later; nothing past 9999-12-31T23:30 |
| `BrowserApp.TimeSeriesParams` | app.js:222-226 | `to` is now's timestamp; `from` is the timestamp of a date exactly 24 hours earlier |
| `BrowserApp.PositiveShares` | app.js:202 | an entry is kept exactly when it is in the mix and its share is above 0 |
| `BrowserApp.PositiveSharesAppend` | app.js:202 | filtering a concatenation is the concatenation of the filtered parts, so kept entries stay in input order |
| `BrowserApp.PositiveSharesCount` | app.js:202 | each entry with a positive share is kept as many times as it occurs, and every other entry is dropped |
| `BrowserApp.FuelItems` | app.js:201-203 | the items are exactly the positive-share entries, rearranged, with shares non-increasing |
| `BrowserApp.ChartPoints` | app.js:255-257 | one point per input, in place, with time `from` and intensity the forecast or 0 when missing |
| `BrowserApp.PrepareSeries` | app.js:255-258 | the same length as the input, a permutation of the converted points, ascending by time |
| `BrowserApp.PreparedIntensities` | app.js:257 | every input point appears in the output with its time and with its forecast, or 0 when the forecast is missing |
| `BrowserApp.CarbonIntensityApp.constructor` | app.js:2-8 | starts with no data, no selection and no markers |
| `BrowserApp.CarbonIntensityApp.UpdateMap` | app.js:124-172 | nothing changes without data or regions; otherwise `regionMarkers` is rebuilt as one marker per region with id ≤ 14, in order; the data and the selection are unchanged; every marker stays at its catalogue place in its tier colour |
| `BrowserApp.CarbonIntensityApp.LoadCurrentData` | app.js:46-55 | a failed fetch or a body with no `data` changes nothing; otherwise `currentData` becomes `data[0]` (absent for an empty list) and the markers are rebuilt from it when it has regions |
| `BrowserApp.CarbonIntensityApp.LoadHistoricalData` | app.js:57-74 | an Invalid Date (`None`) requests nothing and changes nothing, as the caught RangeError does; otherwise requests HistoricalParams of the date; `currentData` becomes `data[0]` and the map is redrawn only when `data` is non-empty; otherwise data and markers are unchanged |
| `BrowserApp.CarbonIntensityApp.ClickMarker` | app.js:163-164 | clicking the k-th marker selects that marker's region, which has id ≤ 14; nothing else changes |
| `BrowserApp.CarbonIntensityApp.RegionDetailsItems` | app.js:175-203 | no items without a selection; otherwise the FuelItems of the selected region's mix |
| `Agreement.TiersAgree` | app.js:108-122 | for every intensity, the Streamlit and browser colours and labels decode to the same tier, Classify's |
| `Agreement.RoundingAgrees` | app.js:76-84 | the two half-hour floors give the same time |
| `Agreement.TimestampsAgree` | app.js:61 | the browser timestamp and the Python one share the first 16 characters, and both end in `Z` |
| `Agreement.HistoricalRangesAgree` | app.js:60-62 | both front ends request a historical range for the same inputs, and the browser's `from` is the Python stamp with `:00` seconds |
| `Agreement.MarkersAgree` | app.js:132-136 | both front ends draw the same regions, in the same order and places, with colours of the same tier |

## Left out

- HTTP and JSON: `requests.get`, `fetch`, `raise_for_status`, JSON parsing and error messages are not modelled. Each operation receives the parsed body, or `None` when the call failed. Request URLs are not assembled; the model stops at the path segments.
- Rendering: Folium and Leaflet maps and layers, popups, tooltips, the legend, Plotly and D3 charts, chart scales and geometry (including the `yExtent * 1.2` fallback), and DOM text are not modelled. A marker records only its region, position and fill colour. Adding layers to and removing them from the Leaflet map is not modelled; only the `regionMarkers` list is.
- `create_time_series_chart` (carbon_intensity_app.py:148-192) is not modelled; it only builds a Plotly figure.
- `init`, `initMap`, `initControls` and the event listeners (app.js:10-44) are not modelled; they are event wiring. `ClickMarker` models only the assignment in the click handler. The detail panel and the time-series fetch that follow it are `RegionDetailsItems` and `TimeSeriesParams`.
- Wall clock: `datetime.now()` and `new Date()` are parameters (`now`, `selected`, `dateTime`).
- Time zones are not modelled, and all times are taken from the fields of one zone. The browser reads minutes in local time (`getMinutes`) but prints UTC (`toISOString`). The Streamlit app prints naive local time with a `Z` suffix.
- Agreement.TimestampsAgree: holds only when the local zone is UTC. Elsewhere the browser rounds in local time and prints UTC, while the Streamlit app prints local time with `Z`, so under British Summer Time the two stamps differ by an hour.
- Agreement.HistoricalRangesAgree: holds only when the local zone is UTC, for the same reason; under British Summer Time the browser requests the window one hour earlier than the Streamlit app.
- Years outside 1–9999: Python raises OverflowError there, which is modelled as `None`. JavaScript would print extended years (`+010000-…`); for those the model makes no request.
- `TimestampParam` (Streamlit) always pads the year to four digits. `strftime("%Y")` for years below 1000 depends on the platform.
- `str.title()` (carbon_intensity_app.py:213) is a parameter `title` of `GenerationMix`. The browser's capitalisation of fuel names (app.js:207) is not modelled, because it is display text only.
- GenerationMix: is a map, so it does not record the insertion order of the Python dict, which sets the order of the bars (carbon_intensity_app.py:218).
- Generation mix: a missing `generationmix` key is modelled as an empty list, so a panel header shown for an empty list is not distinguished.
- Numbers: intensities are integers, as the API sends them. Coordinates and shares are exact reals, so a difference that lands exactly on 1.0 under floating point may behave differently.
- `ResolveClick` takes the region list, because `regions_data['regions']` raises KeyError in the source when the key is missing.
- `BrowserApp.SeriesPoint.from` is the instant that `new Date(d.from)` gives; parsing the date text is not modelled. The emptiness guards of `loadTimeSeries` and `renderTimeSeries` (app.js:233, 249) are not modelled; they decide only which message is drawn.
- FuelItems: does not state that entries with equal shares keep their input order. `Array.prototype.sort` is stable, and so is the insertion sort used, but stability is not proved.
- PrepareSeries: does not state that points with equal times keep their input order (stability, as for FuelItems).
- `Calendar.DateTime.subsecond` has no upper bound in `Valid`. The browser's timestamp functions require it below 1000 milliseconds; the microsecond bound of Python is not stated because nothing depends on it.
