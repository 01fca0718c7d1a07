# Airport map: loaders, antimeridian correction, path sampling, nearest airports

A Dafny model of the computational core of a small browser application in which
a user picks a destination airport on a home page and then sees a map that
tracks the device position, draws the great-circle route to the destination and
marks the five nearest airports. The model covers the logic of the two page
components and proves what they do:

- `TextSplit` — JavaScript's `split` on one character (the loaders split the
  dataset text on `'\n'` and each line on `','`), with `join` as its inverse.
- `CsvRows` — reading a numeric field of a split line (a missing field is
  `undefined`, which `parseFloat` turns into NaN) and the shared loop shape of
  both loaders: keep, in line order, the record the row rule gives for a line.
- `AirplaneMap` — the map view: the full-scan loader (`parseCSV`), the
  longitude-difference correction for the 180th meridian inside
  `haversineDistance`, the sampling loop of `calculateGreatCirclePath`, and
  `getNearestAirports` (attach distances, stable sort, keep the first five).
- `HomePage` — the destination page: the loader that reads only lines 35000 to
  35999 and keeps the name, and the guard of `handleSubmit`.

`parseFloat`, the Haversine distance and the geodesy library's
`intermediatePointTo` are parameters of the model (`NumberParser`, `Distance`,
and a function argument of `CalculateGreatCirclePath`); every property is proved
for all of them. A JavaScript number that may be NaN is an `Option<real>` with
`None` for NaN. `Math.PI` is a parameter `pi` with `pi > 0`.

Two behaviours of the code are worth noting. `getNearestAirports` returns
nothing when the latitude OR the longitude is 0, not only at the (0, 0) start
position. The ranged loader is hard-wired to lines 35000–35999 and throws when
the text has fewer than 36000 lines; the model returns
`Failure(LineMissing(i))` at the first missing index `i`.

## Model

| member | source | states |
|---|---|---|
| `TextSplit.Split` | src/components/AirplaneMap.jsx:16 | the text splits into one more piece than it has separators, and no piece contains the separator |
| `TextSplit.SplitThenJoin` | src/components/AirplaneMap.jsx:16 | joining the split lines with `'\n'` restores the dataset text exactly: splitting loses nothing |
| `TextSplit.JoinThenSplit` | src/components/AirplaneMap.jsx:20 | splitting separator-free fields joined by `','` returns exactly those fields |
| `CsvRows.Scan` | src/components/AirplaneMap.jsx:19-27 | a loader's loop emits at most one record per line |
| `CsvRows.ScanAppend` | src/components/AirplaneMap.jsx:19-27 | the records of a concatenation of line lists are the records of the first list followed by those of the second |
| `CsvRows.ScanSelects` | src/components/AirplaneMap.jsx:19-27 | record k comes from line `KeptIndices[k]`, the indices strictly increase (line order is kept), and a line contributes iff the row rule accepts it |
| `CsvRows.ScanExtend` | src/components/HomePage.jsx:15-23 | one more iteration of a loader's loop appends the new line's record, if the rule gives one, to the records of the lines before it |
| `CsvRows.ScanMembers` | src/components/AirplaneMap.jsx:24-26 | a record is in the output iff some line's row rule yields it |
| `AirplaneMap.KeepRow` | src/components/AirplaneMap.jsx:20-26 | a line is kept iff it has at least three fields and fields 1 and 2 both parse (a missing field reads as NaN through the helper `CsvRows.FieldNumber`); the record is exactly those two numbers, with no name |
| `AirplaneMap.ParseCsv` | src/components/AirplaneMap.jsx:15-30 | the loop returns the row-rule records of all `'\n'`-separated lines in line order, at most one per line |
| `AirplaneMap.ParsedRecordsFollowLines` | src/components/AirplaneMap.jsx:19-27 | every full-scan record is the parsed fields 1 and 2 of its source line, records follow increasing line indices, and a line is represented iff both coordinate fields parse |
| `AirplaneMap.LongitudeDelta` | src/components/AirplaneMap.jsx:35-46 | the corrected `dlon` differs from the raw difference by 0, +2π or −2π, is unchanged when the raw difference is within [−π, π], lies in [−π, π] when the raw difference is within [−2π, 2π], and so for all longitudes in [−180°, 180°] |
| `AirplaneMap.RadiansWithinHalfTurn` | src/components/AirplaneMap.jsx:36-38 | converting a longitude in [−180°, 180°] with `* PI / 180` gives an angle in [−π, π] |
| `AirplaneMap.Fraction` | src/components/AirplaneMap.jsx:88 | `i / numPoints` is a number in [0, 1] when `numPoints > 0` (and NaN only for 0/0) |
| `AirplaneMap.CalculateGreatCirclePath` | src/components/AirplaneMap.jsx:82-94 | the path has `numPoints + 1` samples (none for negative `numPoints`), and sample i is the intermediate point at fraction `i / numPoints` |
| `AirplaneMap.CalculateDefaultGreatCirclePath` | src/components/AirplaneMap.jsx:82-94 | called with `numPoints` left at its default of 100, as the map view does, the path has 101 samples, sample i at fraction i/100, the first at fraction 0 and the last at fraction 1 |
| `AirplaneMap.FractionsProgress` | src/components/AirplaneMap.jsx:87-89 | for `numPoints >= 1` the first sample is at fraction 0, the last at fraction 1, and fractions strictly increase along the path |
| `AirplaneMap.InsertByDistance` | src/components/AirplaneMap.jsx:145 | inserting one ranked airport adds exactly that element (one longer, same multiset plus it) |
| `AirplaneMap.SortByDistance` | src/components/AirplaneMap.jsx:145 | the sort is a permutation of its input |
| `AirplaneMap.NearestAirports` | src/components/AirplaneMap.jsx:135-148 | the result is empty when latitude or longitude is 0 or there are no airports, and otherwise holds `min(5, number of airports)` entries; the distances are attached by the helper `AirplaneMap.WithDistances`, whose outcome `NearestAirportsSortedSelection` states |
| `AirplaneMap.InsertKeepsSorted` | src/components/AirplaneMap.jsx:145 | inserting into a distance-sorted list keeps it sorted |
| `AirplaneMap.SortByDistanceSorted` | src/components/AirplaneMap.jsx:145 | the sort's output is in non-decreasing order of distance |
| `AirplaneMap.InsertKeepsTies` | src/components/AirplaneMap.jsx:145 | insertion places the new element ahead of all elements at its distance, so for every distance the elements at that distance keep their order |
| `AirplaneMap.SortByDistanceStable` | src/components/AirplaneMap.jsx:145 | the sort is stable: for every distance, the airports at that distance come out in dataset order |
| `AirplaneMap.StableSortUnique` | src/components/AirplaneMap.jsx:145 | any list sorted by distance that keeps, for every distance, the input order of the airports at that distance equals the model's sort: the result does not depend on which stable sort algorithm the engine uses |
| `AirplaneMap.SortedWithSameTiesEqual` | src/components/AirplaneMap.jsx:145 | two distance-sorted lists with the same airports in the same order at every distance are equal |
| `AirplaneMap.NearestAirportsSortedSelection` | src/components/AirplaneMap.jsx:140-147 | the nearest airports are in non-decreasing distance order, are input airports carrying their own distance, and use no input more often than it occurs |
| `AirplaneMap.NearestAirportsTopK` | src/components/AirplaneMap.jsx:145-147 | every ranked airport left out is at least as far away as every airport returned |
| `AirplaneMap.NearestAirportsStable` | src/components/AirplaneMap.jsx:145-147 | for every distance, the returned airports at that distance are the first ones at that distance in dataset order |
| `HomePage.KeepNamedRow` | src/components/HomePage.jsx:16-23 | a line is kept iff it has at least three fields and fields 1 and 2 both parse; the record's name is field 0 and its coordinates the parsed fields |
| `HomePage.ParseCsvRanged` | src/components/HomePage.jsx:11-27 | the loop over line indices 35000–35999 returns the named records of that window, or fails at the first index with no line |
| `HomePage.RangedScanOutcome` | src/components/HomePage.jsx:15-16 | the ranged loader fails iff the text has fewer than 36000 lines, fails at an index of at least 35000, and otherwise returns at most 1000 records |
| `HomePage.RangedScanIgnoresOutside` | src/components/HomePage.jsx:15 | two texts with the same lines 35000–35999 give the same result: lines outside the window never matter |
| `HomePage.RangedRecordsFollowLines` | src/components/HomePage.jsx:15-24 | every ranged record is name, latitude and longitude of its window line, records follow increasing line indices, and a window line is represented iff both coordinate fields parse |
| `HomePage.NamesDropped` | src/components/HomePage.jsx:16-22 | dropping the names from the ranged rule's records gives exactly the full-scan rule's records on the same lines |
| `HomePage.RangedIsInfixOfFullScan` | src/components/HomePage.jsx:15-24 | with all window lines present, the ranged result without names is the contiguous part of the full-scan result that lines 35000–35999 produce |
| `HomePage.WellFormedLineKept` | src/components/HomePage.jsx:16-22 | a line `name,lat,lon` with comma-free fields gives the record with that name at the parsed coordinates (so `KXYZ,40.0,-75.0` gives `KXYZ` at (40.0, −75.0) when the parser reads those fields as those numbers) |
| `HomePage.TwoFieldLineDropped` | src/components/HomePage.jsx:18-21 | a line of two comma-free fields, such as `bad,row`, is dropped by both row rules, whatever the number parser |
| `HomePage.HandleSubmit` | src/components/HomePage.jsx:43-48 | navigation happens iff the selected latitude and longitude are both non-zero, and carries the selection unchanged |
| `HomePage.SubmitGuardMatchesFix` | src/components/HomePage.jsx:43-47 | the initial selection (0, 0) never navigates, and a selection navigates iff the map view's nearest-airport guard would treat it as a real position |

## Left out

- `fetchCSV` and the `fetch('/data/airports.csv')` it performs, in both components: network I/O. The loaders take the dataset text as an argument.
- React state and effects, `useLocation` / `useNavigate`, and the `navigator.geolocation.watchPosition` subscription: UI lifecycle and an asynchronous position feed. The current position is an argument of `NearestAirports`.
- The trigonometry of `haversineDistance` (sine, cosine, `atan2`, square root, radius 6371 km): floating-point numerics. Distances come from the `Distance` parameter, so symmetry, zero for coincident points and the antipodal maximum are not modelled.
- `intermediatePointTo` and the `LatLon` constructor of the geodesy library: a foreign call, kept uninterpreted; its output is stored as a `GeoPoint` rather than a two-element `[lat, lon]` array.
- The exact semantics of `parseFloat` (prefix parsing, leading whitespace, `Infinity`): a parameter of the model; `Infinity` has no `real` value.
- NaN coordinates and NaN distances: coordinates are `real`, so `Falsy` is only `== 0`, and the sort comparator never sees NaN.
- AirplaneMap.LongitudeDelta: computes over exact reals, so the rounding of `* Math.PI / 180` and of the subtraction in double precision is not captured.
- Leaflet icons, map, marker and polyline rendering, the `toFixed(2)` distance display, and the `console.log` of the selected latitude in `handleSubmit` and of location errors: display and logging output.
- `JSON.parse` / `JSON.stringify` in the destination select handler: serialisation of the selection.
- `src/App.jsx`, `client/src/App.jsx` (routing) and `vite.config.js` (build configuration).
