/** The computations of the destination page: the loader that fills the
    selection list from a fixed window of dataset lines, and the guard of the
    "Show Map" button. */
module HomePage {
  import opened Wrappers
  import opened TextSplit
  import opened CsvRows
  import opened AirplaneMap

  /** A selectable airport: its name (field 0) and coordinates. */
  datatype NamedAirport = NamedAirport(name: string, latitude: real, longitude: real)
  {
    function Location(): GeoPoint
    {
      GeoPoint(latitude, longitude)
    }
  }

  /** The window of line indices the loader reads: 35000 up to, not including, 36000. */
  const RangeStart: nat := 35000
  const RangeEnd: nat := 36000

  /** `lines[i]` was `undefined` at this index, so `lines[i].split` threw. */
  datatype ScanError = LineMissing(index: nat)

  /** The row rule of this loader: the full-scan rule, keeping field 0 as the
      name. */
  function KeepNamedRow(parse: NumberParser, line: string): (row: Option<NamedAirport>)
    ensures var fields := Split(line, ',');
      row.Some? <==> |fields| >= 3 && parse(fields[1]).Some? && parse(fields[2]).Some?
    ensures var fields := Split(line, ',');
      row.Some? ==> row.value == NamedAirport(fields[0], parse(fields[1]).value, parse(fields[2]).value)
  {
    var fields := Split(line, ',');
    var name := fields[0];
    var latitude := FieldNumber(parse, fields, 1);
    var longitude := FieldNumber(parse, fields, 2);
    if latitude.Some? && longitude.Some? then Some(NamedAirport(name, latitude.value, longitude.value))
    else None
  }

  function NamedRule(parse: NumberParser): string -> Option<NamedAirport>
  {
    line => KeepNamedRow(parse, line)
  }

  function ParseNamedRows(parse: NumberParser, lines: seq<string>): seq<NamedAirport>
  {
    Scan(NamedRule(parse), lines)
  }

  /** The first index the loop reaches that has no line. */
  function FirstMissing(lineCount: nat): nat
  {
    if lineCount < RangeStart then RangeStart else lineCount
  }

  /** What the ranged loader produces from the split lines: the named records
      of the window when every line of it exists, otherwise the failure at the
      first missing line. */
  function RangedScan(parse: NumberParser, lines: seq<string>): (r: Result<seq<NamedAirport>, ScanError>)
  {
    if |lines| >= RangeEnd then Success(ParseNamedRows(parse, lines[RangeStart..RangeEnd]))
    else Failure(LineMissing(FirstMissing(|lines|)))
  }

  /** The loader's loop over the window of `'\n'`-separated lines. */
  method ParseCsvRanged(parse: NumberParser, csvData: string)
    returns (result: Result<seq<NamedAirport>, ScanError>)
    ensures result == RangedScan(parse, Split(csvData, '\n'))
  {
    var lines := Split(csvData, '\n');
    var airports := [];
    for i := RangeStart to RangeEnd
      invariant i == RangeStart || i <= |lines|
      invariant i <= |lines| ==> airports == ParseNamedRows(parse, lines[RangeStart..i])
      invariant i > |lines| ==> airports == []
    {
      if i >= |lines| {
        return Failure(LineMissing(i));
      }
      var fields := Split(lines[i], ',');
      var name := fields[0];
      var latitude := FieldNumber(parse, fields, 1);
      var longitude := FieldNumber(parse, fields, 2);
      ScanExtend(NamedRule(parse), lines, RangeStart, i);
      assert NamedRule(parse)(lines[i]) == KeepNamedRow(parse, lines[i]);
      if latitude.Some? && longitude.Some? {
        airports := airports + [NamedAirport(name, latitude.value, longitude.value)];
      }
    }
    return Success(airports);
  }

  /** The ranged loader fails exactly when the text has fewer than 36000
      lines; otherwise it returns at most 1000 records. */
  lemma RangedScanOutcome(parse: NumberParser, lines: seq<string>)
    ensures RangedScan(parse, lines).Failure? <==> |lines| < RangeEnd
    ensures RangedScan(parse, lines).Failure? ==> RangedScan(parse, lines).error.index >= RangeStart
    ensures RangedScan(parse, lines).Success? ==> |RangedScan(parse, lines).value| <= RangeEnd - RangeStart
  {
  }

  /** Lines outside the window never affect the result. */
  lemma RangedScanIgnoresOutside(parse: NumberParser, a: seq<string>, b: seq<string>)
    requires |a| >= RangeEnd && |b| >= RangeEnd
    requires a[RangeStart..RangeEnd] == b[RangeStart..RangeEnd]
    ensures RangedScan(parse, a) == RangedScan(parse, b)
  {
  }

  /** What the ranged loader produces, line by line: record `k` holds field 0
      and the parsed fields 1 and 2 of window line `KeptIndices[k]`, those
      indices increase, and a window line is represented iff both of its
      coordinate fields parse. */
  lemma RangedRecordsFollowLines(parse: NumberParser, lines: seq<string>)
    requires |lines| >= RangeEnd
    ensures var window := lines[RangeStart..RangeEnd];
      var records, ix := RangedScan(parse, lines).value, KeptIndices(NamedRule(parse), window);
      && |ix| == |records|
      && (forall k, m :: 0 <= k < m < |ix| ==> ix[k] < ix[m])
      && (forall k :: 0 <= k < |records| ==> KeepNamedRow(parse, lines[RangeStart + ix[k]]) == Some(records[k]))
      && (forall i :: RangeStart <= i < RangeEnd ==> (KeepNamedRow(parse, lines[i]).Some? <==> i - RangeStart in ix))
  {
    var window := lines[RangeStart..RangeEnd];
    ScanSelects(NamedRule(parse), window);
    forall i | RangeStart <= i < RangeEnd ensures window[i - RangeStart] == lines[i] { }
  }

  /** The coordinates of named records, names dropped. */
  function Locations(airports: seq<NamedAirport>): (points: seq<GeoPoint>)
    ensures |points| == |airports|
    ensures forall k :: 0 <= k < |airports| ==> points[k] == airports[k].Location()
  {
    seq(|airports|, k requires 0 <= k < |airports| => airports[k].Location())
  }

  /** Dropping the names from the ranged loader's rows gives exactly the
      full-scan loader's rows on the same lines. */
  lemma {:induction false} NamesDropped(parse: NumberParser, lines: seq<string>)
    ensures Locations(ParseNamedRows(parse, lines)) == ParseRows(parse, lines)
    decreases |lines|
  {
    if |lines| > 0 {
      var init := lines[..|lines| - 1];
      var last := lines[|lines| - 1];
      NamesDropped(parse, init);
      match KeepNamedRow(parse, last)
      case Some(a) =>
        assert KeepRow(parse, last) == Some(a.Location());
        assert ParseNamedRows(parse, lines) == ParseNamedRows(parse, init) + [a];
        assert ParseRows(parse, lines) == ParseRows(parse, init) + [a.Location()];
      case None =>
        assert KeepRow(parse, last) == None;
    }
  }

  /** On a text with all the window lines, the ranged result with names
      dropped sits inside the full-scan result between the records of the
      lines before and after the window. */
  lemma RangedIsInfixOfFullScan(parse: NumberParser, lines: seq<string>)
    requires |lines| >= RangeEnd
    ensures RangedScan(parse, lines).Success?
    ensures ParseRows(parse, lines) ==
      ParseRows(parse, lines[..RangeStart]) + Locations(RangedScan(parse, lines).value) + ParseRows(parse, lines[RangeEnd..])
  {
    var before, window, after := lines[..RangeStart], lines[RangeStart..RangeEnd], lines[RangeEnd..];
    assert lines == before + window + after;
    ScanAppend(Rule(parse), before + window, after);
    ScanAppend(Rule(parse), before, window);
    NamesDropped(parse, window);
  }

  /** A line `name,lat,lon` whose three fields hold no comma gives the record
      named `name` at the parsed coordinates, e.g. `KXYZ,40.0,-75.0` gives
      `KXYZ` at (40.0, -75.0) when the parser reads `40.0` and `-75.0` so. */
  lemma WellFormedLineKept(parse: NumberParser, name: string, lat: string, lon: string, x: real, y: real)
    requires ',' !in name && ',' !in lat && ',' !in lon
    requires parse(lat) == Some(x) && parse(lon) == Some(y)
    ensures KeepNamedRow(parse, name + [','] + lat + [','] + lon) == Some(NamedAirport(name, x, y))
  {
    var pieces := [name, lat, lon];
    assert pieces[1..] == [lat, lon] && pieces[1..][1..] == [lon];
    assert Join([lat, lon], ',') == lat + [','] + lon;
    assert Join(pieces, ',') == name + [','] + (lat + [','] + lon);
    assert name + [','] + (lat + [','] + lon) == name + [','] + lat + [','] + lon;
    JoinThenSplit(pieces, ',');
  }

  /** A line with only two fields, such as `bad,row`, is dropped by both row
      rules, whatever the number parser. */
  lemma TwoFieldLineDropped(parse: NumberParser, first: string, second: string)
    requires ',' !in first && ',' !in second
    ensures KeepNamedRow(parse, first + [','] + second) == None
    ensures KeepRow(parse, first + [','] + second) == None
  {
    var pieces := [first, second];
    assert pieces[1..] == [second];
    assert Join(pieces, ',') == first + [','] + second;
    JoinThenSplit(pieces, ',');
  }

  /** `handleSubmit`: navigate to the map with the selected destination iff
      both of its coordinates are non-zero; otherwise nothing happens. */
  function HandleSubmit(selected: GeoPoint): (navigateTo: Option<GeoPoint>)
    ensures navigateTo.Some? <==> selected.latitude != 0.0 && selected.longitude != 0.0
    ensures navigateTo.Some? ==> navigateTo.value == selected
  {
    if selected.latitude != 0.0 && selected.longitude != 0.0 then Some(selected) else None
  }

  /** The page's initial selection (0, 0) does not navigate, and any
      destination that does navigate is one the map view would treat as a
      real fix. */
  lemma SubmitGuardMatchesFix(selected: GeoPoint)
    ensures HandleSubmit(GeoPoint(0.0, 0.0)) == None
    ensures HandleSubmit(selected).Some? <==> !LacksFix(selected)
  {
  }
}
