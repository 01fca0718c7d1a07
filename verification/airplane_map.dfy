/** The computations of the map view: the full-scan airport loader, the
    antimeridian correction inside the Haversine distance, the sampling loop of
    the great-circle path, and the selection of the five nearest airports. */
module AirplaneMap {
  import opened Wrappers
  import opened TextSplit
  import opened CsvRows

  /** A `{latitude, longitude}` pair in degrees. */
  datatype GeoPoint = GeoPoint(latitude: real, longitude: real)

  // ---------------------------------------------------------------------------
  // Full-scan loader

  /** The row rule: a line gives a record iff fields 1 and 2 of its
      comma-split both parse to a number; the record holds exactly those two
      numbers and no name. A line with fewer than three fields never qualifies. */
  function KeepRow(parse: NumberParser, line: string): (row: Option<GeoPoint>)
    ensures var fields := Split(line, ',');
      row.Some? <==> |fields| >= 3 && parse(fields[1]).Some? && parse(fields[2]).Some?
    ensures var fields := Split(line, ',');
      row.Some? ==> row.value == GeoPoint(parse(fields[1]).value, parse(fields[2]).value)
  {
    var fields := Split(line, ',');
    var latitude := FieldNumber(parse, fields, 1);
    var longitude := FieldNumber(parse, fields, 2);
    if latitude.Some? && longitude.Some? then Some(GeoPoint(latitude.value, longitude.value))
    else None
  }

  function Rule(parse: NumberParser): string -> Option<GeoPoint>
  {
    line => KeepRow(parse, line)
  }

  /** The records the full scan keeps from the given lines. */
  function ParseRows(parse: NumberParser, lines: seq<string>): seq<GeoPoint>
  {
    Scan(Rule(parse), lines)
  }

  /** The loader's loop over every `'\n'`-separated line. */
  method ParseCsv(parse: NumberParser, csvData: string) returns (airports: seq<GeoPoint>)
    ensures airports == ParseRows(parse, Split(csvData, '\n'))
    ensures |airports| <= Occurrences(csvData, '\n') + 1
  {
    var lines := Split(csvData, '\n');
    airports := [];
    for i := 0 to |lines|
      invariant airports == ParseRows(parse, lines[..i])
    {
      var fields := Split(lines[i], ',');
      var latitude := FieldNumber(parse, fields, 1);
      var longitude := FieldNumber(parse, fields, 2);
      ScanExtend(Rule(parse), lines, 0, i);
      assert lines[0..i] == lines[..i] && lines[0..i + 1] == lines[..i + 1];
      assert Rule(parse)(lines[i]) == KeepRow(parse, lines[i]);
      if latitude.Some? && longitude.Some? {
        airports := airports + [GeoPoint(latitude.value, longitude.value)];
      }
    }
    assert lines[..|lines|] == lines;
  }

  /** What the full scan produces, line by line: record `k` holds the parsed
      fields 1 and 2 of line `KeptIndices[k]`, those indices increase, and a
      line is represented iff both of its coordinate fields parse. */
  lemma {:induction false} ParsedRecordsFollowLines(parse: NumberParser, lines: seq<string>)
    ensures var records, ix := ParseRows(parse, lines), KeptIndices(Rule(parse), lines);
      && |ix| == |records|
      && (forall k, m :: 0 <= k < m < |ix| ==> ix[k] < ix[m])
      && (forall k :: 0 <= k < |records| ==> KeepRow(parse, lines[ix[k]]) == Some(records[k]))
      && (forall i :: 0 <= i < |lines| ==> (KeepRow(parse, lines[i]).Some? <==> i in ix))
  {
    ScanSelects(Rule(parse), lines);
  }

  // ---------------------------------------------------------------------------
  // Antimeridian correction of the longitude difference

  /** Degrees to radians, with `pi` standing for `Math.PI`. */
  function Radians(pi: real, degrees: real): real
  {
    degrees * pi / 180.0
  }

  function Abs(x: real): real
  {
    if x < 0.0 then -x else x
  }

  /** The longitude difference `dlon` of the Haversine distance, moved by a
      whole turn when it is longer than half a turn, so that the shorter way
      around is measured. */
  method LongitudeDelta(pi: real, lon1: real, lon2: real) returns (dlon: real)
    requires pi > 0.0
    ensures var raw := Radians(pi, lon2) - Radians(pi, lon1);
      dlon == raw || dlon == raw - 2.0 * pi || dlon == raw + 2.0 * pi
    ensures var raw := Radians(pi, lon2) - Radians(pi, lon1);
      -pi <= raw <= pi ==> dlon == raw
    ensures var raw := Radians(pi, lon2) - Radians(pi, lon1);
      -2.0 * pi <= raw <= 2.0 * pi ==> -pi <= dlon <= pi
    ensures -180.0 <= lon1 <= 180.0 && -180.0 <= lon2 <= 180.0 ==> -pi <= dlon <= pi
  {
    dlon := Radians(pi, lon2) - Radians(pi, lon1);
    if Abs(dlon) > pi {
      dlon := if dlon > 0.0 then -(2.0 * pi - dlon) else 2.0 * pi + dlon;
    }
    if -180.0 <= lon1 <= 180.0 && -180.0 <= lon2 <= 180.0 {
      RadiansWithinHalfTurn(pi, lon1);
      RadiansWithinHalfTurn(pi, lon2);
    }
  }

  /** A longitude in [-180, 180] degrees is an angle in [-pi, pi]. */
  lemma RadiansWithinHalfTurn(pi: real, degrees: real)
    requires pi > 0.0
    requires -180.0 <= degrees <= 180.0
    ensures -pi <= Radians(pi, degrees) <= pi
  {
    assert degrees * pi <= 180.0 * pi;
    assert -180.0 * pi <= degrees * pi;
  }

  // ---------------------------------------------------------------------------
  // Great-circle path sampling

  /** `i / numPoints` as JavaScript computes it for `0 <= i <= numPoints`:
      `None` is the NaN of `0 / 0`. */
  function Fraction(i: int, numPoints: int): (f: Option<real>)
    requires 0 <= i <= numPoints
    ensures numPoints > 0 ==> f.Some? && 0.0 <= f.value <= 1.0
  {
    if numPoints == 0 then None else Some(i as real / numPoints as real)
  }

  /** The number of samples when the caller leaves `numPoints` out. */
  const DefaultNumPoints: int := 100

  /** The `for (i = 0; i <= numPoints; i++)` loop: one sample per fraction
      `i / numPoints`, taken by `intermediate` (the `intermediatePointTo` of the
      spherical geodesy library, left uninterpreted). */
  method CalculateGreatCirclePath(intermediate: (GeoPoint, GeoPoint, Option<real>) -> GeoPoint,
                                  start: GeoPoint, end: GeoPoint, numPoints: int)
    returns (path: seq<GeoPoint>)
    ensures |path| == if numPoints >= 0 then numPoints + 1 else 0
    ensures forall i :: 0 <= i < |path| ==> path[i] == intermediate(start, end, Fraction(i, numPoints))
  {
    path := [];
    var i := 0;
    while i <= numPoints
      invariant numPoints >= 0 ==> 0 <= i <= numPoints + 1
      invariant numPoints < 0 ==> i == 0
      invariant |path| == i
      invariant forall j :: 0 <= j < i ==> path[j] == intermediate(start, end, Fraction(j, numPoints))
      decreases numPoints - i
    {
      var fraction := Fraction(i, numPoints);
      path := path + [intermediate(start, end, fraction)];
      i := i + 1;
    }
  }

  /** The call the map view makes, leaving `numPoints` at its default: 101
      samples at fractions 0, 1/100, ..., 1. */
  method CalculateDefaultGreatCirclePath(intermediate: (GeoPoint, GeoPoint, Option<real>) -> GeoPoint,
                                         start: GeoPoint, end: GeoPoint)
    returns (path: seq<GeoPoint>)
    ensures |path| == 101
    ensures forall i :: 0 <= i < |path| ==> path[i] == intermediate(start, end, Some(i as real / 100.0))
    ensures path[0] == intermediate(start, end, Some(0.0)) && path[100] == intermediate(start, end, Some(1.0))
  {
    path := CalculateGreatCirclePath(intermediate, start, end, DefaultNumPoints);
  }

  /** With at least one interval the samples run from fraction 0 to fraction 1
      in strictly increasing steps. */
  lemma {:induction false} FractionsProgress(numPoints: int, i: int, j: int)
    requires 1 <= numPoints
    requires 0 <= i < j <= numPoints
    ensures Fraction(0, numPoints) == Some(0.0) && Fraction(numPoints, numPoints) == Some(1.0)
    ensures Fraction(i, numPoints).value < Fraction(j, numPoints).value
  {
    var n := numPoints as real;
    assert n / n == 1.0;
    assert i as real / n < j as real / n by {
      assert (j as real / n) - (i as real / n) == (j - i) as real / n;
    }
  }

  // ---------------------------------------------------------------------------
  // Nearest airports

  /** An airport with the distance from the current position attached. */
  datatype Ranked = Ranked(airport: GeoPoint, distance: real)

  /** The distance function: the Haversine distance in the source, whose
      trigonometry is not modelled. */
  type Distance = (GeoPoint, GeoPoint) -> real

  /** How many airports are shown. */
  const NearestCount: nat := 5

  function Min(a: int, b: int): int
  {
    if a <= b then a else b
  }

  /** A coordinate JavaScript treats as false: `0` (NaN is not modelled). */
  predicate Falsy(x: real)
  {
    x == 0.0
  }

  /** No position fix yet: latitude or longitude is falsy. */
  predicate LacksFix(position: GeoPoint)
  {
    Falsy(position.latitude) || Falsy(position.longitude)
  }

  /** `airportData.map(...)`: each airport with its distance from `position`. */
  function WithDistances(dist: Distance, position: GeoPoint, airportData: seq<GeoPoint>): seq<Ranked>
  {
    seq(|airportData|, j requires 0 <= j < |airportData| => Ranked(airportData[j], dist(position, airportData[j])))
  }

  /** Non-decreasing by distance. */
  predicate SortedByDistance(s: seq<Ranked>)
  {
    forall i, j :: 0 <= i < j < |s| ==> s[i].distance <= s[j].distance
  }

  /** Places `x` before the first element that is not strictly closer, so that
      `x` stays ahead of every element at the same distance. */
  function InsertByDistance(x: Ranked, s: seq<Ranked>): (r: seq<Ranked>)
    ensures |r| == |s| + 1
    ensures multiset(r) == multiset(s) + multiset{x}
  {
    if |s| == 0 || x.distance <= s[0].distance then [x] + s
    else
      assert s == [s[0]] + s[1..];
      [s[0]] + InsertByDistance(x, s[1..])
  }

  /** The stable ascending sort `sort((a, b) => a.distance - b.distance)`. */
  function SortByDistance(s: seq<Ranked>): (r: seq<Ranked>)
    ensures |r| == |s|
    ensures multiset(r) == multiset(s)
  {
    if |s| == 0 then []
    else
      assert s == [s[0]] + s[1..];
      InsertByDistance(s[0], SortByDistance(s[1..]))
  }

  /** `getNearestAirports`: nothing without a fix or without airports, else
      the first five of the stable sort by distance. */
  function NearestAirports(dist: Distance, position: GeoPoint, airportData: seq<GeoPoint>): (nearest: seq<Ranked>)
    ensures |nearest| == if LacksFix(position) || |airportData| == 0 then 0
                         else Min(NearestCount, |airportData|)
  {
    if LacksFix(position) || |airportData| == 0 then []
    else
      var sorted := SortByDistance(WithDistances(dist, position, airportData));
      sorted[..Min(NearestCount, |sorted|)]
  }

  lemma {:induction false} InsertKeepsSorted(x: Ranked, s: seq<Ranked>)
    requires SortedByDistance(s)
    ensures SortedByDistance(InsertByDistance(x, s))
    decreases |s|
  {
    if |s| > 0 && x.distance > s[0].distance {
      InsertKeepsSorted(x, s[1..]);
      var tail := InsertByDistance(x, s[1..]);
      forall j | 0 <= j < |tail| ensures s[0].distance <= tail[j].distance {
        assert tail[j] in multiset(tail);
        assert tail[j] in multiset(s[1..]) + multiset{x};
        if tail[j] != x {
          assert tail[j] in s[1..];
        }
      }
    }
  }

  /** The sort returns its input in non-decreasing order of distance. */
  lemma {:induction false} SortByDistanceSorted(s: seq<Ranked>)
    ensures SortedByDistance(SortByDistance(s))
    decreases |s|
  {
    if |s| > 0 {
      SortByDistanceSorted(s[1..]);
      InsertKeepsSorted(s[0], SortByDistance(s[1..]));
    }
  }

  /** The elements of `s` at distance `v`, in their order in `s`. */
  function Ties(s: seq<Ranked>, v: real): seq<Ranked>
  {
    if |s| == 0 then [] else Tie(s[0], v) + Ties(s[1..], v)
  }

  /** `x` alone if it is at distance `v`, else nothing. */
  function Tie(x: Ranked, v: real): seq<Ranked>
  {
    if x.distance == v then [x] else []
  }

  lemma TiesCons(x: Ranked, s: seq<Ranked>, v: real)
    ensures Ties([x] + s, v) == Tie(x, v) + Ties(s, v)
  {
    assert ([x] + s)[0] == x && ([x] + s)[1..] == s;
  }

  lemma {:induction false} TiesAppend(a: seq<Ranked>, b: seq<Ranked>, v: real)
    ensures Ties(a + b, v) == Ties(a, v) + Ties(b, v)
    decreases |a|
  {
    if |a| == 0 {
      assert a + b == b;
    } else {
      calc {
        Ties(a + b, v);
        { assert a + b == [a[0]] + (a[1..] + b); }
        Ties([a[0]] + (a[1..] + b), v);
        { TiesCons(a[0], a[1..] + b, v); }
        Tie(a[0], v) + Ties(a[1..] + b, v);
        { TiesAppend(a[1..], b, v); }
        Tie(a[0], v) + (Ties(a[1..], v) + Ties(b, v));
        { TiesCons(a[0], a[1..], v); assert a == [a[0]] + a[1..]; }
        Ties(a, v) + Ties(b, v);
      }
    }
  }

  lemma {:induction false} InsertKeepsTies(x: Ranked, s: seq<Ranked>, v: real)
    ensures Ties(InsertByDistance(x, s), v) == Ties([x] + s, v)
    decreases |s|
  {
    if |s| > 0 && x.distance > s[0].distance {
      var rest := InsertByDistance(x, s[1..]);
      var a, b, t := Tie(s[0], v), Tie(x, v), Ties(s[1..], v);
      calc {
        Ties(InsertByDistance(x, s), v);
        { assert InsertByDistance(x, s) == [s[0]] + rest; }
        Ties([s[0]] + rest, v);
        { TiesCons(s[0], rest, v); }
        a + Ties(rest, v);
        { InsertKeepsTies(x, s[1..], v); }
        a + Ties([x] + s[1..], v);
        { TiesCons(x, s[1..], v); }
        a + (b + t);
        // At most one of `x` and `s[0]` is at distance `v`.
        { assert a == [] || b == []; }
        b + (a + t);
        { TiesCons(s[0], s[1..], v); assert s == [s[0]] + s[1..]; }
        b + Ties(s, v);
        { TiesCons(x, s, v); }
        Ties([x] + s, v);
      }
    } else if |s| > 0 {
      assert InsertByDistance(x, s) == [x] + s;
    } else {
      assert InsertByDistance(x, s) == [x] + s;
    }
  }

  /** The sort is stable: for every distance, the airports at that distance
      come out in the order they went in. */
  lemma {:induction false} SortByDistanceStable(s: seq<Ranked>, v: real)
    ensures Ties(SortByDistance(s), v) == Ties(s, v)
    decreases |s|
  {
    if |s| > 0 {
      SortByDistanceStable(s[1..], v);
      InsertKeepsTies(s[0], SortByDistance(s[1..]), v);
      assert ([s[0]] + SortByDistance(s[1..]))[1..] == SortByDistance(s[1..]);
    }
  }

  lemma {:induction false} TiesMember(s: seq<Ranked>, v: real, x: Ranked)
    requires x in Ties(s, v)
    ensures x in s && x.distance == v
    decreases |s|
  {
    if x !in (if s[0].distance == v then [s[0]] else []) {
      TiesMember(s[1..], v, x);
    }
  }

  /** A stable ascending sort is determined by its input: any list sorted by
      distance whose airports at each distance are in the same order as in `s`
      is the model's sort of `s`, whatever algorithm produced it. */
  lemma {:induction false} StableSortUnique(s: seq<Ranked>, t: seq<Ranked>)
    requires SortedByDistance(t)
    requires forall v :: Ties(t, v) == Ties(s, v)
    ensures t == SortByDistance(s)
  {
    var u := SortByDistance(s);
    SortByDistanceSorted(s);
    forall v ensures Ties(t, v) == Ties(u, v) {
      SortByDistanceStable(s, v);
    }
    SortedWithSameTiesEqual(t, u);
  }

  lemma HeadHasTies(s: seq<Ranked>)
    requires |s| > 0
    ensures Ties(s, s[0].distance) != []
  {
  }

  lemma {:induction false} SortedWithSameTiesEqual(t: seq<Ranked>, u: seq<Ranked>)
    requires SortedByDistance(t) && SortedByDistance(u)
    requires forall v :: Ties(t, v) == Ties(u, v)
    ensures t == u
    decreases |t| + |u|
  {
    if |t| == 0 && |u| == 0 {
    } else if |t| == 0 {
      HeadHasTies(u);
      assert false;
    } else if |u| == 0 {
      HeadHasTies(t);
      assert false;
    } else {
      assert t[0] == u[0] by {
        var d := t[0].distance;
        HeadHasTies(t);
        HeadHasTies(u);
        assert Ties(u, d) == Ties(t, d) != [];
        assert Ties(t, u[0].distance) == Ties(u, u[0].distance) != [];
        HeadIsClosest(u, d);
        HeadIsClosest(t, u[0].distance);
        assert u[0].distance == d;
        assert t == [t[0]] + t[1..] && u == [u[0]] + u[1..];
        TiesCons(t[0], t[1..], d);
        TiesCons(u[0], u[1..], d);
        assert Tie(t[0], d) == [t[0]] && Tie(u[0], d) == [u[0]];
        assert Ties(t, d)[0] == t[0] && Ties(u, d)[0] == u[0];
      }
      forall v ensures Ties(t[1..], v) == Ties(u[1..], v) {
        assert Ties(t, v) == Ties(u, v);
        assert t == [t[0]] + t[1..] && u == [u[0]] + u[1..];
        TiesCons(t[0], t[1..], v);
        TiesCons(u[0], u[1..], v);
        var head := Tie(t[0], v);
        assert Ties(t[1..], v) == (head + Ties(t[1..], v))[|head|..];
        assert Ties(u[1..], v) == (head + Ties(u[1..], v))[|head|..];
      }
      SortedWithSameTiesEqual(t[1..], u[1..]);
      assert t == [t[0]] + t[1..] && u == [u[0]] + u[1..];
    }
  }

  /** The head of a sorted list is no farther than any distance it has ties at. */
  lemma HeadIsClosest(s: seq<Ranked>, d: real)
    requires SortedByDistance(s)
    requires Ties(s, d) != []
    ensures |s| > 0 && s[0].distance <= d
  {
    TiesMember(s, d, Ties(s, d)[0]);
  }

  /** The nearest airports are input airports with their own distance
      attached, each used no more often than it occurs, in non-decreasing
      order of distance. */
  lemma NearestAirportsSortedSelection(dist: Distance, position: GeoPoint, airportData: seq<GeoPoint>)
    ensures var nearest := NearestAirports(dist, position, airportData);
      && SortedByDistance(nearest)
      && multiset(nearest) <= multiset(WithDistances(dist, position, airportData))
      && (forall i :: 0 <= i < |nearest| ==>
            nearest[i].airport in airportData && nearest[i].distance == dist(position, nearest[i].airport))
  {
    var nearest := NearestAirports(dist, position, airportData);
    if !(LacksFix(position) || |airportData| == 0) {
      var all := WithDistances(dist, position, airportData);
      var sorted := SortByDistance(all);
      SortByDistanceSorted(all);
      assert sorted == nearest + sorted[|nearest|..];
      assert multiset(sorted) == multiset(nearest) + multiset(sorted[|nearest|..]);
      forall i | 0 <= i < |nearest|
        ensures nearest[i].airport in airportData && nearest[i].distance == dist(position, nearest[i].airport)
      {
        assert nearest[i] in multiset(all);
        assert nearest[i] in all;
        var j :| 0 <= j < |all| && all[j] == nearest[i];
      }
    }
  }

  /** Top five: every ranked airport left out is at least as far as every one
      returned. */
  lemma NearestAirportsTopK(dist: Distance, position: GeoPoint, airportData: seq<GeoPoint>)
    ensures var nearest := NearestAirports(dist, position, airportData);
      forall x, i :: x in multiset(WithDistances(dist, position, airportData)) - multiset(nearest) && 0 <= i < |nearest| ==>
        nearest[i].distance <= x.distance
  {
    var nearest := NearestAirports(dist, position, airportData);
    if !(LacksFix(position) || |airportData| == 0) {
      var all := WithDistances(dist, position, airportData);
      var sorted := SortByDistance(all);
      SortByDistanceSorted(all);
      var k := |nearest|;
      assert nearest == sorted[..k];
      assert sorted == sorted[..k] + sorted[k..];
      assert multiset(all) == multiset(nearest) + multiset(sorted[k..]);
      assert multiset(all) - multiset(nearest) == multiset(sorted[k..]);
      SortedPrefixBelowRest(sorted, k);
      forall x, i | x in multiset(all) - multiset(nearest) && 0 <= i < k
        ensures nearest[i].distance <= x.distance
      {
        assert x in multiset(sorted[k..]) && nearest[i] == sorted[i];
      }
    }
  }

  /** In a distance-sorted list, every element of the first `k` is no farther
      than any element after them. */
  lemma SortedPrefixBelowRest(sorted: seq<Ranked>, k: nat)
    requires SortedByDistance(sorted) && k <= |sorted|
    ensures forall x, i :: x in multiset(sorted[k..]) && 0 <= i < k ==> sorted[i].distance <= x.distance
  {
    forall x, i | x in multiset(sorted[k..]) && 0 <= i < k
      ensures sorted[i].distance <= x.distance
    {
      var j :| 0 <= j < |sorted[k..]| && sorted[k..][j] == x;
      assert sorted[k + j] == x;
    }
  }

  /** Ties keep dataset order: for every distance, the airports returned at
      that distance are a prefix of the input airports at that distance. */
  lemma NearestAirportsStable(dist: Distance, position: GeoPoint, airportData: seq<GeoPoint>, v: real)
    ensures Ties(NearestAirports(dist, position, airportData), v) <= Ties(WithDistances(dist, position, airportData), v)
  {
    var nearest := NearestAirports(dist, position, airportData);
    if !(LacksFix(position) || |airportData| == 0) {
      var all := WithDistances(dist, position, airportData);
      var sorted := SortByDistance(all);
      assert sorted == nearest + sorted[|nearest|..];
      TiesAppend(nearest, sorted[|nearest|..], v);
      SortByDistanceStable(all, v);
    }
  }
}
