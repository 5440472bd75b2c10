/** TSP/Domain/MapPath.cs: a candidate tour, with its cached first point (`Source`),
    last point (`Destination`) and cached cost (`ManualCost`). */
module MapPaths {
  import opened Results
  import opened Rand
  import opened Points
  import opened Seqs

  /** A MapPath object. `source` and `destination` are C#'s nullable `Point?` fields. */
  datatype MapPath = MapPath(points: seq<Point>, source: Option<Point>, destination: Option<Point>, manualCost: real)

  /** `Source` and `Destination` name the first and the last point, and are both null
      for an empty path. */
  predicate EndpointsMatch(path: MapPath) {
    if |path.points| == 0 then path.source.None? && path.destination.None?
    else path.source == Some(path.points[0]) && path.destination == Some(path.points[|path.points| - 1])
  }

  /** `new MapPath()`: no points, no endpoints, cost 0. */
  function Empty(): (r: MapPath)
    ensures |r.points| == 0 && EndpointsMatch(r) && r.manualCost == 0.0
  {
    MapPath([], None, None, 0.0)
  }

  /** `new MapPath(points)`: holds the list, with its first and last point as endpoints. */
  function FromPoints(points: seq<Point>): (r: MapPath)
    ensures r.points == points && EndpointsMatch(r) && r.manualCost == 0.0
  {
    if |points| > 0 then MapPath(points, Some(points[0]), Some(points[|points| - 1]), 0.0)
    else MapPath(points, None, None, 0.0)
  }

  /** `MapPath.Add`: appends the point and makes it the destination; the source is set
      only when the path was empty. */
  function Add(path: MapPath, p: Point): (r: MapPath)
    ensures r.points == path.points + [p]
    ensures r.destination == Some(p)
    ensures r.source == if |path.points| == 0 then Some(p) else path.source
    ensures r.manualCost == path.manualCost
  {
    MapPath(path.points + [p], if |path.points| == 0 then Some(p) else path.source, Some(p), path.manualCost)
  }

  /** `Add` keeps the endpoints of a consistent path consistent. */
  lemma AddKeepsEndpoints(path: MapPath, p: Point)
    requires EndpointsMatch(path)
    ensures EndpointsMatch(Add(path, p))
  {
  }

  /** The swap loop of `Shuffle` from `n` down: while `n > 1`, `n` drops by one and
      position `n` is exchanged with a position drawn from `[0, n]`. */
  function FisherYates(points: seq<Point>, n: nat, rand: Random): (r: (seq<Point>, Random))
    requires n <= |points|
    ensures |r.0| == |points|
    ensures multiset(r.0) == multiset(points)
    ensures forall i :: n <= i < |points| ==> r.0[i] == points[i]
    decreases n
  {
    if n <= 1 then (points, rand)
    else
      var draw := rand.Pick(0, n);
      FisherYates(Swap(points, draw.0, n - 1), n - 1, draw.1)
  }

  /** `MapPath.Shuffle`: reorders the points and, for a non-empty path, resets both endpoints. */
  function Shuffle(path: MapPath, rand: Random): (r: (MapPath, Random))
    ensures |r.0.points| == |path.points|
    ensures multiset(r.0.points) == multiset(path.points)
    ensures |path.points| <= 1 ==> r.0.points == path.points
    ensures |path.points| > 0 ==> EndpointsMatch(r.0)
    ensures |path.points| == 0 ==> r.0 == path
    ensures r.0.manualCost == path.manualCost
  {
    var shuffled := FisherYates(path.points, |path.points|, rand);
    var points := shuffled.0;
    if |points| > 0 then (path.(points := points, source := Some(points[0]), destination := Some(points[|points| - 1])), shuffled.1)
    else (path.(points := points), shuffled.1)
  }

  /** `List.Remove`: drops the first value-equal occurrence, if any. */
  function RemoveFirst(s: seq<Point>, x: Point): (r: seq<Point>)
    ensures multiset(r) == multiset(s) - multiset{x}
    ensures x in s ==> |r| == |s| - 1
    ensures x !in s ==> r == s
  {
    if |s| == 0 then s
    else if s[0] == x then
      assert s == [s[0]] + s[1..];
      s[1..]
    else
      assert s == [s[0]] + s[1..];
      [s[0]] + RemoveFirst(s[1..], x)
  }

  /** The reordering `List.Sort` produces with a random comparer: some permutation. */
  ghost predicate IsReordering(arrange: seq<Point> -> seq<Point>) {
    forall s :: multiset(arrange(s)) == multiset(s)
  }

  /** Framing a reordering of what is left once `source` and `destination` are removed
      puts both back. */
  lemma FramedCounts(points: seq<Point>, source: Point, destination: Point, middle: seq<Point>)
    requires multiset(middle) == multiset(RemoveFirst(RemoveFirst(points, source), destination))
    ensures multiset([source] + middle + [destination])
            == multiset(points) - multiset{source} - multiset{destination} + multiset{source, destination}
  {
    assert multiset([source] + middle + [destination]) == multiset{source} + multiset(middle) + multiset{destination};
  }

  /** `MapPath.Generate`: puts `source` first and `destination` last, the other points in
      the order `arrange` picks; throws when either is absent. `Source`, `Destination` and
      `ManualCost` are left as they were. */
  function Generate(path: MapPath, source: Point, destination: Point,
                    arrange: seq<Point> -> seq<Point>, show: real -> string): (r: Result<MapPath>)
    requires IsReordering(arrange)
    ensures source !in path.points ==> r == Err(Failure("Source " + ToString(source, show) + " not found in Path."))
    ensures source in path.points && destination !in path.points ==>
              r == Err(Failure("Destination " + ToString(destination, show) + " not found in Path."))
    ensures r.Ok? <==> source in path.points && destination in path.points
    ensures r.Ok? ==> && |r.value.points| >= 2
                      && r.value.points[0] == source
                      && r.value.points[|r.value.points| - 1] == destination
                      && multiset(r.value.points) == multiset(path.points) - multiset{source} - multiset{destination} + multiset{source, destination}
                      && r.value.source == path.source
                      && r.value.destination == path.destination
                      && r.value.manualCost == path.manualCost
  {
    if source !in path.points then Err(Failure("Source " + ToString(source, show) + " not found in Path."))
    else if destination !in path.points then Err(Failure("Destination " + ToString(destination, show) + " not found in Path."))
    else
      var rest := RemoveFirst(RemoveFirst(path.points, source), destination);
      var points := [source] + arrange(rest) + [destination];
      FramedCounts(path.points, source, destination, arrange(rest));
      Ok(path.(points := points))
  }

  /** `Generate` does not refresh the endpoints: a consistent path becomes inconsistent
      when the requested source is not already first. */
  lemma GenerateLeavesStaleEndpoints(a: Point, b: Point, arrange: seq<Point> -> seq<Point>, show: real -> string)
    requires IsReordering(arrange)
    requires a != b
    ensures EndpointsMatch(FromPoints([a, b]))
    ensures Generate(FromPoints([a, b]), b, a, arrange, show).Ok?
    ensures !EndpointsMatch(Generate(FromPoints([a, b]), b, a, arrange, show).value)
  {
    var r := Generate(FromPoints([a, b]), b, a, arrange, show).value;
    assert r.points[0] == b;
  }
}
