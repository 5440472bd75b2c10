/** The closed-tour cost of TspGeneticEvolution.GetCost (TSP/Solver/TspGeneticEvolution.cs). */
module Tours {
  import opened Results
  import opened Points
  import opened MapPaths

  /** The open path length: `CostTo` over every pair of consecutive points. */
  function PathLength(points: seq<Point>, sqrt: real -> real): real
    decreases |points|
  {
    if |points| <= 1 then 0.0
    else PathLength(points[..|points| - 1], sqrt) + CostTo(points[|points| - 2], points[|points| - 1], sqrt)
  }

  /** The cost of the closed tour: the open path plus the closing edge between the first
      and the last point. */
  function TourCost(points: seq<Point>, sqrt: real -> real): real
    requires |points| > 0
  {
    PathLength(points, sqrt) + CostTo(points[0], points[|points| - 1], sqrt)
  }

  /** The `foreach` loop of `GetCost`: `last` is the previous point (null before the
      first), `cost` the running sum. */
  function CostLoop(points: seq<Point>, i: nat, last: Option<Point>, cost: real, sqrt: real -> real): (r: real)
    requires i <= |points|
    ensures IsSqrt(sqrt) ==> cost <= r
    ensures i == |points| || (i + 1 == |points| && last.None?) ==> r == cost
    decreases |points| - i
  {
    if i == |points| then cost
    else CostLoop(points, i + 1, Some(points[i]), if last.Some? then cost + CostTo(last.value, points[i], sqrt) else cost, sqrt)
  }

  /** The loop sums exactly the consecutive edges. */
  lemma {:induction false} CostLoopIsPathLength(points: seq<Point>, i: nat, sqrt: real -> real)
    requires i <= |points|
    ensures CostLoop(points, i, if i == 0 then None else Some(points[i - 1]), PathLength(points[..i], sqrt), sqrt)
            == PathLength(points, sqrt)
    decreases |points| - i
  {
    if i < |points| {
      var last := if i == 0 then None else Some(points[i - 1]);
      var next := if last.Some? then PathLength(points[..i], sqrt) + CostTo(last.value, points[i], sqrt) else PathLength(points[..i], sqrt);
      assert points[..i + 1][..i] == points[..i];
      assert next == PathLength(points[..i + 1], sqrt);
      CostLoopIsPathLength(points, i + 1, sqrt);
    } else {
      assert points[..i] == points;
    }
  }

  /** `GetCost`: the loop over consecutive points, then `Points[0].CostTo(Points[n - 1])`,
      which fails on an empty path. */
  function GetCost(path: MapPath, sqrt: real -> real): (r: Result<real>)
    ensures r.Ok? <==> |path.points| > 0
    ensures r.Err? ==> r.error == ArgumentOutOfRange
    ensures r.Ok? ==> r.value == TourCost(path.points, sqrt)
  {
    var open := CostLoop(path.points, 0, None, 0.0, sqrt);
    if |path.points| == 0 then Err(ArgumentOutOfRange)
    else
      CostLoopIsPathLength(path.points, 0, sqrt);
      Ok(open + CostTo(path.points[0], path.points[|path.points| - 1], sqrt))
  }

  /** A one-point tour costs nothing. */
  lemma TourCostSinglePoint(p: Point, sqrt: real -> real)
    requires IsSqrt(sqrt)
    ensures TourCost([p], sqrt) == 0.0
  {
    CostToSelf(p, sqrt);
  }

  /** Every tour has a non-negative cost. */
  lemma {:induction false} PathLengthNonNegative(points: seq<Point>, sqrt: real -> real)
    requires IsSqrt(sqrt)
    ensures 0.0 <= PathLength(points, sqrt)
    decreases |points|
  {
    if |points| > 1 {
      PathLengthNonNegative(points[..|points| - 1], sqrt);
    }
  }

  lemma TourCostNonNegative(points: seq<Point>, sqrt: real -> real)
    requires IsSqrt(sqrt) && |points| > 0
    ensures 0.0 <= TourCost(points, sqrt)
  {
    PathLengthNonNegative(points, sqrt);
  }

  /** The path length can also be read from the front: first edge, then the rest. */
  lemma {:induction false} PathLengthFront(points: seq<Point>, sqrt: real -> real)
    requires |points| >= 2
    ensures PathLength(points, sqrt) == CostTo(points[0], points[1], sqrt) + PathLength(points[1..], sqrt)
    decreases |points|
  {
    var n := |points|;
    if n > 2 {
      var init := points[..n - 1];
      PathLengthFront(init, sqrt);
      assert init[1..] == points[1..][..n - 2];
    } else {
      assert points[..n - 1] == [points[0]];
    }
  }

  /** Appending a point adds the edge from the old last point. */
  lemma {:induction false} PathLengthSnoc(points: seq<Point>, p: Point, sqrt: real -> real)
    requires |points| > 0
    ensures PathLength(points + [p], sqrt) == PathLength(points, sqrt) + CostTo(points[|points| - 1], p, sqrt)
  {
    assert (points + [p])[..|points|] == points;
  }

  /** Because of the closing edge, the cost does not depend on where the tour starts:
      moving the first point to the end leaves it unchanged. */
  lemma TourCostRotation(points: seq<Point>, sqrt: real -> real)
    requires |points| > 0
    ensures TourCost(points[1..] + [points[0]], sqrt) == TourCost(points, sqrt)
  {
    var a, rest := points[0], points[1..];
    if |rest| == 0 {
      assert points[1..] + [points[0]] == points;
    } else {
      var rotated := rest + [a];
      PathLengthSnoc(rest, a, sqrt);
      PathLengthFront(points, sqrt);
      CostToSymmetric(a, rest[0], sqrt);
      CostToSymmetric(a, rest[|rest| - 1], sqrt);
      assert rotated[0] == rest[0] && rotated[|rotated| - 1] == a;
      assert points[|points| - 1] == rest[|rest| - 1];
    }
  }
}
