/** TSP/Domain/Map.cs: the input of the solver, the points in file order. */
module Maps {
  import opened Points

  /** `new Map(list)` holds exactly `list`. */
  datatype Map = Map(points: seq<Point>)

  /** `new Map()`: no points. */
  function Empty(): (m: Map)
    ensures |m.points| == 0
  {
    Map([])
  }

  /** `Map.Add`: appends the point; every earlier point keeps its position. */
  function Add(m: Map, p: Point): (r: Map)
    ensures |r.points| == |m.points| + 1
    ensures r.points[|m.points|] == p
    ensures forall i :: 0 <= i < |m.points| ==> r.points[i] == m.points[i]
  {
    Map(m.points + [p])
  }

  /** Adds the points one by one, in order. */
  function AddAll(m: Map, ps: seq<Point>): Map
    decreases |ps|
  {
    if |ps| == 0 then m else AddAll(Add(m, ps[0]), ps[1..])
  }

  /** Adding points one at a time to a map appends them in order. */
  lemma {:induction false} AddAllAppends(m: Map, ps: seq<Point>)
    ensures AddAll(m, ps) == Map(m.points + ps)
    decreases |ps|
  {
    if |ps| > 0 {
      AddAllAppends(Add(m, ps[0]), ps[1..]);
      assert m.points + [ps[0]] + ps[1..] == m.points + ps;
    }
  }

  /** Filling an empty map with `Add` gives the same map as `new Map(list)`. */
  lemma {:induction false} AddAllFromEmpty(ps: seq<Point>)
    ensures AddAll(Empty(), ps) == Map(ps)
  {
    AddAllAppends(Empty(), ps);
  }
}
