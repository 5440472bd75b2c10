/** TspGeneticEvolution.Mutate (TSP/Solver/TspGeneticEvolution.cs): a random window of the
    tour is reshuffled in place, after which the cached cost is refreshed. */
module Mutation {
  import opened Results
  import opened Rand
  import opened Points
  import opened Seqs
  import opened MapPaths
  import opened Tours

  /** The two draws of `Mutate`: `start` from `[0, n - 1)` and `end` from `[start, n)`;
      for n = 1 both ranges are empty and give 0. The first draw fails on an empty tour. */
  function MutationWindow(n: nat, rand: Random): (r: Result<(nat, nat, Random)>)
    ensures r.Ok? <==> n >= 1
    ensures r.Err? ==> r.error == ArgumentOutOfRange
    ensures r.Ok? ==> r.value.0 <= r.value.1 < n
    ensures r.Ok? && n >= 2 ==> r.value.0 < n - 1
  {
    if rand.Next(0, n - 1).Err? then Err(ArgumentOutOfRange)
    else
      var first := rand.Next(0, n - 1).value;
      var second := first.1.Next(first.0, n).value;
      Ok((first.0, second.0, second.1))
  }

  /** The `for (i = end; i >= start; i--)` loop: position `i` is exchanged with one drawn
      from `[start, i]`. Positions outside the window never move. */
  function ShuffleDown(points: seq<Point>, start: nat, i: int, rand: Random): (r: (seq<Point>, Random))
    requires start - 1 <= i < |points|
    ensures |r.0| == |points|
    ensures multiset(r.0) == multiset(points)
    ensures forall j :: 0 <= j < |points| && !(start <= j <= i) ==> r.0[j] == points[j]
    decreases i - start + 1
  {
    if i < start then (points, rand)
    else
      var draw := rand.Pick(start, i + 1);
      ShuffleDown(Swap(points, i, draw.0), start, i - 1, draw.1)
  }

  /** `Mutate`: reshuffles `points[start..end]` and recomputes `ManualCost`. The object is
      changed in place, so `Source` and `Destination` keep their old values. */
  function Mutate(path: MapPath, rand: Random, sqrt: real -> real): (r: Result<(MapPath, Random)>)
    ensures r.Ok? <==> |path.points| > 0
    ensures r.Err? ==> r.error == ArgumentOutOfRange
    ensures r.Ok? ==> && |r.value.0.points| == |path.points|
                      && multiset(r.value.0.points) == multiset(path.points)
                      && r.value.0.manualCost == TourCost(r.value.0.points, sqrt)
                      && r.value.0.source == path.source
                      && r.value.0.destination == path.destination
    ensures r.Ok? ==> var window := MutationWindow(|path.points|, rand).value;
                      forall j :: 0 <= j < |path.points| && !(window.0 <= j <= window.1) ==> r.value.0.points[j] == path.points[j]
  {
    var window :- MutationWindow(|path.points|, rand);
    var shuffled := ShuffleDown(path.points, window.0, window.1, window.2);
    var mutated := path.(points := shuffled.0);
    var cost := GetCost(mutated, sqrt).value;
    Ok((mutated.(manualCost := cost), shuffled.1))
  }

  /** Because the endpoints are not refreshed, a mutation can leave `Source` and
      `Destination` naming points that are no longer first and last. */
  lemma MutateLeavesStaleEndpoints(a: Point, b: Point, sqrt: real -> real)
    requires a != b
    ensures var r := Mutate(FromPoints([a, b]), Random(i => if i == 1 then 1 else 0, 0), sqrt);
            && r.Ok? && r.value.0.points == [b, a] && !EndpointsMatch(r.value.0)
  {
    var stream: nat -> nat := i => if i == 1 then 1 else 0;
    var rand := Random(stream, 0);
    assert stream(1) == 1 && stream(2) == 0;
    assert rand.Next(0, 1) == Ok((0, Random(stream, 1)));
    assert Random(stream, 1).Next(0, 2) == Ok((1, Random(stream, 2)));
    assert MutationWindow(2, rand) == Ok((0, 1, Random(stream, 2)));
    assert Random(stream, 2).Pick(0, 2) == (0, Random(stream, 3));
    var swapped := Swap([a, b], 1, 0);
    assert swapped == [b, a];
    assert ShuffleDown([a, b], 0, 1, Random(stream, 2)) == ShuffleDown(swapped, 0, 0, Random(stream, 3));
    assert Random(stream, 3).Pick(0, 1).0 == 0;
    assert Swap(swapped, 0, 0) == swapped;
    assert ShuffleDown(swapped, 0, 0, Random(stream, 3)).0 == swapped;
  }
}
