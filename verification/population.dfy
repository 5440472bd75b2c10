/** The population of TspGeneticEvolution (TSP/Solver/TspGeneticEvolution.cs): a
    `List<MapPath>` of references. Mutation rewrites a MapPath object in place and adds the
    same reference again, so the model keeps the objects in a store (`heap`) and the list
    as a sequence of object ids (`members`). */
module Populations {
  import opened Points
  import opened Seqs
  import opened MapPaths
  import opened Tours

  datatype Population = Population(heap: seq<MapPath>, members: seq<nat>)

  /** Every reference in the list points to an object. */
  predicate Valid(pop: Population) {
    forall i :: 0 <= i < |pop.members| ==> pop.members[i] < |pop.heap|
  }

  /** `Population[i]`. */
  function Member(pop: Population, i: nat): MapPath
    requires Valid(pop) && i < |pop.members|
  {
    pop.heap[pop.members[i]]
  }

  /** The list of tours, read through the references. */
  function Paths(pop: Population): (r: seq<MapPath>)
    requires Valid(pop)
    ensures |r| == |pop.members|
    ensures forall i :: 0 <= i < |r| ==> r[i] == Member(pop, i)
  {
    seq(|pop.members|, i requires 0 <= i < |pop.members| && Valid(pop) => Member(pop, i))
  }

  /** `new List<MapPath>()`. */
  function EmptyPopulation(): (r: Population)
    ensures Valid(r) && |r.members| == 0
  {
    Population([], [])
  }

  /** `Population.Add(path)` of a newly created object. */
  function AddNew(pop: Population, path: MapPath): (r: Population)
    requires Valid(pop)
    ensures Valid(r)
    ensures |r.members| == |pop.members| + 1
    ensures forall i :: 0 <= i < |pop.members| ==> Member(r, i) == Member(pop, i)
    ensures Member(r, |pop.members|) == path
  {
    Population(pop.heap + [path], pop.members + [|pop.heap|])
  }

  /** A tour of the solver for `points`: a reordering of them, with its cached cost equal
      to its real cost. */
  ghost predicate Sound(path: MapPath, points: seq<Point>, sqrt: real -> real) {
    && multiset(path.points) == multiset(points)
    && |path.points| > 0
    && path.manualCost == TourCost(path.points, sqrt)
  }

  /** Every object of the store is a sound tour for `points`. */
  ghost predicate AllSound(pop: Population, points: seq<Point>, sqrt: real -> real) {
    && Valid(pop)
    && forall id :: 0 <= id < |pop.heap| ==> Sound(pop.heap[id], points, sqrt)
  }
}
