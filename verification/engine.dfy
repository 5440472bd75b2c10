/** The driver of TspGeneticEvolution (TSP/Solver/TspGeneticEvolution.cs): population
    initialisation, the crossover and mutation stages, natural selection, the epoch loop
    with its cancellation check, and `GetPath`. */
module Engine {
  import opened Results
  import opened Rand
  import opened Points
  import opened Seqs
  import opened Maps
  import opened MapPaths
  import opened Tours
  import opened GeneticParameters
  import opened Populations
  import opened OrderedCrossover
  import opened Mutation
  import opened Selection

  // ---------------------------------------------------------------------------------
  // Initialisation

  /** One member as `InitializePopulation` means to build it: its own copy of the map's
      points, shuffled, with its cost cached. An empty map fails in `GetCost`. */
  function NewMember(points: seq<Point>, rand: Random, sqrt: real -> real): (r: Result<(MapPath, Random)>)
    ensures r.Ok? <==> |points| > 0
    ensures r.Err? ==> r.error == ArgumentOutOfRange
    ensures r.Ok? ==> Sound(r.value.0, points, sqrt) && EndpointsMatch(r.value.0)
  {
    var shuffled := Shuffle(FromPoints(points), rand);
    var cost :- GetCost(shuffled.0, sqrt);
    Ok((shuffled.0.(manualCost := cost), shuffled.1))
  }

  /** One iteration of the loop of `InitializePopulation`: a new member is added. */
  function InitStep(pop: Population, points: seq<Point>, rand: Random, sqrt: real -> real): (r: Result<(Population, Random)>)
    requires Valid(pop)
    ensures r.Ok? <==> |points| > 0
    ensures r.Err? ==> r.error == ArgumentOutOfRange
    ensures r.Ok? ==> && Valid(r.value.0) && |r.value.0.members| == |pop.members| + 1
                      && Sound(Member(r.value.0, |pop.members|), points, sqrt)
    ensures r.Ok? && AllSound(pop, points, sqrt) ==> AllSound(r.value.0, points, sqrt)
  {
    var member :- NewMember(points, rand, sqrt);
    AddNewSound(pop, member.0, points, sqrt);
    Ok((AddNew(pop, member.0), member.1))
  }

  /** The loop of `InitializePopulation`. */
  function InitLoop(pop: Population, points: seq<Point>, remaining: nat, rand: Random, sqrt: real -> real): (r: Result<(Population, Random)>)
    requires Valid(pop)
    ensures r.Ok? <==> remaining == 0 || |points| > 0
    ensures r.Err? ==> r.error == ArgumentOutOfRange
    ensures r.Ok? ==> Valid(r.value.0) && |r.value.0.members| == |pop.members| + remaining
    ensures r.Ok? && AllSound(pop, points, sqrt) ==> AllSound(r.value.0, points, sqrt)
    decreases remaining
  {
    if remaining == 0 then Ok((pop, rand))
    else
      var next :- InitStep(pop, points, rand, sqrt);
      InitLoop(next.0, points, remaining - 1, next.1, sqrt)
  }

  /** `InitializePopulation` with one list per member (see `InitializeSharedList` for the
      code as written): `PopulationSize` shuffled copies of the map, each with its cost. */
  function InitializePopulation(cities: Map, size: Option<int32>, rand: Random, sqrt: real -> real): (r: Result<(Population, Random)>)
    ensures r.Ok? <==> Times(size) == 0 || |cities.points| > 0
    ensures r.Err? ==> r.error == ArgumentOutOfRange
    ensures r.Ok? ==> Valid(r.value.0) && |r.value.0.members| == Times(size)
    ensures r.Ok? ==> AllSound(r.value.0, cities.points, sqrt)
  {
    InitLoop(EmptyPopulation(), cities.points, Times(size), rand, sqrt)
  }

  /** The loop of `InitializePopulation` as written: every member is created around the
      same list, which each iteration shuffles in place. `list` is that list's current
      content; `made` holds the members with the endpoints and cost they were given. */
  function SharedInitLoop(list: seq<Point>, made: seq<MapPath>, remaining: nat, rand: Random, sqrt: real -> real): (r: Result<(seq<Point>, seq<MapPath>, Random)>)
    ensures r.Ok? ==> |r.value.1| == |made| + remaining
    decreases remaining
  {
    if remaining == 0 then Ok((list, made, rand))
    else
      var shuffled := Shuffle(FromPoints(list), rand);
      var cost :- GetCost(shuffled.0, sqrt);
      SharedInitLoop(shuffled.0.points, made + [shuffled.0.(manualCost := cost)], remaining - 1, shuffled.1, sqrt)
  }

  /** `InitializePopulation` as written: every member sees the final content of the one
      shared list. */
  function InitializeSharedList(cities: Map, size: Option<int32>, rand: Random, sqrt: real -> real): (r: Result<(seq<MapPath>, Random)>)
    ensures r.Ok? ==> |r.value.0| == Times(size)
    ensures r.Ok? ==> forall i, j :: 0 <= i < j < |r.value.0| ==> r.value.0[i].points == r.value.0[j].points
  {
    var shared :- SharedInitLoop(cities.points, [], Times(size), rand, sqrt);
    var made := shared.1;
    Ok((seq(|made|, i requires 0 <= i < |made| => made[i].(points := shared.0)), shared.2))
  }

  /** Exchanging the middle two of four. */
  lemma SwapMiddle(s: seq<Point>)
    requires |s| == 4
    ensures Swap(s, 1, 2) == [s[0], s[2], s[1], s[3]]
  {
    var u := Swap(s, 1, 2);
    assert u[0] == s[0] && u[1] == s[2] && u[2] == s[1] && u[3] == s[3];
  }

  /** The first shuffle of `SharedListStaleCost`: draws 3, 2, 1 exchange every position
      with itself. */
  lemma {:induction false} StaleFirstShuffle(s: seq<Point>, stream: nat -> nat)
    requires |s| == 4 && stream(0) == 3 && stream(1) == 2 && stream(2) == 1
    ensures FisherYates(s, 4, Random(stream, 0)) == (s, Random(stream, 3))
  {
    assert Swap(s, 3, 3) == s;
    assert Swap(s, 2, 2) == s;
    assert Swap(s, 1, 1) == s;
    assert Random(stream, 0).Pick(0, 4) == (3, Random(stream, 1));
    assert Random(stream, 1).Pick(0, 3) == (2, Random(stream, 2));
    assert Random(stream, 2).Pick(0, 2) == (1, Random(stream, 3));
    assert FisherYates(s, 1, Random(stream, 3)) == (s, Random(stream, 3));
    assert FisherYates(s, 2, Random(stream, 2)) == (s, Random(stream, 3));
    assert FisherYates(s, 3, Random(stream, 1)) == (s, Random(stream, 3));
  }

  /** The second shuffle of `SharedListStaleCost`: draws 3, 1, 1 exchange the middle
      positions. */
  lemma {:induction false} StaleSecondShuffle(s: seq<Point>, stream: nat -> nat)
    requires |s| == 4 && stream(3) == 3 && stream(4) == 1 && stream(5) == 1
    ensures FisherYates(s, 4, Random(stream, 3)) == (Swap(s, 1, 2), Random(stream, 6))
  {
    var t := Swap(s, 1, 2);
    assert Swap(s, 3, 3) == s;
    assert Random(stream, 3).Pick(0, 4) == (3, Random(stream, 4));
    assert FisherYates(s, 4, Random(stream, 3)) == FisherYates(s, 3, Random(stream, 4));
    assert Random(stream, 4).Pick(0, 3) == (1, Random(stream, 5));
    assert FisherYates(s, 3, Random(stream, 4)) == FisherYates(t, 2, Random(stream, 5));
    assert Swap(t, 1, 1) == t;
    assert Random(stream, 5).Pick(0, 2) == (1, Random(stream, 6));
    assert FisherYates(t, 2, Random(stream, 5)) == (t, Random(stream, 6));
  }

  /** The open path through four collinear points at unit spacing, in map order. */
  lemma OrderedLength(a: Point, b: Point, c: Point, d: Point, sqrt: real -> real)
    requires a == Point(0.0, 0.0) && b == Point(1.0, 0.0) && c == Point(2.0, 0.0) && d == Point(3.0, 0.0)
    ensures TourCost([a, b, c, d], sqrt) == sqrt(1.0) + sqrt(1.0) + sqrt(1.0) + sqrt(9.0)
  {
    assert [a, b, c, d][..3] == [a, b, c] && [a, b, c][..2] == [a, b] && [a, b][..1] == [a];
    assert CostTo(a, b, sqrt) == sqrt(1.0) && CostTo(b, c, sqrt) == sqrt(1.0) && CostTo(c, d, sqrt) == sqrt(1.0);
    assert PathLength([a, b], sqrt) == sqrt(1.0);
    assert PathLength([a, b, c], sqrt) == PathLength([a, b], sqrt) + CostTo(b, c, sqrt);
    assert PathLength([a, b, c, d], sqrt) == PathLength([a, b, c], sqrt) + CostTo(c, d, sqrt);
    assert CostTo(a, d, sqrt) == sqrt(9.0);
  }

  /** The same tour with the middle points exchanged. */
  lemma SwappedLength(a: Point, b: Point, c: Point, d: Point, sqrt: real -> real)
    requires a == Point(0.0, 0.0) && b == Point(1.0, 0.0) && c == Point(2.0, 0.0) && d == Point(3.0, 0.0)
    ensures TourCost([a, c, b, d], sqrt) == sqrt(4.0) + sqrt(1.0) + sqrt(4.0) + sqrt(9.0)
  {
    assert [a, c, b, d][..3] == [a, c, b] && [a, c, b][..2] == [a, c] && [a, c][..1] == [a];
    assert CostTo(a, c, sqrt) == sqrt(4.0) && CostTo(c, b, sqrt) == sqrt(1.0) && CostTo(b, d, sqrt) == sqrt(4.0);
    assert PathLength([a, c], sqrt) == sqrt(4.0);
    assert PathLength([a, c, b], sqrt) == PathLength([a, c], sqrt) + CostTo(c, b, sqrt);
    assert PathLength([a, c, b, d], sqrt) == PathLength([a, c, b], sqrt) + CostTo(b, d, sqrt);
    assert CostTo(a, d, sqrt) == sqrt(9.0);
  }

  /** As written, the first member's cached cost is stale: two members, and draws that
      leave the first shuffle in map order and swap the middle points in the second. Both
      members show the second order, yet the first still carries the cost of the first.
      `CollinearOrdersDiffer` gives four points whose two orders differ in cost. */
  lemma SharedListStaleCost(a: Point, b: Point, c: Point, d: Point, stream: nat -> nat, sqrt: real -> real)
    requires TourCost([a, b, c, d], sqrt) != TourCost([a, c, b, d], sqrt)
    requires stream(0) == 3 && stream(1) == 2 && stream(2) == 1
    requires stream(3) == 3 && stream(4) == 1 && stream(5) == 1
    ensures var r := InitializeSharedList(Map([a, b, c, d]), Some(2), Random(stream, 0), sqrt);
            && r.Ok? && |r.value.0| == 2
            && r.value.0[0].manualCost != TourCost(r.value.0[0].points, sqrt)
  {
    var s := [a, b, c, d];
    SharedListPricesFirstOrder(s, stream, sqrt);
    SwapMiddle(s);
  }

  /** Four collinear points at unit spacing: exchanging the middle two changes the cost. */
  lemma CollinearOrdersDiffer(a: Point, b: Point, c: Point, d: Point, sqrt: real -> real)
    requires a == Point(0.0, 0.0) && b == Point(1.0, 0.0) && c == Point(2.0, 0.0) && d == Point(3.0, 0.0)
    requires IsSqrt(sqrt)
    ensures TourCost([a, b, c, d], sqrt) != TourCost([a, c, b, d], sqrt)
  {
    OrderedLength(a, b, c, d, sqrt);
    SwappedLength(a, b, c, d, sqrt);
    assert 0.0 <= sqrt(1.0) < sqrt(4.0);
  }

  /** With the draws of `SharedListStaleCost`, any four points: the first member shows
      the second order but is priced on the first. */
  lemma SharedListPricesFirstOrder(s: seq<Point>, stream: nat -> nat, sqrt: real -> real)
    requires |s| == 4
    requires stream(0) == 3 && stream(1) == 2 && stream(2) == 1
    requires stream(3) == 3 && stream(4) == 1 && stream(5) == 1
    ensures var r := InitializeSharedList(Map(s), Some(2), Random(stream, 0), sqrt);
            && r.Ok? && |r.value.0| == 2 && r.value.0[0].points == Swap(s, 1, 2)
            && r.value.0[0].manualCost == TourCost(s, sqrt)
  {
    assert Times(Some(2)) == 2;
    StaleLoop(s, stream, sqrt);
  }

  /** The member the shared-list loop makes from the list's current content. */
  function Priced(list: seq<Point>, sqrt: real -> real): MapPath
    requires |list| > 0
  {
    MapPath(list, Some(list[0]), Some(list[|list| - 1]), TourCost(list, sqrt))
  }

  /** The shared-list loop over four points with the draws of `SharedListStaleCost`: the
      list ends in the second order, while the first member was priced on the first. */
  lemma StaleLoop(s: seq<Point>, stream: nat -> nat, sqrt: real -> real)
    requires |s| == 4
    requires stream(0) == 3 && stream(1) == 2 && stream(2) == 1
    requires stream(3) == 3 && stream(4) == 1 && stream(5) == 1
    ensures var r := SharedInitLoop(s, [], 2, Random(stream, 0), sqrt);
            && r.Ok? && r.value.0 == Swap(s, 1, 2) && |r.value.1| == 2 && r.value.1[0] == Priced(s, sqrt)
  {
    StaleLoopFirst(s, stream, sqrt);
    StaleLoopSecond(s, [] + [Priced(s, sqrt)], stream, sqrt);
  }

  /** The first iteration of `StaleLoop`. */
  lemma StaleLoopFirst(s: seq<Point>, stream: nat -> nat, sqrt: real -> real)
    requires |s| == 4
    requires stream(0) == 3 && stream(1) == 2 && stream(2) == 1
    ensures SharedInitLoop(s, [], 2, Random(stream, 0), sqrt) == SharedInitLoop(s, [] + [Priced(s, sqrt)], 1, Random(stream, 3), sqrt)
  {
    StaleFirstShuffle(s, stream);
    SharedInitStep(s, [], 2, Random(stream, 0), sqrt, s, Random(stream, 3));
  }

  /** The second iteration of `StaleLoop`, which ends it. */
  lemma StaleLoopSecond(s: seq<Point>, made: seq<MapPath>, stream: nat -> nat, sqrt: real -> real)
    requires |s| == 4
    requires stream(3) == 3 && stream(4) == 1 && stream(5) == 1
    ensures SharedInitLoop(s, made, 1, Random(stream, 3), sqrt)
            == Ok((Swap(s, 1, 2), made + [Priced(Swap(s, 1, 2), sqrt)], Random(stream, 6)))
  {
    StaleSecondShuffle(s, stream);
    SharedInitStep(s, made, 1, Random(stream, 3), sqrt, Swap(s, 1, 2), Random(stream, 6));
  }

  /** One iteration of the shared-list loop: the list takes the shuffled order `next`, and
      the new member its endpoints and cost. */
  lemma SharedInitStep(list: seq<Point>, made: seq<MapPath>, remaining: nat, rand: Random, sqrt: real -> real,
                       next: seq<Point>, rand': Random)
    requires remaining > 0 && |list| > 0
    requires FisherYates(list, |list|, rand) == (next, rand')
    ensures |next| == |list|
    ensures SharedInitLoop(list, made, remaining, rand, sqrt)
            == SharedInitLoop(next, made + [Priced(next, sqrt)], remaining - 1, rand', sqrt)
  {
  }

  // ---------------------------------------------------------------------------------
  // Crossover stage

  /** The situation in which a crossover step over a population of tours of `points`
      cannot fail: the population is sound and non-empty, the map has at least two points
      and no duplicates, and there is at least one tournament round. */
  ghost predicate CanBreed(pop: Population, rounds: int, points: seq<Point>, sqrt: real -> real) {
    && AllSound(pop, points, sqrt) && |pop.members| > 0
    && NoDuplicates(points) && |points| >= 2 && rounds > 0
  }

  /** One iteration of the loop of `Crossovers`, with the tournament as written (both
      parents are champions of the first candidates, see `Winners`): the offspring of the
      two winners is a new object added at the end of the population, where later
      tournaments can draw it. No tournament rounds leave both winners null. */
  function CrossoverStep(pop: Population, rounds: int, rand: Random, sqrt: real -> real): (r: Result<(Population, Random)>)
    requires Valid(pop)
    ensures rounds <= 0 ==> r == Err(NullReference)
    ensures r.Ok? ==> && Valid(r.value.0) && |r.value.0.members| == |pop.members| + 1
                      && |r.value.0.heap| == |pop.heap| + 1
                      && r.value.0.heap[..|pop.heap|] == pop.heap
                      && r.value.0.members[..|pop.members|] == pop.members
                      && r.value.0.members[|pop.members|] == |pop.heap|
    ensures forall points :: CanBreed(pop, rounds, points, sqrt) ==> r.Ok? && AllSound(r.value.0, points, sqrt)
  {
    BreedingSucceeds(pop, rounds, rand, sqrt);
    var drawn :- DrawRounds(pop, rounds, rand);
    var winners := Winners(drawn.0);
    if winners.0.None? || winners.1.None? then Err(NullReference)
    else
      var child :- Crossover(winners.0.value, winners.1.value, drawn.1, sqrt);
      AddNewKeepsSound(pop, child.0, sqrt);
      Ok((AddNew(pop, child.0), child.1))
  }

  /** The loop of `Crossovers`. */
  function CrossoverLoop(pop: Population, remaining: nat, rounds: int, rand: Random, sqrt: real -> real): (r: Result<(Population, Random)>)
    requires Valid(pop)
    ensures r.Ok? ==> && Valid(r.value.0) && |r.value.0.members| == |pop.members| + remaining
                      && |r.value.0.heap| == |pop.heap| + remaining
                      && r.value.0.heap[..|pop.heap|] == pop.heap
                      && r.value.0.members[..|pop.members|] == pop.members
    ensures forall points :: CanBreed(pop, rounds, points, sqrt) ==> r.Ok? && AllSound(r.value.0, points, sqrt)
    decreases remaining
  {
    if remaining == 0 then Ok((pop, rand))
    else
      var next :- CrossoverStep(pop, rounds, rand, sqrt);
      assert forall points :: CanBreed(pop, rounds, points, sqrt) ==> CanBreed(next.0, rounds, points, sqrt);
      CrossoverLoop(next.0, remaining - 1, rounds, next.1, sqrt)
  }

  /** `Crossovers`: the two null checks, the offspring count, then the loop. */
  function Crossovers(pop: Population, params: Parameters, rand: Random, sqrt: real -> real): (r: Result<(Population, Random)>)
    requires Valid(pop)
    ensures params.populationSize.None? ==> r == Err(Failure("Parameter 'PopulationSize' is null."))
    ensures params.populationSize.Some? && params.crossoverScale.None? ==> r == Err(Failure("Parameter 'CrossoverScale' is null."))
    ensures r.Ok? ==> && params.populationSize.Some? && params.crossoverScale.Some? && Valid(r.value.0)
                      && |r.value.0.members|
                         == |pop.members| + Iterations(CrossoverCount(params.populationSize.value, params.crossoverScale.value))
                      && |r.value.0.heap| == |pop.heap| + |r.value.0.members| - |pop.members|
                      && r.value.0.heap[..|pop.heap|] == pop.heap
                      && r.value.0.members[..|pop.members|] == pop.members
  {
    if params.populationSize.None? then Err(Failure("Parameter 'PopulationSize' is null."))
    else if params.crossoverScale.None? then Err(Failure("Parameter 'CrossoverScale' is null."))
    else
      CrossoverLoop(pop, Iterations(CrossoverCount(params.populationSize.value, params.crossoverScale.value)),
                    Times(params.tournamentSize), rand, sqrt)
  }

  /** A tournament with at least one round over a non-empty population hands the
      crossover two of its members. */
  lemma {:induction false} TournamentPicksMembers(pop: Population, rounds: int, rand: Random)
    requires Valid(pop) && |pop.members| > 0 && rounds > 0
    ensures DrawRounds(pop, rounds, rand).Ok?
    ensures var w := Winners(DrawRounds(pop, rounds, rand).value.0);
            w.0.Some? && w.1.Some? && w.0.value in Paths(pop) && w.1.value in Paths(pop)
  {
    var draws := DrawRounds(pop, rounds, rand).value.0;
    WinnersFirstIsChampion(draws);
    var i := ChampionIsFirstMinimum(Firsts(draws));
    var j := WinnersSecondIsFirstCandidate(draws);
    assert Firsts(draws)[i] == draws[i].0;
  }

  /** Adding a sound tour keeps the population sound. */
  lemma AddNewSound(pop: Population, path: MapPath, points: seq<Point>, sqrt: real -> real)
    requires Valid(pop) && Sound(path, points, sqrt)
    ensures AllSound(pop, points, sqrt) ==> AllSound(AddNew(pop, path), points, sqrt)
  {
    var r := AddNew(pop, path);
    assert r.heap == pop.heap + [path];
    if AllSound(pop, points, sqrt) {
      forall id | 0 <= id < |r.heap| ensures Sound(r.heap[id], points, sqrt) {
        if id < |pop.heap| {
          assert r.heap[id] == pop.heap[id];
        }
      }
    }
  }

  /** `AddNewSound` for every map at once. */
  lemma AddNewKeepsSound(pop: Population, path: MapPath, sqrt: real -> real)
    requires Valid(pop)
    ensures forall points :: AllSound(pop, points, sqrt) && Sound(path, points, sqrt) ==> AllSound(AddNew(pop, path), points, sqrt)
  {
    forall points | AllSound(pop, points, sqrt) && Sound(path, points, sqrt)
      ensures AllSound(AddNew(pop, path), points, sqrt)
    {
      AddNewSound(pop, path, points, sqrt);
    }
  }

  /** A member of a sound population is a sound tour. */
  lemma MemberSound(pop: Population, path: MapPath, points: seq<Point>, sqrt: real -> real)
    requires AllSound(pop, points, sqrt) && path in Paths(pop)
    ensures Sound(path, points, sqrt)
  {
    var i :| 0 <= i < |Paths(pop)| && Paths(pop)[i] == path;
    assert path == pop.heap[pop.members[i]];
    assert Sound(pop.heap[pop.members[i]], points, sqrt);
  }

  /** The tournament over a population that can breed hands the crossover two of its
      members, and the crossover succeeds with a sound offspring. */
  lemma {:induction false} BreedingSound(pop: Population, rounds: int, rand: Random, sqrt: real -> real, points: seq<Point>)
    requires CanBreed(pop, rounds, points, sqrt)
    ensures DrawRounds(pop, rounds, rand).Ok?
    ensures var drawn := DrawRounds(pop, rounds, rand).value;
            var winners := Winners(drawn.0);
            && winners.0.Some? && winners.1.Some?
            && Crossover(winners.0.value, winners.1.value, drawn.1, sqrt).Ok?
            && Sound(Crossover(winners.0.value, winners.1.value, drawn.1, sqrt).value.0, points, sqrt)
  {
    TournamentPicksMembers(pop, rounds, rand);
    var drawn := DrawRounds(pop, rounds, rand).value;
    var winners := Winners(drawn.0);
    MemberSound(pop, winners.0.value, points, sqrt);
    MemberSound(pop, winners.1.value, points, sqrt);
    assert |winners.0.value.points| == |points| by {
      assert |multiset(winners.0.value.points)| == |multiset(points)|;
    }
    CrossoverPermutation(winners.0.value, winners.1.value, drawn.1, sqrt);
  }

  /** `BreedingSound` for every map at once. */
  lemma {:induction false} BreedingSucceeds(pop: Population, rounds: int, rand: Random, sqrt: real -> real)
    ensures forall points :: CanBreed(pop, rounds, points, sqrt) ==>
              && DrawRounds(pop, rounds, rand).Ok?
              && var drawn := DrawRounds(pop, rounds, rand).value;
                 var winners := Winners(drawn.0);
                 && winners.0.Some? && winners.1.Some?
                 && Crossover(winners.0.value, winners.1.value, drawn.1, sqrt).Ok?
                 && Sound(Crossover(winners.0.value, winners.1.value, drawn.1, sqrt).value.0, points, sqrt)
  {
    forall points | CanBreed(pop, rounds, points, sqrt)
      ensures && DrawRounds(pop, rounds, rand).Ok?
              && var drawn := DrawRounds(pop, rounds, rand).value;
                 var winners := Winners(drawn.0);
                 && winners.0.Some? && winners.1.Some?
                 && Crossover(winners.0.value, winners.1.value, drawn.1, sqrt).Ok?
                 && Sound(Crossover(winners.0.value, winners.1.value, drawn.1, sqrt).value.0, points, sqrt)
    {
      BreedingSound(pop, rounds, rand, sqrt, points);
    }
  }

  /** With no tournament rounds the winners stay null and the first crossover throws. */
  lemma {:induction false} NoRoundsThrows(pop: Population, remaining: nat, rand: Random, sqrt: real -> real)
    requires Valid(pop) && remaining > 0
    ensures CrossoverLoop(pop, remaining, 0, rand, sqrt) == Err(NullReference)
  {
  }

  // ---------------------------------------------------------------------------------
  // Mutation stage

  /** Rewriting a tour in place with a sound one, and listing it once more, keeps the
      population sound. */
  lemma RewriteKeepsSound(pop: Population, id: nat, t: MapPath, points: seq<Point>, sqrt: real -> real)
    requires AllSound(pop, points, sqrt) && id < |pop.heap| && Sound(t, points, sqrt)
    ensures AllSound(Population(pop.heap[id := t], pop.members + [id]), points, sqrt)
  {
    var next := Population(pop.heap[id := t], pop.members + [id]);
    forall k | 0 <= k < |next.heap| ensures Sound(next.heap[k], points, sqrt) {
      if k != id {
        assert next.heap[k] == pop.heap[k];
      }
    }
  }

  /** One iteration of the loop of `Mutations`: a member drawn at random is mutated in
      place and its reference is added again, so the object appears twice in the
      population. Drawing from an empty population gives 0, which is out of range. Over a
      non-empty sound population the step succeeds, and the object it rewrites in place
      is still sound, as is every other. */
  function MutationStep(pop: Population, rand: Random, sqrt: real -> real): (r: Result<(Population, Random)>)
    requires Valid(pop)
    ensures |pop.members| == 0 ==> r == Err(ArgumentOutOfRange)
    ensures r.Err? ==> r.error == ArgumentOutOfRange
    ensures r.Ok? ==> && Valid(r.value.0) && |r.value.0.heap| == |pop.heap|
                      && |r.value.0.members| == |pop.members| + 1
                      && r.value.0.members[..|pop.members|] == pop.members
    ensures r.Ok? ==> var id := r.value.0.members[|pop.members|];
                      && id in pop.members
                      && (forall j :: 0 <= j < |pop.heap| && j != id ==> r.value.0.heap[j] == pop.heap[j])
                      && Mutate(pop.heap[id], rand.Advance(), sqrt) == Ok((r.value.0.heap[id], r.value.1))
    ensures forall points :: AllSound(pop, points, sqrt) && |pop.members| > 0 ==> r.Ok? && AllSound(r.value.0, points, sqrt)
  {
    var drawn := rand.Next(0, |pop.members|).value;
    if drawn.0 >= |pop.members| then Err(ArgumentOutOfRange)
    else
      var id := pop.members[drawn.0];
      var mutated :- Mutate(pop.heap[id], drawn.1, sqrt);
      var next := Population(pop.heap[id := mutated.0], pop.members + [id]);
      assert forall points :: AllSound(pop, points, sqrt) ==> AllSound(next, points, sqrt) by {
        forall points | AllSound(pop, points, sqrt) ensures AllSound(next, points, sqrt) {
          RewriteKeepsSound(pop, id, mutated.0, points, sqrt);
        }
      }
      Ok((next, mutated.1))
  }

  /** The loop of `Mutations`; over a non-empty sound population it always succeeds and
      keeps every object sound, including the ones rewritten in place. */
  function MutationLoop(pop: Population, remaining: nat, rand: Random, sqrt: real -> real): (r: Result<(Population, Random)>)
    requires Valid(pop)
    ensures r.Ok? ==> && Valid(r.value.0) && |r.value.0.members| == |pop.members| + remaining
                      && |r.value.0.heap| == |pop.heap|
                      && r.value.0.members[..|pop.members|] == pop.members
    ensures forall points :: AllSound(pop, points, sqrt) && |pop.members| > 0 ==> r.Ok? && AllSound(r.value.0, points, sqrt)
    decreases remaining
  {
    if remaining == 0 then Ok((pop, rand))
    else
      var next :- MutationStep(pop, rand, sqrt);
      MutationLoop(next.0, remaining - 1, next.1, sqrt)
  }

  /** `Mutations`: the two null checks, the mutation count, then the loop. The message for
      a null `MutationScale` names `CrossoverScale`, as the code has it. */
  function Mutations(pop: Population, params: Parameters, rand: Random, sqrt: real -> real): (r: Result<(Population, Random)>)
    requires Valid(pop)
    ensures params.populationSize.None? ==> r == Err(Failure("Parameter 'PopulationSize' is null."))
    ensures params.populationSize.Some? && params.mutationScale.None? ==> r == Err(Failure("Parameter 'CrossoverScale' is null."))
    ensures r.Ok? ==> && params.populationSize.Some? && params.mutationScale.Some? && Valid(r.value.0)
                      && |r.value.0.members|
                         == |pop.members| + Iterations(MutationCount(params.populationSize.value, params.mutationScale.value))
                      && |r.value.0.heap| == |pop.heap|
                      && r.value.0.members[..|pop.members|] == pop.members
  {
    if params.populationSize.None? then Err(Failure("Parameter 'PopulationSize' is null."))
    else if params.mutationScale.None? then Err(Failure("Parameter 'CrossoverScale' is null."))
    else
      MutationLoop(pop, Iterations(MutationCount(params.populationSize.value, params.mutationScale.value)), rand, sqrt)
  }

  // ---------------------------------------------------------------------------------
  // Epochs and GetPath

  /** The first two stages of `Epoch`: crossovers, then mutations. The population grows
      at its end; the references it held stay in front. */
  function Breed(pop: Population, params: Parameters, rand: Random, sqrt: real -> real): (r: Result<(Population, Random)>)
    requires Valid(pop)
    ensures r.Ok? ==> && Valid(r.value.0) && |pop.members| <= |r.value.0.members|
                      && r.value.0.members[..|pop.members|] == pop.members
  {
    var crossed :- Crossovers(pop, params, rand, sqrt);
    Mutations(crossed.0, params, crossed.1, sqrt)
  }

  /** `Epoch`: crossovers, mutations, natural selection. */
  function Epoch(pop: Population, params: Parameters, rand: Random, sqrt: real -> real): (r: Result<(Population, Random)>)
    requires Valid(pop)
    ensures r.Ok? ==> Valid(r.value.0) && |r.value.0.members| == Times(params.populationSize)
  {
    var bred :- Breed(pop, params, rand, sqrt);
    var selected :- NaturalSelection(bred.0, params.populationSize, sqrt);
    Ok((selected, bred.1))
  }

  /** The settings under which the solver runs to completion: none null, a population of
      at least one tour and at least one tournament round. */
  predicate Runnable(params: Parameters) {
    && !HasNulls(params)
    && params.populationSize.value >= 1
    && params.tournamentSize.value >= 1
  }

  /** Natural selection keeps a sound population sound. */
  lemma SelectionSound(pop: Population, size: Option<int32>, sqrt: real -> real, points: seq<Point>)
    requires AllSound(pop, points, sqrt) && Times(size) <= |pop.members|
    ensures NaturalSelection(pop, size, sqrt).Ok?
    ensures AllSound(NaturalSelection(pop, size, sqrt).value, points, sqrt)
  {
    assert !SortThrows(pop) by {
      forall i | 0 <= i < |pop.members| ensures |Member(pop, i).points| > 0 {
        assert Sound(pop.heap[pop.members[i]], points, sqrt);
      }
    }
  }

  /** Under runnable settings, breeding a sound population of `PopulationSize`
      duplicate-free tours succeeds, keeps every object sound, and leaves at least
      `PopulationSize` references for the selection. */
  lemma BreedSound(pop: Population, params: Parameters, rand: Random, sqrt: real -> real, points: seq<Point>)
    requires Runnable(params) && NoDuplicates(points) && |points| >= 2
    requires AllSound(pop, points, sqrt) && |pop.members| == Times(params.populationSize)
    ensures Breed(pop, params, rand, sqrt).Ok?
    ensures AllSound(Breed(pop, params, rand, sqrt).value.0, points, sqrt)
    ensures Times(params.populationSize) <= |Breed(pop, params, rand, sqrt).value.0.members|
  {
    assert CanBreed(pop, Times(params.tournamentSize), points, sqrt);
    var crossed := Crossovers(pop, params, rand, sqrt).value;
    assert AllSound(crossed.0, points, sqrt) && |crossed.0.members| > 0;
  }

  /** Under runnable settings, an epoch over a sound population of `PopulationSize`
      duplicate-free tours succeeds and leaves a sound population of the same size. */
  lemma EpochSound(pop: Population, params: Parameters, rand: Random, sqrt: real -> real, points: seq<Point>)
    requires Runnable(params) && NoDuplicates(points) && |points| >= 2
    requires AllSound(pop, points, sqrt) && |pop.members| == Times(params.populationSize)
    ensures Epoch(pop, params, rand, sqrt).Ok?
    ensures AllSound(Epoch(pop, params, rand, sqrt).value.0, points, sqrt)
  {
    BreedSound(pop, params, rand, sqrt, points);
    SelectionSound(Breed(pop, params, rand, sqrt).value.0, params.populationSize, sqrt, points);
  }

  /** No cancellation has been requested by the polls after epochs `from` to `to - 1`. */
  predicate NeverCancelled(cancelled: nat -> bool, from: nat, to: nat)
    decreases if from < to then to - from else 0
  {
    from >= to || (!cancelled(from) && NeverCancelled(cancelled, from + 1, to))
  }

  /** `NeverCancelled` says that every poll in the range finds no request. */
  lemma {:induction false} NeverCancelledEveryPoll(cancelled: nat -> bool, from: nat, to: nat)
    ensures NeverCancelled(cancelled, from, to) <==> (forall k :: from <= k < to ==> !cancelled(k))
    decreases if from < to then to - from else 0
  {
    if from < to {
      NeverCancelledEveryPoll(cancelled, from + 1, to);
      assert (forall k :: from <= k < to ==> !cancelled(k))
             <==> !cancelled(from) && (forall k :: from + 1 <= k < to ==> !cancelled(k));
    }
  }

  /** The epoch loop of `GetPath`: after epoch `i` the token is polled, and a requested
      cancellation throws. `cancelled(i)` tells whether cancellation has been requested by
      then. */
  function RunEpochs(pop: Population, params: Parameters, i: nat, epochs: nat, cancelled: nat -> bool,
                     rand: Random, sqrt: real -> real): (r: Result<Population>)
    requires Valid(pop)
    ensures r.Ok? && i < epochs ==> |r.value.members| == Times(params.populationSize)
    ensures r.Ok? ==> Valid(r.value)
    ensures r.Ok? ==> NeverCancelled(cancelled, i, epochs)
    decreases epochs - i
  {
    if i >= epochs then Ok(pop)
    else
      var next :- Epoch(pop, params, rand, sqrt);
      if cancelled(i) then Err(OperationCanceled)
      else RunEpochs(next.0, params, i + 1, epochs, cancelled, next.1, sqrt)
  }

  /** `GetPath`: initialise, run the epochs, return the first member of the population,
      the cheapest after the last natural selection. The initialisation is the corrected
      one, `InitializePopulation`, with one list per member; the code as written shares
      one list among all members (`InitializeSharedList`). */
  function GetPath(cities: Map, params: Parameters, cancelled: nat -> bool, rand: Random, sqrt: real -> real): (r: Result<MapPath>)
    ensures Times(params.populationSize) > 0 && |cities.points| == 0 ==> r == Err(ArgumentOutOfRange)
    ensures Times(params.populationSize) == 0 && Times(params.epochCount) == 0 ==> r == Err(ArgumentOutOfRange)
    ensures r.Ok? ==> NeverCancelled(cancelled, 0, Times(params.epochCount))
  {
    var init :- InitializePopulation(cities, params.populationSize, rand, sqrt);
    var last :- RunEpochs(init.0, params, 0, Times(params.epochCount), cancelled, init.1, sqrt);
    if |last.members| == 0 then Err(ArgumentOutOfRange) else Ok(Member(last, 0))
  }

  /** With no epochs the answer is the first tour of the initial population. */
  lemma GetPathNoEpochs(cities: Map, params: Parameters, cancelled: nat -> bool, rand: Random, sqrt: real -> real)
    requires Times(params.epochCount) == 0 && Times(params.populationSize) > 0 && |cities.points| > 0
    ensures GetPath(cities, params, cancelled, rand, sqrt)
            == Ok(Member(InitializePopulation(cities, params.populationSize, rand, sqrt).value.0, 0))
  {
  }

  lemma {:induction false} RunEpochsSound(pop: Population, params: Parameters, i: nat, epochs: nat, cancelled: nat -> bool,
                                          rand: Random, sqrt: real -> real, points: seq<Point>)
    requires Runnable(params) && NoDuplicates(points) && |points| >= 2
    requires AllSound(pop, points, sqrt) && |pop.members| == Times(params.populationSize)
    requires NeverCancelled(cancelled, i, epochs)
    ensures RunEpochs(pop, params, i, epochs, cancelled, rand, sqrt).Ok?
    ensures AllSound(RunEpochs(pop, params, i, epochs, cancelled, rand, sqrt).value, points, sqrt)
    ensures |RunEpochs(pop, params, i, epochs, cancelled, rand, sqrt).value.members| == Times(params.populationSize)
    decreases epochs - i
  {
    if i < epochs {
      EpochSound(pop, params, rand, sqrt, points);
      var next := Epoch(pop, params, rand, sqrt).value;
      RunEpochsSound(next.0, params, i + 1, epochs, cancelled, next.1, sqrt, points);
    }
  }

  /** From a sound population the epochs never fail: the loop ends in
      `OperationCanceledException` exactly when one of its polls finds a cancellation
      request, and in nothing else. */
  lemma {:induction false} RunEpochsOnlyCancels(pop: Population, params: Parameters, i: nat, epochs: nat, cancelled: nat -> bool,
                                                rand: Random, sqrt: real -> real, points: seq<Point>)
    requires Runnable(params) && NoDuplicates(points) && |points| >= 2
    requires AllSound(pop, points, sqrt) && |pop.members| == Times(params.populationSize)
    ensures RunEpochs(pop, params, i, epochs, cancelled, rand, sqrt).Ok? <==> NeverCancelled(cancelled, i, epochs)
    ensures RunEpochs(pop, params, i, epochs, cancelled, rand, sqrt).Err?
            ==> RunEpochs(pop, params, i, epochs, cancelled, rand, sqrt).error == OperationCanceled
    decreases epochs - i
  {
    if i < epochs {
      EpochSound(pop, params, rand, sqrt, points);
      var next := Epoch(pop, params, rand, sqrt).value;
      RunEpochsOnlyCancels(next.0, params, i + 1, epochs, cancelled, next.1, sqrt, points);
    }
  }

  /** `GetPath` throws `OperationCanceledException` when a poll after one of its epochs
      finds a cancellation request, and only then. */
  lemma GetPathCancelled(cities: Map, params: Parameters, cancelled: nat -> bool, rand: Random, sqrt: real -> real, k: nat)
    requires NoDuplicates(cities.points) && |cities.points| >= 2
    requires Runnable(params)
    requires k < Times(params.epochCount) && cancelled(k)
    ensures GetPath(cities, params, cancelled, rand, sqrt) == Err(OperationCanceled)
  {
    var init := InitializePopulation(cities, params.populationSize, rand, sqrt).value;
    RunEpochsOnlyCancels(init.0, params, 0, Times(params.epochCount), cancelled, init.1, sqrt, cities.points);
    NeverCancelledEveryPoll(cancelled, 0, Times(params.epochCount));
  }

  /** With the corrected initialisation, for a map of at least two distinct points,
      runnable settings and no cancellation, `GetPath` returns a tour that visits every
      point of the map exactly once and whose cached cost is its true cost. With the shared
      list as written the cached cost can be stale (`SharedListStaleCost`). */
  lemma GetPathSound(cities: Map, params: Parameters, cancelled: nat -> bool, rand: Random, sqrt: real -> real)
    requires NoDuplicates(cities.points) && |cities.points| >= 2
    requires Runnable(params)
    requires NeverCancelled(cancelled, 0, Times(params.epochCount))
    ensures GetPath(cities, params, cancelled, rand, sqrt).Ok?
    ensures multiset(GetPath(cities, params, cancelled, rand, sqrt).value.points) == multiset(cities.points)
    ensures GetPath(cities, params, cancelled, rand, sqrt).value.manualCost
            == TourCost(GetPath(cities, params, cancelled, rand, sqrt).value.points, sqrt)
  {
    var init := InitializePopulation(cities, params.populationSize, rand, sqrt).value;
    RunEpochsSound(init.0, params, 0, Times(params.epochCount), cancelled, init.1, sqrt, cities.points);
    var last := RunEpochs(init.0, params, 0, Times(params.epochCount), cancelled, init.1, sqrt).value;
    assert Sound(last.heap[last.members[0]], cities.points, sqrt);
  }

  /** The population the last natural selection of the epoch loop ranks: what the last
      epoch bred, before it was cut down to `PopulationSize`. */
  function LastRanked(pop: Population, params: Parameters, i: nat, epochs: nat, cancelled: nat -> bool,
                      rand: Random, sqrt: real -> real): (r: Result<Population>)
    requires Valid(pop) && i < epochs
    ensures r.Ok? ==> Valid(r.value)
    decreases epochs - i
  {
    var bred :- Breed(pop, params, rand, sqrt);
    var next :- Epoch(pop, params, rand, sqrt);
    if i + 1 == epochs then Ok(bred.0)
    else if cancelled(i) then Err(OperationCanceled)
    else LastRanked(next.0, params, i + 1, epochs, cancelled, next.1, sqrt)
  }

  /** After an epoch, `Population[0]` costs no more than any tour the epoch's selection
      ranked; the survivors are objects of the bred population. */
  lemma EpochCheapestFirst(pop: Population, params: Parameters, rand: Random, sqrt: real -> real)
    requires Valid(pop) && Epoch(pop, params, rand, sqrt).Ok? && Times(params.populationSize) >= 1
    ensures Breed(pop, params, rand, sqrt).Ok?
    ensures var bred := Breed(pop, params, rand, sqrt).value.0;
            var kept := Epoch(pop, params, rand, sqrt).value.0;
            && kept.heap == bred.heap && |kept.members| > 0
            && forall j :: 0 <= j < |bred.members| ==>
                 CostKey(bred.heap, sqrt)(kept.members[0]) <= CostKey(bred.heap, sqrt)(bred.members[j])
  {
    SelectionHeadCheapest(Breed(pop, params, rand, sqrt).value.0, params.populationSize, sqrt);
  }

  /** `last[0]` costs no more than any tour of `ranked`. */
  predicate HeadCheapest(last: Population, ranked: Population, sqrt: real -> real) {
    && Valid(last) && Valid(ranked) && |last.members| > 0 && |Member(last, 0).points| > 0
    && forall j :: 0 <= j < |ranked.members| ==>
         && |Member(ranked, j).points| > 0
         && TourCost(Member(last, 0).points, sqrt) <= TourCost(Member(ranked, j).points, sqrt)
  }

  /** Over a sound population, an epoch keeps first a tour that costs no more than any
      tour it bred. */
  lemma LastEpochCheapest(pop: Population, params: Parameters, rand: Random, sqrt: real -> real, points: seq<Point>)
    requires Runnable(params) && NoDuplicates(points) && |points| >= 2
    requires AllSound(pop, points, sqrt) && |pop.members| == Times(params.populationSize)
    ensures Breed(pop, params, rand, sqrt).Ok? && Epoch(pop, params, rand, sqrt).Ok?
    ensures HeadCheapest(Epoch(pop, params, rand, sqrt).value.0, Breed(pop, params, rand, sqrt).value.0, sqrt)
  {
    BreedSound(pop, params, rand, sqrt, points);
    EpochSound(pop, params, rand, sqrt, points);
    EpochCheapestFirst(pop, params, rand, sqrt);
    var bred := Breed(pop, params, rand, sqrt).value.0;
    var next := Epoch(pop, params, rand, sqrt).value;
    forall j | 0 <= j < |bred.members|
      ensures && |Member(bred, j).points| > 0
              && TourCost(Member(next.0, 0).points, sqrt) <= TourCost(Member(bred, j).points, sqrt)
    {
      assert Sound(bred.heap[bred.members[j]], points, sqrt);
      assert Sound(bred.heap[next.0.members[0]], points, sqrt);
    }
  }

  /** Over a sound population and without cancellation, the loop ends with a population
      whose first tour costs no more than any tour the last selection ranked. */
  lemma {:induction false} RunEpochsCheapest(pop: Population, params: Parameters, i: nat, epochs: nat, cancelled: nat -> bool,
                                             rand: Random, sqrt: real -> real, points: seq<Point>)
    requires Runnable(params) && NoDuplicates(points) && |points| >= 2
    requires AllSound(pop, points, sqrt) && |pop.members| == Times(params.populationSize)
    requires NeverCancelled(cancelled, i, epochs) && i < epochs
    ensures RunEpochs(pop, params, i, epochs, cancelled, rand, sqrt).Ok?
    ensures LastRanked(pop, params, i, epochs, cancelled, rand, sqrt).Ok?
    ensures HeadCheapest(RunEpochs(pop, params, i, epochs, cancelled, rand, sqrt).value,
                         LastRanked(pop, params, i, epochs, cancelled, rand, sqrt).value, sqrt)
    decreases epochs - i
  {
    EpochSound(pop, params, rand, sqrt, points);
    var next := Epoch(pop, params, rand, sqrt).value;
    if i + 1 == epochs {
      LastEpochCheapest(pop, params, rand, sqrt, points);
      assert RunEpochs(pop, params, i, epochs, cancelled, rand, sqrt) == Ok(next.0);
      assert LastRanked(pop, params, i, epochs, cancelled, rand, sqrt) == Ok(Breed(pop, params, rand, sqrt).value.0);
    } else {
      RunEpochsCheapest(next.0, params, i + 1, epochs, cancelled, next.1, sqrt, points);
      assert RunEpochs(pop, params, i, epochs, cancelled, rand, sqrt) == RunEpochs(next.0, params, i + 1, epochs, cancelled, next.1, sqrt);
      assert LastRanked(pop, params, i, epochs, cancelled, rand, sqrt) == LastRanked(next.0, params, i + 1, epochs, cancelled, next.1, sqrt);
    }
  }

  /** With at least one epoch and no cancellation, the answer costs no more than any tour
      the last natural selection ranked: it is the cheapest tour of the last generation. */
  lemma GetPathCheapest(cities: Map, params: Parameters, cancelled: nat -> bool, rand: Random, sqrt: real -> real)
    requires NoDuplicates(cities.points) && |cities.points| >= 2
    requires Runnable(params) && Times(params.epochCount) >= 1
    requires NeverCancelled(cancelled, 0, Times(params.epochCount))
    ensures GetPath(cities, params, cancelled, rand, sqrt).Ok?
    ensures var init := InitializePopulation(cities, params.populationSize, rand, sqrt).value;
            var ranked := LastRanked(init.0, params, 0, Times(params.epochCount), cancelled, init.1, sqrt);
            var answer := GetPath(cities, params, cancelled, rand, sqrt).value;
            && ranked.Ok? && |answer.points| > 0
            && forall j :: 0 <= j < |ranked.value.members| ==>
                 && |Member(ranked.value, j).points| > 0
                 && TourCost(answer.points, sqrt) <= TourCost(Member(ranked.value, j).points, sqrt)
  {
    var init := InitializePopulation(cities, params.populationSize, rand, sqrt).value;
    GetPathSound(cities, params, cancelled, rand, sqrt);
    RunEpochsCheapest(init.0, params, 0, Times(params.epochCount), cancelled, init.1, sqrt, cities.points);
    var last := RunEpochs(init.0, params, 0, Times(params.epochCount), cancelled, init.1, sqrt).value;
    assert GetPath(cities, params, cancelled, rand, sqrt) == Ok(Member(last, 0));
  }
}
