/** The two selection steps of TspGeneticEvolution (TSP/Solver/TspGeneticEvolution.cs):
    the tournament that picks the parents of each crossover, and `NaturalSelection`, which
    keeps the cheapest `PopulationSize` tours. */
module Selection {
  import opened Results
  import opened Rand
  import opened Points
  import opened MapPaths
  import opened Tours
  import opened GeneticParameters
  import opened Populations

  /** The two candidates drawn in one round of a tournament. */
  type Round = (MapPath, MapPath)

  /** The candidates of `rounds` rounds: two draws of `Population[random.Next(0, Count)]`
      per round. An empty population fails on `Population[0]`. */
  function DrawRounds(pop: Population, rounds: int, rand: Random): (r: Result<(seq<Round>, Random)>)
    requires Valid(pop)
    ensures r.Ok? <==> rounds <= 0 || |pop.members| > 0
    ensures r.Err? ==> r.error == ArgumentOutOfRange
    ensures r.Ok? ==> |r.value.0| == (if rounds <= 0 then 0 else rounds)
    ensures r.Ok? ==> forall k :: 0 <= k < |r.value.0| ==> r.value.0[k].0 in Paths(pop) && r.value.0[k].1 in Paths(pop)
    decreases rounds
  {
    if rounds <= 0 then Ok(([], rand))
    else if |pop.members| == 0 then Err(ArgumentOutOfRange)
    else
      var first := rand.Pick(0, |pop.members|);
      var second := first.1.Pick(0, |pop.members|);
      assert Paths(pop)[first.0] == Member(pop, first.0) && Paths(pop)[second.0] == Member(pop, second.0);
      var rest := DrawRounds(pop, rounds - 1, second.1).value;
      Ok(([(Member(pop, first.0), Member(pop, second.0))] + rest.0, rest.1))
  }

  /** One tournament slot: the candidate whose `ManualCost` is strictly below the current
      winner's replaces it; the first candidate always wins an empty slot. */
  function Champion(candidates: seq<MapPath>): (r: Option<MapPath>)
    ensures r.Some? <==> |candidates| > 0
    decreases |candidates|
  {
    if |candidates| == 0 then None
    else
      var w := Champion(candidates[..|candidates| - 1]);
      var c := candidates[|candidates| - 1];
      if w.None? || c.manualCost < w.value.manualCost then Some(c) else w
  }

  /** The champion is the first candidate of least cost. */
  lemma {:induction false} ChampionIsFirstMinimum(candidates: seq<MapPath>) returns (j: nat)
    requires |candidates| > 0
    ensures j < |candidates| && Champion(candidates) == Some(candidates[j])
    ensures forall i :: 0 <= i < |candidates| ==> candidates[j].manualCost <= candidates[i].manualCost
    ensures forall i :: 0 <= i < j ==> candidates[j].manualCost < candidates[i].manualCost
    decreases |candidates|
  {
    var n := |candidates|;
    var init := candidates[..n - 1];
    if n == 1 {
      j := 0;
    } else {
      var k := ChampionIsFirstMinimum(init);
      assert forall i :: 0 <= i < n - 1 ==> init[i] == candidates[i];
      if candidates[n - 1].manualCost < candidates[k].manualCost {
        j := n - 1;
      } else {
        j := k;
      }
    }
  }

  function Firsts(rounds: seq<Round>): (r: seq<MapPath>)
    ensures |r| == |rounds| && forall i :: 0 <= i < |rounds| ==> r[i] == rounds[i].0
  {
    seq(|rounds|, i requires 0 <= i < |rounds| => rounds[i].0)
  }

  function Seconds(rounds: seq<Round>): (r: seq<MapPath>)
    ensures |r| == |rounds| && forall i :: 0 <= i < |rounds| ==> r[i] == rounds[i].1
  {
    seq(|rounds|, i requires 0 <= i < |rounds| => rounds[i].1)
  }

  /** The tournament loop as written: `winner2` is compared against the second candidate
      but is assigned the first one. */
  function Winners(rounds: seq<Round>): (r: (Option<MapPath>, Option<MapPath>))
    ensures r.0.Some? <==> |rounds| > 0
    ensures r.1.Some? <==> |rounds| > 0
    decreases |rounds|
  {
    if |rounds| == 0 then (None, None)
    else
      var w := Winners(rounds[..|rounds| - 1]);
      var c := rounds[|rounds| - 1];
      (if w.0.None? || c.0.manualCost < w.0.value.manualCost then Some(c.0) else w.0,
       if w.1.None? || c.1.manualCost < w.1.value.manualCost then Some(c.0) else w.1)
  }

  /** The tournament loop as its comment describes it: each slot keeps the cheapest of
      its own candidates. */
  function IntendedWinners(rounds: seq<Round>): (r: (Option<MapPath>, Option<MapPath>))
    ensures r.0.Some? <==> |rounds| > 0
    ensures r.1.Some? <==> |rounds| > 0
    decreases |rounds|
  {
    if |rounds| == 0 then (None, None)
    else
      var w := IntendedWinners(rounds[..|rounds| - 1]);
      var c := rounds[|rounds| - 1];
      (if w.0.None? || c.0.manualCost < w.0.value.manualCost then Some(c.0) else w.0,
       if w.1.None? || c.1.manualCost < w.1.value.manualCost then Some(c.1) else w.1)
  }

  /** As written, the first parent is still the champion of the first candidates. */
  lemma {:induction false} WinnersFirstIsChampion(rounds: seq<Round>)
    ensures Winners(rounds).0 == Champion(Firsts(rounds))
    decreases |rounds|
  {
    if |rounds| > 0 {
      var n := |rounds|;
      WinnersFirstIsChampion(rounds[..n - 1]);
      assert Firsts(rounds)[..n - 1] == Firsts(rounds[..n - 1]);
    }
  }

  /** As written, the second parent is always one of the first candidates. */
  lemma {:induction false} WinnersSecondIsFirstCandidate(rounds: seq<Round>) returns (j: nat)
    requires |rounds| > 0
    ensures j < |rounds| && Winners(rounds).1 == Some(rounds[j].0)
    decreases |rounds|
  {
    var n := |rounds|;
    if n == 1 {
      j := 0;
    } else {
      var k := WinnersSecondIsFirstCandidate(rounds[..n - 1]);
      var w2 := Winners(rounds[..n - 1]).1;
      if rounds[n - 1].1.manualCost < w2.value.manualCost {
        j := n - 1;
      } else {
        j := k;
      }
    }
  }

  /** With a tournament of one round, as written, both parents are the same tour, whatever
      the second candidate costs; the intended loop pairs the two candidates. */
  lemma OneRoundSelfCrossover(c1: MapPath, c2: MapPath)
    ensures Winners([(c1, c2)]) == (Some(c1), Some(c1))
    ensures IntendedWinners([(c1, c2)]) == (Some(c1), Some(c2))
  {
    assert [(c1, c2)][..0] == [];
  }

  /** The intended loop makes each parent the champion of its own candidates. */
  lemma {:induction false} IntendedWinnersAreChampions(rounds: seq<Round>)
    ensures IntendedWinners(rounds) == (Champion(Firsts(rounds)), Champion(Seconds(rounds)))
    decreases |rounds|
  {
    if |rounds| > 0 {
      var n := |rounds|;
      IntendedWinnersAreChampions(rounds[..n - 1]);
      assert Firsts(rounds)[..n - 1] == Firsts(rounds[..n - 1]);
      assert Seconds(rounds)[..n - 1] == Seconds(rounds[..n - 1]);
    }
  }

  /** `GetCost` as the sort's key of object `id`. Objects of the model are never empty
      when the key is used (see `NaturalSelection`). */
  function Key(heap: seq<MapPath>, id: nat, sqrt: real -> real): real {
    if id < |heap| && |heap[id].points| > 0 then TourCost(heap[id].points, sqrt) else 0.0
  }

  /** Non-decreasing by key. */
  predicate Sorted(s: seq<nat>, key: nat -> real) {
    forall i, j :: 0 <= i < j < |s| ==> key(s[i]) <= key(s[j])
  }

  /** Inserts `x` before the first element of at least its key. */
  function Insert(x: nat, s: seq<nat>, key: nat -> real): (r: seq<nat>)
    requires Sorted(s, key)
    ensures multiset(r) == multiset(s) + multiset{x}
    ensures |r| == |s| + 1
    ensures Sorted(r, key)
    decreases |s|
  {
    if |s| == 0 then [x]
    else if key(x) <= key(s[0]) then
      SortedCons(x, s, key);
      [x] + s
    else
      SortedTail(s, key);
      var rest := Insert(x, s[1..], key);
      assert s == [s[0]] + s[1..];
      BoundKept(x, s[1..], rest, key, key(s[0]));
      SortedCons(s[0], rest, key);
      [s[0]] + rest
  }

  /** The tail of a sorted sequence is sorted, and no cheaper than its head. */
  lemma SortedTail(s: seq<nat>, key: nat -> real)
    requires Sorted(s, key) && |s| > 0
    ensures Sorted(s[1..], key)
    ensures forall i :: 0 <= i < |s[1..]| ==> key(s[0]) <= key(s[1..][i])
  {
    forall i, j | 0 <= i < j < |s[1..]| ensures key(s[1..][i]) <= key(s[1..][j]) {
      assert s[1..][i] == s[i + 1] && s[1..][j] == s[j + 1];
    }
    forall i | 0 <= i < |s[1..]| ensures key(s[0]) <= key(s[1..][i]) {
      assert s[1..][i] == s[i + 1];
    }
  }

  /** A head no dearer than the first of a sorted sequence keeps it sorted. */
  lemma SortedCons(h: nat, t: seq<nat>, key: nat -> real)
    requires Sorted(t, key)
    requires forall i :: 0 <= i < |t| ==> key(h) <= key(t[i])
    ensures Sorted([h] + t, key)
  {
    var r := [h] + t;
    forall i, j | 0 <= i < j < |r| ensures key(r[i]) <= key(r[j]) {
      assert r[j] == t[j - 1];
      if i > 0 {
        assert r[i] == t[i - 1];
      }
    }
  }

  /** A lower bound on the key of `x` and of every element of `s` bounds every element of
      a sequence drawn from them. */
  lemma BoundKept(x: nat, s: seq<nat>, r: seq<nat>, key: nat -> real, bound: real)
    requires multiset(r) == multiset(s) + multiset{x}
    requires bound <= key(x) && forall i :: 0 <= i < |s| ==> bound <= key(s[i])
    ensures forall i :: 0 <= i < |r| ==> bound <= key(r[i])
  {
    forall i | 0 <= i < |r| ensures bound <= key(r[i]) {
      assert r[i] in multiset(r);
      if r[i] != x {
        assert r[i] in multiset(s);
        var j :| 0 <= j < |s| && s[j] == r[i];
      }
    }
  }

  /** An insertion sort by key, stable: each element goes before the first of the sorted
      rest whose key is at least its own. */
  function SortBy(s: seq<nat>, key: nat -> real): (r: seq<nat>)
    ensures multiset(r) == multiset(s) && |r| == |s|
    ensures Sorted(r, key)
    decreases |s|
  {
    if |s| == 0 then []
    else
      assert s == [s[0]] + s[1..];
      Insert(s[0], SortBy(s[1..], key), key)
  }

  /** The sort key of `NaturalSelection`: `GetCost` of the object `id`. */
  function CostKey(heap: seq<MapPath>, sqrt: real -> real): nat -> real {
    (id: nat) => Key(heap, id, sqrt)
  }

  /** `List.Sort` runs the comparer, and so `GetCost`, on every element once there are two
      or more, and `GetCost` of an empty tour throws. */
  predicate SortThrows(pop: Population)
    requires Valid(pop)
  {
    |pop.members| >= 2 && exists i :: 0 <= i < |pop.members| && |Member(pop, i).points| == 0
  }

  /** A prefix of a sorted sequence is sorted and draws on the whole. */
  lemma SortedPrefix(sorted: seq<nat>, k: nat, key: nat -> real)
    requires Sorted(sorted, key) && k <= |sorted|
    ensures Sorted(sorted[..k], key)
    ensures multiset(sorted[..k]) <= multiset(sorted)
  {
    assert sorted == sorted[..k] + sorted[k..];
  }

  /** References drawn from a valid population are valid. */
  lemma SubsetValid(pop: Population, members: seq<nat>)
    requires Valid(pop) && multiset(members) <= multiset(pop.members)
    ensures Valid(pop.(members := members))
  {
    forall i | 0 <= i < |members| ensures members[i] < |pop.heap| {
      assert members[i] in multiset(pop.members);
    }
  }

  /** `NaturalSelection`: sort by cost, then copy the first `PopulationSize` references. */
  function NaturalSelection(pop: Population, size: Option<int32>, sqrt: real -> real): (r: Result<Population>)
    requires Valid(pop)
    ensures SortThrows(pop) ==> r == Err(InvalidOperation)
    ensures !SortThrows(pop) ==> (r.Ok? <==> Times(size) <= |pop.members|)
    ensures r.Err? && !SortThrows(pop) ==> r.error == ArgumentOutOfRange
    ensures r.Ok? ==> && Valid(r.value) && r.value.heap == pop.heap
                      && |r.value.members| == Times(size)
                      && Sorted(r.value.members, CostKey(pop.heap, sqrt))
                      && multiset(r.value.members) <= multiset(pop.members)
  {
    if SortThrows(pop) then Err(InvalidOperation)
    else
      var sorted := SortBy(pop.members, CostKey(pop.heap, sqrt));
      if Times(size) > |sorted| then Err(ArgumentOutOfRange)
      else
        var kept := sorted[..Times(size)];
        SortedPrefix(sorted, Times(size), CostKey(pop.heap, sqrt));
        SubsetValid(pop, kept);
        Ok(pop.(members := kept))
  }

  /** In a sorted sequence, the prefix is no dearer than the rest. */
  lemma SortedSplit(sorted: seq<nat>, k: nat, key: nat -> real)
    requires Sorted(sorted, key) && k <= |sorted|
    ensures forall x, y :: x in sorted[..k] && y in multiset(sorted[k..]) ==> key(x) <= key(y)
  {
    forall x, y | x in sorted[..k] && y in multiset(sorted[k..])
      ensures key(x) <= key(y)
    {
      var i :| 0 <= i < k && sorted[..k][i] == x;
      var j :| 0 <= j < |sorted| - k && sorted[k..][j] == y;
      assert sorted[i] == x && sorted[k + j] == y;
    }
  }

  /** What `NaturalSelection` keeps is the head of the sorted references. */
  lemma SelectionIsPrefix(pop: Population, size: Option<int32>, sqrt: real -> real)
    requires Valid(pop)
    requires NaturalSelection(pop, size, sqrt).Ok?
    ensures Times(size) <= |pop.members|
    ensures NaturalSelection(pop, size, sqrt).value.members == SortBy(pop.members, CostKey(pop.heap, sqrt))[..Times(size)]
  {
  }

  /** The head of a sorted reordering of `s` is no dearer than what it leaves of `s`. */
  lemma SortedHeadCheapest(s: seq<nat>, sorted: seq<nat>, k: nat, key: nat -> real)
    requires Sorted(sorted, key) && multiset(sorted) == multiset(s) && k <= |sorted|
    ensures forall x, y :: x in sorted[..k] && y in multiset(s) - multiset(sorted[..k]) ==> key(x) <= key(y)
  {
    assert multiset(s) - multiset(sorted[..k]) == multiset(sorted[k..]) by {
      assert sorted == sorted[..k] + sorted[k..];
    }
    SortedSplit(sorted, k, key);
  }

  /** Every tour `NaturalSelection` keeps costs at most as much as every tour it drops. */
  lemma SelectionKeepsCheapest(pop: Population, size: Option<int32>, sqrt: real -> real)
    requires Valid(pop)
    requires NaturalSelection(pop, size, sqrt).Ok?
    ensures var kept := NaturalSelection(pop, size, sqrt).value.members;
            forall x, y :: x in kept && y in multiset(pop.members) - multiset(kept) ==>
              CostKey(pop.heap, sqrt)(x) <= CostKey(pop.heap, sqrt)(y)
  {
    SelectionIsPrefix(pop, size, sqrt);
    SortedHeadCheapest(pop.members, SortBy(pop.members, CostKey(pop.heap, sqrt)), Times(size), CostKey(pop.heap, sqrt));
  }

  /** The first tour `NaturalSelection` keeps, `Population[0]` afterwards, costs no more
      than any tour it ranked. */
  lemma SelectionHeadCheapest(pop: Population, size: Option<int32>, sqrt: real -> real)
    requires Valid(pop)
    requires NaturalSelection(pop, size, sqrt).Ok? && Times(size) >= 1
    ensures var kept := NaturalSelection(pop, size, sqrt).value.members;
            forall j :: 0 <= j < |pop.members| ==> CostKey(pop.heap, sqrt)(kept[0]) <= CostKey(pop.heap, sqrt)(pop.members[j])
  {
    var key := CostKey(pop.heap, sqrt);
    var sorted := SortBy(pop.members, key);
    SelectionIsPrefix(pop, size, sqrt);
    forall j | 0 <= j < |pop.members| ensures key(sorted[0]) <= key(pop.members[j]) {
      assert pop.members[j] in multiset(sorted);
      var m :| 0 <= m < |sorted| && sorted[m] == pop.members[j];
      if m > 0 {
        assert key(sorted[0]) <= key(sorted[m]);
      }
    }
  }
}
