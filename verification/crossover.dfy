/** TspGeneticEvolution.Crossover (TSP/Solver/TspGeneticEvolution.cs): an ordered crossover.
    The offspring inherits a block of positions from the first parent in place and takes the
    remaining points, in the second parent's order, into the free positions. The offspring
    is built in a `List<Point?>` whose empty slots are null. */
module OrderedCrossover {
  import opened Results
  import opened Rand
  import opened Points
  import opened Seqs
  import opened MapPaths
  import opened Tours

  /** The offspring under construction: `None` is a slot still null. */
  type Slots = seq<Option<Point>>

  /** `n` null slots. */
  function Nones(n: nat): (r: Slots)
    ensures |r| == n && forall i :: 0 <= i < n ==> r[i] == None
  {
    seq(n, _ => None)
  }

  /** The points of `s` as filled slots. */
  function Somes(s: seq<Point>): (r: Slots)
    ensures |r| == |s| && forall i :: 0 <= i < |s| ==> r[i] == Some(s[i])
  {
    seq(|s|, i requires 0 <= i < |s| => Some(s[i]))
  }

  /** No slot is null. */
  predicate Filled(slots: Slots) {
    forall i :: 0 <= i < |slots| ==> slots[i].Some?
  }

  /** The points of a slot list without nulls. */
  function Unwrap(slots: Slots): (r: seq<Point>)
    requires Filled(slots)
    ensures Somes(r) == slots
  {
    seq(|slots|, i requires 0 <= i < |slots| && Filled(slots) => slots[i].value)
  }

  /** The number of null slots. */
  function Holes(slots: Slots): nat
    decreases |slots|
  {
    if |slots| == 0 then 0 else (if slots[0].None? then 1 else 0) + Holes(slots[1..])
  }

  /** The two draws of the crossover: `start` from `[0, n - 1)` and `end` from `[start + 1, n)`.
      For n = 0 the first draw's range is inverted; for n = 1 both ranges are empty and the
      draws give start 0 and end 1. */
  function Window(n: nat, rand: Random): (r: Result<(nat, nat, Random)>)
    ensures r.Ok? <==> n >= 1
    ensures r.Err? ==> r.error == ArgumentOutOfRange
    ensures r.Ok? && n >= 2 ==> r.value.0 < r.value.1 < n
    ensures r.Ok? && n == 1 ==> r.value.0 == 0 && r.value.1 == 1
    ensures r.Ok? ==> r.value.0 < r.value.1
  {
    if rand.Next(0, n - 1).Err? then Err(ArgumentOutOfRange)
    else
      var first := rand.Next(0, n - 1).value;
      var second := first.1.Next(first.0 + 1, n).value;
      Ok((first.0, second.0, second.1))
  }

  /** The first loop: slots `i..end` receive the first parent's points. */
  function CopyLoop(slots: Slots, parent1: seq<Point>, i: nat, end: nat): (r: Result<Slots>)
    requires |slots| == |parent1|
    ensures r.Ok? ==> |r.value| == |slots| && (i > end || end < |parent1|)
    decreases end + 1 - i
  {
    if i > end then Ok(slots)
    else if i >= |parent1| then Err(ArgumentOutOfRange)
    else CopyLoop(slots[i := Some(parent1[i])], parent1, i + 1, end)
  }

  /** The copy loop leaves the inherited block in place and every other slot null. */
  lemma {:induction false} CopyLoopBlock(parent1: seq<Point>, start: nat, i: nat, end: nat)
    requires start <= i <= end + 1 <= |parent1|
    ensures CopyLoop(Nones(start) + Somes(parent1[start..i]) + Nones(|parent1| - i), parent1, i, end)
            == Ok(Nones(start) + Somes(parent1[start..end + 1]) + Nones(|parent1| - 1 - end))
    decreases end + 1 - i
  {
    var n := |parent1|;
    var slots := Nones(start) + Somes(parent1[start..i]) + Nones(n - i);
    if i <= end {
      var next := Nones(start) + Somes(parent1[start..i + 1]) + Nones(n - i - 1);
      forall j | 0 <= j < n ensures slots[i := Some(parent1[i])][j] == next[j] {
        if j < start {
          assert next[j] == None && slots[j] == None;
        } else if j < i {
          assert next[j] == Somes(parent1[start..i + 1])[j - start];
          assert slots[j] == Somes(parent1[start..i])[j - start];
        } else if j == i {
          assert next[j] == Somes(parent1[start..i + 1])[j - start];
        } else {
          assert next[j] == None && slots[j] == None;
        }
      }
      assert slots[i := Some(parent1[i])] == next;
      CopyLoopBlock(parent1, start, i + 1, end);
    }
  }

  /** The first free slot at or after `k`, or `|slots|` when there is none: the inner
      `while` of the second loop. */
  function FirstHoleFrom(slots: Slots, k: nat): (h: nat)
    requires k <= |slots|
    ensures k <= h <= |slots|
    ensures h < |slots| ==> slots[h].None?
    ensures forall j :: k <= j < h ==> slots[j].Some?
    decreases |slots| - k
  {
    if k == |slots| || slots[k].None? then k else FirstHoleFrom(slots, k + 1)
  }

  /** The second loop: each point of the second parent that was not inherited goes into
      the first free slot at or after `k`; writing past the last slot throws. */
  function Fill(slots: Slots, k: nat, parent2: seq<Point>, i: nat, added: set<Point>): (r: Result<Slots>)
    requires k <= |slots| && i <= |parent2|
    ensures r.Err? ==> r.error == ArgumentOutOfRange
    ensures r.Ok? ==> && |r.value| == |slots|
                      && (forall j :: 0 <= j < |slots| && (j < k || slots[j].Some?) ==> r.value[j] == slots[j])
                      && (forall j :: 0 <= j < |slots| && r.value[j].Some? && slots[j].None? ==>
                            r.value[j].value in parent2[i..] && r.value[j].value !in added)
    decreases |parent2| - i
  {
    if i == |parent2| then Ok(slots)
    else
      var h := FirstHoleFrom(slots, k);
      if parent2[i] in added then Fill(slots, h, parent2, i + 1, added)
      else if h == |slots| then Err(ArgumentOutOfRange)
      else Fill(slots[h := Some(parent2[i])], h, parent2, i + 1, added)
  }

  /** Reference definition of what the fill achieves: the free slots receive `fill` from
      left to right; free slots beyond the end of `fill` stay null. */
  function Overlay(slots: Slots, fill: seq<Point>): (r: Slots)
    ensures |r| == |slots|
    decreases |slots|
  {
    if |slots| == 0 then []
    else if slots[0].Some? then [slots[0]] + Overlay(slots[1..], fill)
    else if |fill| == 0 then slots
    else [Some(fill[0])] + Overlay(slots[1..], fill[1..])
  }

  lemma {:induction false} OverlayNothing(slots: Slots)
    ensures Overlay(slots, []) == slots
    decreases |slots|
  {
    if |slots| > 0 && slots[0].Some? {
      OverlayNothing(slots[1..]);
    }
  }

  lemma {:induction false} HolesNone(slots: Slots)
    requires Filled(slots)
    ensures Holes(slots) == 0
    decreases |slots|
  {
    if |slots| > 0 {
      HolesNone(slots[1..]);
    }
  }

  lemma {:induction false} HolesFill(slots: Slots, h: nat, x: Point)
    requires h < |slots| && slots[h].None?
    ensures Holes(slots[h := Some(x)]) == Holes(slots) - 1
    decreases h
  {
    if h == 0 {
      assert slots[h := Some(x)][1..] == slots[1..];
    } else {
      assert slots[h := Some(x)][1..] == slots[1..][h - 1 := Some(x)];
      HolesFill(slots[1..], h - 1, x);
    }
  }

  /** Putting the next point of `fill` into the first free slot is one step of the overlay. */
  lemma {:induction false} OverlayFirstHole(slots: Slots, h: nat, x: Point, rest: seq<Point>)
    requires h < |slots| && slots[h].None?
    requires forall j :: 0 <= j < h ==> slots[j].Some?
    ensures Overlay(slots, [x] + rest) == Overlay(slots[h := Some(x)], rest)
    decreases h
  {
    assert ([x] + rest)[1..] == rest;
    if h == 0 {
      assert slots[h := Some(x)][1..] == slots[1..];
    } else {
      assert slots[h := Some(x)][1..] == slots[1..][h - 1 := Some(x)];
      OverlayFirstHole(slots[1..], h - 1, x, rest);
    }
  }

  /** The fill loop places exactly the second parent's points that were not inherited, in
      its order, into the free slots, and throws exactly when they outnumber those slots. */
  lemma {:induction false} FillIsOverlay(slots: Slots, k: nat, parent2: seq<Point>, i: nat, added: set<Point>)
    requires k <= |slots| && i <= |parent2|
    requires forall j :: 0 <= j < k ==> slots[j].Some?
    ensures Fill(slots, k, parent2, i, added)
            == if |Without(parent2[i..], added)| <= Holes(slots)
               then Ok(Overlay(slots, Without(parent2[i..], added)))
               else Err(ArgumentOutOfRange)
    decreases |parent2| - i
  {
    if i == |parent2| {
      assert parent2[i..] == [];
      OverlayNothing(slots);
    } else {
      var x := parent2[i];
      var h := FirstHoleFrom(slots, k);
      assert parent2[i..][0] == x && parent2[i..][1..] == parent2[i + 1..];
      var rest := Without(parent2[i + 1..], added);
      if x in added {
        assert Without(parent2[i..], added) == rest;
        FillIsOverlay(slots, h, parent2, i + 1, added);
      } else {
        assert Without(parent2[i..], added) == [x] + rest;
        if h == |slots| {
          HolesNone(slots);
        } else {
          var next := slots[h := Some(x)];
          HolesFill(slots, h, x);
          OverlayFirstHole(slots, h, x, rest);
          FillIsOverlay(next, h, parent2, i + 1, added);
        }
      }
    }
  }

  /** Filling never overwrites a slot that is already taken. */
  lemma {:induction false} FillKeepsTaken(slots: Slots, k: nat, parent2: seq<Point>, i: nat, added: set<Point>)
    requires k <= |slots| && i <= |parent2|
    requires Fill(slots, k, parent2, i, added).Ok?
    ensures |Fill(slots, k, parent2, i, added).value| == |slots|
    ensures forall j :: 0 <= j < |slots| && slots[j].Some? ==> Fill(slots, k, parent2, i, added).value[j] == slots[j]
    decreases |parent2| - i
  {
    if i < |parent2| {
      var h := FirstHoleFrom(slots, k);
      if parent2[i] in added {
        FillKeepsTaken(slots, h, parent2, i + 1, added);
      } else {
        FillKeepsTaken(slots[h := Some(parent2[i])], h, parent2, i + 1, added);
      }
    }
  }

  lemma {:induction false} HolesAppend(a: Slots, b: Slots)
    ensures Holes(a + b) == Holes(a) + Holes(b)
    decreases |a|
  {
    if |a| > 0 {
      assert (a + b)[0] == a[0] && (a + b)[1..] == a[1..] + b;
      HolesAppend(a[1..], b);
    } else {
      assert a + b == b;
    }
  }

  lemma {:induction false} HolesNones(n: nat)
    ensures Holes(Nones(n)) == n
    decreases n
  {
    if n > 0 {
      assert Nones(n)[1..] == Nones(n - 1);
      HolesNones(n - 1);
    }
  }

  lemma {:induction false} OverlayNones(n: nat, fill: seq<Point>)
    requires n <= |fill|
    ensures Overlay(Nones(n), fill) == Somes(fill[..n])
    decreases n
  {
    if n > 0 {
      assert Nones(n)[1..] == Nones(n - 1);
      OverlayNones(n - 1, fill[1..]);
      assert Somes(fill[..n]) == [Some(fill[0])] + Somes(fill[1..][..n - 1]);
    }
  }

  /** The crossover's slot pattern, free prefix, inherited block, free suffix, has one free
      slot per position outside the block. */
  lemma HolesBlock(s: nat, block: seq<Point>, c: nat)
    ensures Holes(Nones(s) + Somes(block)) == s
    ensures Holes(Nones(s) + Somes(block) + Nones(c)) == s + c
  {
    HolesAppend(Nones(s) + Somes(block), Nones(c));
    HolesAppend(Nones(s), Somes(block));
    HolesNones(s);
    HolesNones(c);
    HolesNone(Somes(block));
  }

  /** The overlay of a block of taken slots followed by holes: the block stays and the
      holes take all of `fill`. */
  lemma {:induction false} OverlayTakenThenHoles(block: seq<Point>, c: nat, fill: seq<Point>)
    requires |fill| == c
    ensures Overlay(Somes(block) + Nones(c), fill) == Somes(block + fill)
    decreases |block|
  {
    var slots := Somes(block) + Nones(c);
    if |block| == 0 {
      assert slots == Nones(c);
      OverlayNones(c, fill);
      assert fill[..c] == fill && block + fill == fill;
    } else {
      assert slots[0] == Some(block[0]);
      assert slots[1..] == Somes(block[1..]) + Nones(c);
      OverlayTakenThenHoles(block[1..], c, fill);
      assert block + fill == [block[0]] + (block[1..] + fill);
      assert Somes(block + fill) == [Some(block[0])] + Somes(block[1..] + fill);
    }
  }

  /** The overlay of the crossover's slot pattern. */
  lemma {:induction false} OverlayBlock(s: nat, block: seq<Point>, c: nat, fill: seq<Point>)
    requires |fill| == s + c
    ensures Overlay(Nones(s) + Somes(block) + Nones(c), fill) == Somes(fill[..s] + block + fill[s..])
    decreases s
  {
    var slots := Nones(s) + Somes(block) + Nones(c);
    if s == 0 {
      assert slots == Somes(block) + Nones(c);
      OverlayTakenThenHoles(block, c, fill);
      assert fill[..0] + block + fill[0..] == block + fill;
    } else {
      assert slots[0] == None;
      assert slots[1..] == Nones(s - 1) + Somes(block) + Nones(c);
      OverlayBlock(s - 1, block, c, fill[1..]);
      var tail := fill[1..][..s - 1] + block + fill[1..][s - 1..];
      assert fill[..s] == [fill[0]] + fill[1..][..s - 1];
      assert fill[s..] == fill[1..][s - 1..];
      assert fill[..s] + block + fill[s..] == [fill[0]] + tail;
      assert Somes([fill[0]] + tail) == [Some(fill[0])] + Somes(tail);
    }
  }

  /** The `foreach` of `GetCost` over a list that may hold nulls: `last.CostTo(point)` with
      a null `point` dereferences it. */
  function NullableLoop(slots: Slots, i: nat, last: Option<Point>, cost: real, sqrt: real -> real): (r: Result<real>)
    requires i <= |slots|
    ensures r.Err? ==> r.error == NullReference
    decreases |slots| - i
  {
    if i == |slots| then Ok(cost)
    else if last.Some? && slots[i].None? then Err(NullReference)
    else NullableLoop(slots, i + 1, slots[i], if last.Some? then cost + CostTo(last.value, slots[i].value, sqrt) else cost, sqrt)
  }

  /** `GetCost` of the offspring, whose list may still hold nulls: the loop, then
      `Points[0].CostTo(Points[n - 1])`. */
  function NullableCost(slots: Slots, sqrt: real -> real): (r: Result<real>)
    ensures r.Err? ==> r.error == (if |slots| == 0 then ArgumentOutOfRange else NullReference)
  {
    if |slots| == 0 then Err(ArgumentOutOfRange)
    else
      var open :- NullableLoop(slots, 0, None, 0.0, sqrt);
      if slots[0].None? || slots[|slots| - 1].None? then Err(NullReference)
      else Ok(open + CostTo(slots[0].value, slots[|slots| - 1].value, sqrt))
  }

  lemma {:induction false} NullableLoopFilled(slots: Slots, i: nat, last: Option<Point>, cost: real, sqrt: real -> real)
    requires i <= |slots| && Filled(slots)
    ensures NullableLoop(slots, i, last, cost, sqrt) == Ok(CostLoop(Unwrap(slots), i, last, cost, sqrt))
    decreases |slots| - i
  {
    if i < |slots| {
      NullableLoopFilled(slots, i + 1, slots[i], if last.Some? then cost + CostTo(last.value, slots[i].value, sqrt) else cost, sqrt);
    }
  }

  lemma {:induction false} NullableLoopHits(slots: Slots, i: nat, last: Option<Point>, cost: real, sqrt: real -> real, j: nat)
    requires i <= j < |slots| && slots[j].None?
    requires forall m :: i <= m < j ==> slots[m].Some?
    requires i < j || last.Some?
    ensures NullableLoop(slots, i, last, cost, sqrt).Err?
    decreases j - i
  {
    if i < j {
      NullableLoopHits(slots, i + 1, slots[i], if last.Some? then cost + CostTo(last.value, slots[i].value, sqrt) else cost, sqrt, j);
    }
  }

  /** A non-empty list costs what `GetCost` gives its points when no slot is null, and
      throws `NullReferenceException` as soon as one is. */
  lemma NullableCostMeaning(slots: Slots, sqrt: real -> real)
    requires |slots| > 0
    ensures NullableCost(slots, sqrt).Ok? <==> Filled(slots)
    ensures Filled(slots) ==> NullableCost(slots, sqrt) == Ok(TourCost(Unwrap(slots), sqrt))
  {
    if Filled(slots) {
      NullableLoopFilled(slots, 0, None, 0.0, sqrt);
      CostLoopIsPathLength(Unwrap(slots), 0, sqrt);
      assert Unwrap(slots)[..0] == [];
    } else if slots[0].Some? {
      var j := FirstHoleFrom(slots, 0);
      NullableLoopHits(slots, 0, None, 0.0, sqrt, j);
    }
  }

  /** The two loops for a given window: copy the block of `parent1`, then fill from `parent2`
      with the block's points marked as added. */
  function BuildSlots(parent1: seq<Point>, parent2: seq<Point>, start: nat, end: nat): Result<Slots>
    requires start < end
  {
    var copied :- CopyLoop(Nones(|parent1|), parent1, start, end);
    Fill(copied, 0, parent2, 0, Elements(parent1[start..end + 1]))
  }

  /** The copy loop on a valid window gives the block pattern. */
  lemma {:induction false} CopiedBlock(parent1: seq<Point>, start: nat, end: nat)
    requires start < end < |parent1|
    ensures CopyLoop(Nones(|parent1|), parent1, start, end)
            == Ok(Nones(start) + Somes(parent1[start..end + 1]) + Nones(|parent1| - 1 - end))
  {
    assert Nones(|parent1|) == Nones(start) + Somes(parent1[start..start]) + Nones(|parent1| - start);
    CopyLoopBlock(parent1, start, start, end);
  }

  /** Whatever `parent2` holds, the offspring keeps the inherited block where it was. */
  lemma BuildSlotsKeepsBlock(parent1: seq<Point>, parent2: seq<Point>, start: nat, end: nat)
    requires start < end < |parent1|
    requires BuildSlots(parent1, parent2, start, end).Ok?
    ensures |BuildSlots(parent1, parent2, start, end).value| == |parent1|
    ensures forall j :: start <= j <= end ==> BuildSlots(parent1, parent2, start, end).value[j] == Some(parent1[j])
  {
    CopiedBlock(parent1, start, end);
    var copied := Nones(start) + Somes(parent1[start..end + 1]) + Nones(|parent1| - 1 - end);
    forall j | start <= j <= end ensures copied[j] == Some(parent1[j]) {
      assert copied[j] == Somes(parent1[start..end + 1])[j - start];
    }
    FillKeepsTaken(copied, 0, parent2, 0, Elements(parent1[start..end + 1]));
  }

  /** Reference definition of an ordered crossover: the points of `parent2` outside the
      block `parent1[start..end]`, in their order, with that block inserted at position
      `start`. */
  function InheritedOrder(parent1: seq<Point>, parent2: seq<Point>, start: nat, end: nat): seq<Point>
    requires start <= end < |parent1|
  {
    var block := parent1[start..end + 1];
    var rest := Without(parent2, Elements(block));
    var cut := if start <= |rest| then start else |rest|;
    rest[..cut] + block + rest[cut..]
  }

  /** For a duplicate-free `parent1` and a permutation `parent2` of it, the points of
      `parent2` outside the block and the block together are the points of `parent1`. */
  lemma BlockAndRest(parent1: seq<Point>, parent2: seq<Point>, start: nat, end: nat)
    requires NoDuplicates(parent1) && multiset(parent2) == multiset(parent1)
    requires start < end < |parent1|
    ensures var block := parent1[start..end + 1];
            var rest := Without(parent2, Elements(block));
            && |rest| == start + (|parent1| - 1 - end)
            && multiset(rest) + multiset(block) == multiset(parent1)
  {
    var block := parent1[start..end + 1];
    assert NoDuplicates(block) by {
      NoDuplicatesPairwise(parent1);
      NoDuplicatesPairwise(block);
    }
    assert forall x :: x in block ==> x in parent2 by {
      forall x | x in block ensures x in parent2 {
        assert x in multiset(parent1);
      }
    }
    SplitByBlock(parent2, block);
  }

  /** For a duplicate-free `parent1` and a permutation `parent2` of it, the loops fill
      every slot, in the ordered-crossover order. */
  lemma BuildSlotsPermutation(parent1: seq<Point>, parent2: seq<Point>, start: nat, end: nat)
    requires NoDuplicates(parent1) && multiset(parent2) == multiset(parent1)
    requires start < end < |parent1|
    ensures BuildSlots(parent1, parent2, start, end) == Ok(Somes(InheritedOrder(parent1, parent2, start, end)))
  {
    var block := parent1[start..end + 1];
    var rest := Without(parent2, Elements(block));
    var c := |parent1| - 1 - end;
    BlockAndRest(parent1, parent2, start, end);
    CopiedBlock(parent1, start, end);
    OverlayBlock(start, block, c, rest);
    HolesBlock(start, block, c);
    assert parent2[0..] == parent2;
    FillIsOverlay(Nones(start) + Somes(block) + Nones(c), 0, parent2, 0, Elements(block));
  }

  /** The ordered crossover of duplicate-free permutation parents is a permutation of them. */
  lemma InheritedOrderPermutation(parent1: seq<Point>, parent2: seq<Point>, start: nat, end: nat)
    requires NoDuplicates(parent1) && multiset(parent2) == multiset(parent1)
    requires start < end < |parent1|
    ensures multiset(InheritedOrder(parent1, parent2, start, end)) == multiset(parent1)
  {
    BlockAndRest(parent1, parent2, start, end);
    var block := parent1[start..end + 1];
    var rest := Without(parent2, Elements(block));
    assert rest == rest[..start] + rest[start..];
    assert multiset(rest[..start] + block + rest[start..]) == multiset(rest[..start]) + multiset(block) + multiset(rest[start..]);
  }

  /** The offspring for a given window: `new MapPath(points)` with `GetCost` cached. */
  function Offspring(parent1: MapPath, parent2: MapPath, start: nat, end: nat, sqrt: real -> real): (r: Result<MapPath>)
    requires start < end
    ensures r.Ok? ==> |r.value.points| > 0 && EndpointsMatch(r.value) && r.value.manualCost == TourCost(r.value.points, sqrt)
    ensures r.Ok? ==> BuildSlots(parent1.points, parent2.points, start, end).Ok?
                      && Somes(r.value.points) == BuildSlots(parent1.points, parent2.points, start, end).value
  {
    var slots :- BuildSlots(parent1.points, parent2.points, start, end);
    var cost :- NullableCost(slots, sqrt);
    NullableCostMeaning(slots, sqrt);
    Ok(FromPoints(Unwrap(slots)).(manualCost := cost))
  }

  /** `Crossover`: draw the window, then build the offspring. Fewer than two points leave
      no valid window. */
  function Crossover(parent1: MapPath, parent2: MapPath, rand: Random, sqrt: real -> real): (r: Result<(MapPath, Random)>)
    ensures |parent1.points| < 2 ==> r == Err(ArgumentOutOfRange)
    ensures r.Ok? ==> |r.value.0.points| > 0 && EndpointsMatch(r.value.0)
                      && r.value.0.manualCost == TourCost(r.value.0.points, sqrt)
    ensures r.Ok? ==> Window(|parent1.points|, rand).Ok? && r.value.1 == Window(|parent1.points|, rand).value.2
  {
    var window :- Window(|parent1.points|, rand);
    var child :- Offspring(parent1, parent2, window.0, window.1, sqrt);
    Ok((child, window.2))
  }

  /** The offspring of `Crossover` keeps the first parent's block in place. */
  lemma CrossoverKeepsBlock(parent1: MapPath, parent2: MapPath, rand: Random, sqrt: real -> real)
    requires Crossover(parent1, parent2, rand, sqrt).Ok?
    ensures var (start, end, _) := Window(|parent1.points|, rand).value;
            var child := Crossover(parent1, parent2, rand, sqrt).value.0;
            && start < end < |parent1.points| == |child.points|
            && child.points[start..end + 1] == parent1.points[start..end + 1]
  {
    var (start, end, _) := Window(|parent1.points|, rand).value;
    var child := Crossover(parent1, parent2, rand, sqrt).value.0;
    BuildSlotsKeepsBlock(parent1.points, parent2.points, start, end);
    var slots := BuildSlots(parent1.points, parent2.points, start, end).value;
    assert Somes(child.points) == slots;
    assert |child.points| == |slots|;
    forall j | start <= j <= end ensures child.points[j] == parent1.points[j] {
      assert Somes(child.points)[j] == slots[j];
    }
  }

  /** The offspring of a valid window of duplicate-free permutation parents. */
  lemma OffspringPermutation(parent1: MapPath, parent2: MapPath, start: nat, end: nat, sqrt: real -> real)
    requires NoDuplicates(parent1.points)
    requires multiset(parent2.points) == multiset(parent1.points)
    requires start < end < |parent1.points|
    ensures Offspring(parent1, parent2, start, end, sqrt).Ok?
    ensures Offspring(parent1, parent2, start, end, sqrt).value.points == InheritedOrder(parent1.points, parent2.points, start, end)
    ensures multiset(InheritedOrder(parent1.points, parent2.points, start, end)) == multiset(parent1.points)
  {
    var points := InheritedOrder(parent1.points, parent2.points, start, end);
    BuildSlotsPermutation(parent1.points, parent2.points, start, end);
    InheritedOrderPermutation(parent1.points, parent2.points, start, end);
    NullableCostMeaning(Somes(points), sqrt);
    assert Unwrap(Somes(points)) == points;
  }

  /** For tours that are permutations of one duplicate-free map, the crossover always
      succeeds, produces the ordered crossover of the drawn window, and yields again a
      permutation of the same points. */
  lemma CrossoverPermutation(parent1: MapPath, parent2: MapPath, rand: Random, sqrt: real -> real)
    requires NoDuplicates(parent1.points)
    requires multiset(parent2.points) == multiset(parent1.points)
    requires |parent1.points| >= 2
    ensures Crossover(parent1, parent2, rand, sqrt).Ok?
    ensures Crossover(parent1, parent2, rand, sqrt).value.0.points
            == InheritedOrder(parent1.points, parent2.points, Window(|parent1.points|, rand).value.0, Window(|parent1.points|, rand).value.1)
    ensures multiset(Crossover(parent1, parent2, rand, sqrt).value.0.points) == multiset(parent1.points)
  {
    var window := Window(|parent1.points|, rand).value;
    OffspringPermutation(parent1, parent2, window.0, window.1, sqrt);
    assert Crossover(parent1, parent2, rand, sqrt) == Ok((Offspring(parent1, parent2, window.0, window.1, sqrt).value, window.2));
  }

  /** With a point listed twice, the inherited block can claim both copies' value while the
      second parent has nothing left for a free slot: the null slot makes `GetCost` throw. */
  lemma CrossoverDuplicatePointFails(a: Point, b: Point, sqrt: real -> real)
    requires a != b
    ensures Crossover(FromPoints([a, a, b]), FromPoints([a, a, b]), Random(i => if i == 0 then 1 else 0, 0), sqrt)
            == Err(NullReference)
  {
    var rand := Random(i => if i == 0 then 1 else 0, 0);
    var points := [a, a, b];
    assert Window(3, rand) == Ok((1, 2, Random(rand.stream, 2)));
    var copied := [None, Some(a), Some(b)];
    assert CopyLoop(Nones(3), points, 1, 2) == Ok(copied) by {
      assert Nones(3)[1 := Some(a)] == [None, Some(a), None];
      assert [None, Some(a), None][2 := Some(b)] == copied;
    }
    assert points[1..3] == [a, b];
    var added := Elements([a, b]);
    assert a in added && b in added;
    assert FirstHoleFrom(copied, 0) == 0;
    assert Fill(copied, 0, points, 3, added) == Ok(copied);
    assert Fill(copied, 0, points, 2, added) == Ok(copied);
    assert Fill(copied, 0, points, 1, added) == Ok(copied);
    assert Fill(copied, 0, points, 0, added) == Ok(copied);
  }
}
