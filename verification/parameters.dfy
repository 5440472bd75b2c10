/** TSP/Solver/TspGeneticEvolutionParameters.cs: the five nullable settings of the genetic
    solver, and the C# integer arithmetic the solver does with them. */
module GeneticParameters {
  import opened Results

  /** C#'s `int`. */
  newtype int32 = x: int | -0x8000_0000 <= x < 0x8000_0000

  /** `int?` and `double?` fields; `None` is null. */
  datatype Parameters = Parameters(
    epochCount: Option<int32>,
    populationSize: Option<int32>,
    tournamentSize: Option<int32>,
    crossoverScale: Option<real>,
    mutationScale: Option<real>)

  /** `HasNulls`: true when at least one of the five settings is null. */
  function HasNulls(p: Parameters): (r: bool)
    ensures !r <==> && p.epochCount.Some? && p.populationSize.Some? && p.tournamentSize.Some?
                    && p.crossoverScale.Some? && p.mutationScale.Some?
  {
    p.epochCount == None || p.populationSize == None || p.tournamentSize == None
    || p.crossoverScale == None || p.mutationScale == None
  }

  /** Any one missing setting makes `HasNulls` true, whatever the others are. */
  lemma HasNullsAnyField(p: Parameters)
    ensures p.epochCount.None? ==> HasNulls(p)
    ensures p.populationSize.None? ==> HasNulls(p)
    ensures p.tournamentSize.None? ==> HasNulls(p)
    ensures p.crossoverScale.None? ==> HasNulls(p)
    ensures p.mutationScale.None? ==> HasNulls(p)
  {
  }

  /** Unchecked 32-bit two's-complement wrap-around of an integer result. */
  function Wrap32(x: int): (r: int32)
    ensures -0x8000_0000 <= x < 0x8000_0000 ==> r as int == x
    ensures (x - r as int) % 0x1_0000_0000 == 0
  {
    var m := x % 0x1_0000_0000;
    if m >= 0x8000_0000 then (m - 0x1_0000_0000) as int32 else m as int32
  }

  /** C#'s `a / 2` on `int`: the quotient truncated toward zero. */
  function Half(a: int32): (r: int32)
    ensures 0 <= a ==> r as int == a as int / 2
    ensures a < 0 ==> r as int == -((-(a as int)) / 2)
  {
    if a >= 0 then (a as int / 2) as int32 else (-((-(a as int)) / 2)) as int32
  }

  /** The `(int)` cast of a double: truncation toward zero. */
  function Trunc(x: real): (r: int)
    ensures 0.0 <= x ==> r as real <= x < r as real + 1.0
    ensures x < 0.0 ==> r as real - 1.0 < x <= r as real
  {
    if x >= 0.0 then x.Floor else -((-x).Floor)
  }

  /** The number of offspring per epoch, `(int)((((P - 1) * P) / 2) * CrossoverScale)`,
      with the product computed in 32-bit `int`. */
  function CrossoverCount(p: int32, scale: real): (r: int)
    ensures scale == 0.0 ==> r == 0
  {
    Trunc(Half(Wrap32(Wrap32(p as int - 1) as int * p as int)) as real * scale)
  }

  /** The number of mutations per epoch, `(int)(PopulationSize * MutationScale)`. */
  function MutationCount(p: int32, scale: real): (r: int)
    ensures scale == 0.0 ==> r == 0
    ensures scale == 1.0 ==> r == p as int
  {
    Trunc(p as real * scale)
  }

  /** The product `(P - 1) * P` fits in 32 bits up to P = 46341. */
  lemma ProductFits(p: int)
    requires 0 <= p <= 46341
    ensures 0 <= (p - 1) * p <= 46340 * 46341
  {
    if p > 0 {
      MulMonotone(0, p - 1, p);
      MulMonotone(p - 1, 46340, p);
      MulMonotone(p, 46341, 46340);
      assert p * 46340 == 46340 * p;
    }
  }

  /** Multiplying by a natural keeps an inequality. */
  lemma {:induction false} MulMonotone(a: int, b: int, c: nat)
    requires a <= b
    ensures a * c <= b * c
  {
    if c > 0 {
      MulMonotone(a, b, c - 1);
      assert a * c == a * (c - 1) + a;
      assert b * c == b * (c - 1) + b;
    }
  }

  /** Documented: with scale 1 there are C(PopulationSize, 2) offspring, which the code
      delivers for every population size up to 46341. */
  lemma CrossoverScaleOne(p: int32)
    requires 0 <= p <= 46341
    ensures CrossoverCount(p, 1.0) == (p as int) * (p as int - 1) / 2
  {
    ProductFits(p as int);
    assert Wrap32(p as int - 1) as int == p as int - 1;
    assert Wrap32((p as int - 1) * p as int) as int == (p as int - 1) * p as int;
  }

  /** From PopulationSize 46342 on, `(P - 1) * P` overflows `int` and the count with
      scale 1 is negative, so no offspring at all are made. */
  lemma CrossoverCountOverflows()
    ensures CrossoverCount(46342, 1.0) < 0
  {
    assert Wrap32(46341 * 46342) as int == 46341 * 46342 - 0x1_0000_0000;
  }

  /** How often a loop `for (i = 0; i < count; i++)` runs: `count` times, and not at all
      when `count` is negative. */
  function Iterations(count: int): (n: nat)
    ensures n as int == count || (count < 0 && n == 0)
  {
    if count > 0 then count else 0
  }

  /** How often a loop `for (i = 0; i < bound; i++)` over a nullable setting runs: the
      lifted comparison with null is false, so a null bound runs it not at all. This is the
      number of tours `NaturalSelection` and the initialisation keep, and the number of
      epochs. */
  function Times(bound: Option<int32>): nat {
    if bound.None? then 0 else Iterations(bound.value as int)
  }
}
