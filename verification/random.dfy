/** The pseudo-random source of the solver (System.Random), as an explicit stream of draws.
    Any sequence of outcomes the library could produce is some `stream`, so a property
    proved for every `Random` holds for every run. */
module Rand {
  import opened Results

  /** `stream(pos)` is the next raw draw; `pos` advances by one per call of `Next`. */
  datatype Random = Random(stream: nat -> nat, pos: nat) {

    /** The source after one draw. */
    function Advance(): (r: Random)
      ensures r.pos == pos + 1
    {
      Random(stream, pos + 1)
    }

    /** `Random.Next(lo, hi)` for a non-empty range: a value in `[lo, hi)`, the raw draw
        above `lo`. A raw draw outside the range stands for `lo`, so every sequence of
        outcomes is still the one of some stream. */
    function Pick(lo: int, hi: int): (r: (int, Random))
      requires lo < hi
      ensures lo <= r.0 < hi
      ensures r.1.pos == pos + 1
    {
      (if stream(pos) < hi - lo then lo + stream(pos) else lo, Advance())
    }

    /** `Random.Next(lo, hi)` in general: `lo` when the range is empty (`lo == hi`),
        `ArgumentOutOfRangeException` when it is inverted (`lo > hi`). */
    function Next(lo: int, hi: int): (r: Result<(int, Random)>)
      ensures r.Ok? <==> lo <= hi
      ensures r.Ok? && lo < hi ==> lo <= r.value.0 < hi
      ensures r.Ok? && lo == hi ==> r.value.0 == lo
      ensures r.Err? ==> r.error == ArgumentOutOfRange
    {
      if lo > hi then Err(ArgumentOutOfRange)
      else if lo == hi then Ok((lo, Advance()))
      else Ok(Pick(lo, hi))
    }
  }
}
