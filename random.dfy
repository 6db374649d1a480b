/**
 * `UnityEngine.Random`, the process-wide random source, made explicit.
 *
 * The generator algorithm is not modelled: `generator(seed)` is the stream of
 * draws `InitState(seed)` produces, each draw a value in [0, 1). A state is a
 * stream and a read position; every draw advances the position by one, so the
 * number of draws an operation consumes is the distance it moves `pos`.
 */
module Random {

  /** One uniform draw. */
  type Unit = u: real | 0.0 <= u < 1.0

  datatype RandomState = RandomState(generator: int -> nat -> Unit, stream: nat -> Unit, pos: nat)
  {
    /** The draw `k` places ahead of the read position. */
    function Peek(k: nat): Unit {
      stream(pos + k)
    }

    /** This state after `k` draws have been consumed. */
    function Advance(k: nat): (r: RandomState)
      ensures r.generator == generator && r.stream == stream && r.pos == pos + k
    {
      this.(pos := pos + k)
    }
  }

  /** A drawn value and the random state after drawing it. */
  datatype Draw<T> = Draw(value: T, rest: RandomState)

  /** A draw scaled by a non-negative span stays within the span, short of its end. */
  lemma UnitScaled(u: Unit, n: real)
    ensures n >= 0.0 ==> 0.0 <= u * n <= n
    ensures n > 0.0 ==> u * n < n
  {
    if n >= 0.0 {
      assert (1.0 - u) * n >= 0.0;
    }
    if n > 0.0 {
      assert (1.0 - u) * n > 0.0;
    }
  }

  /** `Random.InitState(seed)`: restart from the stream the seed selects. */
  function InitState(rng: RandomState, seed: int): (r: RandomState)
    ensures r.generator == rng.generator && r.stream == rng.generator(seed) && r.pos == 0
  {
    RandomState(rng.generator, rng.generator(seed), 0)
  }

  /** `Random.value`: the next draw. */
  function Value(rng: RandomState): (d: Draw<Unit>)
    ensures d.value == rng.Peek(0) && d.rest == rng.Advance(1)
  {
    Draw(rng.stream(rng.pos), rng.Advance(1))
  }

  /**
   * `Random.Range(float lo, float hi)`: one draw scaled onto the span from
   * `lo` towards `hi`; for `lo <= hi` it lies in [lo, hi], short of `hi`
   * unless the span is empty.
   */
  function RangeFloat(rng: RandomState, lo: real, hi: real): (d: Draw<real>)
    ensures lo <= hi ==> lo <= d.value <= hi
    ensures lo < hi ==> d.value < hi
    ensures d.rest == rng.Advance(1)
  {
    var u := rng.Peek(0);
    var span := hi - lo;
    UnitScaled(u, span);
    Draw(lo + u * span, rng.Advance(1))
  }

  /** `Random.Range(int lo, int hi)`: one draw mapped onto lo, ..., hi - 1. */
  function RangeInt(rng: RandomState, lo: int, hi: int): (d: Draw<int>)
    requires lo < hi
    ensures lo <= d.value < hi
    ensures d.rest == rng.Advance(1)
  {
    var u := rng.Peek(0);
    var n := (hi - lo) as real;
    UnitScaled(u, n);
    var k := (u * n).Floor;
    assert k as real <= u * n < n;
    Draw(lo + k, rng.Advance(1))
  }
}
