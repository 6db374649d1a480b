/**
 * `NoiseSettings`: a configurable 2D noise sampler with a stochastic
 * accept/reject gate and a linear remap of accepted values.
 *
 * The noise functions themselves (`Mathf.PerlinNoise`, `noise.snoise`,
 * `noise.cellular`, `noise.cellular2x2`) are foreign code and are taken as a
 * `NoiseLibrary` of arbitrary functions; the draws of `UnityEngine.Random`
 * come from an explicit `RandomState` threaded in and out.
 */
module Noise {
  import opened Vectors
  import opened Random
  import Numeric

  datatype SamplingAlgorithm = None | Perlin | Simplex | Worley2x2 | Worley3x3

  /** `UnityEngine.Space`. */
  datatype Space = World | Self

  datatype NoiseSettings = NoiseSettings(
    Algorithm: SamplingAlgorithm,
    Space: Space,
    Range: Vec2,          // output interval: x is its minimum, y its maximum
    Scale: real,
    Amplitude: real,
    SampleOffset: real,
    Threshold: real,
    LuckThreshold: real)

  /** The foreign noise functions the sampler dispatches to. */
  datatype NoiseLibrary = NoiseLibrary(
    perlinNoise: (real, real) -> real,
    snoise: Vec2 -> real,
    cellular: Vec2 -> Vec2,
    cellular2x2: Vec2 -> Vec2)

  /**
   * The parameterless constructor: Perlin noise in local space, remapped
   * onto [0, 1], with no constant added to the raw value and a gate that
   * never rejects a non-negative value.
   */
  function DefaultNoiseSettings(): (ns: NoiseSettings)
    ensures ns.Algorithm == Perlin && ns.Space == Self
    ensures ns.Amplitude * ns.SampleOffset == 0.0
    ensures ns.Range.x <= ns.Range.y
    ensures ns.Threshold == 0.0 && ns.LuckThreshold == 0.0
  {
    NoiseSettings(Perlin, Self, Vec2(0.0, 1.0), 0.08, 1.0, 0.0, 0.0, 0.0)
  }

  /**
   * The five-argument constructor. The fields it does not assign keep C#'s
   * default of zero, so the raw value carries no constant and the luck
   * override never fires.
   */
  function NoiseSettingsWith(space: Space, algorithm: SamplingAlgorithm, range: Vec2, scale: real, threshold: real): (ns: NoiseSettings)
    ensures ns.Space == space && ns.Algorithm == algorithm && ns.Range == range
    ensures ns.Scale == scale && ns.Threshold == threshold
    ensures ns.Amplitude * ns.SampleOffset == 0.0
    ensures ns.Amplitude == 0.0 && ns.SampleOffset == 0.0 && ns.LuckThreshold == 0.0
  {
    NoiseSettings(algorithm, space, range, scale, 0.0, 0.0, threshold, 0.0)
  }

  /**
   * Where the noise is read: in world space the world offset's x and z shift
   * the position first; either way the result is scaled by `Scale`.
   */
  function EffectivePosition(ns: NoiseSettings, position: Vec2, offsetWS: Vec3): (r: Vec2)
    ensures ns.Space == Self ==> r == Scale2(position, ns.Scale)
    ensures ns.Space == World ==>
      r == Add2(Scale2(position, ns.Scale), Scale2(Vec2(offsetWS.x, offsetWS.z), ns.Scale))
    ensures ns.Scale == 1.0 && ns.Space == Self ==> r == position
  {
    var shifted := if ns.Space == World then Add2(position, Vec2(offsetWS.x, offsetWS.z)) else position;
    Scale2(shifted, ns.Scale)
  }

  /**
   * The algorithm dispatch. Perlin is clamped into [0, 1]; the Worley
   * branches read the second channel and call the library functions
   * exactly as the source pairs them (`Worley2x2` the 3x3 `cellular`,
   * `Worley3x3` the 2x2 `cellular2x2`).
   */
  function NoiseValue(algorithm: SamplingAlgorithm, lib: NoiseLibrary, p: Vec2): (r: real)
    ensures algorithm == Perlin ==> 0.0 <= r <= 1.0
    ensures algorithm == None ==> r == 0.0
  {
    match algorithm
    case Perlin => Numeric.Clamp01(lib.perlinNoise(p.x, p.y))
    case Simplex => lib.snoise(p)
    case Worley2x2 => lib.cellular(p).y
    case Worley3x3 => lib.cellular2x2(p).y
    case None => 0.0
  }

  /** The value the gate tests: `Amplitude * SampleOffset` plus the noise. */
  function RawSample(ns: NoiseSettings, lib: NoiseLibrary, position: Vec2, offsetWS: Vec3): (r: real)
    ensures ns.Algorithm == Perlin ==>
      ns.Amplitude * ns.SampleOffset <= r <= ns.Amplitude * ns.SampleOffset + 1.0
  {
    ns.Amplitude * ns.SampleOffset + NoiseValue(ns.Algorithm, lib, EffectivePosition(ns, position, offsetWS))
  }

  /** `math.remap(0, 1, lo, hi, x)`: the linear map taking 0 to `lo` and 1 to `hi`. */
  function Remap01(lo: real, hi: real, x: real): (r: real)
    ensures x == 0.0 ==> r == lo
    ensures x == 1.0 ==> r == hi
    ensures lo <= hi && 0.0 <= x <= 1.0 ==> lo <= r <= hi
  {
    var span := hi - lo;
    Numeric.FractionOfSpan(x, span);
    lo + x * span
  }

  /** The gate's verdict on `noiseSample`, read off the next two draws. */
  predicate GatePasses(ns: NoiseSettings, noiseSample: real, rng: RandomState)
    ensures ns.LuckThreshold >= 1.0 ==> GatePasses(ns, noiseSample, rng)
    ensures ns.Threshold <= 0.0 && noiseSample >= 0.0 ==> GatePasses(ns, noiseSample, rng)
    ensures ns.LuckThreshold <= 0.0 && noiseSample <= 0.0 && ns.Threshold > 0.0 ==> !GatePasses(ns, noiseSample, rng)
  {
    rng.Peek(0) < ns.LuckThreshold || !(noiseSample * rng.Peek(1) < ns.Threshold)
  }

  /** How many draws the gate consumes: one when luck admits, else two. */
  function GateDraws(ns: NoiseSettings, rng: RandomState): (k: nat)
    ensures k == 1 || k == 2
  {
    if rng.Peek(0) < ns.LuckThreshold then 1 else 2
  }

  /**
   * `TestSample`: a first draw below `LuckThreshold` admits at once; otherwise
   * a second draw scales the sample and the result is rejected when it falls
   * below `Threshold`.
   */
  method TestSample(ns: NoiseSettings, noiseSample: real, rng: RandomState)
    returns (passed: bool, rngOut: RandomState)
    ensures rng.Peek(0) < ns.LuckThreshold ==> passed && rngOut == rng.Advance(1)
    ensures !(rng.Peek(0) < ns.LuckThreshold) ==>
      rngOut == rng.Advance(2) && (passed <==> !(noiseSample * rng.Peek(1) < ns.Threshold))
    ensures passed == GatePasses(ns, noiseSample, rng)
    ensures rngOut == rng.Advance(GateDraws(ns, rng))
    ensures ns.LuckThreshold >= 1.0 ==> passed
    ensures ns.Threshold == 0.0 && noiseSample >= 0.0 ==> passed
  {
    var luck := Value(rng);
    if luck.value < ns.LuckThreshold {
      return true, luck.rest;
    }
    var scale := Value(luck.rest);
    if noiseSample * scale.value < ns.Threshold {
      return false, scale.rest;
    }
    return true, scale.rest;
  }

  /**
   * `Sample2D`. `None` passes every position with the sample 1 and draws
   * nothing. Otherwise the raw value goes through the gate; a rejected sample
   * is 0, an accepted one is remapped from [0, 1] onto `Range`.
   */
  method Sample2D(ns: NoiseSettings, lib: NoiseLibrary, position: Vec2, offsetWS: Vec3, rng: RandomState)
    returns (valid: bool, sample: real, rngOut: RandomState)
    ensures ns.Algorithm == None ==> valid && sample == 1.0 && rngOut == rng
    ensures ns.Algorithm != None ==>
      var raw := RawSample(ns, lib, position, offsetWS);
      && valid == GatePasses(ns, raw, rng)
      && rngOut == rng.Advance(GateDraws(ns, rng))
      && (valid ==> sample == Remap01(ns.Range.x, ns.Range.y, raw))
    ensures !valid ==> sample == 0.0
    ensures rngOut.generator == rng.generator && rngOut.stream == rng.stream
    ensures (valid && ns.Algorithm == Perlin && ns.Amplitude * ns.SampleOffset == 0.0
             && ns.Range.x <= ns.Range.y) ==> ns.Range.x <= sample <= ns.Range.y
  {
    if ns.Algorithm == None {
      return true, 1.0, rng;
    }
    var noiseSample := RawSample(ns, lib, position, offsetWS);
    var passed;
    passed, rngOut := TestSample(ns, noiseSample, rng);
    if !passed {
      return false, 0.0, rngOut;
    }
    sample := Remap01(ns.Range.x, ns.Range.y, noiseSample);
    return true, sample, rngOut;
  }

  /** In local space the world offset has no effect on where noise is read. */
  lemma LocalSpaceIgnoresOffset(ns: NoiseSettings, position: Vec2, a: Vec3, b: Vec3)
    requires ns.Space == Self
    ensures EffectivePosition(ns, position, a) == EffectivePosition(ns, position, b)
  {
  }

  /**
   * World space reads the noise where local space would read it after moving
   * the position by the offset's x and z; the offset's y never matters.
   */
  lemma WorldSpaceIsShiftedLocal(ns: NoiseSettings, position: Vec2, offsetWS: Vec3)
    requires ns.Space == World
    ensures EffectivePosition(ns, position, offsetWS)
         == EffectivePosition(ns.(Space := Self), Add2(position, Vec2(offsetWS.x, offsetWS.z)), offsetWS)
    ensures EffectivePosition(ns, position, offsetWS)
         == EffectivePosition(ns, position, offsetWS.(y := 0.0))
  {
  }

  /** The remap is invertible on a non-degenerate range. */
  lemma RemapInverse(lo: real, hi: real, x: real)
    requires lo != hi
    ensures (Remap01(lo, hi, x) - lo) / (hi - lo) == x
  {
  }

  /**
   * With `Perlin`, no constant added and an ordered range, every accepted
   * sample lies in the range.
   */
  lemma PerlinRemapInRange(ns: NoiseSettings, lib: NoiseLibrary, position: Vec2, offsetWS: Vec3)
    requires ns.Algorithm == Perlin && ns.Amplitude * ns.SampleOffset == 0.0
    requires ns.Range.x <= ns.Range.y
    ensures ns.Range.x <= Remap01(ns.Range.x, ns.Range.y, RawSample(ns, lib, position, offsetWS)) <= ns.Range.y
  {
  }
}
