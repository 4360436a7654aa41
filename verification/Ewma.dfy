/**
 The Huber-clipped moving average: mean, variance and mean absolute deviation
 over the reals. The square root is the library's, taken as a parameter of
 which only `IsSqrt` is known.
 */
module Ewma {
  const EPSILON := 0.000000001

  ghost predicate IsSqrt(sqrt: real -> real) {
    forall v :: v >= 0.0 ==> sqrt(v) >= 0.0 && sqrt(v) * sqrt(v) == v
  }

  datatype Stats = Stats(mean: real, variance: real, mad: real, samples: nat)

  const EMPTY := Stats(0.0, 0.0, 0.0, 0)

  function Abs(x: real): real {
    if x < 0.0 then -x else x
  }

  function MaxReal(a: real, b: real): real {
    if a < b then b else a
  }

  function MinReal(a: real, b: real): real {
    if b < a then b else a
  }

  function Clamp(x: real, lo: real, hi: real): real
    requires lo <= hi
  {
    if x < lo then lo else if x > hi then hi else x
  }

  function Huber(delta: real, scale: real, k: real): real
    requires k * scale >= 0.0
  {
    Clamp(delta, -(k * scale), k * scale)
  }

  function StddevOf(s: Stats, sqrt: real -> real): real {
    MaxReal(sqrt(s.variance), EPSILON)
  }

  function RobustStddevOf(s: Stats, sqrt: real -> real): (scale: real)
    ensures scale >= EPSILON
  {
    MaxReal(MaxReal(1.4826 * s.mad, sqrt(s.variance) * 0.25), EPSILON)
  }

  /** The scale is the largest of the floor, the scaled absolute deviation and a quarter of the standard deviation. */
  lemma RobustStddevIsLargest(s: Stats, sqrt: real -> real)
    ensures var scale := RobustStddevOf(s, sqrt);
            && scale >= EPSILON && scale >= 1.4826 * s.mad && scale >= sqrt(s.variance) * 0.25
            && (scale == EPSILON || scale == 1.4826 * s.mad || scale == sqrt(s.variance) * 0.25)
  {}

  /** The clipped deviation of a sample from the mean. */
  function Bounded(s: Stats, x: real, sqrt: real -> real): real {
    Huber(x - s.mean, RobustStddevOf(s, sqrt), 3.0)
  }

  /** One observation; the method `Ewma.Update` is proved equal to it. */
  function Updated(s: Stats, alpha: real, x: real, sqrt: real -> real): Stats {
    var b := Bounded(s, x, sqrt);
    Stats(s.mean + alpha * b,
          (1.0 - alpha) * s.variance + alpha * b * b,
          (1.0 - alpha) * s.mad + alpha * Abs(x - s.mean),
          s.samples + 1)
  }

  /** All observations in order. */
  function Fold(s: Stats, alpha: real, xs: seq<real>, sqrt: real -> real): Stats {
    if xs == [] then s
    else Updated(Fold(s, alpha, xs[..|xs| - 1], sqrt), alpha, xs[|xs| - 1], sqrt)
  }

  class Ewma {
    const alpha: real
    const sqrt: real -> real
    var mean: real
    var variance: real
    var mad: real
    var samples: nat

    function View(): Stats
      reads this
    {
      Stats(mean, variance, mad, samples)
    }

    constructor (alpha: real, sqrt: real -> real)
      ensures View() == EMPTY && this.alpha == alpha && this.sqrt == sqrt
    {
      this.alpha, this.sqrt := alpha, sqrt;
      mean, variance, mad, samples := 0.0, 0.0, 0.0, 0;
    }

    method Update(sample: real)
      modifies this
      ensures View() == Updated(old(View()), alpha, sample, sqrt)
    {
      hide Bounded;
      ghost var before := View();
      var prevMean := mean;
      var boundedDelta := ClippedDelta(sample);
      samples := samples + 1;

      mean := prevMean + alpha * boundedDelta;

      variance := (1.0 - alpha) * variance + alpha * boundedDelta * boundedDelta;

      var absDev := Abs(sample - prevMean);
      mad := (1.0 - alpha) * mad + alpha * absDev;
      assert mean == Updated(before, alpha, sample, sqrt).mean;
      assert variance == Updated(before, alpha, sample, sqrt).variance;
      assert mad == Updated(before, alpha, sample, sqrt).mad;
    }

    /** The lines of `Update` that compute the scale and clip the deviation. */
    method ClippedDelta(sample: real) returns (boundedDelta: real)
      ensures boundedDelta == Bounded(View(), sample, sqrt)
    {
      var delta := sample - mean;
      var scale := RobustStddev();
      boundedDelta := Huber(delta, scale, 3.0);
    }

    function Stddev(): real
      reads this
    {
      StddevOf(View(), sqrt)
    }

    function RobustStddev(): (scale: real)
      reads this
      ensures scale == RobustStddevOf(View(), sqrt)
    {
      MaxReal(MaxReal(1.4826 * mad, sqrt(variance) * 0.25), EPSILON)
    }
  }
}
