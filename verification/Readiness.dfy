/** What makes a protocol's baseline fit for use, and what takes it out of use again. */
module Readiness {
  import opened Ewma
  import opened EwmaBounds
  import opened ProtoManager
  import opened Estimator

  /** Both dimensions of a protocol have seen equally many samples. */
  ghost predicate Paired(e: Estimate)
    requires e.Valid()
  {
    forall i :: 0 <= i < PROTO_COUNT ==> e.pps[i].samples == e.bps[i].samples
  }

  lemma {:induction false} UpdatesKeepPairs(e: Estimate, alpha: real, rates: seq<ProtoRate>, sqrt: real -> real)
    requires e.Valid() && Paired(e)
    ensures Paired(FeedAll(e, alpha, rates, sqrt))
  {
    if rates == [] {
    } else {
      hide Bounded;
      UpdatesKeepPairs(e, alpha, rates[..|rates| - 1], sqrt);
    }
  }

  lemma RootBelow(v: real, m: real, sqrt: real -> real)
    requires IsSqrt(sqrt) && 0.0 <= v < m * m && m > 0.0
    ensures sqrt(v) < m
  {
    var r := sqrt(v);
    assert r >= 0.0 && r * r == v;
    RootLess(r, m);
  }

  lemma RootLess(r: real, m: real)
    requires r >= 0.0 && m > 0.0 && r * r < m * m
    ensures r < m
  {
    assert (m - r) * (m + r) > 0.0;
  }

  /**
   The condition on the minimum is needed: the reported deviation never falls
   below its floor, so a minimum at or under the floor rejects no protocol, and
   only the sample count and the clock decide.
   */
  lemma LowMinimumRejectsNothing(e: Estimate, config: Config, proto: Proto, sqrt: real -> real)
    requires e.Valid() && config.minStddev <= EPSILON
    ensures SnapshotOf(e, config, sqrt, proto).Ready? <==>
              && e.pps[Index(proto)].samples >= config.minSamples && e.bps[Index(proto)].samples >= config.minSamples
              && e.elapsed >= config.minElapsedTicks
  {}

  /** From the state `s`, a first and `k` more samples of value `c` bring the deviation under the configured minimum. */
  predicate EnoughFlat(s: Stats, config: Config, c: real, k: nat, sqrt: real -> real) {
    Enough(k, config.alpha, Energy(Updated(s, config.alpha, c, sqrt), c), config.minStddev * config.minStddev)
  }

  /**
   One dimension of a protocol that has seen a first and then enough more
   samples of the same value takes the protocol out of use, whatever the other
   dimension holds.
   */
  lemma {:induction false} FlatIsWarming(e: Estimate, config: Config, proto: Proto, flat: Stats, s: Stats, c: real,
                                         k: nat, sqrt: real -> real)
    requires IsSqrt(sqrt) && 0.0 < config.alpha <= 1.0 && config.minStddev > EPSILON && NonNegative(s)
    requires e.Valid() && (flat == e.pps[Index(proto)] || flat == e.bps[Index(proto)])
    requires flat == Constant(s, config.alpha, c, k + 1, sqrt)
    requires EnoughFlat(s, config, c, k, sqrt)
    ensures SnapshotOf(e, config, sqrt, proto) == Warming
  {
    hide Updated, Decay, EnergyOf, Error, Settled, SnapshotOf;
    assert Constant(s, config.alpha, c, 1, sqrt) == Updated(s, config.alpha, c, sqrt);
    SquareIsPositive(config.minStddev);
    VarianceFallsBelow(s, config.alpha, c, k, config.minStddev * config.minStddev, sqrt);
    MeanConverges(s, config.alpha, c, k, sqrt);
    SettledIsNonNegative(flat, config.alpha, c);
    RootBelow(flat.variance, config.minStddev, sqrt);
    SmallDeviationIsWarming(e, config, proto, flat, sqrt);
  }

  lemma SmallDeviationIsWarming(e: Estimate, config: Config, proto: Proto, flat: Stats, sqrt: real -> real)
    requires config.minStddev > EPSILON && sqrt(flat.variance) < config.minStddev
    requires e.Valid() && (flat == e.pps[Index(proto)] || flat == e.bps[Index(proto)])
    ensures SnapshotOf(e, config, sqrt, proto) == Warming
  {}

  lemma SquareIsPositive(x: real)
    requires x > 0.0
    ensures x * x > 0.0
  {}

  lemma SettledIsNonNegative(s: Stats, alpha: real, c: real)
    requires Settled(s, alpha, c)
    ensures s.variance >= 0.0
  {}

  // ---- When a baseline is in use ----

  /** The reported deviation is at least the minimum. */
  predicate Deviating(s: Stats, minStddev: real) {
    minStddev <= EPSILON || s.variance >= minStddev * minStddev
  }

  lemma RootAtLeast(v: real, m: real, sqrt: real -> real)
    requires IsSqrt(sqrt) && v >= m * m && m > 0.0
    ensures sqrt(v) >= m
  {
    SquareIsPositive(m);
    var r := sqrt(v);
    assert r >= 0.0 && r * r == v;
    if r < m {
      SquareLess(r, m);
    }
  }

  lemma SquareLess(r: real, m: real)
    requires 0.0 <= r < m
    ensures r * r < m * m
  {
    SquareGap(m - r, r);
  }

  lemma SquareGap(gap: real, r: real)
    requires gap > 0.0 && r >= 0.0
    ensures r * r < (gap + r) * (gap + r)
  {
    NonNegativeProduct(gap, r);
    SquareIsPositive(gap);
    assert (gap + r) * (gap + r) == gap * gap + 2.0 * (gap * r) + r * r;
  }

  lemma DeviatingIff(s: Stats, minStddev: real, sqrt: real -> real)
    requires IsSqrt(sqrt) && s.variance >= 0.0
    ensures StddevOf(s, sqrt) >= minStddev <==> Deviating(s, minStddev)
  {
    if minStddev > EPSILON {
      if s.variance >= minStddev * minStddev {
        RootAtLeast(s.variance, minStddev, sqrt);
      } else {
        RootBelow(s.variance, minStddev, sqrt);
      }
    }
  }

  /**
   A baseline is in use exactly when both averages have their samples, both
   variances reach the square of the minimum deviation, and enough ticks have
   passed; it then reports the two means, and deviations that are at least the
   minimum.
   */
  lemma ReadyIff(e: Estimate, config: Config, proto: Proto, sqrt: real -> real)
    requires IsSqrt(sqrt) && e.Valid()
    requires e.pps[Index(proto)].variance >= 0.0 && e.bps[Index(proto)].variance >= 0.0
    ensures var pps, bps, state := e.pps[Index(proto)], e.bps[Index(proto)], SnapshotOf(e, config, sqrt, proto);
            && (state.Ready? <==>
                  && pps.samples >= config.minSamples && bps.samples >= config.minSamples
                  && Deviating(pps, config.minStddev) && Deviating(bps, config.minStddev)
                  && e.elapsed >= config.minElapsedTicks)
            && (state.Ready? ==>
                  && state.baseline.pps.mean == pps.mean && state.baseline.bps.mean == bps.mean
                  && state.baseline.pps.stddev >= config.minStddev && state.baseline.bps.stddev >= config.minStddev)
  {
    DeviatingIff(e.pps[Index(proto)], config.minStddev, sqrt);
    DeviatingIff(e.bps[Index(proto)], config.minStddev, sqrt);
    hide StddevOf, Deviating, IsSqrt;
  }
}
