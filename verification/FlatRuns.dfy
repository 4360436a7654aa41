/**
 Readiness over whole runs of the pipeline: a protocol whose rate goes flat is
 taken out of use again, after a number of samples that the settings and the
 highest rate ever seen determine.
 */
module FlatRuns {
  import opened Ewma
  import opened EwmaBounds
  import opened ProtoManager
  import opened Estimator
  import opened Rates
  import opened Readiness
  import opened Runner
  import FreezeLoop

  /** The list ends with a first and `k` more samples of value `c`. */
  predicate EndsFlat(xs: seq<real>, c: real, k: nat) {
    |xs| >= k + 1 && forall i :: |xs| - k - 1 <= i < |xs| ==> xs[i] == c
  }

  /** What came before them. */
  function Prefix(xs: seq<real>, k: nat): seq<real>
    requires |xs| >= k + 1
  {
    xs[..|xs| - k - 1]
  }

  /** The average that they left. */
  function Before(xs: seq<real>, k: nat, settings: Settings): Stats
    requires |xs| >= k + 1
  {
    Fold(EMPTY, settings.config.alpha, Prefix(xs, k), settings.sqrt)
  }

  lemma {:induction false} FoldIsNonNegative(alpha: real, xs: seq<real>, sqrt: real -> real)
    requires 0.0 < alpha <= 1.0
    ensures NonNegative(Fold(EMPTY, alpha, xs, sqrt))
  {
    hide Updated;
    if xs == [] {
      assert NonNegative(EMPTY);
    } else {
      var n := |xs| - 1;
      FoldIsNonNegative(alpha, xs[..n], sqrt);
      UpdatedSpread(Fold(EMPTY, alpha, xs[..n], sqrt), alpha, xs[n], sqrt);
    }
  }

  /** The samples from position `m` on, all of value `c`, are so many constant updates of what came before. */
  lemma {:induction false} FlatFoldIsConstant(alpha: real, xs: seq<real>, m: nat, c: real, sqrt: real -> real)
    requires m <= |xs| && forall i :: m <= i < |xs| ==> xs[i] == c
    ensures Fold(EMPTY, alpha, xs, sqrt) == Constant(Fold(EMPTY, alpha, xs[..m], sqrt), alpha, c, |xs| - m, sqrt)
  {
    hide Updated;
    var n := |xs| - 1;
    if m == |xs| {
      assert xs[..m] == xs;
    } else {
      FlatFoldIsConstant(alpha, xs[..n], m, c, sqrt);
      assert xs[..n][..m] == xs[..m];
    }
  }

  /** The list is the one that a run fed to the packet or to the byte average of the protocol. */
  predicate FedTo(xs: seq<real>, run: seq<Input>, settings: Settings, proto: Proto) {
    || xs == FreezeLoop.PpsOf(FreezeLoop.Samples(run, settings, proto))
    || xs == FreezeLoop.BpsOf(FreezeLoop.Samples(run, settings, proto))
  }

  /**
   After any run, if the samples fed to one average of a protocol end with a
   first and `k` more of the same value, and `k` is enough for what the first of
   them left, the protocol is Warming, whatever its other average holds.
   */
  lemma {:induction false} FlatRunIsWarming(run: seq<Input>, settings: Settings, proto: Proto, xs: seq<real>, c: real,
                                            k: nat)
    requires IsSqrt(settings.sqrt) && 0.0 < settings.config.alpha <= 1.0 && settings.config.minStddev > EPSILON
    requires FedTo(xs, run, settings, proto) && EndsFlat(xs, c, k)
    requires EnoughFlat(Before(xs, k, settings), settings.config, c, k, settings.sqrt)
    ensures SnapshotOf(FreezeLoop.After(run, settings).baseline, settings.config, settings.sqrt, proto) == Warming
  {
    hide FreezeLoop.After, FreezeLoop.Samples, EnoughFlat, SnapshotOf;
    var alpha, sqrt := settings.config.alpha, settings.sqrt;
    var e, s := FreezeLoop.After(run, settings).baseline, Before(xs, k, settings);
    FreezeLoop.BaselineIsFoldOfUnfrozen(run, settings, proto);
    FlatFoldIsConstant(alpha, xs, |xs| - k - 1, c, sqrt);
    FoldIsNonNegative(alpha, Prefix(xs, k), sqrt);
    FlatIsWarming(e, settings.config, proto, Fold(EMPTY, alpha, xs, sqrt), s, c, k, sqrt);
  }

  // ---- A number of samples that does not depend on what came before ----

  lemma {:induction false} SamplesAreNonNegative(run: seq<Input>, settings: Settings, proto: Proto)
    ensures forall r :: r in FreezeLoop.Samples(run, settings, proto) ==> r.pps >= 0.0 && r.bps >= 0.0
  {
    hide FreezeLoop.After, AfterTick, FreezeLoop.FrozenBy;
    if run == [] {
    } else {
      var n := |run| - 1;
      SamplesAreNonNegative(run[..n], settings, proto);
      var s := FreezeLoop.After(run[..n], settings);
      if Processes(s, run[n]) {
        FreezeLoop.RateOfHas(RatesOf(s, run[n]), proto);
        RatesAreNonNegative(s.prev.value, run[n].current.value);
      }
    }
  }

  lemma RatesAreNonNegative(prev: Snapshot, curr: Snapshot)
    ensures forall r :: r in ComputeRates(prev, curr) ==> r.pps >= 0.0 && r.bps >= 0.0
  {
    var dt := DtSecs(prev.timestamp, curr.timestamp);
    if dt.Some? {
      forall a: nat, b: nat ensures Rate(a, b, dt.value) >= 0.0 {}
    }
  }

  lemma FedIsNonNegative(run: seq<Input>, settings: Settings, proto: Proto, xs: seq<real>)
    requires FedTo(xs, run, settings, proto)
    ensures forall i :: 0 <= i < |xs| ==> xs[i] >= 0.0
  {
    hide FreezeLoop.Samples;
    SamplesAreNonNegative(run, settings, proto);
  }

  /** The energy that a first flat sample leaves is bounded by the highest sample. */
  lemma EnergyWithinHull(s: Stats, c: real, m: real)
    requires InHull(s, m) && 0.0 <= c <= m
    ensures Energy(s, c) <= 3.0 * (m * m)
  {
    SquareMonotone(Error(s, c), m);
  }

  lemma FirstFlatSampleEnergy(settings: Settings, xs: seq<real>, c: real, k: nat, m: real)
    requires 0.0 < settings.config.alpha <= 1.0 && EndsFlat(xs, c, k) && forall i :: 0 <= i < |xs| ==> 0.0 <= xs[i] <= m
    ensures Energy(Updated(Before(xs, k, settings), settings.config.alpha, c, settings.sqrt), c) <= 3.0 * (m * m)
  {
    hide Energy, InHull, Updated;
    var alpha, sqrt := settings.config.alpha, settings.sqrt;
    var n := |xs| - k - 1;
    assert xs[n] == c && xs[..n + 1][..n] == Prefix(xs, k);
    RunKeepsHull(alpha, xs[..n + 1], m, sqrt);
    assert Updated(Before(xs, k, settings), alpha, c, sqrt) == Fold(EMPTY, alpha, xs[..n + 1], sqrt);
    EnergyWithinHull(Fold(EMPTY, alpha, xs[..n + 1], sqrt), c, m);
  }

  /**
   A protocol whose packet or byte rate never exceeded `m` is Warming after any
   run that fed it a first and then `Needed` more samples of one value.
   */
  lemma {:induction false} FlatTrafficReturnsToWarming(run: seq<Input>, settings: Settings, proto: Proto,
                                                       xs: seq<real>, c: real, k: nat, m: real)
    requires IsSqrt(settings.sqrt) && 0.0 < settings.config.alpha <= 1.0 && settings.config.minStddev > EPSILON
    requires FedTo(xs, run, settings, proto) && EndsFlat(xs, c, k) && forall i :: 0 <= i < |xs| ==> xs[i] <= m
    requires k >= Needed(settings.config.alpha, 3.0 * (m * m), settings.config.minStddev * settings.config.minStddev)
    ensures SnapshotOf(FreezeLoop.After(run, settings).baseline, settings.config, settings.sqrt, proto) == Warming
  {
    hide FreezeLoop.After, FedTo, EndsFlat, Decay, EnergyOf, Error, Updated, SnapshotOf, Needed, Before;
    var alpha, target := settings.config.alpha, settings.config.minStddev * settings.config.minStddev;
    AtLeastOne(xs, c, k);
    FedIsNonNegative(run, settings, proto, xs);
    FirstFlatSampleEnergy(settings, xs, c, k, m);
    SquareIsPositive(settings.config.minStddev);
    NeededIsEnough(alpha, 3.0 * (m * m), target, k,
                   Energy(Updated(Before(xs, k, settings), alpha, c, settings.sqrt), c));
    FlatRunIsWarming(run, settings, proto, xs, c, k);
  }

  lemma AtLeastOne(xs: seq<real>, c: real, k: nat)
    requires EndsFlat(xs, c, k)
    ensures |xs| >= k + 1
  {}

  /** After any run: `Readiness.ReadyIff` for the averages that the run left. */
  lemma {:induction false} RunIsReadyIff(run: seq<Input>, settings: Settings, proto: Proto)
    requires IsSqrt(settings.sqrt) && 0.0 < settings.config.alpha <= 1.0
    ensures var e, config := FreezeLoop.After(run, settings).baseline, settings.config;
            var pps, bps := e.pps[Index(proto)], e.bps[Index(proto)];
            SnapshotOf(e, config, settings.sqrt, proto).Ready? <==>
              && |FreezeLoop.Samples(run, settings, proto)| >= config.minSamples
              && Deviating(pps, config.minStddev) && Deviating(bps, config.minStddev)
              && |run| >= config.minElapsedTicks
  {
    hide FreezeLoop.After, FreezeLoop.Samples, Fold, SnapshotOf;
    var samples := FreezeLoop.Samples(run, settings, proto);
    FreezeLoop.BaselineIsFoldOfUnfrozen(run, settings, proto);
    FoldIsNonNegative(settings.config.alpha, FreezeLoop.PpsOf(samples), settings.sqrt);
    FoldIsNonNegative(settings.config.alpha, FreezeLoop.BpsOf(samples), settings.sqrt);
    RunsStayPaired(run, settings, proto);
    ReadyIff(FreezeLoop.After(run, settings).baseline, settings.config, proto, settings.sqrt);
  }

  // ---- Paired sample counts ----

  /** After any run both averages of a protocol have seen as many samples as the run fed to it. */
  lemma {:induction false} RunsStayPaired(run: seq<Input>, settings: Settings, proto: Proto)
    ensures var e, n := FreezeLoop.After(run, settings).baseline, |FreezeLoop.Samples(run, settings, proto)|;
            e.pps[Index(proto)].samples == n && e.bps[Index(proto)].samples == n
  {
    hide FreezeLoop.After, FreezeLoop.Samples, Fold;
    var samples := FreezeLoop.Samples(run, settings, proto);
    FreezeLoop.BaselineIsFoldOfUnfrozen(run, settings, proto);
    FoldCounts(settings.config.alpha, FreezeLoop.PpsOf(samples), settings.sqrt);
    FoldCounts(settings.config.alpha, FreezeLoop.BpsOf(samples), settings.sqrt);
  }

  lemma {:induction false} FoldCounts(alpha: real, xs: seq<real>, sqrt: real -> real)
    ensures Fold(EMPTY, alpha, xs, sqrt).samples == |xs|
  {
    hide Bounded;
    if xs == [] {
      assert Fold(EMPTY, alpha, xs, sqrt) == EMPTY;
    } else {
      FoldCounts(alpha, xs[..|xs| - 1], sqrt);
    }
  }
}
