/**
 The documented default of the z-scores, two zeros whenever one deviation is
 too small: the code zeroes each dimension by itself, so it holds for some
 settings only, and this says which.
 */
module ZScores {
  import opened Prelude
  import opened Ewma
  import opened EwmaBounds
  import opened ProtoManager
  import opened Estimator
  import opened Rates
  import opened Readiness
  import opened Detectors
  import opened Runner
  import FreezeLoop
  import FlatRuns

  predicate TooSmall(b: BaselineStats) {
    b.stddev <= EPSILON
  }

  /** When the default holds of one call: the other dimension is too small as well, or sits on its mean. */
  lemma TwoZerosIff(b: ProtoBaseline, pps: real, bps: real)
    requires TooSmall(b.pps) || TooSmall(b.bps)
    ensures ProtoZScores(b, pps, bps) == (0.0, 0.0) <==>
              && (TooSmall(b.pps) || pps == b.pps.mean) && (TooSmall(b.bps) || bps == b.bps.mean)
  {
    if !TooSmall(b.pps) {
      QuotientIsZero(pps - b.pps.mean, b.pps.stddev);
    }
    if !TooSmall(b.bps) {
      QuotientIsZero(bps - b.bps.mean, b.bps.stddev);
    }
  }

  lemma QuotientIsZero(d: real, s: real)
    requires s > 0.0
    ensures d / s == 0.0 <==> d == 0.0
  {
    assert d / s * s == d;
  }

  predicate DefaultHoldsAt(state: BaselineState, pps: real, bps: real) {
    state.Ready? && (TooSmall(state.baseline.pps) || TooSmall(state.baseline.bps)) ==>
      ProtoZScores(state.baseline, pps, bps) == (0.0, 0.0)
  }

  /** The baseline state that a pipeline shows of a protocol after a run. */
  function StateAfter(run: seq<Input>, settings: Settings, proto: Proto): BaselineState {
    SnapshotOf(FreezeLoop.After(run, settings).baseline, settings.config, settings.sqrt, proto)
  }

  /** The documented default, after every run of every pipeline with this configuration and for all rates. */
  ghost predicate DefaultHolds(config: Config, sqrt: real -> real) {
    forall settings: Settings, run, proto, pps, bps :: settings.config == config && settings.sqrt == sqrt ==>
      DefaultHoldsAt(StateAfter(run, settings, proto), pps, bps)
  }

  // ---- Runs with a steady packet rate ----

  const SECOND: Duration := 1000000000

  function Sum(deltas: seq<nat>): nat {
    if deltas == [] then 0 else Sum(deltas[..|deltas| - 1]) + deltas[|deltas| - 1]
  }

  /** What the kernel shows after `n` seconds with one TCP packet each. */
  function SnapshotAt(n: nat, bytes: nat): Snapshot {
    var none := Counters(0, 0);
    Snapshot(n * SECOND, [none, Counters(n, bytes), none, none, none])
  }

  /** A tick every second, the first one to prime; tick `n` shows one TCP packet and `deltas[n - 1]` bytes more. */
  function RunOf(deltas: seq<nat>): (run: seq<Input>)
    ensures |run| == |deltas| + 1
  {
    (if deltas == [] then [] else RunOf(deltas[..|deltas| - 1]))
    + [Input(Some(SnapshotAt(|deltas|, Sum(deltas))), |deltas| * SECOND)]
  }

  function TcpRates(deltas: seq<nat>): (rates: seq<ProtoRate>)
    ensures |rates| == |deltas|
  {
    seq(|deltas|, i requires 0 <= i < |deltas| => ProtoRate(Tcp, 1.0, deltas[i] as real))
  }

  lemma SecondRates(n: nat, bytes: nat, delta: nat)
    ensures var rates := ComputeRates(SnapshotAt(n, bytes), SnapshotAt(n + 1, bytes + delta));
            |rates| == PROTO_COUNT && rates[1] == ProtoRate(Tcp, 1.0, delta as real)
  {
    DtSecsIsElapsed(n * SECOND, (n + 1) * SECOND);
    assert DtSecs(n * SECOND, (n + 1) * SECOND) == Some(1.0);
  }

  lemma {:induction false} RateOfTcp(rates: seq<ProtoRate>, i: nat)
    requires DistinctProtos(rates) && i < |rates|
    ensures FreezeLoop.RateOf(rates, rates[i].proto) == Some(rates[i])
  {
    FreezeLoop.RateOfHas(rates, rates[i].proto);
  }

  /** Without rules nothing is ever frozen. */
  lemma NothingIsFrozen(s: State, input: Input, settings: Settings)
    requires s.Valid() && Processes(s, input) && settings.rules == []
    ensures FreezeLoop.FrozenBy(s, input, settings) == {}
  {
    hide AfterTick;
  }

  /** Without rules every rate of such a run is learned. */
  lemma {:induction false} EveryRateIsLearned(deltas: seq<nat>, settings: Settings)
    requires settings.rules == []
    ensures FreezeLoop.Samples(RunOf(deltas), settings, Tcp) == TcpRates(deltas)
    ensures FreezeLoop.After(RunOf(deltas), settings).prev == Some(SnapshotAt(|deltas|, Sum(deltas)))
  {
    hide ComputeRates, FreezeLoop.FrozenBy, FeedAll, ActiveAt, Frozen, ProtoManager.Next, Unfrozen, AnyReady,
         SnapshotAt;
    var run, n := RunOf(deltas), |deltas| - 1;
    if deltas == [] {
      assert run[..0] == [];
    } else {
      EveryRateIsLearned(deltas[..n], settings);
      assert run[..n + 1] == RunOf(deltas[..n]);
      var s := FreezeLoop.After(run[..n + 1], settings);
      SecondRates(n, Sum(deltas[..n]), deltas[n]);
      ComputedRatesAreDistinct(s.prev.value, run[n + 1].current.value);
      RateOfTcp(RatesOf(s, run[n + 1]), 1);
      NothingIsFrozen(s, run[n + 1], settings);
      assert TcpRates(deltas) == TcpRates(deltas[..n]) + [ProtoRate(Tcp, 1.0, deltas[n] as real)];
    }
  }

  function Ones(n: nat): (xs: seq<real>)
    ensures |xs| == n
  {
    seq(n, i => 1.0)
  }

  function Reals(deltas: seq<nat>): (xs: seq<real>)
    ensures |xs| == |deltas|
  {
    seq(|deltas|, i requires 0 <= i < |deltas| => deltas[i] as real)
  }

  /** Both averages after such a run. */
  lemma {:induction false} BaselineAfter(deltas: seq<nat>, settings: Settings)
    requires settings.rules == []
    ensures var e, config := FreezeLoop.After(RunOf(deltas), settings).baseline, settings.config;
            && e.pps[Index(Tcp)] == Constant(EMPTY, config.alpha, 1.0, |deltas|, settings.sqrt)
            && e.bps[Index(Tcp)] == Fold(EMPTY, config.alpha, Reals(deltas), settings.sqrt)
            && e.elapsed == |deltas| + 1
  {
    hide Updated, FreezeLoop.After, FreezeLoop.Samples, RunOf;
    EveryRateIsLearned(deltas, settings);
    FreezeLoop.BaselineIsFoldOfUnfrozen(RunOf(deltas), settings, Tcp);
    var ones := Ones(|deltas|);
    assert FreezeLoop.PpsOf(TcpRates(deltas)) == ones;
    assert FreezeLoop.BpsOf(TcpRates(deltas)) == Reals(deltas);
    FlatRuns.FlatFoldIsConstant(settings.config.alpha, ones, 0, 1.0, settings.sqrt);
    assert ones[..0] == [];
  }

  // ---- An input at which the default fails ----

  lemma RootIsUnique(r: real, m: real)
    requires r >= 0.0 && m >= 0.0 && r * r == m * m
    ensures r == m
  {
    if r != m {
      assert (r - m) * (r + m) == 0.0;
      ProductIsNonZero(r - m, r + m);
    }
  }

  lemma ProductIsNonZero(x: real, y: real)
    requires x != 0.0 && y > 0.0
    ensures x * y != 0.0
  {}

  lemma Root(sqrt: real -> real, m: real)
    requires IsSqrt(sqrt) && m >= 0.0
    ensures sqrt(m * m) == m
  {
    EwmaBounds.NonNegativeProduct(m, m);
    RootIsUnique(sqrt(m * m), m);
  }

  lemma EmptyScale(sqrt: real -> real)
    requires IsSqrt(sqrt)
    ensures RobustStddevOf(EMPTY, sqrt) == EPSILON
  {
    Root(sqrt, 0.0);
  }

  /** With a smoothing factor of one, the first sample is clipped to three times the floor. */
  lemma FirstStep(x: real, sqrt: real -> real)
    requires IsSqrt(sqrt) && x >= 1.0
    ensures Updated(EMPTY, 1.0, x, sqrt) == Stats(0.000000003, 0.000000003 * 0.000000003, x, 1)
  {
    EmptyScale(sqrt);
    hide RobustStddevOf, IsSqrt;
    assert Bounded(EMPTY, x, sqrt) == 0.000000003;
    hide Bounded;
  }

  /** And a sample within the range of the absolute deviation is taken over whole. */
  lemma FullStep(s: Stats, x: real, sqrt: real -> real)
    requires Abs(x - s.mean) <= 4.4478 * s.mad
    ensures Updated(s, 1.0, x, sqrt) == Stats(x, (x - s.mean) * (x - s.mean), Abs(x - s.mean), s.samples + 1)
  {
    ScaleCoversDeviation(s, sqrt);
    hide RobustStddevOf;
    assert Bounded(s, x, sqrt) == x - s.mean;
  }

  /** Twice the same sample and then one up to twice as high. */
  lemma {:induction false} ThreeSteps(x: real, y: real, xs: seq<real>, sqrt: real -> real)
    requires IsSqrt(sqrt) && x >= 1.0 && x <= y <= 2.0 * x && xs == [x, x, y]
    ensures var s := Fold(EMPTY, 1.0, xs, sqrt); s.mean == y && s.variance == (y - x) * (y - x) && s.samples == 3
  {
    hide Updated;
    var s1 := Updated(EMPTY, 1.0, x, sqrt);
    FirstStep(x, sqrt);
    var s2 := Updated(s1, 1.0, x, sqrt);
    FullStep(s1, x, sqrt);
    FullStep(s2, y, sqrt);
    FoldsThree(x, y, xs, sqrt);
  }

  lemma {:induction false} FoldsThree(x: real, y: real, xs: seq<real>, sqrt: real -> real)
    requires xs == [x, x, y]
    ensures Fold(EMPTY, 1.0, xs, sqrt) == Updated(Updated(Updated(EMPTY, 1.0, x, sqrt), 1.0, x, sqrt), 1.0, y, sqrt)
  {
    hide Updated;
    var none := xs[..0];
    FreezeLoop.FoldAppend(EMPTY, 1.0, none, x, sqrt);
    FreezeLoop.FoldAppend(EMPTY, 1.0, none + [x], x, sqrt);
    FreezeLoop.FoldAppend(EMPTY, 1.0, none + [x] + [x], y, sqrt);
    assert xs == none + [x] + [x] + [y];
  }

  /** Three seconds with one packet each, of 100, 100 and 200 bytes; a minimum deviation of zero. */
  function ThreeSeconds(): seq<Input> {
    RunOf([100, 100, 200])
  }

  function NoMinimum(sqrt: real -> real): Settings {
    Settings(Config(1.0, 3, 0.0, 3), [], [], sqrt)
  }

  /**
   The input: after four ticks the baseline is in use, with a packet deviation
   that is too small and a byte deviation of 100, and a rate of 1000 bytes
   scores 8 and raises a severe signal.
   */
  lemma LopsidedRunScores(sqrt: real -> real)
    requires IsSqrt(sqrt)
    ensures var state := StateAfter(ThreeSeconds(), NoMinimum(sqrt), Tcp);
            && state == Ready(ProtoBaseline(BaselineStats(1.0, EPSILON), BaselineStats(200.0, 100.0)))
            && TooSmall(state.baseline.pps)
            && ProtoZScores(state.baseline, 1.0, 1000.0) == (0.0, 8.0)
            && EwmaSignal(state, ProtoRate(Tcp, 1.0, 1000.0)) == Some(AlertSignal(Tcp, Severe, Spike, 0.8))
  {
    hide FreezeLoop.After, RunOf, Fold, Constant;
    var deltas := [100, 100, 200];
    BaselineAfter(deltas, NoMinimum(sqrt));
    ThreeSteps(100.0, 200.0, Reals(deltas), sqrt);
    var ones := [1.0, 1.0, 1.0];
    ThreeSteps(1.0, 1.0, ones, sqrt);
    FlatRuns.FlatFoldIsConstant(1.0, ones, 0, 1.0, sqrt);
    assert ones[..0] == [];
    FoldsNone(ones[..0], sqrt);
    Root(sqrt, 0.0);
    Root(sqrt, 100.0);
  }

  lemma {:induction false} FoldsNone(xs: seq<real>, sqrt: real -> real)
    requires xs == []
    ensures Fold(EMPTY, 1.0, xs, sqrt) == EMPTY
  {}

  // ---- The exact condition ----

  /**
   One packet a second brings the packet deviation under the floor, after a number of samples that
   the smoothing factor gives.
   */
  lemma SteadyPacketsSettle(alpha: real, n: nat, sqrt: real -> real)
    requires IsSqrt(sqrt) && 0.0 < alpha <= 1.0 && n >= Needed(alpha, 3.0, EPSILON * EPSILON)
    ensures sqrt(Constant(EMPTY, alpha, 1.0, n + 1, sqrt).variance) < EPSILON
  {
    hide Updated, Energy, Needed, Enough, Settled, InHull;
    EmptyIsSettled();
    assert Constant(EMPTY, alpha, 1.0, 0, sqrt) == EMPTY;
    var first := Constant(EMPTY, alpha, 1.0, 1, sqrt);
    assert first == Updated(EMPTY, alpha, 1.0, sqrt);
    UpdateKeepsHull(EMPTY, alpha, 1.0, 1.0, sqrt);
    EnergyWithin(first);
    NeededIsEnough(alpha, 3.0, EPSILON * EPSILON, n, Energy(first, 1.0));
    VarianceFallsBelow(EMPTY, alpha, 1.0, n, EPSILON * EPSILON, sqrt);
    MeanConverges(EMPTY, alpha, 1.0, n, sqrt);
    SettledIsNonNegative(Constant(EMPTY, alpha, 1.0, n + 1, sqrt), alpha, 1.0);
    RootBelow(Constant(EMPTY, alpha, 1.0, n + 1, sqrt).variance, EPSILON, sqrt);
  }

  lemma EmptyIsSettled()
    ensures InHull(EMPTY, 1.0) && NonNegative(EMPTY)
  {}

  lemma EnergyWithin(s: Stats)
    requires InHull(s, 1.0)
    ensures Energy(s, 1.0) <= 3.0
  {
    FlatRuns.EnergyWithinHull(s, 1.0, 1.0);
  }

  /** A byte rate so high that a second one, twice as high, passes the clipping by at least `1 / alpha`. */
  function Leap(alpha: real): (high: nat)
    requires 0.0 < alpha <= 1.0
    ensures high >= 100 && alpha * (alpha * (high - 100) as real) >= 1.0
  {
    var square := alpha * alpha;
    LeapArithmetic(alpha, 1.0 / square, (1.0 / square).Floor + 1);
    100 + (1.0 / square).Floor + 1
  }

  lemma LeapArithmetic(alpha: real, q: real, n: int)
    requires alpha > 0.0 && alpha * alpha > 0.0 && q == 1.0 / (alpha * alpha) && n as real >= q
    ensures alpha * (alpha * n as real) >= 1.0 && n >= 0
  {
    var square := alpha * alpha;
    assert square * q == 1.0;
    MulMonotone(square, q, n as real);
    assert alpha * (alpha * n as real) == square * n as real;
  }

  /** Two such samples after samples up to 100 leave a variance of at least one. */
  lemma LeapSpreads(s: Stats, alpha: real, high: real, sqrt: real -> real)
    requires 0.0 < alpha <= 1.0 && InHull(s, 100.0) && NonNegative(s) && high >= 100.0
    requires alpha * (alpha * (high - 100.0)) >= 1.0
    ensures Updated(Updated(s, alpha, high, sqrt), alpha, 2.0 * high, sqrt).variance >= 1.0
  {
    hide Bounded, Updated, RobustStddevOf;
    var s1 := Updated(s, alpha, high, sqrt);
    UpdatedSpread(s, alpha, high, sqrt);
    MeanMovesTowardsSample(s, alpha, high, sqrt);
    BoundedIsShorter(s1, 2.0 * high, sqrt);
    ScaleCoversDeviation(s1, sqrt);
    LeapShare(alpha, high, Error(s, high), s1.mad, Abs(Bounded(s1, 2.0 * high, sqrt)));
    VarianceAtLeast(s1, alpha, 2.0 * high, sqrt);
  }

  lemma LeapShare(alpha: real, high: real, e: real, mad: real, b: real)
    requires 0.0 < alpha <= 1.0 && high >= 100.0 && alpha * (alpha * (high - 100.0)) >= 1.0
    requires e >= high - 100.0 && mad >= alpha * e && b >= MinReal(high, 4.4478 * mad)
    ensures alpha * b >= 1.0 && b >= 1.0
  {
    var over := high - 100.0;
    var x := alpha * over;
    MulMonotone(alpha, over, e);
    Share(alpha, over);
    assert x <= alpha * e <= mad;
    ShareAtLeastOne(alpha, x, b);
  }

  lemma ShareAtLeastOne(alpha: real, x: real, b: real)
    requires 0.0 < alpha <= 1.0 && alpha * x >= 1.0 && b >= x >= 0.0
    ensures alpha * b >= 1.0 && b >= 1.0
  {
    MulMonotone(alpha, x, b);
    Share(alpha, b);
  }

  lemma VarianceAtLeast(s: Stats, alpha: real, x: real, sqrt: real -> real)
    requires 0.0 < alpha <= 1.0 && NonNegative(s)
    requires alpha * Abs(Bounded(s, x, sqrt)) >= 1.0 && Abs(Bounded(s, x, sqrt)) >= 1.0
    ensures Updated(s, alpha, x, sqrt).variance >= 1.0
  {
    hide Bounded;
    VarianceArithmetic(alpha, s.variance, Bounded(s, x, sqrt));
  }

  lemma VarianceArithmetic(alpha: real, v: real, b: real)
    requires 0.0 < alpha <= 1.0 && v >= 0.0 && alpha * Abs(b) >= 1.0 && Abs(b) >= 1.0
    ensures (1.0 - alpha) * v + alpha * b * b >= 1.0
  {
    NonNegativeProduct(1.0 - alpha, v);
    SquareOfAbs(b);
    assert alpha * b * b == alpha * (b * b) == alpha * (Abs(b) * Abs(b)) == Abs(b) * (alpha * Abs(b));
    MulMonotone(Abs(b), 1.0, alpha * Abs(b));
  }

  /** `k` seconds with 100 bytes each, and then the two leaps. */
  function Leaps(k: nat, high: nat): (deltas: seq<nat>)
    ensures |deltas| == k + 2 && deltas[k] == high && deltas[k + 1] == 2 * high
    ensures forall i :: 0 <= i < k ==> deltas[i] == 100
  {
    seq(k, i => 100) + [high, 2 * high]
  }

  lemma {:induction false} LeapsSpread(k: nat, high: nat, alpha: real, sqrt: real -> real)
    requires 0.0 < alpha <= 1.0 && high >= 100 && alpha * (alpha * (high - 100) as real) >= 1.0
    ensures Fold(EMPTY, alpha, Reals(Leaps(k, high)), sqrt).variance >= 1.0
  {
    hide Updated;
    var xs := Reals(Leaps(k, high));
    assert xs[..k + 1][..k] == xs[..k];
    RunKeepsHull(alpha, xs[..k], 100.0, sqrt);
    FlatRuns.FoldIsNonNegative(alpha, xs[..k], sqrt);
    LeapSpreads(Fold(EMPTY, alpha, xs[..k], sqrt), alpha, high as real, sqrt);
    assert xs[k + 1] == 2.0 * high as real;
  }

  lemma RootAtLeastOne(v: real, sqrt: real -> real)
    requires IsSqrt(sqrt) && v >= 1.0
    ensures sqrt(v) >= 1.0
  {
    var r := sqrt(v);
    if r < 1.0 {
      MulMonotone(r, r, 1.0);
    }
  }

  /** How long the packets have to be steady: for the deviation to fall, and for both gates of the readiness. */
  function Steady(config: Config): (k: nat)
    requires 0.0 < config.alpha <= 1.0
    ensures k >= Needed(config.alpha, 3.0, EPSILON * EPSILON) && k >= config.minSamples && k >= config.minElapsedTicks
  {
    Max(Needed(config.alpha, 3.0, EPSILON * EPSILON), Max(config.minSamples, config.minElapsedTicks))
  }

  /** A run that fails the default under any configuration whose minimum lets a too small deviation pass. */
  lemma LowMinimumFails(settings: Settings)
    requires IsSqrt(settings.sqrt) && 0.0 < settings.config.alpha <= 1.0 && settings.config.minStddev <= EPSILON
    requires settings.rules == []
    ensures var config := settings.config;
            var state := StateAfter(RunOf(Leaps(Steady(config), Leap(config.alpha))), settings, Tcp);
            && state.Ready? && TooSmall(state.baseline.pps) && state.baseline.bps.stddev >= 1.0
            && !DefaultHoldsAt(state, state.baseline.pps.mean, state.baseline.bps.mean + 1.0)
  {
    hide FreezeLoop.After, RunOf, Fold, Constant, Needed, ProtoZScores, Leap, Steady, Reals;
    var config, sqrt := settings.config, settings.sqrt;
    var k, high := Steady(config), Leap(config.alpha);
    var deltas := Leaps(k, high);
    BaselineAfter(deltas, settings);
    SteadyPacketsSettle(config.alpha, k + 1, sqrt);
    LeapsSpread(k, high, config.alpha, sqrt);
    RootAtLeastOne(Fold(EMPTY, config.alpha, Reals(deltas), sqrt).variance, sqrt);
    FlatRuns.FoldCounts(config.alpha, Reals(deltas), sqrt);
    ConstantCounts(config.alpha, |deltas|, sqrt);
    var state := StateAfter(RunOf(deltas), settings, Tcp);
    TwoZerosIff(state.baseline, state.baseline.pps.mean, state.baseline.bps.mean + 1.0);
  }

  lemma {:induction false} ConstantCounts(alpha: real, n: nat, sqrt: real -> real)
    ensures Constant(EMPTY, alpha, 1.0, n, sqrt).samples == n
  {
    hide Bounded;
    if n == 0 {
    } else {
      ConstantCounts(alpha, n - 1, sqrt);
    }
  }

  /** A minimum over the floor keeps the default at every estimate, reached or not. */
  lemma HighMinimumHolds(e: Estimate, config: Config, sqrt: real -> real, proto: Proto, pps: real, bps: real)
    requires e.Valid() && config.minStddev > EPSILON
    ensures DefaultHoldsAt(SnapshotOf(e, config, sqrt, proto), pps, bps)
  {}

  /**
   The documented default holds after every run if and only if the configured
   minimum deviation exceeds the floor, for every smoothing factor, sample count
   and number of ticks to wait.
   */
  lemma DefaultIffMinimum(config: Config, sqrt: real -> real)
    requires IsSqrt(sqrt) && 0.0 < config.alpha <= 1.0
    ensures DefaultHolds(config, sqrt) <==> config.minStddev > EPSILON
  {
    hide DefaultHoldsAt;
    if config.minStddev > EPSILON {
      forall settings: Settings, run, proto, pps, bps | settings.config == config && settings.sqrt == sqrt
        ensures DefaultHoldsAt(StateAfter(run, settings, proto), pps, bps)
      {
        HighMinimumHolds(FreezeLoop.After(run, settings).baseline, config, sqrt, proto, pps, bps);
      }
    } else {
      LowMinimumFails(Settings(config, [], [], sqrt));
    }
  }
}
