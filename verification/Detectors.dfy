/**
 The two detectors of the per-protocol pipeline, and the independent view that
 the metrics and the API derive from the same baseline.
 */
module Detectors {
  import opened Prelude
  import opened Ewma
  import opened ProtoManager
  import opened Estimator
  import opened Rates

  // ---- z-scores ----

  function ZScore(value: real, mean: real, stddev: real): Option<real> {
    if stddev <= EPSILON then None else Some((value - mean) / stddev)
  }

  function OrZero(z: Option<real>): real {
    if z.Some? then z.value else 0.0
  }

  function ProtoZScores(b: ProtoBaseline, pps: real, bps: real): (real, real) {
    (OrZero(ZScore(pps, b.pps.mean, b.pps.stddev)), OrZero(ZScore(bps, b.bps.mean, b.bps.stddev)))
  }

  function LevelFromZ(z: real): Level {
    var a := Abs(z);
    if a < 3.0 then Normal else if a < 6.0 then Suspicious else Severe
  }

  // ---- The moving-average detector ----

  function WorseLevel(a: Level, b: Level): Level {
    if a == Severe || b == Severe then Severe
    else if a == Suspicious || b == Suspicious then Suspicious
    else Normal
  }

  /** The signal for one rate, or none while warming or normal. */
  function EwmaSignal(state: BaselineState, rate: ProtoRate): Option<AlertSignal> {
    match state
    case Warming => None
    case Ready(baseline) =>
      var (zPps, zBps) := ProtoZScores(baseline, rate.pps, rate.bps);
      var level := WorseLevel(LevelFromZ(zPps), LevelFromZ(zBps));
      if level == Normal then None
      else
        var dominant := if Abs(zPps) >= Abs(zBps) then zPps else zBps;
        var confidence := MinReal(MaxReal(Abs(zPps), Abs(zBps)) / 10.0, 1.0);
        Some(AlertSignal(rate.proto, level, if dominant >= 0.0 then Spike else Drop, confidence))
  }

  // ---- The same verdict without a division ----

  /** The value is at least `k` standard deviations away from its mean, and the deviation is not negligible. */
  predicate Deviates(value: real, b: BaselineStats, k: real) {
    b.stddev > EPSILON && Abs(value - b.mean) >= k * b.stddev
  }

  predicate Above(value: real, b: BaselineStats, k: real) {
    b.stddev > EPSILON && value - b.mean >= k * b.stddev
  }

  predicate Below(value: real, b: BaselineStats, k: real) {
    b.stddev > EPSILON && b.mean - value >= k * b.stddev
  }

  lemma QuotientCompares(d: real, s: real, k: real)
    requires s > 0.0
    ensures d / s >= k <==> d >= k * s
    ensures d / s <= -k <==> -d >= k * s
  {
    var q := d / s;
    assert q * s == d;
    assert (q - k) * s == d - k * s && (-q - k) * s == -d - k * s;
    SignOfProduct(q - k, s);
    SignOfProduct(-q - k, s);
  }

  lemma SignOfProduct(x: real, s: real)
    requires s > 0.0
    ensures x >= 0.0 <==> x * s >= 0.0
  {}

  lemma ScoreCompares(value: real, b: BaselineStats, k: real)
    requires k > 0.0
    ensures var z := OrZero(ZScore(value, b.mean, b.stddev));
            && (Abs(z) >= k <==> Deviates(value, b, k))
            && (z >= k <==> Above(value, b, k))
            && (z <= -k <==> Below(value, b, k))
  {
    if b.stddev > EPSILON {
      QuotientCompares(value - b.mean, b.stddev, k);
    }
  }

  /**
   A signal is raised exactly when one of the two rates is three standard
   deviations off a baseline that is in use, and is severe exactly when one is
   six off. The kind names a side on which some rate really is that far off.
   A dimension with a negligible deviation is left out; the other still counts.
   */
  lemma SignalIffDeviates(state: BaselineState, rate: ProtoRate)
    ensures EwmaSignal(state, rate).Some? <==>
              state.Ready?
                && (Deviates(rate.pps, state.baseline.pps, 3.0) || Deviates(rate.bps, state.baseline.bps, 3.0))
    ensures EwmaSignal(state, rate).Some? ==>
              var s, b := EwmaSignal(state, rate).value, state.baseline;
              && s.proto == rate.proto
              && (s.level == Severe <==> Deviates(rate.pps, b.pps, 6.0) || Deviates(rate.bps, b.bps, 6.0))
              && (s.kind == Spike ==> Above(rate.pps, b.pps, 3.0) || Above(rate.bps, b.bps, 3.0))
              && (s.kind == Drop ==> Below(rate.pps, b.pps, 3.0) || Below(rate.bps, b.bps, 3.0))
              && s.kind != Emergency
  {
    if state.Ready? {
      var b := state.baseline;
      ScoreCompares(rate.pps, b.pps, 3.0);
      ScoreCompares(rate.pps, b.pps, 6.0);
      ScoreCompares(rate.bps, b.bps, 3.0);
      ScoreCompares(rate.bps, b.bps, 6.0);
      hide ZScore, Deviates, Above, Below;
    }
  }

  /**
   The dimension that deviates most decides: the confidence reaches a tenth of
   `k` exactly when some rate is `k` deviations off, and no rate is further off
   on the other side than the kind's own side.
   */
  lemma StrongestDimensionDecides(state: BaselineState, rate: ProtoRate, k: real)
    requires k > 0.0 && EwmaSignal(state, rate).Some?
    ensures var s, b := EwmaSignal(state, rate).value, state.baseline;
            && (k <= 10.0
                ==> (s.confidence >= k / 10.0 <==> Deviates(rate.pps, b.pps, k) || Deviates(rate.bps, b.bps, k)))
            && (s.kind == Spike ==> (Below(rate.pps, b.pps, k) || Below(rate.bps, b.bps, k)) ==>
                                      Above(rate.pps, b.pps, k) || Above(rate.bps, b.bps, k))
            && (s.kind == Drop ==> (Above(rate.pps, b.pps, k) || Above(rate.bps, b.bps, k)) ==>
                                     Below(rate.pps, b.pps, k) || Below(rate.bps, b.bps, k))
  {
    var b := state.baseline;
    ScoreCompares(rate.pps, b.pps, k);
    ScoreCompares(rate.bps, b.bps, k);
    hide ZScore, Deviates, Above, Below;
  }

  function EwmaSignals(e: Estimate, config: Config, sqrt: real -> real, rates: seq<ProtoRate>): seq<AlertSignal>
    requires e.Valid()
  {
    if rates == [] then []
    else
      var n := |rates| - 1;
      Append(EwmaSignals(e, config, sqrt, rates[..n]),
             EwmaSignal(SnapshotOf(e, config, sqrt, rates[n].proto), rates[n]))
  }

  /** `EwmaDetector::detect`. */
  method DetectEwma(baseline: EwmaEstimator, rates: seq<ProtoRate>) returns (signals: seq<AlertSignal>)
    requires baseline.Valid()
    ensures signals == EwmaSignals(baseline.View(), baseline.config, baseline.sqrt, rates)
  {
    signals := [];
    for n := 0 to |rates|
      invariant signals == EwmaSignals(baseline.View(), baseline.config, baseline.sqrt, rates[..n])
    {
      assert rates[..n + 1][..n] == rates[..n];
      var state := baseline.Snapshot(rates[n].proto);
      var signal := EwmaSignal(state, rates[n]);
      if signal.None? {
        continue;
      }
      signals := signals + [signal.value];
    }
    assert rates[..|rates|] == rates;
  }

  // ---- The view ----

  datatype AnomalyView = AnomalyView(zPps: real, zBps: real, level: Level, confidence: real)

  function ComputeAnomalyView(state: BaselineState, pps: real, bps: real): AnomalyView {
    match state
    case Warming => AnomalyView(0.0, 0.0, Normal, 0.0)
    case Ready(baseline) =>
      var (zPps, zBps) := ProtoZScores(baseline, pps, bps);
      var absZ := MaxReal(Abs(zPps), Abs(zBps));
      AnomalyView(zPps, zBps, if absZ >= 6.0 then Severe else if absZ >= 3.0 then Suspicious else Normal,
                  MinReal(absZ / 10.0, 1.0))
  }

  /** The detector and the view classify every rate alike, though neither calls the other. */
  lemma DetectorAgreesWithView(state: BaselineState, rate: ProtoRate)
    ensures var signal, view := EwmaSignal(state, rate), ComputeAnomalyView(state, rate.pps, rate.bps);
            && (signal.Some? <==> view.level != Normal)
            && (signal.Some? ==> signal.value.level == view.level && signal.value.confidence == view.confidence
                                 && signal.value.proto == rate.proto)
            && 0.0 <= view.confidence <= 1.0
  {}

  /** How many deviations the value is off the mean, above or below; nothing when the deviation is negligible. */
  predicate Scores(z: real, value: real, b: BaselineStats) {
    if b.stddev <= EPSILON then z == 0.0 else z * b.stddev == value - b.mean
  }

  /** The view shows each rate's own score, and none while the baseline is warming. */
  lemma ViewShowsScores(state: BaselineState, pps: real, bps: real)
    ensures var view := ComputeAnomalyView(state, pps, bps);
            if state.Ready?
            then Scores(view.zPps, pps, state.baseline.pps) && Scores(view.zBps, bps, state.baseline.bps)
            else view.zPps == 0.0 && view.zBps == 0.0 && view.level == Normal
  {
    if state.Ready? {
      ScoreIsScaled(pps, state.baseline.pps);
      ScoreIsScaled(bps, state.baseline.bps);
    }
  }

  lemma ScoreIsScaled(value: real, b: BaselineStats)
    ensures Scores(OrZero(ZScore(value, b.mean, b.stddev)), value, b)
  {
    if b.stddev > EPSILON {
      var q := (value - b.mean) / b.stddev;
      assert q * b.stddev == value - b.mean;
    }
  }

  // ---- The emergency detector ----

  datatype Threshold = Threshold(proto: Proto, maxPps: Option<real>, maxBps: Option<real>)

  function FindThreshold(thresholds: seq<Threshold>, proto: Proto): Option<Threshold> {
    if thresholds == [] then None
    else if thresholds[0].proto == proto then Some(thresholds[0])
    else FindThreshold(thresholds[1..], proto)
  }

  predicate Exceeds(value: real, limit: Option<real>) {
    limit.Some? && value > limit.value
  }

  /**
   How far a value is over its threshold, clamped to [0, 1]; what is over a zero threshold is
   infinitely far over it.
   */
  function RatioConfidence(observed: real, threshold: real): (c: real)
    ensures 0.0 <= c <= 1.0
  {
    if threshold == 0.0 then 1.0 else Clamp(observed / threshold - 1.0, 0.0, 1.0)
  }

  /** The confidence is the share by which the value is over, between nothing at the threshold and one at twice it. */
  lemma RatioConfidenceMeans(observed: real, threshold: real)
    requires threshold > 0.0
    ensures var c := RatioConfidence(observed, threshold);
            && (c == 0.0 <==> observed <= threshold) && (c == 1.0 <==> observed >= 2.0 * threshold)
            && (threshold <= observed <= 2.0 * threshold ==> c * threshold == observed - threshold)
  {
    var q := observed / threshold;
    assert q * threshold == observed;
    assert (q - 1.0) * threshold == observed - threshold && (q - 2.0) * threshold == observed - 2.0 * threshold;
    SignOfProduct(q - 1.0, threshold);
    SignOfProduct(1.0 - q, threshold);
    SignOfProduct(q - 2.0, threshold);
  }

  /**
   What is over its threshold is sure by at least `c` exactly when it is over `1 + c` times it, zero
   thresholds included.
   */
  lemma RatioConfidenceIff(observed: real, threshold: real, c: real)
    requires observed > threshold >= 0.0 && 0.0 < c <= 1.0
    ensures RatioConfidence(observed, threshold) >= c <==> observed >= (1.0 + c) * threshold
  {
    if threshold > 0.0 {
      var q := observed / threshold;
      assert q * threshold == observed;
      assert (q - 1.0 - c) * threshold == observed - (1.0 + c) * threshold;
      SignOfProduct(q - 1.0 - c, threshold);
    }
  }

  function LimitConfidence(value: real, limit: Option<real>): real {
    if limit.Some? && limit.value > 0.0 then RatioConfidence(value, limit.value) else 0.0
  }

  function EmergencySignal(thresholds: seq<Threshold>, rate: ProtoRate): Option<AlertSignal> {
    match FindThreshold(thresholds, rate.proto)
    case None => None
    case Some(t) =>
      if Exceeds(rate.pps, t.maxPps) || Exceeds(rate.bps, t.maxBps) then
        Some(AlertSignal(rate.proto, Severe, Emergency,
                         MaxReal(LimitConfidence(rate.pps, t.maxPps), LimitConfidence(rate.bps, t.maxBps))))
      else None
  }

  function EmergencySignals(thresholds: seq<Threshold>, rates: seq<ProtoRate>): seq<AlertSignal> {
    if rates == [] then []
    else
      var n := |rates| - 1;
      Append(EmergencySignals(thresholds, rates[..n]), EmergencySignal(thresholds, rates[n]))
  }

  /** `EmergencyDetector::detect`. */
  method DetectEmergency(thresholds: seq<Threshold>, rates: seq<ProtoRate>) returns (signals: seq<AlertSignal>)
    ensures signals == EmergencySignals(thresholds, rates)
  {
    signals := [];
    for n := 0 to |rates|
      invariant signals == EmergencySignals(thresholds, rates[..n])
    {
      assert rates[..n + 1][..n] == rates[..n];
      var rate := rates[n];
      var threshold := FindThreshold(thresholds, rate.proto);
      if threshold.None? {
        continue;
      }
      var t := threshold.value;
      var ppsExceeded := Exceeds(rate.pps, t.maxPps);
      var bpsExceeded := Exceeds(rate.bps, t.maxBps);
      if ppsExceeded || bpsExceeded {
        var ppsConfidence := LimitConfidence(rate.pps, t.maxPps);
        var bpsConfidence := LimitConfidence(rate.bps, t.maxBps);
        signals := signals + [AlertSignal(rate.proto, Severe, Emergency, MaxReal(ppsConfidence, bpsConfidence))];
      }
    }
    assert rates[..|rates|] == rates;
  }

  // ---- When it raises a signal, and how sure it is ----

  /** Threshold `i` is the one that counts for the protocol: the first of its own. */
  predicate IsFirstOf(thresholds: seq<Threshold>, proto: Proto, i: int) {
    && 0 <= i < |thresholds| && thresholds[i].proto == proto
    && forall j :: 0 <= j < i ==> thresholds[j].proto != proto
  }

  lemma {:induction false} FindThresholdIsFirst(thresholds: seq<Threshold>, proto: Proto)
    ensures var found := FindThreshold(thresholds, proto);
            && (found.None? <==> forall i :: 0 <= i < |thresholds| ==> thresholds[i].proto != proto)
            && (found.Some? ==> exists i :: IsFirstOf(thresholds, proto, i) && found.value == thresholds[i])
  {
    if thresholds == [] {
    } else if thresholds[0].proto == proto {
      assert IsFirstOf(thresholds, proto, 0);
    } else {
      var rest := thresholds[1..];
      FindThresholdIsFirst(rest, proto);
      if FindThreshold(rest, proto).Some? {
        var i :| IsFirstOf(rest, proto, i) && FindThreshold(rest, proto).value == rest[i];
        forall j | 0 <= j < i + 1 ensures thresholds[j].proto != proto {
          assert j > 0 ==> thresholds[j] == rest[j - 1];
        }
        assert IsFirstOf(thresholds, proto, i + 1);
      } else {
        forall i | 0 <= i < |thresholds| ensures thresholds[i].proto != proto {
          assert i > 0 ==> thresholds[i] == rest[i - 1];
        }
      }
    }
  }

  /** A limit on packets is broken by packets and a limit on bytes by bytes, each by more than `k` times itself. */
  predicate Breaks(rate: ProtoRate, t: Threshold, k: real) {
    || (t.maxPps.Some? && rate.pps > k * t.maxPps.value)
    || (t.maxBps.Some? && rate.bps > k * t.maxBps.value)
  }

  /** The same for limits over zero only, reached instead of broken. */
  predicate Reaches(rate: ProtoRate, t: Threshold, k: real) {
    || (t.maxPps.Some? && t.maxPps.value > 0.0 && rate.pps >= k * t.maxPps.value)
    || (t.maxBps.Some? && t.maxBps.value > 0.0 && rate.bps >= k * t.maxBps.value)
  }

  lemma {:induction false} FirstOfIsFound(thresholds: seq<Threshold>, proto: Proto, i: int)
    requires IsFirstOf(thresholds, proto, i)
    ensures FindThreshold(thresholds, proto) == Some(thresholds[i])
  {
    FindThresholdIsFirst(thresholds, proto);
    var k :| IsFirstOf(thresholds, proto, k) && FindThreshold(thresholds, proto).value == thresholds[k];
    assert i == k;
  }

  /**
   An emergency is raised exactly when the first threshold of the rate's
   protocol sets a limit that the rate breaks in the limit's own dimension. It
   is severe and of the rate's protocol.
   */
  lemma EmergencyIffBroken(thresholds: seq<Threshold>, rate: ProtoRate)
    ensures var signal := EmergencySignal(thresholds, rate);
            && (signal.Some? <==> exists i :: IsFirstOf(thresholds, rate.proto, i) && Breaks(rate, thresholds[i], 1.0))
            && (signal.Some? ==> signal.value.proto == rate.proto && signal.value.level == Severe
                                 && signal.value.kind == Emergency)
  {
    hide RatioConfidence;
    FindThresholdIsFirst(thresholds, rate.proto);
    if i :| IsFirstOf(thresholds, rate.proto, i) && Breaks(rate, thresholds[i], 1.0) {
      FirstOfIsFound(thresholds, rate.proto, i);
    }
  }

  /** Its confidence is at least `c` exactly when some limit over zero is reached `1 + c` times over. */
  lemma EmergencyConfidenceMeans(thresholds: seq<Threshold>, rate: ProtoRate, i: int, c: real)
    requires IsFirstOf(thresholds, rate.proto, i) && EmergencySignal(thresholds, rate).Some? && 0.0 < c <= 1.0
    ensures EmergencySignal(thresholds, rate).value.confidence >= c <==> Reaches(rate, thresholds[i], 1.0 + c)
  {
    FirstOfIsFound(thresholds, rate.proto, i);
    LimitConfidenceReaches(rate.pps, thresholds[i].maxPps, c);
    LimitConfidenceReaches(rate.bps, thresholds[i].maxBps, c);
    hide LimitConfidence, IsFirstOf, FindThreshold;
  }

  lemma LimitConfidenceReaches(value: real, limit: Option<real>, c: real)
    requires 0.0 < c <= 1.0
    ensures LimitConfidence(value, limit) >= c <==>
              limit.Some? && limit.value > 0.0 && value >= (1.0 + c) * limit.value
  {
    if limit.Some? && limit.value > 0.0 {
      var q := value / limit.value;
      assert q * limit.value == value;
      assert (q - 1.0 - c) * limit.value == value - (1.0 + c) * limit.value;
      SignOfProduct(q - 1.0 - c, limit.value);
    }
  }

  /** A limit of zero is broken by any traffic, but lends no confidence, where the ratio would be unbounded. */
  lemma ZeroLimitHasNoConfidence(rate: ProtoRate)
    requires rate.pps > 0.0
    ensures EmergencySignal([Threshold(rate.proto, Some(0.0), None)], rate)
            == Some(AlertSignal(rate.proto, Severe, Emergency, 0.0))
  {}

  // ---- Both together ----

  function AllSignals(e: Estimate, config: Config, sqrt: real -> real, thresholds: seq<Threshold>,
                      rates: seq<ProtoRate>): seq<AlertSignal>
    requires e.Valid()
  {
    EwmaSignals(e, config, sqrt, rates) + EmergencySignals(thresholds, rates)
  }

  /** The signals that one rate gives rise to. */
  ghost predicate SignalOf(e: Estimate, config: Config, sqrt: real -> real, thresholds: seq<Threshold>, rate: ProtoRate,
                           s: AlertSignal)
    requires e.Valid()
  {
    EwmaSignal(SnapshotOf(e, config, sqrt, rate.proto), rate) == Some(s) || EmergencySignal(thresholds, rate) == Some(s)
  }

  lemma {:induction false} EwmaSignalsHave(e: Estimate, config: Config, sqrt: real -> real, rates: seq<ProtoRate>,
                                           s: AlertSignal)
    requires e.Valid()
    ensures s in EwmaSignals(e, config, sqrt, rates) <==>
            exists i :: 0 <= i < |rates| && EwmaSignal(SnapshotOf(e, config, sqrt, rates[i].proto), rates[i]) == Some(s)
  {
    hide SnapshotOf, EwmaSignal;
    if rates == [] {
    } else {
      EwmaSignalsHave(e, config, sqrt, rates[..|rates| - 1], s);
    }
  }

  lemma {:induction false} EmergencySignalsHave(thresholds: seq<Threshold>, rates: seq<ProtoRate>, s: AlertSignal)
    ensures s in EmergencySignals(thresholds, rates) <==>
            exists i :: 0 <= i < |rates| && EmergencySignal(thresholds, rates[i]) == Some(s)
  {
    hide EmergencySignal;
    if rates == [] {
    } else {
      EmergencySignalsHave(thresholds, rates[..|rates| - 1], s);
    }
  }

  /** A signal is raised exactly when one of the rates gives rise to it. */
  lemma AllSignalsHave(e: Estimate, config: Config, sqrt: real -> real, thresholds: seq<Threshold>,
                       rates: seq<ProtoRate>, s: AlertSignal)
    requires e.Valid()
    ensures s in AllSignals(e, config, sqrt, thresholds, rates) <==>
            exists i :: 0 <= i < |rates| && SignalOf(e, config, sqrt, thresholds, rates[i], s)
  {
    hide SnapshotOf, EwmaSignal, EmergencySignal;
    EwmaSignalsHave(e, config, sqrt, rates, s);
    EmergencySignalsHave(thresholds, rates, s);
  }

  /** No detector raises a confidence outside [0, 1]. */
  lemma DetectorsAreRealistic(e: Estimate, config: Config, sqrt: real -> real, thresholds: seq<Threshold>,
                              rates: seq<ProtoRate>)
    requires e.Valid()
    ensures Realistic(AllSignals(e, config, sqrt, thresholds, rates))
  {
    hide SnapshotOf, AllSignals, ProtoZScores, RatioConfidence;
    var all := AllSignals(e, config, sqrt, thresholds, rates);
    forall s | s in all ensures 0.0 <= s.confidence <= 1.0 {
      AllSignalsHave(e, config, sqrt, thresholds, rates, s);
      var i :| 0 <= i < |rates| && SignalOf(e, config, sqrt, thresholds, rates[i], s);
    }
  }

  /** With one rate for each protocol there is at most one signal for each key. */
  lemma DetectorsGiveOnePerKey(e: Estimate, config: Config, sqrt: real -> real, thresholds: seq<Threshold>,
                               rates: seq<ProtoRate>)
    requires e.Valid() && DistinctProtos(rates)
    ensures OnePerKey(AllSignals(e, config, sqrt, thresholds, rates))
  {
    var all := AllSignals(e, config, sqrt, thresholds, rates);
    forall s, t | s in all && t in all && KeyOf(s) == KeyOf(t) ensures s == t {
      AllSignalsHave(e, config, sqrt, thresholds, rates, s);
      AllSignalsHave(e, config, sqrt, thresholds, rates, t);
      SignalsOfRate(e, config, sqrt, thresholds, rates, s);
      SignalsOfRate(e, config, sqrt, thresholds, rates, t);
    }
  }

  /** A signal carries the protocol of its rate, and only the emergency detector says Emergency. */
  lemma SignalsOfRate(e: Estimate, config: Config, sqrt: real -> real, thresholds: seq<Threshold>,
                      rates: seq<ProtoRate>, s: AlertSignal)
    requires e.Valid() && s in AllSignals(e, config, sqrt, thresholds, rates)
    ensures exists i :: 0 <= i < |rates| && rates[i].proto == s.proto
                        && Some(s) == if s.kind == Emergency then EmergencySignal(thresholds, rates[i])
                                      else EwmaSignal(SnapshotOf(e, config, sqrt, rates[i].proto), rates[i])
  {
    AllSignalsHave(e, config, sqrt, thresholds, rates, s);
    var i :| 0 <= i < |rates| && SignalOf(e, config, sqrt, thresholds, rates[i], s);
    hide SnapshotOf, ProtoZScores;
    assert rates[i].proto == s.proto;
  }
}
