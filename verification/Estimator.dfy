/**
 One moving average for each protocol and dimension, and the gate that decides
 when a protocol's baseline may be used.
 */
module Estimator {
  import opened Prelude
  import opened Ewma
  import opened ProtoManager

  const PROTO_COUNT := 5

  function Index(proto: Proto): nat {
    match proto
    case Icmp => 0
    case Tcp => 1
    case Udp => 2
    case Ipv6 => 3
    case Other => 4
  }

  function FromIndex(idx: nat): Option<Proto> {
    match idx
    case 0 => Some(Icmp)
    case 1 => Some(Tcp)
    case 2 => Some(Udp)
    case 3 => Some(Ipv6)
    case 4 => Some(Other)
    case _ => None
  }

  datatype ProtoRate = ProtoRate(proto: Proto, pps: real, bps: real)

  datatype BaselineStats = BaselineStats(mean: real, stddev: real)

  datatype ProtoBaseline = ProtoBaseline(pps: BaselineStats, bps: BaselineStats)

  datatype BaselineState = Ready(baseline: ProtoBaseline) | Warming

  datatype Config = Config(alpha: real, minSamples: nat, minStddev: real, minElapsedTicks: nat)

  /** The value held by the estimator: two averages for each protocol, and the ticks of its clock. */
  datatype Estimate = Estimate(pps: seq<Stats>, bps: seq<Stats>, elapsed: nat) {
    predicate Valid() {
      |pps| == PROTO_COUNT && |bps| == PROTO_COUNT
    }
  }

  const START := Estimate([EMPTY, EMPTY, EMPTY, EMPTY, EMPTY], [EMPTY, EMPTY, EMPTY, EMPTY, EMPTY], 0)

  /** The baseline state of one protocol; `Warming` while any condition is unmet. */
  function SnapshotOf(e: Estimate, config: Config, sqrt: real -> real, proto: Proto): BaselineState
    requires e.Valid()
  {
    var pps, bps := e.pps[Index(proto)], e.bps[Index(proto)];
    var baseline := ProtoBaseline(BaselineStats(pps.mean, StddevOf(pps, sqrt)),
                                  BaselineStats(bps.mean, StddevOf(bps, sqrt)));
    if (if pps.samples < bps.samples then pps.samples else bps.samples) < config.minSamples
       || baseline.pps.stddev < config.minStddev
       || baseline.bps.stddev < config.minStddev
       || e.elapsed < config.minElapsedTicks
    then Warming
    else Ready(baseline)
  }

  /** One observed rate fed to its protocol's averages. */
  function Feed(e: Estimate, alpha: real, rate: ProtoRate, sqrt: real -> real): (r: Estimate)
    requires e.Valid()
    ensures r.Valid()
  {
    var i := Index(rate.proto);
    e.(pps := e.pps[i := Updated(e.pps[i], alpha, rate.pps, sqrt)],
       bps := e.bps[i := Updated(e.bps[i], alpha, rate.bps, sqrt)])
  }

  function FeedAll(e: Estimate, alpha: real, rates: seq<ProtoRate>, sqrt: real -> real): (r: Estimate)
    requires e.Valid()
    ensures r.Valid()
  {
    if rates == [] then e
    else Feed(FeedAll(e, alpha, rates[..|rates| - 1], sqrt), alpha, rates[|rates| - 1], sqrt)
  }

  class EwmaEstimator {
    const config: Config
    const sqrt: real -> real
    const ppsEwma: seq<Ewma>
    const bpsEwma: seq<Ewma>
    var elapsedTicks: nat

    ghost const Repr: set<object>

    /** All averages are distinct objects with the estimator's own smoothing factor. */
    ghost predicate Valid() {
      && |ppsEwma| == PROTO_COUNT && |bpsEwma| == PROTO_COUNT && this in Repr
      && (forall i :: 0 <= i < PROTO_COUNT ==> ppsEwma[i] in Repr && bpsEwma[i] in Repr)
      && (forall i, j :: 0 <= i < j < PROTO_COUNT ==> ppsEwma[i] != ppsEwma[j] && bpsEwma[i] != bpsEwma[j])
      && (forall i, j :: 0 <= i < PROTO_COUNT && 0 <= j < PROTO_COUNT ==> ppsEwma[i] != bpsEwma[j])
      && (forall i :: 0 <= i < PROTO_COUNT ==> ppsEwma[i].alpha == config.alpha && ppsEwma[i].sqrt == sqrt)
      && (forall i :: 0 <= i < PROTO_COUNT ==> bpsEwma[i].alpha == config.alpha && bpsEwma[i].sqrt == sqrt)
    }

    ghost function View(): (e: Estimate)
      requires Valid()
      reads Repr
      ensures e.Valid()
    {
      Estimate(seq(PROTO_COUNT, i requires 0 <= i < PROTO_COUNT reads Repr => ppsEwma[i].View()),
               seq(PROTO_COUNT, i requires 0 <= i < PROTO_COUNT reads Repr => bpsEwma[i].View()),
               elapsedTicks)
    }

    constructor (config: Config, sqrt: real -> real)
      ensures Valid() && fresh(Repr) && View() == START
      ensures this.config == config && this.sqrt == sqrt
    {
      var pps: seq<Ewma> := [];
      var bps: seq<Ewma> := [];
      ghost var objects: set<object> := {};
      for n := 0 to PROTO_COUNT
        invariant |pps| == n && |bps| == n && fresh(objects)
        invariant forall i :: 0 <= i < n ==> pps[i] in objects && bps[i] in objects
        invariant forall i, j :: 0 <= i < j < n ==> pps[i] != pps[j] && bps[i] != bps[j]
        invariant forall i, j :: 0 <= i < n && 0 <= j < n ==> pps[i] != bps[j]
        invariant forall i ::
                    0 <= i < n ==> pps[i].View() == EMPTY && pps[i].alpha == config.alpha && pps[i].sqrt == sqrt
        invariant forall i ::
                    0 <= i < n ==> bps[i].View() == EMPTY && bps[i].alpha == config.alpha && bps[i].sqrt == sqrt
      {
        var p := new Ewma(config.alpha, sqrt);
        var b := new Ewma(config.alpha, sqrt);
        pps, bps := pps + [p], bps + [b];
        objects := objects + {p, b};
      }
      this.config, this.sqrt := config, sqrt;
      ppsEwma, bpsEwma := pps, bps;
      Repr := {this} + objects;
      elapsedTicks := 0;
    }

    method Advance()
      requires Valid()
      modifies `elapsedTicks
      ensures View() == old(View()).(elapsed := old(View()).elapsed + 1)
    {
      elapsedTicks := elapsedTicks + 1;
    }

    method Snapshot(proto: Proto) returns (state: BaselineState)
      requires Valid()
      ensures state == SnapshotOf(View(), config, sqrt, proto)
    {
      var pps, bps := ppsEwma[Index(proto)], bpsEwma[Index(proto)];
      var samples := if pps.samples < bps.samples then pps.samples else bps.samples;
      var baseline := ProtoBaseline(BaselineStats(pps.mean, pps.Stddev()), BaselineStats(bps.mean, bps.Stddev()));
      if samples < config.minSamples
         || baseline.pps.stddev < config.minStddev
         || baseline.bps.stddev < config.minStddev
         || elapsedTicks < config.minElapsedTicks
      {
        return Warming;
      }
      state := Ready(baseline);
    }

    method Update(observedRates: seq<ProtoRate>)
      requires Valid()
      modifies Repr
      ensures View() == FeedAll(old(View()), config.alpha, observedRates, sqrt)
    {
      for n := 0 to |observedRates|
        invariant View() == FeedAll(old(View()), config.alpha, observedRates[..n], sqrt)
      {
        FeedOne(observedRates[n]);
        assert observedRates[..n + 1][..n] == observedRates[..n];
      }
      assert observedRates[..|observedRates|] == observedRates;
    }

    /** The loop body of `Update`. */
    method FeedOne(rate: ProtoRate)
      requires Valid()
      modifies Repr
      ensures View() == Feed(old(View()), config.alpha, rate, sqrt)
    {
      hide Updated;
      var i := Index(rate.proto);
      ppsEwma[i].Update(rate.pps);
      bpsEwma[i].Update(rate.bps);
      assert View().pps == old(View()).pps[i := Updated(old(View()).pps[i], config.alpha, rate.pps, sqrt)];
      assert View().bps == old(View()).bps[i := Updated(old(View()).bps[i], config.alpha, rate.bps, sqrt)];
    }
  }
}
