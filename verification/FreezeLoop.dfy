/**
 Safety of the feedback loop over whole runs: what freezes never teaches the
 baseline, and a frozen baseline cannot be outwaited by a constant attack.
 */
module FreezeLoop {
  import opened Prelude
  import opened AlertFsm
  import opened StateTable
  import opened Ewma
  import opened ProtoManager
  import opened ProtoRules
  import opened Estimator
  import opened Rates
  import opened Detectors
  import opened Runner

  // ---- One protocol out of a list of rates ----

  function RateOf(rates: seq<ProtoRate>, proto: Proto): Option<ProtoRate> {
    if rates == [] then None
    else if rates[|rates| - 1].proto == proto then Some(rates[|rates| - 1])
    else RateOf(rates[..|rates| - 1], proto)
  }

  lemma {:induction false} RateOfHas(rates: seq<ProtoRate>, proto: Proto)
    ensures RateOf(rates, proto).Some?
            ==> RateOf(rates, proto).value in rates && RateOf(rates, proto).value.proto == proto
    ensures RateOf(rates, proto).None? ==> forall r :: r in rates ==> r.proto != proto
  {
    if rates == [] {
    } else {
      RateOfHas(rates[..|rates| - 1], proto);
      assert rates == rates[..|rates| - 1] + [rates[|rates| - 1]];
    }
  }

  lemma {:induction false} RateOfAppend(rates: seq<ProtoRate>, rate: ProtoRate, proto: Proto)
    ensures RateOf(rates + [rate], proto) == if rate.proto == proto then Some(rate) else RateOf(rates, proto)
  {
    assert (rates + [rate])[..|rates|] == rates;
  }

  /** A frozen protocol is filtered out, any other keeps its rate. */
  lemma {:induction false} UnfrozenRate(rates: seq<ProtoRate>, frozen: set<Proto>, proto: Proto)
    ensures RateOf(Unfrozen(rates, frozen), proto) == if proto in frozen then None else RateOf(rates, proto)
  {
    if rates == [] {
    } else {
      var n := |rates| - 1;
      UnfrozenRate(rates[..n], frozen, proto);
      var rest := Unfrozen(rates[..n], frozen);
      if rates[n].proto !in frozen {
        assert Unfrozen(rates, frozen) == rest + [rates[n]];
        RateOfAppend(rest, rates[n], proto);
      } else {
        assert Unfrozen(rates, frozen) == rest;
      }
    }
  }

  lemma {:induction false} UnfrozenStaysDistinct(rates: seq<ProtoRate>, frozen: set<Proto>)
    requires DistinctProtos(rates)
    ensures DistinctProtos(Unfrozen(rates, frozen))
    ensures forall r :: r in Unfrozen(rates, frozen) ==> r in rates
  {
    if rates == [] {
    } else {
      var n := |rates| - 1;
      UnfrozenStaysDistinct(rates[..n], frozen);
      forall r | r in Unfrozen(rates[..n], frozen) ensures r.proto != rates[n].proto {
        assert r in rates[..n];
      }
    }
  }

  /** With one rate for each protocol, feeding them all gives each its own update. */
  lemma {:induction false} FeedAllByProto(e: Estimate, alpha: real, rates: seq<ProtoRate>, sqrt: real -> real,
                                          proto: Proto)
    requires e.Valid() && DistinctProtos(rates)
    ensures var r, i, rate := FeedAll(e, alpha, rates, sqrt), Index(proto), RateOf(rates, proto);
            && r.elapsed == e.elapsed
            && r.pps[i] == (if rate.Some? then Updated(e.pps[i], alpha, rate.value.pps, sqrt) else e.pps[i])
            && r.bps[i] == (if rate.Some? then Updated(e.bps[i], alpha, rate.value.bps, sqrt) else e.bps[i])
  {
    hide Updated;
    if rates == [] {
    } else {
      var n := |rates| - 1;
      FeedAllByProto(e, alpha, rates[..n], sqrt, proto);
      RateOfHas(rates[..n], proto);
    }
  }

  // ---- What a tick does to one protocol's baseline ----

  /** The sample that a tick feeds to a protocol's averages, if any. */
  function SampleOf(s: State, input: Input, settings: Settings, proto: Proto): Option<ProtoRate>
    requires s.Valid()
  {
    if Processes(s, input) && proto !in FrozenBy(s, input, settings) then RateOf(RatesOf(s, input), proto) else None
  }

  function FrozenBy(s: State, input: Input, settings: Settings): set<Proto>
    requires s.Valid() && Processes(s, input)
  {
    Frozen(settings.rules, AfterTick(s, input, settings).slots, input.current.value.timestamp)
  }

  lemma TickFeedsSample(s: State, input: Input, settings: Settings, proto: Proto)
    requires s.Valid()
    ensures var e, r, i := s.baseline, AfterTick(s, input, settings).baseline, Index(proto);
            var sample, alpha, sqrt := SampleOf(s, input, settings, proto), settings.config.alpha, settings.sqrt;
            && r.elapsed == e.elapsed + 1
            && r.pps[i] == (if sample.Some? then Updated(e.pps[i], alpha, sample.value.pps, sqrt) else e.pps[i])
            && r.bps[i] == (if sample.Some? then Updated(e.bps[i], alpha, sample.value.bps, sqrt) else e.bps[i])
  {
    hide Updated, FeedAll, ComputeRates, Unfrozen, ProtoManager.Next, Frozen, AnyReady, ActiveAt;
    if Processes(s, input) {
      var rates := RatesOf(s, input);
      var frozen := FrozenBy(s, input, settings);
      ComputedRatesAreDistinct(s.prev.value, input.current.value);
      UnfrozenStaysDistinct(rates, frozen);
      UnfrozenRate(rates, frozen, proto);
      FeedAllByProto(Advanced(s.baseline), settings.config.alpha, Unfrozen(rates, frozen), settings.sqrt, proto);
    }
  }

  // ---- Whole runs ----

  function After(run: seq<Input>, settings: Settings): (s: State)
    ensures s.Valid()
  {
    if run == [] then INITIAL else AfterTick(After(run[..|run| - 1], settings), run[|run| - 1], settings)
  }

  /** The samples of one protocol over a run: its rates at the ticks where it was not frozen. */
  function Samples(run: seq<Input>, settings: Settings, proto: Proto): seq<ProtoRate> {
    if run == [] then []
    else
      var n := |run| - 1;
      Append(Samples(run[..n], settings, proto), SampleOf(After(run[..n], settings), run[n], settings, proto))
  }

  function PpsOf(rates: seq<ProtoRate>): seq<real> {
    seq(|rates|, i requires 0 <= i < |rates| => rates[i].pps)
  }

  function BpsOf(rates: seq<ProtoRate>): seq<real> {
    seq(|rates|, i requires 0 <= i < |rates| => rates[i].bps)
  }

  lemma {:induction false} FoldAppend(s: Stats, alpha: real, xs: seq<real>, x: real, sqrt: real -> real)
    ensures Fold(s, alpha, xs + [x], sqrt) == Updated(Fold(s, alpha, xs, sqrt), alpha, x, sqrt)
  {
    assert (xs + [x])[..|xs|] == xs;
  }

  /**
   After any run, each average is the fold of the update over exactly the
   rates of the ticks at which its protocol was not frozen, in order.
   */
  lemma {:induction false} BaselineIsFoldOfUnfrozen(run: seq<Input>, settings: Settings, proto: Proto)
    ensures var samples, e, i := Samples(run, settings, proto), After(run, settings).baseline, Index(proto);
            && e.pps[i] == Fold(EMPTY, settings.config.alpha, PpsOf(samples), settings.sqrt)
            && e.bps[i] == Fold(EMPTY, settings.config.alpha, BpsOf(samples), settings.sqrt)
            && e.elapsed == |run|
  {
    hide Updated, AfterTick, SampleOf;
    if run == [] {
    } else {
      var n := |run| - 1;
      BaselineIsFoldOfUnfrozen(run[..n], settings, proto);
      var s, samples := After(run[..n], settings), Samples(run[..n], settings, proto);
      TickFeedsSample(s, run[n], settings, proto);
      var sample := SampleOf(s, run[n], settings, proto);
      if sample.Some? {
        FoldAppend(EMPTY, settings.config.alpha, PpsOf(samples), sample.value.pps, settings.sqrt);
        FoldAppend(EMPTY, settings.config.alpha, BpsOf(samples), sample.value.bps, settings.sqrt);
        assert PpsOf(samples + [sample.value]) == PpsOf(samples) + [sample.value.pps];
        assert BpsOf(samples + [sample.value]) == BpsOf(samples) + [sample.value.bps];
      }
    }
  }

  function SignalsAt(s: State, input: Input, settings: Settings): seq<AlertSignal>
    requires s.Valid() && Processes(s, input)
  {
    AllSignals(Advanced(s.baseline), settings.config, settings.sqrt, settings.thresholds, RatesOf(s, input))
  }

  /**
   A tick at which a signal of the protocol passes a freezing rule feeds that
   protocol's averages nothing, from any state, even though the freeze is asked
   with an older clock reading than the alert step used.
   */
  lemma FreezingTickTeachesNothing(s: State, input: Input, settings: Settings, proto: Proto)
    requires s.Valid() && Processes(s, input)
    requires FreezeIsFirst(settings.rules) && WantsFreeze(settings.rules, SignalsAt(s, input, settings), proto)
    ensures SampleOf(s, input, settings, proto) == None
    ensures AfterTick(s, input, settings).baseline.pps[Index(proto)] == s.baseline.pps[Index(proto)]
    ensures AfterTick(s, input, settings).baseline.bps[Index(proto)] == s.baseline.bps[Index(proto)]
  {
    hide Updated, FeedAll, ComputeRates, Unfrozen, ProtoManager.Next, Frozen, AnyReady, AllSignals, WantsFreeze;
    DetectorsAreRealistic(Advanced(s.baseline), settings.config, settings.sqrt, settings.thresholds, RatesOf(s, input));
    FreezingSignalFreezes(settings.rules, s.slots, SignalsAt(s, input, settings), input.now,
                          input.current.value.timestamp, proto);
    TickFeedsSample(s, input, settings, proto);
  }

  /** A run that starts from a given state. */
  function From(s: State, run: seq<Input>, settings: Settings): (r: State)
    requires s.Valid()
    ensures r.Valid()
  {
    if run == [] then s else AfterTick(From(s, run[..|run| - 1], settings), run[|run| - 1], settings)
  }

  // ---- A constant attack ----

  /** Against this baseline, the rate raises a signal for `key` that passes a freezing rule. */
  ghost predicate Qualifies(e: Estimate, settings: Settings, rate: ProtoRate, key: AlertKey)
    requires e.Valid()
  {
    exists r, x :: r in settings.rules && r.freezesBaseline && Passes(r, x) && KeyOf(x) == key
                   && SignalOf(e, settings.config, settings.sqrt, settings.thresholds, rate, x)
  }

  /** The averages of the protocol are the same and the readiness clock is no younger. */
  ghost predicate SameFor(e: Estimate, later: Estimate, proto: Proto) {
    && e.Valid() && later.Valid() && e.elapsed <= later.elapsed
    && e.pps[Index(proto)] == later.pps[Index(proto)] && e.bps[Index(proto)] == later.bps[Index(proto)]
  }

  lemma QualifiesAgain(e: Estimate, later: Estimate, settings: Settings, rate: ProtoRate, key: AlertKey)
    requires SameFor(e, later, rate.proto) && Qualifies(e, settings, rate, key)
    ensures Qualifies(later, settings, rate, key)
  {
    hide ProtoZScores, EmergencySignal, StddevOf;
    var r, x :| r in settings.rules && r.freezesBaseline && Passes(r, x) && KeyOf(x) == key
                && SignalOf(e, settings.config, settings.sqrt, settings.thresholds, rate, x);
    assert SignalOf(later, settings.config, settings.sqrt, settings.thresholds, rate, x);
  }

  predicate OnlyFires(events: seq<AlertEvent>) {
    forall i :: 0 <= i < |events| ==> events[i].lifecycle == Fired
  }

  /** An active key never resolves: nothing but fires is emitted, and Firing stays Firing. */
  lemma {:induction false} ActiveNeverResolves(rules: seq<Rule>, slot: Slot, key: AlertKey, s: AlertSignal,
                                               now: Instant)
    ensures var t := StepRules(rules, slot, key, Some(s), now);
            && OnlyFires(t.events)
            && (slot.phase == Firing ==> t.slot.phase == Firing)
  {
    if rules == [] {
    } else {
      ActiveNeverResolves(rules[..|rules| - 1], slot, key, s, now);
    }
  }

  /** One processed tick of the attack. */
  lemma AttackTick(s: State, input: Input, settings: Settings, rate: ProtoRate, key: AlertKey)
    requires s.Valid() && Processes(s, input) && rate in RatesOf(s, input) && FreezeIsFirst(settings.rules)
    requires key.proto == rate.proto && Qualifies(Advanced(s.baseline), settings, rate, key)
    ensures key in ActiveOf(s, input, settings)
    ensures SameFor(s.baseline, AfterTick(s, input, settings).baseline, rate.proto)
    ensures var slot := SlotOf(AfterTick(s, input, settings).slots, key);
            var t := TraceFor(settings.rules, s.slots, ActiveOf(s, input, settings), input.now, key);
            && slot == t.slot && slot.phase != Inactive
            && (SlotOf(s.slots, key).phase == Firing ==> slot.phase == Firing)
            && OnlyFires(t.events)
  {
    hide Updated, FeedAll, ComputeRates, Unfrozen, Frozen, AnyReady, SnapshotOf, EwmaSignal, EmergencySignal, StepRules,
         FreezeIsFirst;
    var rules, signals := settings.rules, SignalsAt(s, input, settings);
    var r, x :| r in rules && r.freezesBaseline && Passes(r, x) && KeyOf(x) == key
                && SignalOf(Advanced(s.baseline), settings.config, settings.sqrt, settings.thresholds, rate, x);
    AllSignalsHave(Advanced(s.baseline), settings.config, settings.sqrt, settings.thresholds, RatesOf(s, input), x);
    assert x in signals && WantsFreeze(rules, signals, rate.proto);
    FreezingTickTeachesNothing(s, input, settings, rate.proto);
    TickFeedsSample(s, input, settings, rate.proto);
    assert Admitted(rules, x) && AdmittedKey(rules, signals, key);
    CollectedHas(rules, signals, key);
    var active := ActiveOf(s, input, settings);
    ActiveKeyIsHot(rules, SlotOf(s.slots, key), key, active[key], input.now);
    ActiveNeverResolves(rules, SlotOf(s.slots, key), key, active[key], input.now);
  }

  /** The key is active at every processed tick of the run. */
  ghost predicate ActiveThroughout(s: State, run: seq<Input>, settings: Settings, key: AlertKey)
    requires s.Valid()
  {
    forall n :: 0 <= n < |run| ==> ActiveIn(From(s, run[..n], settings), run[n], settings, key)
  }

  ghost predicate ActiveIn(s: State, input: Input, settings: Settings, key: AlertKey)
    requires s.Valid()
  {
    Processes(s, input) ==> key in ActiveOf(s, input, settings)
  }

  /** Every processed tick of the run shows the protocol at the same rate. */
  ghost predicate ConstantRate(s: State, run: seq<Input>, settings: Settings, rate: ProtoRate)
    requires s.Valid()
  {
    forall n :: 0 <= n < |run| ==> ShowsRate(From(s, run[..n], settings), run[n], rate)
  }

  ghost predicate ShowsRate(s: State, input: Input, rate: ProtoRate) {
    Processes(s, input) ==> rate in RatesOf(s, input)
  }

  lemma SameForIsReflexive(e: Estimate, proto: Proto)
    requires e.Valid()
    ensures SameFor(e, e, proto)
  {}

  lemma SameForIsTransitive(e: Estimate, f: Estimate, g: Estimate, proto: Proto)
    requires SameFor(e, f, proto) && SameFor(f, g, proto)
    ensures SameFor(e, g, proto)
  {}

  /** Any tick of the attack, processed or not. */
  lemma AnyTick(s: State, input: Input, settings: Settings, rate: ProtoRate, key: AlertKey)
    requires s.Valid() && FreezeIsFirst(settings.rules) && key.proto == rate.proto && ShowsRate(s, input, rate)
    requires Qualifies(Advanced(s.baseline), settings, rate, key)
    ensures ActiveIn(s, input, settings, key)
    ensures var after := AfterTick(s, input, settings);
            && SameFor(s.baseline, after.baseline, rate.proto)
            && Qualifies(Advanced(after.baseline), settings, rate, key)
            && (SlotOf(s.slots, key).phase == Firing ==> SlotOf(after.slots, key).phase == Firing)
  {
    hide Qualifies, FreezeIsFirst, ActiveOf, RatesOf, SlotOf, AfterTick;
    var after := AfterTick(s, input, settings);
    if Processes(s, input) {
      AttackTick(s, input, settings, rate, key);
    } else {
      IdleTick(s, input, settings);
    }
    assert SameFor(Advanced(s.baseline), Advanced(after.baseline), rate.proto);
    QualifiesAgain(Advanced(s.baseline), Advanced(after.baseline), settings, rate, key);
  }

  lemma IdleTick(s: State, input: Input, settings: Settings)
    requires s.Valid() && !Processes(s, input)
    ensures AfterTick(s, input, settings).slots == s.slots
            && AfterTick(s, input, settings).baseline == Advanced(s.baseline)
  {}

  /**
   A rate that once qualifies for a freezing rule qualifies at every later
   processed tick for as long as it lasts: the averages never move, the key is
   active each time, and an alert that is Firing is still Firing at the end.
   */
  lemma {:induction false} ConstantAttackCannotBeLearned(s: State, run: seq<Input>, settings: Settings,
                                                         rate: ProtoRate, key: AlertKey)
    requires s.Valid() && FreezeIsFirst(settings.rules) && key.proto == rate.proto
    requires Qualifies(Advanced(s.baseline), settings, rate, key) && ConstantRate(s, run, settings, rate)
    ensures SameFor(s.baseline, From(s, run, settings).baseline, rate.proto)
    ensures Qualifies(Advanced(From(s, run, settings).baseline), settings, rate, key)
    ensures ActiveThroughout(s, run, settings, key)
    ensures SlotOf(s.slots, key).phase == Firing ==> SlotOf(From(s, run, settings).slots, key).phase == Firing
  {
    hide AfterTick, Qualifies, SameFor, ActiveIn, ShowsRate, SlotOf, FreezeIsFirst, Advanced;
    if run == [] {
      SameForIsReflexive(s.baseline, rate.proto);
    } else {
      var n := |run| - 1;
      var before := From(s, run[..n], settings);
      forall m | 0 <= m < n ensures run[..n][..m] == run[..m] {}
      ConstantAttackCannotBeLearned(s, run[..n], settings, rate, key);
      assert ShowsRate(before, run[n], rate);
      AnyTick(before, run[n], settings, rate, key);
      SameForIsTransitive(s.baseline, before.baseline, AfterTick(before, run[n], settings).baseline, rate.proto);
    }
  }

  /** Every tick of the run has two snapshots to diff. */
  ghost predicate AllProcessed(s: State, run: seq<Input>, settings: Settings)
    requires s.Valid()
  {
    forall n :: 0 <= n < |run| ==> Processes(From(s, run[..n], settings), run[n])
  }

  /**
   And such an attack is reported, on time, from any state: the alert is Firing
   at the end exactly when it was Firing before, or at some tick of the run the
   hits counted since before it have reached the threshold and the cooldown of
   the last fire was over. Until then every tick is counted.
   */
  lemma {:induction false} SustainedAttackFires(s: State, run: seq<Input>, settings: Settings, rate: ProtoRate,
                                                key: AlertKey, rule: Rule)
    requires s.Valid() && FreezeIsFirst(settings.rules) && key.proto == rate.proto
    requires Qualifies(Advanced(s.baseline), settings, rate, key) && ConstantRate(s, run, settings, rate)
             && AllProcessed(s, run, settings)
    requires CountKind(settings.rules, key.kind) == 1 && FirstRule(settings.rules, key.kind) == Some(rule)
    requires WellFormed(SlotOf(s.slots, key), rule.params)
    ensures Counted(SlotOf(s.slots, key), SlotOf(From(s, run, settings).slots, key), run, rule.params)
  {
    hide AfterTick, Qualifies, ActiveOf, RatesOf, SlotOf, FreezeIsFirst, Advanced, FirstRule, CountKind, Counted, Step,
         WellFormed;
    if run == [] {
      NothingCounted(SlotOf(s.slots, key), run, rule.params);
      return;
    }
    var n := |run| - 1;
    var before := From(s, run[..n], settings);
    forall m | 0 <= m < n ensures run[..n][..m] == run[..m] {}
    ConstantAttackCannotBeLearned(s, run[..n], settings, rate, key);
    assert ShowsRate(before, run[n], rate) && Processes(before, run[n]);
    SteppedWhenActive(before, run[n], settings, rate, key, rule);
    SustainedAttackFires(s, run[..n], settings, rate, key, rule);
    CountedGrows(SlotOf(s.slots, key), SlotOf(before.slots, key), run[..n], run[n], rule.params);
    assert run == run[..n] + [run[n]];
  }

  /** What a run of active ticks only makes of a slot. */
  predicate Counted(slot: Slot, end: Slot, run: seq<Input>, p: Params) {
    && (end.phase == Firing <==> slot.phase == Firing || DueIn(slot, run, p))
    && (end.phase != Firing ==> end == if run == [] then slot else Slot(Pending, slot.hits + |run|, 0, slot.lastFired))
  }

  lemma CountedGrows(slot: Slot, mid: Slot, run: seq<Input>, input: Input, p: Params)
    requires WellFormed(slot, p) && Counted(slot, mid, run, p)
    ensures Counted(slot, Step(mid, true, input.now, p).slot, run + [input], p)
  {
    hide DueIn, CooldownPassed;
    DueGrows(slot, run, input, p);
  }

  lemma NothingCounted(slot: Slot, run: seq<Input>, p: Params)
    requires run == []
    ensures Counted(slot, slot, run, p)
  {}

  /** At tick `n` of active ticks only, a slot that waited since before them has the hits and the cooldown to fire. */
  predicate DueAt(slot: Slot, run: seq<Input>, p: Params, n: nat)
    requires n < |run|
  {
    slot.hits + n + 1 >= p.fireAfter && CooldownPassed(slot.lastFired, run[n].now, p.cooldown)
  }

  predicate DueIn(slot: Slot, run: seq<Input>, p: Params) {
    exists n :: 0 <= n < |run| && DueAt(slot, run, p, n)
  }

  lemma DueGrows(slot: Slot, run: seq<Input>, input: Input, p: Params)
    ensures DueIn(slot, run + [input], p) <==> DueIn(slot, run, p) || DueAt(slot, run + [input], p, |run|)
  {
    var all := run + [input];
    forall n | 0 <= n < |run| ensures DueAt(slot, all, p, n) == DueAt(slot, run, p, n) {}
    hide DueAt;
    if DueIn(slot, run, p) {
      var n :| 0 <= n < |run| && DueAt(slot, run, p, n);
      assert DueAt(slot, all, p, n);
    }
  }

  /** One processed tick of the attack steps the key once, as active. */
  lemma SteppedWhenActive(s: State, input: Input, settings: Settings, rate: ProtoRate, key: AlertKey, rule: Rule)
    requires s.Valid() && Processes(s, input) && rate in RatesOf(s, input) && FreezeIsFirst(settings.rules)
             && key.proto == rate.proto
    requires Qualifies(Advanced(s.baseline), settings, rate, key)
    requires CountKind(settings.rules, key.kind) == 1 && FirstRule(settings.rules, key.kind) == Some(rule)
    ensures SlotOf(AfterTick(s, input, settings).slots, key)
            == Step(SlotOf(s.slots, key), true, input.now, rule.params).slot
  {
    hide AfterTick, Qualifies, ActiveOf, RatesOf, SlotOf, FreezeIsFirst, Advanced, StepRules, CountKind;
    AttackTick(s, input, settings, rate, key);
    var active := ActiveOf(s, input, settings);
    UniqueRuleStepsOnce(settings.rules, SlotOf(s.slots, key), key, Some(active[key]), input.now);
  }
}
