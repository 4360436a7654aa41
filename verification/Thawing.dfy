/**
 The other half of the freeze: a protocol that has gone quiet is learned from
 again, once its alerts have resolved and their cooldowns are over.
 */
module Thawing {
  import opened Prelude
  import opened AlertFsm
  import opened StateTable
  import opened ProtoManager
  import opened ProtoRules
  import opened Estimator
  import opened Rates
  import opened Runner
  import Ewma
  import Detectors
  import FreezeLoop
  import Episodes

  /** No signal of the protocol gets past a rule. */
  ghost predicate Quiet(s: State, input: Input, settings: Settings, proto: Proto)
    requires s.Valid() && Processes(s, input)
  {
    forall x :: x in FreezeLoop.SignalsAt(s, input, settings) && x.proto == proto ==> !Admitted(settings.rules, x)
  }

  lemma QuietHasNoKey(s: State, input: Input, settings: Settings, key: AlertKey)
    requires s.Valid() && Processes(s, input) && Quiet(s, input, settings, key.proto)
    ensures key !in ActiveOf(s, input, settings)
  {
    hide Detectors.AllSignals, Collected, Admitted;
    CollectedHas(settings.rules, FreezeLoop.SignalsAt(s, input, settings), key);
  }

  /** The rate that the tick shows of the protocol, if any, is what its averages are fed. */
  ghost predicate Learns(s: State, input: Input, settings: Settings, proto: Proto)
    requires s.Valid() && Processes(s, input)
  {
    var e, after, i := s.baseline, AfterTick(s, input, settings).baseline, Index(proto);
    var rate, alpha, sqrt := FreezeLoop.RateOf(RatesOf(s, input), proto), settings.config.alpha, settings.sqrt;
    if rate.None? then after.pps[i] == e.pps[i] && after.bps[i] == e.bps[i]
    else
      && after.pps[i] == Ewma.Updated(e.pps[i], alpha, rate.value.pps, sqrt)
      && after.bps[i] == Ewma.Updated(e.bps[i], alpha, rate.value.bps, sqrt)
  }

  /** All alerts of the protocol are cold at the given time, tracked or not. */
  ghost predicate AllCold(slots: Slots, rules: seq<Rule>, proto: Proto, asked: Instant) {
    forall key: AlertKey :: key.proto == proto && HasRule(rules, key.kind) ==>
                              Cold(rules, key.kind, SlotOf(slots, key), asked)
  }

  lemma ColdAfterLearns(s: State, input: Input, settings: Settings, proto: Proto)
    requires s.Valid() && Processes(s, input)
    requires AllCold(AfterTick(s, input, settings).slots, settings.rules, proto, input.current.value.timestamp)
    ensures Learns(s, input, settings, proto)
  {
    hide AfterTick, RatesOf, Ewma.Updated, Frozen, Cold;
    var slots, asked := AfterTick(s, input, settings).slots, input.current.value.timestamp;
    FrozenIff(settings.rules, slots, asked, proto);
    forall key, i | key in slots && key.proto == proto && IsFirstRule(settings.rules, key.kind, i)
      ensures !Holds(settings.rules[i], slots[key], asked)
    {
      assert settings.rules[i] in settings.rules && HasRule(settings.rules, key.kind);
      assert Cold(settings.rules, key.kind, SlotOf(slots, key), asked);
      ColdIsNotHeld(settings.rules, i, slots[key], asked);
    }
    FreezeLoop.TickFeedsSample(s, input, settings, proto);
  }

  // ---- Quiet ticks ----

  /** The largest resolve threshold of the rules of a kind. */
  function ResolveBound(rules: seq<Rule>, kind: Kind): nat {
    if rules == [] then 0
    else
      var n := |rules| - 1;
      var bound := ResolveBound(rules[..n], kind);
      if rules[n].kind == kind then Max(bound, rules[n].params.resolveAfter) else bound
  }

  /** A quiet tick resolves, or leaves the alert Firing with one quiet tick more, never past the threshold. */
  predicate Subsides(before: Slot, after: Slot, bound: nat) {
    && after.lastFired == before.lastFired
    && (after.phase == Inactive
        || (before.phase == Firing && after.phase == Firing && before.quiet < after.quiet < bound))
  }

  lemma {:induction false} QuietSteps(rules: seq<Rule>, slot: Slot, kind: Kind, now: Instant)
    ensures var after := Episodes.StepAll(rules, slot, kind, false, now);
            if HasRule(rules, kind) then Subsides(slot, after, ResolveBound(rules, kind)) else after == slot
    ensures slot.phase == Inactive ==> Episodes.StepAll(rules, slot, kind, false, now) == slot
  {
    if rules == [] {
    } else {
      var n := |rules| - 1;
      QuietSteps(rules[..n], slot, kind, now);
      assert rules == rules[..n] + [rules[n]];
      assert HasRule(rules, kind) <==> HasRule(rules[..n], kind) || rules[n].kind == kind;
    }
  }

  lemma QuietTick(s: State, input: Input, settings: Settings, key: AlertKey)
    requires s.Valid() && Processes(s, input) && Quiet(s, input, settings, key.proto)
    ensures SlotOf(AfterTick(s, input, settings).slots, key)
            == Episodes.StepAll(settings.rules, SlotOf(s.slots, key), key.kind, false, input.now)
  {
    hide AfterTick, StepRules, Quiet, ActiveOf;
    QuietHasNoKey(s, input, settings, key);
    Episodes.SlotAfterTick(s, input, settings, key);
    Episodes.TraceStepsAll(settings.rules, SlotOf(s.slots, key), key, None, input.now);
  }

  /** After an episode: from cold alerts, a processed tick at which the protocol stays quiet is learned from. */
  lemma ColdQuietTickLearns(s: State, input: Input, settings: Settings, proto: Proto)
    requires s.Valid() && Processes(s, input) && Quiet(s, input, settings, proto)
    requires AllCold(s.slots, settings.rules, proto, input.current.value.timestamp)
    ensures Learns(s, input, settings, proto)
  {
    hide AfterTick, Quiet, SlotOf, Learns, Episodes.StepAll;
    var after, asked := AfterTick(s, input, settings).slots, input.current.value.timestamp;
    forall key: AlertKey | key.proto == proto && HasRule(settings.rules, key.kind)
      ensures Cold(settings.rules, key.kind, SlotOf(after, key), asked)
    {
      QuietTick(s, input, settings, key);
      QuietSteps(settings.rules, SlotOf(s.slots, key), key.kind, input.now);
    }
    ColdAfterLearns(s, input, settings, proto);
  }

  // ---- Quiet runs ----

  ghost predicate QuietThroughout(s: State, run: seq<Input>, settings: Settings, proto: Proto)
    requires s.Valid()
  {
    run == [] ||
    var n := |run| - 1;
    var before := FreezeLoop.From(s, run[..n], settings);
    && QuietThroughout(s, run[..n], settings, proto)
    && (Processes(before, run[n]) ==> Quiet(before, run[n], settings, proto))
  }

  /** How many ticks of the run had two snapshots. */
  ghost function ProcessedTicks(s: State, run: seq<Input>, settings: Settings): nat
    requires s.Valid()
  {
    if run == [] then 0
    else
      var n := |run| - 1;
      ProcessedTicks(s, run[..n], settings)
      + if Processes(FreezeLoop.From(s, run[..n], settings), run[n]) then 1 else 0
  }

  /** Where so many quiet ticks have brought an alert. */
  predicate Quieted(before: Slot, after: Slot, ticks: nat, bound: nat) {
    && after.lastFired == before.lastFired
    && if ticks == 0 then after == before
       else after.phase == Inactive || (after.phase == Firing && ticks <= after.quiet < bound)
  }

  lemma {:induction false} QuietRun(s: State, run: seq<Input>, settings: Settings, key: AlertKey)
    requires s.Valid() && QuietThroughout(s, run, settings, key.proto) && HasRule(settings.rules, key.kind)
    ensures Quieted(SlotOf(s.slots, key), SlotOf(FreezeLoop.From(s, run, settings).slots, key),
                    ProcessedTicks(s, run, settings), ResolveBound(settings.rules, key.kind))
  {
    hide AfterTick, Quiet, SlotOf, Episodes.StepAll, ResolveBound, HasRule;
    if run == [] {
    } else {
      var n := |run| - 1;
      var before := FreezeLoop.From(s, run[..n], settings);
      QuietRun(s, run[..n], settings, key);
      if Processes(before, run[n]) {
        QuietTick(before, run[n], settings, key);
        QuietSteps(settings.rules, SlotOf(before.slots, key), key.kind, run[n].now);
      } else {
        FreezeLoop.IdleTick(before, run[n], settings);
      }
    }
  }

  /** So many processed ticks resolve every alert of the protocol, and at this time every cooldown is over. */
  ghost predicate LongEnough(s: State, rules: seq<Rule>, proto: Proto, ticks: nat, asked: Instant) {
    forall key: AlertKey :: key.proto == proto && HasRule(rules, key.kind) ==>
      && ticks >= Max(1, ResolveBound(rules, key.kind))
      && Cold(rules, key.kind, SlotOf(s.slots, key).(phase := Inactive), asked)
  }

  /**
   Every freeze ends: from any state, Firing alerts and running cooldowns
   included, once the protocol has been quiet for as many processed ticks as the
   resolve thresholds ask for, the last snapshot taken after every cooldown, its
   rates are learned from again.
   */
  lemma {:induction false} QuietProtocolIsLearned(s: State, run: seq<Input>, input: Input, settings: Settings,
                                                  proto: Proto)
    requires s.Valid() && QuietThroughout(s, run + [input], settings, proto)
    requires Processes(FreezeLoop.From(s, run, settings), input)
    requires LongEnough(s, settings.rules, proto, ProcessedTicks(s, run + [input], settings),
                        input.current.value.timestamp)
    ensures Learns(FreezeLoop.From(s, run, settings), input, settings, proto)
  {
    hide AfterTick, Quiet, SlotOf, Learns, ResolveBound, QuietThroughout, ProcessedTicks;
    var all, before := run + [input], FreezeLoop.From(s, run, settings);
    assert all[..|run|] == run;
    assert FreezeLoop.From(s, all, settings) == AfterTick(before, input, settings);
    var after, asked := AfterTick(before, input, settings).slots, input.current.value.timestamp;
    forall key: AlertKey | key.proto == proto && HasRule(settings.rules, key.kind)
      ensures Cold(settings.rules, key.kind, SlotOf(after, key), asked)
    {
      QuietRun(s, all, settings, key);
      assert Cold(settings.rules, key.kind, SlotOf(s.slots, key).(phase := Inactive), asked);
    }
    ColdAfterLearns(before, input, settings, proto);
  }
}
