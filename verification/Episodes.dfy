/**
 The freeze over whole alert episodes, from the tick at which a key leaves
 Inactive until it is Inactive with its cooldown over. What the key does on the
 way is replayed from the state in which the episode starts, the snapshots and
 the clock readings, never from the states that follow.
 */
module Episodes {
  import opened Prelude
  import opened AlertFsm
  import opened StateTable
  import opened ProtoManager
  import opened ProtoRules
  import opened Estimator
  import opened Rates
  import opened Detectors
  import opened Runner
  import FreezeLoop

  /** The rule that decides whether keys of this kind freeze does freeze. */
  predicate FirstFreezes(rules: seq<Rule>, kind: Kind) {
    FirstRule(rules, kind).Some? && FirstRule(rules, kind).value.freezesBaseline
  }

  function Cooldown(rules: seq<Rule>, kind: Kind): Duration
    requires FirstFreezes(rules, kind)
  {
    FirstRule(rules, kind).value.params.cooldown
  }

  /** A processed tick that leaves a freezing key hot at the snapshot's time moves none of its protocol's averages. */
  lemma HotKeyKeeps(s: State, input: Input, settings: Settings, key: AlertKey)
    requires s.Valid() && Processes(s, input)
    requires key in AfterTick(s, input, settings).slots
    requires Freezes(settings.rules, key, AfterTick(s, input, settings).slots[key], input.current.value.timestamp)
    ensures FreezeLoop.SameFor(s.baseline, AfterTick(s, input, settings).baseline, key.proto)
  {
    hide AfterTick, Freezes, Ewma.Updated, RatesOf;
    FreezeLoop.TickFeedsSample(s, input, settings, key.proto);
    assert key.proto in FreezeLoop.FrozenBy(s, input, settings);
  }

  /** Any tick without two snapshots moves no average at all. */
  lemma IdleTickKeeps(s: State, input: Input, settings: Settings, proto: Proto)
    requires s.Valid() && !Processes(s, input)
    ensures FreezeLoop.SameFor(s.baseline, AfterTick(s, input, settings).baseline, proto)
    ensures AfterTick(s, input, settings).slots == s.slots
  {
    FreezeLoop.IdleTick(s, input, settings);
  }

  lemma SlotAfterTick(s: State, input: Input, settings: Settings, key: AlertKey)
    requires s.Valid() && Processes(s, input)
    ensures var slots := AfterTick(s, input, settings).slots;
            && SlotOf(slots, key)
               == TraceFor(settings.rules, s.slots, ActiveOf(s, input, settings), input.now, key).slot
            && (key in s.slots || key in ActiveOf(s, input, settings) ==> key in slots)
  {
    hide ActiveAt, Frozen, FeedAll, Unfrozen, AnyReady, StepRules;
    UntrackedIsStill(settings.rules, key, input.now);
  }

  // ---- When a key is active ----

  /** Against this baseline, the rate raises a signal for `key` that some rule admits. */
  ghost predicate Raises(e: Estimate, settings: Settings, rate: ProtoRate, key: AlertKey)
    requires e.Valid()
  {
    exists r, x :: r in settings.rules && Passes(r, x) && KeyOf(x) == key
                   && SignalOf(e, settings.config, settings.sqrt, settings.thresholds, rate, x)
  }

  /** Some rate of the key's protocol does. */
  ghost predicate RaisedIn(e: Estimate, rates: seq<ProtoRate>, settings: Settings, key: AlertKey)
    requires e.Valid()
  {
    exists rate :: rate in rates && rate.proto == key.proto && Raises(e, settings, rate, key)
  }

  lemma SignalHasProto(e: Estimate, settings: Settings, rate: ProtoRate, x: AlertSignal)
    requires e.Valid() && SignalOf(e, settings.config, settings.sqrt, settings.thresholds, rate, x)
    ensures x.proto == rate.proto
  {
    hide SnapshotOf, ProtoZScores;
  }

  /** A key is active exactly when a rate of its protocol raises it against the baseline of the tick. */
  lemma ActiveIffRaised(s: State, input: Input, settings: Settings, key: AlertKey)
    requires s.Valid() && Processes(s, input)
    ensures key in ActiveOf(s, input, settings) <==> RaisedIn(Advanced(s.baseline), RatesOf(s, input), settings, key)
  {
    hide SignalOf, RatesOf, AllSignals, Collected;
    var rules, signals, e := settings.rules, FreezeLoop.SignalsAt(s, input, settings), Advanced(s.baseline);
    CollectedHas(rules, signals, key);
    if AdmittedKey(rules, signals, key) {
      var x :| x in signals && Admitted(rules, x) && KeyOf(x) == key;
      AllSignalsHave(e, settings.config, settings.sqrt, settings.thresholds, RatesOf(s, input), x);
      var i :| 0 <= i < |RatesOf(s, input)|
               && SignalOf(e, settings.config, settings.sqrt, settings.thresholds, RatesOf(s, input)[i], x);
      SignalHasProto(e, settings, RatesOf(s, input)[i], x);
      assert Raises(e, settings, RatesOf(s, input)[i], key);
    }
    if rate :| rate in RatesOf(s, input) && rate.proto == key.proto && Raises(e, settings, rate, key) {
      var r, x :| r in rules && Passes(r, x) && KeyOf(x) == key
                  && SignalOf(e, settings.config, settings.sqrt, settings.thresholds, rate, x);
      AllSignalsHave(e, settings.config, settings.sqrt, settings.thresholds, RatesOf(s, input), x);
      assert Admitted(rules, x);
    }
  }

  /** Two baselines that agree on one protocol and on the clock. */
  ghost predicate AgreeOn(e: Estimate, f: Estimate, proto: Proto) {
    && e.Valid() && f.Valid() && e.elapsed == f.elapsed
    && e.pps[Index(proto)] == f.pps[Index(proto)] && e.bps[Index(proto)] == f.bps[Index(proto)]
  }

  lemma AgreeingRaiseAlike(e: Estimate, f: Estimate, rates: seq<ProtoRate>, settings: Settings, key: AlertKey)
    requires AgreeOn(e, f, key.proto)
    ensures RaisedIn(e, rates, settings, key) <==> RaisedIn(f, rates, settings, key)
  {
    forall rate: ProtoRate | rate.proto == key.proto
      ensures Raises(e, settings, rate, key) <==> Raises(f, settings, rate, key)
    {
      assert SnapshotOf(e, settings.config, settings.sqrt, rate.proto)
             == SnapshotOf(f, settings.config, settings.sqrt, rate.proto);
      hide SnapshotOf, EwmaSignal, EmergencySignal;
    }
    hide Raises;
  }

  /** What once raises the key raises it again when the readiness clock is older. */
  lemma OlderClockRaises(e: Estimate, later: Estimate, rates: seq<ProtoRate>, settings: Settings, key: AlertKey)
    requires FreezeLoop.SameFor(e, later, key.proto) && RaisedIn(e, rates, settings, key)
    ensures RaisedIn(later, rates, settings, key)
  {
    hide ProtoZScores, EmergencySignal, Ewma.StddevOf;
    var rate :| rate in rates && rate.proto == key.proto && Raises(e, settings, rate, key);
    var r, x :| r in settings.rules && Passes(r, x) && KeyOf(x) == key
                && SignalOf(e, settings.config, settings.sqrt, settings.thresholds, rate, x);
    assert SignalOf(later, settings.config, settings.sqrt, settings.thresholds, rate, x);
    assert Raises(later, settings, rate, key);
  }

  // ---- The course of a key ----

  /** All rules of the kind step the slot in order. */
  function StepAll(rules: seq<Rule>, slot: Slot, kind: Kind, active: bool, now: Instant): Slot {
    if rules == [] then slot
    else
      var n := |rules| - 1;
      var before := StepAll(rules[..n], slot, kind, active, now);
      if rules[n].kind == kind then Step(before, active, now, rules[n].params).slot else before
  }

  lemma {:induction false} TraceStepsAll(rules: seq<Rule>, slot: Slot, key: AlertKey, signal: Option<AlertSignal>,
                                         now: Instant)
    ensures StepRules(rules, slot, key, signal, now).slot == StepAll(rules, slot, key.kind, signal.Some?, now)
  {
    if rules == [] {
    } else {
      TraceStepsAll(rules[..|rules| - 1], slot, key, signal, now);
    }
  }

  /** The snapshot that a tick after these inputs is diffed against: the last one that there was. */
  function PrevAfter(prev: Option<Snapshot>, run: seq<Input>): Option<Snapshot> {
    if run == [] then prev
    else if run[|run| - 1].current.Some? then run[|run| - 1].current
    else PrevAfter(prev, run[..|run| - 1])
  }

  /** The tick after these inputs has two snapshots to diff. */
  predicate Diffs(s: State, run: seq<Input>, input: Input) {
    PrevAfter(s.prev, run).Some? && input.current.Some?
  }

  /** The baseline of the first state at the age that it has after so many ticks. */
  function Aged(s: State, ticks: nat): (e: Estimate)
    requires s.Valid()
    ensures e.Valid()
  {
    s.baseline.(elapsed := s.baseline.elapsed + ticks)
  }

  /** Some rate of the tick raises the key against the averages of the first state. */
  ghost predicate RaisedAt(s: State, run: seq<Input>, input: Input, settings: Settings, key: AlertKey)
    requires s.Valid() && Diffs(s, run, input)
  {
    RaisedIn(Aged(s, |run| + 1), ComputeRates(PrevAfter(s.prev, run).value, input.current.value), settings, key)
  }

  /** What the key's slot goes through while the averages of its protocol are those of the first state. */
  ghost function Course(s: State, run: seq<Input>, settings: Settings, key: AlertKey): Slot
    requires s.Valid()
  {
    if run == [] then SlotOf(s.slots, key)
    else
      var n := |run| - 1;
      var before := Course(s, run[..n], settings, key);
      if Diffs(s, run[..n], run[n])
      then StepAll(settings.rules, before, key.kind, RaisedAt(s, run[..n], run[n], settings, key), run[n].now)
      else before
  }

  /**
   After each tick that diffs two snapshots, the course is Pending, Firing or cooling down at the
   time of the later one.
   */
  ghost predicate HotThroughout(s: State, run: seq<Input>, settings: Settings, key: AlertKey)
    requires s.Valid() && FirstFreezes(settings.rules, key.kind)
  {
    run == [] ||
    var n := |run| - 1;
    && HotThroughout(s, run[..n], settings, key)
    && (Diffs(s, run[..n], run[n]) ==>
          Hot(Course(s, run, settings, key), run[n].current.value.timestamp, Cooldown(settings.rules, key.kind)))
  }

  /** The state is the first one as far as the protocol's averages go, and its slot has followed the course. */
  ghost predicate OnCourse(s: State, run: seq<Input>, settings: Settings, key: AlertKey, later: State)
    requires s.Valid()
  {
    && AgreeOn(Aged(s, |run|), later.baseline, key.proto)
    && later.prev == PrevAfter(s.prev, run)
    && SlotOf(later.slots, key) == Course(s, run, settings, key)
  }

  /** A slot that is hot is not a fresh one, so its key is tracked. */
  lemma HotIsTracked(slots: Slots, key: AlertKey, now: Instant, cooldown: Duration)
    requires Hot(SlotOf(slots, key), now, cooldown)
    ensures key in slots && slots[key] == SlotOf(slots, key)
  {}

  lemma TickAges(s: State, input: Input, settings: Settings)
    requires s.Valid()
    ensures AfterTick(s, input, settings).baseline.elapsed == s.baseline.elapsed + 1
    ensures AfterTick(s, input, settings).prev == if input.current.Some? then input.current else s.prev
  {
    FreezeLoop.TickFeedsSample(s, input, settings, Tcp);
    hide FeedAll, ProtoManager.Next, Frozen, Unfrozen, AnyReady, ComputeRates, ActiveAt;
  }

  lemma {:induction false} CourseTick(s: State, run: seq<Input>, input: Input, settings: Settings, key: AlertKey,
                                      before: State)
    requires s.Valid() && before.Valid() && FirstFreezes(settings.rules, key.kind)
    requires OnCourse(s, run, settings, key, before)
    requires HotThroughout(s, run + [input], settings, key)
    ensures OnCourse(s, run + [input], settings, key, AfterTick(before, input, settings))
  {
    hide AfterTick, StepRules, StepAll, FirstRule, RaisedIn, ActiveOf, ComputeRates, Hot, SlotOf;
    var after := AfterTick(before, input, settings);
    assert (run + [input])[..|run|] == run;
    TickAges(before, input, settings);
    if Processes(before, input) {
      var signal := SignalFor(ActiveOf(before, input, settings), key);
      ActiveIffRaised(before, input, settings, key);
      AgreeingRaiseAlike(Aged(s, |run| + 1), Advanced(before.baseline), RatesOf(before, input), settings, key);
      SlotAfterTick(before, input, settings, key);
      TraceStepsAll(settings.rules, SlotOf(before.slots, key), key, signal, input.now);
      HotIsTracked(after.slots, key, input.current.value.timestamp, Cooldown(settings.rules, key.kind));
      HotKeyKeeps(before, input, settings, key);
    } else {
      IdleTickKeeps(before, input, settings, key.proto);
    }
  }

  /**
   A whole episode, under any rule list: as long as the replayed course of a
   freezing key is hot after every processed tick, from the tick at which it
   leaves Inactive through all that follows, a resolve and a cooldown included,
   the averages of its protocol do not move, and the key's own slot is where
   the course says.
   */
  lemma {:induction false} EpisodeKeepsBaseline(s: State, run: seq<Input>, settings: Settings, key: AlertKey)
    requires s.Valid() && FirstFreezes(settings.rules, key.kind) && HotThroughout(s, run, settings, key)
    ensures OnCourse(s, run, settings, key, FreezeLoop.From(s, run, settings))
  {
    hide AfterTick, FirstFreezes, OnCourse;
    if run == [] {
      StartsOnCourse(s, run, settings, key);
    } else {
      var n := |run| - 1;
      EpisodeKeepsBaseline(s, run[..n], settings, key);
      assert run == run[..n] + [run[n]];
      CourseTick(s, run[..n], run[n], settings, key, FreezeLoop.From(s, run[..n], settings));
    }
  }

  lemma StartsOnCourse(s: State, run: seq<Input>, settings: Settings, key: AlertKey)
    requires s.Valid() && run == []
    ensures OnCourse(s, run, settings, key, s)
  {}

  // ---- By the signal ----

  /** Every tick that diffs two snapshots shows a rate that raises the key against the baseline of the first state. */
  ghost predicate RaisedThroughout(s: State, run: seq<Input>, settings: Settings, key: AlertKey)
    requires s.Valid()
  {
    run == [] ||
    var n := |run| - 1;
    && RaisedThroughout(s, run[..n], settings, key)
    && (Diffs(s, run[..n], run[n]) ==>
          RaisedIn(Aged(s, 1), ComputeRates(PrevAfter(s.prev, run[..n]).value, run[n].current.value), settings, key))
  }

  lemma {:induction false} ActiveStepsAreHot(rules: seq<Rule>, slot: Slot, kind: Kind, now: Instant)
    requires HasRule(rules, kind)
    ensures StepAll(rules, slot, kind, true, now).phase != Inactive
  {
    var n := |rules| - 1;
    assert rules == rules[..n] + [rules[n]];
    if !HasRule(rules[..n], kind) {
      assert rules[n].kind == kind;
    } else {
      ActiveStepsAreHot(rules[..n], slot, kind, now);
    }
  }

  lemma {:induction false} RaisedIsHot(s: State, run: seq<Input>, settings: Settings, key: AlertKey)
    requires s.Valid() && FirstFreezes(settings.rules, key.kind) && RaisedThroughout(s, run, settings, key)
    ensures HotThroughout(s, run, settings, key)
    ensures (exists n :: 0 <= n < |run| && Diffs(s, run[..n], run[n]))
            ==> Course(s, run, settings, key).phase != Inactive
  {
    hide StepAll, RaisedIn, FirstRule, ComputeRates;
    if run == [] {
    } else {
      var n := |run| - 1;
      RaisedIsHot(s, run[..n], settings, key);
      if Diffs(s, run[..n], run[n]) {
        OlderClockRaises(Aged(s, 1), Aged(s, n + 1),
                         ComputeRates(PrevAfter(s.prev, run[..n]).value, run[n].current.value), settings, key);
        FirstRuleIsRule(settings.rules, key.kind);
        ActiveStepsAreHot(settings.rules, Course(s, run[..n], settings, key), key.kind, run[n].now);
      }
      forall m | 0 <= m < n && Diffs(s, run[..m], run[m]) ensures Diffs(s, run[..n][..m], run[..n][m]) {
        assert run[..n][..m] == run[..m];
      }
    }
  }

  /**
   The course of an attack: while every processed tick shows a rate that raises
   the key, it is Pending or Firing from the first of them on, and the averages
   do not move. A Pending key that no tick raises goes back to Inactive and
   freezes nothing by its phase.
   */
  lemma {:induction false} SignalKeepsBaseline(s: State, run: seq<Input>, settings: Settings, key: AlertKey)
    requires s.Valid() && FirstFreezes(settings.rules, key.kind) && RaisedThroughout(s, run, settings, key)
    ensures OnCourse(s, run, settings, key, FreezeLoop.From(s, run, settings))
    ensures (exists n :: 0 <= n < |run| && Diffs(s, run[..n], run[n])) ==>
              SlotOf(FreezeLoop.From(s, run, settings).slots, key).phase != Inactive
  {
    hide FirstFreezes, Course, SlotOf, Diffs;
    RaisedIsHot(s, run, settings, key);
    EpisodeKeepsBaseline(s, run, settings, key);
  }

  // ---- By the phase ----

  /** The gap: how many processed ticks in a row, up to the end of the run, raise the key no more. */
  ghost function Gap(s: State, run: seq<Input>, settings: Settings, key: AlertKey): nat
    requires s.Valid()
  {
    if run == [] then SlotOf(s.slots, key).quiet
    else
      var n := |run| - 1;
      if !Diffs(s, run[..n], run[n]) then Gap(s, run[..n], settings, key)
      else if RaisedAt(s, run[..n], run[n], settings, key) then 0
      else Gap(s, run[..n], settings, key) + 1
  }

  ghost predicate GapsBelow(s: State, run: seq<Input>, settings: Settings, key: AlertKey, limit: nat)
    requires s.Valid()
  {
    Gap(s, run, settings, key) < limit && (run == [] || GapsBelow(s, run[..|run| - 1], settings, key, limit))
  }

  lemma {:induction false} UniqueRuleStepsAll(rules: seq<Rule>, slot: Slot, key: AlertKey, active: bool, now: Instant,
                                              rule: Rule)
    requires CountKind(rules, key.kind) == 1 && FirstRule(rules, key.kind) == Some(rule)
    ensures StepAll(rules, slot, key.kind, active, now) == Step(slot, active, now, rule.params).slot
  {
    hide StepRules, StepAll;
    var signal := if active then Some(AlertSignal(key.proto, Normal, key.kind, 0.0)) else None;
    TraceStepsAll(rules, slot, key, signal, now);
    UniqueRuleStepsOnce(rules, slot, key, signal, now);
  }

  lemma {:induction false} ShortGapsKeepFiring(s: State, run: seq<Input>, settings: Settings, key: AlertKey, rule: Rule)
    requires s.Valid() && CountKind(settings.rules, key.kind) == 1
    requires FirstRule(settings.rules, key.kind) == Some(rule) && rule.freezesBaseline
    requires SlotOf(s.slots, key).phase == Firing && GapsBelow(s, run, settings, key, Max(1, rule.params.resolveAfter))
    ensures HotThroughout(s, run, settings, key)
    ensures Course(s, run, settings, key).phase == Firing
            && Course(s, run, settings, key).quiet == Gap(s, run, settings, key)
  {
    hide StepAll, RaisedAt, FirstRule, CountKind, Diffs;
    if run == [] {
    } else {
      var n := |run| - 1;
      ShortGapsKeepFiring(s, run[..n], settings, key, rule);
      if Diffs(s, run[..n], run[n]) {
        var active := RaisedAt(s, run[..n], run[n], settings, key);
        UniqueRuleStepsAll(settings.rules, Course(s, run[..n], settings, key), key, active, run[n].now, rule);
      }
    }
  }

  /**
   A Firing key freezes by its phase alone, cooldown or none: over any run whose
   gaps in the signal all stay under the resolve threshold, however many there
   are, it stays Firing and no average of its protocol moves.
   */
  lemma {:induction false} FiringKeepsBaseline(s: State, run: seq<Input>, settings: Settings, key: AlertKey, rule: Rule)
    requires s.Valid() && CountKind(settings.rules, key.kind) == 1
    requires FirstRule(settings.rules, key.kind) == Some(rule) && rule.freezesBaseline
    requires SlotOf(s.slots, key).phase == Firing && GapsBelow(s, run, settings, key, Max(1, rule.params.resolveAfter))
    ensures OnCourse(s, run, settings, key, FreezeLoop.From(s, run, settings))
    ensures SlotOf(FreezeLoop.From(s, run, settings).slots, key).phase == Firing
  {
    hide Course, SlotOf, GapsBelow, CountKind;
    ShortGapsKeepFiring(s, run, settings, key, rule);
    EpisodeKeepsBaseline(s, run, settings, key);
  }

  // ---- By the cooldown ----

  predicate FiredSince(slot: Slot, t: Instant) {
    slot.lastFired.Some? && slot.lastFired.value >= t
  }

  /** Whatever the rules do with a slot at or after `t`, its last fire stays at or after `t`. */
  lemma {:induction false} StepsKeepFire(rules: seq<Rule>, slot: Slot, kind: Kind, active: bool, now: Instant,
                                         t: Instant)
    requires FiredSince(slot, t) && now >= t
    ensures FiredSince(StepAll(rules, slot, kind, active, now), t)
  {
    if rules == [] {
    } else {
      StepsKeepFire(rules[..|rules| - 1], slot, kind, active, now, t);
    }
  }

  lemma CoolingIsHot(slot: Slot, t: Instant, now: Instant, cooldown: Duration)
    requires FiredSince(slot, t) && cooldown > 0 && now < t + cooldown
    ensures Hot(slot, now, cooldown)
  {}

  predicate TakenBefore(input: Input, t: Instant) {
    input.current.Some? ==> input.current.value.timestamp < t
  }

  /** Every tick is at or after `t`, and every snapshot is taken before `t` plus the cooldown. */
  predicate WithinCooldown(run: seq<Input>, t: Instant, cooldown: Duration) {
    forall n :: 0 <= n < |run| ==> run[n].now >= t && TakenBefore(run[n], t + cooldown)
  }

  /** A course that is hot so far and has fired stays hot for a cooldown. */
  lemma {:induction false} CoolingThroughout(s: State, run: seq<Input>, rest: seq<Input>, settings: Settings,
                                             key: AlertKey, t: Instant)
    requires s.Valid() && FirstFreezes(settings.rules, key.kind) && Cooldown(settings.rules, key.kind) > 0
    requires HotThroughout(s, run, settings, key) && FiredSince(Course(s, run, settings, key), t)
    requires WithinCooldown(rest, t, Cooldown(settings.rules, key.kind))
    ensures HotThroughout(s, run + rest, settings, key) && FiredSince(Course(s, run + rest, settings, key), t)
  {
    hide FirstFreezes, SlotOf, FiredSince, StepAll, RaisedAt, Hot;
    if rest == [] {
      assert run + rest == run;
    } else {
      var n, cooldown := |rest| - 1, Cooldown(settings.rules, key.kind);
      CoolingThroughout(s, run, rest[..n], settings, key, t);
      var all, before := run + rest, run + rest[..n];
      assert all[..|before|] == before && all[|before|] == rest[n];
      if Diffs(s, before, rest[n]) {
        var active := RaisedAt(s, before, rest[n], settings, key);
        StepsKeepFire(settings.rules, Course(s, before, settings, key), key.kind, active, rest[n].now, t);
        assert TakenBefore(rest[n], t + cooldown);
        CoolingIsHot(Course(s, all, settings, key), t, rest[n].current.value.timestamp, cooldown);
      }
    }
  }

  /**
   The end of an episode: after a fire at or after `t`, no run whose snapshots
   were taken before `t` plus the cooldown moves the averages, whatever the
   traffic, the signals and the phases are.
   */
  lemma {:induction false} CooldownKeepsBaseline(s: State, run: seq<Input>, settings: Settings, key: AlertKey,
                                                 t: Instant)
    requires s.Valid() && FirstFreezes(settings.rules, key.kind) && Cooldown(settings.rules, key.kind) > 0
    requires FiredSince(SlotOf(s.slots, key), t)
    requires WithinCooldown(run, t, Cooldown(settings.rules, key.kind))
    ensures OnCourse(s, run, settings, key, FreezeLoop.From(s, run, settings))
  {
    hide FirstFreezes, SlotOf, FiredSince;
    var none: seq<Input> := run[..0];
    assert none + run == run;
    CoolingThroughout(s, none, run, settings, key, t);
    EpisodeKeepsBaseline(s, run, settings, key);
  }

  /**
   An episode from a key that may never have been seen: an attack that raises
   it until it fires at or after `t`, and then whatever comes within the
   cooldown, quiet ticks, the resolve and new signals included. The averages
   are those from before the attack.
   */
  lemma {:induction false} AttackAndCooldownKeepBaseline(s: State, attack: seq<Input>, rest: seq<Input>,
                                                         settings: Settings, key: AlertKey, t: Instant)
    requires s.Valid() && FirstFreezes(settings.rules, key.kind) && Cooldown(settings.rules, key.kind) > 0
    requires RaisedThroughout(s, attack, settings, key) && FiredSince(Course(s, attack, settings, key), t)
    requires WithinCooldown(rest, t, Cooldown(settings.rules, key.kind))
    ensures OnCourse(s, attack + rest, settings, key, FreezeLoop.From(s, attack + rest, settings))
  {
    hide FirstFreezes, Course, RaisedThroughout, HotThroughout, OnCourse;
    RaisedIsHot(s, attack, settings, key);
    CoolingThroughout(s, attack, rest, settings, key, t);
    EpisodeKeepsBaseline(s, attack + rest, settings, key);
  }
}
