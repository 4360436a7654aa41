/**
 The per-(protocol, kind) alert manager: signals are admitted by rules, every
 rule steps the slots of its own kind, and nothing is ever forgotten.
 */
module ProtoManager {
  import opened Prelude
  import opened AlertFsm
  import opened StateTable

  datatype Proto = Icmp | Tcp | Udp | Ipv6 | Other

  datatype Kind = Spike | Drop | Emergency

  datatype Level = Normal | Suspicious | Severe

  /** The order of severities: Normal < Suspicious < Severe. */
  function Rank(level: Level): nat {
    match level
    case Normal => 0
    case Suspicious => 1
    case Severe => 2
  }

  datatype AlertSignal = AlertSignal(proto: Proto, level: Level, kind: Kind, confidence: real)

  datatype Alert = Alert(proto: Proto, kind: Kind, level: Level, confidence: real)

  datatype AlertEvent = AlertEvent(alert: Alert, lifecycle: Lifecycle)

  datatype Rule = Rule(kind: Kind, minLevel: Level, minConfidence: real, params: Params, freezesBaseline: bool)

  datatype AlertKey = AlertKey(proto: Proto, kind: Kind)

  type Slots = map<AlertKey, Slot>
  type Active = map<AlertKey, AlertSignal>

  function KeyOf(s: AlertSignal): AlertKey {
    AlertKey(s.proto, s.kind)
  }

  /** The signal gets past the rule's filters. */
  predicate Passes(rule: Rule, s: AlertSignal) {
    s.kind == rule.kind && Rank(s.level) >= Rank(rule.minLevel) && s.confidence >= rule.minConfidence
  }

  ghost predicate Admitted(rules: seq<Rule>, s: AlertSignal) {
    exists r :: r in rules && Passes(r, s)
  }

  /** Confidences are shares, as every detector computes them. */
  predicate Realistic(signals: seq<AlertSignal>) {
    forall s :: s in signals ==> 0.0 <= s.confidence <= 1.0
  }

  // ---- Admission ----

  function Admit(rule: Rule, signals: seq<AlertSignal>, active: Active): Active {
    if signals == [] then active
    else
      var n := |signals| - 1;
      var rest := Admit(rule, signals[..n], active);
      if Passes(rule, signals[n]) then rest[KeyOf(signals[n]) := signals[n]] else rest
  }

  /** What `CollectActive` computes: rules outermost, a later insertion wins. */
  function Collected(rules: seq<Rule>, signals: seq<AlertSignal>): Active {
    if rules == [] then map[]
    else
      var n := |rules| - 1;
      Admit(rules[n], signals, Collected(rules[..n], signals))
  }

  lemma {:induction false} AdmitHas(rule: Rule, signals: seq<AlertSignal>, active: Active)
    ensures var r := Admit(rule, signals, active);
            && (forall k :: k in r <==> k in active || exists s :: s in signals && Passes(rule, s) && KeyOf(s) == k)
            && (forall k :: k in r ==> (k in active && r[k] == active[k])
                                       || (r[k] in signals && Passes(rule, r[k]) && KeyOf(r[k]) == k))
  {
    if signals == [] {
    } else {
      var n := |signals| - 1;
      AdmitHas(rule, signals[..n], active);
      assert signals == signals[..n] + [signals[n]];
    }
  }

  lemma AdmittedSplit(rules: seq<Rule>, s: AlertSignal)
    requires rules != []
    ensures Admitted(rules, s) <==> Admitted(rules[..|rules| - 1], s) || Passes(rules[|rules| - 1], s)
  {
    assert rules == rules[..|rules| - 1] + [rules[|rules| - 1]];
  }

  /** Some signal for the key is admitted by some rule. */
  ghost predicate AdmittedKey(rules: seq<Rule>, signals: seq<AlertSignal>, k: AlertKey) {
    exists s :: s in signals && Admitted(rules, s) && KeyOf(s) == k
  }

  /** `k` carries a signal of its own that some rule admits. */
  ghost predicate CarriesAdmitted(active: Active, rules: seq<Rule>, signals: seq<AlertSignal>, k: AlertKey)
    requires k in active
  {
    active[k] in signals && Admitted(rules, active[k]) && KeyOf(active[k]) == k
  }

  /** A key is active exactly when some signal for it is admitted, and it carries such a signal. */
  lemma {:induction false} CollectedHas(rules: seq<Rule>, signals: seq<AlertSignal>, k: AlertKey)
    ensures k in Collected(rules, signals) <==> AdmittedKey(rules, signals, k)
    ensures k in Collected(rules, signals) ==> CarriesAdmitted(Collected(rules, signals), rules, signals, k)
  {
    if rules == [] {
    } else {
      var n := |rules| - 1;
      var rest := Collected(rules[..n], signals);
      CollectedHas(rules[..n], signals, k);
      AdmitHas(rules[n], signals, rest);
      var active := Admit(rules[n], signals, rest);
      if k in active {
        AdmittedSplit(rules, active[k]);
      }
      if AdmittedKey(rules, signals, k) {
        var s :| s in signals && Admitted(rules, s) && KeyOf(s) == k;
        AdmittedSplit(rules, s);
        assert Admitted(rules[..n], s) ==> AdmittedKey(rules[..n], signals, k);
      }
    }
  }

  /** The signal passes the rule and has the key. */
  predicate PassesFor(rule: Rule, s: AlertSignal, k: AlertKey) {
    Passes(rule, s) && KeyOf(s) == k
  }

  lemma {:induction false} AdmitKeepsOthers(rule: Rule, signals: seq<AlertSignal>, active: Active, k: AlertKey)
    requires k in active && forall m :: 0 <= m < |signals| ==> !PassesFor(rule, signals[m], k)
    ensures k in Admit(rule, signals, active) && Admit(rule, signals, active)[k] == active[k]
  {
    if signals == [] {
    } else {
      var last := |signals| - 1;
      AdmitKeepsOthers(rule, signals[..last], active, k);
      assert !PassesFor(rule, signals[last], k);
    }
  }

  lemma {:induction false} AdmitKeepsLast(rule: Rule, signals: seq<AlertSignal>, active: Active, n: nat)
    requires n < |signals| && Passes(rule, signals[n])
    requires forall m :: n < m < |signals| ==> !PassesFor(rule, signals[m], KeyOf(signals[n]))
    ensures KeyOf(signals[n]) in Admit(rule, signals, active)
            && Admit(rule, signals, active)[KeyOf(signals[n])] == signals[n]
  {
    var last := |signals| - 1;
    if n == last {
    } else {
      AdmitKeepsLast(rule, signals[..last], active, n);
      assert !PassesFor(rule, signals[last], KeyOf(signals[n]));
    }
  }

  /** Of several admitted signals for one key, the last one that the last admitting rule admits is kept. */
  lemma {:induction false} LastAdmissionWins(rules: seq<Rule>, signals: seq<AlertSignal>, r: nat, n: nat)
    requires r < |rules| && n < |signals| && Passes(rules[r], signals[n])
    requires forall m :: n < m < |signals| ==> !PassesFor(rules[r], signals[m], KeyOf(signals[n]))
    requires forall q, m ::
               r < q < |rules| && 0 <= m < |signals| ==> !PassesFor(rules[q], signals[m], KeyOf(signals[n]))
    ensures KeyOf(signals[n]) in Collected(rules, signals) && Collected(rules, signals)[KeyOf(signals[n])] == signals[n]
  {
    var last := |rules| - 1;
    var rest := Collected(rules[..last], signals);
    if r == last {
      AdmitKeepsLast(rules[r], signals, rest, n);
    } else {
      LastAdmissionWins(rules[..last], signals, r, n);
      forall m | 0 <= m < |signals| ensures !PassesFor(rules[last], signals[m], KeyOf(signals[n])) {}
      AdmitKeepsOthers(rules[last], signals, rest, KeyOf(signals[n]));
    }
  }

  ghost predicate OnePerKey(signals: seq<AlertSignal>) {
    forall s, t :: s in signals && t in signals && KeyOf(s) == KeyOf(t) ==> s == t
  }

  /** With at most one signal for each key, the order of the signals does not matter. */
  lemma {:induction false} CollectedIgnoresOrder(rules: seq<Rule>, signals: seq<AlertSignal>,
                                                 shuffled: seq<AlertSignal>)
    requires multiset(signals) == multiset(shuffled) && OnePerKey(signals)
    ensures Collected(rules, signals) == Collected(rules, shuffled)
  {
    forall s ensures s in signals <==> s in shuffled {
      assert s in signals <==> s in multiset(signals);
    }
    forall k
      ensures k in Collected(rules, signals) <==> k in Collected(rules, shuffled)
      ensures k in Collected(rules, signals) ==> Collected(rules, signals)[k] == Collected(rules, shuffled)[k]
    {
      CollectedHas(rules, signals, k);
      CollectedHas(rules, shuffled, k);
    }
  }

  function SignalFor(active: Active, key: AlertKey): Option<AlertSignal> {
    if key in active then Some(active[key]) else None
  }

  // ---- What one tick means for one key ----

  /** The state of a key after some rules, with all it emitted on the way. */
  datatype Trace = Trace(slot: Slot, events: seq<AlertEvent>, heartbeats: seq<Alert>)

  function AlertOf(s: AlertSignal): Alert {
    Alert(s.proto, s.kind, s.level, s.confidence)
  }

  /** The transition that a rule emits for one key of its kind. */
  function RuleEvent(rule: Rule, slot: Slot, key: AlertKey, signal: Option<AlertSignal>,
                     now: Instant): Option<AlertEvent>
  {
    match Step(slot, signal.Some?, now, rule.params).event
    case Some(Fired) =>
      if signal.Some? then Some(AlertEvent(AlertOf(signal.value), Fired)) else None
    case Some(Resolved) =>
      Some(AlertEvent(Alert(key.proto, key.kind, rule.minLevel, 0.0), Resolved))
    case None => None
  }

  /** The re-affirmation of an alert that stays up. */
  function RuleHeartbeat(rule: Rule, slot: Slot, signal: Option<AlertSignal>, now: Instant): Option<Alert> {
    var r := Step(slot, signal.Some?, now, rule.params);
    if r.event.None? && r.slot.phase == Firing && signal.Some? then Some(AlertOf(signal.value)) else None
  }

  /** One rule steps one key of its kind. */
  function StepRule(rule: Rule, t: Trace, key: AlertKey, signal: Option<AlertSignal>, now: Instant): Trace {
    Trace(Step(t.slot, signal.Some?, now, rule.params).slot,
          Append(t.events, RuleEvent(rule, t.slot, key, signal, now)),
          Append(t.heartbeats, RuleHeartbeat(rule, t.slot, signal, now)))
  }

  /** All rules in order; a rule leaves the keys of other kinds alone. */
  function StepRules(rules: seq<Rule>, slot: Slot, key: AlertKey, signal: Option<AlertSignal>, now: Instant): Trace {
    if rules == [] then Trace(slot, [], [])
    else
      var n := |rules| - 1;
      var t := StepRules(rules[..n], slot, key, signal, now);
      if rules[n].kind == key.kind then StepRule(rules[n], t, key, signal, now) else t
  }

  function TraceFor(rules: seq<Rule>, slots: Slots, active: Active, now: Instant, key: AlertKey): Trace {
    StepRules(rules, SlotOf(slots, key), key, SignalFor(active, key), now)
  }

  function Next(rules: seq<Rule>, slots: Slots, active: Active, now: Instant): Slots {
    map key | key in slots.Keys + active.Keys :: TraceFor(rules, slots, active, now, key).slot
  }

  function KeyOfEvent(e: AlertEvent): AlertKey {
    AlertKey(e.alert.proto, e.alert.kind)
  }

  function KeyOfAlert(a: Alert): AlertKey {
    AlertKey(a.proto, a.kind)
  }

  /** The events of one key, in the order in which they were emitted. */
  function EventsOf(events: seq<AlertEvent>, key: AlertKey): seq<AlertEvent> {
    if events == [] then []
    else
      var n := |events| - 1;
      EventsOf(events[..n], key) + if KeyOfEvent(events[n]) == key then [events[n]] else []
  }

  function HeartbeatsOf(beats: seq<Alert>, key: AlertKey): seq<Alert> {
    if beats == [] then []
    else
      var n := |beats| - 1;
      HeartbeatsOf(beats[..n], key) + if KeyOfAlert(beats[n]) == key then [beats[n]] else []
  }

  /** The output of a tick, key by key; keys may be interleaved in any order. */
  ghost predicate Emits(events: seq<AlertEvent>, beats: seq<Alert>, rules: seq<Rule>, slots: Slots, active: Active,
                        now: Instant)
  {
    forall key ::
      var t := TraceFor(rules, slots, active, now, key);
      EventsOf(events, key) == t.events && HeartbeatsOf(beats, key) == t.heartbeats
  }

  /** The protocols whose baseline is frozen: the first rule of a hot key's kind decides. */
  function FirstRule(rules: seq<Rule>, kind: Kind): Option<Rule> {
    if rules == [] then None
    else if rules[0].kind == kind then Some(rules[0])
    else FirstRule(rules[1..], kind)
  }

  predicate Freezes(rules: seq<Rule>, key: AlertKey, slot: Slot, now: Instant) {
    match FirstRule(rules, key.kind)
    case None => false
    case Some(rule) => rule.freezesBaseline && Hot(slot, now, rule.params.cooldown)
  }

  function Frozen(rules: seq<Rule>, slots: Slots, now: Instant): set<Proto> {
    set key | key in slots && Freezes(rules, key, slots[key], now) :: key.proto
  }

  ghost predicate HasRule(rules: seq<Rule>, kind: Kind) {
    exists r :: r in rules && r.kind == kind
  }

  // ---- The same output while rule `n` has stepped only the keys in `done` ----

  /** The trace of a key after the first `n` rules, or one more when it is done. */
  function TraceSoFar(rules: seq<Rule>, n: nat, done: set<AlertKey>, slots: Slots, active: Active, now: Instant,
                      key: AlertKey): Trace
    requires n < |rules| || (n == |rules| && key !in done)
  {
    TraceFor(rules[..if key in done then n + 1 else n], slots, active, now, key)
  }

  ghost predicate KeyProgress(view: Slots, events: seq<AlertEvent>, beats: seq<Alert>, rules: seq<Rule>, n: nat,
                              done: set<AlertKey>, slots: Slots, active: Active, now: Instant, key: AlertKey)
    requires n < |rules| || (n == |rules| && key !in done)
  {
    && Trace(SlotOf(view, key), EventsOf(events, key), HeartbeatsOf(beats, key))
       == TraceSoFar(rules, n, done, slots, active, now, key)
    && (key in slots ==> key in view)
    && (key in view ==> key in slots || key in active)
    && (key in active && (key in done || HasRule(rules[..n], key.kind)) ==> key in view)
  }

  ghost predicate Progress(view: Slots, events: seq<AlertEvent>, beats: seq<Alert>,
                           rules: seq<Rule>, n: nat, done: set<AlertKey>, slots: Slots, active: Active, now: Instant)
    requires n < |rules| || (n == |rules| && done == {})
  {
    forall key :: KeyProgress(view, events, beats, rules, n, done, slots, active, now, key)
  }

  lemma {:induction false} UntrackedIsStill(rules: seq<Rule>, key: AlertKey, now: Instant)
    ensures StepRules(rules, FRESH, key, None, now) == Trace(FRESH, [], [])
  {
    if rules == [] {
    } else {
      UntrackedIsStill(rules[..|rules| - 1], key, now);
    }
  }

  lemma RuleDone(view: Slots, events: seq<AlertEvent>, beats: seq<Alert>,
                 rules: seq<Rule>, n: nat, done: set<AlertKey>, slots: Slots, active: Active, now: Instant)
    requires n < |rules|
    requires Progress(view, events, beats, rules, n, done, slots, active, now)
    requires forall key :: key in done <==> key.kind == rules[n].kind && (key in view || key in active)
    ensures Progress(view, events, beats, rules, n + 1, {}, slots, active, now)
  {
    var m := n + 1;
    assert rules[..m] == rules[..n] + [rules[n]];
    forall key ensures KeyProgress(view, events, beats, rules, m, {}, slots, active, now, key) {
      assert KeyProgress(view, events, beats, rules, n, done, slots, active, now, key);
      assert rules[..n + 1][..n] == rules[..n];
      if key !in done && key.kind == rules[n].kind {
        UntrackedIsStill(rules[..n], key, now);
        UntrackedIsStill(rules[..n + 1], key, now);
      }
      assert HasRule(rules[..n + 1], key.kind) ==> HasRule(rules[..n], key.kind) || key.kind == rules[n].kind;
    }
  }

  lemma {:induction false} EventsOfAppend(events: seq<AlertEvent>, event: Option<AlertEvent>, key: AlertKey)
    ensures EventsOf(Append(events, event), key)
            == if event.Some? && KeyOfEvent(event.value) == key then EventsOf(events, key) + [event.value]
               else EventsOf(events, key)
  {
    if event.Some? {
      assert (events + [event.value])[..|events|] == events;
    }
  }

  lemma {:induction false} HeartbeatsOfAppend(beats: seq<Alert>, beat: Option<Alert>, key: AlertKey)
    ensures HeartbeatsOf(Append(beats, beat), key)
            == if beat.Some? && KeyOfAlert(beat.value) == key then HeartbeatsOf(beats, key) + [beat.value]
               else HeartbeatsOf(beats, key)
  {
    if beat.Some? {
      assert (beats + [beat.value])[..|beats|] == beats;
    }
  }

  /** Stepping one more key of rule `n` keeps the output on track. */
  lemma KeyAdvanced(before: Slots, events: seq<AlertEvent>, beats: seq<Alert>, event: Option<AlertEvent>,
                    beat: Option<Alert>, rules: seq<Rule>, n: nat, done: set<AlertKey>, slots: Slots, active: Active,
                    now: Instant, key: AlertKey)
    requires n < |rules| && rules[n].kind == key.kind && key !in done && (key in before || key in active)
    requires key in active ==> KeyOf(active[key]) == key
    requires Progress(before, events, beats, rules, n, done, slots, active, now)
    requires event == RuleEvent(rules[n], SlotOf(before, key), key, SignalFor(active, key), now)
    requires beat == RuleHeartbeat(rules[n], SlotOf(before, key), SignalFor(active, key), now)
    ensures var view := before[key := Step(SlotOf(before, key), key in active, now, rules[n].params).slot];
            Progress(view, Append(events, event), Append(beats, beat), rules, n, done + {key}, slots, active, now)
  {
    var view := before[key := Step(SlotOf(before, key), key in active, now, rules[n].params).slot];
    forall k
      ensures KeyProgress(view, Append(events, event), Append(beats, beat), rules, n, done + {key},
                          slots, active, now, k)
    {
      assert KeyProgress(before, events, beats, rules, n, done, slots, active, now, k);
      EventsOfAppend(events, event, k);
      HeartbeatsOfAppend(beats, beat, k);
      assert rules[..n + 1][..n] == rules[..n];
    }
  }

  lemma AllRulesDone(view: Slots, events: seq<AlertEvent>, beats: seq<Alert>,
                     rules: seq<Rule>, slots: Slots, active: Active, now: Instant)
    requires Progress(view, events, beats, rules, |rules|, {}, slots, active, now)
    requires forall key :: key in active ==> HasRule(rules, key.kind)
    ensures view == Next(rules, slots, active, now)
    ensures Emits(events, beats, rules, slots, active, now)
  {
    assert rules[..|rules|] == rules;
    forall key
      ensures key in view <==> key in slots || key in active
      ensures Trace(SlotOf(view, key), EventsOf(events, key), HeartbeatsOf(beats, key))
              == TraceFor(rules, slots, active, now, key)
    {
      assert KeyProgress(view, events, beats, rules, |rules|, {}, slots, active, now, key);
    }
  }

  class AlertLifecycleManager {
    const rules: seq<Rule>
    const states: Table<AlertKey>

    ghost function Repr(): set<object>
      reads states
    {
      states.Repr()
    }

    ghost predicate Valid()
      reads states
    {
      states.Valid()
    }

    ghost function View(): Slots
      reads Repr()
    {
      states.View()
    }

    constructor (rules: seq<Rule>)
      ensures Valid() && fresh(Repr()) && View() == map[] && this.rules == rules
    {
      this.rules := rules;
      states := new Table();
    }

    /** The key is tracked, and its kind and state freeze its protocol. */
    ghost predicate IsFrozenBy(key: AlertKey, now: Instant)
      requires Valid()
      reads states, Repr()
    {
      key in View() && Freezes(rules, key, View()[key], now)
    }

    method FrozenProtos(now: Instant) returns (frozen: set<Proto>)
      requires Valid()
      ensures frozen == Frozen(rules, View(), now)
      ensures forall proto :: proto in frozen <==> exists kind :: IsFrozenBy(AlertKey(proto, kind), now)
    {
      frozen := set key | key in states.states && Freezes(rules, key, states.states[key].View(), now) :: key.proto;
      assert forall proto, kind :: IsFrozenBy(AlertKey(proto, kind), now) ==> proto in frozen;
      forall proto | proto in frozen ensures exists kind :: IsFrozenBy(AlertKey(proto, kind), now) {
        var key :| key in states.states && Freezes(rules, key, states.states[key].View(), now) && key.proto == proto;
        assert key == AlertKey(proto, key.kind) && IsFrozenBy(key, now);
      }
    }

    method CollectActive(signals: seq<AlertSignal>) returns (active: Active)
      ensures active == Collected(rules, signals)
    {
      active := map[];
      for n := 0 to |rules|
        invariant active == Collected(rules[..n], signals)
      {
        assert rules[..n + 1][..n] == rules[..n];
        for i := 0 to |signals|
          invariant active == Admit(rules[n], signals[..i], Collected(rules[..n], signals))
        {
          assert signals[..i + 1][..i] == signals[..i];
          if !Passes(rules[n], signals[i]) {
            continue;
          }
          active := active[KeyOf(signals[i]) := signals[i]];
        }
        assert signals[..|signals|] == signals;
      }
      assert rules[..|rules|] == rules;
    }

    method Tick(signals: seq<AlertSignal>, now: Instant) returns (events: seq<AlertEvent>, heartbeats: seq<Alert>)
      requires Valid()
      modifies Repr()
      ensures Valid() && fresh(Repr() - old(Repr()))
      ensures View() == Next(rules, old(View()), Collected(rules, signals), now)
      ensures Emits(events, heartbeats, rules, old(View()), Collected(rules, signals), now)
    {
      hide Emits, Next;
      var active := CollectActive(signals);
      forall key | key in active ensures HasRule(rules, key.kind) && KeyOf(active[key]) == key {
        CollectedHas(rules, signals, key);
      }
      events, heartbeats := AdvanceStates(active, now);
    }

    method AdvanceStates(active: Active, now: Instant) returns (events: seq<AlertEvent>, heartbeats: seq<Alert>)
      requires Valid()
      requires forall key :: key in active ==> HasRule(rules, key.kind) && KeyOf(active[key]) == key
      modifies Repr()
      ensures Valid() && fresh(Repr() - old(Repr()))
      ensures View() == Next(rules, old(View()), active, now)
      ensures Emits(events, heartbeats, rules, old(View()), active, now)
    {
      ghost var slots := View();
      events, heartbeats := [], [];
      for n := 0 to |rules|
        invariant Valid() && fresh(Repr() - old(Repr()))
        invariant Progress(View(), events, heartbeats, rules, n, {}, slots, active, now)
      {
        events, heartbeats := ApplyRule(n, active, now, events, heartbeats, slots);
      }
      AllRulesDone(View(), events, heartbeats, rules, slots, active, now);
    }

    /** One pass of the outer loop of `AdvanceStates`. */
    method ApplyRule(n: nat, active: Active, now: Instant, events0: seq<AlertEvent>, beats0: seq<Alert>,
                     ghost slots: Slots)
      returns (events: seq<AlertEvent>, beats: seq<Alert>)
      requires Valid() && n < |rules|
      requires forall key :: key in active ==> KeyOf(active[key]) == key
      requires Progress(View(), events0, beats0, rules, n, {}, slots, active, now)
      modifies Repr()
      ensures Valid() && fresh(Repr() - old(Repr()))
      ensures Progress(View(), events, beats, rules, n + 1, {}, slots, active, now)
    {
      hide Progress;
      var rule := rules[n];
      var keys := set key | key in states.states.Keys + active.Keys && key.kind == rule.kind;
      ghost var all := keys;
      ghost var done := {};
      events, beats := events0, beats0;
      while keys != {}
        invariant keys !! done && keys + done == all
        invariant Valid() && fresh(Repr() - old(Repr()))
        invariant View().Keys == old(View()).Keys + done
        invariant Progress(View(), events, beats, rules, n, done, slots, active, now)
      {
        var key :| key in keys;
        ghost var before := View();
        var event, beat := AdvanceKey(rule, key, active, now);
        KeyAdvanced(before, events, beats, event, beat, rules, n, done, slots, active, now, key);
        events, beats := Append(events, event), Append(beats, beat);
        keys, done := keys - {key}, done + {key};
      }
      RuleDone(View(), events, beats, rules, n, done, slots, active, now);
    }

    /** The inner loop body: steps one key of the rule's kind. */
    method AdvanceKey(rule: Rule, key: AlertKey, active: Active, now: Instant)
      returns (event: Option<AlertEvent>, beat: Option<Alert>)
      requires Valid()
      modifies Repr()
      ensures Valid() && fresh(Repr() - old(Repr()))
      ensures var slot := SlotOf(old(View()), key);
              && View() == old(View())[key := Step(slot, key in active, now, rule.params).slot]
              && event == RuleEvent(rule, slot, key, SignalFor(active, key), now)
              && beat == RuleHeartbeat(rule, slot, SignalFor(active, key), now)
    {
      var signal := SignalFor(active, key);
      event, beat := None, None;
      var lifecycle, firing := states.Advance(key, signal.Some?, now, rule.params);
      match lifecycle {
        case Some(Fired) =>
          var s := active[key];
          event := Some(AlertEvent(AlertOf(s), Fired));
        case Some(Resolved) =>
          event := Some(AlertEvent(Alert(key.proto, key.kind, rule.minLevel, 0.0), Resolved));
        case None =>
          if firing && signal.Some? {
            beat := Some(AlertOf(active[key]));
          }
      }
    }
  }
}
