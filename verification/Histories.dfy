/**
 The managers, read through the history of one key: each emits for that key
 what `FsmHistory.Expected` says, which mentions no phase, counter or map.
 */
module Histories {
  import opened Prelude
  import opened AlertFsm
  import opened StateTable
  import opened FsmHistory
  import IpManager
  import GarbageCollection
  import ProtoManager
  import ProtoRules

  // ---- One source address ----

  /** When the address was signalled, tick by tick. */
  function IpHistory(run: seq<GarbageCollection.TickInput>, ip: Ipv4Addr): (h: seq<Tick>)
    ensures |h| == |run|
  {
    seq(|run|, i requires 0 <= i < |run| => Tick(GarbageCollection.Signalled(run[i], ip), run[i].now))
  }

  lemma {:induction false} KeptReplaysHistory(run: seq<GarbageCollection.TickInput>, p: Params, ip: Ipv4Addr)
    ensures SlotOf(GarbageCollection.Kept(run, p), ip) == Replay(IpHistory(run, ip), p)
  {
    if run == [] {
    } else {
      var n := |run| - 1;
      KeptReplaysHistory(run[..n], p, ip);
      assert IpHistory(run, ip)[..n] == IpHistory(run[..n], ip);
    }
  }

  function LifecycleOf(event: Option<IpManager.Event>): Option<Lifecycle> {
    match event
    case None => None
    case Some(e) => Some(e.lifecycle)
  }

  /**
   After any run, the manager with garbage collection gives an address the
   transition that its signal history calls for, and none otherwise.
   */
  lemma {:induction false} IpEventsFollowHistory(run: seq<GarbageCollection.TickInput>,
                                                 next: GarbageCollection.TickInput, p: Params, ip: Ipv4Addr)
    requires Monotone(Times(run + [next], GarbageCollection.TimeOf))
    ensures LifecycleOf(IpManager.EventFor(GarbageCollection.Collected(run, p), IpManager.ActiveMap(next.signals),
                                           next.now, p, ip))
            == Expected(IpHistory(run + [next], ip), ReferenceLog(IpHistory(run, ip), p), p)
  {
    hide Expected, GarbageCollection.Kept, GarbageCollection.Collected, Monotone;
    var h := IpHistory(run + [next], ip);
    var g := IpHistory(run, ip);
    assert h[..|g|] == g && h[|g|] == Tick(GarbageCollection.Signalled(next, ip), next.now);
    GarbageCollection.GarbageCollectionIsInvisible(run, next, p, ip);
    KeptReplaysHistory(run, p, ip);
    EventIsExpected(h, p);
  }

  /** A step without an event leaves a slot with a signal Firing exactly when it was. */
  lemma QuietStepKeepsFiring(slot: Slot, now: Instant, p: Params)
    ensures var r := Step(slot, true, now, p); r.event.None? ==> (r.slot.phase == Firing <==> slot.phase == Firing)
  {}

  /** An alert that is open, stays so and is signalled is due a heartbeat. */
  predicate BeatDue(h: seq<Tick>, log: EventLog, p: Params)
    requires |h| == |log| + 1
  {
    h[|log|].active && Open(log) && Expected(h, log, p).None?
  }

  /**
   And the manager re-affirms an address exactly when its history says that its
   alert stays open while it is signalled, with the signal's own values.
   */
  lemma {:induction false} IpHeartbeatsFollowHistory(run: seq<GarbageCollection.TickInput>,
                                                     next: GarbageCollection.TickInput, p: Params, ip: Ipv4Addr)
    requires Monotone(Times(run + [next], GarbageCollection.TimeOf))
    ensures var active := IpManager.ActiveMap(next.signals);
            IpManager.HeartbeatFor(GarbageCollection.Collected(run, p), active, next.now, p, ip)
            == if BeatDue(IpHistory(run + [next], ip), ReferenceLog(IpHistory(run, ip), p), p)
               then Some(IpManager.FromSignal(ip, Some(active[ip]))) else None
  {
    hide Expected, GarbageCollection.Kept, GarbageCollection.Collected, Monotone, Open;
    var h := IpHistory(run + [next], ip);
    var g := IpHistory(run, ip);
    assert h[..|g|] == g && h[|g|] == Tick(GarbageCollection.Signalled(next, ip), next.now);
    GarbageCollection.GarbageCollectionIsInvisible(run, next, p, ip);
    KeptReplaysHistory(run, p, ip);
    EventIsExpected(h, p);
    CountersTellHistory(g, p);
    QuietStepKeepsFiring(Replay(g, p), next.now, p);
  }

  /** The last event of a history, in terms of the reference alone. */
  lemma EventIsExpected(h: seq<Tick>, p: Params)
    requires h != []
    ensures EventAt(h, |h| - 1, p) == Expected(h, ReferenceLog(h[..|h| - 1], p), p)
  {
    HistoryCharacterisation(h, p);
    assert Log(h, p)[|h| - 1] == EventAt(h, |h| - 1, p);
  }

  // ---- One protocol and kind ----

  datatype ProtoInput = ProtoInput(signals: seq<ProtoManager.AlertSignal>, now: Instant)

  /** The states of the per-protocol manager after a run. */
  function ProtoRun(rules: seq<ProtoManager.Rule>, run: seq<ProtoInput>): ProtoManager.Slots {
    if run == [] then map[]
    else
      var n := |run| - 1;
      ProtoManager.Next(rules, ProtoRun(rules, run[..n]), ProtoManager.Collected(rules, run[n].signals), run[n].now)
  }

  /** When some signal for the key got past some rule, tick by tick. */
  function KeyHistory(rules: seq<ProtoManager.Rule>, run: seq<ProtoInput>, key: ProtoManager.AlertKey): (h: seq<Tick>)
    ensures |h| == |run|
  {
    seq(|run|, i requires 0 <= i < |run| => Tick(key in ProtoManager.Collected(rules, run[i].signals), run[i].now))
  }

  lemma {:induction false} ProtoRunReplaysHistory(rules: seq<ProtoManager.Rule>, run: seq<ProtoInput>,
                                                  key: ProtoManager.AlertKey, rule: ProtoManager.Rule)
    requires ProtoRules.CountKind(rules, key.kind) == 1 && ProtoManager.FirstRule(rules, key.kind) == Some(rule)
    ensures SlotOf(ProtoRun(rules, run), key) == Replay(KeyHistory(rules, run, key), rule.params)
  {
    hide ProtoManager.StepRules, ProtoManager.Collected;
    if run == [] {
    } else {
      var n := |run| - 1;
      var slots, active := ProtoRun(rules, run[..n]), ProtoManager.Collected(rules, run[n].signals);
      ProtoRunReplaysHistory(rules, run[..n], key, rule);
      assert KeyHistory(rules, run, key)[..n] == KeyHistory(rules, run[..n], key);
      ProtoRules.UniqueRuleStepsOnce(rules, SlotOf(slots, key), key, ProtoManager.SignalFor(active, key), run[n].now);
    }
  }

  /** The transitions of a tick, without their payloads. */
  function Lifecycles(events: seq<ProtoManager.AlertEvent>): seq<Lifecycle> {
    seq(|events|, i requires 0 <= i < |events| => events[i].lifecycle)
  }

  /**
   With one rule for a kind, every key of that kind is an independent machine:
   after any run it gets the transition that its own history calls for.
   */
  lemma {:induction false} KeyEventsFollowHistory(rules: seq<ProtoManager.Rule>, run: seq<ProtoInput>,
                                                  next: ProtoInput, key: ProtoManager.AlertKey, rule: ProtoManager.Rule)
    requires ProtoRules.CountKind(rules, key.kind) == 1 && ProtoManager.FirstRule(rules, key.kind) == Some(rule)
    ensures var t := ProtoManager.TraceFor(rules, ProtoRun(rules, run), ProtoManager.Collected(rules, next.signals),
                                           next.now, key);
            var g := KeyHistory(rules, run, key);
            Lifecycles(t.events)
              == Append([], Expected(KeyHistory(rules, run + [next], key), ReferenceLog(g, rule.params), rule.params))
  {
    hide Expected, ProtoManager.StepRules, ProtoManager.Collected, ProtoRun;
    var h := KeyHistory(rules, run + [next], key);
    var g := KeyHistory(rules, run, key);
    var active := ProtoManager.Collected(rules, next.signals);
    assert h[..|g|] == g && h[|g|] == Tick(key in active, next.now);
    ProtoRunReplaysHistory(rules, run, key, rule);
    EventIsExpected(h, rule.params);
    var slot := SlotOf(ProtoRun(rules, run), key);
    ProtoRules.UniqueRuleStepsOnce(rules, slot, key, ProtoManager.SignalFor(active, key), next.now);
    FiresOnlyWhenActive(slot, key in active, next.now, rule.params);
  }

  /** And exactly the heartbeats. */
  lemma {:induction false} KeyHeartbeatsFollowHistory(rules: seq<ProtoManager.Rule>, run: seq<ProtoInput>,
                                                      next: ProtoInput, key: ProtoManager.AlertKey,
                                                      rule: ProtoManager.Rule)
    requires ProtoRules.CountKind(rules, key.kind) == 1 && ProtoManager.FirstRule(rules, key.kind) == Some(rule)
    ensures var active := ProtoManager.Collected(rules, next.signals);
            ProtoManager.TraceFor(rules, ProtoRun(rules, run), active, next.now, key).heartbeats
            == if BeatDue(KeyHistory(rules, run + [next], key),
                          ReferenceLog(KeyHistory(rules, run, key), rule.params), rule.params)
               then [ProtoManager.AlertOf(active[key])] else []
  {
    hide Expected, ProtoManager.StepRules, ProtoManager.Collected, ProtoRun, Open;
    var h := KeyHistory(rules, run + [next], key);
    var g := KeyHistory(rules, run, key);
    var active := ProtoManager.Collected(rules, next.signals);
    assert h[..|g|] == g && h[|g|] == Tick(key in active, next.now);
    ProtoRunReplaysHistory(rules, run, key, rule);
    EventIsExpected(h, rule.params);
    CountersTellHistory(g, rule.params);
    var slot := SlotOf(ProtoRun(rules, run), key);
    ProtoRules.UniqueRuleStepsOnce(rules, slot, key, ProtoManager.SignalFor(active, key), next.now);
    QuietStepKeepsFiring(slot, next.now, rule.params);
  }

  /** A fire needs a signal, so looking the signal up at a fire never fails. */
  lemma FiresOnlyWhenActive(slot: Slot, active: bool, now: Instant, p: Params)
    ensures Step(slot, active, now, p).event == Some(Fired) ==> active
    ensures Step(slot, active, now, p).event == Some(Resolved) ==> !active
  {}
}
