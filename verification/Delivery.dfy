/**
 Alert delivery as replication: whoever applies the messages in order, opening
 a label set on a message without an end time and closing it on one with, holds
 open exactly the alerts that are Firing in the three pipelines.
 */
module Delivery {
  import opened Prelude
  import opened AlertFsm
  import opened StateTable
  import opened Wire
  import opened Dispatcher
  import Ip = IpManager
  import Pm = ProtoManager

  type ToWire<!T> = (T, SystemTime, Option<SystemTime>, Option<string>) -> AlertmanagerAlert

  /** The messages of one tick's transitions: only a resolve has an end time. */
  function Transitions<T>(toWire: ToWire<T>, ts: seq<(T, Lifecycle)>, now: SystemTime,
                          url: Option<string>): seq<AlertmanagerAlert>
  {
    seq(|ts|, i requires 0 <= i < |ts| => toWire(ts[i].0, now, if ts[i].1 == Resolved then Some(now) else None, url))
  }

  function Heartbeats<T>(toWire: ToWire<T>, beats: seq<T>, now: SystemTime, url: Option<string>): seq<AlertmanagerAlert>
  {
    seq(|beats|, i requires 0 <= i < |beats| => toWire(beats[i], now, None, url))
  }

  function Messages<T>(toWire: ToWire<T>, ts: seq<(T, Lifecycle)>, beats: seq<T>, now: SystemTime,
                       url: Option<string>): seq<AlertmanagerAlert> {
    Transitions(toWire, ts, now, url) + Heartbeats(toWire, beats, now, url)
  }

  /** Pushes one tick's transitions and then its heartbeats; does nothing without a sink. */
  method DispatchTickAlerts<T>(sink: Channel?<AlertmanagerAlert>, url: Option<string>, ts: seq<(T, Lifecycle)>,
                               beats: seq<T>,
                               toWire: ToWire<T>, now: SystemTime)
    modifies sink
    ensures sink != null ==> sink.View() == PushedAll(old(sink.View()), Messages(toWire, ts, beats, now, url))
  {
    if sink == null {
      return;
    }
    PushedConcat(sink.View(), Transitions(toWire, ts, now, url), Heartbeats(toWire, beats, now, url));
    hide *;
    PushTransitions(sink, url, ts, toWire, now);
    PushHeartbeats(sink, url, beats, toWire, now);
  }

  method PushTransitions<T>(sink: Channel<AlertmanagerAlert>, url: Option<string>, ts: seq<(T, Lifecycle)>,
                            toWire: ToWire<T>, now: SystemTime)
    modifies sink
    ensures sink.View() == PushedAll(old(sink.View()), Transitions(toWire, ts, now, url))
  {
    hide Pushed;
    ghost var ms := Transitions(toWire, ts, now, url);
    for n := 0 to |ts|
      invariant sink.View() == PushedAll(old(sink.View()), ms[..n])
    {
      PushedOneMore(old(sink.View()), ms, n);
      var endsAt := if ts[n].1 == Resolved then Some(now) else None;
      sink.Push(toWire(ts[n].0, now, endsAt, url));
    }
    assert ms[..|ts|] == ms;
  }

  method PushHeartbeats<T>(sink: Channel<AlertmanagerAlert>, url: Option<string>, beats: seq<T>, toWire: ToWire<T>,
                           now: SystemTime)
    modifies sink
    ensures sink.View() == PushedAll(old(sink.View()), Heartbeats(toWire, beats, now, url))
  {
    hide Pushed;
    ghost var ms := Heartbeats(toWire, beats, now, url);
    for n := 0 to |beats|
      invariant sink.View() == PushedAll(old(sink.View()), ms[..n])
    {
      PushedOneMore(old(sink.View()), ms, n);
      sink.Push(toWire(beats[n], now, None, url));
    }
    assert ms[..|beats|] == ms;
  }

  lemma {:induction false} AcceptedGrows<T>(c: Chan<T>, items: seq<T>)
    ensures c.accepted <= PushedAll(c, items).accepted
  {
    if items == [] {
    } else {
      AcceptedGrows(c, items[..|items| - 1]);
    }
  }

  /** When the queue has room for the transitions of a tick, they are queued whatever becomes of its heartbeats. */
  lemma {:induction false} TransitionsGoFirst<T>(c: Chan<AlertmanagerAlert>, toWire: ToWire<T>,
                                                 ts: seq<(T, Lifecycle)>, beats: seq<T>, now: SystemTime,
                                                 url: Option<string>)
    requires c.alive && |c.queue| + |ts| <= CAPACITY
    ensures c.accepted + Transitions(toWire, ts, now, url)
            <= PushedAll(c, Messages(toWire, ts, beats, now, url)).accepted
  {
    hide Pushed, Transitions;
    var transitions, heartbeats := Transitions(toWire, ts, now, url), Heartbeats(toWire, beats, now, url);
    assert |transitions| == |ts| by { TransitionsCount(toWire, ts, now, url); }
    WhatFitsIsAccepted(c, transitions);
    PushedConcat(c, transitions, heartbeats);
    AcceptedGrows(PushedAll(c, transitions), heartbeats);
  }

  lemma TransitionsCount<T>(toWire: ToWire<T>, ts: seq<(T, Lifecycle)>, now: SystemTime, url: Option<string>)
    ensures |Transitions(toWire, ts, now, url)| == |ts|
  {}

  // ---- The receiver ----

  function Received(open: set<Labels>, m: AlertmanagerAlert): set<Labels> {
    if m.endsAt.None? then open + {m.labels} else open - {m.labels}
  }

  function ReceivedAll(open: set<Labels>, ms: seq<AlertmanagerAlert>): set<Labels> {
    if ms == [] then open else Received(ReceivedAll(open, ms[..|ms| - 1]), ms[|ms| - 1])
  }

  /** What the last message about a label set says: `Some(true)` if it opens. */
  function Verdict(ms: seq<AlertmanagerAlert>, l: Labels): Option<bool> {
    if ms == [] then None
    else if ms[|ms| - 1].labels == l then Some(ms[|ms| - 1].endsAt.None?)
    else Verdict(ms[..|ms| - 1], l)
  }

  function Decide(verdict: Option<bool>, before: bool): bool {
    if verdict.Some? then verdict.value else before
  }

  lemma {:induction false} VerdictDecides(open: set<Labels>, ms: seq<AlertmanagerAlert>, l: Labels)
    ensures l in ReceivedAll(open, ms) <==> Decide(Verdict(ms, l), l in open)
  {
    if ms == [] {
    } else {
      VerdictDecides(open, ms[..|ms| - 1], l);
    }
  }

  lemma {:induction false} VerdictConcat(a: seq<AlertmanagerAlert>, b: seq<AlertmanagerAlert>, l: Labels)
    ensures Verdict(a + b, l) == if Verdict(b, l).Some? then Verdict(b, l) else Verdict(a, l)
  {
    if b == [] {
      assert a + b == a;
    } else {
      var n := |b| - 1;
      VerdictConcat(a, b[..n], l);
      assert (a + b)[..|a + b| - 1] == a + b[..n];
    }
  }

  lemma {:induction false} ReceivedConcat(open: set<Labels>, a: seq<AlertmanagerAlert>, b: seq<AlertmanagerAlert>)
    ensures ReceivedAll(open, a + b) == ReceivedAll(ReceivedAll(open, a), b)
  {
    forall l ensures l in ReceivedAll(open, a + b) <==> l in ReceivedAll(ReceivedAll(open, a), b) {
      VerdictConcat(a, b, l);
      VerdictDecides(open, a + b, l);
      VerdictDecides(open, a, l);
      VerdictDecides(ReceivedAll(open, a), b, l);
    }
  }

  /** A batch that arrives twice, because a response was lost, changes nothing. */
  lemma {:induction false} RetryIsHarmless(open: set<Labels>, ms: seq<AlertmanagerAlert>)
    ensures ReceivedAll(ReceivedAll(open, ms), ms) == ReceivedAll(open, ms)
  {
    forall l ensures l in ReceivedAll(ReceivedAll(open, ms), ms) <==> l in ReceivedAll(open, ms) {
      VerdictDecides(open, ms, l);
      VerdictDecides(ReceivedAll(open, ms), ms, l);
    }
  }

  // ---- What one tick says about one alert ----

  function TransitionVerdict<T>(ts: seq<(T, Lifecycle)>, idOf: T -> AlertId, id: AlertId): Option<bool> {
    if ts == [] then None
    else if idOf(ts[|ts| - 1].0) == id then Some(ts[|ts| - 1].1 == Fired)
    else TransitionVerdict(ts[..|ts| - 1], idOf, id)
  }

  predicate Mentions<T>(beats: seq<T>, idOf: T -> AlertId, id: AlertId) {
    exists i :: 0 <= i < |beats| && idOf(beats[i]) == id
  }

  function TrafficId(a: Pm.Alert): AlertId {
    Traffic(Pm.KeyOfAlert(a))
  }

  function SynFloodOf(ip: Ipv4Addr): AlertId {
    SynFlood(ip)
  }

  function SynFloodId(a: Ip.Alert): AlertId {
    SynFloodOf(a.srcIp)
  }

  function PortScanOf(ip: Ipv4Addr): AlertId {
    PortScan(ip)
  }

  function PortScanId(a: Ip.Alert): AlertId {
    PortScanOf(a.srcIp)
  }

  /** The labels that a pipeline sends name the alert. */
  ghost predicate Names<T(!new)>(toWire: ToWire<T>, idOf: T -> AlertId) {
    forall x, now, endsAt, url ::
      var m := toWire(x, now, endsAt, url);
      m.labels == LabelsOf(idOf(x)) && m.startsAt == now && m.endsAt == endsAt && m.generatorUrl == url
  }

  lemma {:induction false} TransitionsVerdict<T(!new)>(toWire: ToWire<T>, idOf: T -> AlertId, ts: seq<(T, Lifecycle)>,
                                                       now: SystemTime, url: Option<string>, id: AlertId)
    requires Names(toWire, idOf)
    ensures Verdict(Transitions(toWire, ts, now, url), LabelsOf(id)) == TransitionVerdict(ts, idOf, id)
  {
    hide LabelsOf;
    if ts == [] {
    } else {
      var n := |ts| - 1;
      TransitionsVerdict(toWire, idOf, ts[..n], now, url, id);
      assert Transitions(toWire, ts, now, url)[..n] == Transitions(toWire, ts[..n], now, url);
      if LabelsOf(idOf(ts[n].0)) == LabelsOf(id) {
        LabelsAreInjective(idOf(ts[n].0), id);
      }
    }
  }

  lemma {:induction false} HeartbeatsVerdict<T(!new)>(toWire: ToWire<T>, idOf: T -> AlertId, beats: seq<T>,
                                                      now: SystemTime, url: Option<string>, id: AlertId)
    requires Names(toWire, idOf)
    ensures Verdict(Heartbeats(toWire, beats, now, url), LabelsOf(id))
            == if Mentions(beats, idOf, id) then Some(true) else None
  {
    hide LabelsOf;
    if beats == [] {
    } else {
      var n := |beats| - 1;
      HeartbeatsVerdict(toWire, idOf, beats[..n], now, url, id);
      assert Heartbeats(toWire, beats, now, url)[..n] == Heartbeats(toWire, beats[..n], now, url);
      assert Mentions(beats, idOf, id) <==> Mentions(beats[..n], idOf, id) || idOf(beats[n]) == id;
      if LabelsOf(idOf(beats[n])) == LabelsOf(id) {
        LabelsAreInjective(idOf(beats[n]), id);
      }
    }
  }

  lemma {:induction false} MessagesVerdict<T(!new)>(toWire: ToWire<T>, idOf: T -> AlertId, ts: seq<(T, Lifecycle)>,
                                                    beats: seq<T>, now: SystemTime, url: Option<string>, id: AlertId)
    requires Names(toWire, idOf)
    ensures Verdict(Messages(toWire, ts, beats, now, url), LabelsOf(id))
            == if Mentions(beats, idOf, id) then Some(true) else TransitionVerdict(ts, idOf, id)
  {
    TransitionsVerdict(toWire, idOf, ts, now, url, id);
    HeartbeatsVerdict(toWire, idOf, beats, now, url, id);
    VerdictConcat(Transitions(toWire, ts, now, url), Heartbeats(toWire, beats, now, url), LabelsOf(id));
  }

  lemma MessagesAreLabelled<T(!new)>(toWire: ToWire<T>, idOf: T -> AlertId, ts: seq<(T, Lifecycle)>, beats: seq<T>,
                              now: SystemTime, url: Option<string>)
    requires Names(toWire, idOf)
    ensures Labelled(Messages(toWire, ts, beats, now, url))
  {
    forall m | m in Messages(toWire, ts, beats, now, url) ensures NamesAlert(m.labels) {
      if m in Transitions(toWire, ts, now, url) {
        var i :| 0 <= i < |ts| && m == Transitions(toWire, ts, now, url)[i];
        assert m.labels == LabelsOf(idOf(ts[i].0));
      } else {
        var i :| 0 <= i < |beats| && m == Heartbeats(toWire, beats, now, url)[i];
        assert m.labels == LabelsOf(idOf(beats[i]));
      }
    }
  }

  ghost predicate NamesAlert(l: Labels) {
    exists id :: l == LabelsOf(id)
  }

  ghost predicate Labelled(ms: seq<AlertmanagerAlert>) {
    forall m :: m in ms ==> NamesAlert(m.labels)
  }

  // ---- The per-IP pipelines ----

  function IpPairs(events: seq<Ip.Event>): seq<(Ip.Alert, Lifecycle)> {
    seq(|events|, i requires 0 <= i < |events| => (events[i].alert, events[i].lifecycle))
  }

  /** The two per-IP pipelines differ only in the name they give an address. */
  ghost predicate NamesAddress(idOf: Ip.Alert -> AlertId, nameOf: Ipv4Addr -> AlertId) {
    && (forall a :: idOf(a) == nameOf(a.srcIp))
    && (forall i, j :: nameOf(i) == nameOf(j) ==> i == j)
  }

  lemma {:induction false} IpTransitionVerdict(events: seq<Ip.Event>, idOf: Ip.Alert -> AlertId,
                                               nameOf: Ipv4Addr -> AlertId, ip: Ipv4Addr)
    requires NamesAddress(idOf, nameOf)
    ensures var v := TransitionVerdict(IpPairs(events), idOf, nameOf(ip));
            && (v.None? ==> forall e :: e in events ==> e.alert.srcIp != ip)
            && (v.Some? ==> exists e :: e in events && e.alert.srcIp == ip && v.value == (e.lifecycle == Fired))
  {
    if events == [] {
    } else {
      var n := |events| - 1;
      IpTransitionVerdict(events[..n], idOf, nameOf, ip);
      assert IpPairs(events)[..n] == IpPairs(events[..n]);
      assert events == events[..n] + [events[n]];
      assert idOf(events[n].alert) == nameOf(ip) <==> events[n].alert.srcIp == ip;
    }
  }

  /** The phase of an address follows what its tick says about it. */
  lemma IpTickVerdict(slots: Ip.Slots, active: Ip.Active, now: Instant, p: Params, events: seq<Ip.Event>,
                      beats: seq<Ip.Alert>,
                      idOf: Ip.Alert -> AlertId, nameOf: Ipv4Addr -> AlertId, ip: Ipv4Addr)
    requires NamesAddress(idOf, nameOf)
    requires Ip.ListsEvents(events, slots, active, now, p) && Ip.ListsHeartbeats(beats, slots, active, now, p)
    ensures var verdict := if Mentions(beats, idOf, nameOf(ip)) then Some(true)
                           else TransitionVerdict(IpPairs(events), idOf, nameOf(ip));
            var firing := SlotOf(Ip.Next(slots, active, now, p), ip).phase == Firing;
            && (firing <==> Decide(verdict, SlotOf(slots, ip).phase == Firing))
            && (ip in active && firing ==> verdict == Some(true))
            && (ip !in active && SlotOf(slots, ip).phase != Firing ==> verdict == None)
            && (verdict.Some? ==> verdict.value == (ip in active))
  {
    IpTransitionVerdict(events, idOf, nameOf, ip);
    var event, beat := Ip.EventFor(slots, active, now, p, ip), Ip.HeartbeatFor(slots, active, now, p, ip);
    assert event.Some? ==> event.value in events && event.value.alert.srcIp == ip;
    assert Mentions(beats, idOf, nameOf(ip)) <==> beat.Some? by {
      if beat.Some? {
        assert beat.value in beats && beat.value.srcIp == ip;
        var i :| 0 <= i < |beats| && beats[i] == beat.value;
        assert idOf(beats[i]) == nameOf(ip);
      }
      if Mentions(beats, idOf, nameOf(ip)) {
        var i :| 0 <= i < |beats| && idOf(beats[i]) == nameOf(ip);
        assert beats[i] in beats && beats[i].srcIp == ip;
      }
    }
  }

  // ---- The per-protocol pipeline ----

  function Pairs(events: seq<Pm.AlertEvent>): seq<(Pm.Alert, Lifecycle)> {
    seq(|events|, i requires 0 <= i < |events| => (events[i].alert, events[i].lifecycle))
  }

  lemma {:induction false} TrafficTransitionVerdict(events: seq<Pm.AlertEvent>, key: Pm.AlertKey)
    ensures var own := Pm.EventsOf(events, key);
            TransitionVerdict(Pairs(events), TrafficId, Traffic(key))
            == if own == [] then None else Some(own[|own| - 1].lifecycle == Fired)
  {
    if events == [] {
    } else {
      var n := |events| - 1;
      TrafficTransitionVerdict(events[..n], key);
      assert Pairs(events)[..n] == Pairs(events[..n]);
    }
  }

  lemma {:induction false} TrafficMentions(beats: seq<Pm.Alert>, key: Pm.AlertKey)
    ensures Mentions(beats, TrafficId, Traffic(key)) <==> Pm.HeartbeatsOf(beats, key) != []
  {
    var idOf := TrafficId;
    if beats == [] {
    } else {
      var n := |beats| - 1;
      TrafficMentions(beats[..n], key);
      assert Mentions(beats, idOf, Traffic(key))
             <==> Mentions(beats[..n], idOf, Traffic(key)) || idOf(beats[n]) == Traffic(key);
    }
  }

  function TraceVerdict(t: Pm.Trace): Option<bool> {
    if t.heartbeats != [] then Some(true)
    else if t.events != [] then Some(t.events[|t.events| - 1].lifecycle == Fired)
    else None
  }

  /** However many rules share a kind, the last message of a tick tells the phase. */
  lemma {:induction false} TraceTellsPhase(rules: seq<Pm.Rule>, slot: Slot, key: Pm.AlertKey,
                                           signal: Option<Pm.AlertSignal>, now: Instant)
    ensures var t := Pm.StepRules(rules, slot, key, signal, now);
            && (t.slot.phase == Firing <==> Decide(TraceVerdict(t), slot.phase == Firing))
            && (TraceVerdict(t).Some? ==> TraceVerdict(t).value == signal.Some?)
            && (signal.Some? && t.slot.phase == Firing && Pm.HasRule(rules, key.kind) ==> TraceVerdict(t) == Some(true))
            && (signal.None? ==> t.heartbeats == [])
            && (signal.None? && slot.phase != Firing ==> TraceVerdict(t) == None)
  {
    if rules == [] {
    } else {
      var n := |rules| - 1;
      TraceTellsPhase(rules[..n], slot, key, signal, now);
      assert rules == rules[..n] + [rules[n]];
      assert Pm.HasRule(rules, key.kind) <==> Pm.HasRule(rules[..n], key.kind) || rules[n].kind == key.kind;
    }
  }

  /** The phase of a key follows what its tick says about it. */
  lemma {:induction false} TrafficTickVerdict(rules: seq<Pm.Rule>, slots: Pm.Slots, signals: seq<Pm.AlertSignal>,
                                              now: Instant, events: seq<Pm.AlertEvent>, beats: seq<Pm.Alert>,
                                              key: Pm.AlertKey)
    requires Pm.Emits(events, beats, rules, slots, Pm.Collected(rules, signals), now)
    ensures var active := Pm.Collected(rules, signals);
            var verdict := if Mentions(beats, TrafficId, Traffic(key)) then Some(true)
                           else TransitionVerdict(Pairs(events), TrafficId, Traffic(key));
            var firing := SlotOf(Pm.Next(rules, slots, active, now), key).phase == Firing;
            && (firing <==> Decide(verdict, SlotOf(slots, key).phase == Firing))
            && (key in active && firing ==> verdict == Some(true))
            && (key !in active && SlotOf(slots, key).phase != Firing ==> verdict == None)
            && (verdict.Some? ==> verdict.value == (key in active))
  {
    hide Pm.StepRules, Pm.Collected, Mentions, TransitionVerdict, Pairs;
    var active := Pm.Collected(rules, signals);
    var trace := Pm.TraceFor(rules, slots, active, now, key);
    assert Pm.EventsOf(events, key) == trace.events && Pm.HeartbeatsOf(beats, key) == trace.heartbeats;
    TrafficTransitionVerdict(events, key);
    TrafficMentions(beats, key);
    TraceTellsPhase(rules, SlotOf(slots, key), key, Pm.SignalFor(active, key), now);
    Pm.CollectedHas(rules, signals, key);
    UntrackedPhase(rules, slots, active, now, key);
  }

  lemma UntrackedPhase(rules: seq<Pm.Rule>, slots: Pm.Slots, active: Pm.Active, now: Instant, key: Pm.AlertKey)
    ensures SlotOf(Pm.Next(rules, slots, active, now), key) == Pm.TraceFor(rules, slots, active, now, key).slot
  {
    Pm.UntrackedIsStill(rules, key, now);
  }

  // ---- All three pipelines ----

  datatype Setup = Setup(rules: seq<Pm.Rule>, synFlood: Params, portScan: Params, url: Option<string>)

  datatype System = System(traffic: Pm.Slots, synFlood: Ip.Slots, portScan: Ip.Slots)

  /** One tick of one pipeline with all that it put out, and the wall clock read when that was sent. */
  datatype Tick =
    | TrafficTick(signals: seq<Pm.AlertSignal>, now: Instant, wall: SystemTime, events: seq<Pm.AlertEvent>,
                  beats: seq<Pm.Alert>)
    | SynFloodTick(ipSignals: seq<Ip.Signal>, now: Instant, wall: SystemTime, ipEvents: seq<Ip.Event>,
                   ipBeats: seq<Ip.Alert>)
    | PortScanTick(ipSignals: seq<Ip.Signal>, now: Instant, wall: SystemTime, ipEvents: seq<Ip.Event>,
                   ipBeats: seq<Ip.Alert>)

  /** The output is one that the pipeline's manager can give, in any of its orders. */
  ghost predicate Follows(s: System, t: Tick, setup: Setup) {
    match t
    case TrafficTick(signals, now, _, events, beats) =>
      Pm.Emits(events, beats, setup.rules, s.traffic, Pm.Collected(setup.rules, signals), now)
    case SynFloodTick(signals, now, _, events, beats) =>
      Ip.ListsEvents(events, s.synFlood, Ip.ActiveMap(signals), now, setup.synFlood)
      && Ip.ListsHeartbeats(beats, s.synFlood, Ip.ActiveMap(signals), now, setup.synFlood)
    case PortScanTick(signals, now, _, events, beats) =>
      Ip.ListsEvents(events, s.portScan, Ip.ActiveMap(signals), now, setup.portScan)
      && Ip.ListsHeartbeats(beats, s.portScan, Ip.ActiveMap(signals), now, setup.portScan)
  }

  function AfterTick(s: System, t: Tick, setup: Setup): System {
    match t
    case TrafficTick(signals, now, _, _, _) =>
      s.(traffic := Pm.Next(setup.rules, s.traffic, Pm.Collected(setup.rules, signals), now))
    case SynFloodTick(signals, now, _, _, _) =>
      s.(synFlood := Ip.Next(s.synFlood, Ip.ActiveMap(signals), now, setup.synFlood))
    case PortScanTick(signals, now, _, _, _) =>
      s.(portScan := Ip.Next(s.portScan, Ip.ActiveMap(signals), now, setup.portScan))
  }

  /** The messages that the tick's alerts are dispatched as. */
  function MessagesOf(t: Tick, setup: Setup): seq<AlertmanagerAlert> {
    match t
    case TrafficTick(_, _, wall, events, beats) => Messages(TrafficToWire, Pairs(events), beats, wall, setup.url)
    case SynFloodTick(_, _, wall, events, beats) => Messages(SynFloodToWire, IpPairs(events), beats, wall, setup.url)
    case PortScanTick(_, _, wall, events, beats) => Messages(PortScanToWire, IpPairs(events), beats, wall, setup.url)
  }

  function IsFiring(s: System, id: AlertId): bool {
    match id
    case Traffic(key) => SlotOf(s.traffic, key).phase == Firing
    case SynFlood(ip) => SlotOf(s.synFlood, ip).phase == Firing
    case PortScan(ip) => SlotOf(s.portScan, ip).phase == Firing
  }

  /** The tick carries a signal for the alert that gets as far as its state machine. */
  predicate Signalled(t: Tick, setup: Setup, id: AlertId) {
    match t
    case TrafficTick(signals, _, _, _, _) => id.Traffic? && id.key in Pm.Collected(setup.rules, signals)
    case SynFloodTick(signals, _, _, _, _) => id.SynFlood? && id.ip in Ip.ActiveMap(signals)
    case PortScanTick(signals, _, _, _, _) => id.PortScan? && id.ip in Ip.ActiveMap(signals)
  }

  // ---- One tick of each pipeline ----

  /** What the tick says about the alert agrees with the alert's phase. */
  ghost predicate TellsPhase(s: System, t: Tick, setup: Setup, id: AlertId) {
    var verdict := Verdict(MessagesOf(t, setup), LabelsOf(id));
    && (IsFiring(AfterTick(s, t, setup), id) <==> Decide(verdict, IsFiring(s, id)))
    && (Signalled(t, setup, id) && IsFiring(AfterTick(s, t, setup), id) ==> verdict == Some(true))
    && (!Signalled(t, setup, id) && !IsFiring(s, id) ==> verdict == None)
    && (verdict.Some? ==> verdict.value == Signalled(t, setup, id))
  }

  lemma {:induction false} ForeignTransition<T>(ts: seq<(T, Lifecycle)>, idOf: T -> AlertId, id: AlertId)
    requires forall x :: x in ts ==> idOf(x.0) != id
    ensures TransitionVerdict(ts, idOf, id) == None
  {
    if ts == [] {
    } else {
      ForeignTransition(ts[..|ts| - 1], idOf, id);
    }
  }

  lemma TrafficTells(s: System, t: Tick, setup: Setup, id: AlertId)
    requires Follows(s, t, setup) && t.TrafficTick?
    ensures TellsPhase(s, t, setup, id) && Labelled(MessagesOf(t, setup))
  {
    hide LabelsOf, Pm.StepRules, Pm.Collected;
    var idOf := TrafficId;
    assert Names(TrafficToWire, idOf) by { TrafficNames(); }
    MessagesVerdict(TrafficToWire, idOf, Pairs(t.events), t.beats, t.wall, setup.url, id);
    MessagesAreLabelled(TrafficToWire, idOf, Pairs(t.events), t.beats, t.wall, setup.url);
    if id.Traffic? {
      TrafficTickVerdict(setup.rules, s.traffic, t.signals, t.now, t.events, t.beats, id.key);
    } else {
      ForeignTransition(Pairs(t.events), idOf, id);
    }
  }

  lemma TrafficNames()
    ensures Names(TrafficToWire, TrafficId)
  {
    forall x: Pm.Alert, now: SystemTime, endsAt: Option<SystemTime>, url: Option<string>
      ensures TrafficToWire(x, now, endsAt, url).labels == LabelsOf(Traffic(Pm.KeyOfAlert(x))) {}
  }

  lemma SynFloodTells(s: System, t: Tick, setup: Setup, id: AlertId)
    requires Follows(s, t, setup) && t.SynFloodTick?
    ensures TellsPhase(s, t, setup, id) && Labelled(MessagesOf(t, setup))
  {
    hide LabelsOf, Ip.ActiveMap, Ip.Next, Ip.ListsEvents, Ip.ListsHeartbeats;
    var idOf := SynFloodId;
    assert Names(SynFloodToWire, idOf) by { SynFloodNames(); }
    MessagesVerdict(SynFloodToWire, idOf, IpPairs(t.ipEvents), t.ipBeats, t.wall, setup.url, id);
    MessagesAreLabelled(SynFloodToWire, idOf, IpPairs(t.ipEvents), t.ipBeats, t.wall, setup.url);
    if id.SynFlood? {
      IpTickVerdict(s.synFlood, Ip.ActiveMap(t.ipSignals), t.now, setup.synFlood, t.ipEvents, t.ipBeats, idOf,
                    SynFloodOf, id.ip);
    } else {
      ForeignTransition(IpPairs(t.ipEvents), idOf, id);
    }
  }

  lemma SynFloodNames()
    ensures Names(SynFloodToWire, SynFloodId)
  {
    forall x: Ip.Alert, now: SystemTime, endsAt: Option<SystemTime>, url: Option<string>
      ensures SynFloodToWire(x, now, endsAt, url).labels == LabelsOf(SynFlood(x.srcIp)) {}
  }

  lemma PortScanTells(s: System, t: Tick, setup: Setup, id: AlertId)
    requires Follows(s, t, setup) && t.PortScanTick?
    ensures TellsPhase(s, t, setup, id) && Labelled(MessagesOf(t, setup))
  {
    hide LabelsOf, Ip.ActiveMap, Ip.Next, Ip.ListsEvents, Ip.ListsHeartbeats;
    var idOf := PortScanId;
    assert Names(PortScanToWire, idOf) by { PortScanNames(); }
    MessagesVerdict(PortScanToWire, idOf, IpPairs(t.ipEvents), t.ipBeats, t.wall, setup.url, id);
    MessagesAreLabelled(PortScanToWire, idOf, IpPairs(t.ipEvents), t.ipBeats, t.wall, setup.url);
    if id.PortScan? {
      IpTickVerdict(s.portScan, Ip.ActiveMap(t.ipSignals), t.now, setup.portScan, t.ipEvents, t.ipBeats, idOf,
                    PortScanOf, id.ip);
    } else {
      ForeignTransition(IpPairs(t.ipEvents), idOf, id);
    }
  }

  lemma PortScanNames()
    ensures Names(PortScanToWire, PortScanId)
  {
    forall x: Ip.Alert, now: SystemTime, endsAt: Option<SystemTime>, url: Option<string>
      ensures PortScanToWire(x, now, endsAt, url).labels == LabelsOf(PortScan(x.srcIp)) {}
  }

  lemma TickTells(s: System, t: Tick, setup: Setup, id: AlertId)
    requires Follows(s, t, setup)
    ensures TellsPhase(s, t, setup, id) && Labelled(MessagesOf(t, setup))
  {
    match t
    case TrafficTick(_, _, _, _, _) => TrafficTells(s, t, setup, id);
    case SynFloodTick(_, _, _, _, _) => SynFloodTells(s, t, setup, id);
    case PortScanTick(_, _, _, _, _) => PortScanTells(s, t, setup, id);
  }

  // ---- Whole runs ----

  function After(run: seq<Tick>, setup: Setup): System {
    if run == [] then System(map[], map[], map[])
    else AfterTick(After(run[..|run| - 1], setup), run[|run| - 1], setup)
  }

  function AllMessages(run: seq<Tick>, setup: Setup): seq<AlertmanagerAlert> {
    if run == [] then [] else AllMessages(run[..|run| - 1], setup) + MessagesOf(run[|run| - 1], setup)
  }

  /** A run of the three pipelines, interleaved in any way. */
  ghost predicate IsRun(run: seq<Tick>, setup: Setup) {
    run == [] || (IsRun(run[..|run| - 1], setup) && Follows(After(run[..|run| - 1], setup), run[|run| - 1], setup))
  }

  /** The open label sets are those of the Firing alerts. */
  ghost predicate Mirrors(open: set<Labels>, s: System) {
    && (forall id :: LabelsOf(id) in open <==> IsFiring(s, id))
    && (forall l :: l in open ==> NamesAlert(l))
  }

  lemma {:induction false} TickKeepsMirror(open: set<Labels>, s: System, t: Tick, setup: Setup)
    requires Mirrors(open, s) && Follows(s, t, setup)
    ensures Mirrors(ReceivedAll(open, MessagesOf(t, setup)), AfterTick(s, t, setup))
  {
    hide LabelsOf, MessagesOf, AfterTick, Follows, IsFiring;
    var ms := MessagesOf(t, setup);
    forall id ensures LabelsOf(id) in ReceivedAll(open, ms) <==> IsFiring(AfterTick(s, t, setup), id) {
      TickTells(s, t, setup, id);
      VerdictDecides(open, ms, LabelsOf(id));
    }
    TickTells(s, t, setup, SynFlood(0));
    OpenStaysLabelled(open, ms);
  }

  lemma {:induction false} OpenStaysLabelled(open: set<Labels>, ms: seq<AlertmanagerAlert>)
    requires Labelled(ms) && forall l :: l in open ==> NamesAlert(l)
    ensures forall l :: l in ReceivedAll(open, ms) ==> NamesAlert(l)
  {
    hide NamesAlert;
    if ms == [] {
    } else {
      assert forall m :: m in ms[..|ms| - 1] ==> m in ms;
      OpenStaysLabelled(open, ms[..|ms| - 1]);
      assert ms[|ms| - 1] in ms;
    }
  }

  /** After any run, a receiver that got every message holds open exactly the Firing alerts. */
  lemma {:induction false} ReceiverIsReplica(run: seq<Tick>, setup: Setup)
    requires IsRun(run, setup)
    ensures Mirrors(ReceivedAll({}, AllMessages(run, setup)), After(run, setup))
  {
    hide MessagesOf, AfterTick, Follows, Mirrors;
    if run == [] {
      NothingFiresAtFirst();
    } else {
      var n := |run| - 1;
      ReceiverIsReplica(run[..n], setup);
      var before := ReceivedAll({}, AllMessages(run[..n], setup));
      TickKeepsMirror(before, After(run[..n], setup), run[n], setup);
      ReceivedConcat({}, AllMessages(run[..n], setup), MessagesOf(run[n], setup));
    }
  }

  lemma NothingFiresAtFirst()
    ensures Mirrors({}, System(map[], map[], map[]))
  {}

  // ---- Through the queue and the network ----

  /** Batches arrive in the order in which they were posted, each of them once or more. */
  function ReceivedBatches(open: set<Labels>, batches: seq<seq<AlertmanagerAlert>>, copies: seq<nat>): set<Labels>
    requires |copies| == |batches|
  {
    if batches == [] then open
    else
      var n := |batches| - 1;
      ReceivedCopies(ReceivedBatches(open, batches[..n], copies[..n]), batches[n], copies[n])
  }

  function ReceivedCopies(open: set<Labels>, batch: seq<AlertmanagerAlert>, copies: nat): set<Labels> {
    if copies == 0 then open else ReceivedAll(ReceivedCopies(open, batch, copies - 1), batch)
  }

  lemma {:induction false} CopiesCountOnce(open: set<Labels>, batch: seq<AlertmanagerAlert>, copies: nat)
    requires copies >= 1
    ensures ReceivedCopies(open, batch, copies) == ReceivedAll(open, batch)
  {
    if copies == 1 {
      assert ReceivedCopies(open, batch, 0) == open;
    } else {
      CopiesCountOnce(open, batch, copies - 1);
      RetryIsHarmless(open, batch);
    }
  }

  lemma {:induction false} BatchingIsInvisible(open: set<Labels>, batches: seq<seq<AlertmanagerAlert>>,
                                               copies: seq<nat>)
    requires |copies| == |batches| && forall i :: 0 <= i < |copies| ==> copies[i] >= 1
    ensures ReceivedBatches(open, batches, copies) == ReceivedAll(open, Flatten(batches))
  {
    if batches == [] {
    } else {
      var n := |batches| - 1;
      BatchingIsInvisible(open, batches[..n], copies[..n]);
      CopiesCountOnce(ReceivedBatches(open, batches[..n], copies[..n]), batches[n], copies[n]);
      ReceivedConcat(open, Flatten(batches[..n]), batches[n]);
    }
  }

  /**
   The whole way, with arrivals in posting order: if the messages of a run are
   what the sinks pushed, the queue dropped none, and every batch that the
   drained dispatcher posted got through, however often it was repeated, the
   receiver mirrors the pipelines. `LateCopies` does without the order.
   */
  lemma {:induction false} DeliveredRunIsMirrored(run: seq<Tick>, setup: Setup, script: seq<Action<AlertmanagerAlert>>,
                                                  accepted: seq<AlertmanagerAlert>, dropped: nat,
                                                  posted: seq<seq<AlertmanagerAlert>>, copies: seq<nat>)
    requires IsRun(run, setup) && Pushes(script) == AllMessages(run, setup)
    requires Thinned(Pushes(script), accepted, dropped) && accepted == Flatten(posted) && dropped == 0
    requires |copies| == |posted| && forall i :: 0 <= i < |copies| ==> copies[i] >= 1
    ensures Mirrors(ReceivedBatches({}, posted, copies), After(run, setup))
  {
    hide IsRun, AllMessages, Thinned, Flatten, Mirrors, After, Pushes;
    ThinnedCounts(Pushes(script), accepted, dropped);
    BatchingIsInvisible({}, posted, copies);
    ReceiverIsReplica(run, setup);
  }

  // ---- From the requests to the copies ----

  /** How many of the requests reached the receiver, answered or not. */
  function CopiesIn(reached: nat -> bool, lo: nat, hi: nat): nat
    requires lo <= hi
    decreases hi - lo
  {
    if lo == hi then 0 else (if reached(lo) then 1 else 0) + CopiesIn(reached, lo + 1, hi)
  }

  /** A request that is answered with a success has reached the receiver. */
  ghost predicate AnswersAreReal(net: nat -> Outcome, reached: nat -> bool) {
    forall r :: net(r) == Success ==> reached(r)
  }

  lemma {:induction false} LastRequestArrives(reached: nat -> bool, lo: nat, hi: nat)
    requires lo < hi && reached(hi - 1)
    ensures CopiesIn(reached, lo, hi) >= 1
    decreases hi - lo
  {
    if lo + 1 == hi {
    } else {
      LastRequestArrives(reached, lo + 1, hi);
    }
  }

  /** How often each batch arrived. */
  ghost predicate Arrivals<T>(copies: seq<nat>, net: nat -> Outcome, reached: nat -> bool, first: nat,
                              posted: seq<seq<T>>, results: seq<bool>, ends: seq<nat>)
    requires Booked(net, first, posted, results, ends)
  {
    && |copies| == |posted|
    && forall i :: 0 <= i < |copies| ==> PostedBy(net, StartOf(first, ends, i), ends[i], results[i])
                                         && copies[i] == CopiesIn(reached, StartOf(first, ends, i), ends[i])
  }

  lemma SuccessesArrive<T>(posted: seq<seq<T>>, results: seq<bool>, ends: seq<nat>, first: nat,
                           net: nat -> Outcome, reached: nat -> bool, copies: seq<nat>)
    requires Booked(net, first, posted, results, ends) && forall i :: 0 <= i < |results| ==> results[i]
    requires AnswersAreReal(net, reached) && Arrivals(copies, net, reached, first, posted, results, ends)
    ensures |copies| == |posted| && forall i :: 0 <= i < |copies| ==> copies[i] >= 1
  {
    hide CopiesIn, PostedBy, AnswersAreReal;
    forall i | 0 <= i < |copies| ensures copies[i] >= 1 {
      assert PostedBy(net, StartOf(first, ends, i), ends[i], results[i]);
      SuccessArrives(net, reached, StartOf(first, ends, i), ends[i]);
    }
  }

  lemma {:induction false} SuccessArrives(net: nat -> Outcome, reached: nat -> bool, lo: nat, hi: nat)
    requires PostedBy(net, lo, hi, true) && AnswersAreReal(net, reached)
    ensures lo < hi && CopiesIn(reached, lo, hi) >= 1
  {
    hide CopiesIn;
    LastRequestArrives(reached, lo, hi);
  }

  /**
   The same with nothing assumed about arrivals but that they come in posting
   order and that a success is not made up: if the dispatcher recorded a success
   for every batch, the receiver mirrors the pipelines, whatever the lost
   responses made it repeat.
   */
  lemma {:induction false} SuccessfulRunIsMirrored(run: seq<Tick>, setup: Setup, script: seq<Action<AlertmanagerAlert>>,
                                                   accepted: seq<AlertmanagerAlert>, dropped: nat,
                                                   posted: seq<seq<AlertmanagerAlert>>, results: seq<bool>,
                                                   ends: seq<nat>, first: nat, net: nat -> Outcome,
                                                   reached: nat -> bool, copies: seq<nat>)
    requires IsRun(run, setup) && Pushes(script) == AllMessages(run, setup)
    requires Thinned(Pushes(script), accepted, dropped) && accepted == Flatten(posted) && dropped == 0
    requires Booked(net, first, posted, results, ends) && forall i :: 0 <= i < |results| ==> results[i]
    requires AnswersAreReal(net, reached) && Arrivals(copies, net, reached, first, posted, results, ends)
    ensures Mirrors(ReceivedBatches({}, posted, copies), After(run, setup))
  {
    hide IsRun, AllMessages, Thinned, Flatten, Mirrors, After, Pushes, AnswersAreReal, Arrivals, Booked;
    hide ReceivedBatches;
    SuccessesArrive(posted, results, ends, first, net, reached, copies);
    DeliveredRunIsMirrored(run, setup, script, accepted, dropped, posted, copies);
  }
}
