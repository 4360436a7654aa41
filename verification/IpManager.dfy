/**
 The per-source-IP alert manager behind SYN-flood and port-scan alerting: one
 slot per IP, heartbeats for alerts that stay up, and garbage collection of
 cold entries after every tick.
 */
module IpManager {
  import opened Prelude
  import opened AlertFsm
  import opened StateTable

  /** A per-IP signal; `metric` is the SYN rate or the number of distinct ports. */
  datatype Signal = Signal(srcIp: Ipv4Addr, metric: real, confidence: real)

  datatype Alert = Alert(srcIp: Ipv4Addr, metric: real, confidence: real)

  datatype Event = Event(alert: Alert, lifecycle: Lifecycle)

  type Slots = map<Ipv4Addr, Slot>
  type Active = map<Ipv4Addr, Signal>

  function FromSignal(ip: Ipv4Addr, signal: Option<Signal>): Alert {
    match signal
    case None => Alert(ip, 0.0, 0.0)
    case Some(s) => Alert(ip, s.metric, s.confidence)
  }

  /** Signals collected by source IP; a later signal for the same IP wins. */
  function ActiveMap(signals: seq<Signal>): (active: Active)
    ensures forall ip :: ip in active <==> exists s :: s in signals && s.srcIp == ip
    ensures forall ip :: ip in active ==> active[ip] in signals && active[ip].srcIp == ip
  {
    if signals == [] then map[]
    else
      var n := |signals| - 1;
      ActiveMap(signals[..n])[signals[n].srcIp := signals[n]]
  }

  /** Of several signals for one address the last is kept. */
  lemma {:induction false} LastSignalWins(signals: seq<Signal>, n: nat)
    requires n < |signals| && forall m :: n < m < |signals| ==> signals[m].srcIp != signals[n].srcIp
    ensures signals[n].srcIp in ActiveMap(signals) && ActiveMap(signals)[signals[n].srcIp] == signals[n]
  {
    var last := |signals| - 1;
    if n == last {
      assert signals[n].srcIp in ActiveMap(signals);
    } else {
      LastSignalWins(signals[..last], n);
    }
  }

  function SignalFor(active: Active, ip: Ipv4Addr): Option<Signal> {
    if ip in active then Some(active[ip]) else None
  }

  // ---- What one tick means for one IP ----

  function SlotAfter(slots: Slots, active: Active, now: Instant, p: Params, ip: Ipv4Addr): Slot {
    Step(SlotOf(slots, ip), ip in active, now, p).slot
  }

  function EventFor(slots: Slots, active: Active, now: Instant, p: Params, ip: Ipv4Addr): Option<Event> {
    match Step(SlotOf(slots, ip), ip in active, now, p).event
    case None => None
    case Some(lifecycle) => Some(Event(FromSignal(ip, SignalFor(active, ip)), lifecycle))
  }

  function HeartbeatFor(slots: Slots, active: Active, now: Instant, p: Params, ip: Ipv4Addr): Option<Alert> {
    var r := Step(SlotOf(slots, ip), ip in active, now, p);
    if r.event.None? && r.slot.phase == Firing && ip in active
    then Some(FromSignal(ip, SignalFor(active, ip)))
    else None
  }

  /** The states after a tick of a manager that forgets nothing. */
  function NextKept(slots: Slots, active: Active, now: Instant, p: Params): Slots {
    map ip | ip in slots.Keys + active.Keys :: SlotAfter(slots, active, now, p, ip)
  }

  /** The states after a tick of the manager: signalled or hot entries survive. */
  function Next(slots: Slots, active: Active, now: Instant, p: Params): Slots {
    var kept := NextKept(slots, active, now, p);
    map ip | ip in kept && (ip in active || Hot(kept[ip], now, p.cooldown)) :: kept[ip]
  }

  /** `events` lists exactly the events of this tick, at most one an IP, in any order. */
  ghost predicate ListsEvents(events: seq<Event>, slots: Slots, active: Active, now: Instant, p: Params) {
    && (forall i, j :: 0 <= i < j < |events| ==> events[i].alert.srcIp != events[j].alert.srcIp)
    && (forall e :: e in events <==> EventFor(slots, active, now, p, e.alert.srcIp) == Some(e))
  }

  ghost predicate ListsHeartbeats(beats: seq<Alert>, slots: Slots, active: Active, now: Instant, p: Params) {
    && (forall i, j :: 0 <= i < j < |beats| ==> beats[i].srcIp != beats[j].srcIp)
    && (forall a :: a in beats <==> HeartbeatFor(slots, active, now, p, a.srcIp) == Some(a))
  }

  // ---- The same three facts while only the IPs in `done` have been stepped ----

  ghost predicate SlotsSoFar(view: Slots, done: set<Ipv4Addr>, slots: Slots, active: Active, now: Instant, p: Params) {
    && view.Keys == slots.Keys + done
    && forall ip :: ip in view ==>
                      view[ip] == if ip in done then SlotAfter(slots, active, now, p, ip) else slots[ip]
  }

  ghost predicate EventsSoFar(events: seq<Event>, done: set<Ipv4Addr>, slots: Slots, active: Active, now: Instant,
                              p: Params)
  {
    && (forall i, j :: 0 <= i < j < |events| ==> events[i].alert.srcIp != events[j].alert.srcIp)
    && (forall e :: e in events <==>
                      e.alert.srcIp in done && EventFor(slots, active, now, p, e.alert.srcIp) == Some(e))
  }

  ghost predicate HeartbeatsSoFar(beats: seq<Alert>, done: set<Ipv4Addr>, slots: Slots, active: Active, now: Instant,
                                  p: Params)
  {
    && (forall i, j :: 0 <= i < j < |beats| ==> beats[i].srcIp != beats[j].srcIp)
    && (forall a :: a in beats <==>
                      a.srcIp in done && HeartbeatFor(slots, active, now, p, a.srcIp) == Some(a))
  }

  lemma ExtendEvents(events: seq<Event>, done: set<Ipv4Addr>, slots: Slots, active: Active, now: Instant, p: Params,
                     ip: Ipv4Addr)
    requires EventsSoFar(events, done, slots, active, now, p) && ip !in done
    ensures EventsSoFar(Append(events, EventFor(slots, active, now, p, ip)), done + {ip}, slots, active, now, p)
  {}

  lemma ExtendHeartbeats(beats: seq<Alert>, done: set<Ipv4Addr>, slots: Slots, active: Active, now: Instant, p: Params,
                         ip: Ipv4Addr)
    requires HeartbeatsSoFar(beats, done, slots, active, now, p) && ip !in done
    ensures HeartbeatsSoFar(Append(beats, HeartbeatFor(slots, active, now, p, ip)), done + {ip}, slots, active, now, p)
  {}

  lemma Begin(slots: Slots, active: Active, now: Instant, p: Params)
    ensures SlotsSoFar(slots, {}, slots, active, now, p)
    ensures EventsSoFar([], {}, slots, active, now, p) && HeartbeatsSoFar([], {}, slots, active, now, p)
  {}

  lemma Complete(view: Slots, events: seq<Event>, beats: seq<Alert>, done: set<Ipv4Addr>, slots: Slots,
                 active: Active, now: Instant, p: Params)
    requires done == slots.Keys + active.Keys
    requires SlotsSoFar(view, done, slots, active, now, p)
    requires EventsSoFar(events, done, slots, active, now, p)
    requires HeartbeatsSoFar(beats, done, slots, active, now, p)
    ensures view == NextKept(slots, active, now, p)
    ensures ListsEvents(events, slots, active, now, p)
    ensures ListsHeartbeats(beats, slots, active, now, p)
  {}

  class IpAlertLifecycleManager {
    const params: Params
    const states: Table<Ipv4Addr>

    ghost function Repr(): set<object>
      reads states
    {
      states.Repr()
    }

    ghost predicate Valid()
      reads states
    {
      states.Valid()
    }

    ghost function View(): Slots
      reads Repr()
    {
      states.View()
    }

    constructor (params: Params)
      ensures Valid() && fresh(Repr()) && View() == map[] && this.params == params
    {
      this.params := params;
      states := new Table();
    }

    method Tick(signals: seq<Signal>, now: Instant) returns (events: seq<Event>, heartbeats: seq<Alert>)
      requires Valid()
      modifies Repr()
      ensures Valid() && fresh(Repr() - old(Repr()))
      ensures View() == Next(old(View()), ActiveMap(signals), now, params)
      ensures ListsEvents(events, old(View()), ActiveMap(signals), now, params)
      ensures ListsHeartbeats(heartbeats, old(View()), ActiveMap(signals), now, params)
    {
      hide SlotsSoFar, EventsSoFar, HeartbeatsSoFar, ListsEvents, ListsHeartbeats, NextKept;
      var active := ActiveMap(signals);
      ghost var slots := View();
      Begin(slots, active, now, params);
      var keys := states.states.Keys + active.Keys;
      ghost var done := {};
      events, heartbeats := [], [];
      while keys != {}
        invariant keys !! done && keys + done == slots.Keys + active.Keys
        invariant Valid() && fresh(Repr() - old(Repr()))
        invariant SlotsSoFar(View(), done, slots, active, now, params)
        invariant EventsSoFar(events, done, slots, active, now, params)
        invariant HeartbeatsSoFar(heartbeats, done, slots, active, now, params)
      {
        var ip :| ip in keys;
        var event, heartbeat := AdvanceIp(ip, active, now, slots, done);
        ExtendEvents(events, done, slots, active, now, params, ip);
        ExtendHeartbeats(heartbeats, done, slots, active, now, params, ip);
        events := Append(events, event);
        heartbeats := Append(heartbeats, heartbeat);
        keys, done := keys - {ip}, done + {ip};
      }
      Complete(View(), events, heartbeats, done, slots, active, now, params);
      states.Retain(active.Keys, now, params.cooldown);
    }

    /** The loop body of `Tick`. */
    method AdvanceIp(ip: Ipv4Addr, active: Active, now: Instant, ghost slots: Slots, ghost done: set<Ipv4Addr>)
      returns (event: Option<Event>, heartbeat: Option<Alert>)
      requires Valid() && ip !in done
      requires SlotsSoFar(View(), done, slots, active, now, params)
      modifies Repr()
      ensures Valid() && fresh(Repr() - old(Repr()))
      ensures SlotsSoFar(View(), done + {ip}, slots, active, now, params)
      ensures event == EventFor(slots, active, now, params, ip)
      ensures heartbeat == HeartbeatFor(slots, active, now, params, ip)
    {
      var signal := SignalFor(active, ip);
      event, heartbeat := None, None;
      var lifecycle, firing := states.Advance(ip, signal.Some?, now, params);
      match lifecycle {
        case Some(l) => event := Some(Event(FromSignal(ip, signal), l));
        case None =>
          if firing && signal.Some? {
            heartbeat := Some(FromSignal(ip, signal));
          }
      }
    }
  }
}
