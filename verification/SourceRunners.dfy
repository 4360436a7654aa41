/**
 The runners of the two per-source pipelines: what they hold between ticks, and
 what one tick makes of a reading of the kernel's maps.
 */
module SourceRunners {
  import opened Prelude
  import opened AlertFsm
  import opened Rates
  import opened TopTalkers
  import Ip = IpManager

  // ---- SYN floods: two readings to diff ----

  datatype SynState = SynState(prev: Option<SynSnapshot>, slots: Ip.Slots, top: seq<Offender>)

  /** One call of `tick`: the reading, if there was one, the clock, and the offenders that a diff came up with. */
  datatype SynTick = SynTick(current: Option<SynSnapshot>, now: Instant, top: seq<Offender>)

  const NO_SYNS := SynState(None, map[], [])

  /**
   The largest `topN` rates between two readings, in whatever order ties were found; none if the
   clock stood still.
   */
  ghost predicate TopRates(prev: SynSnapshot, curr: SynSnapshot, topN: nat, top: seq<Offender>) {
    match DtSecs(prev.timestamp, curr.timestamp)
    case None => top == []
    case Some(dt) => IsTop(top, (ip: Ipv4Addr) => SynRate(prev, curr, dt, ip), topN)
  }

  predicate Diffs(s: SynState, t: SynTick) {
    s.prev.Some? && t.current.Some?
  }

  /** A tick without a reading does nothing, and the first reading only primes. */
  function SynNext(s: SynState, t: SynTick, limit: real, p: Params): SynState {
    if t.current.None? then s
    else if s.prev.None? then s.(prev := t.current)
    else SynState(t.current, Ip.Next(s.slots, Ip.ActiveMap(Detect(t.top, limit)), t.now, p), t.top)
  }

  /** The alerts of a tick; none before there are two readings. */
  ghost predicate SynEmits(events: seq<Ip.Event>, beats: seq<Ip.Alert>, s: SynState, t: SynTick, limit: real, p: Params)
  {
    if Diffs(s, t) then
      && Ip.ListsEvents(events, s.slots, Ip.ActiveMap(Detect(t.top, limit)), t.now, p)
      && Ip.ListsHeartbeats(beats, s.slots, Ip.ActiveMap(Detect(t.top, limit)), t.now, p)
    else events == [] && beats == []
  }

  class SynFloodRunner {
    const maxSynPps: real
    const topN: nat
    const manager: Ip.IpAlertLifecycleManager
    var prevSnapshot: Option<SynSnapshot>
    var lastTopN: seq<Offender>

    ghost function Repr(): set<object>
      reads manager.states
    {
      {this} + manager.Repr()
    }

    ghost predicate Valid()
      reads manager.states
    {
      manager.Valid() && this !in manager.Repr()
    }

    ghost function View(): SynState
      reads manager.states, Repr()
    {
      SynState(prevSnapshot, manager.View(), lastTopN)
    }

    constructor (maxSynPps: real, topN: nat, params: Params)
      ensures Valid() && fresh(Repr()) && View() == NO_SYNS
      ensures this.maxSynPps == maxSynPps && this.topN == topN && manager.params == params
    {
      this.maxSynPps, this.topN := maxSynPps, topN;
      var lifecycle := new Ip.IpAlertLifecycleManager(params);
      manager := lifecycle;
      prevSnapshot, lastTopN := None, [];
    }

    method Tick(current: Option<SynSnapshot>, now: Instant) returns (events: seq<Ip.Event>, heartbeats: seq<Ip.Alert>)
      requires Valid()
      modifies Repr()
      ensures Valid() && fresh(Repr() - old(Repr()))
      ensures var t := SynTick(current, now, lastTopN);
              && View() == SynNext(old(View()), t, maxSynPps, manager.params)
              && SynEmits(events, heartbeats, old(View()), t, maxSynPps, manager.params)
              && (Diffs(old(View()), t) ==> TopRates(old(View()).prev.value, current.value, topN, lastTopN))
    {
      hide TopRates, Detect, Ip.ListsEvents, Ip.ListsHeartbeats, Ip.Next, Ip.ActiveMap;
      if current.None? {
        return [], [];
      }
      var prev;
      prev, prevSnapshot := PrimeOrDiff(prevSnapshot, current);
      if prev.None? {
        return [], [];
      }
      events, heartbeats := Process(prev.value, current.value, now);
    }

    /** The part of `Tick` that follows the diff of two readings. */
    method Process(prev: SynSnapshot, curr: SynSnapshot, now: Instant)
      returns (events: seq<Ip.Event>, heartbeats: seq<Ip.Alert>)
      requires Valid()
      modifies Repr()
      ensures Valid() && fresh(Repr() - old(Repr()))
      ensures TopRates(prev, curr, topN, lastTopN)
      ensures var active := Ip.ActiveMap(Detect(lastTopN, maxSynPps));
              && View()
                 == SynState(old(prevSnapshot), Ip.Next(old(View()).slots, active, now, manager.params), lastTopN)
              && Ip.ListsEvents(events, old(View()).slots, active, now, manager.params)
              && Ip.ListsHeartbeats(heartbeats, old(View()).slots, active, now, manager.params)
    {
      hide IsTop, Detect, Ip.ListsEvents, Ip.ListsHeartbeats, Ip.Next, Ip.ActiveMap;
      lastTopN := ComputeSynRatesTopN(prev, curr, topN);
      var signals := Detect(lastTopN, maxSynPps);
      events, heartbeats := manager.Tick(signals, now);
    }
  }

  // ---- Port scans: one reading is enough ----

  datatype ScanState = ScanState(slots: Ip.Slots, top: seq<Offender>)

  datatype ScanTick = ScanTick(current: Option<PortScanSnapshot>, now: Instant, top: seq<Offender>)

  const NO_SCANS := ScanState(map[], [])

  /** What the port-scan detector is built with. */
  datatype ScanLimits = ScanLimits(maxDistinctPorts: nat, topN: nat, windowNs: nat)

  ghost predicate TopBreadths(s: PortScanSnapshot, limits: ScanLimits, top: seq<Offender>) {
    IsTop(top, (ip: Ipv4Addr) => Breadth(s, limits.windowNs, ip), limits.topN)
  }

  function ScanSignals(top: seq<Offender>, limits: ScanLimits): seq<Ip.Signal> {
    Detect(top, limits.maxDistinctPorts as real)
  }

  /** Every reading is processed, the first one included. */
  function ScanNext(s: ScanState, t: ScanTick, limits: ScanLimits, p: Params): ScanState {
    if t.current.None? then s
    else ScanState(Ip.Next(s.slots, Ip.ActiveMap(ScanSignals(t.top, limits)), t.now, p), t.top)
  }

  ghost predicate ScanEmits(events: seq<Ip.Event>, beats: seq<Ip.Alert>, s: ScanState, t: ScanTick, limits: ScanLimits,
                            p: Params)
  {
    if t.current.Some? then
      && Ip.ListsEvents(events, s.slots, Ip.ActiveMap(ScanSignals(t.top, limits)), t.now, p)
      && Ip.ListsHeartbeats(beats, s.slots, Ip.ActiveMap(ScanSignals(t.top, limits)), t.now, p)
    else events == [] && beats == []
  }

  class PortScanRunner {
    const limits: ScanLimits
    const manager: Ip.IpAlertLifecycleManager
    var lastTopN: seq<Offender>

    ghost function Repr(): set<object>
      reads manager.states
    {
      {this} + manager.Repr()
    }

    ghost predicate Valid()
      reads manager.states
    {
      manager.Valid() && this !in manager.Repr()
    }

    ghost function View(): ScanState
      reads manager.states, Repr()
    {
      ScanState(manager.View(), lastTopN)
    }

    constructor (limits: ScanLimits, params: Params)
      ensures Valid() && fresh(Repr()) && View() == NO_SCANS
      ensures this.limits == limits && manager.params == params
    {
      this.limits := limits;
      var lifecycle := new Ip.IpAlertLifecycleManager(params);
      manager := lifecycle;
      lastTopN := [];
    }

    method Tick(current: Option<PortScanSnapshot>, now: Instant)
      returns (events: seq<Ip.Event>, heartbeats: seq<Ip.Alert>)
      requires Valid()
      modifies Repr()
      ensures Valid() && fresh(Repr() - old(Repr()))
      ensures var t := ScanTick(current, now, lastTopN);
              && View() == ScanNext(old(View()), t, limits, manager.params)
              && ScanEmits(events, heartbeats, old(View()), t, limits, manager.params)
              && (current.Some? ==> TopBreadths(current.value, limits, lastTopN))
    {
      hide IsTop, Detect, Ip.ListsEvents, Ip.ListsHeartbeats, Ip.Next, Ip.ActiveMap;
      if current.None? {
        return [], [];
      }
      var top := ComputePortScanBreadth(current.value, limits.windowNs, limits.topN);
      var signals := ScanSignals(top, limits);
      events, heartbeats := manager.Tick(signals, now);
      lastTopN := top;
    }
  }
}
