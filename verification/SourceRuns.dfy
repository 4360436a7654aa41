/**
 The per-source pipelines over whole runs, from the kernel's frames to the
 alert: when a source is reported, in terms of the readings alone, and what it
 then must have sent.
 */
module SourceRuns {
  import opened Prelude
  import opened AlertFsm
  import opened FsmHistory
  import opened Histories
  import opened GarbageCollection
  import opened Rates
  import opened Kernel
  import opened TopTalkers
  import opened SourceRunners
  import KernelRuns
  import Frame
  import SynRates
  import PortMap
  import TopN
  import Detectors
  import Ip = IpManager

  // ---- Any run of signals ----

  lemma {:induction false} StreakIff(h: seq<FsmHistory.Tick>, active: bool, k: nat)
    ensures Streak(h, active) >= k <==> k <= |h| && forall i :: |h| - k <= i < |h| ==> h[i].active == active
  {
    if h == [] || k == 0 || h[|h| - 1].active != active {
    } else {
      StreakIff(h[..|h| - 1], active, k - 1);
    }
  }

  /** The last `k` entries of a list of flags are all there and all set. */
  predicate LastAll(flags: seq<bool>, k: nat) {
    k <= |flags| && forall i :: |flags| - k <= i < |flags| ==> flags[i]
  }

  /** Flags and clock readings, as the history of a slot. */
  function HistoryOf(flags: seq<bool>, times: seq<Instant>): (h: seq<FsmHistory.Tick>)
    requires |flags| == |times|
    ensures |h| == |flags|
  {
    seq(|flags|, i requires 0 <= i < |flags| => Tick(flags[i], times[i]))
  }

  lemma LastAllIsStreak(flags: seq<bool>, times: seq<Instant>, k: nat)
    requires |flags| == |times|
    ensures Streak(HistoryOf(flags, times), true) >= k <==> LastAll(flags, k)
  {
    var h := HistoryOf(flags, times);
    StreakIff(h, true, k);
    if k <= |h| {
      assert forall i :: |h| - k <= i < |h| ==> h[i].active == flags[i];
    }
  }

  /**
   By the reference, this tick fires: there is no open alert, the last
   `max(1, threshold)` ticks were all signalled, and the cooldown is over.
   */
  predicate Due(flags: seq<bool>, times: seq<Instant>, p: Params)
    requires |flags| == |times| > 0
  {
    var n := |flags| - 1;
    var g := HistoryOf(flags[..n], times[..n]);
    var log := ReferenceLog(g, p);
    && LastAll(flags, Max(1, p.fireAfter))
    && !Open(log)
    && CooldownPassed(LastFire(g, log), times[n], p.cooldown)
  }

  function Flags(run: seq<TickInput>, ip: Ipv4Addr): (flags: seq<bool>)
    ensures |flags| == |run|
  {
    seq(|run|, i requires 0 <= i < |run| => Signalled(run[i], ip))
  }

  /** The manager fires for the address when the last of these inputs follows the others. */
  predicate FiresAt(slots: Ip.Slots, input: TickInput, p: Params, ip: Ipv4Addr) {
    LifecycleOf(Ip.EventFor(slots, Ip.ActiveMap(input.signals), input.now, p, ip)) == Some(Fired)
  }

  lemma {:induction false} FiresIffDue(run: seq<TickInput>, p: Params, ip: Ipv4Addr)
    requires run != [] && Monotone(Times(run, GarbageCollection.TimeOf))
    ensures var n := |run| - 1;
            FiresAt(Collected(run[..n], p), run[n], p, ip) <==>
              Due(Flags(run, ip), Times(run, GarbageCollection.TimeOf), p)
  {
    hide Ip.EventFor, Ip.ActiveMap, Collected, CooldownPassed, Signalled, ReferenceLog;
    var n := |run| - 1;
    var flags, times := Flags(run, ip), Times(run, GarbageCollection.TimeOf);
    var h, g := IpHistory(run, ip), IpHistory(run[..n], ip);
    assert run == run[..n] + [run[n]];
    IpEventsFollowHistory(run[..n], run[n], p, ip);
    LastAllIsStreak(flags, times, Max(1, p.fireAfter));
    LastFireFrame(h, g, ReferenceLog(g, p));
    assert HistoryOf(flags[..n], times[..n]) == g;
    assert h == HistoryOf(flags, times);
  }

  // ---- SYN floods ----

  /** A tick that had two readings. */
  datatype Diff = Diff(prev: SynSnapshot, curr: SynSnapshot, now: Instant, top: seq<Offender>)

  /** What the runner's limits are. */
  datatype SynLimits = SynLimits(maxSynPps: real, topN: nat)

  function SynRun(run: seq<SynTick>, limits: SynLimits, p: Params): SynState {
    if run == [] then NO_SYNS
    else SynNext(SynRun(run[..|run| - 1], limits, p), run[|run| - 1], limits.maxSynPps, p)
  }

  /** The last reading there was. */
  function LastReading(run: seq<SynTick>): Option<SynSnapshot> {
    if run == [] then None
    else if run[|run| - 1].current.Some? then run[|run| - 1].current
    else LastReading(run[..|run| - 1])
  }

  /** The ticks of a run that had two readings. */
  function DiffsOf(run: seq<SynTick>): seq<Diff> {
    if run == [] then []
    else
      var n := |run| - 1;
      Append(DiffsOf(run[..n]), DiffAt(LastReading(run[..n]), run[n]))
  }

  function DiffAt(prev: Option<SynSnapshot>, t: SynTick): Option<Diff> {
    if prev.Some? && t.current.Some? then Some(Diff(prev.value, t.current.value, t.now, t.top)) else None
  }

  function InputOf(d: Diff, limits: SynLimits): TickInput {
    TickInput(Detect(d.top, limits.maxSynPps), d.now)
  }

  function InputsOf(diffs: seq<Diff>, limits: SynLimits): (inputs: seq<TickInput>)
    ensures |inputs| == |diffs|
  {
    seq(|diffs|, i requires 0 <= i < |diffs| => InputOf(diffs[i], limits))
  }

  /** The runner's state after a run is that of the manager after the ticks that had two readings. */
  lemma {:induction false} RunIsOfDiffs(run: seq<SynTick>, limits: SynLimits, p: Params)
    ensures SynRun(run, limits, p).prev == LastReading(run)
    ensures SynRun(run, limits, p).slots == Collected(InputsOf(DiffsOf(run), limits), p)
  {
    hide Detect, Ip.Next, Ip.ActiveMap;
    if run == [] {
    } else {
      var n := |run| - 1;
      RunIsOfDiffs(run[..n], limits, p);
      var before, d := DiffsOf(run[..n]), DiffAt(LastReading(run[..n]), run[n]);
      if d.Some? {
        var inputs := InputsOf(DiffsOf(run), limits);
        assert inputs[..|before|] == InputsOf(before, limits);
      }
    }
  }

  /** Between its two readings the source's SYN rate was over the limit and among the largest. */
  predicate Flooded(d: Diff, limits: SynLimits, ip: Ipv4Addr) {
    match DtSecs(d.prev.timestamp, d.curr.timestamp)
    case None => false
    case Some(dt) =>
      var rate := SynRate(d.prev, d.curr, dt, ip);
      rate.Some? && rate.value.metric > limits.maxSynPps && rate.value in d.top
  }

  ghost predicate Computed(d: Diff, limits: SynLimits) {
    TopRates(d.prev, d.curr, limits.topN, d.top)
  }

  lemma TopHasEntries(top: seq<Offender>, entry: Ipv4Addr -> Option<Offender>, n: nat)
    requires IsTop(top, entry, n)
    ensures forall o :: o in top ==> entry(o.srcIp) == Some(o)
  {
    hide TopN.SortDescending, TopN.Truncate;
    var all :| Lists(all, entry) && top == Top(all, n);
    TopN.TopNIsTop(all, Metric, n);
  }

  lemma {:induction false} DetectIff(top: seq<Offender>, limit: real, ip: Ipv4Addr)
    ensures ip in Ip.ActiveMap(Detect(top, limit)) <==> exists o :: o in top && o.srcIp == ip && o.metric > limit
  {
    hide Detect, Ip.ActiveMap, Detectors.RatioConfidence;
    var signals := Detect(top, limit);
    if s :| s in signals && s.srcIp == ip {
      DetectHas(top, limit, s);
      assert Offender(ip, s.metric) in top;
    }
    if o :| o in top && o.srcIp == ip && o.metric > limit {
      DetectHas(top, limit, SignalFor(o, limit));
    }
  }

  lemma FloodedIffSignalled(d: Diff, limits: SynLimits, ip: Ipv4Addr)
    requires Computed(d, limits)
    ensures Flooded(d, limits, ip) <==> Signalled(InputOf(d, limits), ip)
  {
    hide Detect, Ip.ActiveMap, IsTop, DtSecs;
    DetectIff(d.top, limits.maxSynPps, ip);
    var elapsed := DtSecs(d.prev.timestamp, d.curr.timestamp);
    if elapsed.Some? {
      TopHasEntries(d.top, (ip: Ipv4Addr) => SynRate(d.prev, d.curr, elapsed.value, ip), limits.topN);
    }
  }

  /** At which of the ticks the source was flooding. */
  function FloodFlags(diffs: seq<Diff>, limits: SynLimits, ip: Ipv4Addr): (flags: seq<bool>)
    ensures |flags| == |diffs|
  {
    seq(|diffs|, i requires 0 <= i < |diffs| => Flooded(diffs[i], limits, ip))
  }

  function NowOf(d: Diff): Instant {
    d.now
  }

  /** A run of the runner whose clock never goes back, and whose offenders are those of its readings. */
  ghost predicate IsSynRun(run: seq<SynTick>, limits: SynLimits) {
    && (forall d :: d in DiffsOf(run) ==> Computed(d, limits))
    && Monotone(Times(DiffsOf(run), NowOf))
  }

  /** The runner fires for the source at the last tick of the run. */
  predicate SynFires(run: seq<SynTick>, limits: SynLimits, p: Params, ip: Ipv4Addr)
    requires run != []
  {
    var n := |run| - 1;
    && Diffs(SynRun(run[..n], limits, p), run[n])
    && FiresAt(SynRun(run[..n], limits, p).slots, TickInput(Detect(run[n].top, limits.maxSynPps), run[n].now), p, ip)
  }

  /**
   A SYN flood is reported exactly when it is due by the readings: at the last
   tick and at all of the last `max(1, threshold)` ticks with two readings, the
   source's rate was over the limit and among the largest, it has no open alert
   and its cooldown is over.
   */
  lemma {:induction false} SynFloodFiresIffDue(run: seq<SynTick>, limits: SynLimits, p: Params, ip: Ipv4Addr)
    requires run != [] && IsSynRun(run, limits)
    ensures SynFires(run, limits, p, ip) <==>
              && DiffAt(LastReading(run[..|run| - 1]), run[|run| - 1]).Some?
              && Due(FloodFlags(DiffsOf(run), limits, ip), Times(DiffsOf(run), NowOf), p)
  {
    hide Detect, Flooded, Computed, Collected, FiresAt, Due, Signalled;
    var n := |run| - 1;
    RunIsOfDiffs(run[..n], limits, p);
    if DiffAt(LastReading(run[..n]), run[n]).Some? {
      var diffs := DiffsOf(run);
      var inputs, m := InputsOf(diffs, limits), |diffs| - 1;
      assert inputs[..m] == InputsOf(DiffsOf(run[..n]), limits);
      assert Times(inputs, GarbageCollection.TimeOf) == Times(diffs, NowOf);
      FiresIffDue(inputs, p, ip);
      forall i | 0 <= i < |diffs| ensures FloodFlags(diffs, limits, ip)[i] == Flags(inputs, ip)[i] {
        assert diffs[i] in diffs;
        FloodedIffSignalled(diffs[i], limits, ip);
      }
      assert FloodFlags(diffs, limits, ip) == Flags(inputs, ip);
    }
  }

  /** The two readings were taken in this order from the kernel's maps. */
  ghost predicate ReadFrom(d: Diff, steps: seq<KernelRuns.Step>, cpus: nat, from: nat, to: nat) {
    && from <= to <= |steps| && KernelRuns.IsRun(steps[..from], cpus) && KernelRuns.IsRun(steps[..to], cpus)
    && d.prev == Reading(KernelRuns.After(steps[..from], cpus).maps, d.prev.timestamp)
    && d.curr == Reading(KernelRuns.After(steps[..to], cpus).maps, d.curr.timestamp)
  }

  /**
   Between the readings the source sent more SYNs than the limit allows, those in flight at the first
   one included.
   */
  ghost predicate ReallyFlooded(d: Diff, steps: seq<KernelRuns.Step>, cpus: nat, from: nat, to: nat, limit: real,
                                ip: Ipv4Addr)
    requires from <= to <= |steps| && KernelRuns.IsRun(steps[..from], cpus)
  {
    var elapsed := DtSecs(d.prev.timestamp, d.curr.timestamp);
    var sent := KernelRuns.SynTally(KernelRuns.Frames(steps[..to]), ip).packets
                - KernelRuns.SynTally(KernelRuns.Frames(steps[..from]), ip).packets;
    var inFlight := KernelRuns.InFlight(KernelRuns.After(steps[..from], cpus).cpus, ip).packets;
    elapsed.Some? && limit * elapsed.value < (sent + inFlight) as real
  }

  lemma FloodedIsReal(d: Diff, limits: SynLimits, ip: Ipv4Addr, steps: seq<KernelRuns.Step>, cpus: nat, from: nat,
                      to: nat)
    requires Computed(d, limits) && Flooded(d, limits, ip) && ReadFrom(d, steps, cpus, from, to)
    ensures ReallyFlooded(d, steps, cpus, from, to, limits.maxSynPps, ip)
  {
    hide Detect, IsTop, DtSecs, Reading, KernelRuns.After, KernelRuns.Frames, KernelRuns.SynTally, KernelRuns.InFlight,
         Detectors.RatioConfidence, Rate;
    var dt := DtSecs(d.prev.timestamp, d.curr.timestamp).value;
    var o := SynRate(d.prev, d.curr, dt, ip).value;
    var s := SignalFor(o, limits.maxSynPps);
    DetectHas(d.top, limits.maxSynPps, s);
    assert steps[..to][..from] == steps[..from];
    SynFloodSignalIsReal(steps[..to], cpus, from, d.prev.timestamp, d.curr.timestamp, d.top, limits.maxSynPps,
                         limits.topN, s);
  }

  /**
   A reported SYN flood was one: at each of the last `max(1, threshold)` ticks
   with two readings, wherever in a run of the kernel these were taken, the
   source had sent more SYNs in between than the limit allows.
   */
  lemma {:induction false} ReportedFloodIsReal(run: seq<SynTick>, limits: SynLimits, p: Params, ip: Ipv4Addr, i: nat,
                                               steps: seq<KernelRuns.Step>, cpus: nat, from: nat, to: nat)
    requires run != [] && IsSynRun(run, limits) && SynFires(run, limits, p, ip)
    requires |DiffsOf(run)| - Max(1, p.fireAfter) <= i < |DiffsOf(run)|
             && ReadFrom(DiffsOf(run)[i], steps, cpus, from, to)
    ensures ReallyFlooded(DiffsOf(run)[i], steps, cpus, from, to, limits.maxSynPps, ip)
  {
    hide SynFires, Computed, Flooded, ReadFrom, ReallyFlooded, ReferenceLog, Open, LastFire, CooldownPassed;
    SynFloodFiresIffDue(run, limits, p, ip);
    assert FloodFlags(DiffsOf(run), limits, ip)[i];
    FloodedIsReal(DiffsOf(run)[i], limits, ip, steps, cpus, from, to);
  }

  /**
   Between the readings the source sent more SYNs than the limit allows, and none of them is missing
   from the second.
   */
  ghost predicate SentInFull(d: Diff, steps: seq<KernelRuns.Step>, cpus: nat, from: nat, to: nat, limit: real,
                             ip: Ipv4Addr)
    requires ReadFrom(d, steps, cpus, from, to)
  {
    assert steps[..to][..from] == steps[..from];
    var elapsed := DtSecs(d.prev.timestamp, d.curr.timestamp);
    && SynRates.NothingMissing(steps[..to], cpus, from, ip)
    && elapsed.Some? && SynRates.Sent(steps[..to], from, ip) as real > limit * elapsed.value
  }

  /**
   And the other way: a source that sent more SYNs between the readings than the
   limit allows was flooding at that tick, unless some of its SYNs are missing
   from the readings or as many others as are kept were at least as fast.
   */
  lemma RealFloodIsSeen(d: Diff, limits: SynLimits, ip: Ipv4Addr, steps: seq<KernelRuns.Step>, cpus: nat,
                        from: nat, to: nat)
    requires Computed(d, limits) && ReadFrom(d, steps, cpus, from, to) && limits.maxSynPps >= 0.0
    requires SentInFull(d, steps, cpus, from, to, limits.maxSynPps, ip)
    ensures Flooded(d, limits, ip) || exists rate :: rate > limits.maxSynPps
                                                     && CrowdedOut(d.top, ip, rate, limits.maxSynPps, limits.topN)
  {
    hide Detect, IsTop, SynRate, DtSecs, Reading, SynRates.NothingMissing, SynRates.Sent, KernelRuns.After;
    assert steps[..to][..from] == steps[..from];
    SynRates.FloodIsOverLimit(steps[..to], cpus, from, d.prev.timestamp, d.curr.timestamp, limits.maxSynPps, ip);
    SynRates.FloodIsSeen(steps[..to], cpus, from, d.prev.timestamp, d.curr.timestamp, limits.maxSynPps, ip,
                         d.top, limits.topN);
    var rate := SynRates.RateBetween(steps[..to], cpus, from, d.prev.timestamp, d.curr.timestamp, ip).value;
    hide CrowdedOut;
    DetectHas(d.top, limits.maxSynPps, SignalFor(rate, limits.maxSynPps));
  }

  // ---- Port scans ----

  /** A tick that had a reading. */
  datatype Scan = Scan(reading: PortScanSnapshot, now: Instant, top: seq<Offender>)

  function ScanRun(run: seq<ScanTick>, limits: ScanLimits, p: Params): ScanState {
    if run == [] then NO_SCANS
    else ScanNext(ScanRun(run[..|run| - 1], limits, p), run[|run| - 1], limits, p)
  }

  function ScanAt(t: ScanTick): Option<Scan> {
    if t.current.Some? then Some(Scan(t.current.value, t.now, t.top)) else None
  }

  function ScansOf(run: seq<ScanTick>): seq<Scan> {
    if run == [] then [] else Append(ScansOf(run[..|run| - 1]), ScanAt(run[|run| - 1]))
  }

  function ScanInputOf(d: Scan, limits: ScanLimits): TickInput {
    TickInput(ScanSignals(d.top, limits), d.now)
  }

  function ScanInputsOf(scans: seq<Scan>, limits: ScanLimits): (inputs: seq<TickInput>)
    ensures |inputs| == |scans|
  {
    seq(|scans|, i requires 0 <= i < |scans| => ScanInputOf(scans[i], limits))
  }

  lemma {:induction false} RunIsOfScans(run: seq<ScanTick>, limits: ScanLimits, p: Params)
    ensures ScanRun(run, limits, p).slots == Collected(ScanInputsOf(ScansOf(run), limits), p)
  {
    hide ScanSignals, Ip.Next, Ip.ActiveMap;
    if run == [] {
    } else {
      var n := |run| - 1;
      RunIsOfScans(run[..n], limits, p);
      if ScanAt(run[n]).Some? {
        var before, inputs := ScansOf(run[..n]), ScanInputsOf(ScansOf(run), limits);
        assert inputs[..|before|] == ScanInputsOf(before, limits);
      }
    }
  }

  /** At its reading the source had touched more ports within the window than allowed, and was among the broadest. */
  predicate Scanned(d: Scan, limits: ScanLimits, ip: Ipv4Addr) {
    var breadth := Breadth(d.reading, limits.windowNs, ip);
    breadth.Some? && breadth.value.metric > limits.maxDistinctPorts as real && breadth.value in d.top
  }

  ghost predicate Measured(d: Scan, limits: ScanLimits) {
    TopBreadths(d.reading, limits, d.top)
  }

  lemma ScannedIffSignalled(d: Scan, limits: ScanLimits, ip: Ipv4Addr)
    requires Measured(d, limits)
    ensures Scanned(d, limits, ip) <==> Signalled(ScanInputOf(d, limits), ip)
  {
    hide Detect, Ip.ActiveMap, IsTop, FreshPorts;
    DetectIff(d.top, limits.maxDistinctPorts as real, ip);
    TopHasEntries(d.top, (ip: Ipv4Addr) => Breadth(d.reading, limits.windowNs, ip), limits.topN);
  }

  /** At which of the ticks the source was scanning. */
  function ScanFlags(scans: seq<Scan>, limits: ScanLimits, ip: Ipv4Addr): (flags: seq<bool>)
    ensures |flags| == |scans|
  {
    seq(|scans|, i requires 0 <= i < |scans| => Scanned(scans[i], limits, ip))
  }

  function ScanTimeOf(d: Scan): Instant {
    d.now
  }

  ghost predicate IsScanRun(run: seq<ScanTick>, limits: ScanLimits) {
    && (forall d :: d in ScansOf(run) ==> Measured(d, limits))
    && Monotone(Times(ScansOf(run), ScanTimeOf))
  }

  predicate ScanFires(run: seq<ScanTick>, limits: ScanLimits, p: Params, ip: Ipv4Addr)
    requires run != []
  {
    var n := |run| - 1;
    && run[n].current.Some?
    && FiresAt(ScanRun(run[..n], limits, p).slots, TickInput(ScanSignals(run[n].top, limits), run[n].now), p, ip)
  }

  /**
   A port scan is reported exactly when it is due by the readings: at all of
   the last `max(1, threshold)` ticks with a reading the source's breadth was
   over the limit and among the largest, it has no open alert and its cooldown
   is over.
   */
  lemma {:induction false} PortScanFiresIffDue(run: seq<ScanTick>, limits: ScanLimits, p: Params, ip: Ipv4Addr)
    requires run != [] && IsScanRun(run, limits)
    ensures ScanFires(run, limits, p, ip) <==>
              run[|run| - 1].current.Some?
                && Due(ScanFlags(ScansOf(run), limits, ip), Times(ScansOf(run), ScanTimeOf), p)
  {
    hide ScanSignals, Scanned, Measured, Collected, FiresAt, Due, Signalled;
    var n := |run| - 1;
    RunIsOfScans(run[..n], limits, p);
    if run[n].current.Some? {
      var scans := ScansOf(run);
      var inputs, m := ScanInputsOf(scans, limits), |scans| - 1;
      assert inputs[..m] == ScanInputsOf(ScansOf(run[..n]), limits);
      assert Times(inputs, GarbageCollection.TimeOf) == Times(scans, ScanTimeOf);
      FiresIffDue(inputs, p, ip);
      forall i | 0 <= i < |scans| ensures ScanFlags(scans, limits, ip)[i] == Flags(inputs, ip)[i] {
        assert scans[i] in scans;
        ScannedIffSignalled(scans[i], limits, ip);
      }
      assert ScanFlags(scans, limits, ip) == Flags(inputs, ip);
    }
  }

  /** The reading was taken from the kernel's map of touches. */
  ghost predicate ScanReadFrom(d: Scan, steps: seq<KernelRuns.Step>, cpus: nat, at: nat) {
    && at <= |steps| && KernelRuns.IsRun(steps[..at], cpus)
    && d.reading == PortScanSnapshot(d.reading.nowNs, KernelRuns.After(steps[..at], cpus).maps.ports)
  }

  /** Bare SYNs of the source to more ports than allowed were being handled within the window. */
  ghost predicate ReallyScanned(d: Scan, steps: seq<KernelRuns.Step>, cpus: nat, at: nat, limits: ScanLimits,
                                ip: Ipv4Addr)
    requires at <= |steps| && KernelRuns.IsRun(steps[..at], cpus)
  {
    var sent := RealPorts(KernelRuns.TouchLog(steps[..at], cpus), d.reading.nowNs, limits.windowNs, ip);
    && |sent| > limits.maxDistinctPorts
    && forall port :: port in sent ==> SentWithin(steps[..at], PortScanKey(ip, port), d.reading.nowNs, limits.windowNs)
  }

  lemma ScannedIsReal(d: Scan, limits: ScanLimits, ip: Ipv4Addr, steps: seq<KernelRuns.Step>, cpus: nat, at: nat)
    requires Measured(d, limits) && Scanned(d, limits, ip) && ScanReadFrom(d, steps, cpus, at)
    ensures ReallyScanned(d, steps, cpus, at, limits, ip)
  {
    hide Detect, IsTop, FreshPorts, KernelRuns.After, KernelRuns.TouchLog, SentWithin, Detectors.RatioConfidence;
    var s := SignalFor(Breadth(d.reading, limits.windowNs, ip).value, limits.maxDistinctPorts as real);
    DetectHas(d.top, limits.maxDistinctPorts as real, s);
    PortScanSignalIsReal(steps[..at], cpus, d.reading.nowNs, limits.windowNs, d.top, limits.maxDistinctPorts as real,
                         limits.topN, s);
  }

  /**
   A reported port scan was one: at each of the last `max(1, threshold)` ticks
   with a reading, bare SYNs of the source to more than the limit of different
   ports were being handled within the window.
   */
  lemma {:induction false} ReportedScanIsReal(run: seq<ScanTick>, limits: ScanLimits, p: Params, ip: Ipv4Addr, i: nat,
                                              steps: seq<KernelRuns.Step>, cpus: nat, at: nat)
    requires run != [] && IsScanRun(run, limits) && ScanFires(run, limits, p, ip)
    requires |ScansOf(run)| - Max(1, p.fireAfter) <= i < |ScansOf(run)|
             && ScanReadFrom(ScansOf(run)[i], steps, cpus, at)
    ensures ReallyScanned(ScansOf(run)[i], steps, cpus, at, limits, ip)
  {
    hide ScanFires, Measured, Scanned, ScanReadFrom, ReallyScanned, ReferenceLog, Open, LastFire, CooldownPassed;
    PortScanFiresIffDue(run, limits, p, ip);
    assert ScanFlags(ScansOf(run), limits, ip)[i];
    ScannedIsReal(ScansOf(run)[i], limits, ip, steps, cpus, at);
  }

  /**
   And the other way: a source with recorded, unevicted touches of more ports
   than the limit within the window was scanning at that tick, unless as many
   others as are kept were at least as broad.
   */
  lemma RealScanIsSeen(d: Scan, limits: ScanLimits, ip: Ipv4Addr, steps: seq<KernelRuns.Step>, cpus: nat, at: nat,
                       ports: set<Frame.u16>)
    requires Measured(d, limits) && ScanReadFrom(d, steps, cpus, at) && |ports| > limits.maxDistinctPorts
    requires PortMap.AllTouched(steps[..at], cpus, d.reading.nowNs, limits.windowNs, ip, ports)
    ensures Scanned(d, limits, ip)
            || CrowdedOut(d.top, ip, |ports| as real, limits.maxDistinctPorts as real, limits.topN)
  {
    hide Detect, IsTop, FreshPorts, PortMap.AllTouched, KernelRuns.After, CrowdedOut;
    var limit := limits.maxDistinctPorts as real;
    PortMap.RecordedScanIsSeen(steps[..at], cpus, d.reading.nowNs, limits.windowNs, ip, ports, d.top, limit,
                               limits.topN);
    if s :| s in Detect(d.top, limit) && s.srcIp == ip && s.metric >= |ports| as real {
      DetectHas(d.top, limit, s);
      TopHasEntries(d.top, (ip: Ipv4Addr) => Breadth(d.reading, limits.windowNs, ip), limits.topN);
    }
  }
}
