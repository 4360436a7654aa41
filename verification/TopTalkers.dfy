/**
 The two per-source pipelines: SYN rates from two readings of the kernel's
 counters, port-scan breadths from one reading of its touches, the largest of
 each, and the alerts raised for those over a limit.
 */
module TopTalkers {
  import opened Prelude
  import opened Rates
  import opened Frame
  import opened Kernel
  import opened KernelRuns
  import opened Detectors
  import opened TopN
  import Ip = IpManager

  /** A source with its SYN rate or its number of distinct ports. */
  datatype Offender = Offender(srcIp: Ipv4Addr, metric: real)

  function Metric(o: Offender): real {
    o.metric
  }

  /** What is left of all offenders after `sort` and `truncate`. */
  function Top(all: seq<Offender>, n: nat): seq<Offender> {
    Truncate(SortDescending(all, Metric), n)
  }

  /** One entry for each source that has one, in any order. */
  ghost predicate Lists(all: seq<Offender>, entry: Ipv4Addr -> Option<Offender>) {
    && (forall i, j :: 0 <= i < j < |all| ==> all[i].srcIp != all[j].srcIp)
    && (forall o :: o in all <==> entry(o.srcIp) == Some(o))
  }

  /** The `n` largest of all entries, found in whatever order. */
  ghost predicate IsTop(top: seq<Offender>, entry: Ipv4Addr -> Option<Offender>, n: nat) {
    exists all :: Lists(all, entry) && top == Top(all, n)
  }

  // ---- SYN rates ----

  datatype SynSnapshot = SynSnapshot(timestamp: Instant, counters: map<Ipv4Addr, Counters>)

  /** A source that is new in `curr` counts from zero, and one that is gone has no rate. */
  function SynRate(prev: SynSnapshot, curr: SynSnapshot, dt: real, ip: Ipv4Addr): Option<Offender>
    requires dt > 0.0
  {
    if ip !in curr.counters then None
    else
      var before := if ip in prev.counters then prev.counters[ip].packets else 0;
      var pps := Rate(curr.counters[ip].packets, before, dt);
      if pps > 0.0 then Some(Offender(ip, pps)) else None
  }

  method ComputeSynRatesTopN(prev: SynSnapshot, curr: SynSnapshot, topN: nat) returns (rates: seq<Offender>)
    ensures match DtSecs(prev.timestamp, curr.timestamp)
            case None => rates == []
            case Some(dt) => IsTop(rates, (ip: Ipv4Addr) => SynRate(prev, curr, dt, ip), topN)
  {
    rates := [];
    var elapsed := DtSecs(prev.timestamp, curr.timestamp);
    if elapsed.None? {
      return;
    }
    var dt := elapsed.value;
    var keys := curr.counters.Keys;
    while keys != {}
      invariant keys <= curr.counters.Keys
      invariant forall i, j :: 0 <= i < j < |rates| ==> rates[i].srcIp != rates[j].srcIp
      invariant forall o :: o in rates <==> o.srcIp !in keys && SynRate(prev, curr, dt, o.srcIp) == Some(o)
    {
      var key :| key in keys;
      var prevPackets := if key in prev.counters then prev.counters[key].packets else 0;
      var pps := Rate(curr.counters[key].packets, prevPackets, dt);
      if pps > 0.0 {
        rates := rates + [Offender(key, pps)];
      }
      keys := keys - {key};
    }
    assert Lists(rates, (ip: Ipv4Addr) => SynRate(prev, curr, dt, ip));
    rates := SortDescending(rates, Metric);
    rates := Truncate(rates, topN);
  }

  // ---- Port-scan breadths ----

  datatype PortScanSnapshot = PortScanSnapshot(nowNs: nat, touches: map<PortScanKey, nat>)

  predicate IsFresh(nowNs: nat, lastSeenNs: nat, windowNs: nat) {
    SaturatingSub(nowNs, lastSeenNs) <= windowNs
  }

  /** The touches within the window, of the sources in `ips`. */
  function FreshKeys(s: PortScanSnapshot, windowNs: nat, ips: set<Ipv4Addr>): set<PortScanKey> {
    set key | key in s.touches && IsFresh(s.nowNs, s.touches[key], windowNs) && key.srcAddr in ips
  }

  function FreshPorts(s: PortScanSnapshot, windowNs: nat, ip: Ipv4Addr): set<u16> {
    set key | key in s.touches && IsFresh(s.nowNs, s.touches[key], windowNs) && key.srcAddr == ip :: key.dstPort
  }

  function Breadth(s: PortScanSnapshot, windowNs: nat, ip: Ipv4Addr): Option<Offender> {
    var ports := FreshPorts(s, windowNs, ip);
    if ports == {} then None else Some(Offender(ip, |ports| as real))
  }

  /** The fresh ports of a source among the keys that are not in `left`. */
  function PortsSoFar(s: PortScanSnapshot, windowNs: nat, left: set<PortScanKey>, ip: Ipv4Addr): set<u16> {
    set key | key in s.touches && IsFresh(s.nowNs, s.touches[key], windowNs) && key.srcAddr == ip && key !in left ::
      key.dstPort
  }

  /** The groups hold the fresh ports of every source, and no empty group. */
  ghost predicate Groups(portsByIp: map<Ipv4Addr, set<u16>>, s: PortScanSnapshot, windowNs: nat, left: set<PortScanKey>)
  {
    forall ip ::
      GroupOf(portsByIp, ip) == PortsSoFar(s, windowNs, left, ip) && (ip in portsByIp ==> portsByIp[ip] != {})
  }

  function GroupOf(portsByIp: map<Ipv4Addr, set<u16>>, ip: Ipv4Addr): set<u16> {
    if ip in portsByIp then portsByIp[ip] else {}
  }

  lemma GroupGrows(portsByIp: map<Ipv4Addr, set<u16>>, s: PortScanSnapshot, windowNs: nat, left: set<PortScanKey>,
                   key: PortScanKey)
    requires Groups(portsByIp, s, windowNs, left) && key in left && key in s.touches
    ensures IsFresh(s.nowNs, s.touches[key], windowNs) ==>
              Groups(portsByIp[key.srcAddr := GroupOf(portsByIp, key.srcAddr) + {key.dstPort}], s, windowNs,
                     left - {key})
    ensures !IsFresh(s.nowNs, s.touches[key], windowNs) ==> Groups(portsByIp, s, windowNs, left - {key})
  {
    hide IsFresh;
    var isFresh := IsFresh(s.nowNs, s.touches[key], windowNs);
    forall ip
      ensures PortsSoFar(s, windowNs, left - {key}, ip)
              == PortsSoFar(s, windowNs, left, ip) + if isFresh && ip == key.srcAddr then {key.dstPort} else {}
    {}
    hide PortsSoFar;
  }

  /** Groups the fresh touches by source. */
  method GroupPorts(s: PortScanSnapshot, windowNs: nat) returns (portsByIp: map<Ipv4Addr, set<u16>>)
    ensures Groups(portsByIp, s, windowNs, {})
  {
    hide IsFresh;
    portsByIp := map[];
    var keys := s.touches.Keys;
    while keys != {}
      invariant keys <= s.touches.Keys
      invariant Groups(portsByIp, s, windowNs, keys)
    {
      hide Groups;
      var key :| key in keys;
      GroupGrows(portsByIp, s, windowNs, keys, key);
      if IsFresh(s.nowNs, s.touches[key], windowNs) {
        portsByIp := portsByIp[key.srcAddr := GroupOf(portsByIp, key.srcAddr) + {key.dstPort}];
      }
      keys := keys - {key};
    }
  }

  method ComputePortScanBreadth(s: PortScanSnapshot, windowNs: nat, topN: nat) returns (breadths: seq<Offender>)
    ensures IsTop(breadths, (ip: Ipv4Addr) => Breadth(s, windowNs, ip), topN)
  {
    var portsByIp := GroupPorts(s, windowNs);
    forall ip ensures GroupOf(portsByIp, ip) == FreshPorts(s, windowNs, ip) {
      assert PortsSoFar(s, windowNs, {}, ip) == FreshPorts(s, windowNs, ip);
    }
    hide FreshPorts, PortsSoFar;
    breadths := [];
    var keys := portsByIp.Keys;
    while keys != {}
      invariant keys <= portsByIp.Keys
      invariant forall i, j :: 0 <= i < j < |breadths| ==> breadths[i].srcIp != breadths[j].srcIp
      invariant forall o :: o in breadths <==> o.srcIp !in keys && Breadth(s, windowNs, o.srcIp) == Some(o)
    {
      var ip :| ip in keys;
      breadths := breadths + [Offender(ip, |portsByIp[ip]| as real)];
      keys := keys - {ip};
    }
    assert Lists(breadths, (ip: Ipv4Addr) => Breadth(s, windowNs, ip));
    breadths := SortDescending(breadths, Metric);
    breadths := Truncate(breadths, topN);
  }

  // ---- Detection ----

  function SignalFor(o: Offender, limit: real): Ip.Signal {
    Ip.Signal(o.srcIp, o.metric, RatioConfidence(o.metric, limit))
  }

  /** Both detectors: a signal for every offender over the limit. */
  function Detect(offenders: seq<Offender>, limit: real): seq<Ip.Signal> {
    if offenders == [] then []
    else if offenders[0].metric > limit then [SignalFor(offenders[0], limit)] + Detect(offenders[1..], limit)
    else Detect(offenders[1..], limit)
  }

  lemma {:induction false} DetectHas(offenders: seq<Offender>, limit: real, s: Ip.Signal)
    ensures s in Detect(offenders, limit) <==>
            Offender(s.srcIp, s.metric) in offenders && s.metric > limit
              && s.confidence == RatioConfidence(s.metric, limit)
  {
    hide RatioConfidence;
    if offenders == [] {
    } else {
      DetectHas(offenders[1..], limit, s);
      assert offenders == [offenders[0]] + offenders[1..];
    }
  }

  /**
   A signal is sure by at least `c` exactly when its metric is `1 + c` times the limit, for a limit
   of zero always.
   */
  lemma {:induction false} SignalConfidenceMeans(offenders: seq<Offender>, limit: real, s: Ip.Signal, c: real)
    requires s in Detect(offenders, limit) && limit >= 0.0 && 0.0 < c <= 1.0
    ensures s.confidence >= c <==> s.metric >= (1.0 + c) * limit
  {
    hide Detect, RatioConfidence;
    DetectHas(offenders, limit, s);
    RatioConfidenceIff(s.metric, limit, c);
  }

  /** The signals are those of the offenders over the limit, one each and in their order. */
  lemma {:induction false} DetectKeepsOrder(offenders: seq<Offender>, limit: real)
    ensures var over := Over(offenders, Metric, limit);
            && |Detect(offenders, limit)| == |over|
            && forall i :: 0 <= i < |over| ==> Detect(offenders, limit)[i] == SignalFor(over[i], limit)
  {
    hide RatioConfidence;
    if offenders == [] {
      assert Detect(offenders, limit) == [];
    } else {
      DetectKeepsOrder(offenders[1..], limit);
    }
  }

  lemma {:induction false} DetectSeesOver(offenders: seq<Offender>, limit: real)
    ensures Detect(offenders, limit) == Detect(Over(offenders, Metric, limit), limit)
    ensures |Detect(offenders, limit)| <= |offenders|
  {
    hide RatioConfidence;
    if offenders == [] {
    } else {
      DetectSeesOver(offenders[1..], limit);
      var rest := Over(offenders[1..], Metric, limit);
      assert ([offenders[0]] + rest)[1..] == rest;
    }
  }

  /** Keeping the top `n` first and then applying the limit gives the signals of doing it the other way round. */
  lemma {:induction false} DetectionCommutesWithTop(all: seq<Offender>, limit: real, n: nat)
    ensures Detect(Top(all, n), limit) == Detect(Top(Over(all, Metric, limit), n), limit)
  {
    hide Detect, SortDescending, Truncate, Over;
    var sortedOver := Truncate(SortDescending(Over(all, Metric, limit), Metric), n);
    FilterBeforeOrAfter(all, Metric, limit, n);
    DetectSeesOver(Top(all, n), limit);
    assert Over(Top(all, n), Metric, limit) == sortedOver;
  }

  /** A source over the limit goes without a signal only if `n` others, each at least as large, have one. */
  lemma {:induction false} MissedOnlyIfCrowdedOut(top: seq<Offender>, entry: Ipv4Addr -> Option<Offender>, limit: real,
                                                  n: nat, o: Offender)
    requires IsTop(top, entry, n) && entry(o.srcIp) == Some(o) && o.metric > limit
    ensures || SignalFor(o, limit) in Detect(top, limit)
            || (|top| == n && Distinct(top) && forall x :: x in top ==>
                  x.srcIp != o.srcIp && x.metric >= o.metric && SignalFor(x, limit) in Detect(top, limit))
  {
    hide Detect, RatioConfidence, SortDescending, Truncate;
    var all :| Lists(all, entry) && top == Top(all, n);
    TopNIsTop(all, Metric, n);
    if o in top {
      DetectHas(top, limit, SignalFor(o, limit));
    } else {
      forall x | x in top
        ensures x.srcIp != o.srcIp && x.metric >= o.metric && SignalFor(x, limit) in Detect(top, limit)
      {
        assert Metric(o) <= Metric(x);
        assert x in all && entry(x.srcIp) == Some(x);
        DetectHas(top, limit, SignalFor(x, limit));
      }
    }
  }

  /** `n` others, each with a signal and at least this metric, take up the whole list. */
  ghost predicate CrowdedOut(top: seq<Offender>, ip: Ipv4Addr, metric: real, limit: real, n: nat) {
    |top| == n
      && forall x :: x in top ==> x.srcIp != ip && x.metric >= metric && SignalFor(x, limit) in Detect(top, limit)
  }

  /** No signal is made up: it belongs to a source, carries its metric, and the metric is over the limit. */
  lemma {:induction false} SignalsAreReal(top: seq<Offender>, entry: Ipv4Addr -> Option<Offender>, limit: real, n: nat,
                                          s: Ip.Signal)
    requires IsTop(top, entry, n) && s in Detect(top, limit)
    ensures entry(s.srcIp) == Some(Offender(s.srcIp, s.metric)) && s.metric > limit
  {
    hide Detect, SortDescending, Truncate;
    var all :| Lists(all, entry) && top == Top(all, n);
    DetectHas(top, limit, s);
    TopNIsTop(all, Metric, n);
  }

  // ---- Breadths account for every fresh touch ----

  function Total(all: seq<Offender>): real {
    if all == [] then 0.0 else Total(all[..|all| - 1]) + all[|all| - 1].metric
  }

  function Ips(all: seq<Offender>): set<Ipv4Addr> {
    set o | o in all :: o.srcIp
  }

  lemma {:induction false} KeysOfPorts(ip: Ipv4Addr, ports: set<u16>)
    ensures |set p | p in ports :: PortScanKey(ip, p)| == |ports|
  {
    if ports == {} {
    } else {
      var p :| p in ports;
      KeysOfPorts(ip, ports - {p});
      var rest := set q | q in ports - {p} :: PortScanKey(ip, q);
      assert (set q | q in ports :: PortScanKey(ip, q)) == rest + {PortScanKey(ip, p)};
    }
  }

  /** A source has as many fresh touches as it has fresh ports. */
  lemma OnePortOneKey(s: PortScanSnapshot, windowNs: nat, ip: Ipv4Addr)
    ensures |FreshKeys(s, windowNs, {ip})| == |FreshPorts(s, windowNs, ip)|
  {
    hide IsFresh;
    var ports := FreshPorts(s, windowNs, ip);
    KeysOfPorts(ip, ports);
    assert FreshKeys(s, windowNs, {ip}) == set p | p in ports :: PortScanKey(ip, p);
  }

  lemma {:induction false} BreadthsCountKeys(all: seq<Offender>, s: PortScanSnapshot, windowNs: nat)
    requires forall i, j :: 0 <= i < j < |all| ==> all[i].srcIp != all[j].srcIp
    requires forall o :: o in all ==> Breadth(s, windowNs, o.srcIp) == Some(o)
    ensures Total(all) == |FreshKeys(s, windowNs, Ips(all))| as real
  {
    hide FreshPorts, IsFresh;
    if all == [] {
      assert FreshKeys(s, windowNs, Ips(all)) == {};
    } else {
      var n := |all| - 1;
      var rest, ip := all[..n], all[n].srcIp;
      BreadthsCountKeys(rest, s, windowNs);
      OnePortOneKey(s, windowNs, ip);
      assert all[n] in all;
      var a, b := FreshKeys(s, windowNs, Ips(rest)), FreshKeys(s, windowNs, {ip});
      assert FreshKeys(s, windowNs, Ips(all)) == a + b && a !! b by { SplitKeys(s, windowNs, all); }
      assert |a + b| == |a| + |b|;
    }
  }

  lemma SplitKeys(s: PortScanSnapshot, windowNs: nat, all: seq<Offender>)
    requires all != [] && forall i, j :: 0 <= i < j < |all| ==> all[i].srcIp != all[j].srcIp
    ensures var rest, ip := all[..|all| - 1], all[|all| - 1].srcIp;
            && FreshKeys(s, windowNs, Ips(all)) == FreshKeys(s, windowNs, Ips(rest)) + FreshKeys(s, windowNs, {ip})
            && FreshKeys(s, windowNs, Ips(rest)) !! FreshKeys(s, windowNs, {ip})
  {
    hide IsFresh;
    var rest, ip := all[..|all| - 1], all[|all| - 1].srcIp;
    assert all == rest + [all[|all| - 1]];
    assert Ips(all) == Ips(rest) + {ip};
    assert ip !in Ips(rest);
  }

  /** Before truncation, the breadths add up to the number of distinct fresh (source, port) pairs. */
  lemma {:induction false} BreadthsAreComplete(all: seq<Offender>, s: PortScanSnapshot, windowNs: nat)
    requires Lists(all, (ip: Ipv4Addr) => Breadth(s, windowNs, ip))
    ensures Total(all) == |set key | key in s.touches && IsFresh(s.nowNs, s.touches[key], windowNs)| as real
  {
    hide IsFresh, Total;
    BreadthsCountKeys(all, s, windowNs);
    forall key | key in s.touches && IsFresh(s.nowNs, s.touches[key], windowNs) ensures key.srcAddr in Ips(all) {
      assert key.dstPort in FreshPorts(s, windowNs, key.srcAddr);
      var o := Breadth(s, windowNs, key.srcAddr).value;
      assert o in all;
    }
    assert FreshKeys(s, windowNs, Ips(all)) == set key | key in s.touches && IsFresh(s.nowNs, s.touches[key], windowNs);
  }

  /** There are only 65536 ports, so a breadth fits 32 bits. */
  lemma BreadthFitsU32(ports: set<u16>)
    ensures |ports| <= 0x1_0000
  {
    FewBelow(ports, 0x1_0000);
  }

  lemma {:induction false} FewBelow(ports: set<u16>, n: nat)
    requires forall p :: p in ports ==> p < n
    ensures |ports| <= n
    decreases n
  {
    if n == 0 {
      assert ports == {};
    } else if p :| p in ports && p == n - 1 {
      FewBelow(ports - {p}, n - 1);
    } else {
      FewBelow(ports, n - 1);
    }
  }

  // ---- From the wire to the signal ----

  /** The ports of a source with a touch within the window. */
  function RealPorts(log: seq<TouchedAt>, nowNs: nat, windowNs: nat, ip: Ipv4Addr): set<u16> {
    set t | t in log && t.key.srcAddr == ip && IsFresh(nowNs, t.now, windowNs) :: t.key.dstPort
  }

  /** A bare SYN to this key was being handled at a clock reading within the window. */
  ghost predicate SentWithin(run: seq<Step>, key: PortScanKey, nowNs: nat, windowNs: nat) {
    exists t :: WasSent(run, t) && t.key == key && IsFresh(nowNs, t.now, windowNs)
  }

  lemma {:induction false} FreshPortsAreReal(run: seq<Step>, cpus: nat, nowNs: nat, windowNs: nat, ip: Ipv4Addr)
    requires IsRun(run, cpus)
    ensures FreshPorts(PortScanSnapshot(nowNs, After(run, cpus).maps.ports), windowNs, ip)
            <= RealPorts(TouchLog(run, cpus), nowNs, windowNs, ip)
    ensures forall port :: port in RealPorts(TouchLog(run, cpus), nowNs, windowNs, ip) ==>
                             SentWithin(run, PortScanKey(ip, port), nowNs, windowNs)
  {
    hide IsFresh, After, TouchLog, WasSent;
    var ports := After(run, cpus).maps.ports;
    forall key | key in ports ensures exists t :: t in TouchLog(run, cpus) && t.key == key && t.now == ports[key] {
      var t := PortsWereTouched(run, cpus, key);
    }
    forall t | t in TouchLog(run, cpus) ensures WasSent(run, t) {
      TouchesWereSent(run, cpus, t);
    }
  }

  /**
   A port-scan signal is never false: whatever was evicted or failed to be
   recorded, bare SYNs of its source to more than `limit` different ports were
   being handled within the window, at least as many as the signal says.
   */
  lemma {:induction false} PortScanSignalIsReal(run: seq<Step>, cpus: nat, nowNs: nat, windowNs: nat,
                                                top: seq<Offender>, limit: real, n: nat, s: Ip.Signal)
    requires IsRun(run, cpus)
    requires IsTop(top,
                   (ip: Ipv4Addr) => Breadth(PortScanSnapshot(nowNs, After(run, cpus).maps.ports), windowNs, ip), n)
    requires s in Detect(top, limit)
    ensures var sent := RealPorts(TouchLog(run, cpus), nowNs, windowNs, s.srcIp);
            && limit < s.metric <= |sent| as real
            && forall port :: port in sent ==> SentWithin(run, PortScanKey(s.srcIp, port), nowNs, windowNs)
  {
    hide After, TouchLog, SentWithin, FreshPorts, RealPorts, Detect;
    var snapshot := PortScanSnapshot(nowNs, After(run, cpus).maps.ports);
    SignalsAreReal(top, (ip: Ipv4Addr) => Breadth(snapshot, windowNs, ip), limit, n, s);
    FreshPortsAreReal(run, cpus, nowNs, windowNs, s.srcIp);
    var seen, sent := FreshPorts(snapshot, windowNs, s.srcIp), RealPorts(TouchLog(run, cpus), nowNs, windowNs, s.srcIp);
    assert sent == seen + (sent - seen);
  }

  /** The readings of the SYN counters at two moments of a run. */
  function Reading(m: Maps, timestamp: Instant): SynSnapshot {
    SynSnapshot(timestamp, map ip | ip in m.syn :: Sum(m.syn[ip]))
  }

  /**
   A SYN-flood signal is never false either: between the two readings its
   source sent more SYNs than the limit allows, counting those that were in
   flight at the first.
   */
  lemma {:induction false} SynFloodSignalIsReal(run: seq<Step>, cpus: nat, k: nat, earlier: Instant, now: Instant,
                                                top: seq<Offender>, limit: real, n: nat, s: Ip.Signal)
    requires IsRun(run, cpus) && k <= |run| && IsRun(run[..k], cpus) && DtSecs(earlier, now).Some?
    requires IsTop(top,
                   (ip: Ipv4Addr) => SynRate(Reading(After(run[..k], cpus).maps, earlier),
                                             Reading(After(run, cpus).maps, now),
                                             DtSecs(earlier, now).value, ip), n)
    requires s in Detect(top, limit)
    ensures var sent := SynTally(Frames(run), s.srcIp).packets - SynTally(Frames(run[..k]), s.srcIp).packets;
            var inFlight := InFlight(After(run[..k], cpus).cpus, s.srcIp).packets;
            limit * DtSecs(earlier, now).value < s.metric * DtSecs(earlier, now).value <= (sent + inFlight) as real
  {
    hide After, Frames, SynTally, InFlight, Detect, Sum, DtSecs;
    var dt := DtSecs(earlier, now).value;
    var prev, curr := Reading(After(run[..k], cpus).maps, earlier), Reading(After(run, cpus).maps, now);
    SignalsAreReal(top, (ip: Ipv4Addr) => SynRate(prev, curr, dt, ip), limit, n, s);
    GrowthIsReal(run, cpus, k, s.srcIp);
    var growth := SaturatingSub(Tracked(After(run, cpus).maps, s.srcIp).packets,
                                Tracked(After(run[..k], cpus).maps, s.srcIp).packets);
    assert s.metric == growth as real / dt;
    ScaleUp(limit, s.metric, growth as real, dt);
  }

  lemma ScaleUp(limit: real, metric: real, growth: real, dt: real)
    requires dt > 0.0 && limit < metric && metric == growth / dt
    ensures limit * dt < metric * dt && metric * dt == growth
  {}
}
