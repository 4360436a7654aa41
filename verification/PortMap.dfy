/**
 What the kernel's port map holds after any run, exactly, and from it that a
 source which touched many ports is seen: the complement of the claim that no
 port-scan signal is made up.
 */
module PortMap {
  import opened Prelude
  import opened Rates
  import opened Frame
  import opened Kernel
  import opened KernelRuns
  import opened TopTalkers
  import Ip = IpManager

  /** The step writes an entry for this key. */
  predicate Records(s: State, step: Step, key: PortScanKey)
    requires Enabled(s, step)
  {
    step.Touch? && step.ok && s.cpus[step.cpu].key == key
  }

  /**
   One step: a touch that is recorded sets its entry to its own time, an eviction removes it, nothing
   else matters.
   */
  lemma PortStep(s: State, step: Step, key: PortScanKey)
    requires s.Valid() && Enabled(s, step)
    ensures var before, after := s.maps.ports, Next(s, step).maps.ports;
            if Records(s, step, key) then key in after && after[key] == step.now
            else if step == EvictPort(key) then key !in after
            else (key in after <==> key in before) && (key in after ==> after[key] == before[key])
  {
    hide BareSyn, ParseL4Protocol, Bumped, Begun;
    BeginKeepsPorts(s, step);
  }

  /** Step `i` of the run wrote an entry for this key, with this time. */
  ghost predicate RecordedAt(run: seq<Step>, cpus: nat, key: PortScanKey, now: nat, i: int)
    requires IsRun(run, cpus)
    decreases |run|
  {
    && 0 <= i < |run|
    && if i == |run| - 1 then Records(After(run[..i], cpus), run[i], key) && run[i].now == now
       else RecordedAt(run[..|run| - 1], cpus, key, now, i)
  }

  ghost predicate Rewritten(run: seq<Step>, cpus: nat, key: PortScanKey, i: int)
    requires IsRun(run, cpus)
  {
    exists now :: RecordedAt(run, cpus, key, now, i)
  }

  /** That entry is still there: no later step wrote one for the key, and none evicted it. */
  ghost predicate HeldSince(run: seq<Step>, cpus: nat, key: PortScanKey, now: nat, i: int)
    requires IsRun(run, cpus)
  {
    && RecordedAt(run, cpus, key, now, i)
    && forall j :: i < j < |run| ==> !Rewritten(run, cpus, key, j) && run[j] != EvictPort(key)
  }

  lemma {:induction false} RewrittenLast(run: seq<Step>, cpus: nat, key: PortScanKey)
    requires IsRun(run, cpus) && run != []
    ensures var n := |run| - 1; Rewritten(run, cpus, key, n) <==> Records(After(run[..n], cpus), run[n], key)
  {
    hide After, Records;
    var n := |run| - 1;
    if Records(After(run[..n], cpus), run[n], key) {
      assert RecordedAt(run, cpus, key, RecordedTime(After(run[..n], cpus), run[n], key), n);
    }
  }

  function RecordedTime(s: State, step: Step, key: PortScanKey): nat
    requires Enabled(s, step) && Records(s, step, key)
  {
    step.now
  }

  lemma {:induction false} HeldGrows(run: seq<Step>, cpus: nat, key: PortScanKey, now: nat, i: int)
    requires IsRun(run, cpus) && 0 <= i < |run| - 1
    ensures var n := |run| - 1;
            HeldSince(run, cpus, key, now, i) <==>
              && HeldSince(run[..n], cpus, key, now, i)
              && !Records(After(run[..n], cpus), run[n], key) && run[n] != EvictPort(key)
  {
    hide After, Records;
    var n := |run| - 1;
    RewrittenLast(run, cpus, key);
    forall j | i < j < n ensures Rewritten(run, cpus, key, j) <==> Rewritten(run[..n], cpus, key, j) {
      forall t ensures RecordedAt(run, cpus, key, t, j) <==> RecordedAt(run[..n], cpus, key, t, j) {}
    }
    hide Rewritten;
    assert RecordedAt(run, cpus, key, now, i) <==> RecordedAt(run[..n], cpus, key, now, i);
  }

  /**
   After every run the map holds a key with a time exactly when some recorded
   touch of the key has that time, and no touch of it was recorded and no entry
   of it was evicted since.
   */
  lemma {:induction false} PortMapIsExact(run: seq<Step>, cpus: nat, key: PortScanKey, now: nat)
    requires IsRun(run, cpus)
    ensures var ports := After(run, cpus).maps.ports;
            key in ports && ports[key] == now <==> exists i :: HeldSince(run, cpus, key, now, i)
  {
    hide Next, Records;
    if run == [] {
    } else {
      var n := |run| - 1;
      PortMapIsExact(run[..n], cpus, key, now);
      PortStep(After(run[..n], cpus), run[n], key);
      forall i | 0 <= i < n
        ensures HeldSince(run, cpus, key, now, i) <==>
                  && HeldSince(run[..n], cpus, key, now, i)
                  && !Records(After(run[..n], cpus), run[n], key) && run[n] != EvictPort(key)
      {
        HeldGrows(run, cpus, key, now, i);
      }
      HeldLast(run, cpus, key, now);
      HeldInRange(run, cpus, key, now);
      HeldInRange(run[..n], cpus, key, now);
      hide HeldSince;
    }
  }

  lemma {:induction false} HeldLast(run: seq<Step>, cpus: nat, key: PortScanKey, now: nat)
    requires IsRun(run, cpus) && run != []
    ensures var n := |run| - 1;
            HeldSince(run, cpus, key, now, n) <==> Records(After(run[..n], cpus), run[n], key) && run[n].now == now
  {
    hide After, Records;
  }

  lemma {:induction false} HeldInRange(run: seq<Step>, cpus: nat, key: PortScanKey, now: nat)
    requires IsRun(run, cpus)
    ensures forall i :: HeldSince(run, cpus, key, now, i) ==> 0 <= i < |run|
  {}

  /** The key of a frame is the source of its packet and the destination port of its segment. */
  lemma SynToIff(frame: Bytes, key: PortScanKey)
    ensures IsSynTo(frame, key) <==>
              exists p, s ::
                CarriesBareSyn(p, s) && frame == Encode(p) && key.srcAddr == p.src && key.dstPort == s.dstPort
  {
    hide BareSyn, Encode, EncodeSegment;
    var syn := Syn(key.srcAddr, key.dstPort);
    BareSynIsExact(frame, syn);
    if p, s :| CarriesBareSyn(p, s) && frame == Encode(p) && key.srcAddr == p.src && key.dstPort == s.dstPort {
      assert EncodesBareSyn(frame, p, s, syn);
    }
  }

  // ---- Every bare SYN is touched ----

  lemma BegunProgress(s: State, cpu: nat, frame: Bytes, c: nat)
    requires s.Valid() && Enabled(s, Begin(cpu, frame)) && c < |s.cpus|
    ensures c != cpu ==> Begun(s, cpu, frame).cpus[c] == s.cpus[c]
    ensures c == cpu && BareSyn(frame).Some? ==>
              !Begun(s, cpu, frame).cpus[c].Idle? && Begun(s, cpu, frame).cpus[c].key == KeyOf(BareSyn(frame).value)
  {
    hide BareSyn, Counted, SynHit;
  }

  /** A CPU that has begun a bare SYN is still busy with it, or has touched its port, recorded or not. */
  ghost predicate BusyOrTouched(run: seq<Step>, cpus: nat, c: nat, key: PortScanKey, i: nat)
    requires IsRun(run, cpus) && c < cpus
  {
    var progress := After(run, cpus).cpus[c];
    if progress.Idle? then exists t :: t in TouchLog(run, cpus) && t.key == key && TouchesFor(run, t, i)
    else progress.key == key
  }

  lemma {:induction false} BegunSynIsTouched(run: seq<Step>, cpus: nat, c: nat, key: PortScanKey, i: nat)
    requires IsRun(run, cpus) && c < cpus && LastBegan(run, c, key, i)
    ensures BusyOrTouched(run, cpus, c, key, i)
  {
    hide BareSyn, Begun;
    var n := |run| - 1;
    var before := After(run[..n], cpus);
    if run[n].Begin? {
      BegunProgress(before, run[n].cpu, run[n].frame, c);
    }
    if i == n {
    } else {
      BegunSynIsTouched(run[..n], cpus, c, key, i);
      if before.cpus[c].Idle? {
        var t :| t in TouchLog(run[..n], cpus) && t.key == key && TouchesFor(run[..n], t, i);
        assert run[..n][..t.at] == run[..t.at];
        assert t in TouchLog(run, cpus) && TouchesFor(run, t, i);
      } else if run[n].Touch? && run[n].cpu == c {
        var t := TouchedAt(key, run[n].now, n);
        assert t in TouchLog(run, cpus) && TouchesFor(run, t, i);
      }
    }
  }

  // ---- From the map to the signal ----

  /** A port counts towards the breadth exactly when its recorded touch is held and within the window. */
  lemma {:induction false} FreshPortIff(run: seq<Step>, cpus: nat, nowNs: nat, windowNs: nat, ip: Ipv4Addr, port: u16)
    requires IsRun(run, cpus)
    ensures port in FreshPorts(PortScanSnapshot(nowNs, After(run, cpus).maps.ports), windowNs, ip) <==>
              exists now: nat, i :: HeldSince(run, cpus, PortScanKey(ip, port), now, i) && nowNs <= now + windowNs
  {
    hide HeldSince, After;
    var key, ports := PortScanKey(ip, port), After(run, cpus).maps.ports;
    if key in ports {
      PortMapIsExact(run, cpus, key, ports[key]);
    }
    if now: nat, i :| HeldSince(run, cpus, key, now, i) && nowNs <= now + windowNs {
      PortMapIsExact(run, cpus, key, now);
    }
  }

  /** Step `i` recorded a touch at `now`; no later one says an older time, and none was evicted since. */
  ghost predicate KeptSince(run: seq<Step>, cpus: nat, key: PortScanKey, now: nat, i: int)
    requires IsRun(run, cpus)
  {
    && RecordedAt(run, cpus, key, now, i)
    && forall j :: i < j < |run| ==> run[j] != EvictPort(key) && NoOlder(run, cpus, key, now, j)
  }

  ghost predicate NoOlder(run: seq<Step>, cpus: nat, key: PortScanKey, now: nat, j: int)
    requires IsRun(run, cpus)
  {
    forall later: nat :: RecordedAt(run, cpus, key, later, j) ==> later >= now
  }

  lemma {:induction false} KeptIsHeld(run: seq<Step>, cpus: nat, key: PortScanKey, now: nat, i: int)
    requires IsRun(run, cpus) && KeptSince(run, cpus, key, now, i)
    ensures exists later, j :: later >= now && HeldSince(run, cpus, key, later, j)
  {
    hide After, Records;
    var n := |run| - 1;
    if i == n {
      assert HeldSince(run, cpus, key, now, n);
    } else {
      RewrittenLast(run, cpus, key);
      if Records(After(run[..n], cpus), run[n], key) {
        var later := RecordedTime(After(run[..n], cpus), run[n], key);
        assert RecordedAt(run, cpus, key, later, n) && NoOlder(run, cpus, key, now, n);
        assert HeldSince(run, cpus, key, later, n);
      } else {
        KeptInPrefix(run, cpus, key, now, i);
        KeptIsHeld(run[..n], cpus, key, now, i);
        var later, j :| later >= now && HeldSince(run[..n], cpus, key, later, j);
        HeldGrows(run, cpus, key, later, j);
      }
    }
  }

  lemma {:induction false} KeptInPrefix(run: seq<Step>, cpus: nat, key: PortScanKey, now: nat, i: int)
    requires IsRun(run, cpus) && KeptSince(run, cpus, key, now, i) && i < |run| - 1
    ensures KeptSince(run[..|run| - 1], cpus, key, now, i)
  {
    hide After, Records;
    var n := |run| - 1;
    forall j | i < j < n ensures run[..n][j] != EvictPort(key) && NoOlder(run[..n], cpus, key, now, j) {
      assert NoOlder(run, cpus, key, now, j);
      forall later: nat | RecordedAt(run[..n], cpus, key, later, j) ensures later >= now {
        assert RecordedAt(run, cpus, key, later, j);
      }
    }
  }

  /** Every one of these ports of the source has a recorded, unevicted touch within the window. */
  ghost predicate AllTouched(run: seq<Step>, cpus: nat, nowNs: nat, windowNs: nat, ip: Ipv4Addr, ports: set<u16>)
    requires IsRun(run, cpus)
  {
    forall port :: port in ports ==>
                     exists now: nat, i ::
                       KeptSince(run, cpus, PortScanKey(ip, port), now, i) && nowNs <= now + windowNs
  }

  lemma {:induction false} TouchedPortsAreFresh(run: seq<Step>, cpus: nat, nowNs: nat, windowNs: nat, ip: Ipv4Addr,
                                                ports: set<u16>)
    requires IsRun(run, cpus) && AllTouched(run, cpus, nowNs, windowNs, ip, ports)
    ensures ports <= FreshPorts(PortScanSnapshot(nowNs, After(run, cpus).maps.ports), windowNs, ip)
  {
    hide KeptSince, HeldSince, After, FreshPorts;
    forall port | port in ports
      ensures port in FreshPorts(PortScanSnapshot(nowNs, After(run, cpus).maps.ports), windowNs, ip)
    {
      var now: nat, i :| KeptSince(run, cpus, PortScanKey(ip, port), now, i) && nowNs <= now + windowNs;
      KeptIsHeld(run, cpus, PortScanKey(ip, port), now, i);
      var later, j :| later >= now && HeldSince(run, cpus, PortScanKey(ip, port), later, j);
      FreshPortIff(run, cpus, nowNs, windowNs, ip, port);
    }
  }

  /**
   A port scan that was recorded is seen: a source with such touches of more
   ports than the limit has a signal that says at least as many, or `n` others
   with signals of their own are at least as broad.
   */
  lemma {:induction false} RecordedScanIsSeen(run: seq<Step>, cpus: nat, nowNs: nat, windowNs: nat, ip: Ipv4Addr,
                                              ports: set<u16>, top: seq<Offender>, limit: real, n: nat)
    requires IsRun(run, cpus) && AllTouched(run, cpus, nowNs, windowNs, ip, ports) && |ports| as real > limit >= 0.0
    requires IsTop(top,
                   (ip: Ipv4Addr) => Breadth(PortScanSnapshot(nowNs, After(run, cpus).maps.ports), windowNs, ip), n)
    ensures || (exists s :: s in Detect(top, limit) && s.srcIp == ip && s.metric >= |ports| as real)
            || CrowdedOut(top, ip, |ports| as real, limit, n)
  {
    hide After, AllTouched, FreshPorts, Detect, IsTop;
    var snapshot := PortScanSnapshot(nowNs, After(run, cpus).maps.ports);
    TouchedPortsAreFresh(run, cpus, nowNs, windowNs, ip, ports);
    var seen := FreshPorts(snapshot, windowNs, ip);
    SubsetIsSmaller(ports, seen);
    var o := Offender(ip, |seen| as real);
    MissedOnlyIfCrowdedOut(top, (ip: Ipv4Addr) => Breadth(snapshot, windowNs, ip), limit, n, o);
    assert SignalFor(o, limit).srcIp == ip && SignalFor(o, limit).metric == o.metric;
  }

  lemma SubsetIsSmaller<T>(a: set<T>, b: set<T>)
    requires a <= b
    ensures |a| <= |b|
  {
    assert b == a + (b - a);
  }
}
