/**
 The three kernel maps and the program that updates them for each frame, in
 place and on several CPUs at once.
 */
module Kernel {
  import opened Prelude
  import opened Estimator
  import opened Rates
  import opened Frame

  const ZERO := Counters(0, 0)

  function Plus(a: Counters, b: Counters): Counters {
    Counters(a.packets + b.packets, a.bytes + b.bytes)
  }

  /** The sum of one entry over all CPUs. */
  function Sum(xs: seq<Counters>): Counters {
    if xs == [] then ZERO else Plus(Sum(xs[..|xs| - 1]), xs[|xs| - 1])
  }

  lemma {:induction false} SumUpdate(xs: seq<Counters>, i: nat, x: Counters)
    requires i < |xs|
    ensures Plus(Sum(xs[i := x]), xs[i]) == Plus(Sum(xs), x)
  {
    var n := |xs| - 1;
    if i < n {
      SumUpdate(xs[..n], i, x);
      assert xs[i := x][..n] == xs[..n][i := x];
    } else {
      assert xs[i := x][..n] == xs[..n];
    }
  }

  datatype PortScanKey = PortScanKey(srcAddr: Ipv4Addr, dstPort: u16)

  /** PROTO_STATS by bucket and CPU, SYN_TRACKER by source and CPU, PORT_SCAN_TRACKER. */
  datatype Maps = Maps(proto: seq<seq<Counters>>, syn: map<Ipv4Addr, seq<Counters>>, ports: map<PortScanKey, nat>) {
    predicate Valid(cpus: nat) {
      && |proto| == PROTO_COUNT && (forall i :: 0 <= i < PROTO_COUNT ==> |proto[i]| == cpus)
      && forall ip :: ip in syn ==> |syn[ip]| == cpus
    }
  }

  function EmptyMaps(cpus: nat): (m: Maps)
    ensures m.Valid(cpus)
  {
    Maps(seq(PROTO_COUNT, _ => Zeros(cpus)), map[], map[])
  }

  function Zeros(cpus: nat): (r: seq<Counters>)
    ensures |r| == cpus && forall c :: 0 <= c < cpus ==> r[c] == ZERO
  {
    seq(cpus, _ => ZERO)
  }

  function Bumped(xs: seq<Counters>, cpu: nat, bytes: nat): seq<Counters>
    requires cpu < |xs|
  {
    xs[cpu := Counters(xs[cpu].packets + 1, xs[cpu].bytes + bytes)]
  }

  /** The frame is counted in the bucket of its protocol, if it is recognised at all. */
  function Counted(m: Maps, cpu: nat, frame: Bytes): Maps
    requires |m.proto| == PROTO_COUNT && forall i :: 0 <= i < PROTO_COUNT ==> cpu < |m.proto[i]|
  {
    match ParseL4Protocol(frame)
    case None => m
    case Some(l3) =>
      var idx := Index(ProtoOf(l3));
      m.(proto := m.proto[idx := Bumped(m.proto[idx], cpu, |frame|)])
  }

  /** An update that hits an existing entry: this CPU's share of it grows. */
  function SynHit(m: Maps, cpu: nat, ip: Ipv4Addr, bytes: nat): Maps
    requires ip in m.syn && cpu < |m.syn[ip]|
  {
    m.(syn := m.syn[ip := Bumped(m.syn[ip], cpu, bytes)])
  }

  /** An insert of a fresh counter: it sets this CPU's share and leaves the others, which are zero in a new entry. */
  function SynInserted(m: Maps, cpus: nat, cpu: nat, ip: Ipv4Addr, bytes: nat): Maps
    requires m.Valid(cpus) && cpu < cpus
  {
    var shares := if ip in m.syn then m.syn[ip] else Zeros(cpus);
    m.(syn := m.syn[ip := shares[cpu := Counters(1, bytes)]])
  }

  function PortTouched(m: Maps, key: PortScanKey, now: nat): Maps {
    m.(ports := m.ports[key := now])
  }

  /** All that one frame does to the maps when nothing comes between; an insert may fail. */
  function Handled(m: Maps, cpus: nat, cpu: nat, frame: Bytes, now: nat, synOk: bool, portOk: bool): Maps
    requires m.Valid(cpus) && cpu < cpus
  {
    var counted := Counted(m, cpu, frame);
    match BareSyn(frame)
    case None => counted
    case Some(syn) =>
      var tracked :=
        if syn.srcAddr in counted.syn then SynHit(counted, cpu, syn.srcAddr, |frame|)
        else if synOk then SynInserted(counted, cpus, cpu, syn.srcAddr, |frame|)
        else counted;
      if portOk then PortTouched(tracked, PortScanKey(syn.srcAddr, syn.dstPort), now) else tracked
  }

  class KernelMaps {
    const cpus: nat
    const protoStats: array2<Counters>
    var synTracker: map<Ipv4Addr, seq<Counters>>
    var portScanTracker: map<PortScanKey, nat>

    ghost predicate Valid()
      reads this
    {
      && protoStats.Length0 == PROTO_COUNT && protoStats.Length1 == cpus
      && forall ip :: ip in synTracker ==> |synTracker[ip]| == cpus
    }

    function Shares(idx: nat): (r: seq<Counters>)
      requires idx < protoStats.Length0
      reads protoStats
      ensures |r| == protoStats.Length1 && forall c :: 0 <= c < |r| ==> r[c] == protoStats[idx, c]
    {
      seq(protoStats.Length1, c requires 0 <= c < protoStats.Length1 reads protoStats => protoStats[idx, c])
    }

    ghost function View(): (m: Maps)
      requires Valid()
      reads this, protoStats
      ensures m.Valid(cpus)
    {
      Maps([Shares(0), Shares(1), Shares(2), Shares(3), Shares(4)], synTracker, portScanTracker)
    }

    constructor (cpus: nat)
      ensures Valid() && this.cpus == cpus && View() == EmptyMaps(cpus) && fresh(protoStats)
    {
      this.cpus := cpus;
      protoStats := new Counters[PROTO_COUNT, cpus]((_, _) => ZERO);
      synTracker := map[];
      portScanTracker := map[];
      new;
      assert forall i :: 0 <= i < PROTO_COUNT ==> Shares(i) == Zeros(cpus);
    }

    method CountFrame(cpu: nat, l3: L3Info, bytes: nat)
      requires Valid() && cpu < cpus
      modifies protoStats
      ensures Valid() && synTracker == old(synTracker) && portScanTracker == old(portScanTracker)
      ensures var idx := Index(ProtoOf(l3));
              View() == old(View()).(proto := old(View()).proto[idx := Bumped(old(View()).proto[idx], cpu, bytes)])
    {
      var idx := Index(ProtoOf(l3));
      var stat := protoStats[idx, cpu];
      protoStats[idx, cpu] := Counters(stat.packets + 1, stat.bytes + bytes);
      assert Shares(idx) == Bumped(old(Shares(idx)), cpu, bytes);
      assert forall i :: 0 <= i < PROTO_COUNT && i != idx ==> Shares(i) == old(Shares(i));
    }

    /** Best effort: a failed insert loses the update and nothing else. */
    method RecordSyn(cpu: nat, srcAddr: Ipv4Addr, bytes: nat, insertOk: bool)
      requires Valid() && cpu < cpus
      modifies `synTracker
      ensures Valid()
      ensures View() == if srcAddr in old(synTracker) then SynHit(old(View()), cpu, srcAddr, bytes)
                        else if insertOk then SynInserted(old(View()), cpus, cpu, srcAddr, bytes)
                        else old(View())
    {
      if srcAddr in synTracker {
        var shares := synTracker[srcAddr];
        synTracker := synTracker[srcAddr := shares[cpu := Counters(shares[cpu].packets + 1,
                                                                   shares[cpu].bytes + bytes)]];
      } else if insertOk {
        synTracker := synTracker[srcAddr := Zeros(cpus)[cpu := Counters(1, bytes)]];
      }
    }

    method RecordPortTouch(key: PortScanKey, now: nat, insertOk: bool)
      requires Valid()
      modifies `portScanTracker
      ensures Valid()
      ensures View() == if insertOk then PortTouched(old(View()), key, now) else old(View())
    {
      if insertOk {
        portScanTracker := portScanTracker[key := now];
      }
    }

    /** `try_ebpf_xdp_program`; every frame is passed on, whatever it holds. */
    method TryProgram(cpu: nat, frame: Bytes, now: nat, synOk: bool, portOk: bool)
      requires Valid() && cpu < cpus
      modifies this, protoStats
      ensures Valid()
      ensures View() == Handled(old(View()), cpus, cpu, frame, now, synOk, portOk)
    {
      hide ParseL4Protocol, ParseTcpInfo, ProtoOf;
      var l3 := ParseL4Protocol(frame);
      if l3.None? {
        return;
      }
      CountFrame(cpu, l3.value, |frame|);
      var syn := BareSyn(frame);
      hide Bumped, SynHit, SynInserted;
      if syn.Some? {
        RecordSyn(cpu, syn.value.srcAddr, |frame|, synOk);
        RecordPortTouch(PortScanKey(syn.value.srcAddr, syn.value.dstPort), now, portOk);
      }
    }
  }

  // ---- Reading the maps from user space ----

  /** `read_current_stats`: the shares of every bucket, summed over the CPUs. */
  method ReadCurrentStats(protoStats: seq<seq<Counters>>) returns (stats: seq<Counters>)
    requires |protoStats| == PROTO_COUNT
    ensures |stats| == PROTO_COUNT
    ensures forall i :: 0 <= i < PROTO_COUNT ==> stats[i] == Sum(protoStats[i])
  {
    stats := seq(PROTO_COUNT, _ => ZERO);
    for idx := 0 to PROTO_COUNT
      invariant |stats| == PROTO_COUNT
      invariant forall i :: 0 <= i < idx ==> stats[i] == Sum(protoStats[i])
      invariant forall i :: idx <= i < PROTO_COUNT ==> stats[i] == ZERO
    {
      var values := protoStats[idx];
      for c := 0 to |values|
        invariant |stats| == PROTO_COUNT
        invariant forall i :: 0 <= i < idx ==> stats[i] == Sum(protoStats[i])
        invariant forall i :: idx < i < PROTO_COUNT ==> stats[i] == ZERO
        invariant stats[idx] == Sum(values[..c])
      {
        assert values[..c + 1][..c] == values[..c];
        stats := stats[idx := Counters(stats[idx].packets + values[c].packets, stats[idx].bytes + values[c].bytes)];
      }
      assert values[..|values|] == values;
    }
  }

  /** `read_syn_snapshot`: every entry of the map, summed over the CPUs. */
  method ReadSynSnapshot(syn: map<Ipv4Addr, seq<Counters>>) returns (counters: map<Ipv4Addr, Counters>)
    ensures counters.Keys == syn.Keys
    ensures forall ip :: ip in syn ==> counters[ip] == Sum(syn[ip])
  {
    counters := map[];
    var keys := syn.Keys;
    while keys != {}
      invariant keys <= syn.Keys && counters.Keys == syn.Keys - keys
      invariant forall ip :: ip in counters ==> counters[ip] == Sum(syn[ip])
    {
      var key :| key in keys;
      var summed, shares := ZERO, syn[key];
      for c := 0 to |shares|
        invariant summed == Sum(shares[..c])
      {
        assert shares[..c + 1][..c] == shares[..c];
        summed := Counters(summed.packets + shares[c].packets, summed.bytes + shares[c].bytes);
      }
      assert shares[..|shares|] == shares;
      counters := counters[key := summed];
      keys := keys - {key};
    }
  }
}
