/**
 Conservation in the kernel maps over every interleaving of frames on several
 CPUs, with entries evicted and inserts failing at any time. A lookup that
 misses and the insert that follows it are separate steps, so two CPUs can miss
 on the same source and both insert.
 */
module KernelRuns {
  import opened Prelude
  import opened ProtoManager
  import opened Estimator
  import opened Rates
  import opened Frame
  import opened Kernel

  /** Where a CPU is in the program: idle, after a lookup that missed, or before the port touch. */
  datatype Progress = Idle | Inserting(key: PortScanKey, bytes: nat) | Touching(key: PortScanKey)

  datatype State = State(maps: Maps, cpus: seq<Progress>) {
    predicate Valid() {
      maps.Valid(|cpus|)
    }
  }

  datatype Step =
    | Begin(cpu: nat, frame: Bytes)
    | Insert(cpu: nat, ok: bool)
    | Touch(cpu: nat, now: nat, ok: bool)
    | EvictSyn(ip: Ipv4Addr)
    | EvictPort(key: PortScanKey)

  /** A CPU handles one frame at a time; anything may be evicted at any time. */
  predicate Enabled(s: State, step: Step) {
    match step
    case Begin(cpu, _) => cpu < |s.cpus| && s.cpus[cpu].Idle?
    case Insert(cpu, _) => cpu < |s.cpus| && s.cpus[cpu].Inserting?
    case Touch(cpu, _, _) => cpu < |s.cpus| && s.cpus[cpu].Touching?
    case EvictSyn(ip) => ip in s.maps.syn
    case EvictPort(key) => key in s.maps.ports
  }

  function KeyOf(syn: Syn): PortScanKey {
    PortScanKey(syn.srcAddr, syn.dstPort)
  }

  /** The frame is counted; a bare SYN is looked up, and counted at once when its source is tracked. */
  function Begun(s: State, cpu: nat, frame: Bytes): (r: State)
    requires s.Valid() && cpu < |s.cpus|
    ensures r.Valid() && |r.cpus| == |s.cpus|
  {
    var counted := Counted(s.maps, cpu, frame);
    match BareSyn(frame)
    case None => State(counted, s.cpus)
    case Some(syn) =>
      if syn.srcAddr in counted.syn then
        State(SynHit(counted, cpu, syn.srcAddr, |frame|), s.cpus[cpu := Touching(KeyOf(syn))])
      else State(counted, s.cpus[cpu := Inserting(KeyOf(syn), |frame|)])
  }

  function Next(s: State, step: Step): (r: State)
    requires s.Valid() && Enabled(s, step)
    ensures r.Valid() && |r.cpus| == |s.cpus|
  {
    match step
    case Begin(cpu, frame) => Begun(s, cpu, frame)
    case Insert(cpu, ok) =>
      var p := s.cpus[cpu];
      State(if ok then SynInserted(s.maps, |s.cpus|, cpu, p.key.srcAddr, p.bytes) else s.maps,
            s.cpus[cpu := Touching(p.key)])
    case Touch(cpu, now, ok) =>
      State(if ok then PortTouched(s.maps, s.cpus[cpu].key, now) else s.maps, s.cpus[cpu := Idle])
    case EvictSyn(ip) => State(s.maps.(syn := s.maps.syn - {ip}), s.cpus)
    case EvictPort(key) => State(s.maps.(ports := s.maps.ports - {key}), s.cpus)
  }

  /** `TryProgram` is what the steps of one frame do when nothing comes between. */
  lemma HandledIsUninterrupted(s: State, cpu: nat, frame: Bytes, now: nat, synOk: bool, portOk: bool)
    requires s.Valid() && cpu < |s.cpus| && s.cpus[cpu].Idle?
    ensures var begun := Begun(s, cpu, frame);
            var inserted := if begun.cpus[cpu].Inserting? then Next(begun, Insert(cpu, synOk)) else begun;
            var done := if inserted.cpus[cpu].Touching? then Next(inserted, Touch(cpu, now, portOk)) else inserted;
            done == State(Handled(s.maps, |s.cpus|, cpu, frame, now, synOk, portOk), s.cpus)
  {
    hide BareSyn, ParseL4Protocol, Bumped;
    assert s.cpus[cpu := Idle] == s.cpus;
  }

  function AllIdle(cpus: nat): (r: seq<Progress>)
    ensures |r| == cpus && forall c :: 0 <= c < cpus ==> r[c] == Idle
  {
    seq(cpus, _ => Idle)
  }

  function Start(cpus: nat): (s: State)
    ensures s.Valid()
  {
    State(EmptyMaps(cpus), AllIdle(cpus))
  }

  /** A run of the kernel from empty maps on so many CPUs. */
  ghost predicate IsRun(run: seq<Step>, cpus: nat)
    decreases |run|, 0
  {
    run == [] || (IsRun(run[..|run| - 1], cpus) && Enabled(After(run[..|run| - 1], cpus), run[|run| - 1]))
  }

  ghost function After(run: seq<Step>, cpus: nat): (s: State)
    requires IsRun(run, cpus)
    ensures s.Valid() && |s.cpus| == cpus
    decreases |run|, 1
  {
    if run == [] then Start(cpus) else Next(After(run[..|run| - 1], cpus), run[|run| - 1])
  }

  // ---- What a run has seen ----

  predicate AtMost(a: Counters, b: Counters) {
    a.packets <= b.packets && a.bytes <= b.bytes
  }

  /** The frames of a run, in order of arrival. */
  function Frames(run: seq<Step>): seq<Bytes> {
    if run == [] then []
    else Frames(run[..|run| - 1]) + if run[|run| - 1].Begin? then [run[|run| - 1].frame] else []
  }

  /** How many of the frames, and how many bytes, belong to a bucket. */
  function Tally(frames: seq<Bytes>, proto: Proto): Counters {
    if frames == [] then ZERO
    else Plus(Tally(frames[..|frames| - 1], proto),
              if InBucket(frames[|frames| - 1], proto) then One(frames[|frames| - 1]) else ZERO)
  }

  predicate InBucket(frame: Bytes, proto: Proto) {
    ParseL4Protocol(frame).Some? && ProtoOf(ParseL4Protocol(frame).value) == proto
  }

  function One(frame: Bytes): Counters {
    Counters(1, |frame|)
  }

  /** How many of the frames are bare SYNs of a source. */
  function SynTally(frames: seq<Bytes>, ip: Ipv4Addr): Counters {
    if frames == [] then ZERO
    else Plus(SynTally(frames[..|frames| - 1], ip),
              if IsSynOf(frames[|frames| - 1], ip) then One(frames[|frames| - 1]) else ZERO)
  }

  predicate IsSynOf(frame: Bytes, ip: Ipv4Addr) {
    BareSyn(frame).Some? && BareSyn(frame).value.srcAddr == ip
  }

  lemma {:induction false} FramesGrow(run: seq<Step>, step: Step)
    ensures Frames(run + [step]) == Frames(run) + if step.Begin? then [step.frame] else []
  {
    assert (run + [step])[..|run|] == run;
  }

  lemma {:induction false} TallyGrows(frames: seq<Bytes>, frame: Bytes, proto: Proto)
    ensures Tally(frames + [frame], proto)
            == Plus(Tally(frames, proto), if InBucket(frame, proto) then One(frame) else ZERO)
  {
    assert (frames + [frame])[..|frames|] == frames;
  }

  lemma {:induction false} SynTallyGrows(frames: seq<Bytes>, frame: Bytes, ip: Ipv4Addr)
    ensures SynTally(frames + [frame], ip)
            == Plus(SynTally(frames, ip), if IsSynOf(frame, ip) then One(frame) else ZERO)
  {
    assert (frames + [frame])[..|frames|] == frames;
  }

  // ---- Buckets ----

  lemma {:induction false} ZerosSumToZero(n: nat)
    ensures Sum(Zeros(n)) == ZERO
  {
    hide Plus;
    PlusZero(ZERO);
    if n == 0 {
    } else {
      ZerosSumToZero(n - 1);
      assert Zeros(n)[..n - 1] == Zeros(n - 1);
    }
  }

  lemma {:induction false} BumpedSum(xs: seq<Counters>, cpu: nat, bytes: nat)
    requires cpu < |xs|
    ensures Sum(Bumped(xs, cpu, bytes)) == Plus(Sum(xs), Counters(1, bytes))
  {
    SumUpdate(xs, cpu, Counters(xs[cpu].packets + 1, xs[cpu].bytes + bytes));
  }

  lemma IndexIsInjective(a: Proto, b: Proto)
    ensures Index(a) == Index(b) <==> a == b
    ensures Index(a) < PROTO_COUNT
  {}

  lemma BucketStep(s: State, step: Step, proto: Proto)
    requires s.Valid() && Enabled(s, step)
    ensures Sum(Next(s, step).maps.proto[Index(proto)])
            == Plus(Sum(s.maps.proto[Index(proto)]),
                    if step.Begin? && InBucket(step.frame, proto) then One(step.frame) else ZERO)
  {
    hide BareSyn, ParseL4Protocol, Sum, Bumped;
    if step.Begin? && ParseL4Protocol(step.frame).Some? {
      var p := ProtoOf(ParseL4Protocol(step.frame).value);
      IndexIsInjective(p, proto);
      BumpedSum(s.maps.proto[Index(p)], step.cpu, |step.frame|);
    }
  }

  /**
   However the CPUs interleave and whatever is evicted, each bucket summed over
   the CPUs holds the number and the bytes of the frames of its protocol.
   */
  lemma {:induction false} BucketsAreExact(run: seq<Step>, cpus: nat, proto: Proto)
    requires IsRun(run, cpus)
    ensures Sum(After(run, cpus).maps.proto[Index(proto)]) == Tally(Frames(run), proto)
  {
    hide Next, Sum, Tally, InBucket;
    IndexIsInjective(proto, proto);
    if run == [] {
      ZerosSumToZero(cpus);
      EmptyTally(Frames(run), proto);
    } else {
      var n := |run| - 1;
      BucketsAreExact(run[..n], cpus, proto);
      BucketStep(After(run[..n], cpus), run[n], proto);
      if run[n].Begin? {
        TallyGrows(Frames(run[..n]), run[n].frame, proto);
      } else {
        assert Frames(run) == Frames(run[..n]);
      }
    }
  }

  lemma {:induction false} EmptyTally(frames: seq<Bytes>, proto: Proto)
    requires frames == []
    ensures Tally(frames, proto) == ZERO
  {}

  // ---- SYN counters ----

  function Tracked(m: Maps, ip: Ipv4Addr): Counters {
    if ip in m.syn then Sum(m.syn[ip]) else ZERO
  }

  function InFlightOn(p: Progress, ip: Ipv4Addr): Counters {
    if p.Inserting? && p.key.srcAddr == ip then Counters(1, p.bytes) else ZERO
  }

  /** What the CPUs have looked up in vain and not yet inserted. */
  function InFlight(cpus: seq<Progress>, ip: Ipv4Addr): Counters {
    InFlightBelow(cpus, |cpus|, ip)
  }

  /** The same for the first `n` CPUs. */
  function InFlightBelow(cpus: seq<Progress>, n: nat, ip: Ipv4Addr): Counters
    requires n <= |cpus|
  {
    if n == 0 then ZERO else Plus(InFlightBelow(cpus, n - 1, ip), InFlightOn(cpus[n - 1], ip))
  }

  lemma {:induction false} InFlightFrame(cpus: seq<Progress>, c: nat, p: Progress, n: nat, ip: Ipv4Addr)
    requires n <= c < |cpus|
    ensures InFlightBelow(cpus[c := p], n, ip) == InFlightBelow(cpus, n, ip)
  {
    hide InFlightOn;
    if n == 0 {
    } else {
      InFlightFrame(cpus, c, p, n - 1, ip);
    }
  }

  lemma {:induction false} InFlightUpdateBelow(cpus: seq<Progress>, c: nat, p: Progress, n: nat, ip: Ipv4Addr)
    requires c < n <= |cpus|
    ensures Plus(InFlightBelow(cpus[c := p], n, ip), InFlightOn(cpus[c], ip))
            == Plus(InFlightBelow(cpus, n, ip), InFlightOn(p, ip))
  {
    hide InFlightOn;
    if c < n - 1 {
      InFlightUpdateBelow(cpus, c, p, n - 1, ip);
    } else {
      InFlightFrame(cpus, c, p, n - 1, ip);
    }
  }

  lemma InFlightUpdate(cpus: seq<Progress>, c: nat, p: Progress, ip: Ipv4Addr)
    requires c < |cpus|
    ensures Plus(InFlight(cpus[c := p], ip), InFlightOn(cpus[c], ip)) == Plus(InFlight(cpus, ip), InFlightOn(p, ip))
  {
    hide InFlightOn, InFlightBelow, Plus;
    InFlightUpdateBelow(cpus, c, p, |cpus|, ip);
  }

  /** What a step loses of a source: the entry that it evicts, or the insert that fails. */
  function LostBy(s: State, step: Step, ip: Ipv4Addr): Counters
    requires Enabled(s, step)
  {
    match step
    case EvictSyn(evicted) => if evicted == ip then Tracked(s.maps, ip) else ZERO
    case Insert(cpu, ok) => if ok then ZERO else InFlightOn(s.cpus[cpu], ip)
    case _ => ZERO
  }

  ghost function Lost(run: seq<Step>, cpus: nat, ip: Ipv4Addr): Counters
    requires IsRun(run, cpus)
  {
    if run == [] then ZERO
    else Plus(Lost(run[..|run| - 1], cpus, ip), LostBy(After(run[..|run| - 1], cpus), run[|run| - 1], ip))
  }

  /** A CPU that is about to insert has no share yet in an entry that another CPU made meanwhile. */
  predicate NoShareYet(s: State)
    requires s.Valid()
  {
    forall c :: 0 <= c < |s.cpus| && s.cpus[c].Inserting? && s.cpus[c].key.srcAddr in s.maps.syn ==>
                  s.maps.syn[s.cpus[c].key.srcAddr][c] == ZERO
  }

  lemma StepKeepsNoShareYet(s: State, step: Step)
    requires s.Valid() && Enabled(s, step) && NoShareYet(s)
    ensures NoShareYet(Next(s, step))
  {
    hide BareSyn, ParseL4Protocol, ProtoOf, Sum;
  }

  /** An insert adds one SYN to its source, even into an entry that is already there. */
  lemma InsertedSum(m: Maps, cpus: nat, cpu: nat, ip: Ipv4Addr, bytes: nat)
    requires m.Valid(cpus) && cpu < cpus && (ip in m.syn ==> m.syn[ip][cpu] == ZERO)
    ensures Tracked(SynInserted(m, cpus, cpu, ip, bytes), ip) == Plus(Tracked(m, ip), Counters(1, bytes))
  {
    hide Sum;
    var shares := if ip in m.syn then m.syn[ip] else Zeros(cpus);
    SumUpdate(shares, cpu, Counters(1, bytes));
    ZerosSumToZero(cpus);
  }

  function Accounted(s: State, ip: Ipv4Addr): Counters {
    Plus(Tracked(s.maps, ip), InFlight(s.cpus, ip))
  }

  /** Every step keeps the balance: what it takes away from a source it loses, what it adds is a frame. */
  lemma SynStep(s: State, step: Step, ip: Ipv4Addr)
    requires s.Valid() && Enabled(s, step) && NoShareYet(s)
    ensures Plus(Accounted(Next(s, step), ip), LostBy(s, step, ip))
            == Plus(Accounted(s, ip), if step.Begin? && IsSynOf(step.frame, ip) then One(step.frame) else ZERO)
  {
    hide BareSyn, ParseL4Protocol, ProtoOf, Sum, InFlight, Bumped;
    match step
    case Begin(cpu, frame) => BeginStep(s, cpu, frame, ip);
    case Insert(cpu, ok) =>
      var p := s.cpus[cpu];
      InFlightUpdate(s.cpus, cpu, Touching(p.key), ip);
      if ok {
        InsertedSum(s.maps, |s.cpus|, cpu, p.key.srcAddr, p.bytes);
      }
    case Touch(cpu, now, ok) =>
      InFlightUpdate(s.cpus, cpu, Idle, ip);
    case EvictSyn(_) =>
    case EvictPort(_) =>
  }

  lemma BeginStep(s: State, cpu: nat, frame: Bytes, ip: Ipv4Addr)
    requires s.Valid() && Enabled(s, Begin(cpu, frame))
    ensures Accounted(Begun(s, cpu, frame), ip)
            == Plus(Accounted(s, ip), if IsSynOf(frame, ip) then One(frame) else ZERO)
  {
    hide BareSyn, ParseL4Protocol, ProtoOf, Sum, InFlight, Bumped;
    if BareSyn(frame).Some? {
      var syn := BareSyn(frame).value;
      InFlightUpdate(s.cpus, cpu, Touching(KeyOf(syn)), ip);
      InFlightUpdate(s.cpus, cpu, Inserting(KeyOf(syn), |frame|), ip);
      if syn.srcAddr in s.maps.syn {
        BumpedSum(s.maps.syn[syn.srcAddr], cpu, |frame|);
      }
    }
  }

  lemma {:induction false} IdleHasNothingInFlight(cpus: seq<Progress>, n: nat, ip: Ipv4Addr)
    requires n <= |cpus| && forall c :: 0 <= c < |cpus| ==> cpus[c] == Idle
    ensures InFlightBelow(cpus, n, ip) == ZERO
  {
    hide Plus;
    PlusZero(ZERO);
    if n == 0 {
    } else {
      IdleHasNothingInFlight(cpus, n - 1, ip);
    }
  }

  /**
   Conservation, for every source: what the map holds, what is in flight and
   what evictions and failed inserts lost add up to the bare SYNs that arrived.
   */
  lemma {:induction false} SynIsConserved(run: seq<Step>, cpus: nat, ip: Ipv4Addr)
    requires IsRun(run, cpus)
    ensures NoShareYet(After(run, cpus))
    ensures Plus(Accounted(After(run, cpus), ip), Lost(run, cpus, ip)) == SynTally(Frames(run), ip)
  {
    hide Next, Accounted, LostBy, SynTally, IsSynOf, NoShareYet, Plus;
    if run == [] {
      StartIsBalanced(Frames(run), cpus, ip);
    } else {
      var n := |run| - 1;
      var before := After(run[..n], cpus);
      SynIsConserved(run[..n], cpus, ip);
      StepKeepsNoShareYet(before, run[n]);
      SynStep(before, run[n], ip);
      Rebalance(Accounted(After(run, cpus), ip), LostBy(before, run[n], ip), Accounted(before, ip),
                if run[n].Begin? && IsSynOf(run[n].frame, ip) then One(run[n].frame) else ZERO,
                Lost(run[..n], cpus, ip), SynTally(Frames(run[..n]), ip));
      if run[n].Begin? {
        SynTallyGrows(Frames(run[..n]), run[n].frame, ip);
      } else {
        assert Frames(run) == Frames(run[..n]);
      }
    }
  }

  lemma Rebalance(after: Counters, losing: Counters, before: Counters, gain: Counters, lost: Counters, sent: Counters)
    requires Plus(after, losing) == Plus(before, gain) && Plus(before, lost) == sent
    ensures Plus(after, Plus(lost, losing)) == Plus(sent, gain) && Plus(sent, ZERO) == sent
  {}

  lemma {:induction false} StartIsBalanced(frames: seq<Bytes>, cpus: nat, ip: Ipv4Addr)
    requires frames == []
    ensures NoShareYet(Start(cpus)) && Plus(Accounted(Start(cpus), ip), ZERO) == SynTally(frames, ip)
  {
    hide *;
    NoShareAtStart(cpus);
    NothingAccountedAtStart(cpus, ip);
    EmptySynTally(frames, ip);
    PlusZero(ZERO);
  }

  lemma PlusZero(a: Counters)
    ensures Plus(a, ZERO) == a
  {}

  lemma NoShareAtStart(cpus: nat)
    ensures NoShareYet(Start(cpus))
  {
    StartTracksNothing(cpus);
    hide Start, AllIdle;
  }

  lemma NothingAccountedAtStart(cpus: nat, ip: Ipv4Addr)
    ensures Accounted(Start(cpus), ip) == ZERO
  {
    StartTracksNothing(cpus);
    IdleHasNothingInFlight(AllIdle(cpus), cpus, ip);
    PlusZero(ZERO);
    hide Start, AllIdle, InFlightBelow, Sum, Plus;
  }

  lemma StartTracksNothing(cpus: nat)
    ensures Start(cpus).maps.syn == map[] && Start(cpus).cpus == AllIdle(cpus)
  {}

  lemma {:induction false} EmptySynTally(frames: seq<Bytes>, ip: Ipv4Addr)
    requires frames == []
    ensures SynTally(frames, ip) == ZERO
  {
    hide IsSynOf;
  }

  /**
   The map never claims more SYNs of a source than it sent, and claims exactly
   that many if and only if none is in flight and none was lost.
   */
  lemma {:induction false} SynCountIsSound(run: seq<Step>, cpus: nat, ip: Ipv4Addr)
    requires IsRun(run, cpus)
    ensures var held, sent := Tracked(After(run, cpus).maps, ip), SynTally(Frames(run), ip);
            && held.packets <= sent.packets && held.bytes <= sent.bytes
            && (held.packets == sent.packets
                <==> InFlight(After(run, cpus).cpus, ip).packets + Lost(run, cpus, ip).packets == 0)
  {
    hide Tracked, InFlight, Lost, SynTally, After;
    SynIsConserved(run, cpus, ip);
  }

  lemma {:induction false} RunPrefix(run: seq<Step>, cpus: nat, n: nat)
    requires IsRun(run, cpus) && n <= |run|
    ensures IsRun(run[..n], cpus)
    decreases |run|
  {
    if n == |run| {
      assert run[..n] == run;
    } else {
      RunPrefix(run[..|run| - 1], cpus, n);
      assert run[..|run| - 1][..n] == run[..n];
    }
  }

  /** What is lost stays lost. */
  lemma {:induction false} LostNeverShrinks(run: seq<Step>, cpus: nat, n: nat, ip: Ipv4Addr)
    requires IsRun(run, cpus) && n <= |run| && IsRun(run[..n], cpus)
    ensures AtMost(Lost(run[..n], cpus, ip), Lost(run, cpus, ip))
    decreases |run|
  {
    hide After, LostBy;
    if n == |run| {
      assert run[..n] == run;
    } else {
      assert run[..|run| - 1][..n] == run[..n];
      LostNeverShrinks(run[..|run| - 1], cpus, n, ip);
    }
  }

  /**
   Between two readings, however often the entry is evicted and made anew, a
   source's counter grows by no more than the SYNs that arrived in between and
   those that were in flight at the first reading.
   */
  lemma {:induction false} GrowthIsReal(run: seq<Step>, cpus: nat, n: nat, ip: Ipv4Addr)
    requires IsRun(run, cpus) && n <= |run| && IsRun(run[..n], cpus)
    ensures SaturatingSub(Tracked(After(run, cpus).maps, ip).packets, Tracked(After(run[..n], cpus).maps, ip).packets)
            <= SynTally(Frames(run), ip).packets - SynTally(Frames(run[..n]), ip).packets
               + InFlight(After(run[..n], cpus).cpus, ip).packets
  {
    hide Tracked, InFlight, Lost, SynTally, After, Frames;
    SynIsConserved(run, cpus, ip);
    SynIsConserved(run[..n], cpus, ip);
    LostNeverShrinks(run, cpus, n, ip);
    SentNeverShrinks(run, n, ip);
  }

  lemma {:induction false} SentNeverShrinks(run: seq<Step>, n: nat, ip: Ipv4Addr)
    requires n <= |run|
    ensures AtMost(SynTally(Frames(run[..n]), ip), SynTally(Frames(run), ip))
    decreases |run|
  {
    hide SynTally, IsSynOf;
    if n == |run| {
      assert run[..n] == run;
    } else {
      var m := |run| - 1;
      assert run[..m][..n] == run[..n];
      SentNeverShrinks(run[..m], n, ip);
      if run[m].Begin? {
        SynTallyGrows(Frames(run[..m]), run[m].frame, ip);
      } else {
        assert Frames(run) == Frames(run[..m]);
      }
    }
  }

  // ---- SYNs against the TCP bucket ----

  ghost function Pick(ips: set<Ipv4Addr>): (ip: Ipv4Addr)
    requires ips != {}
    ensures ip in ips
  {
    var ip :| ip in ips;
    ip
  }

  /** The counters of a set of sources together. */
  ghost function TrackedBy(m: Maps, ips: set<Ipv4Addr>): Counters {
    if ips == {} then ZERO
    else
      var ip := Pick(ips);
      Plus(TrackedBy(m, ips - {ip}), Tracked(m, ip))
  }

  ghost function SentBy(frames: seq<Bytes>, ips: set<Ipv4Addr>): Counters {
    if ips == {} then ZERO
    else
      var ip := Pick(ips);
      Plus(SentBy(frames, ips - {ip}), SynTally(frames, ip))
  }

  lemma {:induction false} TrackedWasSent(run: seq<Step>, cpus: nat, ips: set<Ipv4Addr>)
    requires IsRun(run, cpus)
    ensures AtMost(TrackedBy(After(run, cpus).maps, ips), SentBy(Frames(run), ips))
  {
    hide Tracked, SynTally, After, Frames;
    if ips == {} {
    } else {
      var ip := Pick(ips);
      TrackedWasSent(run, cpus, ips - {ip});
      SynCountIsSound(run, cpus, ip);
    }
  }

  predicate IsSynFrom(frame: Bytes, ips: set<Ipv4Addr>) {
    BareSyn(frame).Some? && BareSyn(frame).value.srcAddr in ips
  }

  /** One more frame is a SYN of at most one source. */
  lemma {:induction false} SentByGrows(frames: seq<Bytes>, frame: Bytes, ips: set<Ipv4Addr>)
    ensures SentBy(frames + [frame], ips)
            == Plus(SentBy(frames, ips), if IsSynFrom(frame, ips) then One(frame) else ZERO)
    decreases ips
  {
    hide *;
    SentByUnfolds(frames, ips);
    SentByUnfolds(frames + [frame], ips);
    if ips == {} {
      assert !IsSynFrom(frame, ips) by { NoSource(frame); }
      PlusZero(ZERO);
    } else {
      var ip := Pick(ips);
      SynTallyGrows(frames, frame, ip);
      FrameHasOneSource(frame, ips, ip);
      SentByGrows(frames, frame, ips - {ip});
      PlusSwaps(SentBy(frames, ips - {ip}), if IsSynFrom(frame, ips - {ip}) then One(frame) else ZERO,
                SynTally(frames, ip), if IsSynOf(frame, ip) then One(frame) else ZERO);
    }
  }

  lemma FrameHasOneSource(frame: Bytes, ips: set<Ipv4Addr>, ip: Ipv4Addr)
    requires ip in ips
    ensures IsSynFrom(frame, ips) <==> IsSynFrom(frame, ips - {ip}) || IsSynOf(frame, ip)
    ensures !(IsSynFrom(frame, ips - {ip}) && IsSynOf(frame, ip))
  {
    hide BareSyn;
  }

  lemma NoSource(frame: Bytes)
    ensures !IsSynFrom(frame, {})
  {}

  lemma PlusSwaps(a: Counters, g: Counters, b: Counters, h: Counters)
    ensures Plus(Plus(a, g), Plus(b, h)) == Plus(Plus(a, b), Plus(g, h))
    ensures Plus(g, ZERO) == g && Plus(ZERO, g) == g
    ensures Plus(h, ZERO) == h && Plus(ZERO, h) == h
  {}

  lemma {:induction false} SentByUnfolds(frames: seq<Bytes>, ips: set<Ipv4Addr>)
    ensures SentBy(frames, ips)
            == if ips == {} then ZERO else Plus(SentBy(frames, ips - {Pick(ips)}), SynTally(frames, Pick(ips)))
  {
    hide SynTally;
  }

  lemma SynIsTcp(frame: Bytes, ips: set<Ipv4Addr>)
    ensures IsSynFrom(frame, ips) ==> InBucket(frame, Tcp)
  {}

  lemma {:induction false} SentIsTcp(frames: seq<Bytes>, ips: set<Ipv4Addr>)
    ensures AtMost(SentBy(frames, ips), Tally(frames, Tcp))
  {
    hide IsSynFrom, InBucket, SentBy, SynTally;
    if frames == [] {
      NothingSent(frames, ips);
    } else {
      var n := |frames| - 1;
      SentIsTcp(frames[..n], ips);
      assert frames == frames[..n] + [frames[n]];
      SentByGrows(frames[..n], frames[n], ips);
      TallyGrows(frames[..n], frames[n], Tcp);
      SynIsTcp(frames[n], ips);
    }
  }

  lemma {:induction false} NothingSent(frames: seq<Bytes>, ips: set<Ipv4Addr>)
    requires frames == []
    ensures SentBy(frames, ips) == ZERO
  {
    assert forall ip :: SynTally(frames, ip) == ZERO;
    hide SynTally;
    if ips == {} {
    } else {
      NothingSent(frames, ips - {Pick(ips)});
    }
  }

  /** All SYN counters of the map together, over all CPUs, never exceed the TCP bucket. */
  lemma {:induction false} SynsAreWithinTcp(run: seq<Step>, cpus: nat)
    requires IsRun(run, cpus)
    ensures var m := After(run, cpus).maps; AtMost(TrackedBy(m, m.syn.Keys), Sum(m.proto[Index(Tcp)]))
  {
    hide TrackedBy, SentBy, Sum, Tally, After, Frames;
    var ips := After(run, cpus).maps.syn.Keys;
    TrackedWasSent(run, cpus, ips);
    SentIsTcp(Frames(run), ips);
    BucketsAreExact(run, cpus, Tcp);
  }

  // ---- Port touches ----

  /** A touch of a key, the clock reading it recorded, and the step of the run at which it happened. */
  datatype TouchedAt = TouchedAt(key: PortScanKey, now: nat, at: nat)

  /** Every port touch of a run, kept by the map or not. */
  ghost function TouchLog(run: seq<Step>, cpus: nat): seq<TouchedAt>
    requires IsRun(run, cpus)
  {
    if run == [] then []
    else
      var n := |run| - 1;
      TouchLog(run[..n], cpus)
      + if run[n].Touch? then [TouchedAt(After(run[..n], cpus).cpus[run[n].cpu].key, run[n].now, n)] else []
  }

  predicate IsSynTo(frame: Bytes, key: PortScanKey) {
    BareSyn(frame).Some? && KeyOf(BareSyn(frame).value) == key
  }

  /** The last frame that the CPU began is the one at step `i`, a bare SYN from this source to this port. */
  ghost predicate LastBegan(run: seq<Step>, cpu: nat, key: PortScanKey, i: nat) {
    && i < |run| && run[i].Begin? && run[i].cpu == cpu && IsSynTo(run[i].frame, key)
    && forall m :: i < m < |run| ==> !(run[m].Begin? && run[m].cpu == cpu)
  }

  /** The touch belongs to the frame at step `i`: its own CPU began that one last. */
  ghost predicate TouchesFor(run: seq<Step>, t: TouchedAt, i: nat) {
    && t.at < |run| && run[t.at].Touch? && run[t.at].now == t.now
    && LastBegan(run[..t.at], run[t.at].cpu, t.key, i)
  }

  /** The touch was made for a bare SYN that was being handled when the clock was read. */
  ghost predicate WasSent(run: seq<Step>, t: TouchedAt) {
    exists i :: TouchesFor(run, t, i)
  }

  /** What a CPU is about to record belongs to the last frame that it began. */
  lemma {:induction false} ProgressHasFrame(run: seq<Step>, cpus: nat, c: nat) returns (i: nat)
    requires IsRun(run, cpus) && c < cpus && !After(run, cpus).cpus[c].Idle?
    ensures LastBegan(run, c, After(run, cpus).cpus[c].key, i)
  {
    hide BareSyn, ParseL4Protocol, Counted;
    var n := |run| - 1;
    var before := After(run[..n], cpus);
    if before.cpus[c].Idle? {
      i := n;
    } else {
      i := ProgressHasFrame(run[..n], cpus, c);
    }
  }

  /** Every touch was made for a SYN that its own CPU was handling. */
  lemma {:induction false} TouchesWereSent(run: seq<Step>, cpus: nat, t: TouchedAt)
    requires IsRun(run, cpus) && t in TouchLog(run, cpus)
    ensures WasSent(run, t)
  {
    hide Next, IsSynTo;
    var n := |run| - 1;
    if t in TouchLog(run[..n], cpus) {
      TouchesWereSent(run[..n], cpus, t);
      var i :| TouchesFor(run[..n], t, i);
      assert run[..n][..t.at] == run[..t.at];
      assert TouchesFor(run, t, i);
    } else {
      var i := ProgressHasFrame(run[..n], cpus, run[n].cpu);
      assert TouchesFor(run, t, i);
    }
  }

  /** Each entry of the port map is a touch that happened at the time it says, for a SYN that was being handled then. */
  lemma {:induction false} PortsWereTouched(run: seq<Step>, cpus: nat, key: PortScanKey) returns (t: TouchedAt)
    requires IsRun(run, cpus) && key in After(run, cpus).maps.ports
    ensures t in TouchLog(run, cpus) && t.key == key && t.now == After(run, cpus).maps.ports[key]
    ensures WasSent(run, t)
  {
    hide WasSent, BareSyn, ParseL4Protocol;
    t := LastTouch(run, cpus, key);
    TouchesWereSent(run, cpus, t);
  }

  lemma {:induction false} LastTouch(run: seq<Step>, cpus: nat, key: PortScanKey) returns (t: TouchedAt)
    requires IsRun(run, cpus) && key in After(run, cpus).maps.ports
    ensures t in TouchLog(run, cpus) && t.key == key && t.now == After(run, cpus).maps.ports[key]
  {
    hide BareSyn, ParseL4Protocol, Begun;
    var n := |run| - 1;
    var before := After(run[..n], cpus);
    if key in before.maps.ports && before.maps.ports[key] == After(run, cpus).maps.ports[key] {
      t := LastTouch(run[..n], cpus, key);
    } else {
      BeginKeepsPorts(before, run[n]);
      t := TouchedAt(key, run[n].now, n);
    }
  }

  lemma BeginKeepsPorts(s: State, step: Step)
    requires s.Valid() && Enabled(s, step)
    ensures step.Begin? ==> Next(s, step).maps.ports == s.maps.ports
  {
    hide BareSyn, ParseL4Protocol, Bumped;
  }
}
