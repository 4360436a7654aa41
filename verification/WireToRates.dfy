/**
 From the wire to the rates: the packets that the user-space rates account for
 are the frames that arrived at the kernel between the first and the last
 reading, whatever happened in between.
 */
module WireToRates {
  import opened Prelude
  import opened ProtoManager
  import opened Estimator
  import opened Rates
  import opened Kernel
  import opened KernelRuns

  /** The counters are read after so many steps of the kernel's run, at this time. */
  datatype Reading = Reading(at: nat, timestamp: Instant)

  /** The snapshot that a reading takes: every bucket summed over the CPUs. */
  ghost function SnapshotAt(run: seq<Step>, cpus: nat, r: Reading): (s: Snapshot)
    requires IsRun(run, cpus) && r.at <= |run|
    ensures |s.stats| == PROTO_COUNT
  {
    RunPrefix(run, cpus, r.at);
    var proto := After(run[..r.at], cpus).maps.proto;
    Snapshot(r.timestamp, [Sum(proto[0]), Sum(proto[1]), Sum(proto[2]), Sum(proto[3]), Sum(proto[4])])
  }

  /** Readings follow the run of the kernel; some ticks go without one. */
  predicate InOrder(run: seq<Step>, readings: seq<Option<Reading>>) {
    && (forall k :: 0 <= k < |readings| && readings[k].Some? ==> readings[k].value.at <= |run|)
    && forall j, k ::
         0 <= j < k < |readings| && readings[j].Some? && readings[k].Some? ==>
           readings[j].value.at <= readings[k].value.at
  }

  ghost function Snapshots(run: seq<Step>, cpus: nat, readings: seq<Option<Reading>>): (snaps: seq<Option<Snapshot>>)
    requires IsRun(run, cpus) && InOrder(run, readings)
    ensures |snaps| == |readings|
    ensures forall k :: 0 <= k < |readings| ==>
                          snaps[k] == if readings[k].Some? then Some(SnapshotAt(run, cpus, readings[k].value)) else None
  {
    if readings == [] then []
    else
      var n := |readings| - 1;
      Snapshots(run, cpus, readings[..n])
        + [if readings[n].Some? then Some(SnapshotAt(run, cpus, readings[n].value)) else None]
  }

  /** How many frames of the protocol had arrived by then, or how many bytes they had. */
  function Arrived(run: seq<Step>, r: Reading, proto: Proto, d: Dimension): nat
    requires r.at <= |run|
  {
    Count(Tally(Frames(run[..r.at]), proto), d)
  }

  lemma {:induction false} SnapshotCountsArrivals(run: seq<Step>, cpus: nat, r: Reading, proto: Proto, d: Dimension)
    requires IsRun(run, cpus) && r.at <= |run|
    ensures Count(SnapshotAt(run, cpus, r).stats[Index(proto)], d) == Arrived(run, r, proto, d)
  {
    hide After, Sum, Tally, Frames, Count;
    RunPrefix(run, cpus, r.at);
    BucketsAreExact(run[..r.at], cpus, proto);
  }

  lemma {:induction false} ArrivalsNeverShrink(run: seq<Step>, proto: Proto, m: nat, n: nat)
    requires m <= n <= |run|
    ensures AtMost(Tally(Frames(run[..m]), proto), Tally(Frames(run[..n]), proto))
    decreases n
  {
    hide Tally, InBucket;
    if m < n {
      ArrivalsNeverShrink(run, proto, m, n - 1);
      assert run[..n] == run[..n - 1] + [run[n - 1]];
      FramesGrow(run[..n - 1], run[n - 1]);
      if run[n - 1].Begin? {
        TallyGrows(Frames(run[..n - 1]), run[n - 1].frame, proto);
      } else {
        assert Frames(run[..n - 1]) + [] == Frames(run[..n - 1]);
      }
    }
  }

  /**
   Every frame is accounted for: over the ticks from the first reading to the
   last, rate times interval, plus what passed while the clock stood still, is
   the number of frames of the protocol that arrived between the two, and the
   same for their bytes.
   */
  lemma {:induction false} FramesAreAccountedFor(run: seq<Step>, cpus: nat, readings: seq<Option<Reading>>,
                                                 proto: Proto, d: Dimension, first: nat, last: nat)
    requires IsRun(run, cpus) && InOrder(run, readings)
    requires first <= last < |readings| && readings[first].Some? && readings[last].Some?
    requires forall k :: (0 <= k < first || last < k < |readings|) ==> readings[k].None?
    ensures Complete(Snapshots(run, cpus, readings), Index(proto))
    ensures Volume(Snapshots(run, cpus, readings), Index(proto), d)
            + Unrated(Snapshots(run, cpus, readings), Index(proto), d) as real
            == (Arrived(run, readings[last].value, proto, d) - Arrived(run, readings[first].value, proto, d)) as real
  {
    assert readings[first].value.at <= |run| && readings[last].value.at <= |run|;
    hide *;
    var snaps, i := Snapshots(run, cpus, readings), Index(proto);
    IndexIsInjective(proto, proto);
    SnapshotsAreComplete(run, cpus, readings, i);
    KernelCountersNeverFall(run, cpus, readings, proto, d);
    RatesTelescope(snaps, i, d, first);
    LastReadingIsHeld(snaps, last);
    SnapshotCountsArrivals(run, cpus, readings[first].value, proto, d);
    SnapshotCountsArrivals(run, cpus, readings[last].value, proto, d);
  }

  lemma {:induction false} SnapshotsAreComplete(run: seq<Step>, cpus: nat, readings: seq<Option<Reading>>, i: nat)
    requires IsRun(run, cpus) && InOrder(run, readings) && i < PROTO_COUNT
    ensures Complete(Snapshots(run, cpus, readings), i)
  {
    hide SnapshotAt, InOrder;
  }

  lemma {:induction false} KernelCountersNeverFall(run: seq<Step>, cpus: nat, readings: seq<Option<Reading>>,
                                                   proto: Proto, d: Dimension)
    requires IsRun(run, cpus) && InOrder(run, readings) && Complete(Snapshots(run, cpus, readings), Index(proto))
    ensures CountersNeverFall(Snapshots(run, cpus, readings), Index(proto), d)
  {
    var snaps, i := Snapshots(run, cpus, readings), Index(proto);
    forall j, k | 0 <= j < k < |snaps| && snaps[j].Some? && snaps[k].Some?
      ensures Count(snaps[j].value.stats[i], d) <= Count(snaps[k].value.stats[i], d)
    {
      hide *;
      assert readings[j].Some? && readings[k].Some?;
      InOrderAt(run, readings, j, k);
      SnapshotCountsArrivals(run, cpus, readings[j].value, proto, d);
      SnapshotCountsArrivals(run, cpus, readings[k].value, proto, d);
      ArrivedIsMonotone(run, readings[j].value, readings[k].value, proto, d);
    }
  }

  lemma InOrderAt(run: seq<Step>, readings: seq<Option<Reading>>, j: nat, k: nat)
    requires InOrder(run, readings) && j < k < |readings| && readings[j].Some? && readings[k].Some?
    ensures readings[j].value.at <= readings[k].value.at <= |run|
  {}

  lemma {:induction false} LastReadingIsHeld(snaps: seq<Option<Snapshot>>, last: nat)
    requires last < |snaps| && snaps[last].Some? && forall k :: last < k < |snaps| ==> snaps[k].None?
    ensures Held(snaps) == snaps[last]
  {
    var k := HeldIsFromRun(snaps);
  }

  lemma ArrivedIsMonotone(run: seq<Step>, r: Reading, s: Reading, proto: Proto, d: Dimension)
    requires r.at <= s.at <= |run|
    ensures Arrived(run, r, proto, d) <= Arrived(run, s, proto, d)
  {
    hide Tally, Frames;
    ArrivalsNeverShrink(run, proto, r.at, s.at);
  }
}
