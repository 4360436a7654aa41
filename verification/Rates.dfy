/** Counters to rates, and the rotation of snapshots from tick to tick. */
module Rates {
  import opened Prelude
  import opened Estimator

  const NANOS_PER_SECOND := 1000000000.0

  datatype Counters = Counters(packets: nat, bytes: nat)

  datatype Snapshot = Snapshot(timestamp: Instant, stats: seq<Counters>)

  function SaturatingSub(a: nat, b: nat): nat {
    if a < b then 0 else a - b
  }

  /** Elapsed seconds, or nothing for a non-positive interval. */
  function DtSecs(prev: Instant, curr: Instant): (dt: Option<real>)
    ensures dt.Some? <==> prev < curr
    ensures dt.Some? ==> dt.value > 0.0
  {
    var dt := DurationSince(curr, prev) as real / NANOS_PER_SECOND;
    if dt > 0.0 then Some(dt) else None
  }

  /** The interval is the time that passed, in seconds. */
  lemma DtSecsIsElapsed(prev: Instant, curr: Instant)
    requires prev < curr
    ensures DtSecs(prev, curr).value * 1000000000.0 == (curr - prev) as real
  {}

  /** A saturating counter delta as a rate per second. */
  function Rate(curr: nat, prev: nat, dt: real): real
    requires dt > 0.0
  {
    SaturatingSub(curr, prev) as real / dt
  }

  function Min(a: nat, b: nat): nat {
    if a < b then a else b
  }

  /** The rates of all protocols that both snapshots have counters for; none when time did not advance. */
  function ComputeRates(prev: Snapshot, curr: Snapshot): (rates: seq<ProtoRate>)
  {
    match DtSecs(prev.timestamp, curr.timestamp)
    case None => []
    case Some(dt) =>
      seq(Min(PROTO_COUNT, Min(|curr.stats|, |prev.stats|)),
          i requires 0 <= i < Min(PROTO_COUNT, Min(|curr.stats|, |prev.stats|)) =>
            ProtoRate(FromIndex(i).value,
                      Rate(curr.stats[i].packets, prev.stats[i].packets, dt),
                      Rate(curr.stats[i].bytes, prev.stats[i].bytes, dt)))
  }

  ghost predicate DistinctProtos(rates: seq<ProtoRate>) {
    forall i, j :: 0 <= i < j < |rates| ==> rates[i].proto != rates[j].proto
  }

  lemma ComputedRatesAreDistinct(prev: Snapshot, curr: Snapshot)
    ensures DistinctProtos(ComputeRates(prev, curr))
    ensures forall i :: 0 <= i < |ComputeRates(prev, curr)| ==> Index(ComputeRates(prev, curr)[i].proto) == i
  {}

  /** `prime_or_diff`: hands out the previous snapshot and keeps the current one; a missing one changes nothing. */
  method PrimeOrDiff<T>(prev: Option<T>, current: Option<T>) returns (base: Option<T>, kept: Option<T>)
    ensures kept == if current.Some? then current else prev
    ensures base == if current.Some? then prev else None
  {
    if current.None? {
      return None, prev;
    }
    match prev {
      case Some(p) =>
        kept := current;
        base := Some(p);
      case None =>
        kept := current;
        base := None;
    }
  }

  // ---- Conservation over runs ----

  /** What `PrimeOrDiff` holds after a run of optional snapshots. */
  function Held(run: seq<Option<Snapshot>>): (held: Option<Snapshot>)
    ensures held.Some? ==> held in run
  {
    if run == [] then None
    else if run[|run| - 1].Some? then run[|run| - 1]
    else Held(run[..|run| - 1])
  }

  /** A counter has two dimensions, and so has a rate. */
  datatype Dimension = PacketCount | ByteCount

  function Count(c: Counters, d: Dimension): nat {
    match d
    case PacketCount => c.packets
    case ByteCount => c.bytes
  }

  function RateIn(r: ProtoRate, d: Dimension): real {
    match d
    case PacketCount => r.pps
    case ByteCount => r.bps
  }

  /** What the rates of a run account for of protocol `i`: the sum of rate times interval. */
  function Volume(run: seq<Option<Snapshot>>, i: nat, d: Dimension): real {
    if run == [] then 0.0
    else
      var n := |run| - 1;
      Volume(run[..n], i, d) + TickVolume(Held(run[..n]), run[n], i, d)
  }

  function TickVolume(base: Option<Snapshot>, current: Option<Snapshot>, i: nat, d: Dimension): real {
    if base.Some? && current.Some? then
      var rates := ComputeRates(base.value, current.value);
      if i < |rates| then RateIn(rates[i], d) * DtSecs(base.value.timestamp, current.value.timestamp).value else 0.0
    else 0.0
  }

  /** What was counted between two snapshots whose clock readings did not advance: this has no rate. */
  function Unrated(run: seq<Option<Snapshot>>, i: nat, d: Dimension): nat
    requires Complete(run, i)
  {
    if run == [] then 0
    else
      var n := |run| - 1;
      var base := Held(run[..n]);
      assert base.Some? ==> base in run;
      Unrated(run[..n], i, d)
      + if base.Some? && run[n].Some? && base.value.timestamp >= run[n].value.timestamp
        then SaturatingSub(Count(run[n].value.stats[i], d), Count(base.value.stats[i], d)) else 0
  }

  /** Every snapshot of the run has a counter for protocol `i`. */
  predicate Complete(run: seq<Option<Snapshot>>, i: nat) {
    i < PROTO_COUNT && forall k :: 0 <= k < |run| && run[k].Some? ==> |run[k].value.stats| == PROTO_COUNT
  }

  predicate CountersNeverFall(run: seq<Option<Snapshot>>, i: nat, d: Dimension)
    requires Complete(run, i)
  {
    forall j, k :: 0 <= j < k < |run| && run[j].Some? && run[k].Some? ==>
                     Count(run[j].value.stats[i], d) <= Count(run[k].value.stats[i], d)
  }

  lemma {:induction false} HeldIsFromRun(run: seq<Option<Snapshot>>) returns (k: nat)
    ensures Held(run).Some? ==> k < |run| && run[k] == Held(run)
    ensures forall j :: 0 <= j < |run| && run[j].Some? ==> Held(run).Some? && j <= k
  {
    k := 0;
    if run == [] {
    } else {
      if run[|run| - 1].Some? {
        k := |run| - 1;
      } else {
        k := HeldIsFromRun(run[..|run| - 1]);
      }
    }
  }

  lemma TickVolumeIsDelta(base: Snapshot, curr: Snapshot, i: nat, d: Dimension)
    requires i < PROTO_COUNT && |base.stats| == PROTO_COUNT && |curr.stats| == PROTO_COUNT
    ensures TickVolume(Some(base), Some(curr), i, d)
            == if base.timestamp < curr.timestamp
                 then SaturatingSub(Count(curr.stats[i], d), Count(base.stats[i], d)) as real else 0.0
  {
    var dt := DtSecs(base.timestamp, curr.timestamp);
    if dt.Some? {
      RateTimesInterval(Count(curr.stats[i], d), Count(base.stats[i], d), dt.value);
      hide DtSecs, Rate, SaturatingSub;
    }
  }

  lemma RateTimesInterval(curr: nat, prev: nat, dt: real)
    requires dt > 0.0
    ensures Rate(curr, prev, dt) * dt == SaturatingSub(curr, prev) as real
  {}

  /**
   From the first snapshot (at tick `f`) to the last, the rates account for at
   least the growth of the counter, except for what passes while the clock
   stands still, and for exactly that when the counter never falls. Missing
   snapshots lose nothing and count nothing twice.
   */
  lemma {:induction false} RatesTelescope(run: seq<Option<Snapshot>>, i: nat, d: Dimension, f: nat)
    requires Complete(run, i) && f < |run| && run[f].Some?
    requires forall k :: 0 <= k < f ==> run[k].None?
    ensures Held(run).Some? && |Held(run).value.stats| == PROTO_COUNT
    ensures var growth := Count(Held(run).value.stats[i], d) - Count(run[f].value.stats[i], d);
            && Volume(run, i, d) + Unrated(run, i, d) as real >= growth as real
            && (CountersNeverFall(run, i, d) ==> Volume(run, i, d) + Unrated(run, i, d) as real == growth as real)
  {
    hide TickVolume, Count, SaturatingSub;
    var n := |run| - 1;
    var g := run[..n];
    if f == n {
      NothingBeforeFirst(g, i, d);
    } else {
      RatesTelescope(g, i, d, f);
      assert CountersNeverFall(run, i, d) ==> CountersNeverFall(g, i, d);
      if run[n].Some? {
        var k := HeldIsFromRun(g);
        TickVolumeIsDelta(Held(g).value, run[n].value, i, d);
        SaturatedIsAtLeast(Count(run[n].value.stats[i], d), Count(Held(g).value.stats[i], d));
        assert CountersNeverFall(run, i, d) ==> Count(run[k].value.stats[i], d) <= Count(run[n].value.stats[i], d);
      }
    }
    TickVolumeOfNothing(Held(g), run[n], i, d);
  }

  lemma SaturatedIsAtLeast(a: nat, b: nat)
    ensures SaturatingSub(a, b) >= a - b && (a >= b ==> SaturatingSub(a, b) == a - b)
  {}

  lemma TickVolumeOfNothing(base: Option<Snapshot>, current: Option<Snapshot>, i: nat, d: Dimension)
    ensures base.None? || current.None? ==> TickVolume(base, current, i, d) == 0.0
  {}

  lemma {:induction false} NothingBeforeFirst(run: seq<Option<Snapshot>>, i: nat, d: Dimension)
    requires Complete(run, i) && forall k :: 0 <= k < |run| ==> run[k].None?
    ensures Held(run) == None && Volume(run, i, d) == 0.0 && Unrated(run, i, d) == 0
  {
    if run == [] {
    } else {
      NothingBeforeFirst(run[..|run| - 1], i, d);
    }
  }

  // ---- When no growth goes unrated ----

  /** Each snapshot is younger than the one before it. */
  predicate Advancing(run: seq<Option<Snapshot>>) {
    if run == [] then true
    else
      var n := |run| - 1;
      && Advancing(run[..n])
      && (Held(run[..n]).Some? && run[n].Some? ==> Held(run[..n]).value.timestamp < run[n].value.timestamp)
  }

  /** With a clock that advances from snapshot to snapshot nothing is lost. */
  lemma {:induction false} AdvancingClockLosesNothing(run: seq<Option<Snapshot>>, i: nat, d: Dimension)
    requires Complete(run, i) && Advancing(run)
    ensures Unrated(run, i, d) == 0
  {
    if run == [] {
    } else {
      AdvancingClockLosesNothing(run[..|run| - 1], i, d);
    }
  }

  /** The same readings of the clock, whatever was counted. */
  ghost predicate SameClock(run: seq<Option<Snapshot>>, other: seq<Option<Snapshot>>) {
    && |run| == |other|
    && forall k ::
         0 <= k < |run| ==>
           run[k].Some? == other[k].Some? && (run[k].Some? ==> run[k].value.timestamp == other[k].value.timestamp)
  }

  /** The run with counters that all grow by one at every tick. */
  function Ticking(run: seq<Option<Snapshot>>): (r: seq<Option<Snapshot>>)
    ensures |r| == |run|
    ensures forall k ::
              0 <= k < |run| ==> r[k] == if run[k].None? then None else Some(Snapshot(run[k].value.timestamp, AllAt(k)))
  {
    seq(|run|,
        k requires 0 <= k < |run| => if run[k].None? then None else Some(Snapshot(run[k].value.timestamp, AllAt(k))))
  }

  function AllAt(k: nat): (stats: seq<Counters>)
    ensures |stats| == PROTO_COUNT && forall i :: 0 <= i < PROTO_COUNT ==> stats[i] == Counters(k, k)
  {
    var c := Counters(k, k);
    [c, c, c, c, c]
  }

  lemma {:induction false} SameClockHolds(run: seq<Option<Snapshot>>, other: seq<Option<Snapshot>>)
    requires SameClock(run, other)
    ensures Held(run).Some? == Held(other).Some?
    ensures Held(run).Some? ==> Held(run).value.timestamp == Held(other).value.timestamp
    ensures Advancing(run) <==> Advancing(other)
  {
    if run == [] {
    } else {
      SameClockHolds(run[..|run| - 1], other[..|run| - 1]);
    }
  }

  /** A clock that stands still or goes back between two snapshots leaves growth unrated: here at least one. */
  lemma {:induction false} StalledClockLoses(run: seq<Option<Snapshot>>, i: nat, d: Dimension)
    requires i < PROTO_COUNT && !Advancing(run)
    ensures Complete(Ticking(run), i) && Unrated(Ticking(run), i, d) > 0
  {
    var n := |run| - 1;
    var ticking := Ticking(run);
    assert Complete(ticking, i);
    assert ticking[..n] == Ticking(run[..n]);
    if !Advancing(run[..n]) {
      StalledClockLoses(run[..n], i, d);
    } else {
      SameClockHolds(run[..n], Ticking(run[..n]));
      var k := HeldIsFromRun(Ticking(run[..n]));
    }
  }

  /**
   No growth goes unrated, whatever the counters show, if and only if the clock advances from
   snapshot to snapshot.
   */
  lemma NothingUnratedIffAdvancing(run: seq<Option<Snapshot>>, i: nat, d: Dimension)
    requires i < PROTO_COUNT
    ensures (forall other :: SameClock(run, other) && Complete(other, i) ==> Unrated(other, i, d) == 0)
            <==> Advancing(run)
  {
    if Advancing(run) {
      forall other | SameClock(run, other) && Complete(other, i) ensures Unrated(other, i, d) == 0 {
        SameClockHolds(run, other);
        AdvancingClockLosesNothing(other, i, d);
      }
    } else {
      StalledClockLoses(run, i, d);
      assert SameClock(run, Ticking(run));
    }
  }

  /** Two snapshots at one reading of the clock: the packet between them is in no rate. */
  lemma StalledClockExample()
    ensures var stalled := [Some(Snapshot(7, AllAt(0))), Some(Snapshot(7, AllAt(1)))];
            Complete(stalled, 0) && Unrated(stalled, 0, PacketCount) == 1 && Volume(stalled, 0, PacketCount) == 0.0
  {
    var first, second := Some(Snapshot(7, AllAt(0))), Some(Snapshot(7, AllAt(1)));
    var stalled := [first, second];
    assert stalled[..1] == [first] && stalled[..1][..0] == [];
    assert Held([first]) == first;
    assert Unrated([first], 0, PacketCount) == 0 && Volume([first], 0, PacketCount) == 0.0;
  }
}
