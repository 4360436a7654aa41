/**
 What a SYN rate says about its source, in both directions: from two readings of
 the map, and from the SYNs that were sent between them.
 */
module SynRates {
  import opened Prelude
  import opened Rates
  import opened Kernel
  import opened KernelRuns
  import opened TopTalkers
  import Ip = IpManager

  /**
   How much the counter of a source grew; an absent entry counts as zero, and so does one made anew
   that is smaller.
   */
  function Growth(m0: Maps, m1: Maps, ip: Ipv4Addr): nat {
    SaturatingSub(Tracked(m1, ip).packets, Tracked(m0, ip).packets)
  }

  /**
   Between two readings a source has a rate exactly when its counter grew, new
   sources from zero, and rate times interval is the growth.
   */
  lemma SynRateIff(m0: Maps, t0: Instant, m1: Maps, t1: Instant, ip: Ipv4Addr)
    requires t0 < t1
    ensures var dt := DtSecs(t0, t1).value;
            var rate := SynRate(Reading(m0, t0), Reading(m1, t1), dt, ip);
            && (rate.Some? <==> Tracked(m1, ip).packets > Tracked(m0, ip).packets)
            && (rate.Some? ==> rate.value.srcIp == ip && rate.value.metric * dt == Growth(m0, m1, ip) as real)
  {
    hide Sum, DtSecs;
    var dt := DtSecs(t0, t1).value;
    PositiveQuotient(Growth(m0, m1, ip) as real, dt);
  }

  lemma PositiveQuotient(x: real, dt: real)
    requires dt > 0.0
    ensures x / dt > 0.0 <==> x > 0.0
    ensures x / dt * dt == x
  {
    var q := x / dt;
    assert q * dt == x;
  }

  /** The first tick of a flood: a source that the first reading did not have counts in full. */
  lemma NewSourceCountsInFull(m0: Maps, t0: Instant, m1: Maps, t1: Instant, ip: Ipv4Addr)
    requires t0 < t1 && ip !in m0.syn && ip in m1.syn && Sum(m1.syn[ip]).packets > 0
    ensures var rate := SynRate(Reading(m0, t0), Reading(m1, t1), DtSecs(t0, t1).value, ip);
            rate.Some? && rate.value.metric * DtSecs(t0, t1).value == Sum(m1.syn[ip]).packets as real
  {
    hide Sum, DtSecs, SynRate;
    SynRateIff(m0, t0, m1, t1, ip);
  }

  /**
   The balance between two readings: growth is what was sent and was in flight before, less what
   still is and was lost.
   */
  lemma {:induction false} GrowthIsBalanced(run: seq<Step>, cpus: nat, k: nat, ip: Ipv4Addr)
    requires IsRun(run, cpus) && k <= |run| && IsRun(run[..k], cpus)
    ensures Tracked(After(run, cpus).maps, ip).packets - Tracked(After(run[..k], cpus).maps, ip).packets
            == SynTally(Frames(run), ip).packets - SynTally(Frames(run[..k]), ip).packets
               + InFlight(After(run[..k], cpus).cpus, ip).packets - InFlight(After(run, cpus).cpus, ip).packets
               - (Lost(run, cpus, ip).packets - Lost(run[..k], cpus, ip).packets)
  {
    hide Tracked, InFlight, Lost, SynTally, After, Frames;
    SynIsConserved(run, cpus, ip);
    SynIsConserved(run[..k], cpus, ip);
  }

  /** Nothing of the source was lost between the readings, and nothing was in flight at the second. */
  ghost predicate NothingMissing(run: seq<Step>, cpus: nat, k: nat, ip: Ipv4Addr)
    requires IsRun(run, cpus) && k <= |run| && IsRun(run[..k], cpus)
  {
    && Lost(run, cpus, ip).packets == Lost(run[..k], cpus, ip).packets
    && InFlight(After(run, cpus).cpus, ip).packets == 0
  }

  ghost function Sent(run: seq<Step>, k: nat, ip: Ipv4Addr): int
    requires k <= |run|
  {
    SynTally(Frames(run), ip).packets - SynTally(Frames(run[..k]), ip).packets
  }

  /** The SYN rates between two readings of one run of the kernel. */
  ghost function RateBetween(run: seq<Step>, cpus: nat, k: nat, earlier: Instant, now: Instant,
                             ip: Ipv4Addr): Option<Offender>
    requires IsRun(run, cpus) && k <= |run| && IsRun(run[..k], cpus) && earlier < now
  {
    SynRate(Reading(After(run[..k], cpus).maps, earlier), Reading(After(run, cpus).maps, now),
            DtSecs(earlier, now).value, ip)
  }

  /** A source that sent more SYNs than the limit allows is over the limit, unless something of it is missing. */
  lemma {:induction false} FloodIsOverLimit(run: seq<Step>, cpus: nat, k: nat, earlier: Instant, now: Instant,
                                            limit: real, ip: Ipv4Addr)
    requires IsRun(run, cpus) && k <= |run| && IsRun(run[..k], cpus) && earlier < now && limit >= 0.0
    requires NothingMissing(run, cpus, k, ip) && Sent(run, k, ip) as real > limit * DtSecs(earlier, now).value
    ensures var rate := RateBetween(run, cpus, k, earlier, now, ip);
            rate.Some? && rate.value.metric > limit && rate.value.srcIp == ip
  {
    hide Tracked, InFlight, Lost, SynTally, After, Frames, SynRate, DtSecs;
    var dt, m0, m1 := DtSecs(earlier, now).value, After(run[..k], cpus).maps, After(run, cpus).maps;
    GrowthIsBalanced(run, cpus, k, ip);
    SynRateIff(m0, earlier, m1, now, ip);
    assert Tracked(m1, ip).packets - Tracked(m0, ip).packets >= Sent(run, k, ip);
    LimitTimesIsPositive(limit, dt);
    assert Growth(m0, m1, ip) as real > limit * dt >= 0.0;
    hide *;
    OverLimit(RateBetween(run, cpus, k, earlier, now, ip).value.metric, limit, dt);
  }

  lemma LimitTimesIsPositive(limit: real, dt: real)
    requires limit >= 0.0 && dt > 0.0
    ensures limit * dt >= 0.0
  {}

  lemma OverLimit(metric: real, limit: real, dt: real)
    requires dt > 0.0 && metric * dt > limit * dt
    ensures metric > limit
  {
    if metric <= limit {
      ScaleKeepsOrder(metric, limit, dt);
    }
  }

  lemma ScaleKeepsOrder(a: real, b: real, dt: real)
    requires a <= b && dt > 0.0
    ensures a * dt <= b * dt
  {}

  /** And then it is signalled, or `n` others with signals of their own are at least as fast. */
  lemma {:induction false} FloodIsSeen(run: seq<Step>, cpus: nat, k: nat, earlier: Instant, now: Instant, limit: real,
                                       ip: Ipv4Addr, top: seq<Offender>, n: nat)
    requires IsRun(run, cpus) && k <= |run| && IsRun(run[..k], cpus) && earlier < now && limit >= 0.0
    requires NothingMissing(run, cpus, k, ip) && Sent(run, k, ip) as real > limit * DtSecs(earlier, now).value
    requires IsTop(top,
                   (ip: Ipv4Addr) => SynRate(Reading(After(run[..k], cpus).maps, earlier),
                                             Reading(After(run, cpus).maps, now),
                                             DtSecs(earlier, now).value, ip), n)
    ensures var rate := RateBetween(run, cpus, k, earlier, now, ip);
            && rate.Some?
            && (SignalFor(rate.value, limit) in Detect(top, limit)
                || CrowdedOut(top, ip, rate.value.metric, limit, n))
  {
    hide After, Detect, IsTop, SynRate, NothingMissing, SynTally, Frames, DtSecs;
    FloodIsOverLimit(run, cpus, k, earlier, now, limit, ip);
    var prev, curr := Reading(After(run[..k], cpus).maps, earlier), Reading(After(run, cpus).maps, now);
    var dt := DtSecs(earlier, now).value;
    MissedOnlyIfCrowdedOut(top, (ip: Ipv4Addr) => SynRate(prev, curr, dt, ip), limit, n,
                           RateBetween(run, cpus, k, earlier, now, ip).value);
  }
}
