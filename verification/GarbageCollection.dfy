/**
 Garbage collection in the per-IP manager cannot be observed, and it bounds
 memory: two facts about whole runs, for any churn of source addresses.
 */
module GarbageCollection {
  import opened Prelude
  import opened AlertFsm
  import opened StateTable
  import opened IpManager

  datatype TickInput = TickInput(signals: seq<Signal>, now: Instant)

  /** When a tick happened. */
  function TimeOf(input: TickInput): Instant {
    input.now
  }

  /** The manager as it is: cold entries are dropped after every tick. */
  function Collected(run: seq<TickInput>, p: Params): Slots {
    if run == [] then map[]
    else
      var last := run[|run| - 1];
      Next(Collected(run[..|run| - 1], p), ActiveMap(last.signals), last.now, p)
  }

  /** The same manager without garbage collection. */
  function Kept(run: seq<TickInput>, p: Params): Slots {
    if run == [] then map[]
    else
      var last := run[|run| - 1];
      NextKept(Kept(run[..|run| - 1], p), ActiveMap(last.signals), last.now, p)
  }

  // ---- The bisimulation ----

  /** Equal up to the time of a fire whose cooldown is over. */
  predicate Alike(a: Slot, b: Slot, now: Instant, cooldown: Duration) {
    && a.phase == b.phase && a.hits == b.hits && a.quiet == b.quiet
    && (a.lastFired == b.lastFired
        || (CooldownPassed(a.lastFired, now, cooldown) && CooldownPassed(b.lastFired, now, cooldown)))
  }

  lemma StepsAlike(a: Slot, b: Slot, active: bool, before: Instant, now: Instant, p: Params)
    requires before <= now && Alike(a, b, before, p.cooldown)
    ensures Step(a, active, now, p).event == Step(b, active, now, p).event
    ensures Alike(Step(a, active, now, p).slot, Step(b, active, now, p).slot, now, p.cooldown)
  {}

  /** A well-formed slot that is not hot behaves like a fresh one from here on. */
  lemma ColdIsFresh(s: Slot, now: Instant, p: Params)
    requires WellFormed(s, p) && !Hot(s, now, p.cooldown)
    ensures Alike(FRESH, s, now, p.cooldown)
  {}

  ghost predicate Bisimilar(collected: Slots, kept: Slots, now: Instant, p: Params) {
    forall ip :: Alike(SlotOf(collected, ip), SlotOf(kept, ip), now, p.cooldown) && WellFormed(SlotOf(collected, ip), p)
  }

  lemma NextIsBisimilar(collected: Slots, kept: Slots, active: Active, before: Instant, now: Instant, p: Params)
    requires before <= now && Bisimilar(collected, kept, before, p)
    ensures Bisimilar(Next(collected, active, now, p), NextKept(kept, active, now, p), now, p)
  {
    forall ip
      ensures Alike(SlotOf(Next(collected, active, now, p), ip), SlotOf(NextKept(kept, active, now, p), ip), now,
                    p.cooldown)
      ensures WellFormed(SlotOf(Next(collected, active, now, p), ip), p)
    {
      var a, b := SlotOf(collected, ip), SlotOf(kept, ip);
      StepsAlike(a, b, ip in active, before, now, p);
      StepKeepsWellFormed(a, ip in active, now, p);
      if !Hot(SlotAfter(collected, active, now, p, ip), now, p.cooldown) {
        ColdIsFresh(SlotAfter(collected, active, now, p, ip), now, p);
      }
    }
  }

  lemma {:induction false} RunsAreBisimilar(run: seq<TickInput>, p: Params)
    requires Monotone(Times(run, TimeOf))
    ensures Bisimilar(Collected(run, p), Kept(run, p), if run == [] then 0 else run[|run| - 1].now, p)
  {
    if run == [] {
    } else {
      var g, last := run[..|run| - 1], run[|run| - 1];
      RunsAreBisimilar(g, p);
      NextIsBisimilar(Collected(g, p), Kept(g, p), ActiveMap(last.signals), if g == [] then 0 else g[|g| - 1].now,
                      last.now, p);
    }
  }

  /**
   After any run and for whatever comes next, every IP gets from the
   collecting manager exactly the event and the heartbeat that a manager which
   never forgets would give it.
   */
  lemma {:induction false} GarbageCollectionIsInvisible(run: seq<TickInput>, next: TickInput, p: Params, ip: Ipv4Addr)
    requires Monotone(Times(run + [next], TimeOf))
    ensures var active := ActiveMap(next.signals);
            && EventFor(Collected(run, p), active, next.now, p, ip) == EventFor(Kept(run, p), active, next.now, p, ip)
            && HeartbeatFor(Collected(run, p), active, next.now, p, ip)
               == HeartbeatFor(Kept(run, p), active, next.now, p, ip)
  {
    var all := run + [next];
    assert Monotone(Times(run, TimeOf)) by {
      forall i, j | 0 <= i <= j < |run| ensures run[i].now <= run[j].now {
        assert Times(all, TimeOf)[i] <= Times(all, TimeOf)[j];
      }
    }
    RunsAreBisimilar(run, p);
    var before := if run == [] then 0 else run[|run| - 1].now;
    if run != [] {
      assert Times(all, TimeOf)[|run| - 1] <= Times(all, TimeOf)[|run|];
    }
    StepsAlike(SlotOf(Collected(run, p), ip), SlotOf(Kept(run, p), ip), ip in ActiveMap(next.signals),
               before, next.now, p);
  }

  /** A Firing entry is never collected. */
  lemma FiringSurvives(slots: Slots, active: Active, now: Instant, p: Params, ip: Ipv4Addr)
    ensures SlotAfter(slots, active, now, p, ip).phase == Firing
            <==> SlotOf(Next(slots, active, now, p), ip).phase == Firing
  {}

  // ---- The memory bound ----

  predicate Signalled(input: TickInput, ip: Ipv4Addr) {
    ip in ActiveMap(input.signals)
  }

  /** The IP was signalled at tick `j`, recently enough that an entry may be left at the end of the run. */
  ghost predicate Accounts(run: seq<TickInput>, p: Params, ip: Ipv4Addr, j: int) {
    && 0 <= j < |run| && Signalled(run[j], ip)
    && (|run| - 1 - j < Max(1, p.resolveAfter) || run[|run| - 1].now - run[j].now < p.cooldown)
  }

  /** `j` is the tick of the last signal and `f` a signalled tick that carries the time of the last fire, if any. */
  ghost predicate Explains(run: seq<TickInput>, p: Params, s: Slot, ip: Ipv4Addr, j: nat, f: nat) {
    && j < |run| && f < |run| && Signalled(run[j], ip) && Signalled(run[f], ip)
    && WellFormed(s, p)
    && (s.phase == Pending ==> j == |run| - 1)
    && (s.phase == Firing ==> j + s.quiet == |run| - 1)
    && (s.lastFired.Some? ==> s.lastFired.value == run[f].now)
  }

  lemma ExplainsNext(g: seq<TickInput>, last: TickInput, p: Params, s: Slot, ip: Ipv4Addr, j: nat, f: nat)
    returns (j': nat, f': nat)
    requires Explains(g, p, s, ip, j, f)
    ensures Explains(g + [last], p, Step(s, Signalled(last, ip), last.now, p).slot, ip, j', f')
  {
    StepKeepsWellFormed(s, Signalled(last, ip), last.now, p);
    j' := if Signalled(last, ip) then |g| else j;
    f' := if Step(s, Signalled(last, ip), last.now, p).event == Some(Fired) then |g| else f;
  }

  lemma {:induction false} TrackedSince(run: seq<TickInput>, p: Params, ip: Ipv4Addr) returns (j: nat, f: nat)
    requires ip in Collected(run, p)
    ensures Explains(run, p, Collected(run, p)[ip], ip, j, f)
  {
    var n := |run| - 1;
    var g, last := run[..n], run[n];
    assert run == g + [last];
    if ip in Collected(g, p) {
      j, f := TrackedSince(g, p, ip);
      j, f := ExplainsNext(g, last, p, Collected(g, p)[ip], ip, j, f);
    } else {
      j, f := n, n;
    }
  }

  /** Every tracked IP was signalled recently: within the resolve threshold, or within a cooldown. */
  lemma {:induction false} TrackedWasSignalled(run: seq<TickInput>, p: Params, ip: Ipv4Addr)
    requires ip in Collected(run, p)
    ensures exists j :: Accounts(run, p, ip, j)
  {
    var j, f := TrackedSince(run, p, ip);
    var s := Collected(run, p)[ip];
    if s.phase == Inactive && !Signalled(run[|run| - 1], ip) {
      assert Accounts(run, p, ip, f);
    } else if s.phase == Inactive {
      assert Accounts(run, p, ip, |run| - 1);
    } else {
      assert Accounts(run, p, ip, j);
    }
  }

  /** How many ticks back an entry can reach: `ceil(cooldown / d)`, but at least the resolve threshold. */
  function Horizon(p: Params, d: nat): nat
    requires d > 0
  {
    Max(Max(1, p.resolveAfter), (p.cooldown + d - 1) / d)
  }

  lemma MulCancels(a: nat, b: nat, d: nat)
    requires a * d < b * d
    ensures a < b
  {}

  lemma CeilingCovers(gap: nat, cooldown: nat, d: nat)
    requires d > 0 && gap * d < cooldown
    ensures gap < (cooldown + d - 1) / d
  {
    var q := (cooldown + d - 1) / d;
    assert (gap + 1) * d < (q + 1) * d;
    MulCancels(gap + 1, q + 1, d);
  }

  /** All IPs signalled in the last `k` ticks of the run. */
  function Recent(run: seq<TickInput>, k: nat): set<Ipv4Addr> {
    if run == [] || k == 0 then {}
    else Recent(run[..|run| - 1], k - 1) + ActiveMap(run[|run| - 1].signals).Keys
  }

  lemma {:induction false} RecentHas(run: seq<TickInput>, k: nat, j: nat, ip: Ipv4Addr)
    requires j < |run| && |run| - 1 - j < k && Signalled(run[j], ip)
    ensures ip in Recent(run, k)
  {
    if j == |run| - 1 {
      assert ip in ActiveMap(run[j].signals);
    } else {
      RecentHas(run[..|run| - 1], k - 1, j, ip);
    }
  }

  lemma {:induction false} ActiveIsSmall(signals: seq<Signal>)
    ensures |ActiveMap(signals)| <= |signals|
  {
    if signals == [] {
    } else {
      var n := |signals| - 1;
      ActiveIsSmall(signals[..n]);
      assert ActiveMap(signals).Keys == ActiveMap(signals[..n]).Keys + {signals[n].srcIp};
      UnionIsSmall(ActiveMap(signals[..n]).Keys, {signals[n].srcIp});
    }
  }

  lemma UnionIsSmall<T>(a: set<T>, b: set<T>)
    ensures |a + b| <= |a| + |b|
  {
    assert |a + b| == |a| + |b - a| && |b - a| + |b * a| == |b| by {
      assert a + b == a + (b - a) && (b - a) + (b * a) == b;
    }
  }

  lemma {:induction false} RecentIsSmall(run: seq<TickInput>, k: nat, n: nat)
    requires forall i :: 0 <= i < |run| ==> |run[i].signals| <= n
    ensures |Recent(run, k)| <= n * k
  {
    hide ActiveMap, Recent;
    RecentStep(run, k);
    if run != [] && k > 0 {
      var m := |run| - 1;
      RecentIsSmall(run[..m], k - 1, n);
      assert |run[m].signals| <= n;
      OneMoreTick(n, k);
    } else {
      NoTicks(n, k);
    }
  }

  lemma RecentStep(run: seq<TickInput>, k: nat)
    ensures if run == [] || k == 0 then Recent(run, k) == {}
            else |Recent(run, k)| <= |Recent(run[..|run| - 1], k - 1)| + |run[|run| - 1].signals|
  {
    hide ActiveMap;
    if run != [] && k > 0 {
      var before, last := Recent(run[..|run| - 1], k - 1), run[|run| - 1].signals;
      ActiveIsSmall(last);
      UnionIsSmall(before, ActiveMap(last).Keys);
    }
  }

  lemma NoTicks(n: nat, k: nat)
    ensures 0 <= n * k
  {}

  lemma OneMoreTick(n: nat, k: nat)
    requires k > 0
    ensures n * k == n * (k - 1) + n
  {}

  lemma SubsetIsSmaller<T>(a: set<T>, b: set<T>)
    requires a <= b
    ensures |a| <= |b|
  {
    assert b == a + (b - a);
  }

  lemma {:induction false} TrackedIsRecent(run: seq<TickInput>, p: Params, d: nat, ip: Ipv4Addr)
    requires Spaced(Times(run, TimeOf), d) && d > 0 && ip in Collected(run, p)
    ensures ip in Recent(run, Horizon(p, d))
  {
    hide Collected, Recent, Spaced;
    TrackedWasSignalled(run, p, ip);
    var j :| Accounts(run, p, ip, j);
    if |run| - 1 - j >= Max(1, p.resolveAfter) {
      SpacedGap(Times(run, TimeOf), d, j, |run| - 1);
      CeilingCovers(|run| - 1 - j, p.cooldown, d);
    }
    RecentHas(run, Horizon(p, d), j, ip);
  }

  /**
   With at most `n` signals a tick and ticks at least `d` apart, the manager
   never tracks more than `n` entries for each tick of its horizon, no matter
   how many different addresses the run has seen.
   */
  lemma {:induction false} MemoryIsBounded(run: seq<TickInput>, p: Params, n: nat, d: nat)
    requires Spaced(Times(run, TimeOf), d) && d > 0
    requires forall i :: 0 <= i < |run| ==> |run[i].signals| <= n
    ensures |Collected(run, p)| <= n * Horizon(p, d)
  {
    hide Collected, Recent, Horizon, Spaced;
    var k := Horizon(p, d);
    forall ip | ip in Collected(run, p) ensures ip in Recent(run, k) {
      TrackedIsRecent(run, p, d, ip);
    }
    SubsetIsSmaller(Collected(run, p).Keys, Recent(run, k));
    RecentIsSmall(run, k, n);
  }
}
