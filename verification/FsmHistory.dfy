/**
 What a slot does, told by its history alone. `Log` replays the counters of
 `AlertFsm.Step`; `ReferenceLog` never mentions a phase or a counter, only
 how long the signal has been present or absent and what was emitted before.
 */
module FsmHistory {
  import opened Prelude
  import opened AlertFsm

  datatype Tick = Tick(active: bool, now: Instant)

  type EventLog = seq<Option<Lifecycle>>

  function Replay(h: seq<Tick>, p: Params): Slot {
    if h == [] then FRESH
    else Step(Replay(h[..|h| - 1], p), h[|h| - 1].active, h[|h| - 1].now, p).slot
  }

  /** The event that the slot emits at tick `i`. */
  function EventAt(h: seq<Tick>, i: nat, p: Params): Option<Lifecycle>
    requires i < |h|
  {
    Step(Replay(h[..i], p), h[i].active, h[i].now, p).event
  }

  function Log(h: seq<Tick>, p: Params): EventLog {
    seq(|h|, i requires 0 <= i < |h| => EventAt(h, i, p))
  }

  // ---- The reference: streaks and past events only ----

  /** How many ticks of the given activity end the history. */
  function Streak(h: seq<Tick>, active: bool): nat {
    if h == [] || h[|h| - 1].active != active then 0
    else 1 + Streak(h[..|h| - 1], active)
  }

  /** The most recent event is a fire. */
  function Open(log: EventLog): bool {
    if log == [] then false
    else if log[|log| - 1].Some? then log[|log| - 1].value == Fired
    else Open(log[..|log| - 1])
  }

  /** When the alert last fired. */
  function LastFire(h: seq<Tick>, log: EventLog): Option<Instant>
    requires |log| <= |h|
  {
    if log == [] then None
    else if log[|log| - 1] == Some(Fired) then Some(h[|log| - 1].now)
    else LastFire(h, log[..|log| - 1])
  }

  /** How long the signal had lasted when the alert last fired. */
  function StreakAtFire(h: seq<Tick>, log: EventLog): nat
    requires |log| <= |h|
  {
    if log == [] then 0
    else if log[|log| - 1] == Some(Fired) then Streak(h[..|log|], true)
    else StreakAtFire(h, log[..|log| - 1])
  }

  /** The event that must follow `log`, given the history up to and including this tick. */
  function Expected(h: seq<Tick>, log: EventLog, p: Params): Option<Lifecycle>
    requires |h| == |log| + 1
  {
    if !Open(log)
       && Streak(h, true) >= Max(1, p.fireAfter)
       && CooldownPassed(LastFire(h, log), h[|log|].now, p.cooldown)
    then Some(Fired)
    else if Open(log) && Streak(h, false) >= Max(1, p.resolveAfter)
    then Some(Resolved)
    else None
  }

  function ReferenceLog(h: seq<Tick>, p: Params): (log: EventLog)
    ensures |log| == |h|
  {
    if h == [] then []
    else
      var log := ReferenceLog(h[..|h| - 1], p);
      log + [Expected(h, log, p)]
  }

  // ---- The two agree ----

  lemma LogExtends(h: seq<Tick>, p: Params)
    requires h != []
    ensures Log(h, p) == Log(h[..|h| - 1], p) + [EventAt(h, |h| - 1, p)]
  {
    var g := h[..|h| - 1];
    forall i | 0 <= i < |g| ensures EventAt(h, i, p) == EventAt(g, i, p) {
      assert g[..i] == h[..i];
    }
  }

  lemma {:induction false} LastFireFrame(h: seq<Tick>, g: seq<Tick>, log: EventLog)
    requires |log| <= |g| && g <= h
    ensures LastFire(h, log) == LastFire(g, log)
    ensures StreakAtFire(h, log) == StreakAtFire(g, log)
  {
    hide Streak;
    if log == [] {
    } else {
      assert h[..|log|] == g[..|log|];
      LastFireFrame(h, g, log[..|log| - 1]);
    }
  }

  /** Every counter of the slot is a function of the history. */
  lemma {:induction false} CountersTellHistory(h: seq<Tick>, p: Params)
    ensures Log(h, p) == ReferenceLog(h, p)
    ensures var s := Replay(h, p);
            && WellFormed(s, p)
            && (s.phase == Firing <==> Open(Log(h, p)))
            && s.lastFired == LastFire(h, Log(h, p))
            && s.hits == (if s.phase == Firing then StreakAtFire(h, Log(h, p)) else Streak(h, true))
            && (s.phase == Firing ==> s.quiet == Streak(h, false))
  {
    hide EventAt;
    if h == [] {
    } else {
      var n := |h| - 1;
      var g := h[..n];
      CountersTellHistory(g, p);
      LogExtends(h, p);
      assert EventAt(h, n, p) == Step(Replay(g, p), h[n].active, h[n].now, p).event by { EventAtIs(h, p); }
      LastFireFrame(h, g, Log(g, p));
      OneMoreTick(h, Log(g, p), EventAt(h, n, p));
    }
  }

  lemma EventAtIs(h: seq<Tick>, p: Params)
    requires h != []
    ensures EventAt(h, |h| - 1, p) == Step(Replay(h[..|h| - 1], p), h[|h| - 1].active, h[|h| - 1].now, p).event
  {}

  /** How the history functions grow by one tick. */
  lemma {:induction false} OneMoreTick(h: seq<Tick>, log: EventLog, event: Option<Lifecycle>)
    requires |h| == |log| + 1
    ensures Open(log + [event]) == if event.Some? then event == Some(Fired) else Open(log)
    ensures LastFire(h, log + [event]) == if event == Some(Fired) then Some(h[|log|].now) else LastFire(h, log)
    ensures StreakAtFire(h, log + [event]) == if event == Some(Fired) then Streak(h, true) else StreakAtFire(h, log)
  {
    assert h[..|h|] == h;
    assert (log + [event])[..|log|] == log;
  }

  /** The counter machine emits exactly the reference log, on every history. */
  lemma {:induction false} HistoryCharacterisation(h: seq<Tick>, p: Params)
    ensures Log(h, p) == ReferenceLog(h, p)
  {
    CountersTellHistory(h, p);
  }

  // ---- Consequences ----

  /** When a tick happened. */
  function TimeOf(t: Tick): Instant {
    t.now
  }

  lemma {:induction false} OpenMeansFiredLast(log: EventLog) returns (f: nat)
    requires Open(log)
    ensures f < |log| && log[f] == Some(Fired)
    ensures forall k :: f < k < |log| ==> log[k] == None
  {
    var n := |log| - 1;
    if log[n].Some? {
      f := n;
    } else {
      f := OpenMeansFiredLast(log[..n]);
    }
  }

  lemma {:induction false} ClosedAfterFire(log: EventLog, i: nat)
    requires i < |log| && log[i] == Some(Fired) && !Open(log)
    ensures exists k :: i < k < |log| && log[k] == Some(Resolved)
  {
    var n := |log| - 1;
    if log[n] == Some(Resolved) {
      assert i < n;
    } else {
      ClosedAfterFire(log[..n], i);
      var k :| i < k < n && log[..n][k] == Some(Resolved);
      assert log[k] == Some(Resolved);
    }
  }

  lemma LogPrefix(h: seq<Tick>, n: nat, p: Params)
    requires n <= |h|
    ensures Log(h[..n], p) == Log(h, p)[..n]
  {
    forall i | 0 <= i < n ensures EventAt(h[..n], i, p) == EventAt(h, i, p) {
      assert h[..n][..i] == h[..i];
    }
  }

  /** Two fires always have a resolve between them. */
  lemma FiresNeedResolveBetween(h: seq<Tick>, p: Params, i: nat, j: nat)
    requires i < j < |h|
    requires EventAt(h, i, p) == Some(Fired) && EventAt(h, j, p) == Some(Fired)
    ensures exists k :: i < k < j && Log(h, p)[k] == Some(Resolved)
  {
    var before := Log(h[..j], p);
    LogPrefix(h, j, p);
    CountersTellHistory(h[..j], p);
    assert before[i] == Log(h, p)[i];
    ClosedAfterFire(before, i);
    var k :| i < k < |before| && before[k] == Some(Resolved);
    assert Log(h, p)[k] == Some(Resolved);
  }

  /** A resolve closes a fire, and nothing is emitted between the two. */
  lemma ResolveClosesFire(h: seq<Tick>, p: Params, j: nat) returns (f: nat)
    requires j < |h| && EventAt(h, j, p) == Some(Resolved)
    ensures f < j && EventAt(h, f, p) == Some(Fired)
    ensures forall k :: f < k < j ==> EventAt(h, k, p) == None
  {
    var before := Log(h[..j], p);
    LogPrefix(h, j, p);
    CountersTellHistory(h[..j], p);
    f := OpenMeansFiredLast(before);
    assert before[f] == Log(h, p)[f];
    forall k | f < k < j ensures EventAt(h, k, p) == None {
      assert before[k] == Log(h, p)[k];
    }
  }

  lemma {:induction false} LastFireIsLatest(h: seq<Tick>, log: EventLog, i: nat)
    requires |log| <= |h| && Monotone(Times(h, TimeOf))
    requires i < |log| && log[i] == Some(Fired)
    ensures LastFire(h, log).Some? && h[i].now <= LastFire(h, log).value
  {
    var n := |log| - 1;
    if log[n] == Some(Fired) {
      assert Times(h, TimeOf)[i] <= Times(h, TimeOf)[n];
    } else {
      LastFireIsLatest(h, log[..n], i);
    }
  }

  /** Any two fires of one slot are at least a cooldown apart. */
  lemma FiresAreCooldownApart(h: seq<Tick>, p: Params, i: nat, j: nat)
    requires Monotone(Times(h, TimeOf)) && i < j < |h|
    requires EventAt(h, i, p) == Some(Fired) && EventAt(h, j, p) == Some(Fired)
    ensures h[i].now + p.cooldown <= h[j].now
  {
    hide Streak, ReferenceLog, Open;
    var log := Log(h[..j], p);
    LogPrefix(h, j, p);
    CountersTellHistory(h[..j], p);
    assert log[i] == Some(Fired);
    LastFireIsLatest(h[..j], log, i);
    LastFireFrame(h, h[..j], log);
  }

  /** The last fire lies before the whole current active streak, with a quiet tick between. */
  lemma {:induction false} FireBeforeStreak(h: seq<Tick>, p: Params) returns (f: nat)
    requires Replay(h, p).phase != Firing && Replay(h, p).lastFired.Some?
    ensures Streak(h, true) + f + 1 < |h|
    ensures h[f].now == Replay(h, p).lastFired.value
  {
    var g := h[..|h| - 1];
    if Replay(g, p).phase == Firing {
      f := FiringSince(g, p);
    } else {
      f := FireBeforeStreak(g, p);
    }
  }

  lemma {:induction false} FiringSince(h: seq<Tick>, p: Params) returns (f: nat)
    requires Replay(h, p).phase == Firing
    ensures f < |h| && Replay(h, p).lastFired == Some(h[f].now)
  {
    var g := h[..|h| - 1];
    if Replay(g, p).phase == Firing {
      f := FiringSince(g, p);
    } else {
      f := |g|;
    }
  }

  /** A slot that is still Pending is short of its threshold or short of its cooldown. */
  lemma {:induction false} PendingIsHeldBack(h: seq<Tick>, p: Params)
    requires h != [] && Replay(h, p).phase == Pending
    ensures Replay(h, p).hits < p.fireAfter
            || !CooldownPassed(Replay(h, p).lastFired, h[|h| - 1].now, p.cooldown)
  {}

  /**
   With ticks at least `d` apart, the hit counter of a slot that is waiting to
   fire stays under its threshold or under the number of ticks that a cooldown
   can hold. A u32 counter therefore never wraps under such settings.
   */
  lemma {:induction false} PendingCountIsBounded(h: seq<Tick>, p: Params, d: nat)
    requires Spaced(Times(h, TimeOf), d) && Replay(h, p).phase == Pending
    ensures Replay(h, p).hits < p.fireAfter || (Replay(h, p).hits + 1) * d < p.cooldown
  {
    hide Streak, Log, ReferenceLog, Open, LastFire, Spaced, Times;
    var s := Replay(h, p);
    if s.hits >= p.fireAfter {
      PendingIsHeldBack(h, p);
      var f := FireBeforeStreak(h, p);
      CountersTellHistory(h, p);
      SpacedGap(Times(h, TimeOf), d, f, |h| - 1);
      MulMonotone(s.hits + 1, |h| - 1 - f, d);
    }
  }

  lemma MulMonotone(a: nat, b: nat, d: nat)
    requires a <= b
    ensures a * d <= b * d
  {}

  /** Neither counter can leave 32 bits when ticks are spaced and the settings fit. */
  lemma {:induction false} CountersFitU32(h: seq<Tick>, p: Params, d: nat)
    requires Spaced(Times(h, TimeOf), d) && d > 0
    requires p.fireAfter < 0x1_0000_0000 && p.resolveAfter < 0x1_0000_0000
    requires p.cooldown <= 0xFFFF_FFFF * d
    ensures Replay(h, p).hits < 0x1_0000_0000 && Replay(h, p).quiet < 0x1_0000_0000
  {
    CountersTellHistory(h, p);
    FiringHitsBounded(h, p, d);
  }

  lemma {:induction false} FiringHitsBounded(h: seq<Tick>, p: Params, d: nat)
    requires Spaced(Times(h, TimeOf), d) && d > 0
    requires p.fireAfter < 0x1_0000_0000
    requires p.cooldown <= 0xFFFF_FFFF * d
    ensures Replay(h, p).hits < 0x1_0000_0000
    ensures Replay(h, p).phase == Pending ==> Replay(h, p).hits < 0xFFFF_FFFF
  {
    if h == [] {
    } else {
      var g := h[..|h| - 1];
      FiringHitsBounded(g, p, d);
      CountersTellHistory(g, p);
      if Replay(h, p).phase == Pending {
        PendingCountIsBounded(h, p, d);
        if Replay(h, p).hits + 1 >= 0xFFFF_FFFF {
          MulMonotone(0xFFFF_FFFF, Replay(h, p).hits + 1, d);
        }
      }
    }
  }
}
