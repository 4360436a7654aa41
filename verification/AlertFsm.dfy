/**
 The alert state machine that every manager runs: three phases, a hit counter,
 a quiet counter and the time of the last fire.
 */
module AlertFsm {
  import opened Prelude

  datatype Phase = Inactive | Pending | Firing

  datatype Lifecycle = Fired | Resolved

  /** Durations and thresholds that one slot is stepped with. */
  datatype Params = Params(cooldown: Duration, fireAfter: nat, resolveAfter: nat)

  /** The value held by one slot. */
  datatype Slot = Slot(phase: Phase, hits: nat, quiet: nat, lastFired: Option<Instant>)

  const FRESH := Slot(Inactive, 0, 0, None)

  datatype StepResult = StepResult(slot: Slot, event: Option<Lifecycle>)

  predicate CooldownPassed(lastFired: Option<Instant>, now: Instant, cooldown: Duration) {
    match lastFired
    case None => true
    case Some(t) => DurationSince(now, t) >= cooldown
  }

  /** Pending, Firing, or still cooling down. */
  predicate Hot(s: Slot, now: Instant, cooldown: Duration) {
    match s.phase
    case Pending | Firing => true
    case Inactive => !CooldownPassed(s.lastFired, now, cooldown)
  }

  /** One tick of the machine; the method `AlertState.Advance` is proved equal to it. */
  function Step(s: Slot, active: bool, now: Instant, p: Params): StepResult {
    match s.phase
    case Inactive =>
      if active then Count(s.(hits := 1), now, p) else StepResult(s, None)
    case Pending =>
      if active then Count(s.(hits := s.hits + 1), now, p)
      else StepResult(s.(phase := Inactive, hits := 0, quiet := 0), None)
    case Firing =>
      if active then StepResult(s.(quiet := 0), None)
      else if s.quiet + 1 >= p.resolveAfter then
        StepResult(s.(phase := Inactive, hits := 0, quiet := 0), Some(Resolved))
      else StepResult(s.(quiet := s.quiet + 1), None)
  }

  function Count(s: Slot, now: Instant, p: Params): StepResult {
    if s.hits >= p.fireAfter && CooldownPassed(s.lastFired, now, p.cooldown) then
      StepResult(s.(phase := Firing, lastFired := Some(now)), Some(Fired))
    else
      StepResult(s.(phase := Pending), None)
  }

  class AlertState {
    var phase: Phase
    var consecutiveCount: nat
    var resolveConsecutiveCount: nat
    var lastFired: Option<Instant>

    function View(): Slot
      reads this
    {
      Slot(phase, consecutiveCount, resolveConsecutiveCount, lastFired)
    }

    constructor ()
      ensures View() == FRESH
    {
      phase := Inactive;
      consecutiveCount := 0;
      resolveConsecutiveCount := 0;
      lastFired := None;
    }

    method Advance(signalActive: bool, now: Instant, p: Params) returns (event: Option<Lifecycle>)
      modifies this
      ensures StepResult(View(), event) == Step(old(View()), signalActive, now, p)
    {
      match phase
      case Inactive =>
        if signalActive {
          consecutiveCount := 1;
          var fired := TryFire(now, p);
          if fired {
            return Some(Fired);
          }
          phase := Pending;
        }
        event := None;
      case Pending =>
        if !signalActive {
          Reset();
          event := None;
        } else {
          consecutiveCount := consecutiveCount + 1;
          var fired := TryFire(now, p);
          event := if fired then Some(Fired) else None;
        }
      case Firing =>
        if signalActive {
          resolveConsecutiveCount := 0;
          event := None;
        } else {
          resolveConsecutiveCount := resolveConsecutiveCount + 1;
          if resolveConsecutiveCount >= p.resolveAfter {
            Reset();
            event := Some(Resolved);
          } else {
            event := None;
          }
        }
    }

    predicate IsHot(now: Instant, cooldown: Duration)
      reads this
    {
      Hot(View(), now, cooldown)
    }

    method TryFire(now: Instant, p: Params) returns (fired: bool)
      modifies `phase, `lastFired
      ensures fired <==> consecutiveCount >= p.fireAfter && CooldownPassed(old(lastFired), now, p.cooldown)
      ensures fired ==> phase == Firing && lastFired == Some(now)
      ensures !fired ==> phase == old(phase) && lastFired == old(lastFired)
    {
      if consecutiveCount >= p.fireAfter && CooldownPassed(lastFired, now, p.cooldown) {
        phase := Firing;
        lastFired := Some(now);
        fired := true;
      } else {
        fired := false;
      }
    }

    method Reset()
      modifies `phase, `consecutiveCount, `resolveConsecutiveCount
      ensures phase == Inactive && consecutiveCount == 0 && resolveConsecutiveCount == 0
    {
      phase := Inactive;
      consecutiveCount := 0;
      resolveConsecutiveCount := 0;
    }
  }

  /** What holds of every slot that `Step` can reach from `FRESH`. */
  predicate WellFormed(s: Slot, p: Params) {
    match s.phase
    case Inactive => s.hits == 0 && s.quiet == 0
    case Pending => s.hits >= 1 && s.quiet == 0
    case Firing => s.quiet < Max(1, p.resolveAfter) && s.lastFired.Some?
  }

  lemma StepKeepsWellFormed(s: Slot, active: bool, now: Instant, p: Params)
    requires WellFormed(s, p)
    ensures WellFormed(Step(s, active, now, p).slot, p)
  {}

  /** An older clock reading can only make a slot hotter. */
  lemma HotIsAntitone(s: Slot, older: Instant, newer: Instant, cooldown: Duration)
    requires older <= newer
    ensures Hot(s, newer, cooldown) ==> Hot(s, older, cooldown)
  {}

  /** The cooldown is over once that long has passed since the last fire; a cooldown of zero always is. */
  lemma CooldownPassedIff(lastFired: Option<Instant>, now: Instant, cooldown: Duration)
    ensures CooldownPassed(lastFired, now, cooldown) <==>
              lastFired.None? || cooldown == 0 || lastFired.value + cooldown <= now
  {}

  /** A slot is hot exactly while it is Pending or Firing, or has fired less than a cooldown ago. */
  lemma HotIff(s: Slot, now: Instant, cooldown: Duration)
    ensures Hot(s, now, cooldown) <==>
              s.phase != Inactive || (s.lastFired.Some? && cooldown > 0 && now < s.lastFired.value + cooldown)
  {}
}
