/**
 What becomes of a receiver that missed a message: which ticks put it right
 about an alert whatever it believed, and the loss that nothing ever repairs.
 */
module LossRepair {
  import opened Prelude
  import opened AlertFsm
  import opened Wire
  import opened Dispatcher
  import opened Delivery
  import Ip = IpManager

  /** After these messages the receiver is right about the alert, whatever it believed before. */
  ghost predicate PutsRight(ms: seq<AlertmanagerAlert>, id: AlertId, firing: bool) {
    forall open: set<Labels> :: LabelsOf(id) in ReceivedAll(open, ms) <==> firing
  }

  /** Only messages that say something about the alert can put every receiver right. */
  lemma {:induction false} PutsRightIffSaid(ms: seq<AlertmanagerAlert>, id: AlertId, firing: bool)
    ensures PutsRight(ms, id, firing) <==> Verdict(ms, LabelsOf(id)) == Some(firing)
  {
    hide LabelsOf, ReceivedAll;
    var l := LabelsOf(id);
    if Verdict(ms, l) == Some(firing) {
      forall open: set<Labels> ensures l in ReceivedAll(open, ms) <==> firing {
        VerdictDecides(open, ms, l);
      }
    } else {
      VerdictDecides({}, ms, l);
      VerdictDecides({l}, ms, l);
      assert !(l in ReceivedAll({}, ms) <==> firing) || !(l in ReceivedAll({l}, ms) <==> firing);
    }
  }

  /** The alert is re-affirmed, or it resolves at this very tick. */
  predicate Speaks(s: System, t: Tick, setup: Setup, id: AlertId) {
    || (Signalled(t, setup, id) && IsFiring(AfterTick(s, t, setup), id))
    || (IsFiring(s, id) && !IsFiring(AfterTick(s, t, setup), id))
  }

  lemma TickSpeaks(s: System, t: Tick, setup: Setup, id: AlertId)
    requires Follows(s, t, setup)
    ensures var verdict := Verdict(MessagesOf(t, setup), LabelsOf(id));
            && (verdict.Some? <==> Speaks(s, t, setup, id))
            && (IsFiring(AfterTick(s, t, setup), id) <==> Decide(verdict, IsFiring(s, id)))
  {
    hide LabelsOf, MessagesOf, AfterTick, IsFiring, Signalled, Follows;
    TickTells(s, t, setup, id);
  }

  /**
   A tick repairs every loss about an alert if and only if the alert is
   signalled and Firing after it, or leaves Firing at it. An alert that is
   Firing but quiet, or that is not Firing on both sides, is left as it was.
   */
  lemma TickRepairsIff(s: System, t: Tick, setup: Setup, id: AlertId)
    requires Follows(s, t, setup)
    ensures PutsRight(MessagesOf(t, setup), id, IsFiring(AfterTick(s, t, setup), id)) <==> Speaks(s, t, setup, id)
  {
    hide LabelsOf, MessagesOf, AfterTick, IsFiring, Speaks, Follows, PutsRight;
    TickSpeaks(s, t, setup, id);
    PutsRightIffSaid(MessagesOf(t, setup), id, IsFiring(AfterTick(s, t, setup), id));
  }

  /** In particular a lost fire is repaired by the next heartbeat, which comes while the signal lasts. */
  lemma {:induction false} HeartbeatHeals(open: set<Labels>, s: System, t: Tick, setup: Setup, id: AlertId)
    requires Follows(s, t, setup) && Signalled(t, setup, id) && IsFiring(AfterTick(s, t, setup), id)
    ensures LabelsOf(id) in ReceivedAll(open, MessagesOf(t, setup))
  {
    hide LabelsOf, MessagesOf, AfterTick, IsFiring, Signalled, Follows, ReceivedAll;
    TickRepairsIff(s, t, setup, id);
  }

  // ---- Whole runs, from any state ----

  function From(s: System, run: seq<Tick>, setup: Setup): System {
    if run == [] then s else AfterTick(From(s, run[..|run| - 1], setup), run[|run| - 1], setup)
  }

  ghost predicate Runs(s: System, run: seq<Tick>, setup: Setup) {
    run == [] || (Runs(s, run[..|run| - 1], setup) && Follows(From(s, run[..|run| - 1], setup), run[|run| - 1], setup))
  }

  /** Some tick of the run speaks about the alert. */
  predicate SpeaksIn(s: System, run: seq<Tick>, setup: Setup, id: AlertId) {
    run != []
      && (SpeaksIn(s, run[..|run| - 1], setup, id)
          || Speaks(From(s, run[..|run| - 1], setup), run[|run| - 1], setup, id))
  }

  lemma {:induction false} RunSpeaks(s: System, run: seq<Tick>, setup: Setup, id: AlertId)
    requires Runs(s, run, setup)
    ensures var verdict := Verdict(AllMessages(run, setup), LabelsOf(id));
            && (verdict.Some? <==> SpeaksIn(s, run, setup, id))
            && (IsFiring(From(s, run, setup), id) <==> Decide(verdict, IsFiring(s, id)))
  {
    hide LabelsOf, MessagesOf, AfterTick, IsFiring, Speaks, Follows;
    if run == [] {
      assert AllMessages(run, setup) == [];
    } else {
      var n := |run| - 1;
      RunSpeaks(s, run[..n], setup, id);
      TickSpeaks(From(s, run[..n], setup), run[n], setup, id);
      VerdictConcat(AllMessages(run[..n], setup), MessagesOf(run[n], setup), LabelsOf(id));
    }
  }

  /** A run repairs every loss about an alert if and only if one of its ticks speaks about it. */
  lemma {:induction false} RunRepairsIff(s: System, run: seq<Tick>, setup: Setup, id: AlertId)
    requires Runs(s, run, setup)
    ensures PutsRight(AllMessages(run, setup), id, IsFiring(From(s, run, setup), id)) <==> SpeaksIn(s, run, setup, id)
  {
    hide *;
    RunSpeaks(s, run, setup, id);
    PutsRightIffSaid(AllMessages(run, setup), id, IsFiring(From(s, run, setup), id));
    DecideIs(Verdict(AllMessages(run, setup), LabelsOf(id)), IsFiring(s, id));
  }

  lemma DecideIs(verdict: Option<bool>, before: bool)
    ensures verdict.Some? ==> Decide(verdict, before) == verdict.value
  {}

  ghost predicate NeverFiring(s: System, run: seq<Tick>, setup: Setup, id: AlertId) {
    forall n :: 0 <= n <= |run| ==> !IsFiring(From(s, run[..n], setup), id)
  }

  lemma {:induction false} NeverFiringIsSilent(s: System, run: seq<Tick>, setup: Setup, id: AlertId)
    requires NeverFiring(s, run, setup, id)
    ensures !SpeaksIn(s, run, setup, id)
  {
    hide AfterTick, IsFiring, Signalled;
    if run == [] {
    } else {
      var n := |run| - 1;
      forall m | 0 <= m <= n ensures !IsFiring(From(s, run[..n][..m], setup), id) {
        assert run[..n][..m] == run[..m];
      }
      NeverFiringIsSilent(s, run[..n], setup, id);
      assert run[..n + 1] == run;
    }
  }

  /**
   A resolve that got lost stays lost: over any run in which the alert does not
   fire again, signalled or not, the receiver believes what it believed before.
   */
  lemma {:induction false} LostResolveStays(open: set<Labels>, s: System, run: seq<Tick>, setup: Setup, id: AlertId)
    requires Runs(s, run, setup) && NeverFiring(s, run, setup, id)
    ensures LabelsOf(id) in ReceivedAll(open, AllMessages(run, setup)) <==> LabelsOf(id) in open
  {
    hide LabelsOf, AllMessages, ReceivedAll, Runs, NeverFiring, SpeaksIn;
    NeverFiringIsSilent(s, run, setup, id);
    RunSpeaks(s, run, setup, id);
    VerdictDecides(open, AllMessages(run, setup), LabelsOf(id));
  }

  // ---- A loss that happens ----

  /** One source that fires at the first signal and resolves at the first quiet tick. */
  const ATTACKER: Ipv4Addr := 0x0A00_0001
  const SIGNAL := Ip.Signal(ATTACKER, 200.0, 1.0)
  const EAGER := Setup([], Params(0, 1, 1), Params(0, 1, 1), None)
  const FIRE := SynFloodTick([SIGNAL], 0, 0, [Ip.Event(Ip.FromSignal(ATTACKER, Some(SIGNAL)), Fired)], [])
  const BEAT := SynFloodTick([SIGNAL], 0, 0, [], [Ip.FromSignal(ATTACKER, Some(SIGNAL))])
  const RESOLVE := SynFloodTick([], 0, 0, [Ip.Event(Ip.FromSignal(ATTACKER, None), Resolved)], [])
  const UP := System(map[], map[ATTACKER := Slot(Firing, 1, 0, Some(0))], map[])

  /** A fire and `n` heartbeats. */
  function Attack(n: nat): seq<Tick> {
    if n == 0 then [FIRE] else Attack(n - 1) + [BEAT]
  }

  lemma ActiveOfOne()
    ensures Ip.ActiveMap([SIGNAL]) == map[ATTACKER := SIGNAL]
    ensures Ip.ActiveMap([]) == map[]
  {
    assert [SIGNAL][..0] == [];
  }

  lemma FireTick(s: System)
    requires s == System(map[], map[], map[])
    ensures Follows(s, FIRE, EAGER) && AfterTick(s, FIRE, EAGER) == UP && |MessagesOf(FIRE, EAGER)| == 1
  {
    ActiveOfOne();
    hide Ip.ActiveMap;
  }

  lemma BeatTick()
    ensures Follows(UP, BEAT, EAGER) && AfterTick(UP, BEAT, EAGER) == UP && |MessagesOf(BEAT, EAGER)| == 1
  {
    ActiveOfOne();
    hide Ip.ActiveMap;
  }

  lemma ResolveTick()
    ensures Follows(UP, RESOLVE, EAGER) && |MessagesOf(RESOLVE, EAGER)| == 1
    ensures !IsFiring(AfterTick(UP, RESOLVE, EAGER), SynFlood(ATTACKER))
  {
    ActiveOfOne();
    hide Ip.ActiveMap;
  }

  lemma {:induction false} AttackIsRun(n: nat)
    ensures IsRun(Attack(n), EAGER) && After(Attack(n), EAGER) == UP && |AllMessages(Attack(n), EAGER)| == n + 1
  {
    hide Follows, AfterTick, MessagesOf;
    if n == 0 {
      FireIsRun(Attack(0));
    } else {
      AttackIsRun(n - 1);
      BeatTick();
      assert Attack(n)[..|Attack(n)| - 1] == Attack(n - 1);
    }
  }

  lemma {:induction false} FireIsRun(run: seq<Tick>)
    requires run == [FIRE]
    ensures IsRun(run, EAGER) && After(run, EAGER) == UP && |AllMessages(run, EAGER)| == 1
  {
    hide Follows, AfterTick, MessagesOf;
    var none := run[..0];
    assert After(none, EAGER) == System(map[], map[], map[]) && AllMessages(none, EAGER) == [] && IsRun(none, EAGER);
    FireTick(After(none, EAGER));
  }

  /**
   With the dispatcher held up, a fire and 255 heartbeats fill the queue and
   the resolve is dropped. Once all that was accepted has arrived, the source is
   not Firing and its alert is open, and `LostResolveStays` keeps it so.
   */
  lemma FullQueueLosesResolve()
    ensures var run := Attack(255) + [RESOLVE];
            var c := PushedAll(Chan([], 1, true, [], 0, 0), AllMessages(run, EAGER));
            && IsRun(run, EAGER) && c.full == 1
            && !IsFiring(After(run, EAGER), SynFlood(ATTACKER))
            && LabelsOf(SynFlood(ATTACKER)) in ReceivedAll({}, c.accepted)
  {
    hide Follows, AfterTick, MessagesOf, LabelsOf, ReceivedAll, Attack, IsFiring;
    var attack, run := Attack(255), Attack(255) + [RESOLVE];
    var before, resolve := AllMessages(attack, EAGER), MessagesOf(RESOLVE, EAGER);
    var empty: Chan<AlertmanagerAlert> := Chan([], 1, true, [], 0, 0);
    AttackIsRun(255);
    ResolveTick();
    assert run[..|run| - 1] == attack;
    assert AllMessages(run, EAGER) == before + resolve;
    WhatFitsIsAccepted(empty, before);
    PushedConcat(empty, before, resolve);
    assert resolve == [] + [resolve[0]] && resolve[..0] == [];
    ReceiverIsReplica(attack, EAGER);
    UpIsFiring();
    assert LabelsOf(SynFlood(ATTACKER)) in ReceivedAll({}, before);
    assert PushedAll(empty, before + resolve).accepted == before;
  }

  lemma UpIsFiring()
    ensures IsFiring(UP, SynFlood(ATTACKER))
  {}
}
