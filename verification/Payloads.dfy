/** What the alerts carry: the values of their own signals, and nothing of them once they have resolved. */
module Payloads {
  import opened Prelude
  import opened AlertFsm
  import opened StateTable
  import Ip = IpManager
  import Pm = ProtoManager
  import ProtoRules

  // ---- The per-IP managers ----

  /** The alert says what the signal says. */
  predicate Repeats(a: Ip.Alert, s: Ip.Signal) {
    a.srcIp == s.srcIp && a.metric == s.metric && a.confidence == s.confidence
  }

  /** Signal `n` is the last one for the address; `n` is the length of the list if there is none. */
  predicate IsLastOf(signals: seq<Ip.Signal>, ip: Ipv4Addr, n: nat) {
    && n <= |signals| && (n < |signals| ==> signals[n].srcIp == ip)
    && forall m :: (if n < |signals| then n + 1 else 0) <= m < |signals| ==> signals[m].srcIp != ip
  }

  /** A fire and a heartbeat repeat the last signal for their address, a resolve names the address only. */
  lemma {:induction false} IpAlertsCarrySignals(slots: Ip.Slots, signals: seq<Ip.Signal>, now: Instant, p: Params,
                                                ip: Ipv4Addr, n: nat)
    requires IsLastOf(signals, ip, n)
    ensures var event := Ip.EventFor(slots, Ip.ActiveMap(signals), now, p, ip);
            event.Some? ==>
              && (event.value.lifecycle == Fired ==> n < |signals| && Repeats(event.value.alert, signals[n]))
              && (event.value.lifecycle == Resolved ==>
                    n == |signals| && event.value.alert == Ip.Alert(ip, 0.0, 0.0))
    ensures var beat := Ip.HeartbeatFor(slots, Ip.ActiveMap(signals), now, p, ip);
            beat.Some? ==> n < |signals| && Repeats(beat.value, signals[n])
  {
    hide Ip.ActiveMap, IsLastOf;
    LastIsActive(signals, ip, n);
  }

  lemma {:induction false} LastIsActive(signals: seq<Ip.Signal>, ip: Ipv4Addr, n: nat)
    requires IsLastOf(signals, ip, n)
    ensures n <= |signals|
    ensures Ip.SignalFor(Ip.ActiveMap(signals), ip) == if n < |signals| then Some(signals[n]) else None
    ensures n < |signals| ==> signals[n].srcIp == ip
  {
    if n < |signals| {
      Ip.LastSignalWins(signals, n);
    }
  }

  // ---- The per-protocol manager ----

  /** A signal is admitted by a rule of its kind that it is severe and sure enough for. */
  lemma PassesIff(rule: Pm.Rule, s: Pm.AlertSignal)
    ensures Pm.Passes(rule, s) <==>
              && s.kind == rule.kind && s.confidence >= rule.minConfidence
              && match rule.minLevel
                 case Normal => true
                 case Suspicious => s.level == Pm.Suspicious || s.level == Pm.Severe
                 case Severe => s.level == Pm.Severe
  {}

  predicate Affirms(a: Pm.Alert, s: Pm.AlertSignal) {
    a.proto == s.proto && a.kind == s.kind && a.level == s.level && a.confidence == s.confidence
  }

  /** The alert closes the key with the least level of a rule of its kind, and no confidence. */
  ghost predicate Closes(a: Pm.Alert, rules: seq<Pm.Rule>, key: Pm.AlertKey) {
    && a.proto == key.proto && a.kind == key.kind && a.confidence == 0.0
    && exists r :: r in rules && r.kind == key.kind && a.level == r.minLevel
  }

  ghost predicate CarriesOwn(t: Pm.Trace, rules: seq<Pm.Rule>, key: Pm.AlertKey, signal: Option<Pm.AlertSignal>) {
    && (forall e :: e in t.events ==>
          if e.lifecycle == Fired then signal.Some? && Affirms(e.alert, signal.value)
          else signal.None? && Closes(e.alert, rules, key))
    && (forall b :: b in t.heartbeats ==> signal.Some? && Affirms(b, signal.value))
  }

  /** A fire and a heartbeat repeat the signal that their key carries; a resolve falls back on its rule. */
  lemma {:induction false} AlertsCarrySignals(rules: seq<Pm.Rule>, slot: Slot, key: Pm.AlertKey,
                                              signal: Option<Pm.AlertSignal>, now: Instant)
    ensures CarriesOwn(Pm.StepRules(rules, slot, key, signal, now), rules, key, signal)
  {
    if rules == [] {
    } else {
      var n := |rules| - 1;
      AlertsCarrySignals(rules[..n], slot, key, signal, now);
      var t := Pm.StepRules(rules[..n], slot, key, signal, now);
      MoreRulesClose(t, rules, key, signal);
      if rules[n].kind == key.kind {
        RuleCarriesSignal(rules, t.slot, key, signal, now);
      }
    }
  }

  lemma MoreRulesClose(t: Pm.Trace, rules: seq<Pm.Rule>, key: Pm.AlertKey, signal: Option<Pm.AlertSignal>)
    requires rules != [] && CarriesOwn(t, rules[..|rules| - 1], key, signal)
    ensures CarriesOwn(t, rules, key, signal)
  {
    forall r | r in rules[..|rules| - 1] ensures r in rules {}
  }

  /** What the last rule adds. */
  lemma RuleCarriesSignal(rules: seq<Pm.Rule>, slot: Slot, key: Pm.AlertKey, signal: Option<Pm.AlertSignal>,
                          now: Instant)
    requires rules != [] && rules[|rules| - 1].kind == key.kind
    ensures var rule := rules[|rules| - 1];
            var event, beat := Pm.RuleEvent(rule, slot, key, signal, now), Pm.RuleHeartbeat(rule, slot, signal, now);
            && (event.Some? ==> if event.value.lifecycle == Fired
                                then signal.Some? && Affirms(event.value.alert, signal.value)
                                else signal.None? && Closes(event.value.alert, rules, key))
            && (beat.Some? ==> signal.Some? && Affirms(beat.value, signal.value))
  {
    var rule := rules[|rules| - 1];
    assert rule in rules;
  }
}
