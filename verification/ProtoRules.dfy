/**
 What rule lists guarantee: when every key is stepped exactly once a tick, and
 when a signal that passes a freezing rule really freezes its protocol.
 */
module ProtoRules {
  import opened Prelude
  import opened AlertFsm
  import opened StateTable
  import opened ProtoManager

  function CountKind(rules: seq<Rule>, kind: Kind): nat {
    if rules == [] then 0
    else CountKind(rules[..|rules| - 1], kind) + if rules[|rules| - 1].kind == kind then 1 else 0
  }

  lemma {:induction false} CountedHasRule(rules: seq<Rule>, kind: Kind)
    ensures CountKind(rules, kind) > 0 <==> HasRule(rules, kind)
  {
    if rules == [] {
    } else {
      var n := |rules| - 1;
      CountedHasRule(rules[..n], kind);
      assert rules == rules[..n] + [rules[n]];
      assert HasRule(rules, kind) <==> HasRule(rules[..n], kind) || rules[n].kind == kind;
    }
  }

  lemma {:induction false} FirstRuleAppend(rules: seq<Rule>, rule: Rule, kind: Kind)
    ensures FirstRule(rules + [rule], kind)
            == if FirstRule(rules, kind).Some? then FirstRule(rules, kind)
               else if rule.kind == kind then Some(rule) else None
  {
    if rules == [] {
    } else {
      FirstRuleAppend(rules[1..], rule, kind);
      assert (rules + [rule])[1..] == rules[1..] + [rule];
    }
  }

  lemma {:induction false} FirstRuleIsRule(rules: seq<Rule>, kind: Kind)
    ensures FirstRule(rules, kind).Some? <==> HasRule(rules, kind)
    ensures FirstRule(rules, kind).Some?
            ==> FirstRule(rules, kind).value in rules && FirstRule(rules, kind).value.kind == kind
  {
    if rules == [] {
    } else {
      FirstRuleIsRule(rules[1..], kind);
      assert rules == [rules[0]] + rules[1..];
      assert HasRule(rules, kind) <==> HasRule(rules[1..], kind) || rules[0].kind == kind;
    }
  }

  // ---- Stepped exactly once ----

  /** One step with the parameters of the kind's rule; nothing when the kind has none. */
  function SingleStep(rules: seq<Rule>, slot: Slot, key: AlertKey, signal: Option<AlertSignal>, now: Instant): Trace {
    match FirstRule(rules, key.kind)
    case None => Trace(slot, [], [])
    case Some(rule) => StepRule(rule, Trace(slot, [], []), key, signal, now)
  }

  ghost predicate StepsOnce(rules: seq<Rule>, kind: Kind) {
    forall slot, proto, signal, now ::
      StepRules(rules, slot, AlertKey(proto, kind), signal, now)
        == SingleStep(rules, slot, AlertKey(proto, kind), signal, now)
  }

  lemma {:induction false} UniqueRuleStepsOnce(rules: seq<Rule>, slot: Slot, key: AlertKey,
                                               signal: Option<AlertSignal>, now: Instant)
    requires CountKind(rules, key.kind) <= 1
    ensures StepRules(rules, slot, key, signal, now) == SingleStep(rules, slot, key, signal, now)
  {
    if rules == [] {
    } else {
      var n := |rules| - 1;
      UniqueRuleStepsOnce(rules[..n], slot, key, signal, now);
      assert rules == rules[..n] + [rules[n]];
      FirstRuleAppend(rules[..n], rules[n], key.kind);
      CountedHasRule(rules[..n], key.kind);
      FirstRuleIsRule(rules[..n], key.kind);
    }
  }

  /** Each further rule of a kind leaves one more hit or one more heartbeat behind on an active fresh slot. */
  lemma {:induction false} RulesLeaveTheirMark(rules: seq<Rule>, key: AlertKey, s: AlertSignal, now: Instant)
    requires CountKind(rules, key.kind) >= 1
    ensures var t := StepRules(rules, FRESH, key, Some(s), now);
            t.slot.phase != Inactive && (t.heartbeats != [] || t.slot.hits == CountKind(rules, key.kind))
  {
    var n := |rules| - 1;
    if CountKind(rules[..n], key.kind) >= 1 {
      RulesLeaveTheirMark(rules[..n], key, s, now);
    } else {
      CountedHasRule(rules[..n], key.kind);
      FirstRuleIsRule(rules[..n], key.kind);
      UniqueRuleStepsOnce(rules[..n], FRESH, key, Some(s), now);
    }
  }

  /**
   A tick steps the keys of a kind once, with that kind's own parameters,
   exactly when the rule list has at most one rule of the kind. The rule list
   built from the configuration is not checked for this.
   */
  lemma {:induction false} SteppedOnceIffRuleUnique(rules: seq<Rule>, kind: Kind)
    ensures StepsOnce(rules, kind) <==> CountKind(rules, kind) <= 1
  {
    if CountKind(rules, kind) <= 1 {
      forall slot, proto, signal, now
        ensures StepRules(rules, slot, AlertKey(proto, kind), signal, now)
                == SingleStep(rules, slot, AlertKey(proto, kind), signal, now)
      {
        UniqueRuleStepsOnce(rules, slot, AlertKey(proto, kind), signal, now);
      }
    } else {
      var key, s := AlertKey(Tcp, kind), AlertSignal(Tcp, Severe, kind, 1.0);
      RulesLeaveTheirMark(rules, key, s, 0);
      assert SingleStep(rules, FRESH, key, Some(s), 0).slot.hits <= 1;
      assert SingleStep(rules, FRESH, key, Some(s), 0).heartbeats == [];
      assert StepRules(rules, FRESH, key, Some(s), 0) != SingleStep(rules, FRESH, key, Some(s), 0);
    }
  }

  /** Two rules of one kind: a threshold of two is reached on the very first tick. */
  lemma DuplicateKindFiresEarly()
    ensures var p := Params(0, 2, 1);
            var rule := Rule(Spike, Suspicious, 0.0, p, true);
            var s := AlertSignal(Tcp, Severe, Spike, 1.0);
            && StepRules([rule], FRESH, KeyOf(s), Some(s), 0).events == []
            && StepRules([rule, rule], FRESH, KeyOf(s), Some(s), 0).events == [AlertEvent(AlertOf(s), Fired)]
  {
    var rule := Rule(Spike, Suspicious, 0.0, Params(0, 2, 1), true);
    var s := AlertSignal(Tcp, Severe, Spike, 1.0);
    var one := StepRules([rule], FRESH, KeyOf(s), Some(s), 0);
    assert [rule][..0] == [] && [rule, rule][..1] == [rule];
    assert StepRules([], FRESH, KeyOf(s), Some(s), 0) == Trace(FRESH, [], []);
    assert one == StepRule(rule, Trace(FRESH, [], []), KeyOf(s), Some(s), 0);
    assert StepRules([rule, rule], FRESH, KeyOf(s), Some(s), 0) == StepRule(rule, one, KeyOf(s), Some(s), 0);
  }

  // ---- Freezing ----

  /** A stepped key with a signal is never Inactive afterwards, so it is hot at any clock reading. */
  lemma {:induction false} ActiveKeyIsHot(rules: seq<Rule>, slot: Slot, key: AlertKey, s: AlertSignal, now: Instant)
    requires HasRule(rules, key.kind)
    ensures StepRules(rules, slot, key, Some(s), now).slot.phase != Inactive
  {
    var n := |rules| - 1;
    assert rules == rules[..n] + [rules[n]];
    if !HasRule(rules[..n], key.kind) {
      assert rules[n].kind == key.kind;
    } else {
      ActiveKeyIsHot(rules[..n], slot, key, s, now);
    }
  }

  /** Some signal for the protocol passes a rule that is meant to freeze baselines. */
  ghost predicate WantsFreeze(rules: seq<Rule>, signals: seq<AlertSignal>, proto: Proto) {
    exists r, s :: r in rules && r.freezesBaseline && s in signals && Passes(r, s) && s.proto == proto
  }

  /** For each kind with a freezing rule that a confidence can reach, the first rule of that kind freezes. */
  predicate FreezeIsFirst(rules: seq<Rule>) {
    forall r :: r in rules && r.freezesBaseline && r.minConfidence <= 1.0 ==>
                  FirstRule(rules, r.kind).Some? && FirstRule(rules, r.kind).value.freezesBaseline
  }

  /** The states after one tick of the manager. */
  function After(rules: seq<Rule>, slots: Slots, signals: seq<AlertSignal>, now: Instant): Slots {
    Next(rules, slots, Collected(rules, signals), now)
  }

  /** Such a protocol is frozen right after the tick, whatever clock reading is used to ask. */
  lemma FreezingSignalFreezes(rules: seq<Rule>, slots: Slots, signals: seq<AlertSignal>, now: Instant, asked: Instant,
                              proto: Proto)
    requires FreezeIsFirst(rules) && Realistic(signals) && WantsFreeze(rules, signals, proto)
    ensures proto in Frozen(rules, After(rules, slots, signals, now), asked)
  {
    var r, s :| r in rules && r.freezesBaseline && s in signals && Passes(r, s) && s.proto == proto;
    var key := KeyOf(s);
    assert Admitted(rules, s) && AdmittedKey(rules, signals, key);
    CollectedHas(rules, signals, key);
    assert HasRule(rules, key.kind);
    ActiveKeyIsHot(rules, SlotOf(slots, key), key, Collected(rules, signals)[key], now);
    assert Freezes(rules, key, After(rules, slots, signals, now)[key], asked);
  }

  /** Every freezing signal that a detector can raise freezes its protocol, from any state. */
  ghost predicate FreezeIsSound(rules: seq<Rule>) {
    forall slots, signals, now, asked, proto ::
      Realistic(signals) && WantsFreeze(rules, signals, proto) ==>
        proto in Frozen(rules, After(rules, slots, signals, now), asked)
  }

  /**
   The freeze guarantee holds exactly when the first rule of each kind freezes
   whenever any rule of that kind does that a confidence of at most one can
   pass; with distinct kinds it always holds.
   */
  lemma FreezeSoundIffFirst(rules: seq<Rule>)
    ensures FreezeIsSound(rules) <==> FreezeIsFirst(rules)
  {
    if FreezeIsFirst(rules) {
      forall slots, signals, now, asked, proto | Realistic(signals) && WantsFreeze(rules, signals, proto)
        ensures proto in Frozen(rules, After(rules, slots, signals, now), asked)
      {
        FreezingSignalFreezes(rules, slots, signals, now, asked, proto);
      }
    } else {
      var r :| r in rules && r.freezesBaseline && r.minConfidence <= 1.0
               && !(FirstRule(rules, r.kind).Some? && FirstRule(rules, r.kind).value.freezesBaseline);
      var s := AlertSignal(Tcp, Severe, r.kind, 1.0);
      assert Realistic([s]);
      var after := After(rules, map[], [s], 0);
      assert Passes(r, s) && WantsFreeze(rules, [s], Tcp);
      forall key | key in after ensures key.kind == r.kind {
        CollectedHas(rules, [s], key);
      }
      assert Tcp !in Frozen(rules, after, 0);
    }
  }

  /** A rule that does not freeze, put before one of its kind that does: an attack that both admit is learned from. */
  lemma ShadowedFreezeIsLost()
    ensures var p := Params(0, 1, 1);
            var rules := [Rule(Spike, Severe, 0.0, p, false), Rule(Spike, Suspicious, 0.0, p, true)];
            var s := AlertSignal(Tcp, Severe, Spike, 1.0);
            && Realistic([s]) && WantsFreeze(rules, [s], Tcp) && !FreezeIsFirst(rules)
            && Tcp !in Frozen(rules, After(rules, map[], [s], 0), 0)
  {
    var p := Params(0, 1, 1);
    var first, second := Rule(Spike, Severe, 0.0, p, false), Rule(Spike, Suspicious, 0.0, p, true);
    var rules, s := [first, second], AlertSignal(Tcp, Severe, Spike, 1.0);
    assert second in rules && second.freezesBaseline && Passes(second, s);
    assert FirstRule(rules, Spike) == Some(first);
    forall key | key in After(rules, map[], [s], 0) ensures key.kind == Spike {
      CollectedHas(rules, [s], key);
    }
  }

  ghost predicate DistinctKinds(rules: seq<Rule>) {
    forall i, j :: 0 <= i < j < |rules| ==> rules[i].kind != rules[j].kind
  }

  lemma {:induction false} DistinctKindsFreezeFirst(rules: seq<Rule>)
    requires DistinctKinds(rules)
    ensures FreezeIsFirst(rules)
  {
    forall r | r in rules ensures FirstRule(rules, r.kind) == Some(r) {
      FirstRuleIsRule(rules, r.kind);
      assert HasRule(rules, r.kind);
      var i :| 0 <= i < |rules| && rules[i] == r;
      var j :| 0 <= j < |rules| && rules[j] == FirstRule(rules, r.kind).value;
    }
  }

  /** Asking with an older clock reading can only freeze more protocols. */
  lemma OlderClockFreezesMore(rules: seq<Rule>, slots: Slots, older: Instant, newer: Instant)
    requires older <= newer
    ensures Frozen(rules, slots, newer) <= Frozen(rules, slots, older)
  {
    forall key | key in slots && Freezes(rules, key, slots[key], newer) ensures Freezes(rules, key, slots[key], older) {
      HotIsAntitone(slots[key], older, newer, FirstRule(rules, key.kind).value.params.cooldown);
    }
  }

  // ---- What is frozen, exactly ----

  /** Rule `i` is the first of its kind. */
  predicate IsFirstRule(rules: seq<Rule>, kind: Kind, i: int) {
    && 0 <= i < |rules| && rules[i].kind == kind
    && forall j :: 0 <= j < i ==> rules[j].kind != kind
  }

  lemma {:induction false} FirstRuleIsFirst(rules: seq<Rule>, kind: Kind, i: int)
    requires IsFirstRule(rules, kind, i)
    ensures FirstRule(rules, kind) == Some(rules[i])
  {
    if i == 0 {
    } else {
      assert rules[0].kind != kind;
      assert forall j :: 0 <= j < i - 1 ==> rules[1..][j] == rules[j + 1];
      FirstRuleIsFirst(rules[1..], kind, i - 1);
    }
  }

  lemma {:induction false} FirstRuleHasIndex(rules: seq<Rule>, kind: Kind) returns (i: int)
    requires FirstRule(rules, kind).Some?
    ensures IsFirstRule(rules, kind, i) && FirstRule(rules, kind) == Some(rules[i])
  {
    if rules[0].kind == kind {
      i := 0;
    } else {
      i := FirstRuleHasIndex(rules[1..], kind);
      assert forall j :: 0 < j <= i ==> rules[j] == rules[1..][j - 1];
      i := i + 1;
    }
  }

  /** The rule freezes, and the alert is up or fired less than a cooldown ago. */
  predicate Holds(rule: Rule, slot: Slot, asked: Instant) {
    && rule.freezesBaseline
    && (slot.phase != Inactive
        || (slot.lastFired.Some? && rule.params.cooldown > 0 && asked < slot.lastFired.value + rule.params.cooldown))
  }

  /** A protocol is frozen exactly when the first rule of some tracked key of its own holds it. */
  lemma FrozenIff(rules: seq<Rule>, slots: Slots, asked: Instant, proto: Proto)
    ensures proto in Frozen(rules, slots, asked) <==>
            exists key, i ::
              key in slots && key.proto == proto && IsFirstRule(rules, key.kind, i)
                && Holds(rules[i], slots[key], asked)
  {
    hide Hot;
    if proto in Frozen(rules, slots, asked) {
      var key :| key in slots && Freezes(rules, key, slots[key], asked) && key.proto == proto;
      var i := FirstRuleHasIndex(rules, key.kind);
      HotIff(slots[key], asked, rules[i].params.cooldown);
      assert Holds(rules[i], slots[key], asked);
    }
    if key, i :| key in slots && key.proto == proto && IsFirstRule(rules, key.kind, i)
                 && Holds(rules[i], slots[key], asked) {
      FirstRuleIsFirst(rules, key.kind, i);
      HotIff(slots[key], asked, rules[i].params.cooldown);
      assert Freezes(rules, key, slots[key], asked);
    }
  }

  /** The alert is down, and the cooldown of every rule of its kind is over. */
  predicate Cold(rules: seq<Rule>, kind: Kind, slot: Slot, asked: Instant) {
    && slot.phase == Inactive
    && (slot.lastFired.Some? ==>
          forall r :: r in rules && r.kind == kind ==> slot.lastFired.value + r.params.cooldown <= asked)
  }

  lemma ColdIsNotHeld(rules: seq<Rule>, i: nat, slot: Slot, asked: Instant)
    requires i < |rules| && Cold(rules, rules[i].kind, slot, asked)
    ensures !Holds(rules[i], slot, asked)
  {}

  /** A protocol whose tracked alerts are all cold is not frozen. */
  lemma ColdThaws(rules: seq<Rule>, slots: Slots, asked: Instant, proto: Proto)
    requires forall key :: key in slots && key.proto == proto ==> Cold(rules, key.kind, slots[key], asked)
    ensures proto !in Frozen(rules, slots, asked)
  {
    FrozenIff(rules, slots, asked, proto);
    forall key, i | key in slots && key.proto == proto && IsFirstRule(rules, key.kind, i)
      ensures !Holds(rules[i], slots[key], asked)
    {
      ColdIsNotHeld(rules, i, slots[key], asked);
    }
  }
}
