/**
 The feedback loop of the per-protocol pipeline: detection reads the baseline,
 alerts freeze it, and it learns only from protocols that are not frozen.
 */
module Runner {
  import opened Prelude
  import opened ProtoManager
  import opened Estimator
  import opened Rates
  import opened Detectors

  /** What a runner is built with. */
  datatype Settings = Settings(config: Config, thresholds: seq<Threshold>, rules: seq<Rule>, sqrt: real -> real)

  /** What a runner holds between ticks. */
  datatype State = State(prev: Option<Snapshot>, baseline: Estimate, slots: Slots, warmedUp: bool,
                         lastRates: seq<ProtoRate>) {
    predicate Valid() {
      baseline.Valid()
    }
  }

  const INITIAL := State(None, START, map[], false, [])

  /** One call of `tick`: the snapshot it is given, if any, and the clock that the alert step reads. */
  datatype Input = Input(current: Option<Snapshot>, now: Instant)

  /** The rates of a tick that has a previous snapshot to diff against. */
  predicate Processes(s: State, input: Input) {
    input.current.Some? && s.prev.Some?
  }

  function RatesOf(s: State, input: Input): seq<ProtoRate>
    requires Processes(s, input)
  {
    ComputeRates(s.prev.value, input.current.value)
  }

  function Advanced(e: Estimate): (r: Estimate)
    ensures e.Valid() ==> r.Valid()
  {
    e.(elapsed := e.elapsed + 1)
  }

  /** The keys that the rules see as active, given a baseline and the rates of a tick. */
  function ActiveAt(e: Estimate, rates: seq<ProtoRate>, settings: Settings): Active
    requires e.Valid()
  {
    Collected(settings.rules, AllSignals(e, settings.config, settings.sqrt, settings.thresholds, rates))
  }

  function Unfrozen(rates: seq<ProtoRate>, frozen: set<Proto>): seq<ProtoRate> {
    if rates == [] then []
    else
      var n := |rates| - 1;
      Unfrozen(rates[..n], frozen) + if rates[n].proto in frozen then [] else [rates[n]]
  }

  predicate AnyReady(e: Estimate, config: Config, sqrt: real -> real, rates: seq<ProtoRate>)
    requires e.Valid()
  {
    rates != [] && (SnapshotOf(e, config, sqrt, rates[0].proto).Ready? || AnyReady(e, config, sqrt, rates[1..]))
  }

  /**
   Detect, advance the alerts, freeze, and learn from the rest. The freeze is asked with the
   snapshot's own clock reading.
   */
  function Processed(s: State, prev: Snapshot, curr: Snapshot, now: Instant, settings: Settings): (r: State)
    requires s.Valid()
    ensures r.Valid()
  {
    var rates := ComputeRates(prev, curr);
    var slots := ProtoManager.Next(settings.rules, s.slots, ActiveAt(s.baseline, rates, settings), now);
    var frozen := Frozen(settings.rules, slots, curr.timestamp);
    State(s.prev,
          FeedAll(s.baseline, settings.config.alpha, Unfrozen(rates, frozen), settings.sqrt),
          slots,
          s.warmedUp || AnyReady(s.baseline, settings.config, settings.sqrt, rates),
          rates)
  }

  function AfterTick(s: State, input: Input, settings: Settings): (r: State)
    requires s.Valid()
    ensures r.Valid()
  {
    var advanced := s.(baseline := Advanced(s.baseline));
    if input.current.None? then advanced
    else
      var primed := advanced.(prev := input.current);
      if s.prev.None? then primed
      else Processed(primed, s.prev.value, input.current.value, input.now, settings)
  }

  /** The active keys of a tick that has two snapshots to diff. */
  function ActiveOf(s: State, input: Input, settings: Settings): Active
    requires s.Valid() && Processes(s, input)
  {
    ActiveAt(Advanced(s.baseline), RatesOf(s, input), settings)
  }

  class AnomalyRunner {
    const settings: Settings
    const baseline: EwmaEstimator
    const manager: AlertLifecycleManager
    var prevCounters: Option<Snapshot>
    var warmedUp: bool
    var lastRates: seq<ProtoRate>

    ghost function Repr(): set<object>
      reads manager.states
    {
      {this} + baseline.Repr + manager.Repr()
    }

    ghost predicate Valid()
      reads manager.states
    {
      && baseline.Valid() && manager.Valid()
      && this !in baseline.Repr && this !in manager.Repr() && baseline.Repr !! manager.Repr()
      && baseline.config == settings.config && baseline.sqrt == settings.sqrt && manager.rules == settings.rules
    }

    ghost function View(): (s: State)
      requires Valid()
      reads manager.states, Repr()
      ensures s.Valid()
    {
      State(prevCounters, baseline.View(), manager.View(), warmedUp, lastRates)
    }

    constructor (settings: Settings)
      ensures Valid() && fresh(Repr()) && View() == INITIAL && this.settings == settings
    {
      this.settings := settings;
      var estimator := new EwmaEstimator(settings.config, settings.sqrt);
      var lifecycle := new AlertLifecycleManager(settings.rules);
      baseline, manager := estimator, lifecycle;
      prevCounters, warmedUp, lastRates := None, false, [];
    }

    method Tick(input: Input) returns (events: seq<AlertEvent>, heartbeats: seq<Alert>)
      requires Valid()
      modifies Repr()
      ensures Valid() && fresh(Repr() - old(Repr()))
      ensures View() == AfterTick(old(View()), input, settings)
      ensures Processes(old(View()), input) ==>
                Emits(events, heartbeats, settings.rules, old(View()).slots, ActiveOf(old(View()), input, settings),
                      input.now)
      ensures !Processes(old(View()), input) ==> events == [] && heartbeats == []
    {
      hide Processed, Emits, ActiveAt, ComputeRates;
      AdvanceClock();
      if input.current.None? {
        return [], [];
      }
      var prev := Rotate(input.current);
      if prev.None? {
        return [], [];
      }
      events, heartbeats := Process(prev.value, input.current.value, input.now);
    }

    /** The clock of the readiness gate advances on every call, with data or without. */
    method AdvanceClock()
      requires Valid()
      modifies baseline.Repr
      ensures Valid() && Repr() == old(Repr())
      ensures View() == old(View()).(baseline := Advanced(old(View()).baseline))
    {
      baseline.Advance();
    }

    method Rotate(current: Option<Snapshot>) returns (prev: Option<Snapshot>)
      requires Valid() && current.Some?
      modifies this
      ensures Valid() && Repr() == old(Repr())
      ensures View() == old(View()).(prev := current) && prev == old(View()).prev
    {
      prev, prevCounters := PrimeOrDiff(prevCounters, current);
    }

    /** The part of `Tick` that follows the diff of two snapshots. */
    method Process(prev: Snapshot, curr: Snapshot, now: Instant)
      returns (events: seq<AlertEvent>, heartbeats: seq<Alert>)
      requires Valid()
      modifies Repr()
      ensures Valid() && fresh(Repr() - old(Repr()))
      ensures View() == Processed(old(View()), prev, curr, now, settings)
      ensures Emits(events, heartbeats, settings.rules, old(View()).slots,
                    ActiveAt(old(View()).baseline, ComputeRates(prev, curr), settings), now)
    {
      hide Emits, AnyReady, ProtoManager.Next, ActiveAt, Frozen, FeedAll, Unfrozen, ComputeRates;
      var rates := ComputeRates(prev, curr);
      var anyReady := IsAnyReady(rates);
      Note(warmedUp || anyReady, rates);
      events, heartbeats := AlertAndLearn(rates, curr.timestamp, now);
    }

    /** The alert step at `now`, and then the update of what is not frozen at `asOf`. */
    method AlertAndLearn(rates: seq<ProtoRate>, asOf: Instant, now: Instant)
      returns (events: seq<AlertEvent>, heartbeats: seq<Alert>)
      requires Valid()
      modifies Repr()
      ensures Valid() && fresh(Repr() - old(Repr()))
      ensures var s := old(View());
              var active := ActiveAt(s.baseline, rates, settings);
              var slots := ProtoManager.Next(settings.rules, s.slots, active, now);
              var unfrozen := Unfrozen(rates, Frozen(settings.rules, slots, asOf));
              && View()
                 == s.(slots := slots, baseline := FeedAll(s.baseline, settings.config.alpha, unfrozen, settings.sqrt))
              && Emits(events, heartbeats, settings.rules, s.slots, active, now)
    {
      hide Emits, ProtoManager.Next, ActiveAt, Frozen, FeedAll, Unfrozen;
      events, heartbeats := RunAnomalyPipeline(rates, now);
      var frozen := manager.FrozenProtos(asOf);
      Learn(rates, frozen);
    }

    /** Records what the API shows of a processed tick. */
    method Note(warm: bool, rates: seq<ProtoRate>)
      requires Valid()
      modifies this
      ensures Valid() && Repr() == old(Repr())
      ensures View() == old(View()).(warmedUp := warm, lastRates := rates)
    {
      warmedUp := warm;
      lastRates := rates;
    }

    /** Feeds the baseline with the rates of all protocols that are not frozen. */
    method Learn(rates: seq<ProtoRate>, frozen: set<Proto>)
      requires Valid()
      modifies baseline.Repr
      ensures Valid() && Repr() == old(Repr())
      ensures var fed := FeedAll(old(View()).baseline, settings.config.alpha, Unfrozen(rates, frozen), settings.sqrt);
              View() == old(View()).(baseline := fed)
    {
      var unfrozen := Unfrozen(rates, frozen);
      if unfrozen != [] {
        baseline.Update(unfrozen);
      }
    }

    method IsAnyReady(rates: seq<ProtoRate>) returns (any: bool)
      requires Valid()
      ensures any == AnyReady(baseline.View(), settings.config, settings.sqrt, rates)
    {
      any := false;
      for n := 0 to |rates|
        invariant AnyReady(baseline.View(), settings.config, settings.sqrt, rates) ==
                  (any || AnyReady(baseline.View(), settings.config, settings.sqrt, rates[n..]))
      {
        assert rates[n..][1..] == rates[n + 1..];
        var state := baseline.Snapshot(rates[n].proto);
        any := any || state.Ready?;
      }
    }

    /** Detects with both detectors and advances the alert machines. */
    method RunAnomalyPipeline(rates: seq<ProtoRate>, now: Instant)
      returns (events: seq<AlertEvent>, heartbeats: seq<Alert>)
      requires Valid()
      modifies manager.Repr()
      ensures Valid() && fresh(Repr() - old(Repr()))
      ensures var active := ActiveAt(old(View()).baseline, rates, settings);
              && View() == old(View()).(slots := ProtoManager.Next(settings.rules, old(View()).slots, active, now))
              && Emits(events, heartbeats, settings.rules, old(View()).slots, active, now)
    {
      hide Emits, ProtoManager.Next, ProtoManager.Collected, EwmaSignals, EmergencySignals;
      var allSignals := DetectEwma(baseline, rates);
      var emergency := DetectEmergency(settings.thresholds, rates);
      allSignals := allSignals + emergency;
      events, heartbeats := manager.Tick(allSignals, now);
    }
  }
}
