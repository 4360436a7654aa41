/**
 What the pipeline shows of itself between ticks: whether it was ever ready, and the rates of its
 last processed tick.
 */
module Warmup {
  import opened Prelude
  import opened ProtoManager
  import opened Estimator
  import opened Rates
  import opened Runner
  import FreezeLoop

  /** Some rate of the tick belongs to a protocol whose baseline was in use. */
  ghost predicate SomeReady(s: State, input: Input, settings: Settings)
    requires s.Valid() && Processes(s, input)
  {
    exists i :: 0 <= i < |RatesOf(s, input)|
                && SnapshotOf(Advanced(s.baseline), settings.config, settings.sqrt, RatesOf(s, input)[i].proto).Ready?
  }

  lemma {:induction false} AnyReadyIff(e: Estimate, config: Config, sqrt: real -> real, rates: seq<ProtoRate>)
    requires e.Valid()
    ensures AnyReady(e, config, sqrt, rates) <==>
              exists i :: 0 <= i < |rates| && SnapshotOf(e, config, sqrt, rates[i].proto).Ready?
  {
    hide SnapshotOf;
    if rates == [] {
    } else {
      AnyReadyIff(e, config, sqrt, rates[1..]);
      if i :| 0 <= i < |rates| && SnapshotOf(e, config, sqrt, rates[i].proto).Ready? && i > 0 {
        assert rates[i] == rates[1..][i - 1];
      }
    }
  }

  /** The run was ready at one of its processed ticks. */
  ghost predicate EverReady(run: seq<Input>, settings: Settings) {
    run != [] &&
    var n := |run| - 1;
    var s := FreezeLoop.After(run[..n], settings);
    EverReady(run[..n], settings) || (Processes(s, run[n]) && SomeReady(s, run[n], settings))
  }

  /** The rates of the last processed tick. */
  function LastProcessed(run: seq<Input>, settings: Settings): seq<ProtoRate> {
    if run == [] then []
    else
      var n := |run| - 1;
      var s := FreezeLoop.After(run[..n], settings);
      if Processes(s, run[n]) then RatesOf(s, run[n]) else LastProcessed(run[..n], settings)
  }

  lemma TickStatus(s: State, input: Input, settings: Settings)
    requires s.Valid()
    ensures var r := AfterTick(s, input, settings);
            && (r.warmedUp <==> s.warmedUp || (Processes(s, input) && SomeReady(s, input, settings)))
            && r.lastRates == if Processes(s, input) then RatesOf(s, input) else s.lastRates
  {
    hide SnapshotOf, FeedAll, ProtoManager.Next, Frozen, Unfrozen, ComputeRates, ActiveAt, AnyReady;
    if Processes(s, input) {
      AnyReadyIff(Advanced(s.baseline), settings.config, settings.sqrt, RatesOf(s, input));
    }
  }

  /**
   Once ready, always shown as warmed up, whatever freezes or goes flat later; and a skipped tick
   keeps the last rates.
   */
  lemma {:induction false} StatusTellsRun(run: seq<Input>, settings: Settings)
    ensures var s := FreezeLoop.After(run, settings);
            (s.warmedUp <==> EverReady(run, settings)) && s.lastRates == LastProcessed(run, settings)
  {
    hide AfterTick, SomeReady, RatesOf;
    if run == [] {
    } else {
      StatusTellsRun(run[..|run| - 1], settings);
      TickStatus(FreezeLoop.After(run[..|run| - 1], settings), run[|run| - 1], settings);
    }
  }
}
