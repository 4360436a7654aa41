# A verified model of the XDP traffic monitor

The system counts every frame in the kernel, turns the counters into rates in
user space, compares the rates with a learned baseline and with fixed limits,
runs an alert state machine for each key, and pushes the alerts to an
Alertmanager. This project models that chain from the bytes of a frame to the
label sets that the receiver holds open, and proves what the chain promises
over whole runs. `dafny verify dfyconfig.toml` checks all of it.

| files | part of the system |
|---|---|
| `AlertFsm`, `FsmHistory`, `StateTable` | the three-phase alert machine, and its behaviour told by its history alone |
| `IpManager`, `GarbageCollection` | the per-source manager, and why its garbage collection cannot be observed |
| `ProtoManager`, `ProtoRules`, `Histories`, `Payloads` | the per-protocol manager, what its rule list must satisfy and what it freezes, both managers as families of independent machines, and what their alerts carry |
| `Ewma`, `EwmaHistory`, `EwmaBounds`, `Estimator`, `Readiness`, `FlatRuns` | the clipped moving average as sums over its samples, its bounds and convergence, the readiness gate over whole runs |
| `Rates`, `Detectors`, `ZScores`, `Runner`, `FreezeLoop`, `Episodes`, `Thawing`, `Warmup` | counters to rates, the detectors, the detect-freeze-learn loop, its safety over whole alert episodes and the end of every freeze |
| `Wire`, `Dispatcher`, `Delivery`, `LossRepair`, `LateCopies` | labels, the bounded queue and its background task, the receiver as a replica, which losses are repaired, and which late copies do no harm |
| `Frame`, `Buckets`, `Kernel`, `KernelRuns`, `PortMap`, `WireToRates` | frame parsing, which frame is counted where, the kernel maps under concurrency, frames accounted for by rates |
| `TopN`, `TopTalkers`, `SynRates`, `SourceRunners`, `SourceRuns` | the largest sources, their detection in both directions, the two per-source pipelines, and when over a run they report a source and what it then has sent |

## How the model is stated

- An object that the program updates in place is a class with the same fields;
  each method is proved equal to a function on values (`View`), and the
  theorems are about runs of those functions. A long method is cut into several
  (`AnomalyRunner.AlertAndLearn`, `IpAlertLifecycleManager.AdvanceIp`,
  `Ewma.ClippedDelta`, `Dispatcher.Task.Fill` and the like) along the lines of
  its body.
- Floating point is `real` and integers are unbounded. `FsmHistory.CountersFitU32`
  gives the settings under which the u32 counters of a slot cannot wrap, and
  `TopTalkers.BreadthFitsU32` shows that the cast of a breadth is lossless. The
  square root is a parameter; what is used of it is `Ewma.IsSqrt`.
- Clock readings are naturals in nanoseconds. A `HashMap` is a map whose
  iteration order is an arbitrary choice, so outputs are stated per key or as
  membership, never as one fixed order.
- The dispatcher runs against a list of what the sinks will do, any number of
  which happens before each of its own accesses to the queue. The kernel runs
  as a state machine in which a lookup that misses and the insert after it are
  separate steps, entries are evicted at any time and inserts may fail.
- What the rule list needs: `config.rs` does not check that alert rules have
  distinct kinds. `ProtoRules.SteppedOnceIffRuleUnique` and
  `ProtoRules.FreezeSoundIffFirst` say exactly when the per-protocol manager
  steps a key once and when a freezing signal freezes;
  `ProtoRules.DuplicateKindFiresEarly` and `ProtoRules.ShadowedFreezeIsLost`
  are lists for which they fail.
- `compute_proto_z_scores` is documented to return two zeros when either
  deviation is too small; the code zeroes each dimension by itself. The model
  follows the code. The documented default holds after every run if and only if
  the configured minimum deviation exceeds 1e-9 (`ZScores.DefaultIffMinimum`);
  above it, it holds of every estimate, reached by a run or not
  (`ZScores.HighMinimumHolds`). `ZScores.LopsidedRunScores` is a run of four
  ticks after which it fails, and `ZScores.LowMinimumFails` has one for every
  configuration with a lower minimum.
- The emergency detector documents its confidence as the larger ratio of rate to
  limit, less one, clamped. The code leaves out limits of zero, so a broken limit
  of zero raises a signal without confidence. `Detectors.EmergencyConfidenceMeans`
  states what the code computes, and `Detectors.ZeroLimitHasNoConfidence` is the
  input at which the two differ.
- `prime_or_diff` rotates the snapshot even when the clock did not advance, and
  such an interval has no rate. `Rates.Unrated` counts what passes then; it is
  zero for all counters if and only if the clock advances from snapshot to
  snapshot (`Rates.NothingUnratedIffAdvancing`).
- A message that the queue dropped is made good by a run if and only if some
  tick of it speaks about the alert: it is signalled and Firing after the tick,
  or leaves Firing at it (`LossRepair.RunRepairsIff`). A lost fire is therefore
  repaired while its signal lasts; a lost resolve stays lost until the alert
  fires again (`LossRepair.LostResolveStays`), and
  `LossRepair.FullQueueLosesResolve` is a run in which that happens.
- A post that timed out can still reach the receiver, and after later batches.
  `Delivery.DeliveredRunIsMirrored` and `Delivery.SuccessfulRunIsMirrored` assume
  that copies arrive in posting order. `LateCopies.OrderIsInvisibleIff` drops
  that: arrivals in any order do no harm, whatever the batches say, if and only
  if every batch arrives and the last copies arrive in order.
  `LateCopies.LateCopyReopens` is a run whose posts all succeed and whose
  resolved alert a late copy opens again.

## Model

| member | source | states |
|---|---|---|
| AlertFsm.AlertState.Advance | ebpf-xdp-program/src/alert/state.rs:62-147 | the method's in-place updates are one `Step` of the machine, with its event |
| AlertFsm.AlertState.TryFire | ebpf-xdp-program/src/alert/state.rs:190-198 | it fires exactly when the threshold is reached and the cooldown since the last fire is over, and only then touches phase and time |
| AlertFsm.StepKeepsWellFormed | ebpf-xdp-program/src/alert/state.rs:62-147 | every reachable slot keeps its counters consistent with its phase; the quiet counter stays under the resolve threshold |
| AlertFsm.HotIsAntitone | ebpf-xdp-program/src/alert/state.rs:180-188 | asked with an older clock reading a slot can only be hotter |
| AlertFsm.CooldownPassedIff | ebpf-xdp-program/src/alert/state.rs:210-215 | a cooldown is over exactly when that much time has passed since the last fire, if there was one; a cooldown of zero always is |
| AlertFsm.HotIff | ebpf-xdp-program/src/alert/state.rs:180-188 | a slot is hot exactly while it is Pending or Firing, or has fired less than a cooldown ago |
| FsmHistory.HistoryCharacterisation | ebpf-xdp-program/src/alert/state.rs:62-147 | on every history the machine emits exactly the reference log: a fire when it is not open, the active streak has reached the threshold and the cooldown has passed; a resolve at the resolve threshold of quiet ticks |
| FsmHistory.CountersTellHistory | ebpf-xdp-program/src/alert/state.rs:38-43 | phase, both counters, in Firing the streak at its fire included, and the time of the last fire are functions of the history |
| FsmHistory.FiresNeedResolveBetween | ebpf-xdp-program/src/alert/state.rs:62-147 | two fires always have a resolve between them |
| FsmHistory.ResolveClosesFire | ebpf-xdp-program/src/alert/state.rs:116-147 | a resolve closes a fire, with nothing emitted in between |
| FsmHistory.FiresAreCooldownApart | ebpf-xdp-program/src/alert/state.rs:190-216 | any two fires of a slot are at least a cooldown apart |
| FsmHistory.PendingIsHeldBack | ebpf-xdp-program/src/alert/state.rs:190-198 | a Pending slot is short of its threshold or of its cooldown |
| FsmHistory.PendingCountIsBounded | ebpf-xdp-program/src/alert/state.rs:190-216 | with ticks at least d apart the hit counter of a waiting slot stays under the threshold or under the ticks that a cooldown holds |
| FsmHistory.CountersFitU32 | ebpf-xdp-program/src/alert/state.rs:38-43 | under such settings neither u32 counter can wrap, over any run |
| StateTable.Table.Advance | ebpf-xdp-program/src/alert/ip_manager.rs:87-95 | `entry().or_insert_with()` and `advance` change one key's slot, creating it fresh if need be, and leave the others alone |
| StateTable.Table.Retain | ebpf-xdp-program/src/alert/ip_manager.rs:111-113 | exactly the signalled and the hot entries survive |
| IpManager.ActiveMap | ebpf-xdp-program/src/alert/ip_manager.rs:79-86 | an address is active exactly when some signal names it, and carries one of its own signals |
| IpManager.LastSignalWins | ebpf-xdp-program/src/alert/ip_manager.rs:79-86 | of several signals for an address the last is kept |
| IpManager.IpAlertLifecycleManager.Tick | ebpf-xdp-program/src/alert/ip_manager.rs:79-116 | one tick steps every tracked or signalled address once, lists exactly their events and heartbeats in some order, and collects what is cold |
| GarbageCollection.StepsAlike | ebpf-xdp-program/src/alert/state.rs:62-147 | slots that differ only in an expired fire time emit the same and stay alike |
| GarbageCollection.ColdIsFresh | ebpf-xdp-program/src/alert/ip_manager.rs:36-41 | a reachable slot that is not hot behaves like a new one from then on |
| GarbageCollection.RunsAreBisimilar | ebpf-xdp-program/src/alert/ip_manager.rs:79-116 | after every run the collecting manager and one that never forgets are bisimilar |
| GarbageCollection.GarbageCollectionIsInvisible | ebpf-xdp-program/src/alert/ip_manager.rs:79-116 | hence both give every address the same events and heartbeats at every tick |
| GarbageCollection.FiringSurvives | ebpf-xdp-program/src/alert/ip_manager.rs:111-113 | an entry that is Firing is never collected |
| GarbageCollection.TrackedWasSignalled | ebpf-xdp-program/src/alert/ip_manager.rs:36-41 | every tracked address was signalled within the resolve threshold or within a cooldown |
| GarbageCollection.MemoryIsBounded | ebpf-xdp-program/src/alert/ip_manager.rs:36-41 | with n signals a tick and ticks d apart at most n times max(1, resolve threshold, ceil(cooldown/d)) entries are tracked, whatever the churn |
| ProtoManager.CollectedHas | ebpf-xdp-program/src/alert/proto_manager.rs:107-150 | a key is active exactly when a signal for it passes the filter of some rule of its kind, and carries such a signal |
| ProtoManager.LastAdmissionWins | ebpf-xdp-program/src/alert/proto_manager.rs:107-150 | of several it carries the last one that the last admitting rule admits |
| ProtoManager.CollectedIgnoresOrder | ebpf-xdp-program/src/alert/proto_manager.rs:107-150 | with at most one signal for each key the order of the signals is immaterial |
| ProtoManager.AlertLifecycleManager.CollectActive | ebpf-xdp-program/src/alert/proto_manager.rs:107-150 | the nested loops compute that admission |
| ProtoManager.AlertLifecycleManager.AdvanceStates | ebpf-xdp-program/src/alert/proto_manager.rs:152-250 | rules step the keys of their own kind only; per key, states, events and heartbeats are those of the rules in order, for any iteration order; the signal lookup at a fire never fails |
| ProtoManager.AlertLifecycleManager.Tick | ebpf-xdp-program/src/alert/proto_manager.rs:85-88 | both together |
| ProtoManager.AlertLifecycleManager.FrozenProtos | ebpf-xdp-program/src/alert/proto_manager.rs:94-105 | the protocols with a hot key whose kind's first rule freezes |
| ProtoRules.SteppedOnceIffRuleUnique | ebpf-xdp-program/src/alert/proto_manager.rs:152-250 | a tick steps the keys of a kind once, with that kind's parameters, if and only if the list has at most one rule of the kind |
| ProtoRules.DuplicateKindFiresEarly | ebpf-xdp-program/src/alert/proto_manager.rs:152-250 | a list of two rules of one kind that fires a tick early |
| ProtoRules.FreezingSignalFreezes | ebpf-xdp-program/src/alert/proto_manager.rs:94-150 | a signal with a confidence in [0, 1] that passes a freezing rule freezes its protocol right after the tick, whatever clock reading asks |
| ProtoRules.FreezeSoundIffFirst | ebpf-xdp-program/src/alert/proto_manager.rs:94-105 | this holds from every state, for all signals a detector can raise, if and only if the first rule of each kind freezes that has a freezing rule with a minimum confidence of at most one |
| ProtoRules.ShadowedFreezeIsLost | ebpf-xdp-program/src/alert/proto_manager.rs:94-105 | a list, a signal and a state for which it fails |
| ProtoRules.DistinctKindsFreezeFirst | ebpf-xdp-program/src/alert/proto_manager.rs:27-41 | distinct kinds are enough for it |
| ProtoRules.OlderClockFreezesMore | ebpf-xdp-program/src/pipeline/runner.rs:85-85 | asking with the snapshot's older time can only freeze more |
| ProtoRules.FrozenIff | ebpf-xdp-program/src/alert/proto_manager.rs:94-105 | a protocol is frozen exactly when the first rule of the kind of one of its tracked keys freezes, and that key is Pending, Firing or less than that rule's cooldown past its last fire |
| ProtoRules.ColdThaws | ebpf-xdp-program/src/alert/proto_manager.rs:94-105 | a protocol whose tracked alerts are all down, with every cooldown of their kinds over, is not frozen |
| Histories.IpEventsFollowHistory | ebpf-xdp-program/src/alert/ip_manager.rs:79-116 | after any run the per-source manager, garbage collection included, gives each address the transition that its own signal history calls for |
| Histories.IpHeartbeatsFollowHistory | ebpf-xdp-program/src/alert/ip_manager.rs:79-116 | and a heartbeat exactly when its alert is open, stays so and is signalled |
| Histories.KeyEventsFollowHistory | ebpf-xdp-program/src/alert/proto_manager.rs:85-250 | after any run the per-protocol manager gives each key of a kind with one rule the transition that its own history calls for |
| Histories.KeyHeartbeatsFollowHistory | ebpf-xdp-program/src/alert/proto_manager.rs:85-250 | and its heartbeats likewise |
| Payloads.IpAlertsCarrySignals | ebpf-xdp-program/src/alert/ip_manager.rs:79-109 | a fire and a heartbeat carry the metric and the confidence of the last signal for their address, a resolve the address alone |
| Payloads.PassesIff | ebpf-xdp-program/src/alert/proto_manager.rs:107-150 | a rule admits a signal of its kind exactly when it is at least as severe and as sure as the rule asks, level by level |
| Payloads.AlertsCarrySignals | ebpf-xdp-program/src/alert/proto_manager.rs:177-246 | a fire and a heartbeat carry protocol, kind, level and confidence of the signal of their key; a resolve carries the key, the least level of a rule of its kind and no confidence |
| Ewma.Ewma.Update | ewma-detector/src/ewma.rs:37-53 | the in-place update is one step of the clipped recurrence over mean, variance and deviation |
| EwmaHistory.AveragesAreSums | ewma-detector/src/ewma.rs:37-53 | after any samples the mean is the sum of all clipped shares, the absolute deviation the sum of all unclipped distances and the variance that of all squared clipped deviations, each weighed with alpha (1 - alpha)^age, the clipping limit three times the robust deviation before the sample |
| Ewma.RobustStddevIsLargest | ewma-detector/src/ewma.rs:70-74 | the clipping scale is the largest of EPSILON, 1.4826 times the absolute deviation and a quarter of the standard deviation |
| EwmaBounds.MeanMovesTowardsSample | ewma-detector/src/ewma.rs:37-53 | a new mean lies between the old mean and the sample and moves at most 3 alpha times the robust deviation |
| EwmaBounds.RunKeepsHull | ewma-detector/src/ewma.rs:37-53 | with samples in [0, M], after every run mean and deviation are in [0, M] and the variance in [0, M squared] |
| EwmaBounds.MeanConverges | ewma-detector/src/ewma.rs:37-80 | under constant input the error shrinks geometrically, clipping included, and the mean never overshoots |
| EwmaBounds.EnergyShrinks | ewma-detector/src/ewma.rs:37-80 | variance plus twice the squared error is a Lyapunov function for every smoothing factor in (0, 1] |
| EwmaBounds.EnergyDecays | ewma-detector/src/ewma.rs:37-80 | so it decays geometrically from the second constant sample on |
| EwmaBounds.FastSmoothingIsUnclipped | ewma-detector/src/ewma.rs:70-80 | from a factor of 0.225 on nothing is clipped and the decay is 1 - alpha/2 |
| EwmaBounds.VarianceFallsBelow | ewma-detector/src/ewma.rs:37-53 | after a computable number of constant samples the variance is under any positive target |
| Estimator.EwmaEstimator.Update | ewma-detector/src/estimator.rs:109-114 | the loop feeds each rate to both averages of its protocol, in order, and touches no other |
| Estimator.EwmaEstimator.Snapshot | ewma-detector/src/estimator.rs:77-103 | a pure read of mean, deviation and readiness |
| Readiness.UpdatesKeepPairs | ewma-detector/src/estimator.rs:109-114 | both averages of a protocol always have equally many samples |
| Readiness.FlatIsWarming | ewma-detector/src/estimator.rs:94-100 | an average of either dimension that has seen enough samples of one value makes its protocol report Warming, whatever the other holds |
| FlatRuns.FlatRunIsWarming | ewma-detector/src/estimator.rs:77-103 | after any run of the pipeline whose samples for a protocol, packets or bytes, end with enough of one value, the protocol is Warming |
| FlatRuns.FlatTrafficReturnsToWarming | ewma-detector/src/estimator.rs:77-103 | `Needed` samples are enough after any run, a number that alpha, the minimum deviation and the highest rate give |
| FlatRuns.RunsStayPaired | ewma-detector/src/estimator.rs:109-114 | after any run both averages of a protocol have seen exactly the samples that were fed to it |
| Readiness.LowMinimumRejectsNothing | ewma-detector/src/estimator.rs:94-100 | a minimum deviation at or under the floor rejects no protocol, flat or not: only samples and clock decide |
| Readiness.ReadyIff | ewma-detector/src/estimator.rs:77-103 | a baseline is in use exactly when both averages have their samples, both variances reach the square of the minimum deviation and the ticks have passed; it reports both means, and deviations of at least the minimum |
| FlatRuns.RunIsReadyIff | ewma-detector/src/estimator.rs:77-103 | the same after any run of the pipeline, samples and ticks counted over the run |
| Rates.DtSecs | ebpf-xdp-program/src/rate.rs:41-44 | there is an interval exactly when the clock advanced, and it is positive |
| Rates.DtSecsIsElapsed | ebpf-xdp-program/src/rate.rs:41-44 | it is the time that passed, in seconds |
| Rates.PrimeOrDiff | ebpf-xdp-program/src/pipeline.rs:59-71 | hands out the previous snapshot and keeps the current one; a missing one changes nothing |
| Rates.ComputedRatesAreDistinct | ebpf-xdp-program/src/rate/compute.rs:36-58 | at most one rate for each protocol, in index order |
| Rates.RatesTelescope | ebpf-xdp-program/src/pipeline.rs:59-71 | over any run of optional snapshots, rate times interval, in packets and in bytes, adds up to at least the growth of the counter, and exactly to it when the counter never falls |
| Rates.AdvancingClockLosesNothing | ebpf-xdp-program/src/rate/compute.rs:36-58 | with an advancing clock no growth goes unrated |
| Rates.NothingUnratedIffAdvancing | ebpf-xdp-program/src/rate/compute.rs:36-58 | no growth goes unrated, whatever the counters show, if and only if the clock advances from snapshot to snapshot |
| Rates.StalledClockExample | ebpf-xdp-program/src/pipeline.rs:59-71 | two snapshots at one clock reading whose growth is in no rate |
| Detectors.DetectEwma | ebpf-xdp-program/src/anomaly/ewma_detector.rs:25-96 | the loop with its `continue` yields the signals of all rates in order |
| Detectors.SignalIffDeviates | ebpf-xdp-program/src/anomaly/ewma_detector.rs:25-107 | a signal exactly when a rate is three deviations off a ready baseline, severe exactly at six, and of a kind on whose side some rate really lies |
| Detectors.StrongestDimensionDecides | ebpf-xdp-program/src/anomaly/ewma_detector.rs:65-83 | the confidence measures the largest deviation of the two, and no rate is further off on the other side than the kind's own |
| ZScores.TwoZerosIff | ewma-detector/src/zscore.rs:9-23 | when one deviation is too small, both scores are zero exactly when the other is too small as well or sits on its mean |
| ZScores.DefaultIffMinimum | ewma-detector/src/zscore.rs:9-23 | for every smoothing factor in (0, 1] the documented default of two zeros holds after all runs, for all protocols and rates, if and only if the minimum deviation exceeds EPSILON |
| ZScores.LowMinimumFails | ewma-detector/src/zscore.rs:9-23 | under any lower minimum, whatever the sample count and the ticks to wait, a run of one packet a second whose bytes leap twice ends with a baseline in use, a too small packet deviation and a byte score other than zero |
| ZScores.SteadyPacketsSettle | ewma-detector/src/ewma.rs:37-53 | the number of steady samples after which the packet deviation is under EPSILON, for every smoothing factor |
| ZScores.LopsidedRunScores | ewma-detector/src/zscore.rs:9-23 | four ticks with 1, 1, 1 packets and 100, 100, 200 bytes a second leave a baseline in use under which a byte rate of 1000 scores 8 and raises a severe signal beside a too small packet deviation |
| Detectors.ScoreCompares | ewma-detector/src/zscore.rs:13-35 | comparing a z-score with k is comparing the deviation with k standard deviations, and never holds under a negligible one |
| Detectors.DetectorAgreesWithView | ebpf-xdp-program/src/anomaly/view.rs:28-54 | the view classifies every rate as the detector does, with the same confidence |
| Detectors.ViewShowsScores | ebpf-xdp-program/src/anomaly/view.rs:28-54 | the view shows of packets and bytes each its own score, which times the deviation is the distance from the mean; nothing under a negligible deviation or while warming |
| Detectors.DetectEmergency | ebpf-xdp-program/src/anomaly/emergency_detector.rs:38-82 | the loop yields a severe signal for every rate over the first threshold of its protocol |
| Detectors.EmergencyIffBroken | ebpf-xdp-program/src/anomaly/emergency_detector.rs:38-82 | there is a signal exactly when the first threshold of the rate's protocol sets a packet limit that its packets break or a byte limit that its bytes break, and it is severe |
| Detectors.EmergencyConfidenceMeans | ebpf-xdp-program/src/anomaly/emergency_detector.rs:50-61 | its confidence is at least c exactly when a limit over zero is reached 1 + c times over in its own dimension |
| Detectors.ZeroLimitHasNoConfidence | ebpf-xdp-program/src/anomaly/emergency_detector.rs:50-61 | a broken limit of zero raises a signal with no confidence |
| Detectors.RatioConfidenceMeans | ebpf-xdp-program/src/anomaly.rs:76-78 | zero up to the threshold, one from twice it on, and in between the share by which the value is over |
| Detectors.DetectorsAreRealistic | ebpf-xdp-program/src/anomaly/ewma_detector.rs:65-83 | no detector raises a confidence outside [0, 1] |
| Detectors.DetectorsGiveOnePerKey | ebpf-xdp-program/src/pipeline/runner.rs:172-191 | both detectors together raise at most one signal for each key |
| Runner.AnomalyRunner.Tick | ebpf-xdp-program/src/pipeline/runner.rs:44-125 | one tick advances the gate, rotates the snapshots, detects against the old baseline, advances the alerts, and feeds only what is not frozen at the snapshot's time |
| Runner.AnomalyRunner.RunAnomalyPipeline | ebpf-xdp-program/src/pipeline/runner.rs:172-191 | both detectors' signals go through one tick of the manager |
| Warmup.StatusTellsRun | ebpf-xdp-program/src/pipeline/runner.rs:66-122 | after any run it counts as warmed up exactly when some processed tick had a rate whose baseline was in use, for good; and it shows the rates of the last processed tick |
| FreezeLoop.TickFeedsSample | ebpf-xdp-program/src/pipeline/runner.rs:85-94 | a tick updates a protocol's averages with its own rate if it is not frozen, and not at all otherwise |
| FreezeLoop.BaselineIsFoldOfUnfrozen | ebpf-xdp-program/src/pipeline/runner.rs:44-94 | after any run each average is the fold of the update over exactly the ticks at which its protocol was unfrozen |
| FreezeLoop.FreezingTickTeachesNothing | ebpf-xdp-program/src/pipeline/runner.rs:77-94 | a tick at which a signal passes a freezing rule feeds that protocol nothing, from any state |
| Episodes.EpisodeKeepsBaseline | ebpf-xdp-program/src/pipeline/runner.rs:67-94 | from any state and under any rule list: replay a freezing key from its slot, the snapshots, the clock readings and the first state's averages; as long as it is Pending, Firing or cooling down after each processed tick, from the tick it leaves Inactive through fire, gaps, resolve and cooldown, the averages of its protocol do not move and its slot is the replayed one |
| Episodes.ActiveIffRaised | ebpf-xdp-program/src/pipeline/runner.rs:172-191 | a key is active at a tick exactly when a rate of its protocol raises a signal for it, against the tick's own baseline, that some rule admits |
| Episodes.AttackAndCooldownKeepBaseline | ebpf-xdp-program/src/pipeline/runner.rs:67-94 | in particular through an attack that raises a key, even one never seen, until it fires, and then through any ticks within the cooldown of that fire, quiet ones and the resolve included |
| Episodes.CooldownKeepsBaseline | ebpf-xdp-program/src/alert/state.rs:180-188 | after a fire at or after t no run of snapshots from before t plus the cooldown moves them, whatever the traffic and the signals |
| Episodes.FiringKeepsBaseline | ebpf-xdp-program/src/alert/state.rs:116-147 | a Firing key of a kind with one rule stays Firing and keeps them still over any run, however long, whose gaps in the signal each stay under the resolve threshold |
| Episodes.SignalKeepsBaseline | ebpf-xdp-program/src/pipeline/runner.rs:77-94 | rates that raise the key at every processed tick keep it out of Inactive and the averages still, from any phase |
| Thawing.ColdQuietTickLearns | ebpf-xdp-program/src/pipeline/runner.rs:85-94 | once the alerts of a protocol are cold, a processed tick at which no signal of it gets past a rule feeds its rate to its averages |
| Thawing.QuietProtocolIsLearned | ebpf-xdp-program/src/pipeline/runner.rs:67-94 | every freeze ends: from any state, when the protocol has been quiet for as many processed ticks as its resolve thresholds ask for and the last snapshot lies past every cooldown, its rate is learned |
| FreezeLoop.ConstantAttackCannotBeLearned | ebpf-xdp-program/src/pipeline/runner.rs:67-94 | a rate that once qualified for a freezing rule qualifies at every later processed tick while it lasts, and its Firing alert never resolves |
| FreezeLoop.SustainedAttackFires | ebpf-xdp-program/src/pipeline/runner.rs:67-94 | and its alert, from any state, is Firing exactly from the first tick at which the threshold is complete and the cooldown over |
| Wire.DottedIsInjective | ebpf-xdp-program/src/alertmanager.rs:113-116 | different addresses have different dotted forms |
| Wire.DottedRoundTrip | ebpf-xdp-program/src/alertmanager.rs:113-116 | the dotted form reads back as its address, most significant octet first |
| Wire.LabelsAreInjective | ebpf-xdp-program/src/alertmanager.rs:75-147 | no two alerts of the three pipelines share a label set |
| Wire.LabelsAreStable | ebpf-xdp-program/src/alertmanager.rs:62-68 | the labels depend on the key alone, so a fire, its heartbeats and its resolve carry the same |
| Wire.WireNames | ebpf-xdp-program/src/alertmanager.rs:75-147 | the names under which the receiver sees each pipeline, protocol and kind |
| Dispatcher.Channel.Push | ebpf-xdp-program/src/alertmanager.rs:204-215 | accepts if there is room and the dispatcher lives, drops and counts otherwise, never blocks |
| Dispatcher.Client.PostWithRetry | ebpf-xdp-program/src/alertmanager.rs:290-318 | one to three requests, the first 2xx or 4xx is the last one, success exactly on a 2xx |
| Dispatcher.BurstIsCut | ebpf-xdp-program/src/alertmanager.rs:204-215 | of a burst that does not fit the first items are queued in order, and the others are dropped and counted |
| Dispatcher.NothingReachesTheDead | ebpf-xdp-program/src/alertmanager.rs:204-215 | once the dispatcher is gone every item is dropped, without counting as one that found the queue full |
| Dispatcher.PostedByMeans | ebpf-xdp-program/src/alertmanager.rs:290-318 | neither a 2xx nor a 4xx is followed by another request, anything else is tried three times |
| Dispatcher.Task.Fill | ebpf-xdp-program/src/alertmanager.rs:262-269 | a batch starts with the item received, and ends at 64 items or only when the queue is empty |
| Dispatcher.Task.Run | ebpf-xdp-program/src/alertmanager.rs:257-284 | against every interleaving with the sinks it ends once they are gone, with the queue empty and what was accepted in batches of 1 to 64, in order, none lost or repeated, and each batch's result is that of its own last request; what was pushed is what was accepted but for the counted drops |
| Dispatcher.ActionKeepsConsistent | ebpf-xdp-program/src/alertmanager.rs:204-215 | every action of a sink keeps the queue within 256 and the books of accepted, taken and dropped balanced |
| Dispatcher.WhatFitsIsAccepted | ebpf-xdp-program/src/alertmanager.rs:204-215 | a burst that fits is queued completely and in order |
| Delivery.DispatchTickAlerts | ebpf-xdp-program/src/alertmanager.rs:175-191 | pushes the transitions, then the heartbeats, with an end time on resolves only; does nothing without a sink |
| Delivery.TransitionsGoFirst | ebpf-xdp-program/src/alertmanager.rs:175-191 | when the queue has room for the transitions of a tick they are all queued, whatever becomes of its heartbeats |
| Delivery.TraceTellsPhase | ebpf-xdp-program/src/alert/proto_manager.rs:177-246 | however many rules share a kind, the last message of a tick about a key tells its phase |
| Delivery.TickKeepsMirror | ebpf-xdp-program/src/alertmanager.rs:69-191 | the messages of one tick of any pipeline take a mirror of the old Firing set to one of the new |
| Delivery.ReceiverIsReplica | ebpf-xdp-program/src/alertmanager.rs:69-191 | after every run of the three pipelines the receiver's open label sets are exactly those of the Firing keys |
| Delivery.RetryIsHarmless | ebpf-xdp-program/src/alertmanager.rs:286-318 | a batch that arrives twice changes nothing |
| Delivery.DeliveredRunIsMirrored | ebpf-xdp-program/src/alertmanager.rs:255-318 | through the queue, the batches and any repetition of posts that arrive in posting order, an undropped run is mirrored |
| Delivery.SuccessfulRunIsMirrored | ebpf-xdp-program/src/alertmanager.rs:255-318 | and with arrivals in posting order all else that has to be known of the network is that the dispatcher recorded a success for every batch |
| LateCopies.OrderIsInvisibleIff | ebpf-xdp-program/src/alertmanager.rs:290-318 | repeated, late and reordered copies leave the receiver as one delivery in order does, whatever the batches say and whatever it held, if and only if every batch arrives and the last copies arrive in posting order |
| LateCopies.LateRunIsMirrored | ebpf-xdp-program/src/alertmanager.rs:255-318 | so an undropped run is mirrored under any such arrivals |
| LateCopies.LateRunIsMirroredIff | ebpf-xdp-program/src/alertmanager.rs:255-318 | and under any arrivals at all if and only if for each alert the last batch about it to arrive and the last one posted agree on whether it is open |
| LateCopies.LateCopyReopens | ebpf-xdp-program/src/alertmanager.rs:290-318 | a fire, its resolve, and a late copy of the fire that opens the alert again |
| LossRepair.TickRepairsIff | ebpf-xdp-program/src/alertmanager.rs:175-191 | a tick puts every receiver right about an alert, whatever it believed, if and only if the alert is signalled and Firing after it or leaves Firing at it |
| LossRepair.RunRepairsIff | ebpf-xdp-program/src/alertmanager.rs:175-215 | a run does so if and only if one of its ticks does |
| LossRepair.HeartbeatHeals | ebpf-xdp-program/src/alert/ip_manager.rs:87-113 | so a lost fire is repaired by the next heartbeat, which comes while the signal lasts |
| LossRepair.LostResolveStays | ebpf-xdp-program/src/alertmanager.rs:204-215 | over any run in which the alert does not fire again, signalled or not, the receiver believes what it believed before |
| LossRepair.FullQueueLosesResolve | ebpf-xdp-program/src/alertmanager.rs:204-215 | a run whose fire and 255 heartbeats fill the queue, so that the resolve is dropped and the alert stays open |
| Frame.PtrAt | ebpf-xdp-program-ebpf/src/main.rs:50-60 | a header is handed out exactly when it lies inside the frame, and is the bytes at its offset |
| Frame.EncodedPacketParses | ebpf-xdp-program-ebpf/src/main.rs:115-146 | any IPv4 packet with any header length from 20 to 60 bytes parses to its own fields |
| Frame.V4IsExact | ebpf-xdp-program-ebpf/src/main.rs:115-146 | on every string of bytes a frame is seen as IPv4 with these fields exactly when it begins the encoding of a valid packet that has them, cut anywhere behind the fixed header |
| Frame.EncodedSegmentParses | ebpf-xdp-program-ebpf/src/main.rs:167-175 | a TCP header behind any such header gives back its port and its SYN-without-ACK verdict |
| Frame.BareSynIsExact | ebpf-xdp-program-ebpf/src/main.rs:228-262 | on every string of bytes a SYN is recorded, with this source and port, exactly when the frame encodes a first fragment with a whole TCP header inside its datagram, SYN set and ACK clear |
| Buckets.CountedIff | ebpf-xdp-program-ebpf/src/main.rs:87-107 | on every string of bytes a frame is counted exactly when its EtherType and length hold an IPv4 header, valid or not, or an IPv6 header |
| Buckets.BucketIff | ebpf-xdp-program-ebpf/src/main.rs:207-218 | it is counted as ICMP, TCP or UDP exactly when it begins a valid packet with protocol 1, 6 or 17, as IPv6 when it holds that header, and as other when it is any other IPv4 |
| Kernel.KernelMaps.TryProgram | ebpf-xdp-program-ebpf/src/main.rs:228-262 | the whole effect of one frame on the three maps, inserts failing or not |
| Kernel.KernelMaps.RecordSyn | ebpf-xdp-program-ebpf/src/main.rs:177-193 | a hit adds to this CPU's share, a miss inserts a fresh counter or loses the update and nothing else |
| Kernel.ReadCurrentStats | ebpf-xdp-program/src/rate/compute.rs:77-91 | the nested loops sum every bucket over the CPUs |
| Kernel.ReadSynSnapshot | ebpf-xdp-program/src/rate/synflood_compute.rs:20-42 | every entry of the map, summed over the CPUs |
| KernelRuns.HandledIsUninterrupted | ebpf-xdp-program-ebpf/src/main.rs:228-262 | the method is what the steps of one frame do when nothing comes between |
| KernelRuns.BucketsAreExact | ebpf-xdp-program-ebpf/src/main.rs:228-242 | over every interleaving each bucket holds the number and the bytes of the frames of its protocol |
| KernelRuns.SynIsConserved | ebpf-xdp-program-ebpf/src/main.rs:177-193 | for every source, what the map holds, what is in flight and what evictions and failed inserts lost add up to its bare SYNs, even when CPUs race to insert |
| KernelRuns.SynCountIsSound | ebpf-xdp-program-ebpf/src/main.rs:177-193 | the count of a source never exceeds its bare SYNs and equals them if and only if none is lost or in flight |
| KernelRuns.GrowthIsReal | ebpf-xdp-program/src/rate/synflood_compute.rs:53-82 | between two readings a counter grows by no more than the SYNs that arrived and those in flight, however often its entry is made anew |
| KernelRuns.SynsAreWithinTcp | ebpf-xdp-program-ebpf/src/main.rs:228-262 | all SYN counters together stay within the TCP bucket, in packets and in bytes |
| KernelRuns.PortsWereTouched | ebpf-xdp-program-ebpf/src/main.rs:195-205 | every entry of the port map is a touch that happened at its time, for a bare SYN that its own CPU was handling then |
| PortMap.PortMapIsExact | ebpf-xdp-program-ebpf/src/main.rs:195-205 | after every run a port entry with a time is there exactly when a recorded touch of it has that time, and none was recorded and none evicted since: a later touch always refreshes |
| PortMap.SynToIff | ebpf-xdp-program-ebpf/src/main.rs:256-259 | a touch is keyed by the source address of the packet and the destination port of its segment |
| PortMap.BegunSynIsTouched | ebpf-xdp-program-ebpf/src/main.rs:228-262 | a CPU that began a bare SYN is still busy with it or has touched its port, whether the source was tracked or not |
| PortMap.FreshPortIff | ebpf-xdp-program/src/rate/port_scan_compute.rs:50-63 | a port counts towards the breadth exactly when its last recorded touch is not evicted and at most a window old |
| PortMap.RecordedScanIsSeen | ebpf-xdp-program/src/anomaly/port_scan_detector.rs:34-47 | a source with recorded, unevicted touches of more ports than the limit within the window has a signal that says at least as many, or n others at least as broad have theirs |
| WireToRates.FramesAreAccountedFor | ebpf-xdp-program/src/rate/compute.rs:8-58 | over any run of readings, rate times interval, plus what passed while the clock stood still, is exactly the number of frames that arrived between the first and the last, and their bytes |
| TopN.SortSorts | ebpf-xdp-program/src/rate/synflood_compute.rs:75-79 | a descending permutation |
| TopN.SortIsStable | ebpf-xdp-program/src/rate/synflood_compute.rs:75-79 | equal ranks keep their order, as the library's sort does |
| TopN.FilterBeforeOrAfter | ebpf-xdp-program/src/rate/port_scan_compute.rs:73-75 | sort, truncate, filter gives the same list as filter, sort, truncate |
| TopN.TopNIsTop | ebpf-xdp-program/src/rate/port_scan_compute.rs:65-75 | as many as there are, without duplicates, in order, and nothing left out beats anything kept |
| TopTalkers.ComputeSynRatesTopN | ebpf-xdp-program/src/rate/synflood_compute.rs:53-82 | the largest n of all current sources with a positive rate, new ones counted from zero; nothing when the clock stood still |
| SynRates.SynRateIff | ebpf-xdp-program/src/rate/synflood_compute.rs:53-82 | between two readings a source has a rate exactly when its counter grew, an absent entry counting as zero, and rate times interval is the growth |
| SynRates.NewSourceCountsInFull | ebpf-xdp-program/src/rate/synflood_compute.rs:44-52 | a source that the first reading lacks counts with all it has in the second |
| SynRates.GrowthIsBalanced | ebpf-xdp-program-ebpf/src/main.rs:177-193 | between any two moments the counter changes by what was sent and was in flight before, less what is in flight after and was lost in between |
| SynRates.FloodIsSeen | ebpf-xdp-program/src/anomaly/synflood_detector.rs:29-39 | a source that sent more SYNs than the limit allows, none of them missing, has a signal, or n others at least as fast have theirs |
| TopTalkers.GroupPorts | ebpf-xdp-program/src/rate/port_scan_compute.rs:55-63 | the loop groups exactly the fresh ports of every source, and leaves no empty group |
| TopTalkers.ComputePortScanBreadth | ebpf-xdp-program/src/rate/port_scan_compute.rs:50-76 | each breadth is the number of distinct fresh ports of its source, and the largest n are kept |
| TopTalkers.BreadthsAreComplete | ebpf-xdp-program/src/rate/port_scan_compute.rs:55-71 | before truncation the breadths add up to the number of distinct fresh (source, port) pairs |
| TopTalkers.BreadthFitsU32 | ebpf-xdp-program/src/rate/port_scan_compute.rs:65-71 | the cast of a breadth to u32 is lossless |
| TopTalkers.DetectHas | ebpf-xdp-program/src/anomaly/synflood_detector.rs:29-39 | a signal for exactly the offenders over the limit, with their metric and confidence |
| TopTalkers.SignalConfidenceMeans | ebpf-xdp-program/src/anomaly.rs:76-78 | a signal's confidence is at least c exactly when its metric is 1 + c times the limit; over a limit of zero it is one |
| TopTalkers.DetectKeepsOrder | ebpf-xdp-program/src/anomaly/synflood_detector.rs:29-39 | one each, in their order |
| TopTalkers.DetectionCommutesWithTop | ebpf-xdp-program/src/anomaly/synflood_detector.rs:29-39 | truncating first gives the signals of applying the limit first |
| TopTalkers.MissedOnlyIfCrowdedOut | ebpf-xdp-program/src/anomaly/port_scan_detector.rs:34-47 | a source over the limit goes without a signal only if n others, at least as large, have one |
| TopTalkers.PortScanSignalIsReal | ebpf-xdp-program/src/anomaly/port_scan_detector.rs:34-47 | bare SYNs of a port-scan signal's source to more than the limit of different ports were being handled within the window, at least as many as the signal says |
| TopTalkers.SynFloodSignalIsReal | ebpf-xdp-program/src/anomaly/synflood_detector.rs:29-39 | a SYN-flood signal's source really sent more SYNs between the readings than the limit allows, those in flight at the first included |
| SourceRunners.SynFloodRunner.Tick | ebpf-xdp-program/src/pipeline/synflood_runner.rs:37-80 | a tick without a reading does nothing, the first reading primes, and any other ticks the manager with the signals of the largest rates and keeps these |
| SourceRunners.PortScanRunner.Tick | ebpf-xdp-program/src/pipeline/port_scan_runner.rs:36-76 | every reading ticks the manager with the signals of the largest breadths |
| SourceRuns.SynFloodFiresIffDue | ebpf-xdp-program/src/pipeline/synflood_runner.rs:37-80 | over any run, garbage collection included, a source is reported at a tick exactly when at all of the last max(1, threshold) ticks with two readings its rate was over the limit and among the largest, it has no open alert and its cooldown is over |
| SourceRuns.ReportedFloodIsReal | ebpf-xdp-program/src/pipeline/synflood_runner.rs:37-80 | and at each of those ticks, wherever in a run of the kernel the readings were taken, it had sent more SYNs in between than the limit allows, those in flight at the first included |
| SourceRuns.RealFloodIsSeen | ebpf-xdp-program/src/pipeline/synflood_runner.rs:37-80 | the other way: a tick between whose readings the source sent more SYNs than the limit allows, none missing, is one of those ticks, unless the source is crowded out |
| SourceRuns.PortScanFiresIffDue | ebpf-xdp-program/src/pipeline/port_scan_runner.rs:36-76 | the same for port scans, with every tick that has a reading |
| SourceRuns.ReportedScanIsReal | ebpf-xdp-program/src/pipeline/port_scan_runner.rs:36-76 | and at each of those ticks bare SYNs of the source to more than the limit of different ports were being handled within the window |
| SourceRuns.RealScanIsSeen | ebpf-xdp-program/src/pipeline/port_scan_runner.rs:36-76 | the other way: so is a reading with recorded, unevicted touches of more ports than the limit within the window |

## Left out

- Map access, system calls, XDP attachment, the event loop, signals and shutdown: snapshots, clock readings and request outcomes are inputs.
- The HTTP API, metrics, logging, JSON and RFC 3339 formatting, and annotations of a message: rendering only.
- `config.rs`: its resolved values are parameters.
- `diff_stats` and `compute_mix`: used for a log line only.
- Floating-point rounding and NaN: a smoothing factor outside (0, 1], which the configuration accepts, is outside the convergence results and `ZScores.DefaultIffMinimum`, and a zero limit is taken as exceeded with full confidence.
- Wrap-around of the u64 counters: they are naturals.
- The policy by which the kernel evicts, and the internals of the channel: any entry may go at any time, and the channel is a bounded queue.
- A reading of a kernel map takes one state of it; entries that change while user space iterates are not modelled.
- The delays between retries, and a dispatcher that is cancelled from outside.
- The timeout after which the receiver closes an alert by itself.
- Delivery.DispatchTickAlerts: states the effect of its pushes with no receive in between; the interleavings are those of `Dispatcher.Task.Run`.
- Delivery.SuccessfulRunIsMirrored: assumes that copies arrive in the order of the posts, as `Delivery.DeliveredRunIsMirrored` does; `LateCopies` has the exact condition without it. A success says nothing about the order in which earlier, timed-out copies arrive.
