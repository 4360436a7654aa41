/**
 Arrivals in any order: a copy of a batch that timed out can reach the receiver
 after later batches. What the receiver then holds, and the exact order of
 arrivals that leaves it a replica.
 */
module LateCopies {
  import opened Prelude
  import opened Wire
  import opened Dispatcher
  import opened Delivery
  import opened LossRepair

  type Batch = seq<AlertmanagerAlert>

  /** Every arrival is a copy of some posted batch. */
  predicate AreCopies(order: seq<nat>, posted: nat) {
    forall p :: 0 <= p < |order| ==> order[p] < posted
  }

  /** The batches as they arrive: first `order[0]`, then `order[1]`, and so on. */
  function AsArrived(posted: seq<Batch>, order: seq<nat>): (batches: seq<Batch>)
    requires AreCopies(order, |posted|)
    ensures |batches| == |order|
    ensures forall p :: 0 <= p < |order| ==> batches[p] == posted[order[p]]
  {
    seq(|order|, p requires 0 <= p < |order| => posted[order[p]])
  }

  // ---- What a list of batches says last ----

  /** What the last batch that says anything about the label set says. */
  function LastSays(batches: seq<Batch>, l: Labels): Option<bool> {
    if batches == [] then None
    else if Verdict(batches[|batches| - 1], l).Some? then Verdict(batches[|batches| - 1], l)
    else LastSays(batches[..|batches| - 1], l)
  }

  lemma {:induction false} FlattenSays(batches: seq<Batch>, l: Labels)
    ensures Verdict(Flatten(batches), l) == LastSays(batches, l)
  {
    if batches == [] {
    } else {
      var n := |batches| - 1;
      FlattenSays(batches[..n], l);
      VerdictConcat(Flatten(batches[..n]), batches[n], l);
    }
  }

  lemma {:induction false} LastSaysDecides(open: set<Labels>, batches: seq<Batch>, l: Labels)
    ensures l in ReceivedAll(open, Flatten(batches)) <==> Decide(LastSays(batches, l), l in open)
  {
    FlattenSays(batches, l);
    VerdictDecides(open, Flatten(batches), l);
  }

  /** A batch that speaks decides if every later one is silent or agrees. */
  lemma {:induction false} LastSaysAt(batches: seq<Batch>, l: Labels, p: nat)
    requires p < |batches| && Verdict(batches[p], l).Some?
    requires forall q ::
               p < q < |batches| ==> Verdict(batches[q], l).None? || Verdict(batches[q], l) == Verdict(batches[p], l)
    ensures LastSays(batches, l) == Verdict(batches[p], l)
  {
    hide Verdict;
    if p == |batches| - 1 {
    } else {
      LastSaysAt(batches[..|batches| - 1], l, p);
    }
  }

  lemma {:induction false} NobodySays(batches: seq<Batch>, l: Labels)
    requires forall q :: 0 <= q < |batches| ==> Verdict(batches[q], l).None?
    ensures LastSays(batches, l).None?
  {
    hide Verdict;
    if batches == [] {
    } else {
      NobodySays(batches[..|batches| - 1], l);
    }
  }

  /** The batch that says it. */
  lemma {:induction false} LastSpeaker(batches: seq<Batch>, l: Labels) returns (k: nat)
    requires LastSays(batches, l).Some?
    ensures k < |batches| && Verdict(batches[k], l) == LastSays(batches, l)
    ensures forall q :: k < q < |batches| ==> Verdict(batches[q], l).None?
  {
    hide Verdict;
    var n := |batches| - 1;
    if Verdict(batches[n], l).Some? {
      k := n;
    } else {
      k := LastSpeaker(batches[..n], l);
    }
  }

  // ---- Orders of arrival that do no harm ----

  /** No copy of an earlier batch arrives after the last copy of batch `i`, which arrives at `p`. */
  predicate NothingOlderAfter(order: seq<nat>, i: nat, p: nat)
    requires p < |order|
  {
    order[p] == i && forall q :: p < q < |order| ==> order[q] >= i
  }

  predicate SettlesLast(order: seq<nat>, i: nat) {
    exists p :: 0 <= p < |order| && NothingOlderAfter(order, i, p)
  }

  /** Every batch arrives, and the last copies of the batches arrive in the order in which they were posted. */
  predicate LastCopiesInOrder(order: seq<nat>, posted: nat) {
    forall i :: 0 <= i < posted ==> SettlesLast(order, i)
  }

  lemma {:induction false} SameLastWord(posted: seq<Batch>, order: seq<nat>, l: Labels)
    requires AreCopies(order, |posted|) && LastCopiesInOrder(order, |posted|)
    ensures LastSays(AsArrived(posted, order), l) == LastSays(posted, l)
  {
    hide Verdict, LastSays;
    var arrived := AsArrived(posted, order);
    if LastSays(posted, l).Some? {
      var k := LastSpeaker(posted, l);
      assert SettlesLast(order, k);
      var p :| 0 <= p < |order| && NothingOlderAfter(order, k, p);
      LastSaysAt(arrived, l, p);
    } else {
      forall i | 0 <= i < |posted| ensures Verdict(posted[i], l).None? {
        SilentAtEnd(posted, l, i);
      }
      NobodySays(arrived, l);
    }
  }

  lemma {:induction false} SilentAtEnd(batches: seq<Batch>, l: Labels, i: nat)
    requires LastSays(batches, l).None? && i < |batches|
    ensures Verdict(batches[i], l).None?
  {
    hide Verdict;
    if i == |batches| - 1 {
    } else {
      SilentAtEnd(batches[..|batches| - 1], l, i);
    }
  }

  lemma {:induction false} OrderDoesNoHarm(open: set<Labels>, posted: seq<Batch>, order: seq<nat>)
    requires AreCopies(order, |posted|) && LastCopiesInOrder(order, |posted|)
    ensures ReceivedAll(open, Flatten(AsArrived(posted, order))) == ReceivedAll(open, Flatten(posted))
  {
    var arrived := AsArrived(posted, order);
    forall l ensures l in ReceivedAll(open, Flatten(arrived)) <==> l in ReceivedAll(open, Flatten(posted)) {
      SameLastWord(posted, order, l);
      LastSaysDecides(open, arrived, l);
      LastSaysDecides(open, posted, l);
    }
  }

  // ---- And no others do none ----

  /** Nobody can tell the arrivals from the posted batches, whatever the batches say. */
  ghost predicate OrderIsInvisible(order: seq<nat>, n: nat)
    requires AreCopies(order, n)
  {
    forall open, posted: seq<Batch> | |posted| == n && NoneEmpty(posted) ::
      ReceivedAll(open, Flatten(AsArrived(posted, order))) == ReceivedAll(open, Flatten(posted))
  }

  predicate NoneEmpty(posted: seq<Batch>) {
    forall i :: 0 <= i < |posted| ==> posted[i] != []
  }

  function Opening(ip: Ipv4Addr): (batch: Batch)
    ensures batch != []
    ensures forall l :: Verdict(batch, l) == if l == LabelsOf(SynFlood(ip)) then Some(true) else None
  {
    hide LabelsOf;
    var m := AlertmanagerAlert(LabelsOf(SynFlood(ip)), 0, None, None);
    assert [m][..0] == [];
    [m]
  }

  function Closing(ip: Ipv4Addr): (batch: Batch)
    ensures batch != []
    ensures forall l :: Verdict(batch, l) == if l == LabelsOf(SynFlood(ip)) then Some(false) else None
  {
    hide LabelsOf;
    var m := AlertmanagerAlert(LabelsOf(SynFlood(ip)), 0, Some(0), None);
    assert [m][..0] == [];
    [m]
  }

  /** Batch `j` opens the alert of address 1, batch `i` closes it, and the others are about address 2. */
  function OpenThenClose(n: nat, j: nat, i: nat): (posted: seq<Batch>)
    requires j < i < n
    ensures |posted| == n && posted[j] == Opening(1) && posted[i] == Closing(1)
    ensures forall k :: 0 <= k < n && k != i && k != j ==> posted[k] == Opening(2)
  {
    seq(n, k => if k == j then Opening(1) else if k == i then Closing(1) else Opening(2))
  }

  /** Batch `i` opens the alert of address 1, and the others are about address 2. */
  function OpenOnce(n: nat, i: nat): (posted: seq<Batch>)
    requires i < n
    ensures |posted| == n && posted[i] == Opening(1)
    ensures forall k :: 0 <= k < n && k != i ==> posted[k] == Opening(2)
  {
    seq(n, k => if k == i then Opening(1) else Opening(2))
  }

  lemma TwoAlerts()
    ensures LabelsOf(SynFlood(1)) != LabelsOf(SynFlood(2))
  {
    hide LabelsOf;
    if LabelsOf(SynFlood(1)) == LabelsOf(SynFlood(2)) {
      LabelsAreInjective(SynFlood(1), SynFlood(2));
    }
  }

  /** A batch that never arrives opens nothing. */
  lemma MissingBatchShows(order: seq<nat>, n: nat, i: nat)
    requires AreCopies(order, n) && i < n && i !in order
    ensures !OrderIsInvisible(order, n)
  {
    hide LabelsOf, LastSays, Flatten, ReceivedAll;
    var posted, l := OpenOnce(n, i), LabelsOf(SynFlood(1));
    TwoAlerts();
    LastSaysAt(posted, l, i);
    NobodySays(AsArrived(posted, order), l);
    LastSaysDecides({}, posted, l);
    LastSaysDecides({}, AsArrived(posted, order), l);
    assert ReceivedAll({}, Flatten(AsArrived(posted, order))) != ReceivedAll({}, Flatten(posted));
  }

  /** The last copy of batch `i`. */
  lemma {:induction false} LastCopy(order: seq<nat>, i: nat) returns (p: nat)
    requires i in order
    ensures p < |order| && order[p] == i && forall q :: p < q < |order| ==> order[q] != i
  {
    var n := |order| - 1;
    if order[n] == i {
      p := n;
    } else {
      assert order == order[..n] + [order[n]];
      p := LastCopy(order[..n], i);
    }
  }

  /** A copy of an opening batch that arrives after the last copy of the closing one opens the alert again. */
  lemma LateCopyShows(order: seq<nat>, n: nat, i: nat, p: nat, q: nat)
    requires AreCopies(order, n) && i < n && p < q < |order| && order[p] == i && order[q] < i
    requires forall r :: p < r < |order| ==> order[r] != i
    ensures !OrderIsInvisible(order, n)
  {
    hide LabelsOf, LastSays, Flatten, ReceivedAll;
    var posted, l := OpenThenClose(n, order[q], i), LabelsOf(SynFlood(1));
    TwoAlerts();
    LastSaysAt(posted, l, i);
    LastSaysAt(AsArrived(posted, order), l, q);
    LastSaysDecides({}, posted, l);
    LastSaysDecides({}, AsArrived(posted, order), l);
    assert ReceivedAll({}, Flatten(AsArrived(posted, order))) != ReceivedAll({}, Flatten(posted));
  }

  /**
   Repeated, late and reordered copies are invisible, whatever the batches say,
   if and only if every batch arrives and the last copies arrive in order.
   */
  lemma OrderIsInvisibleIff(order: seq<nat>, n: nat)
    requires AreCopies(order, n)
    ensures OrderIsInvisible(order, n) <==> LastCopiesInOrder(order, n)
  {
    hide Flatten, ReceivedAll;
    if LastCopiesInOrder(order, n) {
      forall open, posted: seq<Batch> | |posted| == n
        ensures ReceivedAll(open, Flatten(AsArrived(posted, order))) == ReceivedAll(open, Flatten(posted))
      {
        OrderDoesNoHarm(open, posted, order);
      }
    } else {
      hide OrderIsInvisible;
      var i :| 0 <= i < n && !SettlesLast(order, i);
      if i in order {
        var p := LastCopy(order, i);
        assert !NothingOlderAfter(order, i, p);
        var q :| p < q < |order| && order[q] < i;
        LateCopyShows(order, n, i, p, q);
      } else {
        MissingBatchShows(order, n, i);
      }
    }
  }

  // ---- Runs of the pipelines ----

  /**
   The whole way with arrivals in any order: nothing is assumed of the network
   but that the last copies of the batches arrive in posting order.
   */
  lemma {:induction false} LateRunIsMirrored(run: seq<Tick>, setup: Setup, script: seq<Action<AlertmanagerAlert>>,
                                             accepted: seq<AlertmanagerAlert>, dropped: nat, posted: seq<Batch>,
                                             order: seq<nat>)
    requires IsRun(run, setup) && Pushes(script) == AllMessages(run, setup)
    requires Thinned(Pushes(script), accepted, dropped) && accepted == Flatten(posted) && dropped == 0
    requires AreCopies(order, |posted|) && LastCopiesInOrder(order, |posted|)
    ensures Mirrors(ReceivedAll({}, Flatten(AsArrived(posted, order))), After(run, setup))
  {
    hide IsRun, AllMessages, Thinned, Flatten, Mirrors, After, Pushes, LastCopiesInOrder;
    ThinnedCounts(Pushes(script), accepted, dropped);
    OrderDoesNoHarm({}, posted, order);
    ReceiverIsReplica(run, setup);
  }

  /** For each alert, the last batch about it to arrive says the same of it as the last one posted. */
  ghost predicate LastWordsAgree(posted: seq<Batch>, order: seq<nat>)
    requires AreCopies(order, |posted|)
  {
    forall id ::
      (LastSays(AsArrived(posted, order), LabelsOf(id)) == Some(true)) == (LastSays(posted, LabelsOf(id)) == Some(true))
  }

  lemma {:induction false} RunIsLabelled(run: seq<Tick>, setup: Setup)
    requires IsRun(run, setup)
    ensures Labelled(AllMessages(run, setup))
  {
    hide Follows, MessagesOf, NamesAlert;
    if run == [] {
    } else {
      var n := |run| - 1;
      RunIsLabelled(run[..n], setup);
      TickTells(After(run[..n], setup), run[n], setup, SynFlood(0));
    }
  }

  lemma {:induction false} FlattenHas(batches: seq<Batch>, m: AlertmanagerAlert)
    ensures m in Flatten(batches) <==> exists i :: 0 <= i < |batches| && m in batches[i]
  {
    if batches == [] {
    } else {
      FlattenHas(batches[..|batches| - 1], m);
    }
  }

  lemma {:induction false} ArrivalsAreLabelled(posted: seq<Batch>, order: seq<nat>)
    requires AreCopies(order, |posted|) && Labelled(Flatten(posted))
    ensures Labelled(Flatten(AsArrived(posted, order)))
  {
    hide NamesAlert, Flatten;
    forall m | m in Flatten(AsArrived(posted, order)) ensures m in Flatten(posted) {
      FlattenHas(AsArrived(posted, order), m);
      FlattenHas(posted, m);
    }
  }

  /** For one run, the receiver mirrors the pipelines if and only if the last words about each alert agree. */
  lemma {:induction false} LateRunIsMirroredIff(run: seq<Tick>, setup: Setup, posted: seq<Batch>, order: seq<nat>)
    requires IsRun(run, setup) && Flatten(posted) == AllMessages(run, setup) && AreCopies(order, |posted|)
    ensures Mirrors(ReceivedAll({}, Flatten(AsArrived(posted, order))), After(run, setup))
            <==> LastWordsAgree(posted, order)
  {
    hide IsRun, AllMessages, Flatten, After, LabelsOf, ReceivedAll, LastSays, IsFiring, NamesAlert;
    var arrived := AsArrived(posted, order);
    ReceiverIsReplica(run, setup);
    RunIsLabelled(run, setup);
    ArrivalsAreLabelled(posted, order);
    OpenStaysLabelled({}, Flatten(arrived));
    forall id
      ensures LabelsOf(id) in ReceivedAll({}, Flatten(arrived)) <==> LastSays(arrived, LabelsOf(id)) == Some(true)
    {
      LastSaysDecides({}, arrived, LabelsOf(id));
    }
    forall id ensures IsFiring(After(run, setup), id) <==> LastSays(posted, LabelsOf(id)) == Some(true) {
      LastSaysDecides({}, posted, LabelsOf(id));
    }
  }

  /**
   Two posts, each answered with a success: a fire and then its resolve. A copy
   of the first that was given up on and arrives last opens the alert again,
   and `LostResolveStays` keeps it so.
   */
  lemma LateCopyReopens()
    ensures var run, posted := Attack(0) + [RESOLVE], [AllMessages(Attack(0), EAGER), MessagesOf(RESOLVE, EAGER)];
            && IsRun(run, EAGER) && Flatten(posted) == AllMessages(run, EAGER)
            && !IsFiring(After(run, EAGER), SynFlood(ATTACKER))
            && LabelsOf(SynFlood(ATTACKER)) in ReceivedAll({}, Flatten(AsArrived(posted, [0, 1, 0])))
  {
    hide Follows, AfterTick, MessagesOf, LabelsOf, ReceivedAll, Attack, IsFiring, Verdict, LastSays;
    var attack, run, l := Attack(0), Attack(0) + [RESOLVE], LabelsOf(SynFlood(ATTACKER));
    var fire, resolve := AllMessages(attack, EAGER), MessagesOf(RESOLVE, EAGER);
    AttackIsRun(0);
    ResolveTick();
    assert run[..|run| - 1] == attack;
    FlattensTwo([fire, resolve], fire, resolve);
    ReceiverIsReplica(attack, EAGER);
    UpIsFiring();
    VerdictDecides({}, fire, l);
    LastSaysAt(AsArrived([fire, resolve], [0, 1, 0]), l, 2);
    LastSaysDecides({}, AsArrived([fire, resolve], [0, 1, 0]), l);
  }

  lemma {:induction false} FlattensTwo(batches: seq<Batch>, a: Batch, b: Batch)
    requires batches == [a, b]
    ensures Flatten(batches) == a + b
  {
    var none := batches[..0];
    FlattenAppend(none, a);
    FlattenAppend(none + [a], b);
    assert batches == none + [a] + [b];
  }
}
