/**
 The bounded queue between the ticks and the network, and the background task
 that drains it. The dispatcher runs against every interleaving with the sinks: what
 they will do is a list of actions, any number of which happen before each of
 the dispatcher's own accesses to the queue.
 */
module Dispatcher {
  import opened Prelude

  const CAPACITY := 256
  const MAX_BATCH := 64
  const RETRY_ATTEMPTS := 3

  /** The queue with its bookkeeping: all items ever accepted, and the pushes refused. */
  datatype Chan<T> = Chan(queue: seq<T>, sinks: nat, alive: bool, accepted: seq<T>, full: nat, closed: nat)

  /** `try_send`: a dead receiver or a full queue drops the item. */
  function Pushed<T>(c: Chan<T>, item: T): Chan<T> {
    if !c.alive then c.(closed := c.closed + 1)
    else if |c.queue| >= CAPACITY then c.(full := c.full + 1)
    else c.(queue := c.queue + [item], accepted := c.accepted + [item])
  }

  function PushedAll<T>(c: Chan<T>, items: seq<T>): Chan<T> {
    if items == [] then c else Pushed(PushedAll(c, items[..|items| - 1]), items[|items| - 1])
  }

  /** Items that fit are all accepted, in order. */
  lemma {:induction false} WhatFitsIsAccepted<T>(c: Chan<T>, items: seq<T>)
    requires c.alive && |c.queue| + |items| <= CAPACITY
    ensures PushedAll(c, items) == c.(queue := c.queue + items, accepted := c.accepted + items)
  {
    if items == [] {
      assert c.queue + items == c.queue && c.accepted + items == c.accepted;
    } else {
      var n := |items| - 1;
      WhatFitsIsAccepted(c, items[..n]);
      assert items == items[..n] + [items[n]];
    }
  }

  function Room<T>(c: Chan<T>): nat {
    if |c.queue| < CAPACITY then CAPACITY - |c.queue| else 0
  }

  /** Of a burst that does not fit, the first items are queued in order, and the others are counted as dropped. */
  lemma {:induction false} BurstIsCut<T>(c: Chan<T>, items: seq<T>)
    requires c.alive
    ensures var fits := if |items| < Room(c) then |items| else Room(c);
            PushedAll(c, items) == c.(queue := c.queue + items[..fits], accepted := c.accepted + items[..fits],
                                      full := c.full + |items| - fits)
  {
    if items == [] {
      assert c.queue + items[..0] == c.queue && c.accepted + items[..0] == c.accepted;
    } else {
      var n := |items| - 1;
      BurstIsCut(c, items[..n]);
      if n < Room(c) {
        assert items[..n][..n] + [items[n]] == items[..n + 1];
      } else {
        assert items[..n][..Room(c)] == items[..Room(c)];
      }
    }
  }

  /** A dispatcher that is gone takes nothing: every item is dropped, and not as one that found the queue full. */
  lemma {:induction false} NothingReachesTheDead<T>(c: Chan<T>, items: seq<T>)
    requires !c.alive
    ensures PushedAll(c, items) == c.(closed := c.closed + |items|)
  {
    if items == [] {
    } else {
      NothingReachesTheDead(c, items[..|items| - 1]);
    }
  }

  lemma {:induction false} PushedOneMore<T>(c: Chan<T>, items: seq<T>, n: nat)
    requires n < |items|
    ensures PushedAll(c, items[..n + 1]) == Pushed(PushedAll(c, items[..n]), items[n])
  {
    assert items[..n + 1][..n] == items[..n];
  }

  lemma {:induction false} PushedConcat<T>(c: Chan<T>, first: seq<T>, second: seq<T>)
    ensures PushedAll(c, first + second) == PushedAll(PushedAll(c, first), second)
  {
    if second == [] {
      assert first + second == first;
    } else {
      var n := |second| - 1;
      PushedConcat(c, first, second[..n]);
      assert (first + second)[..|first| + n] == first + second[..n];
    }
  }

  class Channel<T> {
    var queue: seq<T>
    var sinks: nat
    var alive: bool
    var full: nat
    ghost var accepted: seq<T>
    ghost var closed: nat

    ghost function View(): Chan<T>
      reads this
    {
      Chan(queue, sinks, alive, accepted, full, closed)
    }

    constructor ()
      ensures View() == Chan([], 1, true, [], 0, 0)
    {
      queue, sinks, alive, full := [], 1, true, 0;
      accepted, closed := [], 0;
    }

    /** Never blocks: an item that cannot be queued is dropped, and counted when the queue is full. */
    method Push(item: T)
      modifies this
      ensures View() == Pushed(old(View()), item)
    {
      if alive && |queue| < CAPACITY {
        queue, accepted := queue + [item], accepted + [item];
      } else if alive {
        full := full + 1;
      } else {
        closed := closed + 1;
      }
    }
  }

  // ---- The sinks ----

  datatype Action<T> = Push(item: T) | CloneSink | DropSink

  function SinksAfter<T>(sinks: nat, a: Action<T>): nat
    requires sinks > 0
  {
    match a
    case Push(_) => sinks
    case CloneSink => sinks + 1
    case DropSink => sinks - 1
  }

  /** Only a sink can act, and every sink is dropped in the end. */
  predicate Legal<T>(sinks: nat, script: seq<Action<T>>)
    decreases |script|
  {
    if script == [] then sinks == 0
    else sinks > 0 && Legal(SinksAfter(sinks, script[0]), script[1..])
  }

  /** The items that the sinks push, in order. */
  function Pushes<T>(script: seq<Action<T>>): seq<T> {
    if script == [] then []
    else
      var n := |script| - 1;
      Pushes(script[..n]) + if script[n].Push? then [script[n].item] else []
  }

  /** `kept` is `all` without `dropped` of its items, order unchanged. */
  predicate Thinned<T(==)>(all: seq<T>, kept: seq<T>, dropped: nat)
    decreases |all|
  {
    if all == [] then kept == [] && dropped == 0
    else
      var n := |all| - 1;
      || (kept != [] && kept[|kept| - 1] == all[n] && Thinned(all[..n], kept[..|kept| - 1], dropped))
      || (dropped > 0 && Thinned(all[..n], kept, dropped - 1))
  }

  lemma {:induction false} ThinnedCounts<T>(all: seq<T>, kept: seq<T>, dropped: nat)
    requires Thinned(all, kept, dropped)
    ensures |kept| + dropped == |all|
    ensures dropped == 0 ==> kept == all
    decreases |all|
  {
    if all == [] {
    } else {
      var n := |all| - 1;
      if kept != [] && kept[|kept| - 1] == all[n] && Thinned(all[..n], kept[..|kept| - 1], dropped) {
        ThinnedCounts(all[..n], kept[..|kept| - 1], dropped);
      } else {
        ThinnedCounts(all[..n], kept, dropped - 1);
      }
    }
  }

  lemma ThinnedGrows<T>(all: seq<T>, kept: seq<T>, dropped: nat, x: T)
    requires Thinned(all, kept, dropped)
    ensures Thinned(all + [x], kept + [x], dropped) && Thinned(all + [x], kept, dropped + 1)
  {
    assert (all + [x])[..|all|] == all && (kept + [x])[..|kept|] == kept;
  }

  // ---- What the dispatcher and the sinks keep between them ----

  function Flatten<T>(batches: seq<seq<T>>): seq<T> {
    if batches == [] then [] else Flatten(batches[..|batches| - 1]) + batches[|batches| - 1]
  }

  lemma {:induction false} FlattenAppend<T>(batches: seq<seq<T>>, batch: seq<T>)
    ensures Flatten(batches + [batch]) == Flatten(batches) + batch
  {
    assert (batches + [batch])[..|batches|] == batches;
  }

  /**
   The sinks have done all of `script` but `pending`; what was accepted is what
   the dispatcher has `taken` and what is queued, in order, and is what was pushed
   but for the counted drops.
   */
  ghost predicate Consistent<T>(c: Chan<T>, taken: seq<T>, script: seq<Action<T>>, pending: seq<Action<T>>) {
    && c.alive && c.closed == 0 && |c.queue| <= CAPACITY
    && |pending| <= |script| && pending == script[|script| - |pending|..]
    && Legal(c.sinks, pending)
    && c.accepted == taken + c.queue
    && Thinned(Pushes(script[..|script| - |pending|]), c.accepted, c.full)
  }

  function Acted<T>(c: Chan<T>, a: Action<T>): Chan<T>
    requires c.sinks > 0
  {
    if a.Push? then Pushed(c, a.item) else c.(sinks := SinksAfter(c.sinks, a))
  }

  lemma {:induction false} ConsistentAtFirst<T>(c: Chan<T>, script: seq<Action<T>>)
    requires c == Chan([], c.sinks, true, [], 0, 0) && Legal(c.sinks, script)
    ensures Consistent(c, [], script, script)
  {
    assert script[0..] == script && script[..0] == [];
  }

  /** The pushes grow by one action, and what was accepted by no more. */
  lemma {:induction false} ActionKeepsThinned<T>(c: Chan<T>, done: seq<Action<T>>, a: Action<T>)
    requires c.alive && c.sinks > 0 && Thinned(Pushes(done), c.accepted, c.full)
    ensures Thinned(Pushes(done + [a]), Acted(c, a).accepted, Acted(c, a).full)
  {
    hide Thinned;
    assert (done + [a])[..|done|] == done;
    if a.Push? {
      ThinnedGrows(Pushes(done), c.accepted, c.full, a.item);
    } else {
      assert Pushes(done) + [] == Pushes(done);
    }
  }

  lemma ActionKeepsConsistent<T>(c: Chan<T>, taken: seq<T>, script: seq<Action<T>>, pending: seq<Action<T>>)
    requires Consistent(c, taken, script, pending) && pending != []
    ensures Consistent(Acted(c, pending[0]), taken, script, pending[1..])
  {
    hide Thinned, Pushes;
    var n, a := |script| - |pending|, pending[0];
    ActionKeepsThinned(c, script[..n], a);
    assert script[..n + 1] == script[..n] + [a] && pending[1..] == script[n + 1..];
    assert Acted(c, a).accepted == taken + Acted(c, a).queue by {
      if a.Push? {
        assert (taken + c.queue) + [a.item] == taken + (c.queue + [a.item]);
      }
    }
  }

  lemma TakeKeepsConsistent<T>(c: Chan<T>, taken: seq<T>, script: seq<Action<T>>, pending: seq<Action<T>>)
    requires Consistent(c, taken, script, pending) && c.queue != []
    ensures Consistent(c.(queue := c.queue[1..]), taken + [c.queue[0]], script, pending)
  {
    hide Thinned, Legal;
    assert taken + c.queue == (taken + [c.queue[0]]) + c.queue[1..];
  }

  // ---- Posting ----

  /** How a request ended: a status of 2xx, of 4xx, another status, or no response. */
  datatype Outcome = Success | ClientError | OtherStatus | TransportError

  predicate Retryable(o: Outcome) {
    o.OtherStatus? || o.TransportError?
  }

  /**
   The requests `lo..hi` are one batch's: at most three, the first 2xx or 4xx is the last, and only a
   2xx is a success.
   */
  predicate PostedBy(net: nat -> Outcome, lo: nat, hi: nat, ok: bool) {
    && lo < hi <= lo + RETRY_ATTEMPTS
    && (forall r :: lo <= r < hi - 1 ==> Retryable(net(r)))
    && (hi < lo + RETRY_ATTEMPTS ==> !Retryable(net(hi - 1)))
    && (ok <==> net(hi - 1) == Success)
  }

  /**
   Neither a success nor a rejection is ever followed by another request, and nothing else is given
   up on before the third.
   */
  lemma PostedByMeans(net: nat -> Outcome, lo: nat, hi: nat, ok: bool)
    requires PostedBy(net, lo, hi, ok)
    ensures 1 <= hi - lo <= 3
    ensures forall r :: lo <= r < hi - 1 ==> net(r) != Success && net(r) != ClientError
    ensures net(hi - 1) == Success || net(hi - 1) == ClientError || hi - lo == 3
    ensures ok <==> net(hi - 1) == Success
  {}

  /** Where the requests of batch `i` begin, given where those of every batch end. */
  function StartOf(first: nat, ends: seq<nat>, i: nat): nat
    requires i <= |ends|
  {
    if i == 0 then first else ends[i - 1]
  }

  /** Each batch has between one and `MAX_BATCH` items, requests of its own and the result of the last of them. */
  ghost predicate Booked<T>(net: nat -> Outcome, first: nat, posted: seq<seq<T>>, results: seq<bool>, ends: seq<nat>) {
    && |results| == |posted| && |ends| == |posted|
    && forall i ::
         0 <= i < |posted| ==>
           1 <= |posted[i]| <= MAX_BATCH && PostedBy(net, StartOf(first, ends, i), ends[i], results[i])
  }

  lemma BookOne<T>(net: nat -> Outcome, first: nat, posted: seq<seq<T>>, results: seq<bool>, ends: seq<nat>,
                   batch: seq<T>, ok: bool, end: nat)
    requires Booked(net, first, posted, results, ends) && 1 <= |batch| <= MAX_BATCH
    requires PostedBy(net, StartOf(first, ends, |ends|), end, ok)
    ensures Booked(net, first, posted + [batch], results + [ok], ends + [end])
  {
    hide PostedBy;
  }

  class Client {
    const net: nat -> Outcome
    var requests: nat

    constructor (net: nat -> Outcome)
      ensures this.net == net && requests == 0
    {
      this.net := net;
      requests := 0;
    }

    /** At most three requests: the first 2xx or 4xx ends the matter, and only a 2xx is a success. */
    method PostWithRetry() returns (ok: bool)
      modifies this
      ensures PostedBy(net, old(requests), requests, ok)
    {
      for attempt := 0 to RETRY_ATTEMPTS
        invariant requests == old(requests) + attempt
        invariant forall i :: old(requests) <= i < requests ==> Retryable(net(i))
      {
        var outcome := net(requests);
        requests := requests + 1;
        match outcome {
          case Success => return true;
          case ClientError => return false;
          case OtherStatus => {}
          case TransportError => {}
        }
      }
      ok := false;
    }
  }

  // ---- The background task ----

  class Task<T> {
    const rx: Channel<T>
    const client: Client
    /** What the sinks are still going to do. */
    var pending: seq<Action<T>>
    var posted: seq<seq<T>>
    var results: seq<bool>
    /** How many requests had been made when each batch was done with. */
    ghost var ends: seq<nat>

    constructor (rx: Channel<T>, client: Client, pending: seq<Action<T>>)
      ensures this.rx == rx && this.client == client && this.pending == pending
      ensures posted == [] && results == [] && ends == []
    {
      this.rx, this.client, this.pending := rx, client, pending;
      posted, results, ends := [], [], [];
    }

    /** A bound on all that can still happen. */
    ghost function Work(): nat
      reads this, rx
    {
      2 * |pending| + |rx.queue|
    }

    ghost predicate Between(taken: seq<T>, script: seq<Action<T>>)
      reads this, rx
    {
      Consistent(rx.View(), taken, script, pending)
    }

    method SinksAct(ghost taken: seq<T>, ghost script: seq<Action<T>>)
      requires Between(taken, script) && pending != []
      modifies this`pending, rx
      ensures Between(taken, script) && Work() < old(Work())
      ensures pending == old(pending[1..])
    {
      hide Thinned;
      ActionKeepsConsistent(rx.View(), taken, script, pending);
      var a := pending[0];
      pending := pending[1..];
      match a {
        case Push(item) => rx.Push(item);
        case CloneSink => rx.sinks := rx.sinks + 1;
        case DropSink => rx.sinks := rx.sinks - 1;
      }
    }

    /** Any number of actions of the sinks. */
    method Interleave(ghost taken: seq<T>, ghost script: seq<Action<T>>)
      requires Between(taken, script)
      modifies this`pending, rx
      ensures Between(taken, script) && Work() <= old(Work())
    {
      while *
        invariant Between(taken, script) && Work() <= old(Work())
        decreases |pending|
      {
        if pending == [] {
          break;
        }
        SinksAct(taken, script);
      }
    }

    method Take(ghost taken: seq<T>, ghost script: seq<Action<T>>) returns (item: T)
      requires Between(taken, script) && rx.queue != []
      modifies rx
      ensures Between(taken + [item], script) && Work() < old(Work())
    {
      hide Thinned, Legal;
      TakeKeepsConsistent(rx.View(), taken, script, pending);
      item := rx.queue[0];
      rx.queue := rx.queue[1..];
    }

    /** `recv`: waits for an item, or for the last sink to go. */
    method Recv(ghost taken: seq<T>, ghost script: seq<Action<T>>) returns (item: Option<T>)
      requires Between(taken, script)
      modifies this`pending, rx
      ensures item.Some? ==> Between(taken + [item.value], script) && Work() < old(Work())
      ensures item.None? ==> Between(taken, script) && rx.queue == [] && rx.sinks == 0 && pending == []
    {
      hide Thinned;
      Interleave(taken, script);
      while rx.queue == [] && rx.sinks > 0
        invariant Between(taken, script) && Work() <= old(Work())
        decreases Work()
      {
        SinksAct(taken, script);
      }
      if rx.queue == [] {
        return None;
      }
      var first := Take(taken, script);
      item := Some(first);
    }

    /** `try_recv`: whatever is there now. */
    method TryRecv(ghost taken: seq<T>, ghost script: seq<Action<T>>) returns (item: Option<T>)
      requires Between(taken, script)
      modifies this`pending, rx
      ensures item.Some? ==> Between(taken + [item.value], script)
      ensures item.None? ==> Between(taken, script) && rx.queue == []
      ensures Work() <= old(Work())
    {
      hide Thinned, Legal;
      Interleave(taken, script);
      if rx.queue == [] {
        return None;
      }
      var next := Take(taken, script);
      item := Some(next);
    }

    /** One batch: a first item, then more while there are any and there is room. */
    method Fill(first: T, ghost taken: seq<T>, ghost script: seq<Action<T>>) returns (batch: seq<T>)
      requires Between(taken + [first], script)
      modifies this`pending, rx
      ensures 1 <= |batch| <= MAX_BATCH && Between(taken + batch, script) && Work() <= old(Work())
      ensures batch[0] == first && (|batch| < 64 ==> rx.queue == [])
    {
      hide Consistent;
      batch := [first];
      while |batch| < MAX_BATCH
        invariant 1 <= |batch| <= MAX_BATCH && Between(taken + batch, script) && Work() <= old(Work())
        invariant batch[0] == first
      {
        var next := TryRecv(taken + batch, script);
        if next.None? {
          break;
        }
        assert (taken + batch) + [next.value] == taken + (batch + [next.value]);
        batch := batch + [next.value];
      }
    }

    /** Every batch that was posted is booked, and no request was made but theirs. */
    ghost predicate Batched(first: nat)
      reads this, client
    {
      Booked(client.net, first, posted, results, ends) && client.requests == StartOf(first, ends, |ends|)
    }

    /** One iteration of the drain loop; `done` when every sink is gone and the queue is empty. */
    method Round(ghost script: seq<Action<T>>, ghost first: nat) returns (done: bool)
      requires Between(Flatten(posted), script) && Batched(first)
      modifies this, rx, client
      ensures Between(Flatten(posted), script) && Batched(first)
      ensures old(posted) <= posted && |posted| == |old(posted)| + if done then 0 else 1
      ensures if done then client.requests == old(client.requests)
              else client.requests - old(client.requests) in {1, 2, 3}
      ensures if done then rx.queue == [] && rx.sinks == 0 && pending == [] else Work() < old(Work())
    {
      hide Consistent, Booked;
      var item := Recv(Flatten(posted), script);
      if item.None? {
        return true;
      }
      var batch := Fill(item.value, Flatten(posted), script);
      var ok := client.PostWithRetry();
      FlattenAppend(posted, batch);
      BookOne(client.net, first, posted, results, ends, batch, ok, client.requests);
      posted, results, ends := posted + [batch], results + [ok], ends + [client.requests];
      done := false;
    }

    /**
     Drains the queue in batches until every sink is gone. However the sinks
     interleave, it ends, with the queue empty and every accepted item in
     exactly one posted batch, in the order in which it was accepted, and with
     the result of each batch's last request on record.
     */
    method Run()
      requires rx.View() == Chan([], rx.sinks, true, [], 0, 0) && Legal(rx.sinks, pending)
      requires posted == [] && results == [] && ends == []
      modifies this, rx, client
      ensures pending == [] && rx.sinks == 0 && rx.queue == [] && !rx.alive && rx.closed == 0
      ensures rx.accepted == Flatten(posted) && Batched(old(client.requests))
      ensures forall i :: 0 <= i < |posted| ==> 1 <= |posted[i]| <= 64
      ensures |posted| <= client.requests - old(client.requests) <= RETRY_ATTEMPTS * |posted|
      ensures Thinned(Pushes(old(pending)), rx.accepted, rx.full)
    {
      hide Thinned;
      ghost var script, first := pending, client.requests;
      ConsistentAtFirst(rx.View(), script);
      var done := false;
      while !done
        invariant Between(Flatten(posted), script) && Batched(first)
        invariant |posted| <= client.requests - first <= RETRY_ATTEMPTS * |posted|
        invariant done ==> rx.queue == [] && rx.sinks == 0 && pending == []
        decreases !done, Work()
      {
        done := Round(script, first);
      }
      assert script[..|script|] == script && Flatten(posted) + [] == Flatten(posted);
      rx.alive := false;
    }
  }
}
