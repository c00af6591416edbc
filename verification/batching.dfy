/** The InfluxDB sink's event loop: messages gathered into blocks that are handed to workers without ever blocking. */
module Batching {
  /** What the loop's select picks next. Whether a message is filtered is up to the configured filters. */
  datatype Event<T> = Incoming(item: T, filtered: bool) | Tick | WorkerTakes | InputClosed | Cancelled

  /** A slice of messages; workers hold on to the very slice they were handed. */
  class Block<T> {
    var items: seq<T>

    constructor ()
      ensures items == []
    {
      items := [];
    }
  }

  /** A block that left the loop, sent to the workers or dropped, and how many blocks they then had queued. */
  datatype Flushed<T> = Flushed(items: seq<T>, sent: bool, queued: nat)

  function AllItems<T>(flushes: seq<Flushed<T>>): seq<T> {
    if flushes == [] then [] else AllItems(flushes[..|flushes| - 1]) + flushes[|flushes| - 1].items
  }

  /** The contents of the sent blocks, in order. */
  function SentItems<T>(flushes: seq<Flushed<T>>): seq<seq<T>> {
    if flushes == [] then []
    else
      var last := flushes[|flushes| - 1];
      SentItems(flushes[..|flushes| - 1]) + if last.sent then [last.items] else []
  }

  /** The messages that pass the filters, in order of arrival. */
  function Unfiltered<T>(events: seq<Event<T>>): seq<T> {
    if events == [] then []
    else
      var e := events[|events| - 1];
      Unfiltered(events[..|events| - 1]) + if e.Incoming? && !e.filtered then [e.item] else []
  }

  lemma {:induction false} NothingUnfiltered<T>()
    ensures Unfiltered<T>([]) == []
  {
  }

  lemma {:induction false} UnfilteredSnoc<T>(events: seq<Event<T>>, e: Event<T>)
    ensures Unfiltered(events + [e]) == Unfiltered(events) + if e.Incoming? && !e.filtered then [e.item] else []
  {
    assert (events + [e])[..|events|] == events;
  }

  lemma {:induction false} FlushSnoc<T>(flushes: seq<Flushed<T>>, f: Flushed<T>)
    ensures AllItems(flushes + [f]) == AllItems(flushes) + f.items
    ensures SentItems(flushes + [f]) == SentItems(flushes) + if f.sent then [f.items] else []
  {
    assert (flushes + [f])[..|flushes|] == flushes;
  }

  // ------------------------------------------------- the loop, seen from outside

  /** The current block, the blocks queued, whether a worker waits at an unbuffered channel, and what was flushed. */
  datatype Loop<T> = Loop(block: seq<T>, queued: nat, waiting: bool, flushes: seq<Flushed<T>>)

  /** flush: nothing to do for an empty block; a full channel loses the block. */
  function FlushLoop<T>(l: Loop<T>, capacity: nat): Loop<T> {
    if l.block == [] then l
    else
      var sent := l.queued < capacity || l.waiting;
      Loop([], if sent && capacity > 0 then l.queued + 1 else l.queued, false,
           l.flushes + [Flushed(l.block, sent, l.queued)])
  }

  /** One event: a message fills the block, which goes when it is full; a tick or the end sends what there is. */
  function Turn<T>(l: Loop<T>, e: Event<T>, maxBlocks: nat, capacity: nat): Loop<T> {
    match e
    case Incoming(item, filtered) =>
      if filtered then l
      else
        var m := l.(block := l.block + [item]);
        if |m.block| >= maxBlocks then FlushLoop(m, capacity) else m
    case WorkerTakes => if l.queued > 0 then l.(queued := l.queued - 1) else l.(waiting := capacity == 0)
    case _ => FlushLoop(l, capacity)
  }

  function Turns<T>(l: Loop<T>, events: seq<Event<T>>, maxBlocks: nat, capacity: nat): Loop<T> {
    if events == [] then l
    else Turn(Turns(l, events[..|events| - 1], maxBlocks, capacity), events[|events| - 1], maxBlocks, capacity)
  }

  function Limit(maxBlocks: nat): nat {
    if maxBlocks == 0 then 1 else maxBlocks
  }

  /** Batches that left before they were full. */
  function Small<T>(flushes: seq<Flushed<T>>, limit: nat): nat {
    if flushes == [] then 0
    else Small(flushes[..|flushes| - 1], limit) + if |flushes[|flushes| - 1].items| < limit then 1 else 0
  }

  /** Ticks and ends among the events. */
  function Pushes<T>(events: seq<Event<T>>): nat {
    if events == [] then 0
    else
      var e := events[|events| - 1];
      Pushes(events[..|events| - 1]) + if e.Tick? || e.InputClosed? || e.Cancelled? then 1 else 0
  }

  lemma {:induction false} TurnsStart<T>(l: Loop<T>, maxBlocks: nat, capacity: nat)
    ensures Turns(l, [], maxBlocks, capacity) == l
  {
  }

  lemma {:induction false} TurnsSnoc<T>(l: Loop<T>, events: seq<Event<T>>, e: Event<T>, maxBlocks: nat, capacity: nat)
    ensures Turns(l, events + [e], maxBlocks, capacity)
      == Turn(Turns(l, events, maxBlocks, capacity), e, maxBlocks, capacity)
  {
    assert (events + [e])[..|events|] == events;
  }

  /** One event flushes at most once: a full batch, or at a tick or the end what there is. */
  lemma {:induction false} TurnFlushes<T>(l: Loop<T>, e: Event<T>, maxBlocks: nat, capacity: nat)
    requires |l.block| < Limit(maxBlocks)
    ensures
      var m := Turn(l, e, maxBlocks, capacity);
      && |m.block| < Limit(maxBlocks)
      && (m.flushes == l.flushes || (m.block == [] && |m.flushes| == |l.flushes| + 1
            && m.flushes[..|l.flushes|] == l.flushes))
      && (e.Tick? || e.InputClosed? || e.Cancelled? ==> m.block == [])
      && ((e.Incoming? || e.WorkerTakes?) && m.flushes != l.flushes ==>
            |m.flushes[|l.flushes|].items| == Limit(maxBlocks))
  {
  }

  /**
   * A batch that is not full leaves only at a tick or at the end: there are no more such batches than ticks and
   * ends. Without any, every batch is full, and what is left over waits in the block.
   */
  lemma {:induction false} BatchesAreFull<T>(l: Loop<T>, events: seq<Event<T>>, maxBlocks: nat, capacity: nat)
    requires |l.block| < Limit(maxBlocks)
    ensures
      var m := Turns(l, events, maxBlocks, capacity);
      && |m.block| < Limit(maxBlocks)
      && Small(m.flushes, maxBlocks) <= Small(l.flushes, maxBlocks) + Pushes(events)
  {
    hide Turn;
    if events != [] {
      var front, e := events[..|events| - 1], events[|events| - 1];
      BatchesAreFull(l, front, maxBlocks, capacity);
      TurnFlushes(Turns(l, front, maxBlocks, capacity), e, maxBlocks, capacity);
    }
  }

  lemma {:induction false} NoneSmall<T>(flushes: seq<Flushed<T>>, limit: nat)
    ensures Small(flushes, limit) == 0 <==> forall i :: 0 <= i < |flushes| ==> |flushes[i].items| >= limit
  {
    if flushes != [] {
      NoneSmall(flushes[..|flushes| - 1], limit);
      var n := |flushes| - 1;
      assert forall i :: 0 <= i < n ==> flushes[..n][i] == flushes[i];
    }
  }

  lemma {:induction false} NoPushes<T>(events: seq<Event<T>>)
    ensures Pushes(events) == 0 <==>
      forall i :: 0 <= i < |events| ==> events[i].Incoming? || events[i].WorkerTakes?
  {
    if events != [] {
      NoPushes(events[..|events| - 1]);
      var n := |events| - 1;
      assert forall i :: 0 <= i < n ==> events[..n][i] == events[i];
    }
  }

  /** After a worker has taken a block, or waits for one at an unbuffered channel, the next block is not dropped. */
  lemma {:induction false} TakingMakesRoom<T>(l: Loop<T>, e: Event<T>, maxBlocks: nat, capacity: nat)
    requires l.queued <= capacity
    ensures
      var m := Turn(l, WorkerTakes, maxBlocks, capacity);
      var n := Turn(m, e, maxBlocks, capacity);
      && m.block == l.block && m.flushes == l.flushes
      && (n.flushes != m.flushes ==> n.flushes[|n.flushes| - 1].sent)
  {
  }

  class Batcher<T> {
    const maxBlocks: nat
    /** Capacity of the channel to the workers. */
    const maxConnections: nat
    var block: Block<T>
    /** The channel to the workers. */
    var channel: seq<Block<T>>
    /** A worker waits at a channel without capacity. */
    var waiting: bool
    var closed: bool
    /** Every flush so far, and the blocks ever sent; the workers have taken the first `taken` of them. */
    ghost var flushes: seq<Flushed<T>>
    ghost var sent: seq<Block<T>>
    ghost var taken: nat
    /** The unfiltered messages received so far. */
    ghost var accepted: seq<T>

    /** Between two turns of the loop the block is never full. */
    ghost predicate Valid()
      reads this, block, sent
    {
      Ledger() && |block.items| < Limit(maxBlocks)
    }

    /** What holds throughout, also while a full block is about to be flushed. */
    ghost predicate Ledger()
      reads this, block, sent
    {
      // nothing lost, nothing twice, nothing out of order
      && AllItems(flushes) + block.items == accepted
      && |block.items| <= Limit(maxBlocks)
      && Batches(flushes)
      // a sent block still holds what it held when it was sent
      && block !in sent
      && Handed(sent, flushes)
      // workers receive the sent blocks in order
      && Queue()
    }

    ghost predicate Queue()
      reads this`taken, this`sent, this`channel, this`waiting
    {
      && taken <= |sent| && channel == sent[taken..] && |channel| <= maxConnections
      && (waiting ==> maxConnections == 0)
    }

    /** These blocks hold what was sent. */
    ghost predicate Handed(blocks: seq<Block<T>>, flushes: seq<Flushed<T>>)
      reads blocks
    {
      && |blocks| == |SentItems(flushes)|
      && (forall i :: 0 <= i < |blocks| ==> blocks[i].items == SentItems(flushes)[i])
    }

    lemma {:induction false} HandedSnoc(blocks: seq<Block<T>>, flushes: seq<Flushed<T>>, b: Block<T>, f: Flushed<T>)
      requires Handed(blocks, flushes) && f.items == b.items
      ensures Handed(blocks + if f.sent then [b] else [], flushes + [f])
    {
      FlushSnoc(flushes, f);
    }

    /** No empty and no oversized batch, and none dropped but at a full channel. */
    predicate Batches(flushes: seq<Flushed<T>>) {
      && (forall i :: 0 <= i < |flushes| ==> 1 <= |flushes[i].items| <= Limit(maxBlocks))
      && (forall i :: 0 <= i < |flushes| ==> Justified(flushes[i], |SentItems(flushes[..i])|))
    }

    /** With `before` batches sent so far, no more can be queued. */
    predicate Justified(f: Flushed<T>, before: nat) {
      && f.queued <= before && f.queued <= maxConnections
      && (f.queued < maxConnections ==> f.sent)
      && (f.sent ==> f.queued < maxConnections || maxConnections == 0)
    }

    ghost function Now(): Loop<T>
      reads this, block
    {
      Loop(block.items, |channel|, waiting, flushes)
    }

    constructor (maxBlocks: nat, maxConnections: nat)
      ensures Valid() && fresh(block) && !closed && accepted == [] && Now() == Loop([], 0, false, []) && sent == []
      ensures this.maxBlocks == maxBlocks && this.maxConnections == maxConnections
    {
      this.maxBlocks, this.maxConnections := maxBlocks, maxConnections;
      block := new Block();
      channel, waiting, closed := [], false, false;
      flushes, sent, taken, accepted := [], [], 0, [];
    }

    /** The select of flush: the block goes to the workers if that needs no waiting. */
    method TrySend() returns (room: bool)
      requires Queue()
      modifies this`channel, this`waiting, this`sent, this`taken
      ensures Queue() && !waiting
      ensures room == (old(|channel|) < maxConnections || old(waiting))
      ensures sent == old(sent) + if room then [block] else []
      ensures |channel| == old(|channel|) + if room && maxConnections > 0 then 1 else 0
    {
      room := |channel| < maxConnections || waiting;
      waiting := false;
      if room {
        sent := sent + [block];
        if maxConnections > 0 {
          channel := channel + [block];
        } else {
          // straight into the hands of the worker that waits
          taken := taken + 1;
        }
      }
    }

    /** flush: a non-blocking send of the block, and a new one in its place. */
    method Flush()
      requires Ledger() && !closed
      modifies this`block, this`channel, this`waiting, this`flushes, this`sent, this`taken
      ensures Valid() && block.items == [] && !closed
      ensures block == old(block) || fresh(block)
      ensures Now() == FlushLoop(old(Now()), maxConnections)
      ensures old(sent) <= sent
    {
      hide AllItems, SentItems, Batches, Handed, Queue;
      if |block.items| == 0 { return; }
      ghost var f := Flushed(block.items, |channel| < maxConnections || waiting, |channel|);
      FlushSnoc(flushes, f);
      CanBeQueued();
      BatchesSnoc(flushes, f);
      HandedSnoc(sent, flushes, block, f);
      var _ := TrySend();
      flushes := flushes + [f];
      block := new Block();
      assert AllItems(flushes) + [] == AllItems(flushes);
    }

    lemma {:induction false} CanBeQueued()
      requires Ledger()
      ensures |channel| <= |SentItems(flushes)| && |channel| <= maxConnections && (waiting ==> maxConnections == 0)
    {
      hide SentItems, Batches, AllItems;
    }

    lemma {:induction false} BatchesSnoc(flushes: seq<Flushed<T>>, f: Flushed<T>)
      requires Batches(flushes) && 1 <= |f.items| <= Limit(maxBlocks) && Justified(f, |SentItems(flushes)|)
      ensures Batches(flushes + [f])
    {
      hide SentItems;
      var all := flushes + [f];
      forall i | 0 <= i < |all|
        ensures Justified(all[i], |SentItems(all[..i])|)
      {
        assert all[..i] == flushes[..i];
        if i == |flushes| { assert flushes[..i] == flushes; }
      }
    }

    /** One turn of the loop; true when it was the last. */
    method Handle(e: Event<T>) returns (done: bool)
      requires Valid() && !closed
      modifies this`block, this`channel, this`waiting, this`closed, this`flushes, this`sent, this`taken,
        this`accepted, block
      ensures Valid() && (block == old(block) || fresh(block))
      ensures accepted == old(accepted) + if e.Incoming? && !e.filtered then [e.item] else []
      ensures done == closed == (e.InputClosed? || e.Cancelled?)
      ensures done ==> block.items == [] && AllItems(flushes) == accepted
      ensures Now() == Turn(old(Now()), e, maxBlocks, maxConnections) && (e.Tick? ==> block.items == [])
      ensures old(flushes) <= flushes && old(sent) <= sent
    {
      hide AllItems, SentItems, Batches, Handed;
      done := false;
      match e
      case Incoming(item, filtered) =>
        if !filtered { Append(item); }
      case Tick =>
        Flush();
      case WorkerTakes =>
        if channel != [] {
          channel, taken := channel[1..], taken + 1;
        } else {
          waiting := maxConnections == 0;
        }
      case _ =>
        Flush();
        assert AllItems(flushes) + [] == AllItems(flushes);
        closed := true;
        done := true;
    }

    /** One unfiltered message: appended in place, the block flushed when it is full. */
    method Append(item: T)
      requires Valid() && !closed
      modifies this`block, this`channel, this`waiting, this`flushes, this`sent, this`taken, this`accepted, block
      ensures Valid() && (block == old(block) || fresh(block)) && !closed
      ensures accepted == old(accepted) + [item]
      ensures Now() == Turn(old(Now()), Incoming(item, false), maxBlocks, maxConnections)
      ensures old(|block.items|) + 1 < maxBlocks ==>
        flushes == old(flushes) && block.items == old(block.items) + [item]
      ensures old(|block.items|) + 1 >= maxBlocks ==>
        && |flushes| == |old(flushes)| + 1 && block.items == []
        && flushes[|old(flushes)|].items == old(block.items) + [item]
      ensures old(flushes) <= flushes && old(sent) <= sent
    {
      hide AllItems, SentItems, Batches, Handed;
      ghost var before := AllItems(flushes) + block.items;
      block.items := block.items + [item];
      accepted := accepted + [item];
      assert AllItems(flushes) + block.items == before + [item];
      if |block.items| >= maxBlocks { Flush(); }
    }

    /**
     * HandleCanMessageChannel (and, without filters, HandleSignalChannel): runs until the input is closed or
     * the context cancelled. Sent and dropped batches, in flush order, and then the current block make up
     * exactly the unfiltered messages received. A batch is dropped only when the workers' channel is full, and one
     * with fewer than maxBlocks messages leaves only at a tick or at the end.
     */
    method Run(events: seq<Event<T>>) returns (handled: nat)
      requires Valid() && !closed && accepted == []
      modifies this`block, this`channel, this`waiting, this`closed, this`flushes, this`sent, this`taken,
        this`accepted, block
      ensures Valid() && handled <= |events|
      ensures AllItems(flushes) + block.items == Unfiltered(events[..handled])
      ensures forall i :: 0 <= i < |flushes| ==> 1 <= |flushes[i].items| <= if maxBlocks == 0 then 1 else maxBlocks
      ensures forall i :: 0 <= i < |flushes| ==> Justified(flushes[i], |SentItems(flushes[..i])|)
      ensures Now() == Turns(old(Now()), events[..handled], maxBlocks, maxConnections)
      ensures Small(flushes, maxBlocks) <= Small(old(flushes), maxBlocks) + Pushes(events[..handled])
      ensures (forall i :: 0 <= i < handled ==> events[i].Incoming? || events[i].WorkerTakes?) && old(flushes) == [] ==>
        forall i :: 0 <= i < |flushes| ==> |flushes[i].items| >= maxBlocks
      ensures handled < |events| ==> closed
      ensures closed ==> handled > 0 && block.items == []
      ensures closed ==> events[handled - 1].InputClosed? || events[handled - 1].Cancelled?
      ensures forall i :: 0 <= i < handled - 1 ==> !events[i].InputClosed? && !events[i].Cancelled?
    {
      hide AllItems, SentItems, Batches, Handed, Queue, Turns, Turn, Justified, Unfiltered, Small, Pushes;
      TurnsStart(Now(), maxBlocks, maxConnections);
      assert Unfiltered<T>([]) == [] by { NothingUnfiltered<T>(); }
      handled := 0;
      while handled < |events|
        invariant handled <= |events| && Valid() && !closed
        invariant block == old(block) || fresh(block)
        invariant accepted == Unfiltered(events[..handled])
        invariant Now() == Turns(old(Now()), events[..handled], maxBlocks, maxConnections)
        invariant forall i :: 0 <= i < handled ==> !events[i].InputClosed? && !events[i].Cancelled?
      {
        TurnsSnoc(old(Now()), events[..handled], events[handled], maxBlocks, maxConnections);
        UnfilteredSnoc(events[..handled], events[handled]);
        var done := Handle(events[handled]);
        assert events[..handled + 1] == events[..handled] + [events[handled]];
        handled := handled + 1;
        if done { break; }
      }
      FullBatches(old(Now()), events[..handled]);
    }

    lemma {:induction false} FullBatches(l: Loop<T>, events: seq<Event<T>>)
      requires |l.block| < Limit(maxBlocks) && Valid() && Now() == Turns(l, events, maxBlocks, maxConnections)
      ensures forall i :: 0 <= i < |flushes| ==> 1 <= |flushes[i].items| <= if maxBlocks == 0 then 1 else maxBlocks
      ensures forall i :: 0 <= i < |flushes| ==> Justified(flushes[i], |SentItems(flushes[..i])|)
      ensures Small(flushes, maxBlocks) <= Small(l.flushes, maxBlocks) + Pushes(events)
      ensures (forall i :: 0 <= i < |events| ==> events[i].Incoming? || events[i].WorkerTakes?) && l.flushes == [] ==>
        forall i :: 0 <= i < |flushes| ==> |flushes[i].items| >= maxBlocks
    {
      hide Turns, AllItems, SentItems, Handed, Queue, Justified;
      BatchesAreFull(l, events, maxBlocks, maxConnections);
      NoneSmall(flushes, maxBlocks);
      NoPushes(events);
    }
  }
}
