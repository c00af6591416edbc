/** The time-windowed duplicate filter, and why sweeping its memory never changes what it decides. */
module Dedupe {
  import opened Bytes

  type CanID = x: int | 0 <= x < TWO_32

  datatype Message = Message(timestamp: int, iface: int, id: CanID, transmit: bool, remote: bool,
                             length: Byte, data: seq<Byte>)

  /** uint32(x) */
  function Uint32(x: int): nat {
    x % TWO_32
  }

  /** The bytes fed to the hash: everything but the timestamp. */
  function HashInput(m: Message): seq<Byte> {
    PutLE(4, Uint32(m.iface)) + PutLE(4, m.id)
    + [if m.transmit then 1 else 0] + [if m.remote then 1 else 0] + [m.length] + m.data
  }

  /** Two messages hash the same bytes exactly when they differ in nothing but time (and the interface's high bits). */
  lemma {:induction false} HashInputInjective(a: Message, b: Message)
    ensures HashInput(a) == HashInput(b) <==>
      Uint32(a.iface) == Uint32(b.iface) && a.id == b.id && a.transmit == b.transmit && a.remote == b.remote
      && a.length == b.length && a.data == b.data
  {
    hide PutLE;
    var x, y := HashInput(a), HashInput(b);
    Pow256Values();
    GetPut(4, Uint32(a.iface));
    GetPut(4, Uint32(b.iface));
    GetPut(4, a.id);
    GetPut(4, b.id);
    if x == y {
      assert x[0..4] == PutLE(4, Uint32(a.iface)) && y[0..4] == PutLE(4, Uint32(b.iface));
      assert x[4..8] == PutLE(4, a.id) && y[4..8] == PutLE(4, b.id);
      assert x[8] == (if a.transmit then 1 else 0) && y[8] == (if b.transmit then 1 else 0);
      assert x[9] == (if a.remote then 1 else 0) && y[9] == (if b.remote then 1 else 0);
      assert x[10] == a.length && y[10] == b.length;
      assert x[11..] == a.data && y[11..] == b.data;
    }
  }

  /** A clock that never runs backwards. */
  class Clock {
    var time: int

    constructor ()
    {
      time := 0;
    }

    method Now() returns (t: int)
      modifies this
      ensures old(time) <= t == time
    {
      var passed: nat :| passed >= 0;
      time := time + passed;
      t := time;
    }
  }

  class DedupeFilter {
    const clock: Clock
    /** FNV-1a, for all the filter cares any function of the bytes. */
    const hash: seq<Byte> -> nat
    /** The window in nanoseconds. */
    const timeout: int
    /** Watched identifiers; none means all. */
    const ids: set<nat>
    var storage: map<nat, int>
    /** When each key was last let through, over the whole history. */
    ghost var history: map<nat, int>

    /** The storage is the history less entries that have already expired. */
    ghost predicate Valid()
      reads this, clock
    {
      && (forall k :: k in storage ==> k in history && storage[k] == history[k])
      && (forall k :: k in history && k !in storage ==> Expired(k, clock.time))
      && (forall k :: k in history ==> history[k] <= clock.time)
    }

    ghost predicate Expired(k: nat, now: int)
      reads this
    {
      k !in history || now - history[k] >= timeout
    }

    /** `timeout` arrives in milliseconds and becomes an int64 nanosecond duration. */
    constructor (c: Clock, h: seq<Byte> -> nat, timeoutMs: int, watched: set<nat>)
      ensures Valid() && storage == map[] && history == map[]
      ensures clock == c && hash == h && ids == watched && timeout == Wrap64(timeoutMs * 1_000_000)
    {
      clock, hash, ids, timeout := c, h, watched, Wrap64(timeoutMs * 1_000_000);
      storage, history := map[], map[];
    }

    predicate Watches(m: Message) {
      ids == {} || m.id in ids
    }

    function Key(m: Message): nat {
      hash(HashInput(m))
    }

    /** Collisions of the hash aside, messages share a key exactly when they differ in nothing but time. */
    lemma {:induction false} SameKeyIff(a: Message, b: Message)
      requires forall x, y :: hash(x) == hash(y) ==> x == y
      ensures Key(a) == Key(b) <==>
        Uint32(a.iface) == Uint32(b.iface) && a.id == b.id && a.transmit == b.transmit && a.remote == b.remote
        && a.length == b.length && a.data == b.data
    {
      HashInputInjective(a, b);
    }

    /**
     * Filter: true means "drop". A watched message is dropped exactly when one with the same key was let
     * through less than the timeout before the moment the decision is taken.
     */
    method Filter(m: Message) returns (drop: bool, ghost at: int)
      requires Valid()
      modifies this`storage, this`history, clock
      ensures Valid()
      ensures old(clock.time) <= at <= clock.time
      ensures drop <==>
        (ids == {} || m.id in ids) && Key(m) in old(history) && at - old(history[Key(m)]) < timeout
      ensures !Watches(m) || drop ==> storage == old(storage) && history == old(history)
      ensures Watches(m) && !drop ==>
        && Key(m) in history && at <= history[Key(m)] <= clock.time
        && history == old(history)[Key(m) := history[Key(m)]]
      ensures Watches(m) && Key(m) !in old(storage) ==> forall k :: k in storage ==> at - storage[k] < timeout
    {
      at := clock.time;
      if |ids| > 0 {
        if m.id !in ids { return false, at; }
      }
      var key := hash(HashInput(m));
      if key !in storage {
        var now := clock.Now();
        at := now;
        storage := storage[key := now];
        history := history[key := now];
        Sweep();
        return false, at;
      }
      var now := clock.Now();
      at := now;
      if now - storage[key] >= timeout {
        var later := clock.Now();
        storage := storage[key := later];
        history := history[key := later];
        return false, at;
      }
      return true, at;
    }

    /** Deletes expired entries one after the other, in any order, reading the clock for each. */
    method Sweep()
      requires Valid()
      modifies this`storage, clock
      ensures Valid() && old(clock.time) <= clock.time && storage.Keys <= old(storage).Keys
      ensures forall k :: k in storage ==> old(clock.time) - storage[k] < timeout
    {
      var todo := storage.Keys;
      while todo != {}
        invariant Valid() && old(clock.time) <= clock.time
        invariant todo <= storage.Keys <= old(storage).Keys
        invariant forall k :: k in storage && k !in todo ==> old(clock.time) - storage[k] < timeout
        decreases todo
      {
        var k :| k in todo;
        todo := todo - {k};
        var now := clock.Now();
        if now - storage[k] >= timeout {
          storage := storage - {k};
        }
      }
    }

    /**
     * A whole run: with `kept` the keys let through so far and when, each decision is the one an unbounded
     * memory of them would take.
     */
    method FilterAll(msgs: seq<Message>)
      returns (drops: seq<bool>, ghost times: seq<int>, ghost kept: seq<map<nat, int>>)
      requires Valid()
      modifies this`storage, this`history, clock
      ensures Valid()
      ensures |drops| == |times| == |msgs| && |kept| == |msgs| + 1 && kept[0] == old(history)
      ensures forall i :: 0 <= i < |msgs| ==> Decides(msgs[i], drops[i], times[i], kept[i], kept[i + 1])
    {
      drops, times, kept := [], [], [history];
      for i := 0 to |msgs|
        invariant Valid() && |drops| == |times| == i && |kept| == i + 1
        invariant kept[0] == old(history) && kept[i] == history
        invariant forall j :: 0 <= j < i ==> Decides(msgs[j], drops[j], times[j], kept[j], kept[j + 1])
      {
        var drop, at := Filter(msgs[i]);
        drops, times, kept := drops + [drop], times + [at], kept + [history];
      }
    }

    /** The decision on one message at time `at`, given when each key was last let through. */
    ghost predicate Decides(m: Message, drop: bool, at: int, before: map<nat, int>, after: map<nat, int>) {
      && (drop <==> (ids == {} || m.id in ids) && Key(m) in before && at - before[Key(m)] < timeout)
      && (if (ids == {} || m.id in ids) && !drop
          then Key(m) in after && at <= after[Key(m)] && after == before[Key(m) := after[Key(m)]]
          else after == before)
    }
  }
}
