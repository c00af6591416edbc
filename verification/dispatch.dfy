/** Fan-out of messages to listeners that may be slow: a full listener loses the message, the others do not notice. */
module Dispatch {
  import opened Options

  /** A listener's filters: any of them (Or), or all of them. */
  datatype FilterGroup<!T> = FilterGroup(filters: seq<T -> bool>, isOr: bool) {
    predicate Matches(x: T) {
      if isOr then exists i :: 0 <= i < |filters| && filters[i](x)
      else forall i :: 0 <= i < |filters| ==> filters[i](x)
    }
  }

  /** `a` is `b` with some elements left out. */
  ghost predicate Subsequence<T>(a: seq<T>, b: seq<T>) {
    if a == [] then true
    else if b == [] then false
    else
      var m, n := |a| - 1, |b| - 1;
      Subsequence(a, b[..n]) || (a[m] == b[n] && Subsequence(a[..m], b[..n]))
  }

  lemma {:induction false} SubsequenceSnoc<T>(a: seq<T>, b: seq<T>, x: T)
    requires Subsequence(a, b)
    ensures Subsequence(a, b + [x]) && Subsequence(a + [x], b + [x])
  {
    assert (b + [x])[..|b|] == b && (a + [x])[..|a|] == a;
  }

  /** What became of an offered message: whether it went into the channel, and how many waited there at that moment. */
  datatype Fate<T> = Fate(item: T, accepted: bool, waiting: nat)

  function Items<T>(fates: seq<Fate<T>>): (r: seq<T>)
    ensures |r| == |fates|
  {
    seq(|fates|, i requires 0 <= i < |fates| => fates[i].item)
  }

  function Kept<T>(fates: seq<Fate<T>>): seq<T> {
    if fates == [] then []
    else
      var last := fates[|fates| - 1];
      Kept(fates[..|fates| - 1]) + if last.accepted then [last.item] else []
  }

  /** Dropped only at a full channel, and the channel never holds more than what was accepted before. */
  predicate Fair<T>(fates: seq<Fate<T>>, capacity: nat) {
    forall i :: 0 <= i < |fates| ==>
      && fates[i].waiting <= capacity && fates[i].waiting <= |Kept(fates[..i])|
      && (!fates[i].accepted ==> fates[i].waiting == capacity)
  }

  lemma {:induction false} KeptSnoc<T>(fates: seq<Fate<T>>, f: Fate<T>)
    ensures Kept(fates + [f]) == Kept(fates) + if f.accepted then [f.item] else []
    ensures Items(fates + [f]) == Items(fates) + [f.item]
  {
    assert (fates + [f])[..|fates|] == fates;
  }

  lemma {:induction false} FairSnoc<T>(fates: seq<Fate<T>>, f: Fate<T>, capacity: nat)
    requires Fair(fates, capacity) && f.waiting <= capacity && f.waiting <= |Kept(fates)|
    requires !f.accepted ==> f.waiting == capacity
    ensures Fair(fates + [f], capacity)
  {
    hide Kept;
    var all := fates + [f];
    forall i | 0 <= i < |all|
      ensures all[i].waiting <= |Kept(all[..i])|
    {
      assert all[..i] == fates[..i];
      if i == |fates| { assert fates[..i] == fates; }
    }
  }

  /** A registered listener with its bounded channel. */
  class Listener<!T> {
    const name: string
    const filter: Option<FilterGroup<T>>
    const capacity: nat
    var queue: seq<T>
    var dropped: nat
    /** All matching messages offered so far, those that went into the channel, and how many the consumer took. */
    ghost var offered: seq<T>
    ghost var accepted: seq<T>
    ghost var consumed: nat
    /** The offered ones again, each with what became of it. */
    ghost var fates: seq<Fate<T>>

    /**
     * Accepted and dropped add up to offered; accepted ones keep their order, also towards the consumer; and each
     * dropped one found the channel full.
     */
    ghost predicate Valid()
      reads this
    {
      && |accepted| + dropped == |offered|
      && Subsequence(accepted, offered)
      && consumed <= |accepted| && queue == accepted[consumed..] && |queue| <= capacity
      && offered == Items(fates) && accepted == Kept(fates) && Fair(fates, capacity)
    }

    constructor (name: string, filter: Option<FilterGroup<T>>, capacity: nat)
      ensures Valid() && offered == [] && dropped == 0 && accepted == []
      ensures this.name == name && this.filter == filter && this.capacity == capacity
    {
      this.name, this.filter, this.capacity := name, filter, capacity;
      queue, dropped, offered, accepted, consumed, fates := [], 0, [], [], 0, [];
    }

    predicate Wants(x: T) {
      filter == None || filter.value.Matches(x)
    }

    /** No filters let everything through. */
    lemma {:induction false} WantsIff(x: T)
      ensures filter == None ==> Wants(x)
      ensures filter.Some? ==>
        (Wants(x) <==>
          if filter.value.isOr then exists i :: 0 <= i < |filter.value.filters| && filter.value.filters[i](x)
          else forall i :: 0 <= i < |filter.value.filters| ==> filter.value.filters[i](x))
    {
    }

    /** What one broadcast of `x` does to this listener, whatever becomes of the others. */
    twostate predicate Served(x: T)
      reads this
    {
      && offered == old(offered) + (if Wants(x) then [x] else [])
      && (!Wants(x) ==> accepted == old(accepted) && dropped == old(dropped))
      && (Wants(x) && old(|queue|) < capacity ==> accepted == old(accepted) + [x] && dropped == old(dropped))
      && old(fates) <= fates
    }

    /** The consumer takes any number of messages; it may do so at any time. */
    method Consume()
      requires Valid()
      modifies this`queue, this`consumed
      ensures Valid() && consumed >= old(consumed)
    {
      var k: nat :| k <= |queue|;
      queue, consumed := queue[k..], consumed + k;
    }

    /** A non-blocking send. */
    method Offer(x: T)
      requires Valid()
      modifies this
      ensures Valid()
      ensures offered == old(offered) + [x]
      ensures (accepted == old(accepted) + [x] && dropped == old(dropped))
        || (accepted == old(accepted) && dropped == old(dropped) + 1 && |queue| == capacity)
      ensures old(|queue|) < capacity ==> accepted == old(accepted) + [x]
      ensures old(fates) <= fates
    {
      hide Subsequence, Fair, Kept, Items;
      SubsequenceSnoc(accepted, offered, x);
      Consume();
      offered := offered + [x];
      ghost var taken, found := fates, |queue|;
      var waiting: bool := *;
      if |queue| < capacity {
        queue, accepted := queue + [x], accepted + [x];
      } else if capacity == 0 && waiting {
        // an unbuffered channel hands over directly to a receiver that is waiting
        accepted, consumed := accepted + [x], consumed + 1;
      } else {
        dropped := dropped + 1;
      }
      ghost var f := Fate(x, |accepted| > |Kept(taken)|, found);
      KeptSnoc(taken, f);
      FairSnoc(taken, f, capacity);
      fates := taken + [f];
    }
  }

  /** The messages of a run a listener is offered. */
  function Wanted<T>(xs: seq<T>, wants: T -> bool): seq<T> {
    if xs == [] then []
    else Wanted(xs[..|xs| - 1], wants) + if wants(xs[|xs| - 1]) then [xs[|xs| - 1]] else []
  }

  class MessageDispatcher<!T> {
    var listeners: seq<Listener<T>>

    /** Names are unique, and every ledger adds up. */
    ghost predicate Valid()
      reads this, listeners
    {
      && (forall i, j :: 0 <= i < j < |listeners| ==> listeners[i].name != listeners[j].name)
      && (forall l :: l in listeners ==> l.Valid())
    }

    constructor ()
      ensures Valid() && listeners == []
    {
      listeners := [];
    }

    /** Add refuses a name already in use. */
    method Add(l: Listener<T>) returns (ok: bool)
      requires Valid() && l.Valid()
      modifies this
      ensures Valid()
      ensures ok <==> forall i :: 0 <= i < |old(listeners)| ==> old(listeners)[i].name != l.name
      ensures listeners == old(listeners) + if ok then [l] else []
    {
      for i := 0 to |listeners|
        invariant forall k :: 0 <= k < i ==> listeners[k].name != l.name
      {
        if listeners[i].name == l.name { return false; }
      }
      listeners := listeners + [l];
      return true;
    }

    /** Remove takes out the one listener of that name. */
    method Remove(name: string) returns (ok: bool)
      requires Valid()
      modifies this
      ensures Valid()
      ensures ok <==> exists i :: 0 <= i < |old(listeners)| && old(listeners)[i].name == name
      ensures !ok ==> listeners == old(listeners)
      ensures ok ==> exists i :: 0 <= i < |old(listeners)| && old(listeners)[i].name == name &&
                                 listeners == old(listeners)[..i] + old(listeners)[i + 1..]
    {
      for i := 0 to |listeners|
        invariant forall k :: 0 <= k < i ==> listeners[k].name != name
      {
        if listeners[i].name == name {
          listeners := listeners[..i] + listeners[i + 1..];
          return true;
        }
      }
      return false;
    }

    /** testFilterGroup, with the early exits of its loops. */
    static method TestFilterGroup(g: FilterGroup<T>, x: T) returns (r: bool)
      ensures r == g.Matches(x)
      ensures r <==> if g.isOr then exists i :: 0 <= i < |g.filters| && g.filters[i](x)
                     else forall i :: 0 <= i < |g.filters| ==> g.filters[i](x)
    {
      if g.isOr {
        for i := 0 to |g.filters|
          invariant forall k :: 0 <= k < i ==> !g.filters[k](x)
        {
          if g.filters[i](x) { return true; }
        }
        return false;
      }
      for i := 0 to |g.filters|
        invariant forall k :: 0 <= k < i ==> g.filters[k](x)
      {
        if !g.filters[i](x) { return false; }
      }
      return true;
    }

    /** One message to a snapshot of the listeners: each is offered it exactly when its filters match. */
    method Broadcast(x: T)
      requires Valid()
      modifies listeners
      ensures Valid()
      ensures forall l :: l in listeners ==> l.Served(x)
    {
      hide Subsequence, Fair, Kept, Items;
      var snapshot := listeners;
      for i := 0 to |snapshot|
        invariant Valid()
        invariant forall k :: 0 <= k < i ==> snapshot[k].Served(x)
        invariant forall k :: i <= k < |snapshot| ==> unchanged(snapshot[k])
      {
        var l := snapshot[i];
        assert forall k :: 0 <= k < |snapshot| && k != i ==> snapshot[k] != l;
        var send := true;
        if l.filter.Some? { send := TestFilterGroup(l.filter.value, x); }
        if send { l.Offer(x); }
      }
    }

    /**
     * A run of broadcasts: each listener has been offered exactly the messages it wants, in order, and those it did
     * not accept each found its channel full.
     */
    method BroadcastAll(xs: seq<T>)
      requires Valid()
      modifies listeners
      ensures Valid()
      ensures forall l :: l in listeners ==> l.offered == old(l.offered) + Wanted(xs, (x: T) => l.Wants(x))
      ensures forall l :: l in listeners ==>
        l.offered == Items(l.fates) && l.accepted == Kept(l.fates) && Fair(l.fates, l.capacity)
    {
      hide Subsequence, Fair, Kept, Items;
      for i := 0 to |xs|
        invariant Valid()
        invariant forall l :: l in listeners ==> l.offered == old(l.offered) + Wanted(xs[..i], (x: T) => l.Wants(x))
      {
        Broadcast(xs[i]);
        assert xs[..i + 1][..i] == xs[..i];
      }
      assert xs[..|xs|] == xs;
    }

    method DroppedCount(name: string) returns (n: nat)
      requires Valid()
      ensures forall l :: l in listeners && l.name == name ==> n == l.dropped
      ensures (forall l :: l in listeners ==> l.name != name) ==> n == 0
    {
      for i := 0 to |listeners|
        invariant forall k :: 0 <= k < i ==> listeners[k].name != name
      {
        if listeners[i].name == name { return listeners[i].dropped; }
      }
      return 0;
    }
  }
}
