/** Which signals of a multiplexed message are active: one switch on top, possibly switches below it. */
module Mux {
  import opened Options

  /** A signal of the database; `name` stands for all that is not about multiplexing. */
  datatype SignalDef = SignalDef(name: string, isMultiplexer: bool, isMultiplexed: bool, muxValue: nat)

  predicate IsTop(s: SignalDef) {
    s.isMultiplexer && !s.isMultiplexed
  }

  predicate IsNestedFor(s: SignalDef, top: nat) {
    s.isMultiplexer && s.isMultiplexed && s.muxValue == top
  }

  /** The values of the switches in force: of the top switch, and of the nested one that it selects. */
  datatype Switches = Switches(top: Option<nat>, nested: Option<nat>)

  /** Active: not multiplexed, or a nested switch of the top value, or a leaf of the innermost switch. */
  predicate Active(s: SignalDef, sw: Switches) {
    if !s.isMultiplexed then true
    else if s.isMultiplexer then sw.top == Some(s.muxValue)
    else if sw.nested.Some? then sw.nested == Some(s.muxValue)
    else sw.top == Some(s.muxValue)
  }

  function Filter(sigs: seq<SignalDef>, sw: Switches): seq<SignalDef> {
    if sigs == [] then []
    else Filter(sigs[..|sigs| - 1], sw) + if Active(sigs[|sigs| - 1], sw) then [sigs[|sigs| - 1]] else []
  }

  /** The value of the first signal that satisfies `p`. */
  function FirstValue(sigs: seq<SignalDef>, p: SignalDef -> bool, value: SignalDef -> nat): Option<nat> {
    if sigs == [] then None
    else if p(sigs[0]) then Some(value(sigs[0]))
    else FirstValue(sigs[1..], p, value)
  }

  /** The switches in force, given the raw value each signal has in the frame. */
  function SwitchesOf(sigs: seq<SignalDef>, raw: SignalDef -> nat): Switches {
    var top := FirstValue(sigs, IsTop, raw);
    Switches(top, if top == None then None else FirstValue(sigs, (s: SignalDef) => IsNestedFor(s, top.value), raw))
  }

  lemma {:induction false} NotInFront(sigs: seq<SignalDef>, i: nat, p: SignalDef -> bool, value: SignalDef -> nat)
    requires i <= |sigs| && forall k :: 0 <= k < i ==> !p(sigs[k])
    ensures FirstValue(sigs, p, value) == FirstValue(sigs[i..], p, value)
  {
    if i > 0 {
      assert forall k :: 0 <= k < i - 1 ==> sigs[1..][k] == sigs[k + 1];
      NotInFront(sigs[1..], i - 1, p, value);
      assert sigs[1..][i - 1..] == sigs[i..];
    } else {
      assert sigs[0..] == sigs;
    }
  }

  /** Scans for the first match, stopping there. */
  method ScanFirst(sigs: seq<SignalDef>, p: SignalDef -> bool, raw: SignalDef -> nat) returns (v: Option<nat>)
    ensures v == FirstValue(sigs, p, raw)
  {
    for i := 0 to |sigs|
      invariant forall k :: 0 <= k < i ==> !p(sigs[k])
    {
      if p(sigs[i]) {
        NotInFront(sigs, i, p, raw);
        return Some(raw(sigs[i]));
      }
    }
    NotInFront(sigs, |sigs|, p, raw);
    return None;
  }

  /** ParseSignals: finds the switches, then picks the active signals in order. */
  method ParseSignals(sigs: seq<SignalDef>, raw: SignalDef -> nat) returns (out: seq<SignalDef>)
    ensures out == Filter(sigs, SwitchesOf(sigs, raw))
  {
    var top := ScanFirst(sigs, IsTop, raw);
    var nested: Option<nat> := None;
    if top.Some? {
      nested := ScanFirst(sigs, (s: SignalDef) => IsNestedFor(s, top.value), raw);
    }
    assert Switches(top, nested) == SwitchesOf(sigs, raw);
    out := [];
    for i := 0 to |sigs|
      invariant out == Filter(sigs[..i], Switches(top, nested))
    {
      assert sigs[..i + 1][..i] == sigs[..i];
      var sig := sigs[i];
      if !sig.isMultiplexed {
      } else if sig.isMultiplexer && sig.isMultiplexed {
        if top == None || sig.muxValue != top.value { continue; }
      } else if nested != None {
        if sig.muxValue != nested.value { continue; }
      } else {
        if top == None || sig.muxValue != top.value { continue; }
      }
      out := out + [sig];
    }
    assert sigs[..|sigs|] == sigs;
  }

  // ------------------------------------------------------------- selection

  lemma {:induction false} FilterMembers(sigs: seq<SignalDef>, sw: Switches)
    ensures forall s :: s in Filter(sigs, sw) <==> s in sigs && Active(s, sw)
  {
    hide Active;
    if sigs != [] {
      FilterMembers(sigs[..|sigs| - 1], sw);
      assert sigs == sigs[..|sigs| - 1] + [sigs[|sigs| - 1]];
    }
  }

  /** Order and multiplicity are those of the list: the selection of two lists in a row is the two selections. */
  lemma {:induction false} FilterConcat(a: seq<SignalDef>, b: seq<SignalDef>, sw: Switches)
    ensures Filter(a + b, sw) == Filter(a, sw) + Filter(b, sw)
    ensures |Filter(a, sw)| <= |a|
  {
    hide Active;
    if b == [] {
      assert a + b == a;
      if a != [] { FilterConcat(a[..|a| - 1], [], sw); }
    } else {
      FilterConcat(a, b[..|b| - 1], sw);
      assert (a + b)[..|a + b| - 1] == a + b[..|b| - 1];
    }
  }

  predicate IsLeaf(s: SignalDef) {
    s.isMultiplexed && !s.isMultiplexer
  }

  /** `v` is the value of the first signal that satisfies `p`, if any does. */
  ghost predicate IsFirst(v: Option<nat>, sigs: seq<SignalDef>, p: SignalDef -> bool, value: SignalDef -> nat) {
    match v
    case None => forall k :: 0 <= k < |sigs| ==> !p(sigs[k])
    case Some(x) =>
      exists i :: 0 <= i < |sigs| && p(sigs[i]) && x == value(sigs[i]) && forall k :: 0 <= k < i ==> !p(sigs[k])
  }

  lemma {:induction false} FirstValueIsFirst(sigs: seq<SignalDef>, p: SignalDef -> bool, value: SignalDef -> nat)
    ensures IsFirst(FirstValue(sigs, p, value), sigs, p, value)
  {
    if sigs != [] && !p(sigs[0]) {
      FirstValueIsFirst(sigs[1..], p, value);
      var v := FirstValue(sigs[1..], p, value);
      if v.Some? {
        var i :| 0 <= i < |sigs[1..]| && p(sigs[1..][i]) && v.value == value(sigs[1..][i])
          && forall k :: 0 <= k < i ==> !p(sigs[1..][k]);
        assert p(sigs[i + 1]) && forall k :: 0 < k < i + 1 ==> sigs[k] == sigs[1..][k - 1];
      } else {
        assert forall k :: 0 < k < |sigs| ==> sigs[k] == sigs[1..][k - 1];
      }
    }
  }

  /** The switches in force: the first top switch, and the first switch below it that is listed for its value. */
  lemma {:induction false} SwitchesAreFirst(sigs: seq<SignalDef>, raw: SignalDef -> nat)
    ensures
      var sw := SwitchesOf(sigs, raw);
      && IsFirst(sw.top, sigs, (s: SignalDef) => s.isMultiplexer && !s.isMultiplexed, raw)
      && (sw.top == None ==> sw.nested == None)
      && (sw.top.Some? ==>
            IsFirst(sw.nested, sigs,
                    (s: SignalDef) => s.isMultiplexer && s.isMultiplexed && s.muxValue == sw.top.value, raw))
  {
    FirstValueIsFirst(sigs, IsTop, raw);
    var sw := SwitchesOf(sigs, raw);
    if sw.top.Some? {
      FirstValueIsFirst(sigs, (s: SignalDef) => IsNestedFor(s, sw.top.value), raw);
    }
  }

  /**
   * One decoded frame: its leaves are exactly those of one switch value, that of the nested switch if there is one,
   * its nested switches exactly those for the top value, unmultiplexed signals are always there, and without a top
   * switch nothing multiplexed is.
   */
  lemma {:induction false} SelectionIsConsistent(sigs: seq<SignalDef>, raw: SignalDef -> nat)
    ensures
      var sw := SwitchesOf(sigs, raw);
      var out := Filter(sigs, sw);
      && (forall s :: s in out ==> s in sigs)
      && (forall s :: s in sigs && IsLeaf(s) ==>
            (s in out <==> Some(s.muxValue) == if sw.nested.Some? then sw.nested else sw.top))
      && (forall s :: s in sigs && s.isMultiplexed && s.isMultiplexer ==> (s in out <==> Some(s.muxValue) == sw.top))
      && (forall s :: s in sigs && !s.isMultiplexed ==> s in out)
      && ((forall s :: s in sigs ==> !IsTop(s)) ==> forall s :: s in out ==> !s.isMultiplexed)
  {
    FilterMembers(sigs, SwitchesOf(sigs, raw));
    if forall s :: s in sigs ==> !IsTop(s) {
      NotInFront(sigs, |sigs|, IsTop, raw);
    }
  }

  /** A nested switch is in force exactly when one is listed for the top value, and then it is emitted itself. */
  lemma {:induction false} NestedIsEmitted(sigs: seq<SignalDef>, raw: SignalDef -> nat)
    ensures
      var sw := SwitchesOf(sigs, raw);
      sw.nested.Some? <==> exists s :: s in Filter(sigs, sw) && s.isMultiplexer && s.isMultiplexed
  {
    var sw := SwitchesOf(sigs, raw);
    FilterMembers(sigs, sw);
    if sw.top.Some? {
      var p := (s: SignalDef) => IsNestedFor(s, sw.top.value);
      FirstIsMember(sigs, p, raw);
    }
  }

  lemma {:induction false} FirstIsMember(sigs: seq<SignalDef>, p: SignalDef -> bool, value: SignalDef -> nat)
    ensures FirstValue(sigs, p, value).Some? <==> exists s :: s in sigs && p(s)
  {
    if sigs != [] {
      FirstIsMember(sigs[1..], p, value);
      assert sigs == [sigs[0]] + sigs[1..];
    }
  }

  /** MultiParser.ParseSignals: the results of all parsers, one after the other. */
  method ParseWithAll<M, S>(parsers: seq<M -> seq<S>>, msg: M) returns (all: seq<S>)
    ensures all == Union(parsers, msg)
    ensures forall s :: s in all <==> exists i :: 0 <= i < |parsers| && s in parsers[i](msg)
  {
    all := [];
    for i := 0 to |parsers|
      invariant all == Union(parsers[..i], msg)
      invariant forall s :: s in all <==> exists j :: 0 <= j < i && s in parsers[j](msg)
    {
      assert parsers[..i + 1][..i] == parsers[..i];
      all := all + parsers[i](msg);
    }
    assert parsers[..|parsers|] == parsers;
  }

  function Union<M, S>(parsers: seq<M -> seq<S>>, msg: M): seq<S> {
    if parsers == [] then []
    else Union(parsers[..|parsers| - 1], msg) + parsers[|parsers| - 1](msg)
  }

  /** In the order of the parsers. */
  lemma {:induction false} UnionInOrder<M, S>(a: seq<M -> seq<S>>, p: M -> seq<S>, b: seq<M -> seq<S>>, msg: M)
    ensures Union(a + [p] + b, msg) == Union(a, msg) + p(msg) + Union(b, msg)
  {
    if b == [] {
      assert a + [p] + b == a + [p] && (a + [p])[..|a|] == a;
    } else {
      var front, last := b[..|b| - 1], b[|b| - 1];
      UnionInOrder(a, p, front, msg);
      assert (a + [p] + b)[..|a + [p] + b| - 1] == a + [p] + front;
    }
  }
}
