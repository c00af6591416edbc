/** The signal pipeline: decode, expand "PIDs supported" bitmasks, filter, fan out. */
module Signals {
  import opened Arithmetic
  import D = Dispatch
  import opened Options
  import opened Text

  datatype Message = Message(timestamp: int, iface: int, id: nat, data: seq<int>)

  /** A decoded signal; its value is a real. */
  datatype Signal = Signal(timestamp: int, iface: int, id: nat, message: string, name: string,
                           value: real, unit: string)

  // ------------------------------------------------------------ expansion

  /** Bit `k` of a mask. */
  predicate Bit(mask: nat, k: nat) {
    mask / Pow2(k) % 2 == 1
  }

  /** The low `n` bits of a mask, each with its weight. */
  function BitSum(mask: nat, n: nat): nat {
    if n == 0 then 0 else BitSum(mask, n - 1) + if Bit(mask, n - 1) then Pow2(n - 1) else 0
  }

  /** The bits of a mask are its binary digits: a 32-bit mask is the sum of their weights. */
  lemma {:induction false} BitsAreDigits(mask: nat)
    requires mask < 0x1_0000_0000
    ensures mask == BitSum(mask, 32)
  {
    LowBits(mask, 32);
    assert Pow2(8) == 256 && Pow2(16) == 256 * Pow2(8) && Pow2(24) == 256 * Pow2(16) && Pow2(32) == 256 * Pow2(24);
  }

  lemma {:induction false} LowBits(mask: nat, n: nat)
    ensures mask % Pow2(n) == BitSum(mask, n)
  {
    if n > 0 {
      LowBits(mask, n - 1);
      NextBit(mask, Pow2(n - 1));
    }
  }

  lemma {:induction false} NextBit(mask: nat, p: nat)
    requires p > 0
    ensures mask % (2 * p) == mask % p + (if mask / p % 2 == 1 then p else 0)
  {
    var q := mask / p;
    DivMod(mask, p);
    assert q == q / 2 * 2 + q % 2;
    assert q * p == q / 2 * (2 * p) + q % 2 * p by { Halves(q / 2, q % 2, p); }
    DivUnique(mask, 2 * p, q / 2, q % 2 * p + mask % p);
  }

  lemma {:induction false} Halves(a: nat, b: nat, p: nat)
    ensures (a * 2 + b) * p == a * (2 * p) + b * p
  {
  }

  /** The numbers 1..n whose bit, counted down from bit 31, is set. */
  function Offsets(mask: nat, n: nat): seq<nat>
    requires n <= 32
  {
    if n == 0 then [] else Offsets(mask, n - 1) + if Bit(mask, 32 - n) then [n] else []
  }

  /** DecodePIDsSupported. The result is in uint8 arithmetic, which matters only beyond base 0xE0. */
  method DecodePIDsSupported(mask: nat, base: nat) returns (pids: seq<nat>)
    requires mask < 0x1_0000_0000 && base < 256
    ensures pids == Supported(mask, base)
  {
    pids := [];
    for i := 0 to 32
      invariant |pids| == |Offsets(mask, i)|
      invariant forall j :: 0 <= j < |pids| ==> pids[j] == (base + Offsets(mask, i)[j]) % 256
    {
      if Bit(mask, 31 - i) {
        pids := pids + [(base + i + 1) % 256];
      }
    }
  }

  function Supported(mask: nat, base: nat): seq<nat> {
    seq(|Offsets(mask, 32)|, j requires 0 <= j < |Offsets(mask, 32)| => (base + Offsets(mask, 32)[j]) % 256)
  }

  lemma {:induction false} OffsetsAre(mask: nat, n: nat)
    requires n <= 32
    ensures forall x :: x in Offsets(mask, n) <==> 1 <= x <= n && Bit(mask, 32 - x)
    ensures forall i, j :: 0 <= i < j < |Offsets(mask, n)| ==> Offsets(mask, n)[i] < Offsets(mask, n)[j]
  {
    hide Bit;
    if n > 0 {
      OffsetsAre(mask, n - 1);
      var front := Offsets(mask, n - 1);
      assert forall i :: 0 <= i < |front| ==> front[i] in front;
    }
  }

  /**
   * Exactly the PIDs whose bit is set: base+1 is the top bit, base+32 the lowest, counted round from 255 to 0.
   * They come in this order, which is ascending unless the count goes round.
   */
  lemma {:induction false} SupportedAre(mask: nat, base: nat)
    requires base < 256
    ensures forall p: nat :: p in Supported(mask, base) <==>
      p < 256 && 1 <= (p - base) % 256 <= 32 && Bit(mask, 32 - (p - base) % 256)
    ensures forall i, j :: 0 <= i < j < |Supported(mask, base)| ==>
      (Supported(mask, base)[i] - base) % 256 < (Supported(mask, base)[j] - base) % 256
    ensures base < 0xE0 ==>
      forall i, j :: 0 <= i < j < |Supported(mask, base)| ==> Supported(mask, base)[i] < Supported(mask, base)[j]
  {
    hide Bit, Offsets, Supported;
    OffsetsAre(mask, 32);
    SupportedShift(mask, base);
    var pids, offs := Supported(mask, base), Offsets(mask, 32);
    forall p: nat
      ensures p in pids <==> p < 256 && 1 <= (p - base) % 256 <= 32 && Bit(mask, 32 - (p - base) % 256)
    {
      ShiftedMember(pids, offs, base, p);
    }
  }

  lemma {:induction false} SupportedShift(mask: nat, base: nat)
    requires base < 256
    ensures |Supported(mask, base)| == |Offsets(mask, 32)|
    ensures forall j :: 0 <= j < |Offsets(mask, 32)| ==>
      var p := Supported(mask, base)[j];
      && p < 256 && (p - base) % 256 == Offsets(mask, 32)[j]
      && (base < 0xE0 ==> p == base + Offsets(mask, 32)[j])
  {
    hide Bit, Offsets;
    OffsetsAre(mask, 32);
    forall j | 0 <= j < |Offsets(mask, 32)|
      ensures ((base + Offsets(mask, 32)[j]) % 256 - base) % 256 == Offsets(mask, 32)[j] <= 32
    {
      assert Offsets(mask, 32)[j] in Offsets(mask, 32);
      AroundByte(base, Offsets(mask, 32)[j]);
    }
  }

  lemma {:induction false} AroundByte(base: nat, x: nat)
    requires base < 256 && x < 256
    ensures ((base + x) % 256 - base) % 256 == x
  {
  }

  lemma {:induction false} ShiftedMember(pids: seq<nat>, offs: seq<nat>, base: nat, p: nat)
    requires |pids| == |offs| && base < 256
    requires forall j :: 0 <= j < |offs| ==> pids[j] < 256 && (pids[j] - base) % 256 == offs[j]
    ensures p in pids <==> p < 256 && (p - base) % 256 in offs
  {
    if p in pids {
      var j :| 0 <= j < |pids| && pids[j] == p;
      assert offs[j] == (p - base) % 256;
    }
    if p < 256 && (p - base) % 256 in offs {
      var j :| 0 <= j < |offs| && offs[j] == (p - base) % 256;
      SameByte(pids[j], p, base);
    }
  }

  lemma {:induction false} SameByte(a: nat, b: nat, base: nat)
    requires a < 256 && b < 256 && base < 256 && (a - base) % 256 == (b - base) % 256
    ensures a == b
  {
  }

  const PIDS_SUPPORTED_SIGNALS: map<string, nat> := map[
    "S01PID00_PIDsSupported_01_20" := 0x00,
    "S01PID20_PIDsSupported_21_40" := 0x20,
    "S01PID40_PIDsSupported_41_60" := 0x40,
    "S01PID60_PIDsSupported_61_80" := 0x60,
    "S01PID80_PIDsSupported_81_A0" := 0x80,
    "S01PIDA0_PIDsSupported_A1_C0" := 0xA0,
    "S01PIDC0_PIDsSupported_C1_E0" := 0xC0
  ]

  /** uint32(value): truncated towards zero, then the low 32 bits. */
  function ToUint32(v: real): (n: nat)
    ensures n < 0x1_0000_0000
  {
    (if v >= 0.0 then v.Floor else -(-v).Floor) % 0x1_0000_0000
  }

  /** "S01PID_Supported_%02X" */
  function SupportedName(pid: nat): string
    requires pid < 256
  {
    "S01PID_Supported_" + [UpperDigit(pid / 16), UpperDigit(pid % 16)]
  }

  function Expanded(sig: Signal): seq<Signal> {
    if sig.name !in PIDS_SUPPORTED_SIGNALS then [sig]
    else
      var pids := Supported(ToUint32(sig.value), PIDS_SUPPORTED_SIGNALS[sig.name]);
      seq(|pids|, i requires 0 <= i < |pids| =>
        sig.(name := SupportedName(pids[i]), value := 1.0))
  }

  /** ExpandPIDsSupported */
  method ExpandPIDsSupported(sig: Signal) returns (out: seq<Signal>)
    ensures out == Expanded(sig)
  {
    if sig.name !in PIDS_SUPPORTED_SIGNALS { return [sig]; }
    var pids := DecodePIDsSupported(ToUint32(sig.value), PIDS_SUPPORTED_SIGNALS[sig.name]);
    out := [];
    for i := 0 to |pids|
      invariant |out| == i
      invariant forall j :: 0 <= j < i ==> out[j] == Expanded(sig)[j]
    {
      out := out + [sig.(name := SupportedName(pids[i]), value := 1.0)];
    }
  }

  /** Two upper-case hex digits. */
  function TwoDigits(n: nat): string
    requires n < 256
  {
    [UpperDigit(n / 16), UpperDigit(n % 16)]
  }

  /** Two hex digits of this value. */
  predicate HexAt(name: string, i: nat, v: nat) {
    i + 1 < |name| && IsHex(name[i]) && IsHex(name[i + 1]) && 16 * Digit(name[i]) + Digit(name[i + 1]) == v
  }

  /** The name of a bitmask signal tells its range: the PID that asks for it, base+1 and base+32. */
  predicate TellsRange(name: string, base: nat) {
    HexAt(name, 6, base) && HexAt(name, 23, base + 1) && HexAt(name, 26, base + 32)
  }

  lemma {:induction false} NamesTellRanges()
    ensures forall name :: name in PIDS_SUPPORTED_SIGNALS ==> TellsRange(name, PIDS_SUPPORTED_SIGNALS[name])
    ensures PIDS_SUPPORTED_SIGNALS.Values == {0x00, 0x20, 0x40, 0x60, 0x80, 0xA0, 0xC0}
  {
    TellsLow();
    TellsHigh();
    hide TellsRange;
    AllBases();
  }

  lemma {:induction false} TellsLow()
    ensures TellsRange("S01PID00_PIDsSupported_01_20", 0x00) && TellsRange("S01PID20_PIDsSupported_21_40", 0x20)
    ensures TellsRange("S01PID40_PIDsSupported_41_60", 0x40) && TellsRange("S01PID60_PIDsSupported_61_80", 0x60)
  {
  }

  lemma {:induction false} TellsHigh()
    ensures TellsRange("S01PID80_PIDsSupported_81_A0", 0x80)
    ensures TellsRange("S01PIDA0_PIDsSupported_A1_C0", 0xA0) && TellsRange("S01PIDC0_PIDsSupported_C1_E0", 0xC0)
  {
  }

  lemma {:induction false} AllBases()
    ensures PIDS_SUPPORTED_SIGNALS.Values == {0x00, 0x20, 0x40, 0x60, 0x80, 0xA0, 0xC0}
  {
    assert PIDS_SUPPORTED_SIGNALS["S01PID00_PIDsSupported_01_20"] == 0x00;
    assert PIDS_SUPPORTED_SIGNALS["S01PID20_PIDsSupported_21_40"] == 0x20;
    assert PIDS_SUPPORTED_SIGNALS["S01PID40_PIDsSupported_41_60"] == 0x40;
    assert PIDS_SUPPORTED_SIGNALS["S01PID60_PIDsSupported_61_80"] == 0x60;
    assert PIDS_SUPPORTED_SIGNALS["S01PID80_PIDsSupported_81_A0"] == 0x80;
    assert PIDS_SUPPORTED_SIGNALS["S01PIDA0_PIDsSupported_A1_C0"] == 0xA0;
    assert PIDS_SUPPORTED_SIGNALS["S01PIDC0_PIDsSupported_C1_E0"] == 0xC0;
  }

  /** A value in the range of uint32 loses its fraction only. */
  lemma {:induction false} ToUint32Truncates(v: real)
    requires 0.0 <= v < 4294967296.0
    ensures ToUint32(v) as real <= v < ToUint32(v) as real + 1.0
  {
  }

  predicate Supports(mask: nat, base: nat, p: nat) {
    base < p <= base + 32 && Bit(mask, base + 32 - p)
  }

  /** The signal that reports one supported PID. */
  predicate Announces(e: Signal, sig: Signal, p: nat) {
    p < 256 &&
    e == Signal(sig.timestamp, sig.iface, sig.id, sig.message, "S01PID_Supported_" + TwoDigits(p), 1.0, sig.unit)
  }

  /**
   * A bitmask signal becomes one signal for each PID whose bit is set, named after it in hex and of value 1, else
   * unchanged; every other signal stays as it is.
   */
  lemma {:induction false} ExpansionSays(sig: Signal)
    ensures sig.name !in PIDS_SUPPORTED_SIGNALS ==> Expanded(sig) == [sig]
    ensures sig.name in PIDS_SUPPORTED_SIGNALS ==>
      var base, mask := PIDS_SUPPORTED_SIGNALS[sig.name], ToUint32(sig.value);
      && (forall e :: e in Expanded(sig) ==> exists p :: Supports(mask, base, p) && Announces(e, sig, p))
      && (forall p: nat :: Supports(mask, base, p) ==> exists e :: e in Expanded(sig) && Announces(e, sig, p))
  {
    hide Bit, ToUint32, Supported, Announces;
    if sig.name in PIDS_SUPPORTED_SIGNALS {
      var base, mask := PIDS_SUPPORTED_SIGNALS[sig.name], ToUint32(sig.value);
      var pids, out := Supported(mask, base), Expanded(sig);
      BitsAre(mask, base);
      forall e | e in out
        ensures exists p :: Supports(mask, base, p) && Announces(e, sig, p)
      {
        var i :| 0 <= i < |out| && out[i] == e;
        NameIsHex(sig, pids[i]);
        assert pids[i] in pids;
      }
      forall p: nat | Supports(mask, base, p)
        ensures exists e :: e in out && Announces(e, sig, p)
      {
        var i :| 0 <= i < |pids| && pids[i] == p;
        NameIsHex(sig, p);
        assert out[i] in out;
      }
    }
  }

  lemma {:induction false} BitsAre(mask: nat, base: nat)
    requires base < 0xE0
    ensures forall p: nat :: p in Supported(mask, base) <==> Supports(mask, base, p)
  {
    hide Bit, Supported;
    SupportedAre(mask, base);
  }

  lemma {:induction false} NameIsHex(sig: Signal, p: nat)
    requires p < 256
    ensures Announces(sig.(name := SupportedName(p), value := 1.0), sig, p)
  {
  }

  /** Different PIDs get different names, and no expanded signal would be expanded again. */
  lemma {:induction false} ExpansionIsFinal(sig: Signal)
    ensures forall i :: 0 <= i < |Expanded(sig)| ==> Expanded(Expanded(sig)[i]) == [Expanded(sig)[i]]
    ensures forall i, j :: 0 <= i < j < |Expanded(sig)| ==> Expanded(sig)[i].name != Expanded(sig)[j].name
  {
    if sig.name in PIDS_SUPPORTED_SIGNALS {
      var base, mask := PIDS_SUPPORTED_SIGNALS[sig.name], ToUint32(sig.value);
      var pids := Supported(mask, base);
      SupportedAre(mask, base);
      forall i | 0 <= i < |pids|
        ensures SupportedName(pids[i]) !in PIDS_SUPPORTED_SIGNALS
      {
        FinalName(pids[i]);
      }
      forall i, j | 0 <= i < j < |pids|
        ensures SupportedName(pids[i]) != SupportedName(pids[j])
      {
        NamesDiffer(pids[i], pids[j]);
      }
    }
  }

  lemma {:induction false} FinalName(pid: nat)
    requires pid < 256
    ensures SupportedName(pid) !in PIDS_SUPPORTED_SIGNALS
  {
    assert SupportedName(pid)[6] == '_';
  }

  lemma {:induction false} NamesDiffer(p: nat, q: nat)
    requires p < 256 && q < 256 && p != q
    ensures SupportedName(p) != SupportedName(q)
  {
    var a, b := SupportedName(p), SupportedName(q);
    assert |"S01PID_Supported_"| == 17;
    assert a[17] == UpperDigit(p / 16) && b[17] == UpperDigit(q / 16);
    assert a[18] == UpperDigit(p % 16) && b[18] == UpperDigit(q % 16);
    assert Digit(a[17]) == p / 16 && Digit(a[18]) == p % 16;
    assert Digit(b[17]) == q / 16 && Digit(b[18]) == q % 16;
  }

  // --------------------------------------------------------------- filter

  datatype Subject = SignalName | MessageName
  datatype Op = Eq | NotEq | Contains | NotContains | StartsWith | NotStartsWith | EndsWith | NotEndsWith

  predicate OccursAt(s: string, sub: string, i: nat) {
    i + |sub| <= |s| && s[i..i + |sub|] == sub
  }

  predicate HasSub(s: string, sub: string) {
    exists i :: 0 <= i <= |s| && OccursAt(s, sub, i)
  }

  predicate HasSuffix(s: string, suffix: string) {
    |suffix| <= |s| && s[|s| - |suffix|..] == suffix
  }

  datatype Rule = Rule(subject: Subject, op: Op, value: string) {
    predicate Match(sig: Signal) {
      var s := if subject == SignalName then sig.name else sig.message;
      match op
      case Eq => s == value
      case NotEq => s != value
      case Contains => HasSub(s, value)
      case NotContains => !HasSub(s, value)
      case StartsWith => value <= s
      case NotStartsWith => !(value <= s)
      case EndsWith => HasSuffix(s, value)
      case NotEndsWith => !HasSuffix(s, value)
    }
  }

  datatype Group = Group(rules: seq<Rule>, isOr: bool, including: bool) {
    /** Forward the signal: always without rules, else when it matches (include) or does not (exclude). */
    predicate Allows(sig: Signal) {
      rules == [] ||
      (including <==> if isOr then exists i :: 0 <= i < |rules| && rules[i].Match(sig)
                    else forall i :: 0 <= i < |rules| ==> rules[i].Match(sig))
    }
  }

  /** Group.Allow */
  method Allow(g: Group, sig: Signal) returns (r: bool)
    ensures r == g.Allows(sig)
    ensures g.rules == [] ==> r
    ensures g.rules != [] && g.isOr ==> (r == g.including <==> exists i :: 0 <= i < |g.rules| && g.rules[i].Match(sig))
    ensures g.rules != [] && !g.isOr ==>
      (r == g.including <==> forall i :: 0 <= i < |g.rules| ==> g.rules[i].Match(sig))
  {
    if |g.rules| == 0 { return true; }
    var matched := false;
    if g.isOr {
      for i := 0 to |g.rules|
        invariant !matched
        invariant forall k :: 0 <= k < i ==> !g.rules[k].Match(sig)
      {
        if g.rules[i].Match(sig) {
          matched := true;
          break;
        }
      }
    } else {
      matched := true;
      for i := 0 to |g.rules|
        invariant matched
        invariant forall k :: 0 <= k < i ==> g.rules[k].Match(sig)
      {
        if !g.rules[i].Match(sig) {
          matched := false;
          break;
        }
      }
    }
    if g.including { return matched; }
    return !matched;
  }

  /** Excluding and including by the same rules split every stream in two. */
  lemma {:induction false} ExcludeIsComplement(rules: seq<Rule>, isOr: bool, sig: Signal)
    requires rules != []
    ensures Group(rules, isOr, true).Allows(sig) != Group(rules, isOr, false).Allows(sig)
  {
  }

  /** What the operators mean: a value that is the whole text, or its start, its end or anywhere in it. */
  lemma {:induction false} RulesMean(r: Rule, sig: Signal)
    ensures
      var s, v := if r.subject == SignalName then sig.name else sig.message, r.value;
      && (r.op == Eq ==> (r.Match(sig) <==> s == v))
      && (r.op == Contains ==> (r.Match(sig) <==> exists a, b: string :: s == a + v + b))
      && (r.op == StartsWith ==> (r.Match(sig) <==> exists b: string :: s == v + b))
      && (r.op == EndsWith ==> (r.Match(sig) <==> exists a: string :: s == a + v))
  {
    var s, v := if r.subject == SignalName then sig.name else sig.message, r.value;
    ContainsMeans(s, v);
    if v <= s { assert s == v + s[|v|..]; }
    if HasSuffix(s, v) { assert s == s[..|s| - |v|] + v; }
    if a: string :| s == a + v { assert s[|s| - |v|..] == v; }
  }

  lemma {:induction false} ContainsMeans(s: string, v: string)
    ensures HasSub(s, v) <==> exists a, b: string :: s == a + v + b
  {
    if HasSub(s, v) {
      var i :| 0 <= i <= |s| && OccursAt(s, v, i);
      assert s == s[..i] + v + s[i + |v|..];
    }
    if a: string, b: string :| s == a + v + b {
      assert s[|a|..|a| + |v|] == v;
      assert OccursAt(s, v, |a|);
    }
  }

  /** Each operator and its negation split every stream in two. */
  lemma {:induction false} NegationsAreComplements(subject: Subject, value: string, sig: Signal)
    ensures Rule(subject, NotEq, value).Match(sig) != Rule(subject, Eq, value).Match(sig)
    ensures Rule(subject, NotContains, value).Match(sig) != Rule(subject, Contains, value).Match(sig)
    ensures Rule(subject, NotStartsWith, value).Match(sig) != Rule(subject, StartsWith, value).Match(sig)
    ensures Rule(subject, NotEndsWith, value).Match(sig) != Rule(subject, EndsWith, value).Match(sig)
  {
  }

  // ------------------------------------------------------------- pipeline

  function Allowed(sigs: seq<Signal>, g: Group): seq<Signal> {
    if sigs == [] then []
    else Allowed(sigs[..|sigs| - 1], g) + if g.Allows(sigs[|sigs| - 1]) then [sigs[|sigs| - 1]] else []
  }

  function AllExpanded(sigs: seq<Signal>): seq<Signal> {
    if sigs == [] then [] else AllExpanded(sigs[..|sigs| - 1]) + Expanded(sigs[|sigs| - 1])
  }

  function AllParsed(msgs: seq<Message>, parse: Message -> seq<Signal>): seq<Signal> {
    if msgs == [] then [] else AllParsed(msgs[..|msgs| - 1], parse) + parse(msgs[|msgs| - 1])
  }

  /** Decode everything, then expand everything, then filter everything. */
  function Pipeline(msgs: seq<Message>, parse: Message -> seq<Signal>, g: Group): seq<Signal> {
    Allowed(AllExpanded(AllParsed(msgs, parse)), g)
  }

  lemma {:induction false} AllowedConcat(a: seq<Signal>, b: seq<Signal>, g: Group)
    ensures Allowed(a + b, g) == Allowed(a, g) + Allowed(b, g)
  {
    if b == [] {
      assert a + b == a;
    } else {
      AllowedConcat(a, b[..|b| - 1], g);
      assert (a + b)[..|a + b| - 1] == a + b[..|b| - 1];
    }
  }

  type Listener = D.Listener<Signal>

  class SignalDispatcher {
    const parse: Message -> seq<Signal>
    const filter: Group
    var listeners: seq<Listener>

    /** Listeners are different objects with sound ledgers; none has filters of its own. */
    ghost predicate Valid()
      reads this, listeners
    {
      && (forall i, j :: 0 <= i < j < |listeners| ==> listeners[i] != listeners[j])
      && (forall l :: l in listeners ==> l.Valid() && l.filter == None)
    }

    constructor (parser: Message -> seq<Signal>, g: Group)
      ensures Valid() && parse == parser && filter == g && listeners == []
    {
      parse, filter, listeners := parser, g, [];
    }

    method AddListener(l: Listener)
      requires Valid() && l !in listeners && l.Valid() && l.filter == None
      modifies this
      ensures Valid() && listeners == old(listeners) + [l]
    {
      listeners := listeners + [l];
    }

    /** One signal to everybody. */
    method Send(s: Signal)
      requires Valid()
      modifies listeners
      ensures Valid() && forall l :: l in listeners ==> l.Served(s)
    {
      hide D.Subsequence, D.Fair, D.Kept, D.Items;
      for i := 0 to |listeners|
        invariant Valid()
        invariant forall k :: 0 <= k < i ==> listeners[k].Served(s)
        invariant forall k :: i <= k < |listeners| ==> unchanged(listeners[k])
      {
        listeners[i].Offer(s);
      }
    }

    /** One decoded signal: expanded, filtered, sent. */
    method DispatchOne(sig: Signal)
      requires Valid()
      modifies listeners
      ensures Valid()
      ensures forall l :: l in listeners ==> l.offered == old(l.offered) + Allowed(Expanded(sig), filter)
    {
      hide D.Subsequence, D.Fair, D.Kept, D.Items, Expanded;
      var expanded := ExpandPIDsSupported(sig);
      for i := 0 to |expanded|
        invariant Valid()
        invariant forall l :: l in listeners ==> l.offered == old(l.offered) + Allowed(expanded[..i], filter)
      {
        assert expanded[..i + 1][..i] == expanded[..i];
        var allow := Allow(filter, expanded[i]);
        if !allow { continue; }
        Send(expanded[i]);
      }
      assert expanded[..|expanded|] == expanded;
    }

    /** Dispatch: what every listener is offered is the whole input parsed, then expanded, then filtered, in order. */
    method Dispatch(msgs: seq<Message>)
      requires Valid()
      modifies listeners
      ensures Valid()
      ensures forall l :: l in listeners ==> l.offered == old(l.offered) + Pipeline(msgs, parse, filter)
      ensures forall l :: l in listeners ==>
        l.offered == D.Items(l.fates) && l.accepted == D.Kept(l.fates) && D.Fair(l.fates, l.capacity)
    {
      hide Allowed, Expanded, AllExpanded, D.Subsequence, D.Fair, D.Kept, D.Items;
      EmptyPipeline(parse, filter);
      for m := 0 to |msgs|
        invariant Valid()
        invariant forall l :: l in listeners ==> l.offered == old(l.offered) + Pipeline(msgs[..m], parse, filter)
      {
        var sigs := parse(msgs[m]);
        ghost var before := AllParsed(msgs[..m], parse);
        assert before + sigs[..0] == before;
        for i := 0 to |sigs|
          invariant Valid()
          invariant forall l :: l in listeners ==>
            l.offered == old(l.offered) + Allowed(AllExpanded(before + sigs[..i]), filter)
        {
          DispatchOne(sigs[i]);
          PipelineSnoc(before + sigs[..i], sigs[i], filter);
          assert before + sigs[..i + 1] == before + sigs[..i] + [sigs[i]];
        }
        assert sigs[..|sigs|] == sigs && msgs[..m + 1][..m] == msgs[..m];
      }
      assert msgs[..|msgs|] == msgs;
    }
  }

  lemma {:induction false} EmptyPipeline(parse: Message -> seq<Signal>, g: Group)
    ensures Pipeline([], parse, g) == []
  {
  }

  lemma {:induction false} PipelineSnoc(sigs: seq<Signal>, sig: Signal, g: Group)
    ensures Allowed(AllExpanded(sigs + [sig]), g) == Allowed(AllExpanded(sigs), g) + Allowed(Expanded(sig), g)
  {
    hide Expanded, Allowed;
    assert (sigs + [sig])[..|sigs|] == sigs;
    AllowedConcat(AllExpanded(sigs), Expanded(sig), g);
  }
}
