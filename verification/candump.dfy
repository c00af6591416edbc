/** Timestamps of candump logs: "seconds.fraction" scaled to nanoseconds, and times made relative to the first line. */
module Candump {
  import opened Arithmetic
  import opened Bytes
  import opened Options

  predicate IsDecimal(c: char) {
    '0' <= c <= '9'
  }

  predicate AllDecimal(s: string) {
    forall i :: 0 <= i < |s| ==> IsDecimal(s[i])
  }

  function DecimalValue(s: string): nat
    requires AllDecimal(s)
  {
    if s == "" then 0 else 10 * DecimalValue(s[..|s| - 1]) + (s[|s| - 1] as int - '0' as int)
  }

  /** strconv.ParseInt(s, 10, 64): an optional sign and digits, within int64. */
  function ParseInt64(s: string): Option<Int64> {
    var negative := "-" <= s;
    var digits := if negative || "+" <= s then s[1..] else s;
    if digits == "" || !AllDecimal(digits) then None
    else
      var v := if negative then -(DecimalValue(digits) as int) else DecimalValue(digits);
      if -TWO_63 <= v < TWO_63 then Some(v) else None
  }

  /** A number in decimal, as strconv prints it. */
  function Print(n: nat): (s: string)
    ensures s != ""
  {
    var last := ['0' + (n % 10) as char];
    if n < 10 then last else Print(n / 10) + last
  }

  lemma {:induction false} PrintReads(n: nat)
    ensures AllDecimal(Print(n)) && DecimalValue(Print(n)) == n
  {
    var s := Print(n);
    if n < 10 {
      assert s[..0] == "";
    } else {
      PrintReads(n / 10);
      assert s[..|s| - 1] == Print(n / 10);
    }
  }

  /** ParseInt reads back every int64 that is printed, with or without a plus sign in front. */
  lemma {:induction false} ParsesPrinted(x: Int64)
    ensures x < 0 ==> ParseInt64("-" + Print(Abs(x))) == Some(x)
    ensures x >= 0 ==> ParseInt64(Print(x)) == Some(x) && ParseInt64("+" + Print(x)) == Some(x)
  {
    var s := Print(Abs(x));
    PrintReads(Abs(x));
    assert ("-" + s)[1..] == s && ("+" + s)[1..] == s;
    assert IsDecimal(s[0]);
  }

  /** And it accepts nothing but one sign at most, at least one digit, and a value within int64. */
  lemma {:induction false} ParseAcceptsIff(s: string)
    ensures ParseInt64(s).Some? <==>
      var signed := s != "" && (s[0] == '-' || s[0] == '+');
      var digits := if signed then s[1..] else s;
      && digits != "" && (forall i :: 0 <= i < |digits| ==> digits[i] in "0123456789")
      && AllDecimal(digits)
      && (if s[0] == '-' then DecimalValue(digits) <= TWO_63 else DecimalValue(digits) < TWO_63)
  {
    forall c: char
      ensures c in "0123456789" <==> IsDecimal(c)
    {
      DecimalDigits(c);
    }
  }

  lemma {:induction false} DecimalDigits(c: char)
    ensures c in "0123456789" <==> IsDecimal(c)
  {
    if IsDecimal(c) {
      var k := c as int - '0' as int;
      assert "0123456789"[k] == c;
    }
  }

  /** Go's integer division truncates towards zero. */
  function DivTrunc(a: int, b: int): int
    requires b > 0
  {
    if a >= 0 then a / b else -(-a / b)
  }

  function Abs(x: int): nat {
    if x < 0 then -x else x
  }

  function Pow10(n: nat): (p: nat)
    ensures p > 0
  {
    if n == 0 then 1 else 10 * Pow10(n - 1)
  }

  const BILLION: int := 1_000_000_000

  /** First loop of the scaling: fewer than nine digits are multiplied up. */
  method ScaleUp(frac0: Int64, n: nat) returns (frac: Int64)
    ensures n >= 9 ==> frac == frac0
    ensures n <= 9 && Abs(frac0) < Pow10(n) ==> frac == frac0 * Pow10(9 - n)
  {
    frac := frac0;
    var i := n;
    assert Pow10(0) == 1;
    while i < 9
      invariant n <= i && (n >= 9 ==> i == n && frac == frac0) && (n <= 9 ==> i <= 9)
      invariant n <= 9 && Abs(frac0) < Pow10(n) ==>
        frac == frac0 * Pow10(i - n) && Abs(frac) < Pow10(i)
    {
      hide Pow10;
      UpStep(frac0, i - n, frac, i);
      frac := Wrap64(frac * 10);
      i := i + 1;
    }
  }

  lemma {:induction false} UpStep(frac0: int, k: nat, frac: int, i: nat)
    requires i < 9
    ensures frac == frac0 * Pow10(k) && Abs(frac) < Pow10(i) ==>
      frac * 10 == frac0 * Pow10(k + 1) && Abs(frac * 10) < Pow10(i + 1) <= BILLION
  {
    TimesTen(frac0, Pow10(k));
    Pow10Below(i + 1);
  }

  /** Second loop: more than nine digits are divided down, one digit at a time. */
  method ScaleDown(frac0: Int64, n: nat) returns (frac: Int64)
    ensures n <= 9 ==> frac == frac0
    ensures n >= 9 ==> frac == DivTrunc(frac0, Pow10(n - 9))
  {
    frac := frac0;
    var i := 9;
    assert Pow10(0) == 1;
    while i < n
      invariant 9 <= i && (n <= 9 ==> i == 9 && frac == frac0) && (n > 9 ==> i <= n)
      invariant frac == DivTrunc(frac0, Pow10(i - 9))
    {
      DivDivTen(Abs(frac0), Pow10(i - 9));
      frac := DivTrunc(frac, 10);
      i := i + 1;
    }
  }

  /** strings.SplitN(s, ".", 2): where the first dot is, or the length. */
  function Dot(s: string): (i: nat)
    ensures i <= |s| && '.' !in s[..i] && (i < |s| ==> s[i] == '.')
  {
    if s == "" || s[0] == '.' then 0
    else
      var i := Dot(s[1..]);
      assert s[..i + 1] == [s[0]] + s[1..][..i];
      i + 1
  }

  /**
   * What a timestamp is read as: whole seconds, and a fraction scaled by one truncating division. A sign in front
   * of the fraction is one of the code's n digits.
   */
  function Timestamp(s: string): Option<Int64> {
    match ParseInt64(s[..Dot(s)])
    case None => None
    case Some(sec) =>
      if Dot(s) == |s| then Some(Wrap64(sec * BILLION))
      else
        match ParseInt64(s[Dot(s) + 1..])
        case None => None
        case Some(frac) => Some(Wrap64(sec * BILLION + DivTrunc(frac * BILLION, Pow10(|s| - Dot(s) - 1))))
  }

  /** parseCandumpTimestamp */
  method ParseCandumpTimestamp(s: string) returns (r: Option<Int64>)
    ensures r == Timestamp(s)
  {
    hide ParseInt64, Pow10, Wrap64, DivTrunc;
    var dot := Dot(s);
    var sec := ParseInt64(s[..dot]);
    if sec.None? { return None; }
    if dot == |s| {
      return Some(Wrap64(sec.value * BILLION));
    }
    var fracStr := s[dot + 1..];
    var frac := ParseInt64(fracStr);
    if frac.None? { return None; }
    ParsedBound(fracStr);
    var scaled := ScaleUp(frac.value, |fracStr|);
    var ns := ScaleDown(scaled, |fracStr|);
    ScaledIsQuotient(frac.value, |fracStr|, scaled, ns);
    WrapTwice(sec.value * BILLION, ns);
    return Some(Wrap64(Wrap64(sec.value * BILLION) + ns));
  }

  /** An accepted number has fewer digits before its value than characters, sign or not. */
  lemma {:induction false} ParsedBound(s: string)
    requires ParseInt64(s).Some?
    ensures Abs(ParseInt64(s).value) < Pow10(|s|)
  {
    hide DecimalValue;
    var digits := if "-" <= s || "+" <= s then s[1..] else s;
    DecimalBound(digits);
    assert Pow10(|s|) >= Pow10(|digits|);
  }

  lemma {:induction false} UnsignedParse(s: string)
    requires AllDecimal(s) && ParseInt64(s).Some?
    ensures ParseInt64(s) == Some(DecimalValue(s))
  {
    assert s != "" ==> IsDecimal(s[0]);
  }

  lemma {:induction false} DecimalBound(s: string)
    requires AllDecimal(s)
    ensures DecimalValue(s) < Pow10(|s|)
  {
    if s != "" { DecimalBound(s[..|s| - 1]); }
  }

  // ------------------------------------------------------------- arithmetic

  lemma {:induction false} Pow10Values()
    ensures Pow10(9) == BILLION
  {
    assert Pow10(3) == 1000 && Pow10(2) == 100;
    assert Pow10(6) == 1000 * Pow10(3) by { assert Pow10(5) == 10 * Pow10(4); assert Pow10(4) == 10 * Pow10(3); }
    assert Pow10(9) == 1000 * Pow10(6) by { assert Pow10(8) == 10 * Pow10(7); assert Pow10(7) == 10 * Pow10(6); }
  }

  lemma {:induction false} Pow10Below(i: nat)
    requires i <= 9
    ensures Pow10(i) <= BILLION
    decreases 9 - i
  {
    if i < 9 {
      Pow10Below(i + 1);
    } else {
      Pow10Values();
    }
  }

  lemma {:induction false} TimesTen(a: int, b: int)
    ensures a * b * 10 == a * (10 * b)
  {
  }

  /** Dividing once more by ten is dividing by ten times as much. */
  lemma {:induction false} DivDivTen(a: nat, b: nat)
    requires b > 0
    ensures 0 <= a / b && a / b / 10 == a / (10 * b)
  {
    DivMod(a, b);
    var q, r := a / b, a % b;
    var q', r' := q / 10, q % 10;
    assert q * b == q' * (10 * b) + r' * b by { Regroup(q', r', b); }
    MulMono(r' + 1, 10, b);
    DivUnique(a, 10 * b, q', r' * b + r);
  }

  lemma {:induction false} Regroup(q: nat, r: nat, b: nat)
    ensures (10 * q + r) * b == q * (10 * b) + r * b
  {
  }

  lemma {:induction false} Pow10Split(a: nat, b: nat)
    ensures Pow10(a + b) == Pow10(a) * Pow10(b)
  {
    if a > 0 {
      Pow10Split(a - 1, b);
      TimesTen(Pow10(b), Pow10(a - 1));
    }
  }

  /** Repeated scaling equals one multiplication and one truncating division. */
  lemma {:induction false} ScaledIsFloor(frac: nat, n: nat, ns: int)
    requires n <= 9 ==> ns == frac * Pow10(9 - n)
    requires n >= 9 ==> ns == frac / Pow10(n - 9)
    ensures ns == frac * BILLION / Pow10(n)
  {
    Pow10Values();
    if n <= 9 {
      Pow10Split(9 - n, n);
      MulAssoc(frac, Pow10(9 - n), Pow10(n));
      DivUnique(frac * BILLION, Pow10(n), frac * Pow10(9 - n), 0);
    } else {
      var p := Pow10(n - 9);
      Pow10Split(n - 9, 9);
      DivMod(frac, p);
      var q, r := frac / p, frac % p;
      MulMono(r + 1, p, BILLION);
      BillionTimes(q, p, r);
      DivUnique(frac * BILLION, p * BILLION, q, r * BILLION);
    }
  }

  /** Truncation towards zero treats both signs alike. */
  lemma {:induction false} ScaledIsQuotient(frac: int, n: nat, scaled: int, ns: int)
    requires n <= 9 ==> scaled == frac * Pow10(9 - n) && ns == scaled
    requires n >= 9 ==> scaled == frac && ns == DivTrunc(scaled, Pow10(n - 9))
    ensures ns == DivTrunc(frac * BILLION, Pow10(n))
  {
    hide Pow10;
    if n <= 9 { Negate(frac, Pow10(9 - n)); }
    ScaledIsFloor(Abs(frac), n, if frac < 0 then -ns else ns);
  }

  lemma {:induction false} Negate(a: int, b: int)
    ensures -a * b == -(a * b)
  {
  }

  lemma {:induction false} BillionTimes(q: nat, p: nat, r: nat)
    ensures (q * p + r) * BILLION == q * (p * BILLION) + r * BILLION
  {
  }

  lemma {:induction false} MulAssoc(a: nat, b: nat, c: nat)
    ensures a * b * c == a * (b * c)
  {
  }

  // ------------------------------------------- the time against the decimal

  /** The nanoseconds of a fraction of n digits. */
  function FracNanos(frac: nat, n: nat): (ns: nat)
    ensures ns * Pow10(n) <= frac * BILLION < (ns + 1) * Pow10(n)
    ensures frac < Pow10(n) ==> ns < BILLION
  {
    FracNanosBounds(frac, n);
    frac * BILLION / Pow10(n)
  }

  lemma {:induction false} FracNanosBounds(frac: nat, n: nat)
    ensures
      var q := frac * BILLION / Pow10(n);
      q >= 0 && q * Pow10(n) <= frac * BILLION < (q + 1) * Pow10(n) && (frac < Pow10(n) ==> q < BILLION)
  {
    hide Pow10;
    var p := Pow10(n);
    DivMod(frac * BILLION, p);
    Distribute(0, p, frac * BILLION / p, 0);
    if frac < p {
      MulMono(frac + 1, p, BILLION);
      QuotientBounds(frac * BILLION, p, 0, BILLION);
    }
  }

  /** The time the code makes of it: the fraction is always added, whatever the sign of the seconds. */
  function Nanos(sec: int, frac: nat, n: nat): int {
    sec * BILLION + FracNanos(frac, n)
  }

  /** The number the decimal stands for, in units of 10^-n; a minus sign covers the fraction too. */
  function Decimal(negative: bool, sec: int, frac: nat, n: nat): int {
    sec * Pow10(n) + if negative then 0 - frac else frac
  }

  /**
   * The time is the decimal rounded down to nanoseconds exactly when the decimal has no minus sign or no fraction;
   * and it is within a nanosecond of it exactly when there is no minus sign or the fraction is below a nanosecond.
   */
  lemma {:induction false} NanosIsFloorIff(negative: bool, sec: int, frac: nat, n: nat)
    ensures
      var p, t, v := Pow10(n), Nanos(sec, frac, n), Decimal(negative, sec, frac, n) * BILLION;
      && (t * p <= v < (t + 1) * p <==> !negative || frac == 0)
      && (Abs(v - t * p) < p <==> !negative || frac * BILLION < p)
  {
    hide Pow10, FracNanos;
    var p, q := Pow10(n), FracNanos(frac, n);
    Distribute(sec, p, q, if negative then 0 - frac else frac);
    if q > 0 { MulMono(1, q, p); }
    if frac * BILLION < p && q > 0 { assert false; }
  }

  lemma {:induction false} Distribute(sec: int, p: int, q: int, frac: int)
    ensures (sec * p + frac) * BILLION == sec * BILLION * p + frac * BILLION
    ensures (sec * BILLION + q) * p == sec * BILLION * p + q * p
    ensures (sec * BILLION + q + 1) * p == sec * BILLION * p + q * p + p
    ensures (q + 1) * p == q * p + p
  {
  }

  /** The sign and the seconds as they come out of one decimal. */
  predicate Fits(negative: bool, sec: int, frac: nat, n: nat) {
    (if negative then sec <= 0 else sec >= 0) && frac < Pow10(n)
  }

  /**
   * Of two decimals in order, whatever their numbers of digits, the first gets no later time exactly when its whole
   * seconds are fewer or its fraction does not come out larger. So nothing goes wrong without minus signs.
   */
  lemma {:induction false} NanosOrderedIff(
      neg1: bool, sec1: int, frac1: nat, n1: nat, neg2: bool, sec2: int, frac2: nat, n2: nat)
    requires Fits(neg1, sec1, frac1, n1) && Fits(neg2, sec2, frac2, n2)
    requires Decimal(neg1, sec1, frac1, n1) * Pow10(n2) <= Decimal(neg2, sec2, frac2, n2) * Pow10(n1)
    ensures Nanos(sec1, frac1, n1) <= Nanos(sec2, frac2, n2) <==>
      sec1 < sec2 || FracNanos(frac1, n1) <= FracNanos(frac2, n2)
    ensures (neg1 ==> frac1 == 0) && (neg2 ==> frac2 == 0) ==> Nanos(sec1, frac1, n1) <= Nanos(sec2, frac2, n2)
  {
    hide Pow10, FracNanos, Decimal, Fits;
    DecimalsInOrder(neg1, sec1, frac1, n1, neg2, sec2, frac2, n2);
    ByParts(sec1, FracNanos(frac1, n1), sec2, FracNanos(frac2, n2));
    if sec1 == sec2 && (neg1 ==> frac1 == 0) && (neg2 ==> frac2 == 0) {
      FloorsOrdered(FracNanos(frac1, n1), frac1, Pow10(n1), FracNanos(frac2, n2), frac2, Pow10(n2));
    }
  }

  lemma {:induction false} DecimalsInOrder(
      neg1: bool, sec1: int, frac1: nat, n1: nat, neg2: bool, sec2: int, frac2: nat, n2: nat)
    requires Fits(neg1, sec1, frac1, n1) && Fits(neg2, sec2, frac2, n2)
    requires Decimal(neg1, sec1, frac1, n1) * Pow10(n2) <= Decimal(neg2, sec2, frac2, n2) * Pow10(n1)
    ensures sec1 <= sec2 && FracNanos(frac1, n1) < BILLION && FracNanos(frac2, n2) < BILLION
    ensures sec1 == sec2 && (neg1 ==> frac1 == 0) && (neg2 ==> frac2 == 0) ==>
      frac1 * Pow10(n2) <= frac2 * Pow10(n1)
  {
    hide Pow10, FracNanos;
    var p1, p2 := Pow10(n1), Pow10(n2);
    var f1, f2 := if neg1 then 0 - frac1 else frac1, if neg2 then 0 - frac2 else frac2;
    SecondsOrdered(sec1, f1, p1, sec2, f2, p2);
    Cross(sec1, f1, p1, f2, p2);
  }

  lemma {:induction false} ByParts(sec1: int, q1: nat, sec2: int, q2: nat)
    requires sec1 <= sec2 && q1 < BILLION && q2 < BILLION
    ensures sec1 * BILLION + q1 <= sec2 * BILLION + q2 <==> sec1 < sec2 || q1 <= q2
  {
  }

  lemma {:induction false} Cross(sec: int, f1: int, p1: int, f2: int, p2: int)
    ensures (sec * p1 + f1) * p2 == sec * (p1 * p2) + f1 * p2
    ensures (sec * p2 + f2) * p1 == sec * (p1 * p2) + f2 * p1
  {
  }

  /** Cutting off the fraction keeps the order. */
  lemma {:induction false} SecondsOrdered(sec1: int, f1: int, p1: nat, sec2: int, f2: int, p2: nat)
    requires Abs(f1) < p1 && Abs(f2) < p2 && (sec1 * p1 + f1) * p2 <= (sec2 * p2 + f2) * p1
    requires (sec1 > 0 ==> f1 >= 0) && (sec2 > 0 ==> f2 >= 0) && (sec1 < 0 ==> f1 <= 0) && (sec2 < 0 ==> f2 <= 0)
    ensures sec1 <= sec2
  {
    if sec1 > sec2 {
      Cross(sec1, f1, p1, f1, p2);
      Cross(sec2, f2, p1, f2, p2);
      ScaledBelow(f1, p1, p2);
      ScaledBelow(f2, p2, p1);
      Apart(sec1, sec2, p1 * p2);
    }
  }

  lemma {:induction false} Apart(a: int, b: int, p: nat)
    requires a > b
    ensures a * p - b * p >= p && (a >= b + 2 ==> a * p - b * p >= 2 * p)
  {
    assert a * p - b * p == (a - b) * p;
    MulMono(1, a - b, p);
    MulMono(2, a - b, p);
  }

  lemma {:induction false} ScaledBelow(f: int, p: nat, c: nat)
    requires Abs(f) < p && c > 0
    ensures Abs(f * c) < p * c
    ensures f >= 0 ==> f * c >= 0
    ensures f <= 0 ==> f * c <= 0
  {
    Negate(f, c);
    MulMono(Abs(f) + 1, p, c);
  }

  lemma {:induction false} FloorsOrdered(t1: nat, v1: nat, p1: nat, t2: nat, v2: nat, p2: nat)
    requires p1 > 0 && p2 > 0 && v1 * p2 <= v2 * p1
    requires t1 * p1 <= v1 * BILLION && v2 * BILLION < (t2 + 1) * p2
    ensures t1 <= t2
  {
    // t1 p1 p2 <= v1 B p2 <= v2 B p1 < (t2 + 1) p2 p1
    MulMono(t1 * p1, v1 * BILLION, p2);
    MulMono(v1 * p2, v2 * p1, BILLION);
    MulMono(v2 * BILLION + 1, (t2 + 1) * p2, p1);
    Rearrange(t1, v1, p1, t2, v2, p2);
    MulMono(t2 + 1, t1, p1 * p2);
  }

  lemma {:induction false} Rearrange(t1: nat, v1: nat, p1: nat, t2: nat, v2: nat, p2: nat)
    ensures t1 * p1 * p2 == t1 * (p1 * p2)
    ensures v1 * BILLION * p2 == v1 * p2 * BILLION
    ensures v2 * p1 * BILLION == v2 * BILLION * p1
    ensures (t2 + 1) * p2 * p1 == (t2 + 1) * (p1 * p2)
  {
  }

  // -------------------------------------------------- timestamps as written

  predicate Negative(s: string) {
    "-" <= s
  }

  function FracText(s: string): string {
    if Dot(s) < |s| then s[Dot(s) + 1..] else ""
  }

  /** An accepted timestamp whose fraction, if any, is digits only. */
  predicate IsDecimalTime(s: string) {
    Timestamp(s).Some? && AllDecimal(FracText(s))
  }

  /** The whole seconds, signed; the fraction; its number of digits. */
  function SecOf(s: string): Int64
    requires IsDecimalTime(s)
  {
    ParseInt64(s[..Dot(s)]).value
  }

  function FracOf(s: string): nat
    requires IsDecimalTime(s)
  {
    DecimalValue(FracText(s))
  }

  /** The nanoseconds of a written time, before they are wrapped into an int64. */
  function TotalOf(s: string): int
    requires IsDecimalTime(s)
  {
    Nanos(SecOf(s), FracOf(s), |FracText(s)|)
  }

  /** The written decimal, in units of its last digit. */
  function DecimalOf(s: string): int
    requires IsDecimalTime(s)
  {
    Decimal(Negative(s), SecOf(s), FracOf(s), |FracText(s)|)
  }

  lemma {:induction false} TimestampIsTotal(s: string)
    requires IsDecimalTime(s)
    ensures Timestamp(s) == Some(Wrap64(TotalOf(s)))
    ensures Fits(Negative(s), SecOf(s), FracOf(s), |FracText(s)|)
  {
    hide DecimalValue, Wrap64;
    DecimalBound(FracText(s));
    SignOfSeconds(s);
    if Dot(s) < |s| {
      UnsignedParse(FracText(s));
    } else {
      NoFraction();
    }
  }

  lemma {:induction false} NoFraction()
    ensures DecimalValue("") == 0 && FracNanos(0, 0) == 0
  {
  }

  lemma {:induction false} SignOfSeconds(s: string)
    requires ParseInt64(s[..Dot(s)]).Some?
    ensures if Negative(s) then ParseInt64(s[..Dot(s)]).value <= 0 else ParseInt64(s[..Dot(s)]).value >= 0
  {
    hide DecimalValue;
    assert Negative(s) <==> "-" <= s[..Dot(s)];
  }

  predicate InInt64(x: int) {
    -TWO_63 <= x < TWO_63
  }

  /** How often a number goes round the int64 range before it comes to rest in it. */
  function Wraps(x: int): int {
    (x + TWO_63) / TWO_64
  }

  lemma {:induction false} WrapsAround(x: int)
    ensures Wrap64(x) == x - Wraps(x) * TWO_64
    ensures InInt64(x) <==> Wraps(x) == 0
  {
    ModShift(x, Wraps(x));
  }

  /** Total and decimal are less than two seconds apart, so a total that wrapped is nowhere near the decimal. */
  lemma {:induction false} WrappedIsFar(negative: bool, sec: int, frac: nat, n: nat, t: int)
    requires Fits(negative, sec, frac, n) && Abs(t - Nanos(sec, frac, n)) >= TWO_64
    ensures Abs(Decimal(negative, sec, frac, n) * BILLION - t * Pow10(n)) > Pow10(n)
  {
    hide Pow10, FracNanos;
    var p, q, total := Pow10(n), FracNanos(frac, n), Nanos(sec, frac, n);
    Distribute(sec, p, q, if negative then 0 - frac else frac);
    MulMono(q, BILLION, p);
    Multiples(t - total, p);
    assert (t - total) * p == t * p - total * p;
  }

  lemma {:induction false} Multiples(d: int, p: nat)
    requires Abs(d) >= TWO_64 && p > 0
    ensures Abs(d * p) >= TWO_64 * p
  {
    MulMono(TWO_64, Abs(d), p);
    Negate(d, p);
  }

  /**
   * A written time is read as its decimal rounded down exactly when it has no minus sign or no fraction and its
   * nanoseconds fit an int64; and to within a nanosecond exactly when it has no minus sign or a fraction below a
   * nanosecond, and they fit.
   */
  lemma {:induction false} TimestampIsFloorIff(s: string)
    requires IsDecimalTime(s)
    ensures
      var t, p, v := Timestamp(s).value, Pow10(|FracText(s)|), DecimalOf(s) * BILLION;
      && (t * p <= v < (t + 1) * p <==> (!Negative(s) || FracOf(s) == 0) && InInt64(TotalOf(s)))
      && (Abs(v - t * p) < p <==> (!Negative(s) || FracOf(s) * BILLION < p) && InInt64(TotalOf(s)))
  {
    hide Pow10, Nanos, Decimal, DecimalValue, Timestamp, Wrap64, Wraps, Fits;
    TimestampIsTotal(s);
    WrapsAround(TotalOf(s));
    var t: int, p := Timestamp(s).value, Pow10(|FracText(s)|);
    if InInt64(TotalOf(s)) {
      NanosIsFloorIff(Negative(s), SecOf(s), FracOf(s), |FracText(s)|);
    } else {
      WrappedIsFar(Negative(s), SecOf(s), FracOf(s), |FracText(s)|, t);
      assert (t + 1) * p == t * p + p;
    }
  }

  /**
   * Two written times in order, whatever their numbers of digits: when both go round int64 equally often, or not at
   * all, they are read in order exactly when the first has fewer whole seconds or no larger a fraction, and so always
   * without minus signs; when not, exactly when they are more whole rounds apart than they differ in.
   */
  lemma {:induction false} TimestampsOrderedIff(s1: string, s2: string)
    requires IsDecimalTime(s1) && IsDecimalTime(s2)
    requires DecimalOf(s1) * Pow10(|FracText(s2)|) <= DecimalOf(s2) * Pow10(|FracText(s1)|)
    ensures
      var w1, w2 := Wraps(TotalOf(s1)), Wraps(TotalOf(s2));
      && (Timestamp(s1).value <= Timestamp(s2).value <==>
            if w1 == w2 then
              SecOf(s1) < SecOf(s2) || FracNanos(FracOf(s1), |FracText(s1)|) <= FracNanos(FracOf(s2), |FracText(s2)|)
            else TotalOf(s2) - TotalOf(s1) >= (w2 - w1) * TWO_64)
      && (w1 == w2 && (Negative(s1) ==> FracOf(s1) == 0) && (Negative(s2) ==> FracOf(s2) == 0) ==>
            Timestamp(s1).value <= Timestamp(s2).value)
  {
    hide Pow10, Nanos, Decimal, DecimalValue, Timestamp, FracNanos, Fits, Wrap64, Wraps;
    TimestampIsTotal(s1);
    TimestampIsTotal(s2);
    WrapsAround(TotalOf(s1));
    WrapsAround(TotalOf(s2));
    NanosOrderedIff(Negative(s1), SecOf(s1), FracOf(s1), |FracText(s1)|,
                    Negative(s2), SecOf(s2), FracOf(s2), |FracText(s2)|);
  }

  /** Large times wrap without an error: a time in 2286 is read as one in 1702. */
  lemma {:induction false} LargeTimesWrap()
    ensures Timestamp("10000000000") == Some(-8_446_744_073_709_551_616)
  {
    hide Wrap64;
    var s := "1" + seq(10, _ => '0');
    assert "10000000000" == s;
    OneWithZeros(10);
    Pow10Values();
    WholeSeconds(s);
    assert Wrap64(10 * BILLION * BILLION) == -8_446_744_073_709_551_616 by { WrapsAround(10 * BILLION * BILLION); }
  }

  lemma {:induction false} WholeSeconds(s: string)
    requires s != "" && AllDecimal(s) && DecimalValue(s) < TWO_63
    ensures Timestamp(s) == Some(Wrap64(DecimalValue(s) * BILLION))
  {
    hide DecimalValue, Wrap64;
    assert IsDecimal(s[0]);
    assert Dot(s) < |s| ==> IsDecimal(s[Dot(s)]);
    assert s[..|s|] == s;
  }

  lemma {:induction false} OneWithZeros(n: nat)
    ensures AllDecimal("1" + seq(n, _ => '0')) && DecimalValue("1" + seq(n, _ => '0')) == Pow10(n)
  {
    var s := "1" + seq(n, _ => '0');
    if n == 0 {
      assert s == "1";
      OneDigit(s);
    } else {
      OneWithZeros(n - 1);
      assert s[..|s| - 1] == "1" + seq(n - 1, _ => '0');
    }
  }

  /** Two of the times that go wrong: half a second is added where it should be taken off, and a sign is lost. */
  lemma {:induction false} NegativeTimesGoWrong()
    ensures Timestamp("-1.5") == Some(-500_000_000)
    ensures Timestamp("-0.5") == Some(500_000_000)
    ensures Timestamp("0.-5") == Some(-50_000_000)
  {
    hide Wrap64;
    DotAt("-1.5", 2);
    DotAt("-0.5", 2);
    DotAt("0.-5", 1);
    OneDigit("1");
    OneDigit("0");
    OneDigit("5");
    assert "-1.5"[..2] == "-1" && "-1.5"[3..] == "5" && "-1"[1..] == "1";
    assert "-0.5"[..2] == "-0" && "-0.5"[3..] == "5" && "-0"[1..] == "0";
    assert "0.-5"[..1] == "0" && "0.-5"[2..] == "-5" && "-5"[1..] == "5";
    assert Pow10(1) == 10 && Pow10(2) == 100;
  }

  lemma {:induction false} OneDigit(s: string)
    requires |s| == 1 && IsDecimal(s[0])
    ensures AllDecimal(s) && DecimalValue(s) == s[0] as int - '0' as int
  {
    assert s[..0] == "";
  }

  lemma {:induction false} DotAt(s: string, i: nat)
    requires i < |s| && s[i] == '.' && '.' !in s[..i]
    ensures Dot(s) == i
  {
    var d := Dot(s);
    assert forall k :: 0 <= k < i ==> s[k] in s[..i];
    assert forall k :: 0 <= k < d ==> s[k] in s[..d];
  }

  // ------------------------------------------------------------- rebasing

  /** Time since `base`, in wrapping int64 arithmetic. */
  function Since(t: int, base: int): Int64 {
    Wrap64(t - base)
  }

  /**
   * Offsets of the entries of a log, given the absolute times of its parseable lines. They are the times
   * since the first one, unless the log starts before 1970 and its times differ: a negative base is taken
   * for "none yet" and replaced at every line.
   */
  method Rebase(times: seq<Int64>) returns (offsets: seq<Int64>)
    ensures |offsets| == |times|
    ensures (forall i :: 0 <= i < |times| ==> offsets[i] == Wrap64(times[i] as int - times[0] as int))
      <==> (times != [] ==> times[0] >= 0 || forall i :: 0 <= i < |times| ==> times[i] == times[0])
  {
    hide Since;
    offsets := [];
    var baseNs: Int64 := -1;
    for i := 0 to |times|
      invariant |offsets| == i && (i == 0 ==> baseNs == -1)
      invariant i > 0 && times[0] >= 0 ==>
        baseNs == times[0] && forall k :: 0 <= k < i ==> offsets[k] == Since(times[k], times[0])
      invariant i > 0 && times[0] < 0 && (forall k :: 0 <= k < i ==> times[k] == times[0]) ==>
        baseNs == times[0] && forall k :: 0 <= k < i ==> offsets[k] == Since(times[k], times[0])
      invariant i > 0 && times[0] < 0 && (exists k :: 0 <= k < i && times[k] != times[0]) ==>
        exists k :: 0 <= k < i && offsets[k] != Since(times[k], times[0])
    {
      if baseNs < 0 { baseNs := times[i]; }
      SinceSelf(times[i], times[0]);
      offsets := offsets + [Since(times[i], baseNs)];
      if i > 0 && times[0] < 0 && times[i] != times[0] && forall k :: 0 <= k < i ==> times[k] == times[0] {
        assert offsets[i] != Since(times[i], times[0]);
      }
    }
    SinceIs(times, offsets);
  }

  lemma {:induction false} SinceIs(times: seq<Int64>, offsets: seq<Int64>)
    requires |offsets| == |times|
    ensures (forall i :: 0 <= i < |times| ==> offsets[i] == Wrap64(times[i] as int - times[0] as int))
      <==> (forall i :: 0 <= i < |times| ==> offsets[i] == Since(times[i], times[0]))
  {
    hide Wrap64;
  }

  /** A time is zero nanoseconds since another exactly when they are the same. */
  lemma {:induction false} SinceSelf(t: Int64, base: Int64)
    ensures Since(t, t) == 0
    ensures Since(t, base) == 0 <==> t == base
  {
  }
}
