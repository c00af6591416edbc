/** The IEEE 754 binary64 detour of a timestamp: int64 -> float64 -> bits -> int64. */
module Float64 {
  import opened Arithmetic
  import opened Bytes

  const TWO_52: int := 0x10_0000_0000_0000
  const TWO_53: int := 0x20_0000_0000_0000

  /** Position of the highest set bit. */
  function TopBit(m: nat): (e: nat)
    requires m > 0
    ensures Pow2(e) <= m < 2 * Pow2(e)
  {
    if m == 1 then 0 else TopBit(m / 2) + 1
  }

  lemma {:induction false} Pow2Mono(a: nat, b: nat)
    requires a <= b
    ensures Pow2(a) <= Pow2(b)
    ensures Pow2(b - a) * Pow2(a) == Pow2(b)
  {
    if a < b {
      Pow2Mono(a, b - 1);
      assert Pow2(b - a) == 2 * Pow2(b - 1 - a);
    }
  }

  lemma {:induction false} Pow2Values()
    ensures Pow2(8) == 256 && Pow2(10) == 1024 && Pow2(52) == TWO_52 && Pow2(53) == TWO_53 && Pow2(61) == TWO_63 / 4
    ensures Pow2(63) == TWO_63
  {
    assert Pow2(8) == 256;
    Pow2Mono(8, 16);
    Pow2Mono(16, 32);
    Pow2Mono(16, 48);
    assert Pow2(52) == 16 * Pow2(48);
    assert Pow2(61) == 512 * Pow2(52) by { Pow2Mono(52, 61); assert Pow2(9) == 512; }
  }

  lemma {:induction false} TopBitUnique(m: nat, e: nat)
    requires Pow2(e) <= m < 2 * Pow2(e)
    ensures TopBit(m) == e
  {
    Pow2Le(e + 1, TopBit(m));
    Pow2Le(TopBit(m) + 1, e);
  }

  lemma {:induction false} Pow2Le(a: nat, b: nat)
    ensures a <= b ==> Pow2(a) <= Pow2(b)
  {
    if a <= b { Pow2Mono(a, b); }
  }

  /** m / u rounded to the nearest integer, ties to even. */
  function RoundHalfEven(m: nat, u: nat): (q: nat)
    requires u > 0
    ensures m / u <= q <= m / u + 1
  {
    var q, r := m / u, m % u;
    if 2 * r > u || (2 * r == u && q % 2 == 1) then q + 1 else q
  }

  /** The gap between neighbouring float64 values at magnitude m. */
  function Ulp(m: nat): (u: nat)
    ensures u > 0
  {
    if m == 0 || TopBit(m) <= 52 then 1 else Pow2(TopBit(m) - 52)
  }

  /** 53-bit significand of float64(m); 2^53 itself when rounding carries. */
  function Significand(m: nat): nat
    requires m > 0
  {
    var e := TopBit(m);
    if e <= 52 then m * Pow2(52 - e) else RoundHalfEven(m, Pow2(e - 52))
  }

  function Magnitude(n: int): nat {
    if n < 0 then -n else n
  }

  /** math.Float64bits(float64(n)). A carry out of the significand runs into the exponent field. */
  function FromInt64(n: Int64): (bits: int)
  {
    if n == 0 then 0
    else
      var m := Magnitude(n);
      (if n < 0 then TWO_63 else 0) + MagnitudeBits(m)
  }

  /** Integer part of sig * 2^(e - 52). */
  function Scaled(sig: nat, e: nat): (v: nat)
    requires sig < TWO_53 && e <= 62
    ensures v < TWO_63
  {
    MagnitudeBound(sig, e);
    if e <= 52 then sig / Pow2(52 - e) else sig * Pow2(e - 52)
  }

  /** Integer part of the float64 with bits `mag`, sign cleared; 2^63 stands for all that is larger, and for NaN. */
  function Truncated(mag: nat): (v: nat)
    requires mag < TWO_63
    ensures v <= TWO_63
  {
    var expo := mag / TWO_52;
    if expo < 1023 then 0
    else if expo >= 1023 + 63 then TWO_63
    else Scaled(TWO_52 + mag % TWO_52, expo - 1023)
  }

  /** int64(math.Float64frombits(bits)); a value out of range gives -2^63, as on amd64. */
  function ToInt(bits: nat): Int64
    requires bits < TWO_64
  {
    Signed(bits >= TWO_63, Truncated(bits % TWO_63))
  }

  function Signed(negative: bool, v: nat): Int64
    requires v <= TWO_63
  {
    if v == TWO_63 || negative then 0 - v else v
  }

  lemma {:induction false} MagnitudeBound(sig: nat, e: nat)
    requires sig < TWO_53 && e <= 62
    ensures e <= 52 ==> 0 <= sig / Pow2(52 - e) < TWO_63
    ensures e > 52 ==> 0 <= sig * Pow2(e - 52) < TWO_63
  {
    Pow2Values();
    if e > 52 {
      hide Pow2;
      Pow2Mono(e - 52, 10);
      MulMono(Pow2(e - 52), 1024, sig);
    } else {
      hide Pow2;
      DivLe(sig, Pow2(52 - e));
    }
  }

  /** The float64 nearest to an integer of magnitude m. */
  function Nearest(m: nat): nat
  {
    RoundHalfEven(m, Ulp(m)) * Ulp(m)
  }

  lemma {:induction false} TopBitBound(m: nat)
    requires 0 < m <= TWO_63
    ensures TopBit(m) <= 63
    ensures TopBit(m) == 63 ==> m == TWO_63
  {
    Pow2Values();
    if TopBit(m) > 63 {
      Pow2Mono(64, TopBit(m));
      assert false;
    }
  }

  lemma {:induction false} SignificandBounds(m: nat)
    requires 0 < m
    ensures TWO_52 <= Significand(m) <= TWO_53
    ensures TopBit(m) <= 52 ==> Significand(m) < TWO_53
  {
    var e := TopBit(m);
    if e <= 52 { SmallSignificand(m, e); } else { LargeQuotient(m, e); }
  }

  lemma {:induction false} SmallSignificand(m: nat, e: nat)
    requires Pow2(e) <= m < 2 * Pow2(e) && e <= 52
    ensures TWO_52 <= m * Pow2(52 - e) < TWO_53
  {
    Pow2Mono(e, 52);
    Pow2Values();
    ScaledBounds(Pow2(e), m, Pow2(52 - e));
  }

  lemma {:induction false} LargeQuotient(m: nat, e: nat)
    requires Pow2(e) <= m < 2 * Pow2(e) && e > 52
    ensures TWO_52 <= m / Pow2(e - 52) < TWO_53
  {
    Pow2Mono(52, e);
    Pow2Values();
    QuotientBounds(m, Pow2(e - 52), TWO_52, TWO_53);
  }

  lemma {:induction false} ScaledBounds(lo: nat, m: nat, p: nat)
    requires p > 0 && lo <= m < 2 * lo
    ensures lo * p <= m * p < 2 * (lo * p)
  {
    MulMono(lo, m, p);
    MulMono(m + 1, 2 * lo, p);
  }

  lemma {:induction false} NearestOfSignificand(m: nat)
    requires 0 < m <= TWO_63
    ensures TopBit(m) <= 52 ==> Nearest(m) == m
    ensures TopBit(m) > 52 ==> Nearest(m) == Significand(m) * Pow2(TopBit(m) - 52)
  {
  }

  /** Splits the exponent and significand fields back out of a 63-bit magnitude. */
  lemma {:induction false} FieldsOf(expo: nat, frac: nat)
    requires frac < TWO_52
    ensures (expo * TWO_52 + frac) / TWO_52 == expo && (expo * TWO_52 + frac) % TWO_52 == frac
  {
  }

  /** float64(n) without its sign bit. */
  function MagnitudeBits(m: nat): int
    requires m > 0
  {
    (1023 + TopBit(m)) * TWO_52 + (Significand(m) - TWO_52)
  }

  lemma {:induction false} MagnitudeRoundTrip(m: nat)
    requires 0 < m <= TWO_63
    ensures 0 <= MagnitudeBits(m) < TWO_63
    ensures Truncated(MagnitudeBits(m)) == if Nearest(m) >= TWO_63 then TWO_63 else Nearest(m)
  {
    var e, s := TopBit(m), Significand(m);
    TopBitBound(m);
    SignificandBounds(m);
    NearestOfSignificand(m);
    if e <= 52 {
      FieldsOf(1023 + e, s - TWO_52);
      DivCancel(m, Pow2(52 - e));
    } else {
      LargeRoundTrip(e, s);
    }
  }

  /** A significand at exponent e > 52; s == 2^53 is the carry, which bumps the exponent. */
  lemma {:induction false} LargeRoundTrip(e: nat, s: nat)
    requires 52 < e <= 63 && TWO_52 <= s <= TWO_53
    ensures 0 <= (1023 + e) * TWO_52 + (s - TWO_52) < TWO_63
    ensures
      var v := s * Pow2(e - 52);
      Truncated((1023 + e) * TWO_52 + (s - TWO_52)) == if v >= TWO_63 then TWO_63 else v
  {
    var carry := s == TWO_53;
    var expo := if carry then 1024 + e else 1023 + e;
    var sig := if carry then TWO_52 else s;
    FieldsOf(expo, sig - TWO_52);
    Pow2Values();
    assert carry ==> Pow2(e + 1 - 52) == 2 * Pow2(e - 52);
    if expo < 1023 + 63 {
      MagnitudeBound(sig, expo - 1023);
    } else {
      Pow2Mono(10, e - 52 + (expo - 1023 - e));
      assert s * Pow2(e - 52) == sig * Pow2(expo - 1023 - 52);
      MulMono(1024, Pow2(expo - 1023 - 52), TWO_52);
      MulMono(TWO_52, sig, Pow2(expo - 1023 - 52));
    }
  }

  /** The timestamp a reader sees for a written one: rounded to the nearest float64. */
  function Seen(n: Int64): Int64 {
    var v := Nearest(Magnitude(n));
    Signed(n < 0, if v >= TWO_63 then TWO_63 else v)
  }

  lemma {:induction false} SignBit(negative: bool, mag: nat)
    requires mag < TWO_63
    ensures ToInt((if negative then TWO_63 else 0) + mag) == Signed(negative, Truncated(mag))
  {
    assert ((if negative then TWO_63 else 0) + mag) % TWO_63 == mag;
  }

  /** Writing a timestamp as float64 bits and reading it back is rounding it to the nearest float64. */
  lemma {:induction false} RoundTripIsRounding(n: Int64)
    ensures 0 <= FromInt64(n) < TWO_64
    ensures ToInt(FromInt64(n)) == Seen(n)
  {
    if n == 0 {
      SignBit(false, 0);
    } else {
      var m := Magnitude(n);
      MagnitudeRoundTrip(m);
      SignBit(n < 0, MagnitudeBits(m));
    }
  }

  /** Some known bit patterns: sign, biased exponent and significand where the format has them. */
  lemma {:induction false} KnownBits()
    ensures FromInt64(0) == 0 && FromInt64(1) == 0x3FF0_0000_0000_0000
    ensures FromInt64(-3) == 0xC008_0000_0000_0000
    ensures FromInt64(TWO_53 + 3) == 0x4340_0000_0000_0002
  {
    SmallBits();
    LargeBits();
  }

  lemma {:induction false} SmallBits()
    ensures MagnitudeBits(1) == 0x3FF0_0000_0000_0000 && MagnitudeBits(3) == 0x4008_0000_0000_0000
  {
    Pow2Values();
    assert Pow2(1) == 2 && 2 * Pow2(51) == Pow2(52);
    assert Pow2(0) == 1;
    hide Pow2;
    TopBitUnique(1, 0);
    TopBitUnique(3, 1);
  }

  lemma {:induction false} LargeBits()
    ensures MagnitudeBits(TWO_53 + 3) == 0x4340_0000_0000_0002
  {
    Pow2Values();
    assert Pow2(1) == 2;
    hide Pow2;
    TopBitUnique(TWO_53 + 3, 53);
  }

  /** The detour loses nothing exactly when the timestamp is a multiple of its float64 spacing. */
  lemma {:induction false} SeenExactIff(n: Int64)
    ensures Seen(n) == n <==> Magnitude(n) % Ulp(Magnitude(n)) == 0
  {
    NearestError(Magnitude(n));
    if n == -TWO_63 { MinInt64IsExact(); }
  }

  lemma {:induction false} MinInt64IsExact()
    ensures Nearest(TWO_63) == TWO_63 && TWO_63 % Ulp(TWO_63) == 0
  {
    Pow2Values();
    TopBitUnique(TWO_63, 63);
    assert Pow2(11) == 2 * Pow2(10);
  }

  /** Rounding is off by at most half a spacing, and not at all exactly on multiples of it. */
  lemma {:induction false} NearestError(m: nat)
    ensures 2 * (Nearest(m) - m) <= Ulp(m) && 2 * (m - Nearest(m)) <= Ulp(m)
    ensures Nearest(m) == m <==> m % Ulp(m) == 0
  {
    var u := Ulp(m);
    DivMod(m, u);
    var q := m / u;
    assert (q + 1) * u == q * u + u;
  }

  /** What rounding adds to a magnitude, told from its quotient and remainder by the float64 spacing. */
  function RoundingError(m: nat): int {
    var u := Ulp(m);
    var q, r := m / u, m % u;
    if 2 * r > u || (2 * r == u && q % 2 == 1) then u - r else -r
  }

  /** The same for a signed timestamp: rounding does not depend on the sign. */
  function TimeError(n: Int64): int {
    if n < 0 then -RoundingError(Magnitude(n)) else RoundingError(n)
  }

  lemma {:induction false} NearestIsShifted(m: nat)
    ensures Nearest(m) == m + RoundingError(m)
    ensures 0 - Ulp(m) <= 2 * RoundingError(m) <= Ulp(m)
  {
    var u := Ulp(m);
    DivMod(m, u);
    var q := m / u;
    assert (q + 1) * u == q * u + u;
  }

  /** What a reader sees is the written time plus its rounding error, in wrapping int64 arithmetic. */
  lemma {:induction false} SeenIsShifted(n: Int64)
    ensures Seen(n) == Wrap64(n + TimeError(n))
    ensures -512 <= TimeError(n) <= 512
  {
    hide RoundingError, Nearest, Ulp;
    var m := Magnitude(n);
    NearestIsShifted(m);
    if n == -TWO_63 {
      MinInt64IsExact();
    } else {
      UlpBound(m);
      NearestBound(m);
    }
    ShiftedTime(n, Nearest(m));
  }

  /** Only the largest times round up to 2^63, and that wraps to the smallest int64, as the conversion does. */
  lemma {:induction false} ShiftedTime(n: Int64, v: nat)
    requires v <= TWO_63
    ensures Signed(n < 0, if v >= TWO_63 then TWO_63 else v) == Wrap64(if n < 0 then 0 - v else v)
  {
  }

  lemma {:induction false} NearestBound(m: nat)
    requires m < TWO_63
    ensures Nearest(m) <= TWO_63
  {
    hide Nearest, Significand;
    if m > 0 {
      var e := TopBit(m);
      TopBitBound(m);
      SignificandBounds(m);
      NearestOfSignificand(m);
      Pow2Values();
      if e > 52 {
        Pow2Le(e - 52, 10);
        MulMono(Significand(m), TWO_53, Pow2(e - 52));
        MulMono(Pow2(e - 52), 1024, TWO_53);
      }
    } else {
      assert Nearest(0) == 0 by { NearestIsShifted(0); }
    }
  }

  lemma {:induction false} UlpBound(m: nat)
    requires m < TWO_63
    ensures Ulp(m) <= 1024
  {
    Pow2Values();
    if m > 0 && TopBit(m) > 52 {
      TopBitBound(m);
      Pow2Le(TopBit(m) - 52, 10);
    }
  }

  /** The rule of RoundingError on signed quotients and remainders, rounded towards minus infinity. */
  lemma {:induction false} SignedRounding(n: Int64)
    ensures
      var u := Ulp(Magnitude(n));
      var q, r := n / u, n % u;
      TimeError(n) == if 2 * r > u || (2 * r == u && q % 2 == 1) then u - r else -r
  {
    var m := Magnitude(n);
    var u := Ulp(m);
    if n < 0 {
      DivMod(m, u);
      NegativeQuotient(m, u, m / u, m % u);
    }
  }

  lemma {:induction false} NegativeQuotient(m: nat, u: nat, q: nat, r: nat)
    requires u > 0 && m == q * u + r && r < u
    ensures (0 - m) / u == (if r == 0 then 0 - q else 0 - q - 1) && (0 - m) % u == (if r == 0 then 0 else u - r)
  {
    var q' := if r == 0 then 0 - q else 0 - q - 1;
    var r' := if r == 0 then 0 else u - r;
    assert (0 - q - 1) * u == 0 - q * u - u;
    assert (0 - q) * u == 0 - q * u;
    DivUniqueSigned(0 - m, u, q', r');
  }

  lemma {:induction false} DivUniqueSigned(x: int, b: nat, q: int, r: nat)
    requires b > 0 && r < b && x == q * b + r
    ensures x / b == q && x % b == r
  {
    var k := q - x / b;
    assert k * b == q * b - x / b * b == x % b - r;
    AtLeastOnce(k, b);
  }

  lemma {:induction false} AtLeastOnce(k: int, b: nat)
    ensures (k > 0 ==> k * b >= b) && (k < 0 ==> k * b <= 0 - b)
  {
    if k > 0 { MulMono(1, k, b); }
    if k < 0 {
      assert -k * b == -(k * b);
      MulMono(1, -k, b);
    }
  }

  /**
   * Times of the same spacing, of whatever sign, are shifted alike exactly when their remainders by it agree, and
   * ties go the same way.
   */
  lemma {:induction false} SameErrorIff(a: Int64, b: Int64)
    requires Ulp(Magnitude(a)) == Ulp(Magnitude(b))
    ensures
      var u := Ulp(Magnitude(a));
      TimeError(a) == TimeError(b) <==> a % u == b % u && (2 * (a % u) == u ==> a / u % 2 == b / u % 2)
  {
    hide TimeError, Ulp;
    SignedRounding(a);
    SignedRounding(b);
  }

  /** Every timestamp up to 2^53 in magnitude survives. */
  lemma {:induction false} SeenExactBelow53(n: Int64)
    requires -TWO_53 <= n <= TWO_53
    ensures Seen(n) == n
  {
    var m := Magnitude(n);
    SeenExactIff(n);
    Pow2Values();
    if m == TWO_53 {
      TopBitUnique(m, 53);
      assert Pow2(1) == 2;
    } else if m > 0 {
      Pow2Le(53, TopBit(m));
    }
  }

  /** Below 2^61 ns, that is Unix times until 2043, a timestamp moves by at most 128 ns. */
  lemma {:induction false} SeenErrorBelow61(n: Int64)
    requires -(TWO_63 / 4) < n < TWO_63 / 4
    ensures -128 <= Seen(n) - n <= 128
  {
    var m := Magnitude(n);
    NearestError(m);
    Pow2Values();
    if m > 0 && TopBit(m) > 52 {
      Pow2Le(61, TopBit(m));
      Pow2Le(TopBit(m) - 52, 8);
    }
  }
}
