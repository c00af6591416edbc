/** Byte strings, and the fixed-width little-endian integers every MDF4 field is made of. */
module Bytes {
  type Byte = b: int | 0 <= b < 256

  function Pow256(n: nat): (p: nat)
    ensures p > 0
  {
    if n == 0 then 1 else 256 * Pow256(n - 1)
  }

  const TWO_32: int := 0x1_0000_0000
  const TWO_63: int := 0x8000_0000_0000_0000
  const TWO_64: int := 0x1_0000_0000_0000_0000

  lemma {:induction false} Pow256Values()
    ensures Pow256(1) == 256 && Pow256(2) == 0x1_0000 && Pow256(4) == TWO_32 && Pow256(8) == TWO_64
  {
    assert Pow256(2) == 256 * Pow256(1);
    assert Pow256(3) == 256 * Pow256(2);
    assert Pow256(4) == 256 * Pow256(3);
    assert Pow256(5) == 256 * Pow256(4);
    assert Pow256(6) == 256 * Pow256(5);
    assert Pow256(7) == 256 * Pow256(6);
    assert Pow256(8) == 256 * Pow256(7);
  }

  /** The low `n` bytes of `v`, least significant first: what does not fit is cut off. */
  function PutLE(n: nat, v: nat): (b: seq<Byte>)
    ensures |b| == n
  {
    if n == 0 then [] else [v % 256] + PutLE(n - 1, v / 256)
  }

  function GetLE(b: seq<Byte>): nat {
    if b == [] then 0 else b[0] + 256 * GetLE(b[1..])
  }

  lemma {:induction false} GetLEBound(b: seq<Byte>)
    ensures GetLE(b) < Pow256(|b|)
  {
    if b != [] { GetLEBound(b[1..]); }
  }

  lemma {:induction false} GetPut(n: nat, v: nat)
    requires v < Pow256(n)
    ensures GetLE(PutLE(n, v)) == v
  {
    if n > 0 {
      GetPut(n - 1, v / 256);
      assert PutLE(n, v)[1..] == PutLE(n - 1, v / 256);
    }
  }

  /** A Go int64 seen as the uint64 with the same bits, and back. */
  type Int64 = x: int | -TWO_63 <= x < TWO_63

  function ToUint64(x: Int64): (v: nat)
    ensures v < TWO_64
  {
    if x < 0 then x + TWO_64 else x
  }

  function ToInt64(v: nat): (x: Int64)
    requires v < TWO_64
    ensures ToUint64(x) == v
  {
    if v < TWO_63 then v else v - TWO_64
  }

  /** Two's-complement wrap-around of int64 arithmetic. */
  function Wrap64(x: int): (r: Int64)
    ensures -TWO_63 <= x < TWO_63 ==> r == x
  {
    ToInt64(x % TWO_64)
  }

  /** Wrapping in between does not matter. */
  lemma {:induction false} WrapTwice(a: int, b: int)
    ensures Wrap64(Wrap64(a) + b) == Wrap64(a + b)
    ensures Wrap64(b - Wrap64(a)) == Wrap64(b - a)
  {
    var k := if a % TWO_64 < TWO_63 then a / TWO_64 else a / TWO_64 + 1;
    assert Wrap64(a) == a - k * TWO_64;
    ModShift(a + b, k);
    ModShift(b - a, -k);
  }

  lemma {:induction false} ModShift(x: int, k: int)
    ensures (x - k * TWO_64) % TWO_64 == x % TWO_64
  {
  }

  /** Numbers less than 2^64 apart wrap to the same only if they are the same. */
  lemma {:induction false} WrapApart(x: int, y: int)
    requires -TWO_64 < x - y < TWO_64
    ensures Wrap64(x) == Wrap64(y) <==> x == y
  {
  }

  function Zeros(n: nat): (z: seq<Byte>)
    ensures |z| == n && forall i :: 0 <= i < n ==> z[i] == 0
  {
    seq(n, _ => 0)
  }

  /** `s` with the bytes from `at` on overwritten by `b`. */
  function Splice(s: seq<Byte>, at: nat, b: seq<Byte>): (r: seq<Byte>)
    requires at + |b| <= |s|
    ensures |r| == |s|
    ensures r[..at] == s[..at] && r[at..at + |b|] == b && r[at + |b|..] == s[at + |b|..]
  {
    s[..at] + b + s[at + |b|..]
  }

  /** A slice of a slice. */
  lemma {:induction false} SubSlice(s: seq<Byte>, a: nat, b: nat, c: nat, d: nat)
    requires a <= b <= |s| && c <= d <= b - a
    ensures s[a..b][c..d] == s[a + c..a + d]
  {
    var l, r := s[a..b][c..d], s[a + c..a + d];
    assert |l| == |r|;
    forall i | 0 <= i < |l|
      ensures l[i] == r[i]
    {
      assert l[i] == s[a..b][c + i] == s[a + (c + i)];
    }
  }

  lemma {:induction false} SecondPart(a: seq<Byte>, b: seq<Byte>)
    ensures (a + b)[|a|..|a| + |b|] == b
  {
  }

  /** Writing the next piece into a buffer that is zero from there on. */
  lemma {:induction false} Fill(s: seq<Byte>, done: seq<Byte>, n: nat, b: seq<Byte>)
    requires s == done + Zeros(n) && |b| <= n
    ensures Splice(s, |done|, b) == (done + b) + Zeros(n - |b|)
  {
    assert s[..|done|] == done;
    assert s[|done| + |b|..] == Zeros(n - |b|);
  }

  lemma {:induction false} SplitZeros(a: nat, b: nat)
    ensures Zeros(a + b) == Zeros(a) + Zeros(b)
  {
  }

  /** `buf` starts with `done` and is zero from there on. */
  ghost predicate FilledTo(buf: array<Byte>, done: seq<Byte>)
    reads buf
  {
    |done| <= buf.Length && buf[..] == done + Zeros(buf.Length - |done|)
  }

  /** copy(buf[at:], b), the next piece of a zeroed buffer filled from the left. */
  method Store(buf: array<Byte>, at: nat, b: seq<Byte>, ghost done: seq<Byte>)
    requires FilledTo(buf, done) && at == |done| && at + |b| <= buf.Length
    modifies buf
    ensures FilledTo(buf, done + b)
  {
    Fill(buf[..], done, buf.Length - at, b);
    forall i | 0 <= i < |b| {
      buf[at + i] := b[i];
    }
    assert buf[..] == Splice(old(buf[..]), at, b);
  }

  /** Leaves `n` bytes of a zeroed buffer as they are. */
  lemma {:induction false} Skip(buf: array<Byte>, done: seq<Byte>, n: nat)
    requires FilledTo(buf, done) && |done| + n <= buf.Length
    ensures FilledTo(buf, done + Zeros(n))
  {
    SplitZeros(n, buf.Length - |done| - n);
    assert buf[..] == (done + Zeros(n)) + Zeros(buf.Length - |done| - n);
  }

  /** copy(buf[at:], b) over whatever was there. */
  method Overwrite(buf: array<Byte>, at: nat, b: seq<Byte>)
    requires at + |b| <= buf.Length
    modifies buf
    ensures buf[..] == Splice(old(buf[..]), at, b)
  {
    forall i | 0 <= i < |b| {
      buf[at + i] := b[i];
    }
  }

  /** Overwriting inside what was just overwritten. */
  lemma {:induction false} SpliceInside(s: seq<Byte>, at: nat, x: seq<Byte>, k: nat, b: seq<Byte>)
    requires at + |x| <= |s| && k + |b| <= |x|
    ensures Splice(Splice(s, at, x), at + k, b) == Splice(s, at, Splice(x, k, b))
  {
  }
}
