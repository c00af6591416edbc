/** The helpers of Go's strings, strconv and encoding/hex that the text protocols rest on; ASCII only. */
module Text {
  import opened Options

  predicate IsSpace(c: char) {
    c == ' ' || '\t' <= c <= '\r'
  }

  function TrimLeft(s: string): string {
    if s != "" && IsSpace(s[0]) then TrimLeft(s[1..]) else s
  }

  function TrimRight(s: string): string {
    if s != "" && IsSpace(s[|s| - 1]) then TrimRight(s[..|s| - 1]) else s
  }

  /** strings.TrimSpace */
  function TrimSpace(s: string): string {
    TrimRight(TrimLeft(s))
  }

  function TrimPrefix(s: string, p: string): string {
    if p <= s then s[|p|..] else s
  }

  /** strings.ReplaceAll(s, string(c), "") */
  function Without(s: string, c: char): string {
    if s == "" then "" else (if s[0] == c then "" else [s[0]]) + Without(s[1..], c)
  }

  function Upper(c: char): char {
    if 'a' <= c <= 'z' then (c as int - 32) as char else c
  }

  /** Letters change case, all else stays. */
  lemma {:induction false} UpperIs(c: char)
    ensures
      var lower, upper := "abcdefghijklmnopqrstuvwxyz", "ABCDEFGHIJKLMNOPQRSTUVWXYZ";
      if c in lower then exists i :: 0 <= i < 26 && c == lower[i] && Upper(c) == upper[i] else Upper(c) == c
  {
    var lower, upper := "abcdefghijklmnopqrstuvwxyz", "ABCDEFGHIJKLMNOPQRSTUVWXYZ";
    var i := c as int - 'a' as int;
    if 0 <= i < 26 {
      assert lower[i] == c && upper[i] == Upper(c);
    } else {
      assert forall k :: 0 <= k < 26 ==> 'a' <= lower[k] <= 'z';
    }
  }

  function ToUpper(s: string): (r: string)
    ensures |r| == |s|
  {
    seq(|s|, i requires 0 <= i < |s| => Upper(s[i]))
  }

  // ---------------------------------------------------------------------- hex

  predicate IsHex(c: char) {
    '0' <= c <= '9' || 'a' <= c <= 'f' || 'A' <= c <= 'F'
  }

  predicate AllHex(s: string) {
    forall i :: 0 <= i < |s| ==> IsHex(s[i])
  }

  function Digit(c: char): (d: nat)
    requires IsHex(c)
    ensures d < 16
  {
    if c <= '9' then c as int - '0' as int
    else if c <= 'F' then c as int - 'A' as int + 10
    else c as int - 'a' as int + 10
  }

  /** The number a run of hex digits denotes. */
  function HexValue(s: string): nat
    requires AllHex(s)
  {
    if s == "" then 0 else 16 * HexValue(s[..|s| - 1]) + Digit(s[|s| - 1])
  }

  function Pow16(n: nat): (p: nat)
    ensures p > 0
  {
    if n == 0 then 1 else 16 * Pow16(n - 1)
  }

  lemma {:induction false} HexValueBound(s: string)
    requires AllHex(s)
    ensures HexValue(s) < Pow16(|s|)
  {
    if s != "" { HexValueBound(s[..|s| - 1]); }
  }

  lemma {:induction false} LeadingZeros(n: nat, s: string)
    requires AllHex(s)
    ensures AllHex(seq(n, _ => '0') + s)
    ensures HexValue(seq(n, _ => '0') + s) == HexValue(s)
    decreases |s|, n
  {
    var z := seq(n, _ => '0');
    if s != "" {
      assert (z + s)[..|z + s| - 1] == z + s[..|s| - 1];
      LeadingZeros(n, s[..|s| - 1]);
    } else if n > 0 {
      var z' := seq(n - 1, _ => '0');
      assert (z + s)[..n - 1] == z' + "";
      LeadingZeros(n - 1, "");
    }
  }

  /** strconv.ParseUint(s, 16, 32) */
  function ParseUint32(s: string): Option<nat> {
    if s != "" && AllHex(s) && HexValue(s) < 0x1_0000_0000 then Some(HexValue(s)) else None
  }

  type Nibble = d: int | 0 <= d < 16

  function UpperDigit(d: Nibble): (c: char)
    ensures IsHex(c) && Digit(c) == d && !('a' <= c <= 'f')
  {
    "0123456789ABCDEF"[d]
  }

  function LowerDigit(d: Nibble): (c: char)
    ensures IsHex(c) && Digit(c) == d && !('A' <= c <= 'F')
  {
    "0123456789abcdef"[d]
  }

  /** The digits of a positive number, none for 0, without leading zeros. */
  function Digits(n: nat, digit: Nibble -> char): string {
    if n == 0 then "" else Digits(n / 16, digit) + [digit(n % 16)]
  }

  /** Reading digits back gives the number. */
  lemma {:induction false} DigitsRead(n: nat, digit: Nibble -> char)
    requires forall d: Nibble :: IsHex(digit(d)) && Digit(digit(d)) == d
    ensures AllHex(Digits(n, digit)) && HexValue(Digits(n, digit)) == n
  {
    if n > 0 {
      DigitsRead(n / 16, digit);
      var s := Digits(n, digit);
      assert s[..|s| - 1] == Digits(n / 16, digit);
    }
  }

  /** A number below 16^k has at most k digits. */
  lemma {:induction false} DigitsLength(n: nat, digit: Nibble -> char, k: nat)
    requires n < Pow16(k)
    ensures |Digits(n, digit)| <= k
    ensures n > 0 ==> |Digits(n, digit)| > 0
  {
    if n > 0 { DigitsLength(n / 16, digit, k - 1); }
  }

  lemma {:induction false} Pow16Values()
    ensures Pow16(3) == 0x1000 && Pow16(8) == 0x1_0000_0000
  {
    assert Pow16(3) == 16 * Pow16(2) && Pow16(2) == 16 * Pow16(1);
    assert Pow16(4) == 0x1_0000 && Pow16(5) == 16 * Pow16(4);
    assert Pow16(6) == 16 * Pow16(5);
    assert Pow16(7) == 16 * Pow16(6);
    assert Pow16(8) == 16 * Pow16(7);
  }

  lemma {:induction false} NoTrim(s: string)
    requires s == "" || (!IsSpace(s[0]) && !IsSpace(s[|s| - 1]))
    ensures TrimSpace(s) == s
  {
  }

  // ------------------------------------------------------- what trimming does

  /** `t` is `s` from its first to its last character that is no white space. */
  ghost predicate IsTrimmed(t: string, s: string) {
    exists i, j :: 0 <= i <= j <= |s| && t == s[i..j] && AllSpace(s[..i]) && AllSpace(s[j..])
      && (i < j ==> !White(s[i]) && !White(s[j - 1]))
  }

  /** Blank, tab, line feed, vertical tab, form feed, carriage return. */
  predicate White(c: char) {
    c == ' ' || 9 <= c as int <= 13
  }

  predicate AllSpace(s: string) {
    forall k :: 0 <= k < |s| ==> White(s[k])
  }

  lemma {:induction false} TrimLeftIs(s: string) returns (i: nat)
    ensures i <= |s| && TrimLeft(s) == s[i..] && AllSpace(s[..i]) && (i < |s| ==> !White(s[i]))
  {
    i := 0;
    if s != "" && IsSpace(s[0]) {
      i := TrimLeftIs(s[1..]);
      assert s[..i + 1] == [s[0]] + s[1..][..i];
      i := i + 1;
    }
  }

  lemma {:induction false} TrimRightIs(s: string) returns (j: nat)
    ensures j <= |s| && TrimRight(s) == s[..j] && AllSpace(s[j..]) && (j > 0 ==> !White(s[j - 1]))
  {
    j := |s|;
    if s != "" && IsSpace(s[|s| - 1]) {
      j := TrimRightIs(s[..|s| - 1]);
      assert s[j..] == s[..|s| - 1][j..] + [s[|s| - 1]];
    }
  }

  lemma {:induction false} TrimSpaceIs(s: string)
    ensures IsTrimmed(TrimSpace(s), s)
  {
    var i := TrimLeftIs(s);
    var t := s[i..];
    var n := TrimRightIs(t);
    var j := i + n;
    assert t[..n] == s[i..j] && t[n..] == s[j..];
    assert i < j ==> s[i] == t[0] && s[j - 1] == t[n - 1];
  }

  /** Removing a character leaves the others, in order. */
  lemma {:induction false} WithoutConcat(a: string, b: string, c: char)
    ensures Without(a + b, c) == Without(a, c) + Without(b, c)
    ensures c !in Without(a, c)
  {
    if a == "" {
      assert a + b == b;
    } else {
      assert (a + b)[1..] == a[1..] + b;
      WithoutConcat(a[1..], b, c);
    }
  }
}
