/** CAN identifiers as text: parsing, the two printers, and merging of ID lists. */
module CanID {
  import opened Options
  import opened Text

  type ID = x: int | 0 <= x < 0x1_0000_0000

  /** ParseCANID; None is either of its errors. */
  function ParseCANID(s: string): Option<nat> {
    var clean := TrimPrefix(TrimPrefix(TrimSpace(s), "0x"), "0X");
    if clean == "" then None else ParseUint32(clean)
  }

  function UpperHex(id: nat): string {
    Digits(id, (d: Nibble) => UpperDigit(d))
  }

  function LowerHex(id: nat): string {
    Digits(id, (d: Nibble) => LowerDigit(d))
  }

  /** Capitals in one, small letters in the other, and no leading zero in either. */
  lemma {:induction false} CaseOfDigits(id: nat)
    ensures forall i :: 0 <= i < |UpperHex(id)| ==> !('a' <= UpperHex(id)[i] <= 'f')
    ensures forall i :: 0 <= i < |LowerHex(id)| ==> !('A' <= LowerHex(id)[i] <= 'F')
    ensures id > 0 ==> UpperHex(id) != "" && UpperHex(id)[0] != '0' && LowerHex(id) != "" && LowerHex(id)[0] != '0'
  {
    if id > 0 {
      CaseOfDigits(id / 16);
      assert UpperHex(id) == UpperHex(id / 16) + [UpperDigit(id % 16)];
      assert LowerHex(id) == LowerHex(id / 16) + [LowerDigit(id % 16)];
      if id < 16 { assert Digit(UpperDigit(id)) == id && Digit(LowerDigit(id)) == id; }
    }
  }

  /** formatCanIDHex: digits are written backwards into a ten-byte buffer, then moved up against the "0x". */
  method FormatCanIDHex(n: ID) returns (s: string)
    ensures s == if n == 0 then "0x0" else "0x" + UpperHex(n)
  {
    if n == 0 { return "0x0"; }
    var buf := new char[10](_ => '\0');
    buf[0], buf[1] := '0', 'x';
    var id := n;
    var i := buf.Length;
    Pow16Values();
    assert buf[10..] == "" && UpperHex(n) == UpperHex(n) + "";
    while id > 0
      invariant 2 <= i <= 10 && id < Pow16(i - 2) && 0 <= id
      invariant buf[0] == '0' && buf[1] == 'x'
      invariant UpperHex(n) == UpperHex(id) + buf[i..]
      decreases id
    {
      ghost var tail := buf[i..];
      i := i - 1;
      buf[i] := UpperDigit(id % 16);
      assert buf[i..] == [UpperDigit(id % 16)] + tail;
      assert UpperHex(id) == UpperHex(id / 16) + [UpperDigit(id % 16)];
      id := id / 16;
    }
    // copy(buf[2:], buf[i:]), source and target overlapping
    ghost var digits := buf[i..];
    forall k | 0 <= k < buf.Length - i { buf[2 + k] := buf[i + k]; }
    s := buf[..2 + buf.Length - i];
    assert s == "0x" + digits;
  }

  /** formatCanID: lower-case digits, padded with zeros to three. */
  method FormatCanID(id: ID) returns (r: string)
    ensures r ==
      var s := if id == 0 then "0" else LowerHex(id);
      if |s| >= 3 then s else seq(3 - |s|, _ => '0') + s
  {
    var s := if id == 0 then "0" else LowerHex(id);
    if |s| >= 3 { return s; }
    var pad := new char[3](_ => '0');
    forall k | 0 <= k < |s| { pad[3 - |s| + k] := s[k]; }
    r := pad[..];
    assert r == seq(3 - |s|, _ => '0') + s;
  }

  lemma {:induction false} HexIsNotSpace(s: string)
    requires AllHex(s)
    ensures TrimSpace(s) == s && TrimSpace("0x" + s) == "0x" + s
    ensures !("0x" <= s) && !("0X" <= s)
  {
    NoTrim(s);
    NoTrim("0x" + s);
    if |s| >= 2 { assert IsHex(s[1]); }
  }

  lemma {:induction false} ParseDigits(s: string)
    requires s != "" && AllHex(s) && HexValue(s) < 0x1_0000_0000
    ensures ParseCANID(s) == Some(HexValue(s)) && ParseCANID("0x" + s) == Some(HexValue(s))
  {
    HexIsNotSpace(s);
    assert ("0x" + s)[2..] == s;
  }

  /** Printing "0x1ABC" style and parsing gives back every 32-bit ID. */
  method PrintParseHex(id: ID) returns (s: string)
    ensures ParseCANID(s) == Some(id)
  {
    s := FormatCanIDHex(id);
    DigitsRead(id, (d: Nibble) => UpperDigit(d));
    if id == 0 {
      assert "0x0" == "0x" + "0" && HexValue("0") == 0;
      ParseDigits("0");
    } else {
      ParseDigits(UpperHex(id));
    }
  }

  /** And so does printing in padded lower case. */
  method PrintParsePadded(id: ID) returns (s: string)
    ensures ParseCANID(s) == Some(id) && |s| >= 3
  {
    s := FormatCanID(id);
    var t := if id == 0 then "0" else LowerHex(id);
    DigitsRead(id, (d: Nibble) => LowerDigit(d));
    assert AllHex(t) && HexValue(t) == id;
    if |t| < 3 { LeadingZeros(3 - |t|, t); }
    ParseDigits(s);
  }

  /** `t` is one or more hex digits of a 32-bit number. */
  predicate IsHex32(t: string) {
    t != "" && AllHex(t) && HexValue(t) < 0x1_0000_0000
  }

  /**
   * What ParseCANID accepts, and as what: white space aside, hex digits of a 32-bit number, alone or behind "0x" or
   * "0X", or behind both in this order, since each prefix is stripped in turn.
   */
  lemma {:induction false} ParseCANIDIff(s: string, v: nat)
    ensures ParseCANID(s) == Some(v) <==>
      exists t :: IsHex32(t) && v == HexValue(t)
        && (TrimSpace(s) == t || TrimSpace(s) == "0x" + t || TrimSpace(s) == "0X" + t || TrimSpace(s) == "0x0X" + t)
  {
    hide HexValue, TrimSpace;
    var u := TrimSpace(s);
    var clean := TrimPrefix(TrimPrefix(u, "0x"), "0X");
    StripPrefixes(u);
    if ParseCANID(s) == Some(v) { assert IsHex32(clean); }
    if t :| IsHex32(t) && v == HexValue(t) && (u == t || u == "0x" + t || u == "0X" + t || u == "0x0X" + t) {
      StripsTo(t);
      assert clean == t;
    }
  }

  lemma {:induction false} StripPrefixes(u: string)
    ensures
      var clean := TrimPrefix(TrimPrefix(u, "0x"), "0X");
      u == clean || u == "0x" + clean || u == "0X" + clean || u == "0x0X" + clean
  {
    if "0x" <= u {
      assert u == "0x" + u[2..];
      if "0X" <= u[2..] { assert u[2..] == "0X" + u[2..][2..]; }
    } else if "0X" <= u {
      assert u == "0X" + u[2..];
    }
  }

  lemma {:induction false} StripsTo(t: string)
    requires AllHex(t)
    ensures TrimPrefix(TrimPrefix(t, "0x"), "0X") == t && TrimPrefix(TrimPrefix("0x" + t, "0x"), "0X") == t
    ensures TrimPrefix(TrimPrefix("0X" + t, "0x"), "0X") == t && TrimPrefix(TrimPrefix("0x0X" + t, "0x"), "0X") == t
  {
    HexIsNotSpace(t);
    assert ("0x" + t)[2..] == t && ("0X" + t)[2..] == t && ("0x0X" + t)[2..] == "0X" + t;
  }

  // ------------------------------------------------------------- ID lists

  predicate Distinct(ids: seq<ID>) {
    forall i, j :: 0 <= i < j < |ids| ==> ids[i] != ids[j]
  }

  /** Every element of `s` that did not occur before, in order. */
  function FirstOccurrences(s: seq<ID>): seq<ID> {
    if s == [] then []
    else
      var front, last := s[..|s| - 1], s[|s| - 1];
      FirstOccurrences(front) + if last in front then [] else [last]
  }

  function Flatten(lists: seq<seq<ID>>): seq<ID> {
    if lists == [] then [] else Flatten(lists[..|lists| - 1]) + lists[|lists| - 1]
  }

  lemma {:induction false} FirstOccurrencesAre(s: seq<ID>)
    ensures Distinct(FirstOccurrences(s))
    ensures forall x :: x in FirstOccurrences(s) <==> x in s
  {
    if s != [] {
      var front, last := s[..|s| - 1], s[|s| - 1];
      assert s == front + [last];
      FirstOccurrencesAre(front);
    }
  }

  /** MergeUniqueIDs: concatenation without repetitions, first occurrences kept in order. */
  method MergeUniqueIDs(lists: seq<seq<ID>>) returns (out: seq<ID>)
    ensures out == FirstOccurrences(Flatten(lists))
    ensures Distinct(out) && forall x :: x in out <==> exists k :: 0 <= k < |lists| && x in lists[k]
  {
    var seen: set<ID> := {};
    out := [];
    ghost var done: seq<ID> := [];
    for i := 0 to |lists|
      invariant done == Flatten(lists[..i]) && out == FirstOccurrences(done)
      invariant forall x :: x in seen <==> x in done
    {
      var list := lists[i];
      ghost var before := done;
      assert list[..0] == [] && before + [] == before;
      for j := 0 to |list|
        invariant done == before + list[..j] && out == FirstOccurrences(done)
        invariant forall x :: x in seen <==> x in done
      {
        var id := list[j];
        ghost var was := done;
        done := done + [id];
        assert done[..|done| - 1] == was;
        assert list[..j + 1] == list[..j] + [id];
        if id in seen { continue; }
        seen := seen + {id};
        out := out + [id];
      }
      assert list[..|list|] == list && lists[..i + 1][..i] == lists[..i];
    }
    assert lists[..|lists|] == lists;
    FirstOccurrencesAre(done);
    FlattenMembers(lists);
  }

  lemma {:induction false} FlattenMembers(lists: seq<seq<ID>>)
    ensures forall x :: x in Flatten(lists) <==> exists k :: 0 <= k < |lists| && x in lists[k]
  {
    if lists != [] {
      var front := lists[..|lists| - 1];
      FlattenMembers(front);
      forall x
        ensures x in Flatten(lists) <==> exists k :: 0 <= k < |lists| && x in lists[k]
      {
        if x in Flatten(front) {
          var k :| 0 <= k < |front| && x in front[k];
          assert x in lists[k];
        }
        if k :| 0 <= k < |lists| && x in lists[k] {
          if k < |front| { assert x in front[k]; }
        }
      }
    }
  }

  /** OBDResponseIDs */
  method OBDResponseIDs(extended: bool) returns (ids: seq<ID>)
    ensures extended ==> |ids| == 16 && forall k :: 0 <= k < 16 ==> ids[k] == 0x18DAF100 + k
    ensures !extended ==> |ids| == 8 && forall k :: 0 <= k < 8 ==> ids[k] == 0x7E8 + k
  {
    ids := [];
    if extended {
      for ecu := 0 to 0x10
        invariant |ids| == ecu && forall k :: 0 <= k < ecu ==> ids[k] == 0x18DAF100 + k
      {
        ids := ids + [0x18DAF100 + ecu];
      }
    } else {
      for id := 0x7E8 to 0x7F0
        invariant |ids| == id - 0x7E8 && forall k :: 0 <= k < |ids| ==> ids[k] == 0x7E8 + k
      {
        ids := ids + [id];
      }
    }
  }
}
