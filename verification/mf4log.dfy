/** What the writer appends for each frame or signal, and what a reader recovers of it. */
module Mf4Log {
  import opened Bytes
  import opened Float64
  import opened Mf4Format
  import opened Mf4Layout
  import opened Mf4Records
  import opened Mf4Stream
  import opened Mf4Walk
  import opened Options

  const MAX_CAN_DATA_LEN: nat := 64

  type Uint32 = x: int | 0 <= x < TWO_32
  type Uint64 = x: int | 0 <= x < TWO_64

  /** An accepted append. A signal's value is kept as its 64 float bits. */
  datatype Entry =
    | CanFrame(tsNs: Int64, canID: Uint32, tx: bool, data: seq<Byte>)
    | Sample(tsNs: Int64, canID: Uint32, iface: Uint32, value: Uint64,
             message: seq<Byte>, signal: seq<Byte>, unit: seq<Byte>)

  /** The limits AppendCAN and AppendSignal check. */
  predicate Acceptable(scheme: Scheme, e: Entry) {
    match e
    case CanFrame(_, _, _, data) => scheme == LayoutCAN && |data| <= MAX_CAN_DATA_LEN
    case Sample(_, _, _, _, m, s, u) =>
      scheme == LayoutSignal && 0 !in m && 0 !in s && 0 !in u && |m| + |s| + |u| + 2 < TWO_32
  }

  predicate AllAcceptable(scheme: Scheme, log: seq<Entry>) {
    forall i :: 0 <= i < |log| ==> Acceptable(scheme, log[i])
  }

  // ---------------------------------------------------------------- encoding

  /** `b | 0x80` */
  function SetTopBit(b: Byte): Byte {
    if b < 128 then b + 128 else b
  }

  /** The 29-bit ID shifted left by two, with the IDE bit on top for IDs beyond 11 bits. */
  function IDField(canID: Uint32): (b: seq<Byte>)
    ensures |b| == 4
  {
    var b := PutLE(4, canID % 0x2000_0000 * 4);
    if canID > 0x7FF then b[3 := SetTopBit(b[3])] else b
  }

  function FlagBytes(tx: bool, dataLen: nat): (b: seq<Byte>)
    ensures |b| == 2
  {
    [(if tx then 1 else 0) + dataLen % 128 * 2, dataLen % 16 * 4]
  }

  /** The 22-byte CAN_DataFrame record body. */
  function CanRecord(tsNs: Int64, canID: Uint32, tx: bool, dataLen: nat, vlsdOffset: nat): (r: seq<Byte>)
    ensures |r| == CAN_RECORD_SIZE
  {
    RoundTripIsRounding(tsNs);
    PutLE(8, FromInt64(tsNs)) + IDField(canID) + FlagBytes(tx, dataLen) + PutLE(8, vlsdOffset)
  }

  function SignalRecord(tsNs: Int64, value: Uint64, iface: Uint32, canID: Uint32, vlsdOffset: nat): (r: seq<Byte>)
    ensures |r| == SIGNAL_RECORD_SIZE
  {
    RoundTripIsRounding(tsNs);
    PutLE(8, FromInt64(tsNs)) + PutLE(8, value) + PutLE(4, iface) + PutLE(4, canID) + PutLE(8, vlsdOffset)
  }

  function Label(message: seq<Byte>, signal: seq<Byte>, unit: seq<Byte>): seq<Byte> {
    message + [0] + signal + [0] + unit
  }

  function Primary(e: Entry, vlsdOffset: nat): seq<Byte> {
    match e
    case CanFrame(ts, id, tx, data) => CanRecord(ts, id, tx, |data|, vlsdOffset)
    case Sample(ts, id, iface, value, _, _, _) => SignalRecord(ts, value, iface, id, vlsdOffset)
  }

  function Payload(e: Entry): seq<Byte> {
    match e
    case CanFrame(_, _, _, data) => data
    case Sample(_, _, _, _, m, s, u) => Label(m, s, u)
  }

  /** The records written for a log when the VLSD stream stands at `off`. */
  function LogRecs(log: seq<Entry>, off: nat): (r: seq<Rec>)
    ensures |r| == 2 * |log|
    ensures Complete(r)
  {
    if log == [] then [] else EntryRecs(log[0], off) + LogRecs(log[1..], off + 4 + |Payload(log[0])|)
  }

  /** Bytes of the VLSD stream: 4 + len over all payloads. */
  function VlsdTotal(log: seq<Entry>): nat {
    if log == [] then 0 else 4 + |Payload(log[0])| + VlsdTotal(log[1..])
  }

  /** The record bytes of a log. */
  function Body(log: seq<Entry>): seq<Byte> {
    Serialize(LogRecs(log, 0), 1)
  }

  /** The two records of one append. */
  function EntryRecs(e: Entry, off: nat): (r: seq<Rec>)
    ensures |r| == 2
  {
    [Fixed(RECORD_ID_PRIMARY, Primary(e, off)), Vlsd(RECORD_ID_VLSD, Payload(e))]
  }

  /** One append adds one primary record carrying the current VLSD offset, and its VLSD record. */
  lemma {:induction false} LogRecsSnoc(log: seq<Entry>, e: Entry, off: nat)
    ensures LogRecs(log + [e], off) == LogRecs(log, off) + EntryRecs(e, off + VlsdTotal(log))
    ensures VlsdTotal(log + [e]) == VlsdTotal(log) + 4 + |Payload(e)|
  {
    hide EntryRecs, Payload;
    if log == [] {
      assert log + [e] == [e];
    } else {
      var off' := off + 4 + |Payload(log[0])|;
      var last := EntryRecs(e, off + VlsdTotal(log));
      assert (log + [e])[1..] == log[1..] + [e];
      LogRecsSnoc(log[1..], e, off');
      assert EntryRecs(log[0], off) + (LogRecs(log[1..], off') + last)
          == (EntryRecs(log[0], off) + LogRecs(log[1..], off')) + last;
    }
  }

  lemma {:induction false} BodySnoc(log: seq<Entry>, e: Entry)
    ensures Body(log + [e]) == Body(log)
      + RecBytes(Fixed(RECORD_ID_PRIMARY, Primary(e, VlsdTotal(log))), 1)
      + RecBytes(Vlsd(RECORD_ID_VLSD, Payload(e)), 1)
  {
    hide Primary, Payload, RecBytes;
    var p, v := Fixed(RECORD_ID_PRIMARY, Primary(e, VlsdTotal(log))), Vlsd(RECORD_ID_VLSD, Payload(e));
    LogRecsSnoc(log, e, 0);
    SerializeConcat(LogRecs(log, 0), [p, v], 1);
    assert [p, v][1..] == [v] && [v][1..] == [];
    assert Serialize([v], 1) == RecBytes(v, 1) + Serialize([], 1) == RecBytes(v, 1);
    assert Serialize([p, v], 1) == RecBytes(p, 1) + RecBytes(v, 1);
  }

  lemma {:induction false} VlsdTotalBound(log: seq<Entry>)
    ensures VlsdTotal(log) <= |Body(log)|
  {
    VlsdTotalFrom(log, 0);
  }

  lemma {:induction false} VlsdTotalFrom(log: seq<Entry>, off: nat)
    ensures VlsdTotal(log) <= |Serialize(LogRecs(log, off), 1)|
  {
    hide Primary, Payload;
    if log != [] {
      var off' := off + 4 + |Payload(log[0])|;
      VlsdTotalFrom(log[1..], off');
      SerializeTwo(log, off);
    }
  }

  /** Unfolds one entry of a serialized log. */
  lemma {:induction false} SerializeTwo(log: seq<Entry>, off: nat)
    requires log != []
    ensures Serialize(LogRecs(log, off), 1)
      == RecBytes(Fixed(RECORD_ID_PRIMARY, Primary(log[0], off)), 1)
      + (RecBytes(Vlsd(RECORD_ID_VLSD, Payload(log[0])), 1)
      + Serialize(LogRecs(log[1..], off + 4 + |Payload(log[0])|), 1))
  {
    hide Primary, Payload, RecBytes;
    var recs := LogRecs(log, off);
    assert recs[1..][1..] == LogRecs(log[1..], off + 4 + |Payload(log[0])|);
    assert Serialize(recs, 1) == RecBytes(recs[0], 1) + Serialize(recs[1..], 1);
  }

  /** Every primary record stores the raw offset of the VLSD record right after it. */
  lemma {:induction false} PrimaryPointsToNext(log: seq<Entry>, i: nat)
    requires i < |log|
    ensures
      var recs := LogRecs(log, 0);
      && recs[2 * i] == Fixed(RECORD_ID_PRIMARY, Primary(log[i], RawOffset(recs, 2 * i + 1)))
      && recs[2 * i + 1] == Vlsd(RECORD_ID_VLSD, Payload(log[i]))
      && RawOffset(recs, |recs|) == VlsdTotal(log)
  {
    PrimaryAt(log, 0, i);
    RawOffsetTotal(log, 0);
  }

  lemma {:induction false} PrimaryAt(log: seq<Entry>, off: nat, i: nat)
    requires i < |log|
    ensures
      var recs := LogRecs(log, off);
      && recs[2 * i] == Fixed(RECORD_ID_PRIMARY, Primary(log[i], off + RawOffset(recs, 2 * i + 1)))
      && recs[2 * i + 1] == Vlsd(RECORD_ID_VLSD, Payload(log[i]))
  {
    if i > 0 {
      hide RawOffset, EntryRecs, Primary, Payload;
      var off' := off + 4 + |Payload(log[0])|;
      var recs, first, rest := LogRecs(log, off), EntryRecs(log[0], off), LogRecs(log[1..], off');
      assert recs == first + rest;
      hide LogRecs;
      PrimaryAt(log[1..], off', i - 1);
      RawOffsetPrepend(log[0], off, rest, 2 * i - 1);
      assert off + RawOffset(recs, 2 * i + 1) == off' + RawOffset(rest, 2 * (i - 1) + 1);
      assert recs[2 * i] == rest[2 * (i - 1)] && recs[2 * i + 1] == rest[2 * (i - 1) + 1];
    } else {
      hide Primary, Payload;
      var recs := LogRecs(log, off);
      assert RawOffset(recs, 1) == recs[0].RawSize() + RawOffset(recs[1..], 0);
    }
  }

  lemma {:induction false} RawOffsetPrepend(e: Entry, off: nat, rest: seq<Rec>, k: nat)
    requires k <= |rest|
    ensures RawOffset(EntryRecs(e, off) + rest, k + 2) == 4 + |Payload(e)| + RawOffset(rest, k)
  {
    hide Primary, Payload;
    var recs := EntryRecs(e, off) + rest;
    assert recs[1..][1..] == rest;
    RawOffsetTwo(recs, k + 2);
  }

  lemma {:induction false} RawOffsetTwo(recs: seq<Rec>, k: nat)
    requires 2 <= k <= |recs|
    ensures RawOffset(recs, k) == recs[0].RawSize() + recs[1].RawSize() + RawOffset(recs[1..][1..], k - 2)
  {
    assert RawOffset(recs, k) == recs[0].RawSize() + RawOffset(recs[1..], k - 1);
  }

  lemma {:induction false} RawOffsetTotal(log: seq<Entry>, off: nat)
    ensures RawOffset(LogRecs(log, off), 2 * |log|) == VlsdTotal(log)
  {
    if log != [] {
      hide RawOffset, EntryRecs, Payload;
      var off' := off + 4 + |Payload(log[0])|;
      RawOffsetTotal(log[1..], off');
      RawOffsetPrepend(log[0], off, LogRecs(log[1..], off'), 2 * |log| - 2);
    }
  }

  // ------------------------------------------------------------------ labels

  /** strings.Split(s, "\x00") */
  function SplitNul(s: seq<Byte>): seq<seq<Byte>> {
    if 0 !in s then [s]
    else
      var i := FirstNul(s);
      [s[..i]] + SplitNul(s[i + 1..])
  }

  function FirstNul(s: seq<Byte>): (i: nat)
    requires 0 in s
    ensures i < |s| && s[i] == 0 && 0 !in s[..i]
  {
    if s[0] == 0 then 0 else
      var i := FirstNul(s[1..]);
      assert s[..i + 1] == [s[0]] + s[1..][..i];
      i + 1
  }

  lemma {:induction false} FirstNulAfter(a: seq<Byte>, b: seq<Byte>)
    requires 0 !in a
    ensures (a + [0] + b)[|a|] == 0
    ensures FirstNul(a + [0] + b) == |a|
  {
    var s := a + [0] + b;
    assert s[|a|] == 0;
    if a != [] {
      assert s[0] == a[0] && a[0] in a;
      assert s[1..] == a[1..] + [0] + b;
      FirstNulAfter(a[1..], b);
    }
  }

  lemma {:induction false} SplitAtNul(a: seq<Byte>, b: seq<Byte>)
    requires 0 !in a
    ensures SplitNul(a + [0] + b) == [a] + SplitNul(b)
  {
    var s := a + [0] + b;
    FirstNulAfter(a, b);
    assert s[..|a|] == a && s[|a| + 1..] == b;
  }

  /** A stored label gives back message, signal and unit. */
  lemma {:induction false} LabelSplits(message: seq<Byte>, signal: seq<Byte>, unit: seq<Byte>)
    requires 0 !in message && 0 !in signal && 0 !in unit
    ensures SplitNul(Label(message, signal, unit)) == [message, signal, unit]
  {
    assert Label(message, signal, unit) == message + [0] + (signal + [0] + unit);
    SplitAtNul(message, signal + [0] + unit);
    SplitAtNul(signal, unit);
  }

  // ---------------------------------------------------------------- decoding

  lemma {:induction false} FourBytes(b: seq<Byte>)
    requires |b| == 4
    ensures GetLE(b) == b[0] as int + 0x100 * b[1] as int + 0x1_0000 * b[2] as int + 0x100_0000 * b[3] as int
  {
    assert GetLE(b[3..]) == b[3] + 256 * GetLE(b[3..][1..]);
    assert b[3..][1..] == [];
    assert b[1..][1..] == b[2..] && b[2..][1..] == b[3..];
    assert GetLE(b[2..]) == b[2] + 256 * GetLE(b[3..]);
    assert GetLE(b[1..]) == b[1] + 256 * GetLE(b[2..]);
  }

  lemma {:induction false} IDFieldReads(canID: Uint32)
    ensures GetLE(IDField(canID)) / 4 % 0x2000_0000 == canID % 0x2000_0000
  {
    hide PutLE, GetLE;
    var v := canID % 0x2000_0000 * 4;
    var b := PutLE(4, v);
    Pow256Values();
    GetPut(4, v);
    FourBytes(b);
    FourBytes(IDField(canID));
  }

  lemma {:induction false} CanRecordFields(ts: Int64, id: Uint32, tx: bool, len: nat, off: nat)
    requires len < 128 && off < TWO_64
    ensures
      var r := CanRecord(ts, id, tx, len, off);
      && ToInt(Uint64At(r, 0)) == Seen(ts)
      && Field(r, 8, 4) / 4 % 0x2000_0000 == id % 0x2000_0000
      && (r[12] % 2 == 1 <==> tx) && r[12] / 2 % 128 == len
      && Uint64At(r, 14) == off
  {
    hide PutLE, GetLE, IDField, FromInt64, ToInt, Seen;
    var r := CanRecord(ts, id, tx, len, off);
    RoundTripIsRounding(ts);
    Pow256Values();
    GetPut(8, FromInt64(ts));
    GetPut(8, off);
    IDFieldReads(id);
    assert r[0..8] == PutLE(8, FromInt64(ts));
    assert r[8..12] == IDField(id);
    assert r[12..14] == FlagBytes(tx, len);
    assert r[12] == FlagBytes(tx, len)[0];
    SecondPart(PutLE(8, FromInt64(ts)) + IDField(id) + FlagBytes(tx, len), PutLE(8, off));
  }

  /**
   * The other bits of the CAN composite, as the format documents them: bus channel 0; IDE set exactly for IDs
   * beyond 11 bits; EDL and BRS clear; the DLC mirrors the low four bits of the length.
   */
  lemma {:induction false} CanRecordBits(ts: Int64, id: Uint32, tx: bool, len: nat, off: nat)
    ensures
      var r := CanRecord(ts, id, tx, len, off);
      && r[8] % 4 == 0
      && (r[11] >= 128 <==> id > 0x7FF)
      && r[13] % 4 == 0 && r[13] / 4 == len % 16
  {
    hide PutLE, GetLE, FromInt64, IDField, CanRecord;
    CanRecordMiddle(ts, id, tx, len, off);
    IDFieldBits(id);
  }

  lemma {:induction false} CanRecordMiddle(ts: Int64, id: Uint32, tx: bool, len: nat, off: nat)
    ensures
      var r := CanRecord(ts, id, tx, len, off);
      r[8] == IDField(id)[0] && r[11] == IDField(id)[3] && r[13] == FlagBytes(tx, len)[1]
  {
    hide PutLE, FromInt64, IDField, FlagBytes;
    RoundTripIsRounding(ts);
  }

  lemma {:induction false} IDFieldBits(id: Uint32)
    ensures IDField(id)[0] % 4 == 0 && (IDField(id)[3] >= 128 <==> id > 0x7FF)
  {
    hide PutLE, GetLE;
    var v := id % 0x2000_0000 * 4;
    var b := PutLE(4, v);
    Pow256Values();
    GetPut(4, v);
    FourBytes(b);
    assert b[0] % 4 == v % 4;
  }

  /** The numeric fields of a signal record, where a reader of the format looks for them. */
  lemma {:induction false} SignalRecordFields(ts: Int64, value: Uint64, iface: Uint32, canID: Uint32, off: nat)
    requires off < TWO_64
    ensures
      var r := SignalRecord(ts, value, iface, canID, off);
      && ToInt(Uint64At(r, 0)) == Seen(ts) && Uint64At(r, 8) == value
      && Field(r, 16, 4) == iface && Field(r, 20, 4) == canID && Uint64At(r, 24) == off
  {
    hide PutLE, GetLE, FromInt64, ToInt, Seen;
    var r := SignalRecord(ts, value, iface, canID, off);
    RoundTripIsRounding(ts);
    Pow256Values();
    GetPut(8, FromInt64(ts));
    GetPut(8, value);
    GetPut(4, iface);
    GetPut(4, canID);
    GetPut(8, off);
    assert r[0..8] == PutLE(8, FromInt64(ts));
    assert r[8..16] == PutLE(8, value);
    assert r[16..20] == PutLE(4, iface);
    assert r[20..24] == PutLE(4, canID);
    SecondPart(PutLE(8, FromInt64(ts)) + PutLE(8, value) + PutLE(4, iface) + PutLE(4, canID), PutLE(8, off));
  }

  /** The entry a reader makes of a written frame, before times become offsets. */
  function Recorded(e: Entry, data: Option<seq<Byte>>): LogEntry
    requires e.CanFrame?
  {
    LogEntry(Seen(e.tsNs), e.canID % 0x2000_0000, e.tx, |e.data|, data)
  }

  lemma {:induction false} CanRecordReads(e: Entry, off: nat, idx: VlsdIndex)
    requires Acceptable(LayoutCAN, e) && off < TWO_64
    ensures DecodeRec(Fixed(RECORD_ID_PRIMARY, Primary(e, off)), GroupsOf(LayoutCAN), idx)
      == [Recorded(e, idx.Lookup(off, |e.data|))]
  {
    hide CanRecord, Seen, Uint64At, Field;
    CanRecordFields(e.tsNs, e.canID, e.tx, |e.data|, off);
  }

  lemma {:induction false} VlsdDecodesToNothing(r: Rec, groups: Groups, idx: VlsdIndex)
    requires !r.Fixed?
    ensures DecodeRec(r, groups, idx) == []
  {
  }

  lemma {:induction false} EntryWellFormed(scheme: Scheme, e: Entry, off: nat)
    requires Acceptable(scheme, e)
    ensures AllWellFormed(EntryRecs(e, off), 1, GroupsOf(scheme))
  {
    hide CanRecord, SignalRecord;
    Pow256Values();
  }

  lemma {:induction false} WellFormedConcat(a: seq<Rec>, b: seq<Rec>, idSize: nat, groups: Groups)
    requires AllWellFormed(a, idSize, groups) && AllWellFormed(b, idSize, groups)
    ensures AllWellFormed(a + b, idSize, groups)
  {
    hide WellFormed;
  }

  lemma {:induction false} LogRecsWellFormed(scheme: Scheme, log: seq<Entry>, off: nat)
    requires AllAcceptable(scheme, log)
    ensures AllWellFormed(LogRecs(log, off), 1, GroupsOf(scheme))
  {
    hide EntryRecs, GroupsOf;
    if log != [] {
      var off' := off + 4 + |Payload(log[0])|;
      EntryWellFormed(scheme, log[0], off);
      LogRecsWellFormed(scheme, log[1..], off');
      WellFormedConcat(EntryRecs(log[0], off), LogRecs(log[1..], off'), 1, GroupsOf(scheme));
    } else {
      assert LogRecs(log, off) == [];
    }
  }

  // ---------------------------------------------------------------- recovery

  /** Bytes of one appended frame: 23 for the primary record, 5 + len for the VLSD record. */
  const PRIMARY_BYTES: nat := 23
  const VLSD_HEAD_BYTES: nat := 5

  /**
   * What is left of a log of which the first `cut` record bytes survive: the frames whose primary
   * record is whole, each with its payload, except that the last has none if its VLSD record was hit.
   */
  function Recovered(log: seq<Entry>, cut: nat): seq<LogEntry>
    requires AllAcceptable(LayoutCAN, log)
  {
    if log == [] || cut < PRIMARY_BYTES then []
    else
      assert Acceptable(LayoutCAN, log[0]);
      var n := PRIMARY_BYTES + VLSD_HEAD_BYTES + |log[0].data|;
      if cut < n then [Recorded(log[0], None)]
      else [Recorded(log[0], Some(log[0].data))] + Recovered(log[1..], cut - n)
  }

  lemma {:induction false} VisibleLog(log: seq<Entry>, off: nat, cut: nat)
    requires log != [] && Acceptable(LayoutCAN, log[0])
    ensures
      var p, n := Fixed(RECORD_ID_PRIMARY, Primary(log[0], off)), |log[0].data|;
      var off' := off + 4 + n;
      Visible(LogRecs(log, off), 1, cut) ==
        if cut < 23 then []
        else if cut < 28 then [p]
        else if cut < 28 + n then [p, CutVlsd(RECORD_ID_VLSD, n)]
        else [p, Vlsd(RECORD_ID_VLSD, log[0].data)] + Visible(LogRecs(log[1..], off'), 1, cut - 28 - n)
  {
    hide CanRecord;
    var recs := LogRecs(log, off);
    var p, v := Fixed(RECORD_ID_PRIMARY, Primary(log[0], off)), Vlsd(RECORD_ID_VLSD, log[0].data);
    assert EntryRecs(log[0], off) == [p, v];
    assert recs[1..] == [v] + LogRecs(log[1..], off + 4 + |log[0].data|);
    assert recs[1..][1..] == LogRecs(log[1..], off + 4 + |log[0].data|);
    hide Primary, LogRecs, EntryRecs;
    if cut >= 23 {
      assert Visible(recs, 1, cut) == [recs[0]] + Visible(recs[1..], 1, cut - 23);
    }
  }

  /** A frame whose VLSD record was hit has no payload. */
  lemma {:induction false} CutFrame(e: Entry, off: nat, cut: nat, idx0: VlsdIndex, idx: VlsdIndex, p: Rec)
    requires e.CanFrame? && p.Fixed? && PRIMARY_BYTES <= cut < 28 + |e.data|
    requires off !in idx0.offsets
    requires
      var visible := if cut < 28 then [p] else [p, CutVlsd(RECORD_ID_VLSD, |e.data|)];
      idx == Index(visible, off, idx0)
    ensures idx.Lookup(off, |e.data|) == None
    ensures
      var visible := if cut < 28 then [p] else [p, CutVlsd(RECORD_ID_VLSD, |e.data|)];
      DecodeAll(visible, GroupsOf(LayoutCAN), idx) == DecodeRec(p, GroupsOf(LayoutCAN), idx)
  {
    hide DecodeRec;
    var groups := GroupsOf(LayoutCAN);
    if cut < 28 {
      assert [p][1..] == [];
      assert DecodeAll([p], groups, idx) == DecodeRec(p, groups, idx) + [];
    } else {
      var v := CutVlsd(RECORD_ID_VLSD, |e.data|);
      assert [p, v][1..] == [v] && [v][1..] == [];
      assert idx == Index([v], off, idx0) == Index([], off + v.RawSize(), AddToIndex(v, off, idx0));
      VlsdDecodesToNothing(v, groups, idx);
      assert DecodeAll([v], groups, idx) == DecodeRec(v, groups, idx) + [];
      assert DecodeAll([p, v], groups, idx) == DecodeRec(p, groups, idx) + [];
    }
  }

  /** A frame whose VLSD record is whole gets exactly its payload, whatever follows. */
  lemma {:induction false} WholeFrame(e: Entry, off: nat, idx0: VlsdIndex, idx: VlsdIndex, p: Rec, rest: seq<Rec>)
    requires e.CanFrame? && p.Fixed?
    requires idx == Index([p, Vlsd(RECORD_ID_VLSD, e.data)] + rest, off, idx0)
    ensures
      var v := Vlsd(RECORD_ID_VLSD, e.data);
      && idx == Index(rest, off + 4 + |e.data|, AddToIndex(v, off, idx0))
      && idx.Lookup(off, |e.data|) == Some(e.data)
      && DecodeAll([p, v] + rest, GroupsOf(LayoutCAN), idx)
         == DecodeRec(p, GroupsOf(LayoutCAN), idx) + DecodeAll(rest, GroupsOf(LayoutCAN), idx)
  {
    hide DecodeRec;
    var v, groups := Vlsd(RECORD_ID_VLSD, e.data), GroupsOf(LayoutCAN);
    var all, idx1 := [p, v] + rest, AddToIndex(v, off, idx0);
    assert all[1..] == [v] + rest && ([v] + rest)[1..] == rest;
    assert idx == Index([v] + rest, off, idx0) == Index(rest, off + 4 + |e.data|, idx1);
    IndexKeeps(rest, off + 4 + |e.data|, idx1, off);
    IndexBuf(rest, off + 4 + |e.data|, idx1);
    assert idx.buf[|idx0.buf|..|idx0.buf| + |e.data|] == e.data;
    VlsdDecodesToNothing(v, groups, idx);
    assert DecodeAll([v] + rest, groups, idx) == [] + DecodeAll(rest, groups, idx);
  }

  /** Decoding the surviving records of a log through the index they give. */
  lemma {:induction false} DecodeRecovers(log: seq<Entry>, off: nat, cut: nat, idx0: VlsdIndex, idx: VlsdIndex)
    requires AllAcceptable(LayoutCAN, log) && off + VlsdTotal(log) < TWO_64
    requires forall key :: key in idx0.offsets ==> key < off
    requires idx == Index(Visible(LogRecs(log, off), 1, cut), off, idx0)
    ensures DecodeAll(Visible(LogRecs(log, off), 1, cut), GroupsOf(LayoutCAN), idx) == Recovered(log, cut)
    decreases |log|
  {
    hide CanRecord, DecodeRec, Recorded, Primary, Index, DecodeAll, GroupsOf, LogRecs, Visible;
    if log == [] {
      NothingVisible(log, off, cut, idx);
    } else {
      assert Acceptable(LayoutCAN, log[0]);
      var e, n := log[0], |log[0].data|;
      var p := Fixed(RECORD_ID_PRIMARY, Primary(e, off));
      VisibleLog(log, off, cut);
      CanRecordReads(e, off, idx);
      if cut < 23 {
        NothingVisible(log, off, cut, idx);
      } else if cut < 28 + n {
        CutFrame(e, off, cut, idx0, idx, p);
      } else {
        var rest := Visible(LogRecs(log[1..], off + 4 + n), 1, cut - 28 - n);
        WholeFrame(e, off, idx0, idx, p, rest);
        DecodeRecovers(log[1..], off + 4 + n, cut - 28 - n, AddToIndex(Vlsd(RECORD_ID_VLSD, e.data), off, idx0), idx);
      }
    }
  }

  lemma {:induction false} NothingVisible(log: seq<Entry>, off: nat, cut: nat, idx: VlsdIndex)
    requires log != [] ==> Acceptable(LayoutCAN, log[0]) && cut < PRIMARY_BYTES
    ensures DecodeAll(Visible(LogRecs(log, off), 1, cut), GroupsOf(LayoutCAN), idx) == []
  {
    if log != [] { VisibleLog(log, off, cut); }
  }
}
