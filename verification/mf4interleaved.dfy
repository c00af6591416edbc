/** Decoding does not depend on the order the writer happens to use: payloads may come before or after, near or far. */
module Mf4Interleaved {
  import opened Arithmetic
  import opened Bytes
  import opened Float64
  import opened Mf4Format
  import opened Mf4Layout
  import opened Mf4Log
  import opened Mf4Records
  import opened Mf4Stream
  import opened Options

  predicate IsCanRecord(r: Rec, groups: Groups) {
    r.Fixed? && r.id in groups && groups[r.id].acqName == CAN_DATA_FRAME
  }

  /** The bodies of the CAN records of a stream, in order. */
  function CanBodies(recs: seq<Rec>, groups: Groups): seq<seq<Byte>> {
    if recs == [] then []
    else (if IsCanRecord(recs[0], groups) then [recs[0].body] else []) + CanBodies(recs[1..], groups)
  }

  /** A CAN record that stores the raw offset of the k-th record, a VLSD record, and its payload's length. */
  predicate RefersTo(body: seq<Byte>, recs: seq<Rec>, k: nat) {
    && |body| >= CAN_RECORD_SIZE && k < |recs| && recs[k].Vlsd?
    && Uint64At(body, 14) == RawOffset(recs, k) && body[12] / 2 % 128 == |recs[k].payload|
  }

  /** What the record says, with the payload it refers to. */
  function EntryOf(body: seq<Byte>, payload: seq<Byte>): LogEntry
    requires |body| >= CAN_RECORD_SIZE
  {
    LogEntry(ToInt(Uint64At(body, 0)), Field(body, 8, 4) / 4 % 0x2000_0000, body[12] % 2 == 1, |payload|, Some(payload))
  }

  /** `at` says which VLSD record each CAN record refers to. */
  predicate AllRefer(bodies: seq<seq<Byte>>, recs: seq<Rec>, at: seq<nat>) {
    |at| == |bodies| && forall i :: 0 <= i < |at| ==> RefersTo(bodies[i], recs, at[i])
  }

  function Entries(bodies: seq<seq<Byte>>, recs: seq<Rec>, at: seq<nat>): (r: seq<LogEntry>)
    requires AllRefer(bodies, recs, at)
    ensures |r| == |at|
  {
    seq(|at|, i requires 0 <= i < |at| =>
      assert RefersTo(bodies[i], recs, at[i]); EntryOf(bodies[i], recs[at[i]].payload))
  }

  /** A record of a frame as the writer encodes it, the payload being the k-th record. */
  predicate Encodes(body: seq<Byte>, e: Entry, recs: seq<Rec>, k: nat) {
    && k < |recs| && recs[k].Vlsd? && recs[k].payload == Payload(e) && RawOffset(recs, k) < TWO_64
    && body == Primary(e, RawOffset(recs, k))
  }

  function AllRecorded(frames: seq<Entry>): (r: seq<LogEntry>)
    requires AllAcceptable(LayoutCAN, frames)
    ensures |r| == |frames|
  {
    seq(|frames|, i requires 0 <= i < |frames| =>
      assert Acceptable(LayoutCAN, frames[i]); Recorded(frames[i], Some(frames[i].data)))
  }

  lemma {:induction false} DecodesBodies(recs: seq<Rec>, groups: Groups, idx: VlsdIndex, out: seq<LogEntry>)
    requires |out| == |CanBodies(recs, groups)|
    requires forall i :: 0 <= i < |out| ==> ParseCANRecord(CanBodies(recs, groups)[i], idx) == Some(out[i])
    ensures DecodeAll(recs, groups, idx) == out
  {
    hide ParseCANRecord;
    if recs != [] {
      var rest := CanBodies(recs[1..], groups);
      if IsCanRecord(recs[0], groups) {
        assert CanBodies(recs, groups) == [recs[0].body] + rest;
        DecodesBodies(recs[1..], groups, idx, out[1..]);
        assert out == [out[0]] + out[1..];
      } else {
        assert CanBodies(recs, groups) == rest;
        DecodesBodies(recs[1..], groups, idx, out);
      }
    }
  }

  /**
   * Any well-formed stream, any interleaving: when each CAN record refers to some VLSD record, the reader gives
   * one entry per CAN record, in order, each with its own payload.
   */
  lemma {:induction false} EveryFrameGetsItsPayload(
      recs: seq<Rec>, idSize: nat, groups: Groups, canCG: Group, at: seq<nat>)
    requires ValidIDSize(idSize) && AllWellFormed(recs, idSize, groups)
    requires AllRefer(CanBodies(recs, groups), recs, at)
    ensures Complete(recs)
    ensures
      Decoded(Serialize(recs, idSize), idSize, groups, canCG) == Ok(Entries(CanBodies(recs, groups), recs, at))
  {
    hide Scan, Index, CanBodies, DecodeAll, Uint64At, Field, ToInt, RawOffset;
    var dt, bodies := Serialize(recs, idSize), CanBodies(recs, groups);
    var idx := Index(recs, 0, EMPTY_INDEX);
    CollectedFromWritten(recs, idSize, groups);
    ScanInvertsSerialize(dt, 0, recs, idSize, groups);
    AllVisible(recs, idSize);
    var out := Entries(bodies, recs, at);
    forall i | 0 <= i < |at|
      ensures ParseCANRecord(bodies[i], idx) == Some(out[i])
    {
      assert RefersTo(bodies[i], recs, at[i]);
      LookupExact(recs, at[i]);
    }
    DecodesBodies(recs, groups, idx, out);
  }

  /** In particular for records encoded as the writer does, in whatever order they and their payloads stand. */
  lemma {:induction false} FramesDecodeInAnyOrder(
      recs: seq<Rec>, idSize: nat, groups: Groups, canCG: Group, frames: seq<Entry>, at: seq<nat>)
    requires ValidIDSize(idSize) && AllWellFormed(recs, idSize, groups) && AllAcceptable(LayoutCAN, frames)
    requires |frames| == |at| == |CanBodies(recs, groups)|
    requires forall i :: 0 <= i < |at| ==> Encodes(CanBodies(recs, groups)[i], frames[i], recs, at[i])
    ensures Complete(recs)
    ensures Decoded(Serialize(recs, idSize), idSize, groups, canCG) == Ok(AllRecorded(frames))
  {
    hide CanBodies, Decoded, Serialize, AllWellFormed, Encodes, EntryOf, Recorded, RawOffset, Uint64At;
    var bodies := CanBodies(recs, groups);
    forall i | 0 <= i < |at|
      ensures RefersTo(bodies[i], recs, at[i])
      ensures frames[i].CanFrame?
      ensures EntryOf(bodies[i], recs[at[i]].payload) == Recorded(frames[i], Some(frames[i].data))
    {
      assert Acceptable(LayoutCAN, frames[i]);
      EncodedReads(bodies[i], frames[i], recs, at[i]);
    }
    EveryFrameGetsItsPayload(recs, idSize, groups, canCG, at);
    assert Entries(bodies, recs, at) == AllRecorded(frames);
  }

  lemma {:induction false} EncodedReads(body: seq<Byte>, e: Entry, recs: seq<Rec>, k: nat)
    requires Encodes(body, e, recs, k) && Acceptable(LayoutCAN, e)
    ensures RefersTo(body, recs, k) && EntryOf(body, recs[k].payload) == Recorded(e, Some(e.data))
  {
    hide CanRecord, RawOffset, Uint64At, Field, Seen, ToInt;
    CanRecordFields(e.tsNs, e.canID, e.tx, |e.data|, RawOffset(recs, k));
  }

  // ------------------------------------------------------------ sorted files

  /** What a record without an ID says: there is no index, so the payload is always missing. */
  function EntryWithoutPayload(body: seq<Byte>): LogEntry
    requires |body| >= CAN_RECORD_SIZE
  {
    LogEntry(ToInt(Uint64At(body, 0)), Field(body, 8, 4) / 4 % 0x2000_0000, body[12] % 2 == 1,
             body[12] / 2 % 128, None)
  }

  /** The i-th of the records of n bytes. */
  function Slot(dt: seq<Byte>, n: nat, i: nat): (b: seq<Byte>)
    requires n > 0 && i < |dt| / n
    ensures |b| == n
  {
    SlotInside(dt, n, i);
    dt[i * n..i * n + n]
  }

  lemma {:induction false} SlotInside(dt: seq<Byte>, n: nat, i: nat)
    requires n > 0 && i < |dt| / n
    ensures 0 <= i * n && i * n + n <= |dt|
  {
    DivMod(|dt|, n);
    MulMono(i + 1, |dt| / n, n);
    assert (i + 1) * n == i * n + n;
  }

  function Slots(dt: seq<Byte>, n: nat): seq<LogEntry>
    requires n >= CAN_RECORD_SIZE
  {
    seq(|dt| / n, i requires 0 <= i < |dt| / n => EntryWithoutPayload(Slot(dt, n, i)))
  }

  /**
   * Records without IDs: every whole record gives an entry without payload, none when they are too short for a CAN
   * frame; and records of size zero are read for ever, unless there are no bytes at all.
   */
  lemma {:induction false} SortedFilesLosePayloads(dt: seq<Byte>, groups: Groups, canCG: Group)
    ensures
      var n := canCG.dataBytes;
      Decoded(dt, 0, groups, canCG) ==
        if n == 0 then (if dt == [] then Ok([]) else Diverges)
        else if n < CAN_RECORD_SIZE then Ok([])
        else Ok(Slots(dt, n))
  {
    hide EntryWithoutPayload;
    var n := canCG.dataBytes;
    if n > 0 { SortedFrom(dt, 0, n); }
    if n >= CAN_RECORD_SIZE { assert dt[0..] == dt; }
  }

  lemma {:induction false} SortedFrom(dt: seq<Byte>, pos: nat, n: nat)
    requires n > 0 && pos <= |dt|
    ensures DecodeSorted(dt, pos, n, EMPTY_INDEX)
      == Ok(if n < CAN_RECORD_SIZE then [] else Slots(dt[pos..], n))
    decreases |dt| - pos
  {
    hide Uint64At, Field, ToInt, Slots;
    if pos + n <= |dt| {
      SortedFrom(dt, pos + n, n);
      var body := dt[pos..pos + n];
      assert DecodeSorted(dt, pos, n, EMPTY_INDEX)
          == Ok(DecodeOne(body, EMPTY_INDEX) + DecodeSorted(dt, pos + n, n, EMPTY_INDEX).value);
      if n >= CAN_RECORD_SIZE {
        FirstSlot(dt[pos..], n);
        DecodesWithoutPayload(body);
        assert dt[pos..][..n] == body && dt[pos..][n..] == dt[pos + n..];
      } else {
        assert DecodeOne(body, EMPTY_INDEX) + [] == [];
      }
    } else if n >= CAN_RECORD_SIZE {
      NoSlot(dt[pos..], n);
    }
  }

  lemma {:induction false} DecodesWithoutPayload(body: seq<Byte>)
    requires |body| >= CAN_RECORD_SIZE
    ensures DecodeOne(body, EMPTY_INDEX) == [EntryWithoutPayload(body)]
  {
    hide Uint64At, Field, ToInt;
  }

  lemma {:induction false} NoSlot(dt: seq<Byte>, n: nat)
    requires CAN_RECORD_SIZE <= n && |dt| < n
    ensures Slots(dt, n) == []
  {
    DivUnique(|dt|, n, 0, |dt|);
  }

  lemma {:induction false} FirstSlot(dt: seq<Byte>, n: nat)
    requires CAN_RECORD_SIZE <= n <= |dt|
    ensures Slots(dt, n) == [EntryWithoutPayload(dt[..n])] + Slots(dt[n..], n)
  {
    hide EntryWithoutPayload;
    DivMod(|dt|, n);
    var k := |dt| / n;
    MulMono(k, 0, n);
    assert (k - 1) * n == k * n - n;
    assert k > 0;
    DivUnique(|dt| - n, n, k - 1, |dt| % n);
    forall i | 0 < i < k
      ensures Slot(dt, n, i) == Slot(dt[n..], n, i - 1)
    {
      SlotInside(dt, n, i);
      SlotInside(dt[n..], n, i - 1);
      assert (i - 1) * n == i * n - n;
    }
    assert Slot(dt, n, 0) == dt[..n];
  }
}
