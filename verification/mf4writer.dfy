/** The MF4 writer as it runs: a file, a running VLSD offset, and the appends accepted so far. */
module Mf4Writer {
  import opened Bytes
  import opened Float64
  import opened Mf4Format
  import opened Mf4Layout
  import opened Mf4Log
  import opened Mf4Reader
  import opened Mf4Records
  import opened Mf4Recovery

  /** An open os.File whose writes succeed. */
  class File {
    var content: seq<Byte>
    var pos: nat

    constructor ()
      ensures content == [] && pos == 0
    {
      content, pos := [], 0;
    }

    /** Write at the current position, here always the end. */
    method Write(b: seq<Byte>)
      requires pos == |content|
      modifies this
      ensures content == old(content) + b && pos == |content|
    {
      content := content + b;
      pos := pos + |b|;
    }

    method WriteAt(b: seq<Byte>, at: nat)
      requires at + |b| <= |content|
      modifies `content
      ensures content == Splice(old(content), at, b)
    {
      content := content[..at] + b + content[at + |b|..];
    }

    method SeekEnd() returns (size: nat)
      modifies `pos
      ensures size == pos == |content|
    {
      pos := |content|;
      size := pos;
    }
  }

  /** EncodeCANFrameRecord(rec[at:], ...): zeroes 22 bytes and fills in the fields; too short a slice is left alone. */
  method EncodeCANFrameRecord(
      rec: array<Byte>, at: nat, tsNs: Int64, canID: Uint32, tx: bool, dataLen: nat, vlsdOffset: Uint64)
    requires at <= rec.Length && dataLen < 256
    modifies rec
    ensures rec.Length - at < CAN_RECORD_SIZE ==> rec[..] == old(rec[..])
    ensures rec.Length - at >= CAN_RECORD_SIZE ==>
      rec[..] == Splice(old(rec[..]), at, CanRecord(tsNs, canID, tx, dataLen, vlsdOffset))
  {
    hide PutLE, IDField, FromInt64, Splice;
    if rec.Length - at < CAN_RECORD_SIZE { return; }
    RoundTripIsRounding(tsNs);
    var bits, id, off := PutLE(8, FromInt64(tsNs)), IDField(canID), PutLE(8, vlsdOffset);
    var flags := FlagBytes(tx, dataLen);
    ghost var before := rec[..];
    Overwrite(rec, at, Zeros(CAN_RECORD_SIZE));
    Overwrite(rec, at, bits);
    Overwrite(rec, at + 8, id);
    Overwrite(rec, at + 12, flags);
    Overwrite(rec, at + 14, off);
    FieldsFillRecord(before, at, bits, id, flags, off);
  }

  lemma {:induction false} FieldsFillRecord(
      s: seq<Byte>, at: nat, bits: seq<Byte>, id: seq<Byte>, flags: seq<Byte>, off: seq<Byte>)
    requires at + CAN_RECORD_SIZE <= |s|
    requires |bits| == 8 && |id| == 4 && |flags| == 2 && |off| == 8
    ensures
      Splice(Splice(Splice(Splice(Splice(s, at, Zeros(22)), at, bits), at + 8, id), at + 12, flags), at + 14, off)
      == Splice(s, at, bits + id + flags + off)
  {
    hide Splice;
    assert Zeros(22) == [] + Zeros(22);
    Fill(Zeros(22), [], 22, bits);
    SpliceInside(s, at, Zeros(22), 0, bits);
    var x1 := [] + bits + Zeros(14);
    Fill(x1, [] + bits, 14, id);
    SpliceInside(s, at, x1, 8, id);
    var x2 := [] + bits + id + Zeros(10);
    Fill(x2, [] + bits + id, 10, flags);
    SpliceInside(s, at, x2, 12, flags);
    var x3 := [] + bits + id + flags + Zeros(8);
    Fill(x3, [] + bits + id + flags, 8, off);
    SpliceInside(s, at, x3, 14, off);
    assert [] + bits + id + flags + off + Zeros(0) == bits + id + flags + off;
  }

  datatype AppendResult = Appended | WrongScheme | CANDataTooLong | LabelHasNUL | LabelTooLong | FileClosed

  class Writer {
    var f: File?
    const scheme: Scheme
    var dtHeaderAt: int
    var dataStart: int
    var vlsdOffset: int
    /** The file itself, also once it is closed. */
    ghost const file: File
    /** Every append accepted so far. */
    ghost var log: seq<Entry>

    /** The file is the metadata followed by the log, and the running offset is the length of its VLSD stream. */
    ghost predicate Valid()
      reads this, file
    {
      && (f == null || f == file)
      && dtHeaderAt == LayoutOf(scheme).dt && dataStart == LayoutOf(scheme).dataStart
      && AllAcceptable(scheme, log)
      && vlsdOffset == VlsdTotal(log)
      && |file.content| < TWO_63
      && (f != null ==> file.content == Unfinalized(scheme, log) && file.pos == |file.content|)
    }

    /** newWriter: creates the file and writes the metadata, block after block. */
    constructor (scheme: Scheme)
      ensures Valid() && fresh(file) && f == file && this.scheme == scheme && log == []
      ensures file.content == Unfinalized(scheme, [])
    {
      hide Unfinalized, LayoutOf;
      var out := new File();
      this.scheme, f, file, log := scheme, out, out, [];
      new;
      WriteMetadata();
    }

    method WriteMetadata()
      requires f != null && f == file && file.content == [] && file.pos == 0 && log == []
      modifies this`dtHeaderAt, this`dataStart, this`vlsdOffset, file
      ensures Valid() && file.content == Unfinalized(scheme, [])
    {
      hide BlockBytes, IDBlockTail, PutLE, DTHeader, LayoutOf, Concat, Unfinalized, TextBlock, CGData;
      var primaryAcqName := AcqName(scheme);
      var txPrimary := BuildTXBlock(primaryAcqName);
      var txTimestamp := BuildTXBlock(TIMESTAMP);
      var txPayload := BuildTXBlock(primaryAcqName);
      var l := PlaceBlocks(scheme, txPrimary, txTimestamp, txPayload);
      var hd := SerializeBlock(HD, HDBlock(l));
      var cg1 := SerializeBlock(CG, PrimaryCG(scheme, l));
      var cg2 := SerializeBlock(CG, VlsdCG());
      var cnTs := SerializeBlock(CN, TimestampCN(l));
      var cnPayload := SerializeBlock(CN, PayloadCN(scheme, l));
      var dg := SerializeBlock(DG, DGBlock(l));
      var writes := [IDBlock(true), hd, txPrimary, txTimestamp, txPayload, cg1, cg2, cnTs, cnPayload, dg,
                     DTHeader(HEADER_SIZE)];
      assert writes == Pieces(scheme, IDBlock(true), HEADER_SIZE);
      WriteAll(writes);
      dtHeaderAt, dataStart, vlsdOffset := l.dt, l.dataStart, 0;
      MetadataOnly(scheme);
    }

    /** Absolute addresses, before anything is written: sizes do not depend on links. */
    static method PlaceBlocks(scheme: Scheme, txPrimary: seq<Byte>, txTimestamp: seq<Byte>, txPayload: seq<Byte>)
      returns (l: Layout)
      requires |txPrimary| == |txPayload| == TextBlockSize(|AcqName(scheme)|)
      requires |txTimestamp| == TextBlockSize(|TIMESTAMP|)
      ensures l == LayoutOf(scheme)
    {
      var cur: Address := ID_BLOCK_SIZE + (HEADER_SIZE + 8 * 6 + 24);
      var txPrimaryAddr := cur;
      cur := cur + |txPrimary|;
      var txTimestampAddr := cur;
      cur := cur + |txTimestamp|;
      var txPayloadAddr := cur;
      cur := cur + |txPayload|;
      var cg1Addr := cur;
      cur := cur + (HEADER_SIZE + 8 * 6 + 32);
      var cg2Addr := cur;
      cur := cur + (HEADER_SIZE + 8 * 6 + 32);
      var cnTsAddr := cur;
      cur := cur + (HEADER_SIZE + 8 * 8 + 48);
      var cnDataAddr := cur;
      cur := cur + (HEADER_SIZE + 8 * 8 + 48);
      var dgAddr := cur;
      cur := cur + (HEADER_SIZE + 8 * 4 + 8);
      var dtHeaderAddr := cur;
      cur := cur + HEADER_SIZE;
      l := Layout(txPrimaryAddr, txTimestampAddr, txPayloadAddr, cg1Addr, cg2Addr, cnTsAddr, cnDataAddr,
                  dgAddr, dtHeaderAddr, cur);
    }

    /** Writes the staged blocks in order. */
    method WriteAll(writes: seq<seq<Byte>>)
      requires f != null && f == file && file.content == [] && file.pos == 0
      modifies file
      ensures file.content == Concat(writes) && file.pos == |file.content|
    {
      for i := 0 to |writes|
        invariant file.content == Concat(writes[..i]) && file.pos == |file.content|
      {
        f.Write(writes[i]);
        assert writes[..i + 1][..i] == writes[..i];
      }
      assert writes[..|writes|] == writes;
    }

    /**
     * AppendCAN: a primary record carrying the current VLSD offset, then the payload. A rejected append
     * changes nothing. The file must have room left: below 2^63 bytes no write is refused.
     */
    method AppendCAN(tsNs: Int64, canID: Uint32, tx: bool, data: seq<Byte>) returns (r: AppendResult)
      requires Valid() && |file.content| + 92 < TWO_63
      modifies this`vlsdOffset, this`log, file
      ensures Valid() && dtHeaderAt == old(dtHeaderAt) && dataStart == old(dataStart) && f == old(f)
      ensures r ==
        if scheme != LayoutCAN then WrongScheme
        else if |data| > MAX_CAN_DATA_LEN then CANDataTooLong
        else if f == null then FileClosed
        else Appended
      ensures log == old(log) + if r == Appended then [CanFrame(tsNs, canID, tx, data)] else []
      ensures r != Appended ==> file.content == old(file.content) && vlsdOffset == old(vlsdOffset)
    {
      hide Unfinalized, LayoutOf, VlsdTotal, CanRecord, RecBytes, PutLE;
      if scheme != LayoutCAN { return WrongScheme; }
      if |data| > MAX_CAN_DATA_LEN { return CANDataTooLong; }
      if f == null { return FileClosed; }
      OffsetFits();
      var rec := new Byte[1 + CAN_RECORD_SIZE](_ => 0);
      rec[0] := RECORD_ID_PRIMARY;
      EncodeCANFrameRecord(rec, 1, tsNs, canID, tx, |data|, vlsdOffset);
      CanRecBytes(rec[..], tsNs, canID, tx, data, vlsdOffset);
      f.Write(rec[..]);
      AppendVLSD(data, CanFrame(tsNs, canID, tx, data));
      return Appended;
    }

    /** AppendSignal: the same with a 32-byte record and the three names as a NUL-separated label. */
    method AppendSignal(tsNs: Int64, canID: Uint32, iface: Uint32, value: Uint64,
                        message: seq<Byte>, signal: seq<Byte>, unit: seq<Byte>) returns (r: AppendResult)
      requires Valid() && |file.content| + |message| + |signal| + |unit| + 40 < TWO_63
      modifies this`vlsdOffset, this`log, file
      ensures Valid() && dtHeaderAt == old(dtHeaderAt) && dataStart == old(dataStart) && f == old(f)
      ensures r ==
        if scheme != LayoutSignal then WrongScheme
        else if 0 in message || 0 in signal || 0 in unit then LabelHasNUL
        else if |message| + |signal| + |unit| + 2 >= TWO_32 then LabelTooLong
        else if f == null then FileClosed
        else Appended
      ensures log == old(log) + if r == Appended then [Sample(tsNs, canID, iface, value, message, signal, unit)] else []
      ensures r != Appended ==> file.content == old(file.content) && vlsdOffset == old(vlsdOffset)
    {
      hide Unfinalized, LayoutOf, VlsdTotal, SignalRecord, RecBytes, PutLE;
      if scheme != LayoutSignal { return WrongScheme; }
      if 0 in message || 0 in signal || 0 in unit { return LabelHasNUL; }
      var labelLen := |message| + |signal| + |unit| + 2;
      if labelLen > TWO_32 - 1 { return LabelTooLong; }
      if f == null { return FileClosed; }
      ghost var e := Sample(tsNs, canID, iface, value, message, signal, unit);
      var text := message + [0] + signal + [0] + unit;
      OffsetFits();
      var rec := [RECORD_ID_PRIMARY] + SignalRecord(tsNs, value, iface, canID, vlsdOffset);
      SignalRecBytes(rec, e, vlsdOffset);
      f.Write(rec);
      AppendVLSD(text, e);
      return Appended;
    }

    lemma {:induction false} OffsetFits()
      requires Valid() && f != null
      ensures 0 <= vlsdOffset < TWO_63
    {
      VlsdTotalBound(log);
    }

    /** appendVLSD: finishes an append whose primary record has just been written. */
    method AppendVLSD(payload: seq<Byte>, ghost e: Entry)
      requires f != null && f == file && file.pos == |file.content|
      requires dtHeaderAt == LayoutOf(scheme).dt && dataStart == LayoutOf(scheme).dataStart
      requires AllAcceptable(scheme, log) && vlsdOffset == VlsdTotal(log)
      requires Acceptable(scheme, e) && payload == Payload(e)
      requires file.content == Unfinalized(scheme, log) + RecBytes(Fixed(RECORD_ID_PRIMARY, Primary(e, vlsdOffset)), 1)
      requires |file.content| + 5 + |payload| < TWO_63
      modifies this`vlsdOffset, this`log, file
      ensures Valid() && log == old(log) + [e]
    {
      hide RecBytes, Payload, Primary, Unfinalized, LayoutOf, VlsdTotal, PutLE, Acceptable, LogRecs;
      var vrec := [RECORD_ID_VLSD] + PutLE(4, |payload|) + payload;
      VlsdRecBytes(payload);
      f.Write(vrec);
      vlsdOffset := vlsdOffset + (4 + |payload|);
      AppendExtendsFile(scheme, log, e);
      LogRecsSnoc(log, e, 0);
      log := log + [e];
    }

    /** finalize: three writes inside the metadata. */
    method Finalize()
      requires Valid() && f != null && |Body(log)| + HEADER_SIZE < TWO_63
      modifies file
      ensures file.content == Finalized(scheme, log)
      ensures |file.content| == |old(file.content)|
    {
      hide FileWith, Body, LayoutOf, IDBlockTail;
      WritesAdvanceStages(scheme, log);
      StageEnds(scheme, log);
      ContentLength(scheme, log);
      var size := f.SeekEnd();
      var blockLen := size - dtHeaderAt;
      f.WriteAt(PutLE(8, blockLen), dtHeaderAt + 8);
      assert file.content == Stage(scheme, log, 1);
      f.WriteAt(FINALIZED_MAGIC, 0);
      assert file.content == Stage(scheme, log, 2);
      f.WriteAt([0, 0], 60);
    }

    /** Close: finalizes an open file; a second Close does nothing. */
    method Close()
      requires Valid()
      modifies this`f, file
      ensures Valid() && f == null
      ensures file.content == if old(f) == null then old(file.content) else Finalized(scheme, log)
    {
      hide Body, FileWith, LayoutOf, VlsdTotal, AllAcceptable;
      if f == null { return; }
      ContentLength(scheme, log);
      Finalize();
      f := null;
    }

    /** CloseUnfinalized: leaves the bytes as they are. */
    method CloseUnfinalized()
      requires Valid()
      modifies this`f
      ensures Valid() && f == null
    {
      hide Unfinalized, LayoutOf, VlsdTotal, AllAcceptable;
      if f == null { return; }
      f := null;
    }
  }

  lemma {:induction false} MetadataOnly(scheme: Scheme)
    ensures Concat(Pieces(scheme, IDBlock(true), HEADER_SIZE)) == Unfinalized(scheme, [])
    ensures |Unfinalized(scheme, [])| < TWO_63 && VlsdTotal([]) == 0
  {
    hide Pieces, Concat, IDBlockTail;
    assert Body([]) == [];
    var metadata := Concat(Pieces(scheme, IDBlock(true), HEADER_SIZE));
    assert metadata + [] == metadata;
    ContentLength(scheme, []);
  }

  lemma {:induction false} ContentLength(scheme: Scheme, log: seq<Entry>)
    ensures |Unfinalized(scheme, log)| == LayoutOf(scheme).dt + HEADER_SIZE + |Body(log)|
    ensures |Finalized(scheme, log)| == |Unfinalized(scheme, log)|
  {
    hide Pieces, Body, Concat, IDBlockTail, Start;
    ConcatLength(Pieces(scheme, IDBlock(true), HEADER_SIZE));
    AddressesAreStarts(scheme, IDBlock(true), HEADER_SIZE);
    ConcatLength(Pieces(scheme, IDBlock(false), HEADER_SIZE + |Body(log)|));
    AddressesAreStarts(scheme, IDBlock(false), HEADER_SIZE + |Body(log)|);
  }

  lemma {:induction false} OneByteID()
    ensures PutLE(1, RECORD_ID_PRIMARY) == [RECORD_ID_PRIMARY] && PutLE(1, RECORD_ID_VLSD) == [RECORD_ID_VLSD]
  {
  }

  lemma {:induction false} CanRecBytes(rec: seq<Byte>, ts: Int64, id: Uint32, tx: bool, data: seq<Byte>, off: nat)
    requires |rec| == 1 + CAN_RECORD_SIZE
    requires rec[0] == RECORD_ID_PRIMARY && rec[1..1 + CAN_RECORD_SIZE] == CanRecord(ts, id, tx, |data|, off)
    ensures rec == RecBytes(Fixed(RECORD_ID_PRIMARY, Primary(CanFrame(ts, id, tx, data), off)), 1)
  {
    hide CanRecord, PutLE;
    OneByteID();
    assert rec == [rec[0]] + rec[1..1 + CAN_RECORD_SIZE];
  }

  lemma {:induction false} SignalRecBytes(rec: seq<Byte>, e: Entry, off: nat)
    requires e.Sample? && rec == [RECORD_ID_PRIMARY] + SignalRecord(e.tsNs, e.value, e.iface, e.canID, off)
    ensures rec == RecBytes(Fixed(RECORD_ID_PRIMARY, Primary(e, off)), 1)
  {
    hide SignalRecord, PutLE;
    OneByteID();
  }

  lemma {:induction false} VlsdRecBytes(payload: seq<Byte>)
    ensures [RECORD_ID_VLSD] + PutLE(4, |payload|) + payload == RecBytes(Vlsd(RECORD_ID_VLSD, payload), 1)
  {
    hide PutLE;
    OneByteID();
    assert [RECORD_ID_VLSD] + PutLE(4, |payload|) + payload == [RECORD_ID_VLSD] + (PutLE(4, |payload|) + payload);
  }

  /** An unfinalized file plus the two records of an append is the unfinalized file of the longer log. */
  lemma {:induction false} AppendExtendsFile(scheme: Scheme, log: seq<Entry>, e: Entry)
    ensures Unfinalized(scheme, log + [e]) == Unfinalized(scheme, log)
      + RecBytes(Fixed(RECORD_ID_PRIMARY, Primary(e, VlsdTotal(log))), 1)
      + RecBytes(Vlsd(RECORD_ID_VLSD, Payload(e)), 1)
  {
    hide RecBytes, Payload, Primary, Body, Concat, Pieces, IDBlockTail;
    BodySnoc(log, e);
  }

  // -------------------------------------------------------------- end to end

  datatype Frame = Frame(tsNs: Int64, canID: Uint32, tx: bool, data: seq<Byte>)

  function Accepted(frames: seq<Frame>): (log: seq<Entry>)
    ensures AllAcceptable(LayoutCAN, log)
  {
    if frames == [] then []
    else
      var last := frames[|frames| - 1];
      Accepted(frames[..|frames| - 1])
      + if |last.data| <= MAX_CAN_DATA_LEN then [CanFrame(last.tsNs, last.canID, last.tx, last.data)] else []
  }

  /** Logging frames and playing the file back gives the accepted frames, in order, exactly. */
  method LogAndPlayBack(frames: seq<Frame>, finalize: bool) returns (entries: Outcome<seq<LogEntry>>)
    requires 1000 + 92 * |frames| <= MAX_ALLOC
    ensures entries == Ok(Replayed(Accepted(frames)))
  {
    hide Replayed, FileWith, Body, LayoutOf, ParseFile, IDBlockTail;
    var w := new Writer(LayoutCAN);
    StartsShort();
    for i := 0 to |frames|
      invariant w.Valid() && fresh(w) && fresh(w.file) && w.f == w.file && w.scheme == LayoutCAN
      invariant w.log == Accepted(frames[..i])
      invariant |w.file.content| <= 1000 + 92 * i
    {
      var fr := frames[i];
      ghost var before := w.log;
      var r := w.AppendCAN(fr.tsNs, fr.canID, fr.tx, fr.data);
      assert frames[..i + 1][..i] == frames[..i];
      if r == Appended { AppendGrows(before, CanFrame(fr.tsNs, fr.canID, fr.tx, fr.data)); }
    }
    assert frames[..|frames|] == frames;
    ContentLength(LayoutCAN, w.log);
    RoundTrip(w.log);
    var out := w.f;
    if finalize {
      w.Close();
    } else {
      w.CloseUnfinalized();
    }
    entries := Parse(out.content);
  }

  lemma {:induction false} StartsShort()
    ensures |Unfinalized(LayoutCAN, [])| <= 1000
  {
    hide FileWith;
    ContentLength(LayoutCAN, []);
  }

  lemma {:induction false} AppendGrows(log: seq<Entry>, e: Entry)
    requires Acceptable(LayoutCAN, e)
    ensures |Unfinalized(LayoutCAN, log + [e])| <= |Unfinalized(LayoutCAN, log)| + 92
  {
    hide FileWith, Body, CanRecord;
    AppendExtendsFile(LayoutCAN, log, e);
  }
}
