/** The unsorted record stream inside a ##DT block, its VLSD index, and the CAN records decoded through it. */
module Mf4Records {
  import opened Bytes
  import opened Float64
  import opened Mf4Format
  import opened Options

  /** One channel group of a data group. */
  datatype Group = Group(recordID: nat, dataBytes: nat, acqName: seq<Byte>, isVLSD: bool)

  type Groups = map<nat, Group>

  /** A record of the stream; a CutVlsd has its length field in the stream but not all of its payload. */
  datatype Rec =
    | Vlsd(id: nat, payload: seq<Byte>)
    | Fixed(id: nat, body: seq<Byte>)
    | CutVlsd(id: nat, length: nat)
  {
    /** What the record adds to the raw VLSD offset. */
    function RawSize(): nat {
      match this
      case Vlsd(_, p) => 4 + |p|
      case Fixed(_, _) => 0
      case CutVlsd(_, n) => 4 + n
    }

    function Payload(): seq<Byte> {
      if Vlsd? then payload else []
    }
  }

  // ------------------------------------------------------------------ writing

  predicate ValidIDSize(idSize: nat) {
    idSize == 1 || idSize == 2 || idSize == 4 || idSize == 8
  }

  /** The record can be written down, given the groups of the file. */
  predicate WellFormed(r: Rec, idSize: nat, groups: Groups) {
    && r.id in groups
    && r.id < Pow256(idSize)
    && match r
       case Vlsd(id, p) => groups[id].isVLSD && |p| < TWO_32
       case Fixed(id, b) => !groups[id].isVLSD && |b| == groups[id].dataBytes
       case CutVlsd(_, _) => false
  }

  predicate AllWellFormed(recs: seq<Rec>, idSize: nat, groups: Groups) {
    forall i :: 0 <= i < |recs| ==> WellFormed(recs[i], idSize, groups)
  }

  function RecBytes(r: Rec, idSize: nat): (b: seq<Byte>)
    requires !r.CutVlsd?
    ensures |b| == idSize + if r.Vlsd? then 4 + |r.payload| else |r.body|
  {
    PutLE(idSize, r.id) + if r.Vlsd? then PutLE(4, |r.payload|) + r.payload else r.body
  }

  ghost predicate Complete(recs: seq<Rec>) {
    forall i :: 0 <= i < |recs| ==> !recs[i].CutVlsd?
  }

  function Serialize(recs: seq<Rec>, idSize: nat): seq<Byte>
    requires Complete(recs)
  {
    if recs == [] then [] else RecBytes(recs[0], idSize) + Serialize(recs[1..], idSize)
  }

  // ----------------------------------------------------------------- scanning

  /** ReadRecordID: little-endian for the four legal widths, 0 for any other. */
  function ReadRecordID(dt: seq<Byte>, pos: nat, idSize: nat): (id: nat)
    requires pos + idSize <= |dt|
    ensures idSize != 1 && idSize != 2 && idSize != 4 && idSize != 8 ==> id == 0
  {
    if ValidIDSize(idSize) then Field(dt, pos, idSize) else 0
  }

  /** What is found at a position: nothing readable, a last broken record, or a record and where the next starts. */
  datatype Step = Stop | Last(rec: Rec) | Take(rec: Rec, next: nat)

  function Next(dt: seq<Byte>, pos: nat, idSize: nat, groups: Groups): (s: Step)
    ensures s.Take? ==> pos + idSize <= s.next <= |dt|
  {
    if pos + idSize > |dt| then Stop
    else
      var id := ReadRecordID(dt, pos, idSize);
      var at := pos + idSize;
      if id !in groups then Stop
      else if groups[id].isVLSD then
        if at + 4 > |dt| then Stop
        else
          var n := Field(dt, at, 4);
          if at + 4 + n > |dt| then Last(CutVlsd(id, n)) else Take(Vlsd(id, dt[at + 4..at + 4 + n]), at + 4 + n)
      else
        var n := groups[id].dataBytes;
        if at + n > |dt| then Stop else Take(Fixed(id, dt[at..at + n]), at + n)
  }

  /** The records readable from `pos` on. */
  function Scan(dt: seq<Byte>, pos: nat, idSize: nat, groups: Groups): seq<Rec>
    requires idSize > 0
    decreases |dt| - pos
  {
    match Next(dt, pos, idSize, groups)
    case Stop => []
    case Last(r) => [r]
    case Take(r, next) => [r] + Scan(dt, next, idSize, groups)
  }

  // ----------------------------------------------------------- the VLSD index

  /** Raw stream offset -> position in the concatenated payloads. */
  datatype VlsdIndex = VlsdIndex(buf: seq<Byte>, offsets: map<nat, nat>) {
    /** vlsdIndex.lookup; None is Go's nil slice. */
    function Lookup(rawOffset: nat, n: nat): Option<seq<Byte>> {
      if rawOffset !in offsets || offsets[rawOffset] + n > |buf| then None
      else Some(buf[offsets[rawOffset]..offsets[rawOffset] + n])
    }
  }

  const EMPTY_INDEX := VlsdIndex([], map[])

  function AddToIndex(r: Rec, raw: nat, idx: VlsdIndex): VlsdIndex {
    match r
    case Fixed(_, _) => idx
    case Vlsd(_, p) => VlsdIndex(idx.buf + p, idx.offsets[raw := |idx.buf|])
    case CutVlsd(_, _) => VlsdIndex(idx.buf, idx.offsets[raw := |idx.buf|])
  }

  /** The index after `recs`, starting from `idx` at raw offset `raw`. */
  function Index(recs: seq<Rec>, raw: nat, idx: VlsdIndex): VlsdIndex {
    if recs == [] then idx
    else Index(recs[1..], raw + recs[0].RawSize(), AddToIndex(recs[0], raw, idx))
  }

  function CollectedIndex(dt: seq<Byte>, idSize: nat, groups: Groups): VlsdIndex {
    if idSize == 0 then EMPTY_INDEX else Index(Scan(dt, 0, idSize, groups), 0, EMPTY_INDEX)
  }

  lemma {:induction false} IndexStep(dt: seq<Byte>, pos: nat, idSize: nat, groups: Groups, raw: nat, idx: VlsdIndex)
    requires idSize > 0
    ensures Index(Scan(dt, pos, idSize, groups), raw, idx) ==
      match Next(dt, pos, idSize, groups)
      case Stop => idx
      case Last(r) => AddToIndex(r, raw, idx)
      case Take(r, next) => Index(Scan(dt, next, idSize, groups), raw + r.RawSize(), AddToIndex(r, raw, idx))
  {
    match Next(dt, pos, idSize, groups)
    case Stop =>
    case Last(r) => assert [r][1..] == [];
    case Take(r, next) => assert Scan(dt, pos, idSize, groups)[1..] == Scan(dt, next, idSize, groups);
  }

  /** collectVLSD, the first pass over the record bytes. */
  method CollectVLSD(dt: seq<Byte>, idSize: nat, groups: Groups) returns (idx: VlsdIndex)
    ensures idx == CollectedIndex(dt, idSize, groups)
  {
    hide Scan, Index;
    var buf: seq<Byte> := [];
    var offsets: map<nat, nat> := map[];
    var rawOffset: nat := 0;
    var pos: nat := 0;
    while pos < |dt|
      invariant idSize > 0 ==>
        Index(Scan(dt, pos, idSize, groups), rawOffset, VlsdIndex(buf, offsets)) == CollectedIndex(dt, idSize, groups)
      invariant idSize == 0 ==> VlsdIndex(buf, offsets) == EMPTY_INDEX
      decreases |dt| - pos
    {
      if idSize == 0 { break; }
      IndexStep(dt, pos, idSize, groups, rawOffset, VlsdIndex(buf, offsets));
      if pos + idSize > |dt| { return VlsdIndex(buf, offsets); }
      var recID := ReadRecordID(dt, pos, idSize);
      pos := pos + idSize;
      if recID !in groups { return VlsdIndex(buf, offsets); }
      var cg := groups[recID];
      if cg.isVLSD {
        if pos + 4 > |dt| { return VlsdIndex(buf, offsets); }
        var vlsdLen := Field(dt, pos, 4);
        offsets := offsets[rawOffset := |buf|];
        rawOffset := rawOffset + (4 + vlsdLen);
        pos := pos + 4;
        if pos + vlsdLen > |dt| { return VlsdIndex(buf, offsets); }
        buf := buf + dt[pos..pos + vlsdLen];
        pos := pos + vlsdLen;
      } else {
        pos := pos + cg.dataBytes;
        if pos > |dt| { return VlsdIndex(buf, offsets); }
      }
    }
    if idSize > 0 { IndexStep(dt, pos, idSize, groups, rawOffset, VlsdIndex(buf, offsets)); }
    return VlsdIndex(buf, offsets);
  }

  // ------------------------------------------------------------- CAN records

  /** A played-back frame; MF4 entries never carry the remote flag. data is None for Go's nil slice. */
  datatype LogEntry = LogEntry(offsetNs: Int64, id: nat, transmit: bool, length: nat, data: Option<seq<Byte>>)

  /** parseMF4CANRecord; None is its "record too short" error. */
  function ParseCANRecord(rec: seq<Byte>, idx: VlsdIndex): Option<LogEntry> {
    if |rec| < CAN_RECORD_SIZE then None
    else
      var idRaw := Field(rec, 8, 4);
      var length := rec[12] / 2 % 128;
      Some(LogEntry(ToInt(Uint64At(rec, 0)), idRaw / 4 % 0x2000_0000, rec[12] % 2 == 1, length,
                    idx.Lookup(Uint64At(rec, 14), length)))
  }

  function DecodeOne(rec: seq<Byte>, idx: VlsdIndex): seq<LogEntry> {
    match ParseCANRecord(rec, idx)
    case None => []
    case Some(e) => [e]
  }

  function DecodeRec(r: Rec, groups: Groups, idx: VlsdIndex): seq<LogEntry> {
    if r.Fixed? && r.id in groups && groups[r.id].acqName == CAN_DATA_FRAME then DecodeOne(r.body, idx) else []
  }

  function DecodeAll(recs: seq<Rec>, groups: Groups, idx: VlsdIndex): seq<LogEntry> {
    if recs == [] then [] else DecodeRec(recs[0], groups, idx) + DecodeAll(recs[1..], groups, idx)
  }

  /** Sorted files: fixed-size records without an ID, until one is cut short. */
  function DecodeSorted(dt: seq<Byte>, pos: nat, recSize: nat, idx: VlsdIndex): Outcome<seq<LogEntry>>
    decreases |dt| - pos
  {
    if pos >= |dt| || pos + recSize > |dt| then Ok([])
    else if recSize == 0 then Diverges
    else
      var rest :- DecodeSorted(dt, pos + recSize, recSize, idx);
      Ok(DecodeOne(dt[pos..pos + recSize], idx) + rest)
  }

  function Decoded(dt: seq<Byte>, idSize: nat, groups: Groups, canCG: Group): Outcome<seq<LogEntry>> {
    var idx := CollectedIndex(dt, idSize, groups);
    if idSize > 0 then Ok(DecodeAll(Scan(dt, 0, idSize, groups), groups, idx))
    else DecodeSorted(dt, 0, canCG.dataBytes, idx)
  }

  /** Both passes of parseDG over the record bytes. */
  method DecodeRecords(dt: seq<Byte>, idSize: nat, groups: Groups, canCG: Group) returns (r: Outcome<seq<LogEntry>>)
    ensures r == Decoded(dt, idSize, groups, canCG)
  {
    var idx := CollectVLSD(dt, idSize, groups);
    if idSize > 0 {
      var entries := DecodeUnsorted(dt, idSize, groups, idx);
      r := Ok(entries);
    } else {
      r := DecodeSortedLoop(dt, canCG.dataBytes, idx);
    }
  }

  lemma {:induction false} DecodeStep(dt: seq<Byte>, pos: nat, idSize: nat, groups: Groups, idx: VlsdIndex)
    requires idSize > 0
    ensures DecodeAll(Scan(dt, pos, idSize, groups), groups, idx) ==
      match Next(dt, pos, idSize, groups)
      case Stop => []
      case Last(r) => DecodeRec(r, groups, idx)
      case Take(r, next) => DecodeRec(r, groups, idx) + DecodeAll(Scan(dt, next, idSize, groups), groups, idx)
  {
    match Next(dt, pos, idSize, groups)
    case Stop =>
    case Last(r) => assert [r][1..] == [];
    case Take(r, next) => assert Scan(dt, pos, idSize, groups)[1..] == Scan(dt, next, idSize, groups);
  }

  /** The second pass when records carry IDs. */
  method DecodeUnsorted(dt: seq<Byte>, idSize: nat, groups: Groups, idx: VlsdIndex) returns (entries: seq<LogEntry>)
    requires idSize > 0
    ensures entries == DecodeAll(Scan(dt, 0, idSize, groups), groups, idx)
  {
    hide Scan, DecodeAll;
    entries := [];
    var pos: nat := 0;
    while pos < |dt|
      invariant entries + DecodeAll(Scan(dt, pos, idSize, groups), groups, idx)
             == DecodeAll(Scan(dt, 0, idSize, groups), groups, idx)
      decreases |dt| - pos
    {
      DecodeStep(dt, pos, idSize, groups, idx);
      if pos + idSize > |dt| { return; }
      var recID := ReadRecordID(dt, pos, idSize);
      pos := pos + idSize;
      if recID !in groups { return; }
      var cg := groups[recID];
      if cg.isVLSD {
        if pos + 4 > |dt| { return; }
        var vlsdLen := Field(dt, pos, 4);
        pos := pos + 4 + vlsdLen;
        if pos > |dt| { DecodeStep(dt, pos, idSize, groups, idx); }
        continue;
      }
      var recSize := cg.dataBytes;
      if pos + recSize > |dt| { return; }
      if cg.acqName != CAN_DATA_FRAME {
        pos := pos + recSize;
        continue;
      }
      var rec := dt[pos..pos + recSize];
      pos := pos + recSize;
      var entry := ParseCANRecord(rec, idx);
      if entry.Some? { entries := entries + [entry.value]; }
    }
    DecodeStep(dt, pos, idSize, groups, idx);
  }

  /** The second pass when they do not. */
  method DecodeSortedLoop(dt: seq<Byte>, recSize: nat, idx: VlsdIndex) returns (r: Outcome<seq<LogEntry>>)
    ensures r == DecodeSorted(dt, 0, recSize, idx)
  {
    var entries: seq<LogEntry> := [];
    var pos: nat := 0;
    PrependAssoc([], [], DecodeSorted(dt, 0, recSize, idx));
    while pos < |dt|
      invariant DecodeSorted(dt, 0, recSize, idx) == Prepend(entries, DecodeSorted(dt, pos, recSize, idx))
      decreases |dt| - pos
    {
      if pos + recSize > |dt| { break; }
      if recSize == 0 { return Diverges; }
      var rec := dt[pos..pos + recSize];
      pos := pos + recSize;
      PrependAssoc(entries, DecodeOne(rec, idx), DecodeSorted(dt, pos, recSize, idx));
      var entry := ParseCANRecord(rec, idx);
      if entry.Some? { entries := entries + [entry.value]; }
    }
    PrependAssoc(entries, [], DecodeSorted(dt, pos, recSize, idx));
    return Ok(entries);
  }

  function Prepend(entries: seq<LogEntry>, r: Outcome<seq<LogEntry>>): Outcome<seq<LogEntry>> {
    if r.Ok? then Ok(entries + r.value) else r
  }

  lemma {:induction false} PrependAssoc(a: seq<LogEntry>, b: seq<LogEntry>, r: Outcome<seq<LogEntry>>)
    ensures Prepend(a, Prepend(b, r)) == Prepend(a + b, r)
    ensures Prepend([], r) == r
    ensures a + [] == a
  {
    if r.Ok? {
      assert a + (b + r.value) == (a + b) + r.value;
      assert [] + r.value == r.value;
    }
  }
}
