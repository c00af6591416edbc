/** Following HD -> DG -> CG through the writer's metadata. */
module Mf4Walk {
  import opened Bytes
  import opened Mf4Format
  import opened Mf4Layout
  import opened Mf4Reader
  import opened Mf4Records
  import opened Options

  function PrimaryGroup(scheme: Scheme): Group {
    Group(RECORD_ID_PRIMARY, RecordSize(scheme), AcqName(scheme), false)
  }

  function VlsdGroup(): Group {
    Group(RECORD_ID_VLSD, 0, [], true)
  }

  function GroupsOf(scheme: Scheme): Groups {
    map[RECORD_ID_PRIMARY := PrimaryGroup(scheme), RECORD_ID_VLSD := VlsdGroup()]
  }

  /** The blocks the reader follows are where the layout says, and inside the file. */
  ghost predicate MetadataIn(file: seq<Byte>, scheme: Scheme) {
    var l := LayoutOf(scheme);
    && Holds(file, ID_BLOCK_SIZE, BlockBytes(HD, HDBlock(l)))
    && Holds(file, l.txPrimary, BlockBytes(TX, TextBlock(AcqName(scheme))))
    && Holds(file, l.cg1, BlockBytes(CG, PrimaryCG(scheme, l)))
    && Holds(file, l.cg2, BlockBytes(CG, VlsdCG()))
    && Holds(file, l.dg, BlockBytes(DG, DGBlock(l)))
  }

  lemma {:induction false} CGFields(recordID: nat, flags: nat, dataBytes: nat)
    requires recordID < TWO_64 && flags < 0x1_0000 && dataBytes < TWO_32
    ensures
      var d := CGData(recordID, flags, dataBytes);
      Uint64At(d, 0) == recordID && Field(d, 16, 2) == flags && Field(d, 24, 4) == dataBytes
  {
    hide PutLE, GetLE;
    var d := CGData(recordID, flags, dataBytes);
    Pow256Values();
    GetPut(8, recordID);
    GetPut(2, flags);
    GetPut(4, dataBytes);
    assert d[0..8] == PutLE(8, recordID);
    assert d[16..18] == PutLE(2, flags);
    assert d[24..28] == PutLE(4, dataBytes);
  }

  lemma {:induction false} PrimaryGroupRead(file: seq<Byte>, scheme: Scheme)
    requires MetadataIn(file, scheme)
    ensures GroupOf(file, PrimaryCG(scheme, LayoutOf(scheme))) == Ok(PrimaryGroup(scheme))
  {
    hide TextBlock, CGData, Uint64At, Field, ReadText, BlockBytes;
    CGFields(RECORD_ID_PRIMARY, CG_FLAG_BUS, RecordSize(scheme));
    TextBlockFits(scheme);
    ReadTextInverts(file, LayoutOf(scheme).txPrimary, AcqName(scheme));
  }

  lemma {:induction false} TextBlockFits(scheme: Scheme)
    ensures TextBlock(AcqName(scheme)).Size() <= MAX_ALLOC
    ensures AcqName(scheme)[|AcqName(scheme)| - 1] != 0
  {
  }

  lemma {:induction false} VlsdGroupRead(file: seq<Byte>)
    ensures GroupOf(file, VlsdCG()) == Ok(VlsdGroup())
  {
    hide CGData, Uint64At, Field;
    CGFields(RECORD_ID_VLSD, CG_FLAG_VLSD, 0);
  }

  function CanGroup(scheme: Scheme): Option<Group> {
    if scheme == LayoutCAN then Some(PrimaryGroup(scheme)) else None
  }

  lemma {:induction false} BlocksRead(file: seq<Byte>, scheme: Scheme)
    requires MetadataIn(file, scheme)
    ensures
      var l := LayoutOf(scheme);
      && BlockAt(file, ID_BLOCK_SIZE) == Ok(HDBlock(l))
      && BlockAt(file, l.cg1) == Ok(PrimaryCG(scheme, l))
      && BlockAt(file, l.cg2) == Ok(VlsdCG())
      && BlockAt(file, l.dg) == Ok(DGBlock(l))
  {
    hide BlockBytes, BlockAt, LayoutOf, Holds, CGData;
    var l := LayoutOf(scheme);
    ReadBlockInverts(file, ID_BLOCK_SIZE, HD, HDBlock(l));
    ReadBlockInverts(file, l.cg1, CG, PrimaryCG(scheme, l));
    ReadBlockInverts(file, l.cg2, CG, VlsdCG());
    ReadBlockInverts(file, l.dg, DG, DGBlock(l));
  }

  /** The CG chain is the primary group (ID 1, its size and name) and the VLSD group (ID 2), and nothing else. */
  lemma {:induction false} GroupChainRead(file: seq<Byte>, scheme: Scheme)
    requires MetadataIn(file, scheme)
    ensures GroupChain(file, LayoutOf(scheme).cg1, |file|, GroupTable(map[], None))
         == Ok(GroupTable(GroupsOf(scheme), CanGroup(scheme)))
  {
    hide BlockAt, GroupOf, BlockBytes, CGData;
    var l := LayoutOf(scheme);
    BlocksRead(file, scheme);
    PrimaryGroupRead(file, scheme);
    VlsdGroupRead(file);
    var t1 := AddGroup(GroupTable(map[], None), PrimaryGroup(scheme));
    var t2 := AddGroup(t1, VlsdGroup());
    assert t2 == GroupTable(GroupsOf(scheme), CanGroup(scheme));
    assert |file| > 2;
    assert GroupChain(file, 0, |file| - 2, t2) == Ok(t2);
    assert GroupChain(file, l.cg2, |file| - 1, t1) == Ok(t2);
  }

  /** What the reader makes of the record bytes it finds. */
  function EntriesOf(scheme: Scheme, body: seq<Byte>): seq<LogEntry> {
    if scheme == LayoutCAN then
      DecodeAll(Scan(body, 0, 1, GroupsOf(scheme)), GroupsOf(scheme), CollectedIndex(body, 1, GroupsOf(scheme)))
    else []
  }

  lemma {:induction false} DataGroupRead(file: seq<Byte>, scheme: Scheme)
    requires MetadataIn(file, scheme)
    ensures DataGroup(file, LayoutOf(scheme).dg) ==
      if scheme == LayoutSignal then Ok(([], 0))
      else
        match ReadDTData(file, LayoutOf(scheme).dt)
        case Ok(body) => Ok((EntriesOf(scheme, body), 0))
        case Failed => Failed
        case Panics => Panics
        case Diverges => Diverges
  {
    hide BlockAt, GroupChain, ReadDTData, BlockBytes, CGData, MetadataIn, CollectedIndex;
    BlocksRead(file, scheme);
    GroupChainRead(file, scheme);
    assert DGBlock(LayoutOf(scheme)).data[0] == 1;
  }

  /** The whole parse of a file with the writer's metadata comes down to its record bytes. */
  lemma {:induction false} FileRead(file: seq<Byte>, scheme: Scheme)
    requires MetadataIn(file, scheme)
    ensures ParseFile(file) ==
      if scheme == LayoutSignal then Ok([])
      else
        match ReadDTData(file, LayoutOf(scheme).dt)
        case Ok(body) => Ok(Rebase(EntriesOf(scheme, body)))
        case Failed => Failed
        case Panics => Panics
        case Diverges => Diverges
  {
    hide BlockAt, DataGroup, ReadDTData, BlockBytes, EntriesOf;
    var l := LayoutOf(scheme);
    BlocksRead(file, scheme);
    DataGroupRead(file, scheme);
    assert HDBlock(l).links[0] == l.dg;
    match DataGroup(file, l.dg)
    case Ok(r) =>
      assert [] + r.0 == r.0;
      assert DataGroups(file, 0, |file| - 1, r.0) == Ok(r.0);
    case Failed => case Panics => case Diverges =>
  }

  // ------------------------------------------------------------ the DT block

  lemma {:induction false} DTHeaderRead(file: seq<Byte>, at: int, length: nat)
    requires Holds(file, at, DTHeader(length)) && length < TWO_64
    ensures file[at..at + 4] == DT && Uint64At(file, at + 8) == length
  {
    var h := DTHeader(length);
    assert h[0..4] == DT;
    assert h[8..16] == PutLE(8, length);
    HoldsPart(file, at, h, 0, DT);
    HoldsPart(file, at, h, 8, PutLE(8, length));
    Uint64Holds(file, at + 8, length);
  }

  /** A DT block that declares no data, or all of it, yields all of it. */
  lemma {:induction false} DTDataRead(file: seq<Byte>, at: int, length: nat)
    requires Holds(file, at, DTHeader(length))
    requires length == HEADER_SIZE || (at + length == |file| && 0 <= length - HEADER_SIZE <= MAX_ALLOC)
    ensures ReadDTData(file, at) == Ok(file[at + HEADER_SIZE..])
  {
    DTHeaderRead(file, at, length);
    assert file[at + HEADER_SIZE..|file|] == file[at + HEADER_SIZE..];
  }

  /**
   * A DT block that declares a length yields exactly that many bytes, those right behind its header: what follows
   * the block is none of its business.
   */
  lemma {:induction false} DTDataBounded(file: seq<Byte>, at: int, rest: seq<Byte>)
    requires ReadDTData(file, at).Ok?
    ensures Inside(file, at, HEADER_SIZE) && file[at..at + 4] == DT
    ensures
      var n := (Uint64At(file, at + 8) - HEADER_SIZE) % TWO_64;
      n != 0 ==>
        && at + HEADER_SIZE + n <= |file|
        && ReadDTData(file, at) == Ok(file[at + HEADER_SIZE..at + HEADER_SIZE + n])
        && ReadDTData(file + rest, at) == ReadDTData(file, at)
  {
    hide Uint64At;
    Uint64Longer(file, at + 8, rest);
    assert (file + rest)[at..at + 4] == file[at..at + 4];
    var n := (Uint64At(file, at + 8) - HEADER_SIZE) % TWO_64;
    if n != 0 {
      assert (file + rest)[at + HEADER_SIZE..at + HEADER_SIZE + n] == file[at + HEADER_SIZE..at + HEADER_SIZE + n];
    }
  }

  lemma {:induction false} Uint64Longer(file: seq<Byte>, at: nat, rest: seq<Byte>)
    requires at + 8 <= |file|
    ensures Uint64At(file + rest, at) == Uint64At(file, at)
  {
    assert (file + rest)[at..at + 8] == file[at..at + 8];
  }

  lemma {:induction false} HoldsLonger(file: seq<Byte>, addr: int, bytes: seq<Byte>, rest: seq<Byte>)
    requires Holds(file, addr, bytes)
    ensures Holds(file + rest, addr, bytes)
  {
    assert (file + rest)[addr..addr + |bytes|] == file[addr..addr + |bytes|];
  }

  lemma {:induction false} MetadataLonger(file: seq<Byte>, scheme: Scheme, rest: seq<Byte>)
    requires MetadataIn(file, scheme)
    ensures MetadataIn(file + rest, scheme)
  {
    hide BlockBytes, CGData, Holds;
    var l := LayoutOf(scheme);
    HoldsLonger(file, ID_BLOCK_SIZE, BlockBytes(HD, HDBlock(l)), rest);
    HoldsLonger(file, l.txPrimary, BlockBytes(TX, TextBlock(AcqName(scheme))), rest);
    HoldsLonger(file, l.cg1, BlockBytes(CG, PrimaryCG(scheme, l)), rest);
    HoldsLonger(file, l.cg2, BlockBytes(CG, VlsdCG()), rest);
    HoldsLonger(file, l.dg, BlockBytes(DG, DGBlock(l)), rest);
  }

  // ---------------------------------------------------------- laid-out files

  lemma {:induction false} FileHasMetadata(scheme: Scheme, idBlock: seq<Byte>, dtLength: nat, body: seq<Byte>)
    requires |idBlock| == ID_BLOCK_SIZE
    ensures MetadataIn(FileWith(scheme, idBlock, dtLength, body), scheme)
  {
    FileParts(scheme, idBlock, dtLength, body);
  }

  lemma {:induction false} FileDTRead(scheme: Scheme, idBlock: seq<Byte>, dtLength: nat, body: seq<Byte>)
    requires |idBlock| == ID_BLOCK_SIZE
    requires dtLength == HEADER_SIZE || (dtLength == HEADER_SIZE + |body| && |body| <= MAX_ALLOC)
    ensures ReadDTData(FileWith(scheme, idBlock, dtLength, body), LayoutOf(scheme).dt) == Ok(body)
  {
    hide FileWith, ReadDTData, DTHeader, Pieces, BlockBytes;
    FileParts(scheme, idBlock, dtLength, body);
    DTDataRead(FileWith(scheme, idBlock, dtLength, body), LayoutOf(scheme).dt, dtLength);
  }

  /** Whatever the ID block says, and whether the DT length is open or exact, the same entries come out. */
  lemma {:induction false} LaidOutFileRead(scheme: Scheme, idBlock: seq<Byte>, dtLength: nat, body: seq<Byte>)
    requires |idBlock| == ID_BLOCK_SIZE
    requires dtLength == HEADER_SIZE || (dtLength == HEADER_SIZE + |body| && |body| <= MAX_ALLOC)
    ensures ParseFile(FileWith(scheme, idBlock, dtLength, body)) == Ok(Rebase(EntriesOf(scheme, body)))
  {
    hide FileWith, MetadataIn, ParseFile, ReadDTData;
    FileHasMetadata(scheme, idBlock, dtLength, body);
    FileRead(FileWith(scheme, idBlock, dtLength, body), scheme);
    FileDTRead(scheme, idBlock, dtLength, body);
    assert scheme == LayoutSignal ==> Rebase(EntriesOf(scheme, body)) == [];
  }

  // ---------------------------------------------------------------- channels

  /**
   * The links no playback needs are true as well: the primary group leads to its timestamp channel, that one to
   * the payload channel, and their name links to "Timestamp" and the group's own name.
   */
  lemma {:induction false} ChannelsRead(scheme: Scheme, idBlock: seq<Byte>, dtLength: nat, body: seq<Byte>)
    requires |idBlock| == ID_BLOCK_SIZE
    ensures
      var l, file := LayoutOf(scheme), FileWith(scheme, idBlock, dtLength, body);
      && BlockAt(file, PrimaryCG(scheme, l).links[1]) == Ok(TimestampCN(l))
      && BlockAt(file, TimestampCN(l).links[0]) == Ok(PayloadCN(scheme, l))
      && ReadText(file, TimestampCN(l).links[2]) == Ok(TIMESTAMP)
      && ReadText(file, PayloadCN(scheme, l).links[2]) == Ok(AcqName(scheme))
  {
    hide FileWith, TextBlock, BlockBytes, BlockAt, ReadText, PutLE;
    var l, file := LayoutOf(scheme), FileWith(scheme, idBlock, dtLength, body);
    FileParts(scheme, idBlock, dtLength, body);
    TextBlockFits(scheme);
    TimestampTextFits();
    ReadBlockInverts(file, l.cnTs, CN, TimestampCN(l));
    ReadBlockInverts(file, l.cnData, CN, PayloadCN(scheme, l));
    ReadTextInverts(file, l.txTimestamp, TIMESTAMP);
    ReadTextInverts(file, l.txPayload, AcqName(scheme));
  }

  /** The identifier of the block a link leads to, empty for a link that leads nowhere. */
  function Target(file: seq<Byte>, link: int): seq<Byte> {
    if link == 0 || !Inside(file, link, 4) then [] else file[link..link + 4]
  }

  function Targets(file: seq<Byte>, links: seq<Int64>): seq<seq<Byte>> {
    seq(|links|, i requires 0 <= i < |links| => Target(file, links[i]))
  }

  /** Every link of the metadata leads to the start of a block of the right kind, or is 0 where the format allows it. */
  lemma {:induction false} LinksLeadToBlocks(scheme: Scheme, idBlock: seq<Byte>, dtLength: nat, body: seq<Byte>)
    requires |idBlock| == ID_BLOCK_SIZE
    ensures
      var l, file := LayoutOf(scheme), FileWith(scheme, idBlock, dtLength, body);
      && Targets(file, HDBlock(l).links) == [DG, [], [], [], [], []]
      && Targets(file, DGBlock(l).links) == [[], CG, DT, []]
      && Targets(file, PrimaryCG(scheme, l).links) == [CG, CN, TX, [], [], []]
      && Targets(file, VlsdCG().links) == [[], [], [], [], [], []]
      && Targets(file, TimestampCN(l).links) == [CN, [], TX, [], [], [], [], []]
      && Targets(file, PayloadCN(scheme, l).links) == [[], [], TX, [], [], [], [], []]
  {
    hide FileWith, TextBlock, BlockBytes, PutLE, CGData, DTHeader;
    var l, file := LayoutOf(scheme), FileWith(scheme, idBlock, dtLength, body);
    FileParts(scheme, idBlock, dtLength, body);
    BlockStarts(file, l.dg, DG, DGBlock(l));
    BlockStarts(file, l.cg1, CG, PrimaryCG(scheme, l));
    BlockStarts(file, l.cg2, CG, VlsdCG());
    BlockStarts(file, l.cnTs, CN, TimestampCN(l));
    BlockStarts(file, l.cnData, CN, PayloadCN(scheme, l));
    BlockStarts(file, l.txPrimary, TX, TextBlock(AcqName(scheme)));
    BlockStarts(file, l.txTimestamp, TX, TextBlock(TIMESTAMP));
    BlockStarts(file, l.txPayload, TX, TextBlock(AcqName(scheme)));
    DTStarts(file, l.dt, dtLength);
    hide LayoutOf, Holds, Target;
    assert Target(file, 0) == [] by { Nowhere(file); }
  }

  lemma {:induction false} Nowhere(file: seq<Byte>)
    ensures Target(file, 0) == []
  {
  }

  lemma {:induction false} BlockStarts(file: seq<Byte>, addr: int, id: seq<Byte>, b: Block)
    requires |id| == 4 && addr > 0 && Holds(file, addr, BlockBytes(id, b))
    ensures Target(file, addr) == id
  {
    hide BlockBytes;
    HeaderParts(id, b);
    HoldsPart(file, addr, BlockBytes(id, b), 0, id);
  }

  lemma {:induction false} DTStarts(file: seq<Byte>, addr: int, length: nat)
    requires addr > 0 && Holds(file, addr, DTHeader(length))
    ensures Target(file, addr) == DT
  {
    assert DTHeader(length)[0..4] == DT;
    HoldsPart(file, addr, DTHeader(length), 0, DT);
  }

  lemma {:induction false} TimestampTextFits()
    ensures TextBlock(TIMESTAMP).Size() <= MAX_ALLOC
    ensures TIMESTAMP[|TIMESTAMP| - 1] != 0
  {
  }

  /** The two channels divide a record between them: 64 bits of master time, then everything up to its end. */
  lemma {:induction false} ChannelsCoverRecord(scheme: Scheme, l: Layout)
    ensures
      var ts, payload := TimestampCN(l).data, PayloadCN(scheme, l).data;
      && |ts| == 48 && |payload| == 48
      && ts[0] == 2 && ts[1] == 1 && ts[2] == 4 && payload[0] == 0 && payload[2] == 10
      && Field(ts, 4, 4) == 0
      && Field(ts, 4, 4) * 8 + Field(ts, 8, 4) == Field(payload, 4, 4) * 8
      && Field(payload, 4, 4) * 8 + Field(payload, 8, 4) == RecordSize(scheme) * 8
  {
    hide PutLE, GetLE;
    var ts, payload := TimestampCN(l).data, PayloadCN(scheme, l).data;
    Pow256Values();
    GetPut(4, 0);
    GetPut(4, 64);
    GetPut(4, 8);
    GetPut(4, (RecordSize(scheme) - 8) * 8);
    assert ts[4..8] == PutLE(4, 0) && ts[8..12] == PutLE(4, 64);
    assert payload[4..8] == PutLE(4, 8) && payload[8..12] == PutLE(4, (RecordSize(scheme) - 8) * 8);
  }
}
