/** The metadata in front of the records: which blocks the writer lays down, and where. */
module Mf4Layout {
  import opened Bytes
  import opened Mf4Format

  datatype Scheme = LayoutCAN | LayoutSignal

  const RECORD_ID_PRIMARY: nat := 1
  const RECORD_ID_VLSD: nat := 2
  const SIGNAL_RECORD_SIZE: nat := 32
  const CG_FLAG_VLSD: nat := 1
  const CG_FLAG_BUS: nat := 6

  function AcqName(scheme: Scheme): seq<Byte> {
    if scheme == LayoutCAN then CAN_DATA_FRAME else SIGNAL
  }

  function RecordSize(scheme: Scheme): nat {
    if scheme == LayoutCAN then CAN_RECORD_SIZE else SIGNAL_RECORD_SIZE
  }

  type Address = a: int | 0 <= a < TWO_63

  /** Absolute file offsets of the blocks. */
  datatype Layout = Layout(txPrimary: Address, txTimestamp: Address, txPayload: Address, cg1: Address, cg2: Address,
                           cnTs: Address, cnData: Address, dg: Address, dt: Address, dataStart: Address)

  function LayoutOf(scheme: Scheme): Layout {
    var tx := TextBlockSize(|AcqName(scheme)|);
    Layout(160, 160 + tx, 200 + tx, 200 + 2 * tx, 304 + 2 * tx,
           408 + 2 * tx, 544 + 2 * tx, 680 + 2 * tx, 744 + 2 * tx, 768 + 2 * tx)
  }

  // "4.11    ", "cantou  "
  const VERSION: seq<Byte> := [52, 46, 49, 49, 32, 32, 32, 32]
  const PROGRAM: seq<Byte> := [99, 97, 110, 116, 111, 117, 32, 32]

  function IDBlockTail(unfinalized: bool): (b: seq<Byte>)
    ensures |b| == ID_BLOCK_SIZE - 8
  {
    VERSION + PROGRAM + Zeros(4) + PutLE(2, 411) + Zeros(30) + PutLE(2, if unfinalized then 1 else 0) + Zeros(2)
  }

  /** WriteIDBlock */
  function IDBlock(unfinalized: bool): (b: seq<Byte>)
    ensures |b| == ID_BLOCK_SIZE
  {
    (if unfinalized then UNFINALIZED_MAGIC else FINALIZED_MAGIC) + IDBlockTail(unfinalized)
  }

  /** Where a reader of the format finds them: the magic, the version, and the flag of an unfinalized file. */
  lemma {:induction false} IDBlockFields(unfinalized: bool)
    ensures
      var b := IDBlock(unfinalized);
      && b[..8] == (if unfinalized then [85, 110, 70, 105, 110, 77, 70, 32] else [77, 68, 70, 32, 32, 32, 32, 32])
      && b[8..12] == [52, 46, 49, 49] && Field(b, 28, 2) == 411 && Field(b, 60, 2) == if unfinalized then 1 else 0
  {
    var b, v, u := IDBlock(unfinalized), PutLE(2, 411), PutLE(2, if unfinalized then 1 else 0);
    Pow256Values();
    GetPut(2, 411);
    GetPut(2, if unfinalized then 1 else 0);
    hide PutLE;
    assert b[8..12] == VERSION[..4];
    IDBlockPieces((if unfinalized then UNFINALIZED_MAGIC else FINALIZED_MAGIC) + (VERSION + PROGRAM + Zeros(4)), v, u);
    assert b == (if unfinalized then UNFINALIZED_MAGIC else FINALIZED_MAGIC) + (VERSION + PROGRAM + Zeros(4))
      + v + Zeros(30) + u + Zeros(2);
  }

  lemma {:induction false} IDBlockPieces(front: seq<Byte>, v: seq<Byte>, u: seq<Byte>)
    requires |front| == 28 && |v| == |u| == 2
    ensures (front + v + Zeros(30) + u + Zeros(2))[28..30] == v && (front + v + Zeros(30) + u + Zeros(2))[60..62] == u
  {
  }

  function HDBlock(l: Layout): Block {
    Block([l.dg, 0, 0, 0, 0, 0], Zeros(24))
  }

  function CGData(recordID: nat, flags: nat, dataBytes: nat): (d: seq<Byte>)
    ensures |d| == 32
  {
    PutLE(8, recordID) + Zeros(8) + PutLE(2, flags) + Zeros(6) + PutLE(4, dataBytes) + Zeros(4)
  }

  function PrimaryCG(scheme: Scheme, l: Layout): Block {
    Block([l.cg2, l.cnTs, l.txPrimary, 0, 0, 0], CGData(RECORD_ID_PRIMARY, CG_FLAG_BUS, RecordSize(scheme)))
  }

  function VlsdCG(): Block {
    Block([0, 0, 0, 0, 0, 0], CGData(RECORD_ID_VLSD, CG_FLAG_VLSD, 0))
  }

  function TimestampCN(l: Layout): Block {
    Block([l.cnData, 0, l.txTimestamp, 0, 0, 0, 0, 0], [2, 1, 4, 0] + PutLE(4, 0) + PutLE(4, 64) + Zeros(36))
  }

  function PayloadCN(scheme: Scheme, l: Layout): Block {
    Block([0, 0, l.txPayload, 0, 0, 0, 0, 0],
          [0, 0, 10, 0] + PutLE(4, 8) + PutLE(4, (RecordSize(scheme) - 8) * 8) + Zeros(36))
  }

  function DGBlock(l: Layout): Block {
    Block([0, l.cg1, l.dt, 0], [1] + Zeros(7))
  }

  function DTHeader(length: nat): (h: seq<Byte>)
    ensures |h| == HEADER_SIZE
  {
    DT + Zeros(4) + PutLE(8, length) + Zeros(8)
  }

  /** Everything in front of the records, piece by piece in file order. */
  function Pieces(scheme: Scheme, idBlock: seq<Byte>, dtLength: nat): (p: seq<seq<Byte>>)
    ensures |p| == 11
  {
    var l := LayoutOf(scheme);
    [ idBlock,
      BlockBytes(HD, HDBlock(l)),
      BlockBytes(TX, TextBlock(AcqName(scheme))),
      BlockBytes(TX, TextBlock(TIMESTAMP)),
      BlockBytes(TX, TextBlock(AcqName(scheme))),
      BlockBytes(CG, PrimaryCG(scheme, l)),
      BlockBytes(CG, VlsdCG()),
      BlockBytes(CN, TimestampCN(l)),
      BlockBytes(CN, PayloadCN(scheme, l)),
      BlockBytes(DG, DGBlock(l)),
      DTHeader(dtLength) ]
  }

  // ------------------------------------------------------- pieces end to end

  function Concat(pieces: seq<seq<Byte>>): seq<Byte> {
    if pieces == [] then [] else Concat(pieces[..|pieces| - 1]) + pieces[|pieces| - 1]
  }

  /** Where the k-th piece starts. */
  function Start(pieces: seq<seq<Byte>>, k: nat): nat
    requires k <= |pieces|
  {
    if k == 0 then 0 else Start(pieces, k - 1) + |pieces[k - 1]|
  }

  lemma {:induction false} StartOfPrefix(pieces: seq<seq<Byte>>, n: nat, k: nat)
    requires k <= n <= |pieces|
    ensures Start(pieces[..n], k) == Start(pieces, k)
  {
    if k > 0 { StartOfPrefix(pieces, n, k - 1); }
  }

  lemma {:induction false} ConcatLength(pieces: seq<seq<Byte>>)
    ensures |Concat(pieces)| == Start(pieces, |pieces|)
  {
    if pieces != [] {
      var n := |pieces| - 1;
      ConcatLength(pieces[..n]);
      StartOfPrefix(pieces, n, n);
    }
  }

  lemma {:induction false} PieceHolds(pieces: seq<seq<Byte>>, k: nat, rest: seq<Byte>)
    requires k < |pieces|
    ensures Holds(Concat(pieces) + rest, Start(pieces, k), pieces[k])
  {
    var n := |pieces| - 1;
    var front := Concat(pieces[..n]);
    if k == n {
      ConcatLength(pieces[..n]);
      StartOfPrefix(pieces, n, n);
    } else {
      PieceHolds(pieces[..n], k, []);
      StartOfPrefix(pieces, n, k);
      assert front + [] == front;
      assert Holds(Concat(pieces) + rest, 0, front);
      HoldsPart(Concat(pieces) + rest, 0, front, Start(pieces, k), pieces[k]);
    }
  }

  /** Overwriting inside a piece changes that piece only. */
  lemma {:induction false} SplicePiece(pieces: seq<seq<Byte>>, k: nat, at: nat, b: seq<Byte>, rest: seq<Byte>)
    requires k < |pieces| && at + |b| <= |pieces[k]|
    ensures Start(pieces, k) + at + |b| <= |Concat(pieces) + rest|
    ensures Splice(Concat(pieces) + rest, Start(pieces, k) + at, b)
         == Concat(pieces[k := Splice(pieces[k], at, b)]) + rest
  {
    var n := |pieces| - 1;
    StartOfPrefix(pieces, n, k);
    if k == n {
      SpliceLast(pieces, at, b, rest);
    } else {
      SplicePiece(pieces[..n], k, at, b, pieces[n] + rest);
      SpliceFront(pieces, k, at, b, rest);
    }
  }

  lemma {:induction false} SpliceFront(pieces: seq<seq<Byte>>, k: nat, at: nat, b: seq<Byte>, rest: seq<Byte>)
    requires k < |pieces| - 1 && at + |b| <= |pieces[k]|
    requires
      var n := |pieces| - 1;
      var front, tail := pieces[..n], pieces[n] + rest;
      && Start(pieces, k) + at + |b| <= |Concat(front) + tail|
      && Splice(Concat(front) + tail, Start(pieces, k) + at, b)
      == Concat(front[k := Splice(pieces[k], at, b)]) + tail
    ensures Start(pieces, k) + at + |b| <= |Concat(pieces) + rest|
    ensures Splice(Concat(pieces) + rest, Start(pieces, k) + at, b)
         == Concat(pieces[k := Splice(pieces[k], at, b)]) + rest
  {
    hide Splice, Concat, Start;
    var changed := pieces[k := Splice(pieces[k], at, b)];
    assert changed[..|pieces| - 1] == pieces[..|pieces| - 1][k := changed[k]];
    ConcatSnoc(pieces, rest);
    ConcatSnoc(changed, rest);
  }

  lemma {:induction false} ConcatSnoc(pieces: seq<seq<Byte>>, rest: seq<Byte>)
    requires pieces != []
    ensures Concat(pieces) + rest == Concat(pieces[..|pieces| - 1]) + (pieces[|pieces| - 1] + rest)
  {
  }

  lemma {:induction false} SpliceLast(pieces: seq<seq<Byte>>, at: nat, b: seq<Byte>, rest: seq<Byte>)
    requires |pieces| > 0 && at + |b| <= |pieces[|pieces| - 1]|
    ensures
      var n := |pieces| - 1;
      && Start(pieces, n) + at + |b| <= |Concat(pieces) + rest|
      && Splice(Concat(pieces) + rest, Start(pieces, n) + at, b)
      == Concat(pieces[n := Splice(pieces[n], at, b)]) + rest
  {
    hide Splice;
    var n := |pieces| - 1;
    var front, changed := pieces[..n], pieces[n := Splice(pieces[n], at, b)];
    StartOfPrefix(pieces, n, n);
    ConcatLength(front);
    assert changed[..n] == front;
    SpliceMiddle(Concat(front), pieces[n], rest, at, b);
  }

  lemma {:induction false} SpliceMiddle(a: seq<Byte>, m: seq<Byte>, c: seq<Byte>, at: nat, b: seq<Byte>)
    requires at + |b| <= |m|
    ensures Splice((a + m) + c, |a| + at, b) == (a + Splice(m, at, b)) + c
  {
  }

  // -------------------------------------------------------- where pieces lie

  lemma {:induction false} PieceSizes(scheme: Scheme, idBlock: seq<Byte>, dtLength: nat)
    requires |idBlock| == ID_BLOCK_SIZE
    ensures
      var p := Pieces(scheme, idBlock, dtLength);
      var tx := TextBlockSize(|AcqName(scheme)|);
      && |p[0]| == 64 && |p[1]| == 96 && |p[2]| == tx && |p[3]| == 40 && |p[4]| == tx && |p[5]| == 104
      && |p[6]| == 104 && |p[7]| == 136 && |p[8]| == 136 && |p[9]| == 64 && |p[10]| == 24
  {
    hide BlockBytes, PutLE, DTHeader;
    var l := LayoutOf(scheme);
    assert HDBlock(l).Size() == 96 && PrimaryCG(scheme, l).Size() == 104 && VlsdCG().Size() == 104;
    assert TimestampCN(l).Size() == 136 && PayloadCN(scheme, l).Size() == 136 && DGBlock(l).Size() == 64;
    assert TextBlock(TIMESTAMP).Size() == 40;
  }

  /** The precomputed addresses are the true starts of their blocks: consecutive, without gap or overlap. */
  lemma {:induction false} AddressesAreStarts(scheme: Scheme, idBlock: seq<Byte>, dtLength: nat)
    requires |idBlock| == ID_BLOCK_SIZE
    ensures
      var p, l := Pieces(scheme, idBlock, dtLength), LayoutOf(scheme);
      && Start(p, 1) == ID_BLOCK_SIZE
      && Start(p, 2) == l.txPrimary && Start(p, 3) == l.txTimestamp && Start(p, 4) == l.txPayload
      && Start(p, 5) == l.cg1 && Start(p, 6) == l.cg2 && Start(p, 7) == l.cnTs && Start(p, 8) == l.cnData
      && Start(p, 9) == l.dg && Start(p, 10) == l.dt && Start(p, 11) == l.dataStart
  {
    hide Pieces;
    var p := Pieces(scheme, idBlock, dtLength);
    PieceSizes(scheme, idBlock, dtLength);
    assert Start(p, 1) == 64;
    assert Start(p, 2) == 160;
    assert Start(p, 4) == Start(p, 3) + 40;
    assert Start(p, 6) == Start(p, 5) + 104;
    assert Start(p, 8) == Start(p, 7) + 136;
    assert Start(p, 10) == Start(p, 9) + 64;
  }

  /** A file with this metadata and these record bytes; the ID block and the DT length may vary. */
  function FileWith(scheme: Scheme, idBlock: seq<Byte>, dtLength: nat, body: seq<Byte>): seq<Byte> {
    Concat(Pieces(scheme, idBlock, dtLength)) + body
  }

  lemma {:induction false} FileParts(scheme: Scheme, idBlock: seq<Byte>, dtLength: nat, body: seq<Byte>)
    requires |idBlock| == ID_BLOCK_SIZE
    ensures
      var l, file := LayoutOf(scheme), FileWith(scheme, idBlock, dtLength, body);
      && |file| == l.dataStart + |body|
      && file[l.dataStart..] == body
      && Holds(file, 0, idBlock)
      && Holds(file, ID_BLOCK_SIZE, BlockBytes(HD, HDBlock(l)))
      && Holds(file, l.txPrimary, BlockBytes(TX, TextBlock(AcqName(scheme))))
      && Holds(file, l.txTimestamp, BlockBytes(TX, TextBlock(TIMESTAMP)))
      && Holds(file, l.txPayload, BlockBytes(TX, TextBlock(AcqName(scheme))))
      && Holds(file, l.cg1, BlockBytes(CG, PrimaryCG(scheme, l)))
      && Holds(file, l.cg2, BlockBytes(CG, VlsdCG()))
      && Holds(file, l.cnTs, BlockBytes(CN, TimestampCN(l)))
      && Holds(file, l.cnData, BlockBytes(CN, PayloadCN(scheme, l)))
      && Holds(file, l.dg, BlockBytes(DG, DGBlock(l)))
      && Holds(file, l.dt, DTHeader(dtLength))
  {
    hide Concat, Start, Holds, BlockBytes, TextBlock, LayoutOf;
    var p := Pieces(scheme, idBlock, dtLength);
    AddressesAreStarts(scheme, idBlock, dtLength);
    ConcatLength(p);
    forall k | 0 <= k < 11
      ensures Holds(Concat(p) + body, Start(p, k), p[k])
    {
      PieceHolds(p, k, body);
    }
    assert Start(p, 0) == 0 by { StartZero(p); }
    assert p[0] == idBlock && p[1] == BlockBytes(HD, HDBlock(LayoutOf(scheme)));
  }

  lemma {:induction false} StartZero(p: seq<seq<Byte>>)
    ensures Start(p, 0) == 0
  {
  }
}
