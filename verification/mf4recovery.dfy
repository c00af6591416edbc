/** The two promises of the MF4 sink: files round-trip through the reader, and a crash leaves a valid stream. */
module Mf4Recovery {
  import opened Arithmetic
  import opened Bytes
  import opened Float64
  import opened Mf4Format
  import opened Mf4Layout
  import opened Mf4Log
  import opened Mf4Reader
  import opened Mf4Records
  import opened Mf4Stream
  import opened Mf4Walk
  import opened Options

  /** The file while it is being written. */
  function Unfinalized(scheme: Scheme, log: seq<Entry>): seq<Byte> {
    FileWith(scheme, IDBlock(true), HEADER_SIZE, Body(log))
  }

  /** The file after a finalizing Close. */
  function Finalized(scheme: Scheme, log: seq<Entry>): seq<Byte> {
    FileWith(scheme, IDBlock(false), HEADER_SIZE + |Body(log)|, Body(log))
  }

  // -------------------------------------------------------------- round trip

  /** What a reader should give back: the frames in order, with times relative to the first. */
  function Replayed(log: seq<Entry>): (r: seq<LogEntry>)
    requires AllAcceptable(LayoutCAN, log)
    ensures |r| == |log|
  {
    seq(|log|, i requires 0 <= i < |log| =>
      assert Acceptable(LayoutCAN, log[i]) && Acceptable(LayoutCAN, log[0]);
      Recorded(log[i], Some(log[i].data)).(offsetNs := Wrap64(Seen(log[i].tsNs) - Seen(log[0].tsNs))))
  }

  /** Decoding the first `cut` record bytes of a log. */
  lemma {:induction false} CutBodyRecovers(log: seq<Entry>, cut: nat)
    requires AllAcceptable(LayoutCAN, log) && cut <= |Body(log)| < TWO_63
    ensures EntriesOf(LayoutCAN, Body(log)[..cut]) == Recovered(log, cut)
  {
    hide GroupsOf, Index, LogRecs, DecodeAll, Recovered, Serialize;
    var dt, recs, groups := Body(log)[..cut], LogRecs(log, 0), GroupsOf(LayoutCAN);
    LogRecsWellFormed(LayoutCAN, log, 0);
    ScanInvertsSerialize(dt, 0, recs, 1, groups);
    VlsdTotalBound(log);
    DecodeRecovers(log, 0, cut, EMPTY_INDEX, Index(Visible(recs, 1, cut), 0, EMPTY_INDEX));
  }

  /** Record bytes of a log: 28 + len for each frame. */
  function LogBytes(log: seq<Entry>): nat
    requires AllAcceptable(LayoutCAN, log)
  {
    if log == [] then 0
    else
      assert Acceptable(LayoutCAN, log[0]);
      PRIMARY_BYTES + VLSD_HEAD_BYTES + |log[0].data| + LogBytes(log[1..])
  }

  lemma {:induction false} BodyLength(log: seq<Entry>, off: nat)
    requires AllAcceptable(LayoutCAN, log)
    ensures |Serialize(LogRecs(log, off), 1)| == LogBytes(log)
  {
    if log == [] {
      assert LogRecs(log, off) == [];
    } else {
      hide CanRecord, LogRecs, Primary, Serialize, RecBytes, Payload, Acceptable;
      assert Acceptable(LayoutCAN, log[0]);
      var e := log[0];
      PairLengths(e, off);
      SerializeTwo(log, off);
      BodyLength(log[1..], off + 4 + |e.data|);
    }
  }

  lemma {:induction false} PairLengths(e: Entry, off: nat)
    requires Acceptable(LayoutCAN, e)
    ensures |RecBytes(Fixed(RECORD_ID_PRIMARY, Primary(e, off)), 1)| == PRIMARY_BYTES
    ensures |RecBytes(Vlsd(RECORD_ID_VLSD, Payload(e)), 1)| == VLSD_HEAD_BYTES + |e.data|
    ensures e.CanFrame? && |Payload(e)| == |e.data|
  {
    hide Primary;
    PrimaryLength(e, off);
  }

  lemma {:induction false} PrimaryLength(e: Entry, off: nat)
    ensures |Primary(e, off)| == if e.CanFrame? then CAN_RECORD_SIZE else SIGNAL_RECORD_SIZE
  {
  }

  /** Every frame whose bytes were all written comes back whole. */
  lemma {:induction false} WrittenFramesSurvive(log: seq<Entry>, k: nat, cut: nat)
    requires AllAcceptable(LayoutCAN, log) && k <= |log| && LogBytes(log[..k]) <= cut
    ensures
      var r := Recovered(log, cut);
      && k <= |r|
      && forall i :: 0 <= i < k ==> log[i].CanFrame? && r[i] == Recorded(log[i], Some(log[i].data))
  {
    if k > 0 {
      hide Recorded;
      assert Acceptable(LayoutCAN, log[0]);
      assert log[..k][1..] == log[1..][..k - 1];
      WrittenFramesSurvive(log[1..], k - 1, cut - (PRIMARY_BYTES + VLSD_HEAD_BYTES + |log[0].data|));
    }
  }

  lemma {:induction false} RecoveredAll(log: seq<Entry>)
    requires AllAcceptable(LayoutCAN, log)
    ensures
      var all := Recovered(log, |Body(log)|);
      && |all| == |log|
      && forall i :: 0 <= i < |log| ==> log[i].CanFrame? && all[i] == Recorded(log[i], Some(log[i].data))
  {
    hide Recovered;
    BodyLength(log, 0);
    assert log[..|log|] == log;
    WrittenFramesSurvive(log, |log|, |Body(log)|);
    RecoveredIsPrefix(log, |Body(log)|);
  }

  lemma {:induction false} WholeBodyReplays(log: seq<Entry>)
    requires AllAcceptable(LayoutCAN, log) && |Body(log)| < TWO_63
    ensures Rebase(EntriesOf(LayoutCAN, Body(log))) == Replayed(log)
  {
    hide Recovered, EntriesOf, Body;
    var body := Body(log);
    assert body[..|body|] == body;
    CutBodyRecovers(log, |body|);
    RecoveredAll(log);
  }

  /** Writer and reader are inverses, whether or not the file was finalized. */
  lemma {:induction false} RoundTrip(log: seq<Entry>)
    requires AllAcceptable(LayoutCAN, log) && |Body(log)| < TWO_63
    ensures ParseFile(Unfinalized(LayoutCAN, log)) == Ok(Replayed(log))
    ensures |Body(log)| <= MAX_ALLOC ==> ParseFile(Finalized(LayoutCAN, log)) == Ok(Replayed(log))
  {
    hide Body, Replayed, ParseFile, FileWith, EntriesOf;
    WholeBodyReplays(log);
    LaidOutFileRead(LayoutCAN, IDBlock(true), HEADER_SIZE, Body(log));
    if |Body(log)| <= MAX_ALLOC {
      LaidOutFileRead(LayoutCAN, IDBlock(false), HEADER_SIZE + |Body(log)|, Body(log));
    }
  }

  /** Identifiers are kept in 29 bits: a larger one, which AppendCAN accepts, comes back as its remainder. */
  lemma {:induction false} IDExactIff(log: seq<Entry>, i: nat)
    requires AllAcceptable(LayoutCAN, log) && i < |log|
    ensures Replayed(log)[i].id == log[i].canID % 0x2000_0000
    ensures Replayed(log)[i].id == log[i].canID <==> log[i].canID < 0x2000_0000
  {
    hide Seen;
  }

  /** Within 2^53 ns the offsets are exactly the differences of the written times. */
  lemma {:induction false} OffsetsExact(log: seq<Entry>, i: nat)
    requires AllAcceptable(LayoutCAN, log) && i < |log|
    requires -TWO_53 <= log[0].tsNs <= TWO_53 && -TWO_53 <= log[i].tsNs <= TWO_53
    ensures Replayed(log)[i].offsetNs == log[i].tsNs - log[0].tsNs
  {
    hide Seen;
    SeenExactBelow53(log[0].tsNs);
    SeenExactBelow53(log[i].tsNs);
  }

  /** Unix-nanosecond times do not fit a float64 exactly; until 2043 an offset is off by at most 256 ns. */
  lemma {:induction false} OffsetsWithin256(log: seq<Entry>, i: nat)
    requires AllAcceptable(LayoutCAN, log) && i < |log|
    requires 0 <= log[0].tsNs < TWO_63 / 4 && 0 <= log[i].tsNs < TWO_63 / 4
    ensures -256 <= Replayed(log)[i].offsetNs - (log[i].tsNs - log[0].tsNs) <= 256
  {
    hide Seen;
    SeenErrorBelow61(log[0].tsNs);
    SeenErrorBelow61(log[i].tsNs);
  }

  /** And they can be off: two frames 100 ns apart at a 2023 Unix time come back as simultaneous. */
  lemma {:induction false} OffsetsNotAlwaysExact()
    ensures
      var log := [CanFrame(1_700_000_000_000_000_000, 1, false, []), CanFrame(1_700_000_000_000_000_100, 1, false, [])];
      && AllAcceptable(LayoutCAN, log)
      && Replayed(log)[1].offsetNs == 0
  {
    hide Replayed;
    var log := [CanFrame(1_700_000_000_000_000_000, 1, false, []), CanFrame(1_700_000_000_000_000_100, 1, false, [])];
    SeenIn2023(1_700_000_000_000_000_000);
    SeenIn2023(1_700_000_000_000_000_100);
    SimultaneousEntries(log);
  }

  lemma {:induction false} SimultaneousEntries(log: seq<Entry>)
    requires AllAcceptable(LayoutCAN, log) && |log| == 2
    requires Seen(log[0].tsNs) == Seen(log[1].tsNs)
    ensures Replayed(log)[1].offsetNs == 0
  {
  }

  /** 1.7e18 is a multiple of its float64 spacing 256; what lies less than 128 above rounds back to it. */
  lemma {:induction false} SeenIn2023(n: Int64)
    requires 1_700_000_000_000_000_000 <= n < 1_700_000_000_000_000_128
    ensures Seen(n) == 1_700_000_000_000_000_000
  {
    hide RoundHalfEven;
    Pow2Values();
    assert Pow2(61) == 2 * Pow2(60);
    TopBitUnique(n, 60);
    RoundsDown(n);
  }

  lemma {:induction false} RoundsDown(n: nat)
    requires 1_700_000_000_000_000_000 <= n < 1_700_000_000_000_000_128
    ensures RoundHalfEven(n, 256) == 6_640_625_000_000_000
  {
  }

  /**
   * An offset comes back right, in wrapping int64 arithmetic, exactly when float64 rounding shifts its own time
   * and the first one alike. It is the true difference exactly when that difference also fits an int64.
   */
  lemma {:induction false} OffsetExactIff(log: seq<Entry>, i: nat)
    requires AllAcceptable(LayoutCAN, log) && i < |log|
    ensures Replayed(log)[i].offsetNs == Wrap64(log[i].tsNs - log[0].tsNs)
      <==> TimeError(log[i].tsNs) == TimeError(log[0].tsNs)
    ensures Replayed(log)[i].offsetNs == log[i].tsNs - log[0].tsNs
      <==> TimeError(log[i].tsNs) == TimeError(log[0].tsNs) && -TWO_63 <= log[i].tsNs - log[0].tsNs < TWO_63
  {
    hide Seen, TimeError, Wrap64;
    OffsetIs(log, i);
    SeenIsShifted(log[0].tsNs);
    SeenIsShifted(log[i].tsNs);
    var a, b := log[i].tsNs, log[0].tsNs;
    WrapTwice(a + TimeError(a), 0 - Seen(b));
    WrapTwice(b + TimeError(b), a + TimeError(a));
    WrapApart(a + TimeError(a) - (b + TimeError(b)), a - b);
  }

  lemma {:induction false} OffsetIs(log: seq<Entry>, i: nat)
    requires AllAcceptable(LayoutCAN, log) && i < |log|
    ensures Replayed(log)[i].offsetNs == Wrap64(Seen(log[i].tsNs) - Seen(log[0].tsNs))
  {
    hide Seen, Wrap64;
  }

  /** So times of the same spacing keep their distance exactly when they leave the same remainder by it. */
  lemma {:induction false} OffsetExactSameSpacing(log: seq<Entry>, i: nat)
    requires AllAcceptable(LayoutCAN, log) && i < |log|
    requires Ulp(Magnitude(log[0].tsNs)) == Ulp(Magnitude(log[i].tsNs))
    ensures
      var a, b, u := log[i].tsNs, log[0].tsNs, Ulp(Magnitude(log[0].tsNs));
      var alike := a % u == b % u && (2 * (a % u) == u ==> a / u % 2 == b / u % 2);
      && (Replayed(log)[i].offsetNs == Wrap64(a - b) <==> alike)
      && (Replayed(log)[i].offsetNs == a - b <==> alike && -TWO_63 <= a - b < TWO_63)
  {
    hide Replayed, TimeError, Ulp;
    OffsetExactIff(log, i);
    SameErrorIff(log[i].tsNs, log[0].tsNs);
  }

  // ------------------------------------------------------------ crash safety

  lemma {:induction false} CutFile(scheme: Scheme, idBlock: seq<Byte>, dtLength: nat, body: seq<Byte>, cut: nat)
    requires |idBlock| == ID_BLOCK_SIZE
    requires LayoutOf(scheme).dataStart <= cut <= |FileWith(scheme, idBlock, dtLength, body)|
    ensures cut - LayoutOf(scheme).dataStart <= |body|
    ensures FileWith(scheme, idBlock, dtLength, body)[..cut]
         == FileWith(scheme, idBlock, dtLength, body[..cut - LayoutOf(scheme).dataStart])
  {
    hide Pieces, Concat, LayoutOf, Start;
    ConcatLength(Pieces(scheme, idBlock, dtLength));
    AddressesAreStarts(scheme, idBlock, dtLength);
  }

  /**
   * Whatever part of the record bytes made it to disk before a crash, the reader returns the frames whose
   * primary record is whole, in order; only the last may lack its payload, and none gets a wrong one.
   */
  lemma {:induction false} CrashSafe(log: seq<Entry>, cut: nat)
    requires AllAcceptable(LayoutCAN, log) && |Body(log)| < TWO_63
    requires LayoutOf(LayoutCAN).dataStart <= cut <= |Unfinalized(LayoutCAN, log)|
    ensures
      var rest := cut - LayoutOf(LayoutCAN).dataStart;
      && rest <= |Body(log)|
      && ParseFile(Unfinalized(LayoutCAN, log)[..cut]) == Ok(Rebase(Recovered(log, rest)))
  {
    hide FileWith, ParseFile, EntriesOf, Recovered, Body, LayoutOf;
    var rest := cut - LayoutOf(LayoutCAN).dataStart;
    CutFile(LayoutCAN, IDBlock(true), HEADER_SIZE, Body(log), cut);
    LaidOutFileRead(LayoutCAN, IDBlock(true), HEADER_SIZE, Body(log)[..rest]);
    CutBodyRecovers(log, rest);
  }

  /** Recovered frames are a prefix of the log, right in every field; at most the last has lost its payload. */
  lemma {:induction false} RecoveredIsPrefix(log: seq<Entry>, cut: nat)
    requires AllAcceptable(LayoutCAN, log)
    ensures
      var r := Recovered(log, cut);
      && |r| <= |log|
      && forall i :: 0 <= i < |r| ==>
           log[i].CanFrame? &&
           (r[i] == Recorded(log[i], Some(log[i].data)) || (i == |r| - 1 && r[i] == Recorded(log[i], None)))
  {
    hide Recorded;
    if log != [] {
      assert Acceptable(LayoutCAN, log[0]);
      var n := PRIMARY_BYTES + VLSD_HEAD_BYTES + |log[0].data|;
      if cut >= n { RecoveredIsPrefix(log[1..], cut - n); }
    }
  }

  /** The same in terms of a full replay: a prefix of it, complete up to the bytes that were written. */
  lemma {:induction false} CrashLeavesPrefix(log: seq<Entry>, cut: nat, k: nat)
    requires AllAcceptable(LayoutCAN, log) && |Body(log)| < TWO_63
    requires LayoutOf(LayoutCAN).dataStart <= cut <= |Unfinalized(LayoutCAN, log)|
    requires k <= |log| && LogBytes(log[..k]) <= cut - LayoutOf(LayoutCAN).dataStart
    ensures
      var r := ParseFile(Unfinalized(LayoutCAN, log)[..cut]);
      && r.Ok? && k <= |r.value| <= |log|
      && (forall i :: 0 <= i < k ==> r.value[i] == Replayed(log)[i])
      && (forall i :: 0 <= i < |r.value| ==>
            r.value[i] == Replayed(log)[i]
            || (i == |r.value| - 1 && r.value[i] == Replayed(log)[i].(data := None)))
  {
    hide ParseFile, Unfinalized, LayoutOf, Recovered, LogBytes, Body;
    var rest := cut - LayoutOf(LayoutCAN).dataStart;
    CrashSafe(log, cut);
    RecoveredIsPrefix(log, rest);
    WrittenFramesSurvive(log, k, rest);
    RebasedPrefix(log, Recovered(log, rest), k);
  }

  lemma {:induction false} RebasedPrefix(log: seq<Entry>, r: seq<LogEntry>, k: nat)
    requires AllAcceptable(LayoutCAN, log) && k <= |r| <= |log|
    requires forall i :: 0 <= i < |log| ==> log[i].CanFrame?
    requires forall i :: 0 <= i < k ==> r[i] == Recorded(log[i], Some(log[i].data))
    requires forall i :: 0 <= i < |r| ==>
      r[i] == Recorded(log[i], Some(log[i].data)) || (i == |r| - 1 && r[i] == Recorded(log[i], None))
    ensures forall i :: 0 <= i < k ==> Rebase(r)[i] == Replayed(log)[i]
    ensures forall i :: 0 <= i < |r| ==>
      Rebase(r)[i] == Replayed(log)[i] || (i == |r| - 1 && Rebase(r)[i] == Replayed(log)[i].(data := None))
  {
    forall i | 0 <= i < |r|
      ensures Rebase(r)[i] == Replayed(log)[i].(data := r[i].data)
    {
    }
  }

  lemma {:induction false} ReadPastEnd(file: seq<Byte>, addr: int)
    requires addr > |file| - HEADER_SIZE
    ensures BlockAt(file, addr) == Failed && ReadDTData(file, addr) == Failed
  {
  }

  lemma {:induction false} CutField(file: seq<Byte>, at: nat, cut: nat)
    requires at + 8 <= cut <= |file|
    ensures Uint64At(file[..cut], at) == Uint64At(file, at)
  {
    SubSlice(file, 0, cut, at, at + 8);
  }

  lemma {:induction false} CutBlockFails(file: seq<Byte>, addr: nat, id: seq<Byte>, b: Block, cut: nat)
    requires |id| == 4 && b.Size() <= MAX_ALLOC && Holds(file, addr, BlockBytes(id, b))
    requires cut < addr + b.Size() && cut <= |file|
    ensures BlockAt(file[..cut], addr) == Failed
  {
    hide LinksAt, BlockBytes, Uint64At;
    HeaderHolds(file, addr, id, b);
    if addr + HEADER_SIZE <= cut {
      CutField(file, addr + 8, cut);
      CutField(file, addr + 16, cut);
    }
  }

  lemma {:induction false} HoldsCut(file: seq<Byte>, addr: int, bytes: seq<Byte>, cut: nat)
    requires Holds(file, addr, bytes) && addr + |bytes| <= cut <= |file|
    ensures Holds(file[..cut], addr, bytes)
  {
    SubSlice(file, 0, cut, addr, addr + |bytes|);
  }

  /** A crash before the last metadata block is written leaves a file the reader refuses. */
  lemma {:induction false} CrashInGroupsFails(file: seq<Byte>, scheme: Scheme, cut: nat)
    requires MetadataIn(file, scheme) && cut <= |file| && cut < LayoutOf(scheme).dt
    ensures ParseFile(file[..cut]) == Failed
  {
    hide BlockBytes, DataGroup, CGData, TextBlock, BlockAt;
    var l := LayoutOf(scheme);
    if ID_BLOCK_SIZE <= cut {
      if cut < l.txPrimary {
        CutBlockFails(file, ID_BLOCK_SIZE, HD, HDBlock(l), cut);
      } else {
        HoldsCut(file, ID_BLOCK_SIZE, BlockBytes(HD, HDBlock(l)), cut);
        ReadBlockInverts(file[..cut], ID_BLOCK_SIZE, HD, HDBlock(l));
        CutBlockFails(file, l.dg, DG, DGBlock(l), cut);
        DataGroupFails(file[..cut], l);
      }
    }
  }

  /** And so does one within the last, the header of the record bytes, of a CAN file. */
  lemma {:induction false} CrashInMetadataFails(file: seq<Byte>, cut: nat)
    requires MetadataIn(file, LayoutCAN) && cut <= |file| && cut < LayoutOf(LayoutCAN).dataStart
    ensures ParseFile(file[..cut]) == Failed
  {
    hide MetadataIn, ParseFile;
    if cut < LayoutOf(LayoutCAN).dt {
      CrashInGroupsFails(file, LayoutCAN, cut);
    } else {
      MetadataCut(file, LayoutCAN, cut);
      FileRead(file[..cut], LayoutCAN);
      ReadPastEnd(file[..cut], LayoutOf(LayoutCAN).dt);
    }
  }

  lemma {:induction false} DataGroupFails(file: seq<Byte>, l: Layout)
    requires BlockAt(file, ID_BLOCK_SIZE) == Ok(HDBlock(l)) && BlockAt(file, l.dg) == Failed && l.dg > 0
    requires |file| >= ID_BLOCK_SIZE
    ensures ParseFile(file) == Failed
  {
    hide BlockAt;
    assert HDBlock(l).links[0] == l.dg;
    assert DataGroup(file, l.dg) == Failed;
  }

  lemma {:induction false} MetadataCut(file: seq<Byte>, scheme: Scheme, cut: nat)
    requires MetadataIn(file, scheme) && LayoutOf(scheme).dt <= cut <= |file|
    ensures MetadataIn(file[..cut], scheme)
  {
    hide BlockBytes, CGData, Holds;
    var l := LayoutOf(scheme);
    HoldsCut(file, ID_BLOCK_SIZE, BlockBytes(HD, HDBlock(l)), cut);
    HoldsCut(file, l.txPrimary, BlockBytes(TX, TextBlock(AcqName(scheme))), cut);
    HoldsCut(file, l.cg1, BlockBytes(CG, PrimaryCG(scheme, l)), cut);
    HoldsCut(file, l.cg2, BlockBytes(CG, VlsdCG()), cut);
    HoldsCut(file, l.dg, BlockBytes(DG, DGBlock(l)), cut);
  }

  /** So a CAN file cut anywhere is readable exactly when its metadata is complete. */
  lemma {:induction false} ReadableIffMetadataComplete(log: seq<Entry>, cut: nat)
    requires AllAcceptable(LayoutCAN, log) && |Body(log)| < TWO_63 && cut <= |Unfinalized(LayoutCAN, log)|
    ensures ParseFile(Unfinalized(LayoutCAN, log)[..cut]).Ok? <==> cut >= LayoutOf(LayoutCAN).dataStart
  {
    hide ParseFile, FileWith, MetadataIn, LayoutOf;
    if cut >= LayoutOf(LayoutCAN).dataStart {
      CrashSafe(log, cut);
    } else {
      FileHasMetadata(LayoutCAN, IDBlock(true), HEADER_SIZE, Body(log));
      CrashInMetadataFails(Unfinalized(LayoutCAN, log), cut);
    }
  }

  // ------------------------------------------------------------ finalization

  /** The finalizing writes: the DT length, the magic, the flag. Each stage is what the previous one becomes. */
  function Stage(scheme: Scheme, log: seq<Entry>, n: nat): seq<Byte>
    requires n <= 3
  {
    FileWith(scheme,
             (if n < 2 then UNFINALIZED_MAGIC else FINALIZED_MAGIC) + IDBlockTail(n < 3),
             if n < 1 then HEADER_SIZE else HEADER_SIZE + |Body(log)|,
             Body(log))
  }

  lemma {:induction false} StageEnds(scheme: Scheme, log: seq<Entry>)
    ensures Stage(scheme, log, 0) == Unfinalized(scheme, log)
    ensures Stage(scheme, log, 3) == Finalized(scheme, log)
  {
  }

  lemma {:induction false} StageIDBlock(unfinalized: bool)
    ensures Splice(UNFINALIZED_MAGIC + IDBlockTail(true), 0, FINALIZED_MAGIC) == FINALIZED_MAGIC + IDBlockTail(true)
    ensures Splice(FINALIZED_MAGIC + IDBlockTail(true), 60, [0, 0]) == FINALIZED_MAGIC + IDBlockTail(false)
  {
    var b := FINALIZED_MAGIC + IDBlockTail(true);
    assert PutLE(2, 0) == [0, 0];
    var front := FINALIZED_MAGIC + (VERSION + PROGRAM + Zeros(4) + PutLE(2, 411) + Zeros(30));
    assert b == front + PutLE(2, 1) + Zeros(2);
    assert b[..60] == front && b[62..] == Zeros(2);
    assert FINALIZED_MAGIC + IDBlockTail(false) == front + PutLE(2, 0) + Zeros(2);
  }

  lemma {:induction false} StageDTHeader(a: nat, b: nat)
    ensures Splice(DTHeader(a), 8, PutLE(8, b)) == DTHeader(b)
  {
    hide PutLE;
    assert DTHeader(a)[..8] == DT + Zeros(4);
    assert DTHeader(a)[16..] == Zeros(8);
  }

  /** Each in-place write turns one stage into the next. */
  lemma {:induction false} WritesAdvanceStages(scheme: Scheme, log: seq<Entry>)
    ensures LayoutOf(scheme).dt + 16 <= |Stage(scheme, log, 0)|
    ensures Splice(Stage(scheme, log, 0), LayoutOf(scheme).dt + 8, PutLE(8, HEADER_SIZE + |Body(log)|))
         == Stage(scheme, log, 1)
    ensures 62 <= |Stage(scheme, log, 1)|
    ensures Splice(Stage(scheme, log, 1), 0, FINALIZED_MAGIC) == Stage(scheme, log, 2)
    ensures 62 <= |Stage(scheme, log, 2)|
    ensures Splice(Stage(scheme, log, 2), 60, [0, 0]) == Stage(scheme, log, 3)
  {
    StageOne(scheme, log);
    StageTwo(scheme, log);
    StageThree(scheme, log);
  }

  lemma {:induction false} StageOne(scheme: Scheme, log: seq<Entry>)
    ensures LayoutOf(scheme).dt + 16 <= |Stage(scheme, log, 0)|
    ensures Splice(Stage(scheme, log, 0), LayoutOf(scheme).dt + 8, PutLE(8, HEADER_SIZE + |Body(log)|))
         == Stage(scheme, log, 1)
  {
    hide Concat, Start, Body, Splice, PutLE, BlockBytes, DTHeader, LayoutOf, IDBlockTail;
    var idBlock, n := UNFINALIZED_MAGIC + IDBlockTail(true), HEADER_SIZE + |Body(log)|;
    var p := Pieces(scheme, idBlock, HEADER_SIZE);
    AddressesAreStarts(scheme, idBlock, HEADER_SIZE);
    StageDTHeader(HEADER_SIZE, n);
    SplicePiece(p, 10, 8, PutLE(8, n), Body(log));
    assert p[10 := DTHeader(n)] == Pieces(scheme, idBlock, n);
  }

  lemma {:induction false} IDBlockSplice(
      scheme: Scheme, idBlock: seq<Byte>, length: nat, at: nat, b: seq<Byte>, body: seq<Byte>)
    requires |idBlock| == ID_BLOCK_SIZE && at + |b| <= ID_BLOCK_SIZE
    ensures ID_BLOCK_SIZE <= |FileWith(scheme, idBlock, length, body)|
    ensures Splice(FileWith(scheme, idBlock, length, body), at, b)
         == FileWith(scheme, Splice(idBlock, at, b), length, body)
  {
    hide Concat, Start, Splice, BlockBytes, DTHeader, LayoutOf;
    var p := Pieces(scheme, idBlock, length);
    StartZero(p);
    SplicePiece(p, 0, at, b, body);
    PieceHolds(p, 0, body);
    assert p[0 := Splice(idBlock, at, b)] == Pieces(scheme, Splice(idBlock, at, b), length);
  }

  lemma {:induction false} StageTwo(scheme: Scheme, log: seq<Entry>)
    ensures 62 <= |Stage(scheme, log, 1)|
    ensures Splice(Stage(scheme, log, 1), 0, FINALIZED_MAGIC) == Stage(scheme, log, 2)
  {
    hide FileWith, Body, Splice, IDBlockTail;
    StageIDBlock(true);
    var length := HEADER_SIZE + |Body(log)|;
    IDBlockSplice(scheme, UNFINALIZED_MAGIC + IDBlockTail(true), length, 0, FINALIZED_MAGIC, Body(log));
  }

  lemma {:induction false} StageThree(scheme: Scheme, log: seq<Entry>)
    ensures 62 <= |Stage(scheme, log, 2)|
    ensures Splice(Stage(scheme, log, 2), 60, [0, 0]) == Stage(scheme, log, 3)
  {
    hide FileWith, Body, Splice, IDBlockTail;
    StageIDBlock(true);
    var length := HEADER_SIZE + |Body(log)|;
    IDBlockSplice(scheme, FINALIZED_MAGIC + IDBlockTail(true), length, 60, [0, 0], Body(log));
  }

  /** At every stage of finalization the file is recognised as MF4 and parses to the same entries. */
  lemma {:induction false} StagesReadTheSame(scheme: Scheme, log: seq<Entry>, n: nat)
    requires n <= 3 && |Body(log)| <= MAX_ALLOC
    ensures ParseFile(Stage(scheme, log, n)) == ParseFile(Unfinalized(scheme, log))
    ensures IsMF4File(Stage(scheme, log, n))
  {
    hide ParseFile, FileWith, Body, IDBlockTail;
    var magic := if n < 2 then UNFINALIZED_MAGIC else FINALIZED_MAGIC;
    var idBlock := magic + IDBlockTail(n < 3);
    var length := if n < 1 then HEADER_SIZE else HEADER_SIZE + |Body(log)|;
    LaidOutFileRead(scheme, idBlock, length, Body(log));
    LaidOutFileRead(scheme, IDBlock(true), HEADER_SIZE, Body(log));
    RecognisedByMagic(scheme, magic, IDBlockTail(n < 3), length, Body(log));
  }

  lemma {:induction false} RecognisedByMagic(
      scheme: Scheme, magic: seq<Byte>, tail: seq<Byte>, length: nat, body: seq<Byte>)
    requires magic == UNFINALIZED_MAGIC || magic == FINALIZED_MAGIC
    requires |tail| == ID_BLOCK_SIZE - 8
    ensures IsMF4File(FileWith(scheme, magic + tail, length, body))
  {
    hide FileWith;
    var file := FileWith(scheme, magic + tail, length, body);
    FileStarts(scheme, magic + tail, length, body);
    SubSlice(file, 0, ID_BLOCK_SIZE, 0, 8);
    assert file[0..8] == magic;
  }

  lemma {:induction false} FileStarts(scheme: Scheme, idBlock: seq<Byte>, length: nat, body: seq<Byte>)
    requires |idBlock| == ID_BLOCK_SIZE
    ensures Holds(FileWith(scheme, idBlock, length, body), 0, idBlock)
  {
    hide Concat, BlockBytes, DTHeader, LayoutOf;
    StartZero(Pieces(scheme, idBlock, length));
    PieceHolds(Pieces(scheme, idBlock, length), 0, body);
  }

  /** Crash safety belongs to the unfinalized form alone: a finalized file that loses any record byte is refused. */
  lemma {:induction false} CutFinalizedFails(log: seq<Entry>, cut: nat)
    requires AllAcceptable(LayoutCAN, log) && 0 < |Body(log)| <= MAX_ALLOC
    requires LayoutOf(LayoutCAN).dataStart <= cut < |Finalized(LayoutCAN, log)|
    ensures ParseFile(Finalized(LayoutCAN, log)[..cut]) == Failed
  {
    hide ParseFile, FileWith, Body, MetadataIn, LayoutOf, ReadDTData, DTHeader, BlockBytes;
    var l, n, body := LayoutOf(LayoutCAN), HEADER_SIZE + |Body(log)|, Body(log);
    var rest := cut - l.dataStart;
    CutFile(LayoutCAN, IDBlock(false), n, body, cut);
    var file := FileWith(LayoutCAN, IDBlock(false), n, body[..rest]);
    FileHasMetadata(LayoutCAN, IDBlock(false), n, body[..rest]);
    FileRead(file, LayoutCAN);
    FileParts(LayoutCAN, IDBlock(false), n, body[..rest]);
    FileParts(LayoutCAN, IDBlock(false), n, body);
    HeaderEndsLayout(LayoutCAN);
    ShortDTFails(file, l.dt, n);
  }

  /** So a finalized file, cut anywhere, is readable exactly when nothing is missing. */
  lemma {:induction false} FinalizedReadableIffWhole(log: seq<Entry>, cut: nat)
    requires AllAcceptable(LayoutCAN, log) && |Body(log)| <= MAX_ALLOC && cut <= |Finalized(LayoutCAN, log)|
    ensures ParseFile(Finalized(LayoutCAN, log)[..cut]).Ok? <==> cut == |Finalized(LayoutCAN, log)|
  {
    hide ParseFile, FileWith, Body, MetadataIn, LayoutOf;
    var file := Finalized(LayoutCAN, log);
    if cut == |file| {
      assert file[..cut] == file;
      RoundTrip(log);
    } else if cut < LayoutOf(LayoutCAN).dataStart {
      FileHasMetadata(LayoutCAN, IDBlock(false), HEADER_SIZE + |Body(log)|, Body(log));
      CrashInMetadataFails(file, cut);
    } else {
      FileParts(LayoutCAN, IDBlock(false), HEADER_SIZE + |Body(log)|, Body(log));
      CutFinalizedFails(log, cut);
    }
  }

  /** Nor does anything that follows a finalized file change what it says: its DT block has a declared end. */
  lemma {:induction false} FinalizedIgnoresTail(log: seq<Entry>, rest: seq<Byte>)
    requires AllAcceptable(LayoutCAN, log) && 0 < |Body(log)| <= MAX_ALLOC
    ensures ParseFile(Finalized(LayoutCAN, log) + rest) == Ok(Replayed(log))
  {
    hide ParseFile, FileWith, Body, MetadataIn, LayoutOf, ReadDTData, EntriesOf, Replayed;
    var file, n := Finalized(LayoutCAN, log), HEADER_SIZE + |Body(log)|;
    FileHasMetadata(LayoutCAN, IDBlock(false), n, Body(log));
    MetadataLonger(file, LayoutCAN, rest);
    FileRead(file + rest, LayoutCAN);
    FileDTRead(LayoutCAN, IDBlock(false), n, Body(log));
    DeclaredLength(log);
    DTDataBounded(file, LayoutOf(LayoutCAN).dt, rest);
    WholeBodyReplays(log);
  }

  lemma {:induction false} DeclaredLength(log: seq<Entry>)
    requires |Body(log)| <= MAX_ALLOC
    ensures
      var file, at := Finalized(LayoutCAN, log), LayoutOf(LayoutCAN).dt;
      Inside(file, at, HEADER_SIZE) && Uint64At(file, at + 8) == HEADER_SIZE + |Body(log)|
  {
    hide FileWith, Body, LayoutOf, DTHeader, BlockBytes, Uint64At;
    var file, n := Finalized(LayoutCAN, log), HEADER_SIZE + |Body(log)|;
    FileParts(LayoutCAN, IDBlock(false), n, Body(log));
    DTHeaderRead(file, LayoutOf(LayoutCAN).dt, n);
  }

  lemma {:induction false} HeaderEndsLayout(scheme: Scheme)
    ensures LayoutOf(scheme).dataStart == LayoutOf(scheme).dt + HEADER_SIZE
  {
  }

  lemma {:induction false} ShortDTFails(file: seq<Byte>, at: int, length: nat)
    requires Holds(file, at, DTHeader(length))
    requires HEADER_SIZE < length <= HEADER_SIZE + MAX_ALLOC && |file| < at + length
    ensures ReadDTData(file, at) == Failed
  {
    DTHeaderRead(file, at, length);
  }

  // ------------------------------------------------------------ signal files

  /** From the bytes of a signal file: the offset stored in the i-th record leads to its own three names. */
  lemma {:induction false} SignalNamesRecovered(log: seq<Entry>, i: nat)
    requires AllAcceptable(LayoutSignal, log) && |Body(log)| < TWO_63 && i < |log|
    ensures log[i].Sample? && LogRecs(log, 0)[2 * i].Fixed? && |LogRecs(log, 0)[2 * i].body| == SIGNAL_RECORD_SIZE
    ensures
      var idx := CollectedIndex(Body(log), 1, GroupsOf(LayoutSignal));
      var text := idx.Lookup(Uint64At(LogRecs(log, 0)[2 * i].body, 24), |Payload(log[i])|);
      text.Some? && SplitNul(text.value) == [log[i].message, log[i].signal, log[i].unit]
  {
    hide Primary, LogRecs, GroupsOf, SplitNul;
    var recs, e := LogRecs(log, 0), log[i];
    assert Acceptable(LayoutSignal, e);
    PrimaryPointsToNext(log, i);
    LogRecsWellFormed(LayoutSignal, log, 0);
    IndexIsRunningSum(recs, 1, GroupsOf(LayoutSignal));
    VlsdTotalBound(log);
    OffsetBelowTotal(recs, 2 * i + 1);
    PrimaryOfSample(e, RawOffset(recs, 2 * i + 1));
    SignalRecordFields(e.tsNs, e.value, e.iface, e.canID, RawOffset(recs, 2 * i + 1));
    LabelSplits(e.message, e.signal, e.unit);
  }

  lemma {:induction false} PrimaryOfSample(e: Entry, off: nat)
    requires e.Sample?
    ensures Primary(e, off) == SignalRecord(e.tsNs, e.value, e.iface, e.canID, off)
  {
  }

  lemma {:induction false} OffsetBelowTotal(recs: seq<Rec>, k: nat)
    requires k < |recs| && !recs[k].Fixed?
    ensures RawOffset(recs, k) <= RawOffset(recs, |recs|)
  {
    RawOffsetIncreases(recs, k, |recs|);
  }

  /**
   * The playback reader finds no CAN frames in a signal file, finalized or not. It never looks at the record
   * bytes, so any part of the file that reaches the end of the group blocks will do, and no shorter one.
   */
  lemma {:induction false} SignalFileHasNoFrames(log: seq<Entry>, finalized: bool, cut: nat)
    requires
      var file := if finalized then Finalized(LayoutSignal, log) else Unfinalized(LayoutSignal, log);
      cut <= |file|
    ensures
      var file := if finalized then Finalized(LayoutSignal, log) else Unfinalized(LayoutSignal, log);
      && ParseFile(file) == Ok([])
      && ParseFile(file[..cut]) == if cut < LayoutOf(LayoutSignal).dt then Failed else Ok([])
  {
    hide FileWith, ParseFile, MetadataIn, Body, LayoutOf;
    var file := if finalized then Finalized(LayoutSignal, log) else Unfinalized(LayoutSignal, log);
    FileHasMetadata(LayoutSignal, IDBlock(true), HEADER_SIZE, Body(log));
    FileHasMetadata(LayoutSignal, IDBlock(false), HEADER_SIZE + |Body(log)|, Body(log));
    FileRead(file, LayoutSignal);
    if cut < LayoutOf(LayoutSignal).dt {
      CrashInGroupsFails(file, LayoutSignal, cut);
    } else {
      MetadataCut(file, LayoutSignal, cut);
      FileRead(file[..cut], LayoutSignal);
    }
  }
}
