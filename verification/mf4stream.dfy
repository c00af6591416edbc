/** Scanning inverts serializing, also for a stream cut short, and the VLSD index is the running sum it stands for. */
module Mf4Stream {
  import opened Bytes
  import opened Mf4Format
  import opened Mf4Records
  import opened Options

  // ------------------------------------------------- scanning what was written

  /** The records still readable when only the first `cut` bytes of their stream are left. */
  function Visible(recs: seq<Rec>, idSize: nat, cut: nat): seq<Rec>
    requires Complete(recs)
  {
    if recs == [] then []
    else
      var n := |RecBytes(recs[0], idSize)|;
      if cut >= n then [recs[0]] + Visible(recs[1..], idSize, cut - n)
      else if recs[0].Vlsd? && cut >= idSize + 4 then [CutVlsd(recs[0].id, |recs[0].payload|)]
      else []
  }

  /** From `pos` on, the stream is `b`, as far as both go. */
  ghost predicate StartsLike(dt: seq<Byte>, pos: nat, b: seq<Byte>) {
    pos <= |dt| && forall i :: 0 <= i < |b| && pos + i < |dt| ==> dt[pos + i] == b[i]
  }

  lemma {:induction false} SliceAlike(dt: seq<Byte>, pos: nat, b: seq<Byte>, at: nat, part: seq<Byte>)
    requires StartsLike(dt, pos, b) && Holds(b, at, part) && pos + at + |part| <= |dt|
    ensures dt[pos + at..pos + at + |part|] == part
  {
    var l := dt[pos + at..pos + at + |part|];
    forall i | 0 <= i < |part|
      ensures l[i] == part[i]
    {
      assert part[i] == b[at..at + |part|][i] == b[at + i];
      assert l[i] == dt[pos + (at + i)];
    }
  }

  lemma {:induction false} SplitAlike(dt: seq<Byte>, pos: nat, a: seq<Byte>, b: seq<Byte>)
    requires StartsLike(dt, pos, a + b)
    ensures StartsLike(dt, pos, a)
    ensures pos + |a| <= |dt| ==> StartsLike(dt, pos + |a|, b)
  {
    forall i | 0 <= i < |a| && pos + i < |dt|
      ensures dt[pos + i] == a[i]
    {
      assert (a + b)[i] == a[i];
    }
    forall i | 0 <= i < |b| && pos + |a| + i < |dt|
      ensures dt[pos + |a| + i] == b[i]
    {
      assert (a + b)[|a| + i] == b[i];
    }
  }

  lemma {:induction false} RecParts(r: Rec, idSize: nat)
    requires !r.CutVlsd?
    ensures
      var b := RecBytes(r, idSize);
      && Holds(b, 0, PutLE(idSize, r.id))
      && (r.Vlsd? ==> Holds(b, idSize, PutLE(4, |r.payload|)) && Holds(b, idSize + 4, r.payload))
      && (r.Fixed? ==> Holds(b, idSize, r.body))
  {
  }

  lemma {:induction false} IDReads(dt: seq<Byte>, pos: nat, r: Rec, idSize: nat)
    requires ValidIDSize(idSize) && !r.CutVlsd? && r.id < Pow256(idSize)
    requires StartsLike(dt, pos, RecBytes(r, idSize)) && pos + idSize <= |dt|
    ensures ReadRecordID(dt, pos, idSize) == r.id
  {
    RecParts(r, idSize);
    SliceAlike(dt, pos, RecBytes(r, idSize), 0, PutLE(idSize, r.id));
    GetPut(idSize, r.id);
  }

  lemma {:induction false} LengthReads(dt: seq<Byte>, pos: nat, r: Rec, idSize: nat)
    requires r.Vlsd? && |r.payload| < TWO_32
    requires StartsLike(dt, pos, RecBytes(r, idSize)) && pos + idSize + 4 <= |dt|
    ensures Field(dt, pos + idSize, 4) == |r.payload|
  {
    RecParts(r, idSize);
    SliceAlike(dt, pos, RecBytes(r, idSize), idSize, PutLE(4, |r.payload|));
    Pow256Values();
    GetPut(4, |r.payload|);
  }

  /** One record, wholly or partly present at `pos`, is read for what it is. */
  lemma {:induction false} NextReads(dt: seq<Byte>, pos: nat, r: Rec, idSize: nat, groups: Groups)
    requires ValidIDSize(idSize) && WellFormed(r, idSize, groups)
    requires StartsLike(dt, pos, RecBytes(r, idSize))
    ensures Next(dt, pos, idSize, groups) ==
      var n := |RecBytes(r, idSize)|;
      if pos + n <= |dt| then Take(r, pos + n)
      else if r.Vlsd? && pos + idSize + 4 <= |dt| then Last(CutVlsd(r.id, |r.payload|))
      else Stop
  {
    hide PutLE, GetLE, StartsLike, Field;
    var b := RecBytes(r, idSize);
    RecParts(r, idSize);
    if pos + idSize <= |dt| {
      IDReads(dt, pos, r, idSize);
      if r.Vlsd? && pos + idSize + 4 <= |dt| { LengthReads(dt, pos, r, idSize); }
      if pos + |b| <= |dt| {
        if r.Vlsd? {
          SliceAlike(dt, pos, b, idSize + 4, r.payload);
        } else {
          SliceAlike(dt, pos, b, idSize, r.body);
        }
      }
    }
  }

  /** Scanning a written stream, cut anywhere, gives its visible records. */
  lemma {:induction false} ScanInvertsSerialize(dt: seq<Byte>, pos: nat, recs: seq<Rec>, idSize: nat, groups: Groups)
    requires ValidIDSize(idSize) && AllWellFormed(recs, idSize, groups)
    requires StartsLike(dt, pos, Serialize(recs, idSize)) && |dt| <= pos + |Serialize(recs, idSize)|
    ensures Scan(dt, pos, idSize, groups) == Visible(recs, idSize, |dt| - pos)
    decreases |recs|
  {
    hide StartsLike, RecBytes, Next;
    if recs != [] {
      var b := RecBytes(recs[0], idSize);
      SplitAlike(dt, pos, b, Serialize(recs[1..], idSize));
      NextReads(dt, pos, recs[0], idSize, groups);
      if pos + |b| <= |dt| {
        ScanInvertsSerialize(dt, pos + |b|, recs[1..], idSize, groups);
      }
    } else {
      NextAtEnd(dt, pos, idSize, groups);
    }
  }

  lemma {:induction false} NextAtEnd(dt: seq<Byte>, pos: nat, idSize: nat, groups: Groups)
    requires idSize > 0 && pos >= |dt|
    ensures Next(dt, pos, idSize, groups) == Stop
  {
  }

  /** Nothing is hidden when nothing is cut. */
  lemma {:induction false} AllVisible(recs: seq<Rec>, idSize: nat)
    requires Complete(recs)
    ensures Visible(recs, idSize, |Serialize(recs, idSize)|) == recs
  {
    if recs != [] { AllVisible(recs[1..], idSize); }
  }

  lemma {:induction false} SerializeConcat(a: seq<Rec>, b: seq<Rec>, idSize: nat)
    requires Complete(a) && Complete(b)
    ensures Complete(a + b)
    ensures Serialize(a + b, idSize) == Serialize(a, idSize) + Serialize(b, idSize)
  {
    if a == [] {
      assert a + b == b;
    } else {
      assert (a + b)[1..] == a[1..] + b;
      SerializeConcat(a[1..], b, idSize);
    }
  }

  // --------------------------------------------- the index against plain sums

  /** Sum of 4 + len over the VLSD records before the k-th record. */
  function RawOffset(recs: seq<Rec>, k: nat): nat
    requires k <= |recs|
  {
    if k == 0 then 0 else recs[0].RawSize() + RawOffset(recs[1..], k - 1)
  }

  /** All complete payloads, end to end. */
  function Payloads(recs: seq<Rec>): seq<Byte> {
    if recs == [] then [] else recs[0].Payload() + Payloads(recs[1..])
  }

  lemma {:induction false} PayloadsSplit(recs: seq<Rec>, k: nat)
    requires k <= |recs|
    ensures Payloads(recs) == Payloads(recs[..k]) + Payloads(recs[k..])
  {
    if k > 0 {
      PayloadsSplit(recs[1..], k - 1);
      assert recs[..k][1..] == recs[1..][..k - 1];
      assert recs[k..] == recs[1..][k - 1..];
    }
  }

  /** Different VLSD records have different raw offsets. */
  lemma {:induction false} RawOffsetIncreases(recs: seq<Rec>, j: nat, k: nat)
    requires j < k <= |recs| && !recs[j].Fixed?
    ensures RawOffset(recs, j) + 4 <= RawOffset(recs, k)
  {
    if j == 0 {
      assert RawOffset(recs, k) == recs[0].RawSize() + RawOffset(recs[1..], k - 1);
    } else {
      RawOffsetIncreases(recs[1..], j - 1, k - 1);
    }
  }

  /** What is already indexed below `raw` stays as it is. */
  lemma {:induction false} IndexKeeps(recs: seq<Rec>, raw: nat, idx: VlsdIndex, key: nat)
    requires key < raw
    ensures var done := Index(recs, raw, idx);
      && (key in done.offsets <==> key in idx.offsets)
      && (key in idx.offsets ==> done.offsets[key] == idx.offsets[key])
  {
    if recs != [] {
      IndexKeeps(recs[1..], raw + recs[0].RawSize(), AddToIndex(recs[0], raw, idx), key);
    }
  }

  lemma {:induction false} IndexBuf(recs: seq<Rec>, raw: nat, idx: VlsdIndex)
    ensures Index(recs, raw, idx).buf == idx.buf + Payloads(recs)
  {
    if recs != [] {
      IndexBuf(recs[1..], raw + recs[0].RawSize(), AddToIndex(recs[0], raw, idx));
    }
  }

  /** The k-th record's key leads to where its payload starts in the buffer. */
  lemma {:induction false} IndexAt(recs: seq<Rec>, raw: nat, idx: VlsdIndex, k: nat)
    requires k < |recs| && !recs[k].Fixed?
    ensures
      var done, key := Index(recs, raw, idx), raw + RawOffset(recs, k);
      key in done.offsets && done.offsets[key] == |idx.buf| + |Payloads(recs[..k])|
  {
    var idx1 := AddToIndex(recs[0], raw, idx);
    var raw1 := raw + recs[0].RawSize();
    if k == 0 {
      IndexKeeps(recs[1..], raw1, idx1, raw);
    } else {
      IndexAt(recs[1..], raw1, idx1, k - 1);
      assert recs[..k][1..] == recs[1..][..k - 1];
    }
  }

  /** There are no other keys. */
  lemma {:induction false} IndexOnly(recs: seq<Rec>, raw: nat, idx: VlsdIndex, key: nat)
    requires key in Index(recs, raw, idx).offsets
    ensures key in idx.offsets || exists k :: 0 <= k < |recs| && !recs[k].Fixed? && key == raw + RawOffset(recs, k)
  {
    if recs != [] {
      var idx1, raw1 := AddToIndex(recs[0], raw, idx), raw + recs[0].RawSize();
      IndexOnly(recs[1..], raw1, idx1, key);
      if key !in idx.offsets {
        if key in idx1.offsets {
          assert key == raw + RawOffset(recs, 0);
        } else {
          var k :| 0 <= k < |recs[1..]| && !recs[1..][k].Fixed? && key == raw1 + RawOffset(recs[1..], k);
          assert key == raw + RawOffset(recs, k + 1);
        }
      }
    }
  }

  /**
   * A lookup at the k-th record's offset reads the concatenation of the payloads from that record on.
   * So it gives exactly that payload when asked for exactly its length, and reads on into the next
   * VLSD record when asked for more.
   */
  lemma {:induction false} LookupReadsFrom(recs: seq<Rec>, k: nat, n: nat)
    requires k < |recs| && !recs[k].Fixed?
    ensures
      var tail := Payloads(recs[k..]);
      Index(recs, 0, EMPTY_INDEX).Lookup(RawOffset(recs, k), n) == if n <= |tail| then Some(tail[..n]) else None
  {
    IndexAt(recs, 0, EMPTY_INDEX, k);
    IndexBuf(recs, 0, EMPTY_INDEX);
    PayloadsSplit(recs, k);
    var head, tail := Payloads(recs[..k]), Payloads(recs[k..]);
    assert Index(recs, 0, EMPTY_INDEX).buf == head + tail;
    if n <= |tail| {
      assert (head + tail)[|head|..|head| + n] == tail[..n];
    }
  }

  lemma {:induction false} LookupExact(recs: seq<Rec>, k: nat)
    requires k < |recs| && recs[k].Vlsd?
    ensures Index(recs, 0, EMPTY_INDEX).Lookup(RawOffset(recs, k), |recs[k].payload|) == Some(recs[k].payload)
  {
    LookupReadsFrom(recs, k, |recs[k].payload|);
    assert recs[k..][0] == recs[k];
    assert Payloads(recs[k..]) == recs[k].payload + Payloads(recs[k..][1..]);
  }

  /**
   * The index collected from a written stream: its keys are the raw offsets of the VLSD records,
   * all different, and each leads to its own payload.
   */
  lemma {:induction false} IndexIsRunningSum(recs: seq<Rec>, idSize: nat, groups: Groups)
    requires ValidIDSize(idSize) && AllWellFormed(recs, idSize, groups)
    ensures Complete(recs)
    ensures
      var idx := CollectedIndex(Serialize(recs, idSize), idSize, groups);
      && idx.buf == Payloads(recs)
      && (forall k :: 0 <= k < |recs| && recs[k].Vlsd? ==>
            idx.Lookup(RawOffset(recs, k), |recs[k].payload|) == Some(recs[k].payload))
      && (forall key :: key in idx.offsets ==>
            exists k :: 0 <= k < |recs| && recs[k].Vlsd? && key == RawOffset(recs, k))
      && (forall j, k :: 0 <= j < k < |recs| && recs[j].Vlsd? && recs[k].Vlsd? ==>
            RawOffset(recs, j) != RawOffset(recs, k))
  {
    CollectedFromWritten(recs, idSize, groups);
    IndexBuf(recs, 0, EMPTY_INDEX);
    forall k | 0 <= k < |recs| && recs[k].Vlsd?
      ensures Index(recs, 0, EMPTY_INDEX).Lookup(RawOffset(recs, k), |recs[k].payload|) == Some(recs[k].payload)
    {
      LookupExact(recs, k);
    }
    forall key | key in Index(recs, 0, EMPTY_INDEX).offsets
      ensures exists k :: 0 <= k < |recs| && recs[k].Vlsd? && key == RawOffset(recs, k)
    {
      IndexOnly(recs, 0, EMPTY_INDEX, key);
    }
    forall j, k | 0 <= j < k < |recs| && recs[j].Vlsd? && recs[k].Vlsd?
      ensures RawOffset(recs, j) != RawOffset(recs, k)
    {
      RawOffsetIncreases(recs, j, k);
    }
  }

  lemma {:induction false} CollectedFromWritten(recs: seq<Rec>, idSize: nat, groups: Groups)
    requires ValidIDSize(idSize) && AllWellFormed(recs, idSize, groups)
    ensures Complete(recs)
    ensures CollectedIndex(Serialize(recs, idSize), idSize, groups) == Index(recs, 0, EMPTY_INDEX)
  {
    ScanInvertsSerialize(Serialize(recs, idSize), 0, recs, idSize, groups);
    AllVisible(recs, idSize);
  }

  // ------------------------------------------------------- where scanning stops

  /** Scanning reads the records that are there and goes on behind them. */
  lemma {:induction false} ScanPast(dt: seq<Byte>, pos: nat, recs: seq<Rec>, idSize: nat, groups: Groups)
    requires ValidIDSize(idSize) && AllWellFormed(recs, idSize, groups) && Complete(recs)
    requires StartsLike(dt, pos, Serialize(recs, idSize)) && pos + |Serialize(recs, idSize)| <= |dt|
    ensures Scan(dt, pos, idSize, groups) == recs + Scan(dt, pos + |Serialize(recs, idSize)|, idSize, groups)
    decreases |recs|
  {
    hide Scan, Next, StartsLike, RecBytes, Serialize, WellFormed;
    if recs == [] {
      ScanNothing(dt, pos, idSize, groups);
    } else {
      ScanFirst(dt, pos, recs, idSize, groups);
      var n, rest := |RecBytes(recs[0], idSize)|, |Serialize(recs[1..], idSize)|;
      ScanPast(dt, pos + n, recs[1..], idSize, groups);
      Rejoin(recs, Scan(dt, pos + n + rest, idSize, groups));
    }
  }

  lemma {:induction false} ScanNothing(dt: seq<Byte>, pos: nat, idSize: nat, groups: Groups)
    requires idSize > 0
    ensures [] + Scan(dt, pos + |Serialize([], idSize)|, idSize, groups) == Scan(dt, pos, idSize, groups)
  {
    hide Scan;
  }

  lemma {:induction false} ScanFirst(dt: seq<Byte>, pos: nat, recs: seq<Rec>, idSize: nat, groups: Groups)
    requires ValidIDSize(idSize) && recs != [] && WellFormed(recs[0], idSize, groups) && Complete(recs)
    requires StartsLike(dt, pos, Serialize(recs, idSize)) && pos + |Serialize(recs, idSize)| <= |dt|
    ensures
      var n := |RecBytes(recs[0], idSize)|;
      && Scan(dt, pos, idSize, groups) == [recs[0]] + Scan(dt, pos + n, idSize, groups)
      && |Serialize(recs, idSize)| == n + |Serialize(recs[1..], idSize)|
      && StartsLike(dt, pos + n, Serialize(recs[1..], idSize))
  {
    var b, rest := RecBytes(recs[0], idSize), Serialize(recs[1..], idSize);
    assert Serialize(recs, idSize) == b + rest;
    hide StartsLike, RecBytes, Next, Serialize, WellFormed;
    SplitAlike(dt, pos, b, rest);
    NextReads(dt, pos, recs[0], idSize, groups);
  }

  lemma {:induction false} Rejoin(recs: seq<Rec>, after: seq<Rec>)
    requires recs != []
    ensures [recs[0]] + (recs[1..] + after) == recs + after
  {
  }

  /** A record ID that no group has ends the stream for both passes, whatever follows it. */
  lemma {:induction false} UnknownIDStops(recs: seq<Rec>, idSize: nat, groups: Groups, id: nat, junk: seq<Byte>)
    requires ValidIDSize(idSize) && AllWellFormed(recs, idSize, groups)
    requires id !in groups && id < Pow256(idSize)
    ensures Complete(recs)
    ensures Scan(Serialize(recs, idSize) + PutLE(idSize, id) + junk, 0, idSize, groups) == recs
    ensures
      CollectedIndex(Serialize(recs, idSize) + PutLE(idSize, id) + junk, idSize, groups)
        == CollectedIndex(Serialize(recs, idSize), idSize, groups)
  {
    hide Serialize, Next, PutLE, AllWellFormed;
    CollectedFromWritten(recs, idSize, groups);
    var clean := Serialize(recs, idSize);
    var dt := clean + PutLE(idSize, id) + junk;
    ScanPast(dt, 0, recs, idSize, groups);
    assert dt[|clean|..|clean| + idSize] == PutLE(idSize, id);
    UnknownID(dt, |clean|, idSize, groups, id);
    assert recs + [] == recs;
  }

  lemma {:induction false} UnknownID(dt: seq<Byte>, pos: nat, idSize: nat, groups: Groups, id: nat)
    requires ValidIDSize(idSize) && id !in groups && id < Pow256(idSize)
    requires pos + idSize <= |dt| && dt[pos..pos + idSize] == PutLE(idSize, id)
    ensures Next(dt, pos, idSize, groups) == Stop
  {
    hide PutLE;
    GetPut(idSize, id);
  }
}
