/** MDF4 blocks: how they are laid out in bytes, and how they are read back from a file. */
module Mf4Format {
  import opened Bytes

  const ID_BLOCK_SIZE: int := 64
  const HEADER_SIZE: int := 24
  const CAN_RECORD_SIZE: int := 22

  // "##HD", "##DG", "##CG", "##CN", "##TX", "##DT"
  const HD: seq<Byte> := [35, 35, 72, 68]
  const DG: seq<Byte> := [35, 35, 68, 71]
  const CG: seq<Byte> := [35, 35, 67, 71]
  const CN: seq<Byte> := [35, 35, 67, 78]
  const TX: seq<Byte> := [35, 35, 84, 88]
  const DT: seq<Byte> := [35, 35, 68, 84]

  /** "CAN_DataFrame", "Timestamp", "Signal" */
  const CAN_DATA_FRAME: seq<Byte> := [67, 65, 78, 95, 68, 97, 116, 97, 70, 114, 97, 109, 101]
  const TIMESTAMP: seq<Byte> := [84, 105, 109, 101, 115, 116, 97, 109, 112]
  const SIGNAL: seq<Byte> := [83, 105, 103, 110, 97, 108]

  /** "UnFinMF ", "MDF     " */
  const UNFINALIZED_MAGIC: seq<Byte> := [85, 110, 70, 105, 110, 77, 70, 32]
  const FINALIZED_MAGIC: seq<Byte> := [77, 68, 70, 32, 32, 32, 32, 32]

  /** The largest slice make() hands out on a 64-bit platform; anything longer panics. */
  const MAX_ALLOC: int := 0x1_0000_0000_0000

  /**
   * What a read of a log file can come to: a value, an error return, a run-time panic
   * (index out of range, absurd allocation), or a loop that never ends.
   */
  datatype Outcome<+T> = Ok(value: T) | Failed | Panics | Diverges {
    predicate IsFailure() { !Ok? }

    function PropagateFailure<U>(): Outcome<U>
      requires IsFailure()
    {
      match this
      case Failed => Failed
      case Panics => Panics
      case Diverges => Diverges
    }

    function Extract(): T
      requires Ok?
    {
      value
    }
  }

  datatype Block = Block(links: seq<Int64>, data: seq<Byte>) {
    function Size(): nat { HEADER_SIZE + 8 * |links| + |data| }
  }

  function LinkBytes(links: seq<Int64>): (b: seq<Byte>)
    ensures |b| == 8 * |links|
  {
    if links == [] then [] else LinkBytes(links[..|links| - 1]) + PutLE(8, ToUint64(links[|links| - 1]))
  }

  function Header(id: seq<Byte>, length: nat, linkCount: nat): (h: seq<Byte>)
    requires |id| == 4
    ensures |h| == HEADER_SIZE
  {
    id + Zeros(4) + PutLE(8, length) + PutLE(8, linkCount)
  }

  /** The on-disk form of a block. */
  function BlockBytes(id: seq<Byte>, b: Block): (r: seq<Byte>)
    requires |id| == 4
    ensures |r| == b.Size()
  {
    Header(id, b.Size(), |b.links|) + LinkBytes(b.links) + b.data
  }

  /** The common block header, written into a zeroed buffer. */
  method StoreHeader(out: array<Byte>, id: seq<Byte>, length: nat, linkCount: nat)
    requires |id| == 4 && out.Length >= HEADER_SIZE && FilledTo(out, [])
    modifies out
    ensures FilledTo(out, Header(id, length, linkCount))
  {
    Store(out, 0, id, []);
    Skip(out, [] + id, 4);
    ghost var done := [] + id + Zeros(4);
    Store(out, 8, PutLE(8, length), done);
    Store(out, 16, PutLE(8, linkCount), done + PutLE(8, length));
    assert done + PutLE(8, length) + PutLE(8, linkCount) == Header(id, length, linkCount);
  }

  /** Block.Bytes: fills a fresh buffer field by field. */
  method SerializeBlock(id: seq<Byte>, b: Block) returns (bytes: seq<Byte>)
    requires |id| == 4
    ensures bytes == BlockBytes(id, b)
  {
    var total := b.Size();
    var out := new Byte[total](_ => 0);
    assert FilledTo(out, []);
    StoreHeader(out, id, total, |b.links|);
    var off := HEADER_SIZE;
    ghost var h := Header(id, total, |b.links|);
    assert h + LinkBytes(b.links[..0]) == h;
    for i := 0 to |b.links|
      invariant off == HEADER_SIZE + 8 * i
      invariant fresh(out) && out.Length == total
      invariant FilledTo(out, h + LinkBytes(b.links[..i]))
    {
      Store(out, off, PutLE(8, ToUint64(b.links[i])), h + LinkBytes(b.links[..i]));
      LinkBytesSnoc(h, b.links, i);
      off := off + 8;
    }
    assert b.links[..|b.links|] == b.links;
    Store(out, off, b.data, h + LinkBytes(b.links));
    return out[..];
  }

  lemma {:induction false} LinkBytesSnoc(h: seq<Byte>, links: seq<Int64>, i: nat)
    requires i < |links|
    ensures h + LinkBytes(links[..i]) + PutLE(8, ToUint64(links[i])) == h + LinkBytes(links[..i + 1])
  {
    assert links[..i + 1][..i] == links[..i];
    assert LinkBytes(links[..i + 1]) == LinkBytes(links[..i]) + PutLE(8, ToUint64(links[i]));
  }

  /** Smallest multiple of eight that holds header, text and the closing NUL. */
  function TextBlockSize(textLen: nat): (n: nat)
    ensures n % 8 == 0 && HEADER_SIZE + textLen + 1 <= n < HEADER_SIZE + textLen + 9
  {
    var n := HEADER_SIZE + textLen + 1;
    if n % 8 != 0 then n + 8 - n % 8 else n
  }

  function TextBlock(text: seq<Byte>): Block {
    Block([], text + Zeros(TextBlockSize(|text|) - HEADER_SIZE - |text|))
  }

  /** BuildTXBlock: a ##TX block in a fresh zeroed buffer. */
  method BuildTXBlock(text: seq<Byte>) returns (bytes: seq<Byte>)
    ensures bytes == BlockBytes(TX, TextBlock(text)) && |bytes| == TextBlockSize(|text|)
  {
    var payload := text + [0];
    var blockLen := HEADER_SIZE + |payload|;
    if blockLen % 8 != 0 {
      blockLen := blockLen + (8 - blockLen % 8);
    }
    var b := new Byte[blockLen](_ => 0);
    assert FilledTo(b, []);
    StoreHeader(b, TX, blockLen, 0);
    Store(b, HEADER_SIZE, payload, Header(TX, blockLen, 0));
    Skip(b, Header(TX, blockLen, 0) + payload, blockLen - HEADER_SIZE - |payload|);
    SplitZeros(1, blockLen - HEADER_SIZE - |payload|);
    assert b[..] == Header(TX, blockLen, 0) + [] + TextBlock(text).data;
    return b[..];
  }

  // ------------------------------------------------------------------ reading

  predicate Inside(file: seq<Byte>, at: int, n: nat) {
    0 <= at && at + n <= |file|
  }

  /** The unsigned little-endian field of `n` bytes at `at`. */
  function Field(file: seq<Byte>, at: nat, n: nat): nat
    requires at + n <= |file|
  {
    GetLE(file[at..at + n])
  }

  function Uint64At(file: seq<Byte>, at: nat): (v: nat)
    requires at + 8 <= |file|
    ensures v < TWO_64
  {
    Pow256Values();
    GetLEBound(file[at..at + 8]);
    Field(file, at, 8)
  }

  function LinksAt(file: seq<Byte>, at: nat, count: nat): (links: seq<Int64>)
    requires at + 8 * count <= |file|
    ensures |links| == count
  {
    seq(count, i requires 0 <= i < count => ToInt64(Uint64At(file, at + 8 * i)))
  }

  /** What ReadBlock makes of the bytes at `addr`. */
  function BlockAt(file: seq<Byte>, addr: int): Outcome<Block> {
    if !Inside(file, addr, HEADER_SIZE) then Failed
    else
      var blockLen := Uint64At(file, addr + 8);
      var linkCount := Uint64At(file, addr + 16);
      if 8 * linkCount > MAX_ALLOC then Panics
      else if !Inside(file, addr + HEADER_SIZE, 8 * linkCount) then Failed
      else
        var dataSize := (blockLen - HEADER_SIZE - 8 * linkCount) % TWO_64;
        var dataAt := addr + HEADER_SIZE + 8 * linkCount;
        if dataSize > MAX_ALLOC then Panics
        else if !Inside(file, dataAt, dataSize) then Failed
        else Ok(Block(LinksAt(file, addr + HEADER_SIZE, linkCount), file[dataAt..dataAt + dataSize]))
  }

  /** ReadBlock: header, then one link at a time, then the data. */
  method ReadBlock(file: seq<Byte>, addr: int) returns (r: Outcome<Block>)
    ensures r == BlockAt(file, addr)
  {
    if !Inside(file, addr, HEADER_SIZE) { return Failed; }
    var linkCount := Uint64At(file, addr + 16);
    var blockLen := Uint64At(file, addr + 8);
    if 8 * linkCount > MAX_ALLOC { return Panics; }
    var links: seq<Int64> := [];
    var pos := addr + HEADER_SIZE;
    while |links| < linkCount
      invariant |links| <= linkCount && pos == addr + HEADER_SIZE + 8 * |links| <= |file|
      invariant links == LinksAt(file, addr + HEADER_SIZE, |links|)
    {
      if pos + 8 > |file| { return Failed; }
      links := links + [ToInt64(Uint64At(file, pos))];
      pos := pos + 8;
    }
    var dataSize := (blockLen - HEADER_SIZE - linkCount * 8) % TWO_64;
    if dataSize > MAX_ALLOC { return Panics; }
    if !Inside(file, pos, dataSize) { return Failed; }
    return Ok(Block(links, file[pos..pos + dataSize]));
  }

  /** strings.TrimRight(s, "\x00") */
  function TrimNul(s: seq<Byte>): seq<Byte> {
    if s != [] && s[|s| - 1] == 0 then TrimNul(s[..|s| - 1]) else s
  }

  function ReadText(file: seq<Byte>, addr: int): Outcome<seq<Byte>> {
    if addr == 0 then Ok([])
    else
      match BlockAt(file, addr)
      case Ok(b) => Ok(TrimNul(b.data))
      case Failed => Ok([])
      case Panics => Panics
      case Diverges => Diverges
  }

  /** The record bytes of a ##DT block: its declared length, or up to end of file when it declares none. */
  function ReadDTData(file: seq<Byte>, addr: int): Outcome<seq<Byte>> {
    if !Inside(file, addr, HEADER_SIZE) then Failed
    else if file[addr..addr + 4] != DT then Failed
    else
      var dataSize := (Uint64At(file, addr + 8) - HEADER_SIZE) % TWO_64;
      var dataAt := addr + HEADER_SIZE;
      if dataSize == 0 then Ok(file[dataAt..])
      else if dataSize > MAX_ALLOC then Panics
      else if !Inside(file, dataAt, dataSize) then Failed
      else Ok(file[dataAt..dataAt + dataSize])
  }

  predicate IsMF4File(file: seq<Byte>) {
    |file| >= 8 && (FINALIZED_MAGIC[..3] <= file[..8] || UNFINALIZED_MAGIC[..7] <= file[..8])
  }

  /** "MDF" and "UnFinMF" are recognised, in files of at least eight bytes, and nothing else is. */
  lemma {:induction false} RecognisedIff(file: seq<Byte>)
    ensures IsMF4File(file) <==>
      |file| >= 8 && (file[..3] == [77, 68, 70] || file[..7] == [85, 110, 70, 105, 110, 77, 70])
  {
    if |file| >= 8 {
      assert file[..8][..3] == file[..3] && file[..8][..7] == file[..7];
      assert FINALIZED_MAGIC[..3] == [77, 68, 70] && UNFINALIZED_MAGIC[..7] == [85, 110, 70, 105, 110, 77, 70];
    }
  }

  /** ReadText never returns an error: what cannot be read is an empty text, unless the read panics. */
  lemma {:induction false} ReadTextNeverFails(file: seq<Byte>, addr: int)
    ensures ReadText(file, addr).Ok? || ReadText(file, addr).Panics?
    ensures addr == 0 || BlockAt(file, addr) == Failed ==> ReadText(file, addr) == Ok([])
    ensures ReadText(file, addr).Ok? && ReadText(file, addr).value != [] ==>
      ReadText(file, addr).value[|ReadText(file, addr).value| - 1] != 0
  {
    if addr != 0 && BlockAt(file, addr).Ok? { TrimNulEnds(BlockAt(file, addr).value.data); }
  }

  lemma {:induction false} TrimNulEnds(s: seq<Byte>)
    ensures TrimNul(s) != [] ==> TrimNul(s)[|TrimNul(s)| - 1] != 0
  {
    if s != [] && s[|s| - 1] == 0 { TrimNulEnds(s[..|s| - 1]); }
  }

  // ----------------------------------------------------------- read after write

  /** `bytes` occupies the file from `addr` on. */
  predicate Holds(file: seq<Byte>, addr: int, bytes: seq<Byte>) {
    Inside(file, addr, |bytes|) && file[addr..addr + |bytes|] == bytes
  }

  lemma {:induction false} HoldsPart(file: seq<Byte>, addr: int, bytes: seq<Byte>, at: int, part: seq<Byte>)
    requires Holds(file, addr, bytes) && Holds(bytes, at, part)
    ensures Holds(file, addr + at, part)
  {
    SubSlice(file, addr, addr + |bytes|, at, at + |part|);
  }

  lemma {:induction false} FieldHolds(file: seq<Byte>, at: int, n: nat, v: nat)
    requires Holds(file, at, PutLE(n, v)) && v < Pow256(n)
    ensures Field(file, at, n) == v
  {
    GetPut(n, v);
  }

  lemma {:induction false} Uint64Holds(file: seq<Byte>, at: int, v: nat)
    requires Holds(file, at, PutLE(8, v)) && v < TWO_64
    ensures Uint64At(file, at) == v
  {
    Pow256Values();
    FieldHolds(file, at, 8, v);
  }

  lemma {:induction false} LinkBytesAt(links: seq<Int64>, k: nat)
    requires k < |links|
    ensures Holds(LinkBytes(links), 8 * k, PutLE(8, ToUint64(links[k])))
  {
    var n := |links| - 1;
    if k < n {
      LinkBytesAt(links[..n], k);
      HoldsPart(LinkBytes(links), 0, LinkBytes(links[..n]), 8 * k, PutLE(8, ToUint64(links[k])));
    }
  }

  lemma {:induction false} HeaderParts(id: seq<Byte>, b: Block)
    requires |id| == 4
    ensures
      var bytes := BlockBytes(id, b);
      && Holds(bytes, 0, id)
      && Holds(bytes, 8, PutLE(8, b.Size()))
      && Holds(bytes, 16, PutLE(8, |b.links|))
      && Holds(bytes, 24, LinkBytes(b.links))
      && Holds(bytes, 24 + |LinkBytes(b.links)|, b.data)
  {
    var h := Header(id, b.Size(), |b.links|);
    assert h[0..4] == id;
    assert h[8..16] == PutLE(8, b.Size());
    assert h[16..24] == PutLE(8, |b.links|);
  }

  lemma {:induction false} HeaderHolds(file: seq<Byte>, addr: int, id: seq<Byte>, b: Block)
    requires |id| == 4 && b.Size() <= MAX_ALLOC
    requires Holds(file, addr, BlockBytes(id, b))
    ensures Uint64At(file, addr + 8) == b.Size() && Uint64At(file, addr + 16) == |b.links|
  {
    var bytes := BlockBytes(id, b);
    HeaderParts(id, b);
    HoldsPart(file, addr, bytes, 8, PutLE(8, b.Size()));
    Uint64Holds(file, addr + 8, b.Size());
    HoldsPart(file, addr, bytes, 16, PutLE(8, |b.links|));
    Uint64Holds(file, addr + 16, |b.links|);
  }

  lemma {:induction false} LinksHold(file: seq<Byte>, at: int, links: seq<Int64>)
    requires Holds(file, at, LinkBytes(links))
    ensures LinksAt(file, at, |links|) == links
  {
    forall k | 0 <= k < |links|
      ensures ToInt64(Uint64At(file, at + 8 * k)) == links[k]
    {
      LinkBytesAt(links, k);
      HoldsPart(file, at, LinkBytes(links), 8 * k, PutLE(8, ToUint64(links[k])));
      Uint64Holds(file, at + 8 * k, ToUint64(links[k]));
    }
  }

  lemma {:induction false} BlockHolds(file: seq<Byte>, addr: int, id: seq<Byte>, b: Block)
    requires |id| == 4 && b.Size() <= MAX_ALLOC
    requires Holds(file, addr, BlockBytes(id, b))
    ensures LinksAt(file, addr + HEADER_SIZE, |b.links|) == b.links
    ensures Holds(file, addr + HEADER_SIZE + 8 * |b.links|, b.data)
  {
    hide LinksAt, Header;
    var bytes := BlockBytes(id, b);
    HeaderParts(id, b);
    HoldsPart(file, addr, bytes, 24, LinkBytes(b.links));
    LinksHold(file, addr + 24, b.links);
    HoldsPart(file, addr, bytes, 24 + |LinkBytes(b.links)|, b.data);
  }

  /** ReadBlock inverts Block.Bytes, wherever in the file the block sits. */
  lemma {:induction false} ReadBlockInverts(file: seq<Byte>, addr: int, id: seq<Byte>, b: Block)
    requires |id| == 4 && b.Size() <= MAX_ALLOC
    requires Holds(file, addr, BlockBytes(id, b))
    ensures BlockAt(file, addr) == Ok(b)
  {
    hide BlockBytes, LinksAt, Uint64At, LinkBytes;
    HeaderHolds(file, addr, id, b);
    BlockHolds(file, addr, id, b);
    assert (b.Size() - HEADER_SIZE - 8 * |b.links|) % TWO_64 == |b.data|;
  }

  lemma {:induction false} TrimPadding(text: seq<Byte>, n: nat)
    requires text == [] || text[|text| - 1] != 0
    ensures TrimNul(text + Zeros(n)) == text
  {
    if n == 0 {
      assert text + Zeros(0) == text;
    } else {
      assert (text + Zeros(n))[..|text| + n - 1] == text + Zeros(n - 1);
      TrimPadding(text, n - 1);
    }
  }

  lemma {:induction false} TrimTextBlock(text: seq<Byte>)
    requires text == [] || text[|text| - 1] != 0
    ensures TrimNul(TextBlock(text).data) == text
  {
    TrimPadding(text, TextBlockSize(|text|) - HEADER_SIZE - |text|);
  }

  /** ReadText inverts BuildTXBlock for a text that does not end in NUL. */
  lemma {:induction false} ReadTextInverts(file: seq<Byte>, addr: int, text: seq<Byte>)
    requires addr != 0 && TextBlock(text).Size() <= MAX_ALLOC
    requires text == [] || text[|text| - 1] != 0
    requires Holds(file, addr, BlockBytes(TX, TextBlock(text)))
    ensures ReadText(file, addr) == Ok(text)
  {
    ReadBlockInverts(file, addr, TX, TextBlock(text));
    TrimTextBlock(text);
  }
}
