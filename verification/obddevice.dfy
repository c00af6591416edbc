/** The line protocol engine: chunks from a transport, cut into prompts and lines. */
module ObdDevice {
  import opened ObdFrame
  import opened Text

  const PROMPT: char := '>'
  const CR: char := '\r'

  datatype ReadError = NoError | EOF | Broken

  /** One Read: the bytes handed over and the error that came with them. */
  datatype Chunk = Chunk(bytes: string, err: ReadError)

  function Arriving(chunks: seq<Chunk>): string {
    if chunks == [] then "" else chunks[0].bytes + Arriving(chunks[1..])
  }

  /** What `turns` reads deliver, by a reader that gives up at the first error. */
  function Delivered(chunks: seq<Chunk>, turns: nat): string {
    if turns == 0 || chunks == [] then ""
    else chunks[0].bytes + if chunks[0].err == NoError then Delivered(chunks[1..], turns - 1) else ""
  }

  /** How many reads succeed before the first error. */
  function Quiet(chunks: seq<Chunk>): nat {
    if chunks == [] || chunks[0].err != NoError then 0 else 1 + Quiet(chunks[1..])
  }

  /** A link with nothing left reports end of file. */
  function FirstError(chunks: seq<Chunk>): (err: ReadError)
    ensures err != NoError
  {
    if chunks == [] then EOF else if chunks[0].err != NoError then chunks[0].err else FirstError(chunks[1..])
  }

  /** How many chunks `turns` reads take in: all of these, or up to and with the first error, or what there is. */
  function ChunksRead(chunks: seq<Chunk>, turns: nat): (n: nat)
    ensures n <= |chunks|
  {
    var n := if turns <= Quiet(chunks) then turns else Quiet(chunks) + 1;
    if n <= |chunks| then n else |chunks|
  }

  lemma {:induction false} DeliveredIsArriving(chunks: seq<Chunk>, turns: nat)
    ensures Delivered(chunks, turns) == Arriving(chunks[..ChunksRead(chunks, turns)])
  {
    if turns > 0 && chunks != [] {
      if chunks[0].err == NoError {
        DeliveredIsArriving(chunks[1..], turns - 1);
        var n := ChunksRead(chunks[1..], turns - 1);
        assert ChunksRead(chunks, turns) == n + 1;
        assert chunks[..n + 1][1..] == chunks[1..][..n];
      } else {
        assert chunks[..1][1..] == [];
      }
    }
  }

  /** One read: the next chunk, or end of file when there is none. */
  predicate Yields(before: seq<Chunk>, bytes: string, err: ReadError, after: seq<Chunk>) {
    if before == [] then bytes == "" && err == EOF && after == []
    else after == before[1..] && Chunk(bytes, err) == before[0]
  }

  /** What a read loop can expect as it starts: all bytes to come, those it will be given, and what ends it. */
  datatype Prospect = Prospect(all: string, given: string, quiet: nat, failure: ReadError)

  function Expect(pending: string, chunks: seq<Chunk>, limit: nat): Prospect {
    Prospect(pending + Arriving(chunks), pending + Delivered(chunks, limit), Quiet(chunks), FirstError(chunks))
  }

  /** It has read `turns` times without an error, of at most `limit` times, and got these bytes. */
  predicate Underway(p: Prospect, got: string, chunks: seq<Chunk>, turns: nat, limit: nat) {
    && turns <= limit
    && p.all == got + Arriving(chunks) && p.given == got + Delivered(chunks, limit - turns)
    && p.quiet == turns + Quiet(chunks) && p.failure == FirstError(chunks)
  }

  lemma {:induction false} ReadOn(
      p: Prospect, got: string, before: seq<Chunk>, bytes: string, err: ReadError, after: seq<Chunk>,
      turns: nat, limit: nat)
    requires Underway(p, got, before, turns, limit) && turns < limit && Yields(before, bytes, err, after)
    ensures p.all == got + bytes + Arriving(after) && got + bytes <= p.given
    ensures err == NoError ==> Underway(p, got + bytes, after, turns + 1, limit)
    ensures err != NoError ==> p.given == got + bytes && p.quiet == turns && p.failure == err
  {
    var more := if err == NoError then Delivered(after, limit - turns - 1) else "";
    Regroup(got, bytes, Arriving(after));
    Regroup(got, bytes, more);
  }

  lemma {:induction false} StartsOut(pending: string, chunks: seq<Chunk>, limit: nat)
    ensures Underway(Expect(pending, chunks, limit), pending, chunks, 0, limit)
  {
  }

  lemma {:induction false} RunsOut(p: Prospect, got: string, chunks: seq<Chunk>, limit: nat)
    requires Underway(p, got, chunks, limit, limit)
    ensures p.all == got + Arriving(chunks) && p.given == got && p.quiet >= limit
  {
    assert Delivered(chunks, 0) == "";
  }

  /** A byte link; how it will split what it still has to deliver is up to it. */
  class Transport {
    var coming: seq<Chunk>
    /** Whether the next writes will be accepted; after those, all are. */
    var writes: seq<bool>
    const bufSize: nat

    constructor (chunks: seq<Chunk>, accepting: seq<bool>, n: nat)
      requires forall i :: 0 <= i < |chunks| ==> |chunks[i].bytes| <= n
      ensures Valid() && coming == chunks && writes == accepting && bufSize == n
    {
      coming, writes, bufSize := chunks, accepting, n;
    }

    predicate Valid()
      reads this
    {
      forall i :: 0 <= i < |coming| ==> |coming[i].bytes| <= bufSize
    }

    /** Fills the front of `buf`. A link with nothing left reports end of file. */
    method Read(buf: array<char>) returns (n: nat, err: ReadError)
      requires Valid() && buf.Length == bufSize
      modifies this`coming, buf
      ensures Valid() && n <= buf.Length
      ensures Yields(old(coming), buf[..n], err, coming)
      ensures old(Arriving(coming)) == buf[..n] + Arriving(coming)
    {
      if coming == [] {
        assert buf[..0] == "";
        return 0, EOF;
      }
      var c := coming[0];
      n, err := |c.bytes|, c.err;
      forall i | 0 <= i < n { buf[i] := c.bytes[i]; }
      assert buf[..n] == c.bytes;
      coming := coming[1..];
    }

    method Write(b: string) returns (ok: bool)
      modifies this`writes
      ensures ok == Accepts(old(writes), 0)
      ensures writes == if old(writes) == [] then [] else old(writes)[1..]
    {
      ok := Accepts(writes, 0);
      if writes != [] { writes := writes[1..]; }
    }
  }

  /** Whether the k-th write from now is accepted. */
  predicate Accepts(writes: seq<bool>, k: nat) {
    k < |writes| ==> writes[k]
  }

  // -------------------------------------------------------------- responses

  /** strings.ReplaceAll(s, "\\r", " ") */
  function Spaced(s: string): (r: string)
    ensures |r| == |s|
  {
    seq(|s|, i requires 0 <= i < |s| => if s[i] == CR then ' ' else s[i])
  }

  predicate Trimmed(c: char) {
    c == ' ' || c == '\r' || c == '\n'
  }

  function TrimResponse(s: string): string {
    if s != "" && Trimmed(s[0]) then TrimResponse(s[1..])
    else if s != "" && Trimmed(s[|s| - 1]) then TrimResponse(s[..|s| - 1])
    else s
  }

  /** cleanResponse */
  function CleanResponse(s: string): string {
    TrimResponse(Spaced(s))
  }

  /**
   * `text` is the stretch of `s` from its first to its last character that is no blank and ends no line, with
   * carriage returns inside it turned into blanks.
   */
  ghost predicate IsCleaned(text: string, s: string) {
    exists i :: 0 <= i && i + |text| <= |s| && IsCleanedAt(text, s, i)
  }

  predicate IsCleanedAt(text: string, s: string, i: nat)
    requires i + |text| <= |s|
  {
    var j := i + |text|;
    && (forall k :: 0 <= k < |text| ==> text[k] == if s[i + k] == '\r' then ' ' else s[i + k])
    && (forall k :: 0 <= k < |s| && !(i <= k < j) ==> s[k] == ' ' || s[k] == '\r' || s[k] == '\n')
    && (text != "" ==> s[i] != ' ' && s[i] != '\r' && s[i] != '\n')
    && (text != "" ==> s[j - 1] != ' ' && s[j - 1] != '\r' && s[j - 1] != '\n')
  }

  lemma {:induction false} TrimResponseIs(s: string) returns (i: nat, j: nat)
    ensures i <= j <= |s| && TrimResponse(s) == s[i..j]
    ensures forall k :: 0 <= k < |s| && !(i <= k < j) ==> Trimmed(s[k])
    ensures i < j ==> !Trimmed(s[i]) && !Trimmed(s[j - 1])
  {
    if s != "" && Trimmed(s[0]) {
      i, j := TrimResponseIs(s[1..]);
      assert s[1..][i..j] == s[i + 1..j + 1];
      assert forall k :: 1 <= k < |s| ==> s[k] == s[1..][k - 1];
      i, j := i + 1, j + 1;
    } else if s != "" && Trimmed(s[|s| - 1]) {
      var front := s[..|s| - 1];
      i, j := TrimResponseIs(front);
      assert front[i..j] == s[i..j];
      assert forall k :: 0 <= k < |front| ==> s[k] == front[k];
    } else {
      i, j := 0, |s|;
      assert s[0..|s|] == s;
    }
  }

  lemma {:induction false} CleanResponseIs(s: string)
    ensures IsCleaned(CleanResponse(s), s)
  {
    var t := Spaced(s);
    var i, j := TrimResponseIs(t);
    assert IsCleanedAt(t[i..j], s, i) by {
      forall k | 0 <= k < |s| && !(i <= k < j)
        ensures s[k] == ' ' || s[k] == '\r' || s[k] == '\n'
      {
        assert Trimmed(t[k]);
      }
    }
  }

  /** There is only one such stretch. */
  lemma {:induction false} CleanedIsUnique(a: string, b: string, s: string)
    requires IsCleaned(a, s) && IsCleaned(b, s)
    ensures a == b
  {
    var i :| 0 <= i && i + |a| <= |s| && IsCleanedAt(a, s, i);
    var j :| 0 <= j && j + |b| <= |s| && IsCleanedAt(b, s, j);
    if a != "" || b != "" {
      assert a != "" ==> !(i < j || i >= j + |b|) && !(i + |a| > j + |b| || i + |a| <= j);
      assert b != "" ==> !(j < i || j >= i + |a|) && !(j + |b| > i + |a| || j + |b| <= i);
    }
  }

  /** The '>'-terminated segments of a stream. */
  function Segments(s: string): seq<string> {
    if PROMPT !in s then [] else [s[..First(s, PROMPT)]] + Segments(s[First(s, PROMPT) + 1..])
  }

  /** Where `c` first occurs. */
  function First(s: string, c: char): (i: nat)
    requires c in s
    ensures i < |s| && s[i] == c && c !in s[..i]
  {
    if s[0] == c then 0
    else
      var i := First(s[1..], c);
      assert s[..i + 1] == [s[0]] + s[1..][..i];
      i + 1
  }

  /** Segments with their prompts. */
  function Framed(segs: seq<string>): string {
    if segs == [] then "" else Framed(segs[..|segs| - 1]) + segs[|segs| - 1] + [PROMPT]
  }

  lemma {:induction false} FirstAfter(a: string, c: char, b: string)
    requires c !in a
    ensures (a + [c] + b)[|a|] == c
    ensures First(a + [c] + b, c) == |a|
  {
    var s := a + [c] + b;
    assert s[|a|] == c;
    if a != "" {
      assert s[0] == a[0] && a[0] in a;
      assert s[1..] == a[1..] + [c] + b;
      FirstAfter(a[1..], c, b);
    }
  }

  lemma {:induction false} FirstSegment(seg: string, rest: string)
    requires PROMPT !in seg
    ensures Segments(seg + [PROMPT] + rest) == [seg] + Segments(rest)
  {
    var s := seg + [PROMPT] + rest;
    FirstAfter(seg, PROMPT, rest);
    assert s[..|seg|] == seg && s[|seg| + 1..] == rest;
  }

  /** One more answered command: the next segment of the stream goes from unread to consumed. */
  lemma {:induction false} NextSegment(all: seq<string>, n: nat, seg: string, left: string)
    requires PROMPT !in seg && n <= |all| && Segments(seg + [PROMPT] + left) == all[n..]
    ensures n < |all| && all[n] == seg && Segments(left) == all[n + 1..]
    ensures Framed(all[..n]) + (seg + [PROMPT] + left) == Framed(all[..n + 1]) + left
  {
    hide Segments;
    FirstSegment(seg, left);
    assert all[n..] == [seg] + Segments(left);
    assert all[n..][0] == seg && all[n..][1..] == Segments(left);
    assert all[..n + 1][..n] == all[..n];
  }

  datatype Response = Answer(text: string) | Timeout | LinkEOF | LinkBroken

  // ---------------------------------------------------------------- monitor

  predicate EndsLine(c: char) {
    c == CR || c == PROMPT
  }

  /** Lines, each with what ended it. */
  function Joined(lines: seq<string>, ends: string): string
    requires |lines| == |ends|
  {
    if lines == [] then ""
    else
      var n := |lines| - 1;
      Joined(lines[..n], ends[..n]) + lines[n] + [ends[n]]
  }

  /**
   * The lines of a stream are its pieces between carriage returns and prompts: with these put back, and the
   * unfinished line behind, they are the stream, and none holds either of the two itself.
   */
  lemma {:induction false} LinesArePieces(s: string) returns (ends: string)
    ensures |ends| == |Lines(s)| && s == Joined(Lines(s), ends) + Unfinished(s)
    ensures forall i :: 0 <= i < |ends| ==> ends[i] == '\r' || ends[i] == '>'
    ensures forall i :: 0 <= i < |ends| ==> '\r' !in Lines(s)[i] && '>' !in Lines(s)[i]
    ensures '\r' !in Unfinished(s) && '>' !in Unfinished(s)
  {
    hide Lines, Unfinished;
    if s == "" {
      NothingHeard(false);
      return "";
    }
    var front, c := s[..|s| - 1], s[|s| - 1];
    assert s == front + [c];
    ends := LinesArePieces(front);
    OneMore(front, c);
    if EndsLine(c) {
      var n := |ends|;
      var lines := Lines(front) + [Unfinished(front)];
      assert lines[..n] == Lines(front) && (ends + [c])[..n] == ends;
      ends := ends + [c];
    }
  }

  datatype Event = Heard(frame: Frame) | Garbled(why: Malformed)

  /** What one finished line makes the monitor report. */
  function LineEvents(line: string, extended: bool): seq<Event> {
    if TrimSpace(line) == "" || IsStatusToken(line) then []
    else
      match ParseLine(line, extended)
      case FrameLine(f) => [Heard(f)]
      case BadLine(why) => [Garbled(why)]
  }

  /**
   * A line is reported as a frame exactly when ParseLine reads one, so the checks before it hide none; nothing
   * is reported exactly for a status message or a blank line, and an error only for what is neither.
   */
  lemma {:induction false} LineReportedIff(line: string, extended: bool)
    ensures forall f :: LineEvents(line, extended) == [Heard(f)] <==> ParseLine(line, extended) == FrameLine(f)
    ensures LineEvents(line, extended) == [] <==> IsStatusToken(line)
    ensures (exists why :: LineEvents(line, extended) == [Garbled(why)]) <==>
      ParseLine(line, extended).BadLine? && !IsStatusToken(line)
  {
    hide ParseLine;
    if ParseLine(line, extended).FrameLine? { FramesAreNotStatus(line, extended); }
    BlankIsStatus(line);
    hide IsStatusToken;
    if !IsStatusToken(line) && ParseLine(line, extended).BadLine? {
      assert LineEvents(line, extended) == [Garbled(ParseLine(line, extended).why)];
    }
  }

  lemma {:induction false} BlankIsStatus(line: string)
    ensures TrimSpace(line) == "" ==> IsStatusToken(line)
  {
  }

  /** Position of the last line end, or -1. */
  function LastEnd(s: string): (i: int)
    ensures -1 <= i < |s|
    ensures i >= 0 ==> EndsLine(s[i])
    ensures forall k :: i < k < |s| ==> !EndsLine(s[k])
  {
    if s == "" then -1
    else if EndsLine(s[|s| - 1]) then |s| - 1
    else LastEnd(s[..|s| - 1])
  }

  /** The finished lines of a stream: what stands between line ends. */
  function Lines(s: string): seq<string>
    decreases |s|
  {
    var e := LastEnd(s);
    if e < 0 then []
    else
      var before := s[..e];
      Lines(before) + [before[LastEnd(before) + 1..]]
  }

  function Unfinished(s: string): string {
    s[LastEnd(s) + 1..]
  }

  /** Everything a monitored stream reports, however it was chunked. */
  function Reports(lines: seq<string>, extended: bool): seq<Event> {
    if lines == [] then []
    else Reports(lines[..|lines| - 1], extended) + LineEvents(Without(lines[|lines| - 1], '\n'), extended)
  }

  function StreamReports(s: string, extended: bool): seq<Event> {
    Reports(Lines(s), extended)
  }

  /** The unfinished line and the reports so far are those of the bytes heard. */
  predicate InStep(line: string, events: seq<Event>, heard: string, extended: bool) {
    line == Without(Unfinished(heard), '\n') && events == StreamReports(heard, extended)
  }

  /** How one more byte changes the finished lines and the unfinished one. */
  lemma {:induction false} OneMore(s: string, c: char)
    ensures EndsLine(c) ==> Lines(s + [c]) == Lines(s) + [Unfinished(s)] && Unfinished(s + [c]) == ""
    ensures !EndsLine(c) ==> Lines(s + [c]) == Lines(s) && Unfinished(s + [c]) == Unfinished(s) + [c]
  {
    hide LastEnd, Lines, Unfinished;
    var t, e := s + [c], LastEnd(s);
    LastEndSnoc(s, c);
    UnfinishedSnoc(s, c);
    LinesUnfold(t);
    LinesUnfold(s);
    if EndsLine(c) {
      assert t[..|s|] == s;
    } else if e >= 0 {
      assert t[..e] == s[..e];
    }
  }

  lemma {:induction false} UnfinishedSnoc(s: string, c: char)
    ensures Unfinished(s + [c]) == if EndsLine(c) then "" else Unfinished(s) + [c]
  {
    hide LastEnd, EndsLine;
    LastEndSnoc(s, c);
    var e := LastEnd(s) + 1;
    assert (s + [c])[e..] == s[e..] + [c];
  }

  lemma {:induction false} LastEndSnoc(s: string, c: char)
    ensures LastEnd(s + [c]) == if EndsLine(c) then |s| else LastEnd(s)
  {
    assert (s + [c])[..|s|] == s;
  }

  lemma {:induction false} LinesUnfold(s: string)
    ensures Lines(s) == if LastEnd(s) < 0 then [] else Lines(s[..LastEnd(s)]) + [Unfinished(s[..LastEnd(s)])]
  {
    hide LastEnd;
  }

  lemma {:induction false} WithoutSnoc(s: string, x: char, c: char)
    ensures Without(s + [x], c) == Without(s, c) + if x == c then "" else [x]
  {
    if s == "" {
      assert s + [x] == [x];
    } else {
      var head := if s[0] == c then "" else [s[0]];
      assert (s + [x])[0] == s[0] && (s + [x])[1..] == s[1..] + [x];
      WithoutSnoc(s[1..], x, c);
      var last := if x == c then "" else [x];
      assert head + (Without(s[1..], c) + last) == (head + Without(s[1..], c)) + last;
    }
  }

  datatype MonitorEnd = Stopped | StopFailed | MonitorEOF | MonitorBroken | WriteFailed

  class Device {
    const t: Transport
    /** Reused by every read. */
    const readBuf: array<char>
    /** Bytes read past a prompt; nil when there are none. */
    var pending: array?<char>

    /** `pending` is never a piece of the reused read buffer. */
    ghost predicate Valid()
      reads this, t
    {
      t.Valid() && readBuf.Length == t.bufSize && pending != readBuf
    }

    ghost function Pending(): string
      reads this, pending
    {
      if pending == null then "" else pending[..]
    }

    /** All bytes not yet consumed: those read ahead and those still to come. */
    ghost function Unread(): string
      reads this, pending, t
    {
      Pending() + Arriving(t.coming)
    }

    constructor (link: Transport)
      requires link.Valid()
      ensures Valid() && t == link && pending == null && fresh(readBuf)
    {
      t := link;
      readBuf := new char[link.bufSize];
      pending := null;
    }

    /** indexByte over the first n bytes. */
    method IndexByte(b: array<char>, n: nat, c: char) returns (idx: int)
      requires n <= b.Length
      ensures idx < 0 ==> c !in b[..n]
      ensures idx >= 0 ==> idx < n && b[idx] == c && c !in b[..idx]
    {
      for i := 0 to n
        invariant c !in b[..i]
      {
        if b[i] == c { return i; }
      }
      return -1;
    }

    /** A fresh copy of b[from..to], nil when empty. */
    method CopyOf(b: array<char>, from: nat, to: nat) returns (out: array?<char>)
      requires from <= to <= b.Length
      ensures from == to ==> out == null
      ensures from < to ==> out != null && fresh(out) && out[..] == b[from..to]
    {
      if from == to { return null; }
      out := new char[to - from](i requires 0 <= i < to - from reads b => b[from + i]);
    }

    /** First part of readUntilPrompt: bytes left from the previous read. */
    method TakePending() returns (sb: string, done: bool)
      requires Valid()
      modifies this`pending
      ensures Valid() && PROMPT !in sb
      ensures done ==> old(Pending()) == sb + [PROMPT] + Pending() && (pending == null || fresh(pending))
      ensures !done ==> old(Pending()) == sb && pending == null
    {
      if pending == null { return "", false; }
      var idx := IndexByte(pending, pending.Length, PROMPT);
      assert pending[..pending.Length] == pending[..];
      if idx < 0 {
        sb, done := pending[..], false;
        pending := null;
      } else {
        sb, done := pending[..idx], true;
        assert pending[..] == sb + [PROMPT] + pending[idx + 1..pending.Length];
        pending := CopyOf(pending, idx + 1, pending.Length);
      }
    }

    /** One read of its loop: what the chunk adds to the response, and whether it completes it. */
    method ReadChunk() returns (more: string, done: bool, err: ReadError, ghost chunk: string)
      requires Valid() && pending == null
      modifies this`pending, readBuf, t`coming
      ensures Valid() && PROMPT !in more
      ensures Yields(old(t.coming), chunk, err, t.coming)
      ensures done ==> chunk == more + [PROMPT] + Pending() && (pending == null || fresh(pending))
      ensures !done ==> chunk == more && pending == null
      ensures old(Arriving(t.coming)) == chunk + Arriving(t.coming)
    {
      hide Arriving;
      var n;
      n, err := t.Read(readBuf);
      chunk := readBuf[..n];
      var idx := IndexByte(readBuf, n, PROMPT);
      if idx < 0 { return readBuf[..n], false, err, chunk; }
      more, done := readBuf[..idx], true;
      assert chunk == more + [PROMPT] + readBuf[idx + 1..n];
      pending := CopyOf(readBuf, idx + 1, n);
    }

    /**
     * readUntilPrompt, with a deadline that passes after `patience` reads. It succeeds exactly when a prompt is
     * delivered by then and before the first error. A successful call consumes exactly one prompt-terminated segment
     * of the unread stream, however it is chunked, and returns it cleaned; a failed one consumes all it was given.
     */
    method ReadUntilPrompt(patience: nat) returns (r: Response, ghost seg: string)
      requires Valid()
      modifies this`pending, readBuf, t`coming
      ensures Valid() && (pending == null || fresh(pending)) && PROMPT !in seg
      ensures r.Answer? ==> r.text == CleanResponse(seg) && old(Unread()) == seg + [PROMPT] + Unread()
      ensures r.Answer? ==> IsCleaned(r.text, seg)
      ensures !r.Answer? ==> pending == null && old(Unread()) == seg + Unread()
      ensures r.Answer? <==> PROMPT in old(Pending() + Delivered(t.coming, patience))
      ensures !r.Answer? ==> seg == old(Pending() + Delivered(t.coming, patience))
      ensures r.Timeout? ==> patience <= old(Quiet(t.coming))
      ensures r.LinkEOF? || r.LinkBroken? ==> patience > old(Quiet(t.coming))
      ensures r.LinkEOF? ==> old(FirstError(t.coming)) == EOF
      ensures r.LinkBroken? ==> old(FirstError(t.coming)) == Broken
    {
      hide CleanResponse, Arriving, Delivered, Quiet, FirstError, Yields, Underway, IsCleaned;
      ghost var p := Expect(Pending(), t.coming, patience);
      StartsOut(Pending(), t.coming, patience);
      var sb, done := TakePending();
      if done {
        Regroup(sb + [PROMPT], Pending(), Arriving(t.coming));
        CleanResponseIs(sb);
        return Answer(CleanResponse(sb)), sb;
      }
      var turns: nat := 0;
      while true
        invariant Valid() && pending == null && PROMPT !in sb
        invariant turns <= patience && Underway(p, sb, t.coming, turns, patience)
        decreases patience - turns
      {
        if turns == patience {
          RunsOut(p, sb, t.coming, patience);
          return Timeout, sb;
        }
        ghost var before := t.coming;
        var more, found, err, chunk := ReadChunk();
        ReadOn(p, sb, before, chunk, err, t.coming, turns, patience);
        turns := turns + 1;
        if found {
          CleanResponseIs(sb + more);
          FoundPrompt(sb, more, Pending(), Arriving(t.coming), p.given);
          return Answer(CleanResponse(sb + more)), sb + more;
        }
        sb := sb + more;
        if err == EOF { return LinkEOF, sb; }
        if err == Broken { return LinkBroken, sb; }
      }
    }

    /**
     * k commands in a row: each answer is the next segment of the stream, cleaned. When one fails, the answers so
     * far stand, and what was read in vain holds no prompt.
     */
    method ReadAnswers(k: nat, patience: nat) returns (texts: seq<string>, ok: bool, ghost lost: string)
      requires Valid()
      modifies this`pending, readBuf, t`coming
      ensures Valid()
      ensures |texts| <= k && (ok <==> |texts| == k) && PROMPT !in lost && (ok ==> lost == "")
      ensures
        var all, n := old(Segments(Unread())), |texts|;
        && n <= |all|
        && (forall i :: 0 <= i < n ==> texts[i] == CleanResponse(all[i]) && IsCleaned(texts[i], all[i]))
        && (forall i :: 0 <= i < n ==> PROMPT !in all[i])
        && old(Unread()) == Framed(all[..n]) + (lost + Unread())
        && Segments(lost + Unread()) == all[n..]
    {
      hide CleanResponse, Segments, Arriving, Delivered, Quiet, FirstError, IsCleaned;
      texts, lost := [], "";
      ghost var all, stream := Segments(Unread()), Unread();
      while |texts| < k
        invariant Valid() && (pending == null || fresh(pending) || pending == old(pending))
        invariant |texts| <= |all| && |texts| <= k && Segments(Unread()) == all[|texts|..]
        invariant stream == Framed(all[..|texts|]) + Unread()
        invariant forall i :: 0 <= i < |texts| ==> texts[i] == CleanResponse(all[i]) && IsCleaned(texts[i], all[i])
        invariant forall i :: 0 <= i < |texts| ==> PROMPT !in all[i]
      {
        var r, seg := ReadUntilPrompt(patience);
        if !r.Answer? { return texts, false, seg; }
        NextSegment(all, |texts|, seg, Unread());
        texts := texts + [r.text];
      }
      assert "" + Unread() == Unread();
      return texts, true, "";
    }

    /** The emit closure of Monitor: reports one finished line. */
    static method Emit(line: string, extended: bool, events: seq<Event>) returns (out: seq<Event>)
      ensures out == events + LineEvents(line, extended)
    {
      if TrimSpace(line) == "" { return events; }
      if IsStatusToken(line) { return events; }
      match ParseLine(line, extended)
      case BadLine(why) => return events + [Garbled(why)];
      case FrameLine(f) => return events + [Heard(f)];
    }

    /** feedMonitor: byte by byte, over the first n bytes of a chunk. */
    static method FeedMonitor(
        b: array<char>, n: nat, extended: bool, ghost heard: string, line0: string, events0: seq<Event>)
      returns (line: string, events: seq<Event>)
      requires n <= b.Length
      requires InStep(line0, events0, heard, extended)
      ensures InStep(line, events, heard + b[..n], extended)
    {
      hide Lines, LastEnd, Unfinished, LineEvents, Without;
      line, events := line0, events0;
      assert heard + b[..0] == heard;
      for i := 0 to n
        invariant InStep(line, events, heard + b[..i], extended)
      {
        ghost var s := heard + b[..i];
        assert heard + b[..i + 1] == s + [b[i]];
        OneMore(s, b[i]);
        FeedStep(s, b[i], extended);
        if b[i] == CR || b[i] == PROMPT {
          events := Emit(line, extended, events);
          line := "";
        } else if b[i] != '\n' {
          line := line + [b[i]];
        }
      }
    }

    /** First part of Monitor: bytes left over from earlier reads. */
    method FeedPending(extended: bool) returns (line: string, events: seq<Event>, ghost heard: string)
      requires Valid()
      modifies this`pending
      ensures Valid() && pending == null && heard == old(Pending())
      ensures InStep(line, events, heard, extended)
    {
      hide StreamReports, Without, Unfinished;
      NothingHeard(extended);
      line, events, heard := "", [], Pending();
      if pending != null {
        assert "" + pending[..pending.Length] == pending[..];
        line, events := FeedMonitor(pending, pending.Length, extended, "", line, events);
        pending := null;
      }
    }

    /**
     * Monitor, with a stop that is signalled after `stopAfter` reads. Whatever the chunking, the reports are those of
     * the bytes delivered until then, or until the first error: split at carriage returns and prompts, line feeds
     * ignored, blank and status lines dropped, the rest parsed. No byte is lost but those drained after a stop.
     */
    method Monitor(monitorCmd: string, extended: bool, stopAfter: nat, patience: nat)
      returns (events: seq<Event>, end: MonitorEnd, ghost heard: string, ghost drained: string)
      requires Valid()
      modifies this`pending, readBuf, t`coming, t`writes
      ensures Valid()
      ensures events == StreamReports(heard, extended)
      ensures heard == if end == WriteFailed then "" else old(Pending() + Delivered(t.coming, stopAfter))
      ensures end == WriteFailed <==> !Accepts(old(t.writes), 0)
      ensures end == Stopped || end == StopFailed ==>
        stopAfter <= old(Quiet(t.coming)) && (end == Stopped <==> Accepts(old(t.writes), 1))
      ensures end == MonitorEOF || end == MonitorBroken ==> stopAfter > old(Quiet(t.coming)) && pending == null
      ensures end == MonitorEOF ==> old(FirstError(t.coming)) == EOF
      ensures end == MonitorBroken ==> old(FirstError(t.coming)) == Broken
      ensures old(Unread()) == heard + drained + Unread()
      ensures end != Stopped ==> drained == ""
      ensures PROMPT in drained ==> First(drained, PROMPT) == |drained| - 1
    {
      hide StreamReports, Unfinished, Arriving, Without, First, Delivered, Quiet, FirstError, InStep;
      heard, events, drained := "", [], "";
      NothingHeard(extended);
      var ok := t.Write(monitorCmd + [CR]);
      if !ok { return events, WriteFailed, heard, drained; }
      var line, err;
      line, events, heard := FeedPending(extended);
      events, err, heard := Listen(extended, stopAfter, line, events, heard);
      if err == EOF { return events, MonitorEOF, heard, drained; }
      if err == Broken { return events, MonitorBroken, heard, drained; }
      end, drained := StopMonitor(patience);
      Regroup(heard, drained, Unread());
    }

    /** Its loop: reads until the stop, for which NoError stands, or until an error. */
    method Listen(extended: bool, stopAfter: nat, line0: string, events0: seq<Event>, ghost heard0: string)
      returns (events: seq<Event>, err: ReadError, ghost heard: string)
      requires Valid() && pending == null && InStep(line0, events0, heard0, extended)
      modifies readBuf, t`coming
      ensures Valid()
      ensures events == StreamReports(heard, extended)
      ensures heard == heard0 + old(Delivered(t.coming, stopAfter))
      ensures heard0 + old(Arriving(t.coming)) == heard + Arriving(t.coming)
      ensures err == if stopAfter <= old(Quiet(t.coming)) then NoError else old(FirstError(t.coming))
    {
      hide StreamReports, Unfinished, Arriving, Without, Delivered, Quiet, FirstError, Yields, Underway;
      ghost var p := Expect(heard0, t.coming, stopAfter);
      StartsOut(heard0, t.coming, stopAfter);
      var line;
      line, events, heard := line0, events0, heard0;
      var turns: nat := 0;
      while true
        invariant Valid()
        invariant turns <= stopAfter && Underway(p, heard, t.coming, turns, stopAfter)
        invariant InStep(line, events, heard, extended)
        decreases stopAfter - turns
      {
        if turns == stopAfter {
          RunsOut(p, heard, t.coming, stopAfter);
          return events, NoError, heard;
        }
        ghost var before := t.coming;
        var n;
        n, err := t.Read(readBuf);
        ReadOn(p, heard, before, readBuf[..n], err, t.coming, turns, stopAfter);
        turns := turns + 1;
        line, events := FeedMonitor(readBuf, n, extended, heard, line, events);
        heard := heard + readBuf[..n];
        if err != NoError { return events, err, heard; }
      }
    }

    /**
     * stopMonitor: one byte to break off, then drain to the prompt. What it discards ends at the first prompt
     * still to come, unless the link fails or stays silent before that.
     */
    method StopMonitor(patience: nat) returns (end: MonitorEnd, ghost drained: string)
      requires Valid()
      modifies this`pending, readBuf, t`coming, t`writes
      ensures Valid() && end == if Accepts(old(t.writes), 0) then Stopped else StopFailed
      ensures old(Unread()) == drained + Unread()
      ensures end == StopFailed ==> drained == ""
      ensures PROMPT in drained ==> First(drained, PROMPT) == |drained| - 1
      ensures end == Stopped ==>
        var given := old(Pending() + Delivered(t.coming, patience));
        if PROMPT in given then PROMPT in drained else drained == given && pending == null
    {
      hide CleanResponse, Arriving, Delivered, Quiet, FirstError;
      drained := "";
      var ok := t.Write([CR]);
      if !ok { return StopFailed, drained; }
      var r, seg := ReadUntilPrompt(patience);
      drained := seg + if r.Answer? then [PROMPT] else "";
      FirstAfter(seg, PROMPT, "");
      assert seg + [PROMPT] + "" == seg + [PROMPT];
      return Stopped, drained;
    }
  }

  lemma {:induction false} FoundPrompt(sb: string, more: string, pending: string, rest: string, given: string)
    requires sb + (more + [PROMPT] + pending) <= given
    ensures PROMPT in given
    ensures sb + (more + [PROMPT] + pending) + rest == (sb + more) + [PROMPT] + (pending + rest)
  {
    assert given[|sb| + |more|] == PROMPT;
  }

  /** Two monitors over links that deliver the same bytes, however cut up, report the same frames and errors. */
  method MonitorsAgree(a: Device, b: Device, extended: bool, turnsA: nat, turnsB: nat)
    returns (eventsA: seq<Event>, eventsB: seq<Event>, endA: MonitorEnd, endB: MonitorEnd)
    requires a.Valid() && b.Valid() && a != b && a.t != b.t && a.readBuf != b.readBuf && a.readBuf != b.pending
    requires a.Pending() + Delivered(a.t.coming, turnsA) == b.Pending() + Delivered(b.t.coming, turnsB)
    requires Accepts(a.t.writes, 0) && Accepts(b.t.writes, 0)
    modifies a`pending, a.readBuf, a.t`coming, a.t`writes, b`pending, b.readBuf, b.t`coming, b.t`writes
    ensures eventsA == eventsB
    ensures turnsA > old(|a.t.coming|) && turnsB > old(|b.t.coming|)
      && old(FirstError(a.t.coming)) == old(FirstError(b.t.coming))
      ==> endA == endB
  {
    hide StreamReports, Delivered, FirstError, Arriving, First;
    QuietBound(a.t.coming);
    QuietBound(b.t.coming);
    hide Quiet;
    var patience: nat := *;
    ghost var heard, drained;
    eventsA, endA, heard, drained := a.Monitor("ATMA", extended, turnsA, patience);
    eventsB, endB, heard, drained := b.Monitor("ATMA", extended, turnsB, patience);
  }

  lemma {:induction false} QuietBound(chunks: seq<Chunk>)
    ensures Quiet(chunks) <= |chunks|
  {
    if chunks != [] { QuietBound(chunks[1..]); }
  }

  lemma {:induction false} Regroup(a: string, b: string, c: string)
    ensures a + (b + c) == (a + b) + c
  {
  }

  lemma {:induction false} NothingHeard(extended: bool)
    ensures LastEnd("") == -1 && Lines("") == [] && Unfinished("") == ""
    ensures StreamReports("", extended) == [] && Without(Unfinished(""), '\n') == ""
  {
    hide LineEvents;
    assert LastEnd("") == -1;
    assert Lines("") == [] && Unfinished("") == "";
    assert Reports([], extended) == [];
  }

  lemma {:induction false} FeedStep(s: string, c: char, extended: bool)
    ensures EndsLine(c) ==>
      StreamReports(s + [c], extended)
        == StreamReports(s, extended) + LineEvents(Without(Unfinished(s), '\n'), extended)
      && Without(Unfinished(s + [c]), '\n') == ""
    ensures !EndsLine(c) ==>
      StreamReports(s + [c], extended) == StreamReports(s, extended)
      && Without(Unfinished(s + [c]), '\n') == Without(Unfinished(s), '\n') + if c == '\n' then "" else [c]
  {
    hide Lines, LastEnd, Unfinished, LineEvents;
    OneMore(s, c);
    if EndsLine(c) {
      var lines := Lines(s + [c]);
      assert lines[..|lines| - 1] == Lines(s);
    } else {
      WithoutSnoc(Unfinished(s), c, '\n');
    }
  }

  // --------------------------------------------------- whole printed streams

  /** The stream of an adapter that prints these frames, each on its line. */
  function Printed(frames: seq<Frame>): string
    requires forall i :: 0 <= i < |frames| ==> frames[i].id < Pow16(HeaderDigits(frames[i].extended))
  {
    if frames == [] then ""
    else
      var f := frames[|frames| - 1];
      Printed(frames[..|frames| - 1]) + (HeaderText(f.id, HeaderDigits(f.extended)) + DataText(f.data)) + [CR]
  }

  lemma {:induction false} MoreText(s: string, text: string)
    requires forall i :: 0 <= i < |text| ==> !EndsLine(text[i])
    ensures Lines(s + text) == Lines(s) && Unfinished(s + text) == Unfinished(s) + text
  {
    hide Lines, Unfinished;
    if text == "" {
      assert s + text == s;
    } else {
      var front, c := text[..|text| - 1], text[|text| - 1];
      MoreText(s, front);
      OneMore(s + front, c);
      assert s + text == (s + front) + [c];
    }
  }

  /** A monitor that hears printed frames reports exactly those frames, in order. */
  lemma {:induction false} MonitorHearsPrinted(frames: seq<Frame>, extended: bool)
    requires forall i :: 0 <= i < |frames| ==>
      frames[i].extended == extended && frames[i].id < Pow16(HeaderDigits(extended))
    ensures StreamReports(Printed(frames), extended) == seq(|frames|, i requires 0 <= i < |frames| => Heard(frames[i]))
    ensures Unfinished(Printed(frames)) == ""
  {
    hide StreamReports, Unfinished, HeaderText, DataText, LineEvents;
    if frames == [] {
      NothingHeard(extended);
    } else {
      var front, f := frames[..|frames| - 1], frames[|frames| - 1];
      var text := HeaderText(f.id, HeaderDigits(extended)) + DataText(f.data);
      var s := Printed(front);
      MonitorHearsPrinted(front, extended);
      PrintedLine(f, text);
      AppendLine(s, text, extended);
      assert Printed(frames) == s + text + [CR];
    }
  }

  lemma {:induction false} PrintedLine(f: Frame, text: string)
    requires f.id < Pow16(HeaderDigits(f.extended))
    requires text == HeaderText(f.id, HeaderDigits(f.extended)) + DataText(f.data)
    ensures LineEvents(text, f.extended) == [Heard(f)] && AllHex(text)
  {
    hide HeaderText, DataText, IsStatusToken;
    HeaderReads(f.id, HeaderDigits(f.extended));
    DataReads(f.data);
    ParsesPrintedFrame(f);
    FramesAreNotStatus(text, f.extended);
  }

  lemma {:induction false} AppendLine(s: string, text: string, extended: bool)
    requires AllHex(text) && Unfinished(s) == ""
    ensures StreamReports(s + text + [CR], extended) == StreamReports(s, extended) + LineEvents(text, extended)
    ensures Unfinished(s + text + [CR]) == ""
  {
    hide Lines, Unfinished, LineEvents;
    MoreText(s, text);
    NoLineFeed(text);
    FeedStep(s + text, CR, extended);
    OneMore(s + text, CR);
    assert "" + text == text;
  }

  lemma {:induction false} NoLineFeed(s: string)
    requires AllHex(s)
    ensures Without(s, '\n') == s
  {
    if s != "" { NoLineFeed(s[1..]); }
  }
}
