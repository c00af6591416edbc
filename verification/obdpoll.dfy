/** Polled responses: the frames of a command answer, and their agreement with the monitor. */
module ObdPoll {
  import opened Bytes
  import opened ObdDevice
  import opened ObdFrame
  import opened Text

  /** strings.Split(s, " "), the pieces before the last one. */
  function FullPieces(s: string): seq<string> {
    if s == "" then []
    else
      var front, c := s[..|s| - 1], s[|s| - 1];
      FullPieces(front) + if c == ' ' then [LastPiece(front)] else []
  }

  function LastPiece(s: string): string {
    if s == "" || s[|s| - 1] == ' ' then "" else LastPiece(s[..|s| - 1]) + [s[|s| - 1]]
  }

  function Split(s: string): seq<string> {
    FullPieces(s) + [LastPiece(s)]
  }

  function PieceFrames(piece: string, extended: bool): seq<Frame> {
    var line := TrimSpace(piece);
    if line == "" || IsStatusToken(line) then []
    else
      match ParseLine(line, extended)
      case FrameLine(f) => [f]
      case BadLine(_) => []
  }

  function AllFrames(pieces: seq<string>, extended: bool): seq<Frame> {
    if pieces == [] then []
    else AllFrames(pieces[..|pieces| - 1], extended) + PieceFrames(pieces[|pieces| - 1], extended)
  }

  /** parseResponseFrames */
  method ParseResponseFrames(resp: string, extended: bool) returns (frames: seq<Frame>)
    ensures frames == AllFrames(Split(resp), extended)
  {
    hide IsStatusToken, ParseLine, TrimSpace, Split;
    frames := [];
    var pieces := Split(resp);
    for i := 0 to |pieces|
      invariant frames == AllFrames(pieces[..i], extended)
    {
      assert pieces[..i + 1][..i] == pieces[..i];
      var line := TrimSpace(pieces[i]);
      if line == "" || IsStatusToken(line) { continue; }
      match ParseLine(line, extended) {
        case FrameLine(f) => frames := frames + [f];
        case BadLine(_) =>
      }
    }
    assert pieces[..|pieces|] == pieces;
  }

  /** The frames among what a monitor reports. */
  function HeardFrames(events: seq<Event>): seq<Frame> {
    if events == [] then []
    else
      var last := events[|events| - 1];
      HeardFrames(events[..|events| - 1]) + if last.Heard? then [last.frame] else []
  }

  lemma {:induction false} HeardConcat(a: seq<Event>, b: seq<Event>)
    ensures HeardFrames(a + b) == HeardFrames(a) + HeardFrames(b)
  {
    if b == [] {
      assert a + b == a;
    } else {
      HeardConcat(a, b[..|b| - 1]);
      assert (a + b)[..|a + b| - 1] == a + b[..|b| - 1];
    }
  }

  lemma {:induction false} FramesConcat(a: seq<string>, b: seq<string>, extended: bool)
    ensures AllFrames(a + b, extended) == AllFrames(a, extended) + AllFrames(b, extended)
  {
    hide PieceFrames;
    if b == [] {
      assert a + b == a;
    } else {
      FramesConcat(a, b[..|b| - 1], extended);
      assert (a + b)[..|a + b| - 1] == a + b[..|b| - 1];
    }
  }

  /** With spaces and linefeeds switched off, a line holds no white space at all. */
  predicate Compact(s: string) {
    forall i :: 0 <= i < |s| ==> s[i] == CR || !IsSpace(s[i])
  }

  /** Blanks at the ends of a response add only empty pieces. */
  lemma {:induction false} LeadingBlank(s: string, extended: bool)
    ensures FullPieces(" " + s) == [""] + FullPieces(s) && LastPiece(" " + s) == LastPiece(s)
  {
    if s == "" {
      assert " " + s == " ";
    } else {
      var front := s[..|s| - 1];
      assert (" " + s)[..|s|] == " " + front;
      LeadingBlank(front, extended);
    }
  }

  lemma {:induction false} EmptyPiece(extended: bool)
    ensures PieceFrames("", extended) == [] && AllFrames([""], extended) == []
  {
    assert [""][..0] == [];
  }

  lemma {:induction false} TrimKeepsFrames(s: string, extended: bool)
    requires forall i :: 0 <= i < |s| ==> s[i] == ' ' || !IsSpace(s[i])
    ensures AllFrames(Split(TrimResponse(s)), extended) == AllFrames(Split(s), extended)
  {
    hide PieceFrames, AllFrames;
    EmptyPiece(extended);
    if s != "" && Trimmed(s[0]) {
      assert s == " " + s[1..];
      LeadingBlank(s[1..], extended);
      assert Split(s) == [""] + Split(s[1..]);
      FramesConcat([""], Split(s[1..]), extended);
      TrimKeepsFrames(s[1..], extended);
      assert [] + AllFrames(Split(s[1..]), extended) == AllFrames(Split(s[1..]), extended);
    } else if s != "" && Trimmed(s[|s| - 1]) {
      var front := s[..|s| - 1];
      assert Split(s) == Split(front) + [""];
      FramesConcat(Split(front), [""], extended);
      TrimKeepsFrames(front, extended);
      assert AllFrames(Split(front), extended) + [] == AllFrames(Split(front), extended);
    }
  }

  /** Splitting the spaced response at blanks and the raw one at line ends is the same. */
  lemma {:induction false} PiecesAreLines(s: string)
    requires Compact(s) && PROMPT !in s
    ensures FullPieces(Spaced(s)) == Lines(s) && LastPiece(Spaced(s)) == Unfinished(s)
  {
    hide Lines, Unfinished;
    if s == "" {
      NothingHeard(false);
    } else {
      var front, c := s[..|s| - 1], s[|s| - 1];
      assert s == front + [c];
      PiecesAreLines(front);
      OneMore(front, c);
      assert Spaced(s)[..|s| - 1] == Spaced(front);
    }
  }

  lemma {:induction false} CompactPieces(s: string, i: nat)
    requires Compact(s) && i < |Lines(s + [CR])|
    ensures forall k :: 0 <= k < |Lines(s + [CR])[i]| ==> !IsSpace(Lines(s + [CR])[i][k])
  {
    LinesAreCompact(s + [CR], i);
  }

  lemma {:induction false} LinesAreCompact(s: string, i: nat)
    requires Compact(s) && i < |Lines(s)|
    ensures forall k :: 0 <= k < |Lines(s)[i]| ==> !IsSpace(Lines(s)[i][k])
    decreases |s|
  {
    hide LastEnd, Lines, Unfinished, IsSpace;
    LinesUnfold(s);
    var before := s[..LastEnd(s)];
    if i < |Lines(before)| {
      LinesAreCompact(before, i);
    } else {
      UnfinishedIsCompact(before);
    }
  }

  lemma {:induction false} UnfinishedIsCompact(s: string)
    requires Compact(s)
    ensures forall k :: 0 <= k < |Unfinished(s)| ==> !IsSpace(Unfinished(s)[k])
  {
    hide LastEnd, IsSpace;
    forall k | 0 <= k < |Unfinished(s)|
      ensures !IsSpace(Unfinished(s)[k])
    {
      assert !EndsLine(s[LastEnd(s) + 1 + k]);
    }
  }

  /** On a line without white space, polling and monitoring see the same frame. */
  lemma {:induction false} SameFrame(line: string, extended: bool)
    requires forall k :: 0 <= k < |line| ==> !IsSpace(line[k])
    ensures HeardFrames(LineEvents(Without(line, '\n'), extended)) == PieceFrames(line, extended)
  {
    hide IsStatusToken, ParseLine;
    NoTrim(line);
    WithoutAbsent(line, '\n');
    var events := LineEvents(line, extended);
    if |events| == 1 { assert events[..0] == []; }
  }

  lemma {:induction false} WithoutAbsent(s: string, c: char)
    requires forall k :: 0 <= k < |s| ==> s[k] != c
    ensures Without(s, c) == s
  {
    if s != "" { WithoutAbsent(s[1..], c); }
  }

  lemma {:induction false} SameFrames(lines: seq<string>, extended: bool)
    requires forall i, k :: 0 <= i < |lines| && 0 <= k < |lines[i]| ==> !IsSpace(lines[i][k])
    ensures HeardFrames(Reports(lines, extended)) == AllFrames(lines, extended)
  {
    hide LineEvents, PieceFrames;
    if lines != [] {
      var front, last := lines[..|lines| - 1], lines[|lines| - 1];
      SameFrames(front, extended);
      SameFrame(last, extended);
      HeardConcat(Reports(front, extended), LineEvents(Without(last, '\n'), extended));
    }
  }

  /** The frames of a polled answer are the frames a monitor would have heard in the same bytes. */
  lemma {:induction false} PollAgreesWithMonitor(seg: string, extended: bool)
    requires Compact(seg) && PROMPT !in seg
    ensures AllFrames(Split(CleanResponse(seg)), extended) == HeardFrames(StreamReports(seg + [CR], extended))
  {
    hide AllFrames, HeardFrames, Reports, Lines, Unfinished;
    TrimKeepsFrames(Spaced(seg), extended);
    PiecesAreLines(seg);
    OneMore(seg, CR);
    var lines := Lines(seg + [CR]);
    assert Split(Spaced(seg)) == lines;
    forall i, k | 0 <= i < |lines| && 0 <= k < |lines[i]|
      ensures !IsSpace(lines[i][k])
    {
      CompactPieces(seg, i);
    }
    SameFrames(lines, extended);
  }

  /**
   * They differ when the adapter prints a blank between header and data: the monitor hears the frame, the poller,
   * which takes header and data for two lines, one without data.
   */
  lemma {:induction false} BlankLosesData(id: nat, data: seq<Byte>)
    requires id < Pow16(HeaderDigits(false)) && data != []
    ensures
      var line := HeaderText(id, HeaderDigits(false)) + " " + DataText(data);
      && LineEvents(line, false) == [Heard(Frame(id, false, data))]
      && AllFrames(Split(line), false) == [Frame(id, false, [])]
  {
    hide HeaderText, DataText, ParseLine, LineEvents, AllFrames, PieceFrames, Split;
    var h, d := HeaderText(id, HeaderDigits(false)), DataText(data);
    HeaderReads(id, HeaderDigits(false));
    DataReads(data);
    SplitAtBlank(h, d);
    PieceOfHeader(id, h);
    PieceOfData(d);
    TwoPieces(h, d);
    ParsesPrintedFrame(Frame(id, false, data));
    SameClean(h, d);
    LineReportedIff(h + " " + d, false);
  }

  lemma {:induction false} TwoPieces(h: string, d: string)
    ensures AllFrames([h, d], false) == PieceFrames(h, false) + PieceFrames(d, false)
  {
    hide PieceFrames;
    assert [h, d][..1] == [h] && [h][..0] == [];
    assert AllFrames([h], false) == [] + PieceFrames(h, false);
  }

  lemma {:induction false} PieceOfHeader(id: nat, h: string)
    requires id < Pow16(HeaderDigits(false)) && h == HeaderText(id, HeaderDigits(false)) && AllHex(h)
    ensures PieceFrames(h, false) == [Frame(id, false, [])]
  {
    hide HeaderText, IsStatusToken, ParseLine;
    ParsesPrintedFrame(Frame(id, false, []));
    assert h + DataText([]) == h;
    FramesAreNotStatus(h, false);
    NoTrim(h);
  }

  /** An even number of digits is never an 11-bit header and whole bytes. */
  lemma {:induction false} PieceOfData(d: string)
    requires AllHex(d) && |d| % 2 == 0
    ensures PieceFrames(d, false) == []
  {
    hide IsStatusToken, ParseLine;
    AcceptsHexLines(d, false);
    NoTrim(d);
    WithoutHex(d);
  }

  lemma {:induction false} SameClean(h: string, d: string)
    requires AllHex(h) && AllHex(d) && h != "" && d != ""
    ensures ParseLine(h + " " + d, false) == ParseLine(h + d, false)
  {
    var line := h + " " + d;
    assert line[0] == h[0] && line[|line| - 1] == d[|d| - 1];
    assert TrimSpace(line) == line;
    WithoutBlank(h, d);
    assert AllHex(h + d);
    NoTrim(h + d);
    WithoutHex(h + d);
  }

  lemma {:induction false} WithoutBlank(h: string, d: string)
    requires AllHex(h) && AllHex(d)
    ensures Without(h + " " + d, ' ') == h + d
  {
    if h == "" {
      assert (h + " " + d)[1..] == d;
      WithoutHex(d);
    } else {
      assert (h + " " + d)[1..] == h[1..] + " " + d;
      WithoutBlank(h[1..], d);
      assert h + d == [h[0]] + (h[1..] + d);
    }
  }

  lemma {:induction false} NoBlank(s: string)
    requires AllHex(s)
    ensures FullPieces(s) == [] && LastPiece(s) == s
  {
    if s != "" { NoBlank(s[..|s| - 1]); }
  }

  lemma {:induction false} SplitAtBlank(h: string, d: string)
    requires AllHex(h) && AllHex(d)
    ensures Split(h + " " + d) == [h, d]
  {
    PiecesAtBlank(h, d);
    assert [h] + [d] == [h, d];
  }

  lemma {:induction false} PiecesAtBlank(h: string, d: string)
    requires AllHex(h) && AllHex(d)
    ensures FullPieces(h + " " + d) == [h] && LastPiece(h + " " + d) == d
  {
    var s := h + " " + d;
    if d == "" {
      NoBlank(h);
      assert s[..|s| - 1] == h;
    } else {
      assert s[..|s| - 1] == h + " " + d[..|d| - 1];
      PiecesAtBlank(h, d[..|d| - 1]);
    }
  }
}
