/** One line of an ELM327/STN device: a hex-encoded CAN frame or a status message. */
module ObdFrame {
  import opened Bytes
  import opened Text

  datatype Frame = Frame(id: nat, extended: bool, data: seq<Byte>)

  /** The errors of ParseLine. */
  datatype Malformed = NotAFrame | ShortHeader | BadIdentifier | OddPayload | BadPayload

  datatype Parsed = FrameLine(frame: Frame) | BadLine(why: Malformed)

  const NON_FRAME_TOKENS: set<string> := {
    "OK", "NO DATA", "CAN ERROR", "BUFFER FULL", "BUS BUSY", "BUS ERROR", "DATA ERROR", "STOPPED", "SEARCHING",
    "UNABLE TO CONNECT", "?", ""
  }

  predicate IsStatusToken(line: string) {
    var up := ToUpper(TrimSpace(line));
    up in NON_FRAME_TOKENS || "SEARCHING" <= up || "ELM327" <= up || "STN" <= up || "OBDLINK" <= up
  }

  function HeaderDigits(extended: bool): nat {
    if extended then 8 else 3
  }

  /** hex.DecodeString on an even number of hex digits. */
  function HexBytes(s: string): (b: seq<Byte>)
    requires AllHex(s) && |s| % 2 == 0
    ensures |b| == |s| / 2
  {
    seq(|s| / 2, i requires 0 <= i < |s| / 2 => 16 * Digit(s[2 * i]) + Digit(s[2 * i + 1]))
  }

  function Clean(line: string): string {
    Without(TrimSpace(line), ' ')
  }

  function ParseLine(line: string, extended: bool): Parsed {
    var clean := Clean(line);
    var idLen := HeaderDigits(extended);
    if IsStatusToken(clean) then BadLine(NotAFrame)
    else if |clean| < idLen then BadLine(ShortHeader)
    else
      match ParseUint32(clean[..idLen])
      case None => BadLine(BadIdentifier)
      case Some(id) =>
        var payload := clean[idLen..];
        if |payload| % 2 != 0 then BadLine(OddPayload)
        else if !AllHex(payload) then BadLine(BadPayload)
        else FrameLine(Frame(id, extended, HexBytes(payload)))
  }

  // ------------------------------------------------------------- properties

  /** The messages an adapter prints instead of frames, however they are cased and whatever blanks surround them. */
  lemma {:induction false} StatusMessages(line: string)
    ensures
      var up := ToUpper(TrimSpace(line));
      (up == "OK" || up == "NO DATA" || up == "CAN ERROR" || up == "BUFFER FULL" || up == "BUS BUSY"
       || up == "BUS ERROR" || up == "DATA ERROR" || up == "STOPPED" || up == "UNABLE TO CONNECT" || up == "?"
       || up == "" || "SEARCHING" <= up || "ELM327" <= up || "STN" <= up || "OBDLINK" <= up)
      <==> IsStatusToken(line)
  {
  }

  /** Which error ParseLine gives for a line it does not accept. */
  lemma {:induction false} ErrorsTell(line: string, extended: bool)
    requires ParseLine(line, extended).BadLine?
    ensures
      var c, n, why := Clean(line), if extended then 8 else 3, ParseLine(line, extended).why;
      && (why == NotAFrame <==> IsStatusToken(c))
      && (why == ShortHeader <==> !IsStatusToken(c) && |c| < n)
      && (why == BadIdentifier <==> !IsStatusToken(c) && |c| >= n && !AllHex(c[..n]))
      && (why == OddPayload <==> !IsStatusToken(c) && |c| >= n && AllHex(c[..n]) && (|c| - n) % 2 == 1)
      && (why == BadPayload <==>
            !IsStatusToken(c) && |c| >= n && AllHex(c[..n]) && (|c| - n) % 2 == 0 && !AllHex(c[n..]))
  {
    hide IsStatusToken, HexValue, HexBytes;
    var c, n := Clean(line), HeaderDigits(extended);
    Pow16Values();
    if |c| >= n && AllHex(c[..n]) { HexValueBound(c[..n]); }
  }

  /** Every status message has, among its first three characters, one that is neither a hex digit nor a space. */
  lemma {:induction false} StatusLetter(line: string) returns (k: nat)
    requires IsStatusToken(line) && TrimSpace(line) != ""
    ensures k < |TrimSpace(line)| && !IsHex(TrimSpace(line)[k]) && TrimSpace(line)[k] != ' '
  {
    var up := ToUpper(TrimSpace(line));
    if up in NON_FRAME_TOKENS {
      k := if !IsHex(up[0]) then 0 else if !IsHex(up[1]) then 1 else 2;
    } else {
      k := if "ELM327" <= up then 1 else 0;
    }
    assert !IsHex(up[k]) && up[k] != ' ';
    assert up[k] == Upper(TrimSpace(line)[k]);
  }

  lemma {:induction false} HexIsNoStatus(s: string)
    requires AllHex(s) && s != ""
    ensures !IsStatusToken(s)
  {
    NoTrim(s);
    if IsStatusToken(s) {
      var k := StatusLetter(s);
      assert false;
    }
  }

  lemma {:induction false} WithoutKeeps(s: string, c: char, k: nat)
    requires k < |s| && s[k] != c
    ensures s[k] in Without(s, c)
  {
    if k > 0 { WithoutKeeps(s[1..], c, k - 1); }
  }

  /** ParseLine accepts exactly the lines that are, spaces aside, a whole header and an even number of digits. */
  lemma {:induction false} AcceptsHexLines(line: string, extended: bool)
    ensures
      var c := Clean(line);
      ParseLine(line, extended).FrameLine? <==>
        AllHex(c) && |c| >= HeaderDigits(extended) && (|c| - HeaderDigits(extended)) % 2 == 0
  {
    hide IsStatusToken, HexBytes, HexValue;
    var c, n := Clean(line), HeaderDigits(extended);
    Pow16Values();
    if |c| >= n {
      assert c == c[..n] + c[n..];
      if AllHex(c) {
        HexIsNoStatus(c);
        HexValueBound(c[..n]);
      } else {
        assert !AllHex(c[..n]) || !AllHex(c[n..]);
      }
    }
  }

  /** So no line that ParseLine would accept is dropped as a status message. */
  lemma {:induction false} FramesAreNotStatus(line: string, extended: bool)
    requires ParseLine(line, extended).FrameLine?
    ensures !IsStatusToken(line) && TrimSpace(line) != ""
  {
    hide IsStatusToken;
    AcceptsHexLines(line, extended);
    if TrimSpace(line) != "" && IsStatusToken(line) {
      var k := StatusLetter(line);
      WithoutKeeps(TrimSpace(line), ' ', k);
    }
  }

  // ------------------------------------------------- what the adapter prints

  /** The data bytes as the adapter prints them: two digits each. */
  function DataText(data: seq<Byte>): (s: string)
    ensures |s| == 2 * |data|
  {
    seq(2 * |data|, i requires 0 <= i < 2 * |data| =>
      UpperDigit(if i % 2 == 0 then data[i / 2] / 16 else data[i / 2] % 16))
  }

  /** The header, zero-padded to its width. */
  function HeaderText(id: nat, width: nat): string
    requires id < Pow16(width)
  {
    var s := Digits(id, (d: Nibble) => UpperDigit(d));
    DigitsLength(id, (d: Nibble) => UpperDigit(d), width);
    seq(width - |s|, _ => '0') + s
  }

  lemma {:induction false} HeaderReads(id: nat, width: nat)
    requires id < Pow16(width)
    ensures |HeaderText(id, width)| == width && AllHex(HeaderText(id, width)) && HexValue(HeaderText(id, width)) == id
  {
    DigitsRead(id, (d: Nibble) => UpperDigit(d));
    DigitsLength(id, (d: Nibble) => UpperDigit(d), width);
    var s := Digits(id, (d: Nibble) => UpperDigit(d));
    LeadingZeros(width - |s|, s);
  }

  lemma {:induction false} DataTextAt(data: seq<Byte>, i: nat)
    requires i < |data|
    ensures
      var s := DataText(data);
      && IsHex(s[2 * i]) && IsHex(s[2 * i + 1])
      && Digit(s[2 * i]) == data[i] / 16 && Digit(s[2 * i + 1]) == data[i] % 16
  {
    hide UpperDigit;
    assert (2 * i) / 2 == i && (2 * i + 1) / 2 == i;
  }

  lemma {:induction false} DataReads(data: seq<Byte>)
    ensures AllHex(DataText(data)) && HexBytes(DataText(data)) == data
  {
    var s := DataText(data);
    forall k | 0 <= k < |s|
      ensures IsHex(s[k])
    {
      hide UpperDigit;
    }
    assert AllHex(s);
    forall i | 0 <= i < |data|
      ensures HexBytes(s)[i] == data[i]
    {
      hide DataText;
      DataTextAt(data, i);
    }
  }

  lemma {:induction false} WithoutHex(s: string)
    requires AllHex(s)
    ensures Without(s, ' ') == s
  {
    if s != "" { WithoutHex(s[1..]); }
  }

  /** ParseLine inverts the adapter's printing of a frame. */
  lemma {:induction false} ParsesPrintedFrame(f: Frame)
    requires f.id < Pow16(HeaderDigits(f.extended))
    ensures ParseLine(HeaderText(f.id, HeaderDigits(f.extended)) + DataText(f.data), f.extended) == FrameLine(f)
  {
    hide IsStatusToken, HeaderText, DataText, HexBytes, HexValue;
    var n := HeaderDigits(f.extended);
    var h, d := HeaderText(f.id, n), DataText(f.data);
    HeaderReads(f.id, n);
    DataReads(f.data);
    Pow16Values();
    assert AllHex(h + d);
    NoTrim(h + d);
    WithoutHex(h + d);
    HexIsNoStatus(h + d);
    assert (h + d)[..n] == h && (h + d)[n..] == d;
  }
}
