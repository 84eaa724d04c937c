/** Message framing on the tool server's standard input and output, in both dialects (cmd/src/mcp.rs).
    A string here is a run of octets, one to a character. */
module Mcp {
  import opened Text
  import opened Multiline

  const MAX_HEADERS := 64 * 1024
  const USIZE := 0x1_0000_0000_0000_0000
  const ISIZE_MAX := 0x7FFF_FFFF_FFFF_FFFF    // the longest a buffer can be

  /** Octets as text, what is not UTF-8 replaced. Of the library's decoding only this is used: it leaves ASCII alone. */
  type Decoder = string -> string

  predicate IsAscii(s: string) {
    forall c <- s :: c < '\U{0080}'
  }

  ghost predicate KeepsAscii(lossy: Decoder) {
    forall s :: IsAscii(s) ==> lossy(s) == s
  }

  // ----- Writing -----

  function EncodeFrame(body: string, contentLength: bool): string {
    if contentLength then "Content-Length: " + Decimal(|body|) + "\r\n\r\n" + body else body + "\n"
  }

  // ----- Reading -----

  datatype ReadError = HeadersTooLarge | UnexpectedEof

  /** Asking for more than a buffer can be stops the process. */
  datatype ReadResult = Frame(frame: string, rest: string) | Eof | Failed(error: ReadError) | Panicked

  /** Through the next line feed, or to the end. */
  function LineLength(data: string): (n: nat)
    ensures n <= |data| && (data != "" ==> n > 0)
    ensures n > 0 ==> forall j :: 0 <= j < n - 1 ==> data[j] != '\n'
    ensures n == |data| || (n > 0 && data[n - 1] == '\n')
  {
    if data == "" then 0 else if data[0] == '\n' then 1 else 1 + LineLength(data[1..])
  }

  predicate IsBlankLine(line: string) {
    line == "\r\n" || line == "\n"
  }

  /** Header lines up to and with the blank one. */
  function ReadHeaders(headers: string, data: string): ReadResult
    decreases |data|
  {
    var n := LineLength(data);
    if n == 0 then Eof
    else
      var line, rest := data[..n], data[n..];
      if IsBlankLine(line) then Frame(headers + line, rest)
      else if |headers + line| > MAX_HEADERS then Failed(HeadersTooLarge)
      else ReadHeaders(headers + line, rest)
  }

  /** A number the way the language parses one: an optional plus, digits, and no more than a word holds. */
  function ParseLength(s: string): Option<nat> {
    var digits := if s != "" && s[0] == '+' then s[1..] else s;
    if digits == "" || exists c <- digits :: !IsAsciiDigit(c) then None
    else if DigitsValue(digits) >= USIZE then None
    else Some(DigitsValue(digits))
  }

  function LengthOfLine(line: string): Option<nat> {
    match IndexFrom(line, ":", 0)
    case None => None
    case Some(colon) =>
      if EqualsIgnoringCase(line[..colon], "content-length") then ParseLength(Trim(line[colon + 1..])) else None
  }

  /** The first line that names a length one can read. */
  function FirstLength(lines: seq<string>): nat {
    if lines == [] then 0
    else if LengthOfLine(lines[0]).Some? then LengthOfLine(lines[0]).value
    else FirstLength(lines[1..])
  }

  function ReadBody(lossy: Decoder, headers: string, data: string): ReadResult {
    var n := FirstLength(Lines(lossy(headers)));
    if n > ISIZE_MAX then Panicked
    else if n > |data| then Failed(UnexpectedEof) else Frame(headers + data[..n], data[n..])
  }

  function ReadOne(lossy: Decoder, data: string): ReadResult {
    if data == "" then Eof
    else if data[0] == '{' then
      var n := LineLength(data[1..]);
      Frame(data[..n + 1], data[n + 1..])
    else
      match ReadHeaders(data[..1], data[1..])
      case Frame(headers, rest) => ReadBody(lossy, headers, rest)
      case other => other
  }

  /** Standard input: what is still to be read. */
  class Reader {
    var data: string

    constructor (data: string)
      ensures this.data == data
    {
      this.data := data;
    }

    method ReadUntilNewline() returns (line: string)
      modifies this
      ensures line == old(data)[..LineLength(old(data))] && data == old(data)[LineLength(old(data))..]
    {
      var n := LineLength(data);
      line := data[..n];
      data := data[n..];
    }

    method ReadFrame(lossy: Decoder) returns (result: ReadResult)
      modifies this
      ensures result == ReadOne(lossy, old(data))
      ensures result.Frame? ==> data == result.rest
    {
      if data == "" {
        return Eof;
      }
      var first := data[..1];
      data := data[1..];
      if first == "{" {
        var rest := ReadUntilNewline();
        return Frame(first + rest, data);
      }
      var headers := first;
      ghost var goal := ReadHeaders(headers, data);
      while true
        invariant ReadHeaders(headers, data) == goal
        decreases |data|
      {
        var line := ReadUntilNewline();
        if line == "" {
          return Eof;
        }
        var blank := line == "\r\n" || line == "\n";
        headers := headers + line;
        if blank {
          break;
        }
        if |headers| > MAX_HEADERS {
          return Failed(HeadersTooLarge);
        }
      }
      assert goal == Frame(headers, data);
      var n := FirstLength(Lines(lossy(headers)));
      if n > ISIZE_MAX {
        return Panicked;
      }
      if n > |data| {
        return Failed(UnexpectedEof);
      }
      result := Frame(headers + data[..n], data[n..]);
      data := data[n..];
    }
  }

  // ----- Taking a frame apart -----

  function UsesContentLength(frame: string): bool {
    |frame| > 14 && EqualsIgnoringCase(frame[..14], "content-length")
  }

  function BodyOf(frame: string): string {
    match IndexFrom(frame, "\r\n\r\n", 0)
    case Some(i) => frame[i + 4..]
    case None =>
      match IndexFrom(frame, "\n\n", 0)
      case Some(i) => frame[i + 2..]
      case None => frame
  }

  // ----- Nothing on the wire is lost or read twice -----

  lemma {:induction false} HeadersAreAPrefix(headers: string, data: string)
    requires ReadHeaders(headers, data).Frame?
    ensures var r := ReadHeaders(headers, data);
            headers + data == r.frame + r.rest
    decreases |data|
  {
    var n := LineLength(data);
    assert headers + data == headers + data[..n] + data[n..];
    if !IsBlankLine(data[..n]) {
      HeadersAreAPrefix(headers + data[..n], data[n..]);
    }
  }

  lemma CountedFrameIsTaken(lossy: Decoder, data: string)
    requires data != "" && data[0] != '{' && ReadOne(lossy, data).Frame?
    ensures data == ReadOne(lossy, data).frame + ReadOne(lossy, data).rest && ReadOne(lossy, data).frame != ""
  {
    hide ReadHeaders, FirstLength;
    var h := ReadHeaders(data[..1], data[1..]);
    HeadersAreAPrefix(data[..1], data[1..]);
    assert data == data[..1] + data[1..] == h.frame + h.rest;
    var n := FirstLength(Lines(lossy(h.frame)));
    assert h.rest == h.rest[..n] + h.rest[n..];
    assert h.frame + h.rest == (h.frame + h.rest[..n]) + h.rest[n..];
    if ReadOne(lossy, data).frame == "" {
      assert n == 0 && h.frame == "";
      HeadersAreNotEmpty(data[..1], data[1..]);
    }
  }

  lemma {:induction false} HeadersAreNotEmpty(headers: string, data: string)
    requires headers != "" && ReadHeaders(headers, data).Frame?
    ensures ReadHeaders(headers, data).frame != ""
    decreases |data|
  {
    var n := LineLength(data);
    if !IsBlankLine(data[..n]) {
      HeadersAreNotEmpty(headers + data[..n], data[n..]);
    }
  }

  /** Whatever the stream holds, a frame that is read is exactly what was taken off it. */
  lemma ReadTakesWhatItReturns(lossy: Decoder, data: string)
    requires ReadOne(lossy, data).Frame?
    ensures data == ReadOne(lossy, data).frame + ReadOne(lossy, data).rest && ReadOne(lossy, data).frame != ""
  {
    if data[0] == '{' {
      var n := LineLength(data[1..]);
      assert data == data[..n + 1] + data[n + 1..];
    } else {
      CountedFrameIsTaken(lossy, data);
    }
  }

  // ----- Reading back what was written -----

  datatype Message = Message(body: string, contentLength: bool)

  /** A newline message opens with a brace and is one line; a counted one may hold anything a buffer can. */
  predicate Sendable(m: Message) {
    if m.contentLength then |m.body| <= ISIZE_MAX
    else m.body != "" && m.body[0] == '{' && '\n' !in m.body
  }

  lemma LineLengthIs(line: string, rest: string)
    requires line != "" && line[|line| - 1] == '\n' && forall j :: 0 <= j < |line| - 1 ==> line[j] != '\n'
    ensures LineLength(line + rest) == |line|
    ensures (line + rest)[..|line|] == line && (line + rest)[|line|..] == rest
  {
    var data := line + rest;
    assert data[|line| - 1] == '\n';
    assert forall j :: 0 <= j < |line| - 1 ==> data[j] == line[j];
  }

  lemma ReadNewlineMessage(lossy: Decoder, body: string, rest: string)
    requires body != "" && body[0] == '{' && '\n' !in body
    ensures ReadOne(lossy, EncodeFrame(body, false) + rest) == Frame(EncodeFrame(body, false), rest)
  {
    var frame := body + "\n";
    var data := frame + rest;
    LineLengthIs(frame[1..], rest);
    assert data[1..] == frame[1..] + rest;
    assert data[..|frame|] == frame && data[|frame|..] == rest;
  }

  const NAME := "Content-Length: "

  function HeaderLine(n: nat): string {
    NAME + Decimal(n) + "\r\n"
  }

  lemma HeaderLineIsALine(n: nat)
    ensures var h := HeaderLine(n);
            && |h| == 18 + |Decimal(n)| && h[0] == 'C' && h[|h| - 1] == '\n'
            && (forall j :: 0 <= j < |h| - 1 ==> h[j] != '\n')
  {
    var d := Decimal(n);
    forall j | 0 <= j < |HeaderLine(n)| - 1
      ensures HeaderLine(n)[j] != '\n'
    {
      if 16 <= j < 16 + |d| {
        assert HeaderLine(n)[j] == d[j - 16] && d[j - 16] in d;
      }
    }
  }

  /** The header block of a counted message is read as two lines: the length, and the blank. */
  lemma ReadCountedHeaders(n: nat, rest: string)
    requires n < USIZE
    ensures ReadHeaders("C", HeaderLine(n)[1..] + ("\r\n" + rest)) == Frame(HeaderLine(n) + "\r\n", rest)
  {
    hide Decimal;
    var h := HeaderLine(n);
    var data := h[1..] + ("\r\n" + rest);
    HeaderLineIsALine(n);
    LengthFits(n);
    LineLengthIs(h[1..], "\r\n" + rest);
    LineLengthIs("\r\n", rest);
    assert "C" + h[1..] == h;
    assert h[1..][0] == h[1] == 'o';
    assert ReadHeaders("C", data) == ReadHeaders(h, "\r\n" + rest);
  }

  lemma LengthFits(n: nat)
    requires n < USIZE
    ensures |Decimal(n)| <= 20
  {
    assert Ten(4) == 10_000 && Ten(8) == 10_000 * Ten(4) && Ten(12) == 10_000 * Ten(8);
    assert Ten(16) == 10_000 * Ten(12) && Ten(20) == 10_000 * Ten(16);
    DecimalLength(n, 20);
  }

  lemma HeaderIsAscii(n: nat)
    ensures IsAscii(HeaderLine(n) + "\r\n")
  {
    hide Decimal;
    assert IsAscii(NAME) && IsAscii("\r\n");
    assert forall c <- HeaderLine(n) + "\r\n" :: c in NAME || c in Decimal(n) || c in "\r\n";
  }

  lemma HeaderNamesTheLength(n: nat)
    requires n < USIZE
    ensures FirstLength(Lines(HeaderLine(n) + "\r\n")) == n
  {
    var line := NAME + Decimal(n);
    LinesOfHeaders(line);
    assert HeaderLine(n) + "\r\n" == line + "\r\n\r\n";
    LengthLineParses(n);
  }

  lemma LinesOfHeaders(line: string)
    requires line != "" && '\n' !in line
    ensures Lines(line + "\r\n\r\n") == [line, ""]
  {
    var s := line + "\r\n\r\n";
    forall j | 0 <= j < |line| + 1
      ensures s[j] != '\n'
    {
      assert j < |line| ==> s[j] == line[j] && line[j] in line;
    }
    assert s[|line| + 1] == '\n';
    assert FirstNewline(s) == |line| + 1;
    assert s[..|line| + 1] == line + "\r";
    assert s[|line| + 2..] == "\r\n";
    assert FirstNewline("\r\n") == 1 && "\r\n"[..1] == "\r" && "\r\n"[2..] == "";
    assert Lines("\r\n") == [""];
  }

  lemma ColonIsFound(d: string)
    ensures IndexFrom(NAME + d, ":", 0) == Some(14)
    ensures (NAME + d)[..14] == "Content-Length" && (NAME + d)[15..] == " " + d
  {
    var line := NAME + d;
    assert line[14..15] == ":";
    forall j: nat | j < 14
      ensures !ContainsAt(line, ":", j)
    {
      assert line[j] == NAME[j];
      NotAt(line, ":", j, 0);
    }
    FirstIsFound(line, ":", 14);
  }

  lemma LengthLineParses(n: nat)
    requires n < USIZE
    ensures '\n' !in NAME + Decimal(n)
    ensures LengthOfLine(NAME + Decimal(n)) == Some(n)
  {
    var d := Decimal(n);
    DecimalValue(n);
    hide Decimal, IndexFrom, EqualsIgnoringCase, Trim;
    ColonIsFound(d);
    NameMatches();
    DigitsTrim(d);
    assert d[0] in d;
  }

  lemma NameMatches()
    ensures EqualsIgnoringCase("Content-Length", "content-length")
  {
  }

  lemma DigitsTrim(d: string)
    requires d != "" && forall c <- d :: IsAsciiDigit(c)
    ensures Trim(" " + d) == d
  {
    assert (" " + d)[1..] == d;
    assert d[0] in d && d[|d| - 1] in d;
    assert TrimStart(" " + d) == TrimStart(d) == d;
  }

  /** A counted frame with what follows it: its header line, the blank line, its body. */
  lemma CountedFrameLaidOut(body: string, rest: string)
    ensures var h := HeaderLine(|body|);
            var frame := EncodeFrame(body, true);
            && frame == h + "\r\n" + body
            && (frame + rest)[..1] == "C" && (frame + rest)[0] != '{'
            && (frame + rest)[1..] == h[1..] + ("\r\n" + (body + rest))
  {
    hide Decimal;
    HeaderLineIsALine(|body|);
    EncodedFrameIs(body);
    hide HeaderLine, EncodeFrame;
    FrontTaken(HeaderLine(|body|), "\r\n", body, rest);
  }

  lemma EncodedFrameIs(body: string)
    ensures EncodeFrame(body, true) == HeaderLine(|body|) + "\r\n" + body
  {
    hide Decimal;
    assert "\r\n\r\n" == "\r\n" + "\r\n";
    var head := NAME + Decimal(|body|);
    assert head + "\r\n\r\n" == head + "\r\n" + "\r\n";
  }

  lemma FrontTaken(h: string, blank: string, body: string, rest: string)
    requires h != ""
    ensures (h + blank + body + rest)[..1] == [h[0]]
    ensures (h + blank + body + rest)[1..] == h[1..] + (blank + (body + rest))
  {
  }

  lemma ReadCountedMessage(lossy: Decoder, body: string, rest: string)
    requires KeepsAscii(lossy) && |body| <= ISIZE_MAX
    ensures ReadOne(lossy, EncodeFrame(body, true) + rest) == Frame(EncodeFrame(body, true), rest)
  {
    hide ReadHeaders, FirstLength, Lines, HeaderLine, EncodeFrame, IsAscii;
    CountedFrameLaidOut(body, rest);
    ReadCountedHeaders(|body|, body + rest);
    HeaderNamesTheLength(|body|);
    HeaderIsAscii(|body|);
    assert (body + rest)[..|body|] == body && (body + rest)[|body|..] == rest;
  }

  /** A message, whatever follows it on the stream, is read back as the frame it was written as. */
  lemma ReadMessage(lossy: Decoder, m: Message, rest: string)
    requires KeepsAscii(lossy) && Sendable(m)
    ensures var frame := EncodeFrame(m.body, m.contentLength);
            ReadOne(lossy, frame + rest) == Frame(frame, rest)
  {
    if m.contentLength {
      ReadCountedMessage(lossy, m.body, rest);
    } else {
      ReadNewlineMessage(lossy, m.body, rest);
    }
  }

  function Stream(ms: seq<Message>): string {
    if ms == [] then "" else EncodeFrame(ms[0].body, ms[0].contentLength) + Stream(ms[1..])
  }

  /** Every frame of a stream, read one after the other until the input ends. */
  function ReadAll(lossy: Decoder, data: string): Option<seq<string>>
    decreases |data|
  {
    match ReadOne(lossy, data)
    case Eof => Some([])
    case Failed(_) => None
    case Panicked => None
    case Frame(frame, rest) =>
      ReadTakesWhatItReturns(lossy, data);
      var more := ReadAll(lossy, rest);
      if more.None? then None else Some([frame] + more.value)
  }

  function Frames(ms: seq<Message>): seq<string> {
    if ms == [] then [] else [EncodeFrame(ms[0].body, ms[0].contentLength)] + Frames(ms[1..])
  }

  /** Any mix of the two dialects reads back as exactly the messages sent, in order, and then the end of input. */
  lemma {:induction false} StreamRoundTrip(lossy: Decoder, ms: seq<Message>)
    requires KeepsAscii(lossy) && forall m <- ms :: Sendable(m)
    ensures ReadAll(lossy, Stream(ms)) == Some(Frames(ms))
    decreases |ms|
  {
    hide ReadOne, EncodeFrame, Sendable;
    if ms == [] {
      NothingToRead(lossy);
    } else {
      assert ms[0] in ms;
      assert forall m <- ms[1..] :: m in ms;
      ReadMessage(lossy, ms[0], Stream(ms[1..]));
      ReadTakesWhatItReturns(lossy, Stream(ms));
      StreamRoundTrip(lossy, ms[1..]);
    }
  }

  lemma NothingToRead(lossy: Decoder)
    ensures ReadOne(lossy, "") == Eof
  {
  }

  /** The frame gives back its dialect, and its body: whole when counted, and with its line end otherwise. */
  lemma FrameComesApart(m: Message)
    requires Sendable(m)
    ensures var frame := EncodeFrame(m.body, m.contentLength);
            && UsesContentLength(frame) == m.contentLength
            && BodyOf(frame) == if m.contentLength then m.body else m.body + "\n"
  {
    if m.contentLength {
      CountedFrameComesApart(m.body);
    } else {
      NewlineFrameComesApart(m.body);
    }
  }

  lemma CountedFrameComesApart(body: string)
    ensures UsesContentLength(EncodeFrame(body, true)) && BodyOf(EncodeFrame(body, true)) == body
  {
    var h := HeaderLine(|body|);
    var frame := EncodeFrame(body, true);
    HeaderLineIsALine(|body|);
    assert frame == h + ("\r\n" + body);
    var k := |h| - 2;
    assert ContainsAt(frame, "\r\n\r\n", k) by {
      assert frame[k..k + 4] == "\r\n\r\n";
    }
    forall j: nat | j < k
      ensures !ContainsAt(frame, "\r\n\r\n", j)
    {
      assert frame[j + 1] == h[j + 1];
      NotAt(frame, "\r\n\r\n", j, 1);
    }
    FirstIsFound(frame, "\r\n\r\n", k);
    assert frame[k + 4..] == body;
    assert frame[..14] == "Content-Length";
    NameMatches();
  }

  lemma NoBlankLine(body: string, j: nat)
    requires '\n' !in body
    ensures !ContainsAt(body + "\n", "\r\n\r\n", j) && !ContainsAt(body + "\n", "\n\n", j)
  {
    hide ContainsAt;
    var frame := body + "\n";
    assert j + 1 < |body| ==> frame[j + 1] == body[j + 1] && body[j + 1] in body;
    assert j < |body| ==> frame[j] == body[j] && body[j] in body;
    NotAt(frame, "\r\n\r\n", j, if j + 1 < |body| then 1 else 3);
    NotAt(frame, "\n\n", j, if j < |body| then 0 else 1);
  }

  lemma BraceIsNoHeader(frame: string)
    requires frame != "" && frame[0] == '{'
    ensures !UsesContentLength(frame)
  {
    if |frame| > 14 {
      assert Lower(frame[..14])[0] == '{' && Lower("content-length")[0] == 'c';
    }
  }

  lemma NewlineFrameComesApart(body: string)
    requires body != "" && body[0] == '{' && '\n' !in body
    ensures !UsesContentLength(body + "\n") && BodyOf(body + "\n") == body + "\n"
  {
    hide ContainsAt, UsesContentLength;
    forall j: nat
      ensures !ContainsAt(body + "\n", "\r\n\r\n", j) && !ContainsAt(body + "\n", "\n\n", j)
    {
      NoBlankLine(body, j);
    }
    BraceIsNoHeader(body + "\n");
  }
}
