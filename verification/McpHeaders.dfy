/** Header blocks as any client may write them: any headers, any case, either line end (cmd/src/mcp.rs). */
module McpHeaders {
  import opened Text
  import opened Multiline
  import opened Mcp

  // ----- One header -----

  /** A header: its name, and whatever else stands on its line, a carriage return at the end with the rest. */
  datatype Header = Header(name: string, value: string)

  predicate IsHeader(h: Header) {
    h.name != "" && ':' !in h.name && '\n' !in h.name && '\n' !in h.value && IsAscii(h.name) && IsAscii(h.value)
  }

  function LineOf(h: Header): string {
    h.name + ":" + h.value + "\n"
  }

  /** What a header says the length is: nothing unless it is named so, in whatever case, and its value is a number. */
  function Says(h: Header): Option<nat> {
    if EqualsIgnoringCase(h.name, "content-length") then ParseLength(Trim(h.value)) else None
  }

  /** The first header that says it decides; without one the body is empty. */
  function SaidLength(hs: seq<Header>): nat {
    if hs == [] then 0 else if Says(hs[0]).Some? then Says(hs[0]).value else SaidLength(hs[1..])
  }

  function Block(hs: seq<Header>): string {
    Joined(LinesOf(hs))
  }

  function LinesOf(hs: seq<Header>): (lines: seq<string>)
    ensures |lines| == |hs| && forall i :: 0 <= i < |hs| ==> lines[i] == LineOf(hs[i])
  {
    seq(|hs|, i requires 0 <= i < |hs| => LineOf(hs[i]))
  }

  function Joined(lines: seq<string>): string {
    if lines == [] then "" else lines[0] + Joined(lines[1..])
  }

  // ----- Numbers -----

  /** A length is written with an optional plus and digits, and read if a word holds it. */
  lemma LengthsRead(s: string, n: nat)
    ensures ParseLength(s) == Some(n)
        <==> n < USIZE && exists digits: string :: Spells(digits, n) && (s == digits || s == "+" + digits)
  {
    var digits := if s != "" && s[0] == '+' then s[1..] else s;
    if ParseLength(s) == Some(n) {
      assert Spells(digits, n);
      assert s == digits || s == "+" + digits;
    }
    if d: string :| Spells(d, n) && (s == d || s == "+" + d) {
      assert d[0] in d;
      assert ("+" + d)[1..] == d;
      assert digits == d;
    }
  }

  predicate Spells(digits: string, n: nat) {
    digits != "" && (forall c <- digits :: IsAsciiDigit(c)) && DigitsValue(digits) == n
  }

  // ----- One line -----

  lemma ColonEndsTheName(name: string, value: string)
    requires ':' !in name
    ensures IndexFrom(name + ":" + value, ":", 0) == Some(|name|)
  {
    hide IndexFrom;
    var line := name + ":" + value;
    assert ContainsAt(line, ":", |name|);
    forall j: nat | j < |name|
      ensures !ContainsAt(line, ":", j)
    {
      assert line[j] == name[j] && name[j] in name;
      NotAt(line, ":", j, 0);
    }
    FirstIsFound(line, ":", |name|);
  }

  /** A line is read at its first colon: the name in any case, the value trimmed. */
  lemma LineSays(name: string, value: string)
    requires ':' !in name
    ensures LengthOfLine(name + ":" + value) == Says(Header(name, value))
  {
    hide IndexFrom, EqualsIgnoringCase, ParseLength, Trim;
    ColonEndsTheName(name, value);
    var line := name + ":" + value;
    assert line[..|name|] == name && line[|name| + 1..] == value;
  }

  lemma {:induction false} TrimStartMore(s: string)
    ensures TrimStart(s + "\r") == if IsBlank(s) then "" else TrimStart(s) + "\r"
  {
    if s != "" && IsWhitespace(s[0]) {
      assert (s + "\r")[1..] == s[1..] + "\r";
      assert s == [s[0]] + s[1..];
      TrimStartMore(s[1..]);
    } else if s == "" {
      assert (s + "\r")[1..] == "";
    } else {
      assert s[0] in s;
    }
  }

  lemma TrimDropsReturn(s: string)
    ensures Trim(s + "\r") == Trim(s)
  {
    TrimStartMore(s);
    TrimBlank(s);
    if !IsBlank(s) {
      assert (TrimStart(s) + "\r")[..|TrimStart(s)|] == TrimStart(s);
    }
  }

  lemma StrippedLineSays(h: Header)
    requires IsHeader(h)
    ensures LengthOfLine(StripCarriageReturn(h.name + ":" + h.value)) == Says(h)
  {
    hide IndexFrom, EqualsIgnoringCase, ParseLength, Trim, LengthOfLine;
    var line := h.name + ":" + h.value;
    if h.value != "" && h.value[|h.value| - 1] == '\r' {
      var value := h.value[..|h.value| - 1];
      assert value + "\r" == h.value;
      assert StripCarriageReturn(line) == h.name + ":" + value;
      TrimDropsReturn(value);
      LineSays(h.name, value);
    } else {
      assert StripCarriageReturn(line) == line;
      LineSays(h.name, h.value);
    }
  }

  // ----- A block of lines, read line by line -----

  /** Whole lines, none of them blank. */
  predicate IsLine(line: string) {
    && line != "" && line[|line| - 1] == '\n' && !IsBlankLine(line)
    && forall j :: 0 <= j < |line| - 1 ==> line[j] != '\n'
  }

  lemma LineIsTaken(line: string, rest: string)
    requires IsLine(line)
    ensures LineLength(line + rest) == |line| > 0 && !IsBlankLine(line)
    ensures (line + rest)[..|line|] == line && (line + rest)[|line|..] == rest
  {
    LineLengthIs(line, rest);
  }

  lemma OneLineIsRead(headers: string, line: string, rest: string)
    requires IsLine(line)
    ensures ReadHeaders(headers, line + rest) == if |headers + line| > MAX_HEADERS then Failed(HeadersTooLarge)
                                                 else ReadHeaders(headers + line, rest)
  {
    hide LineLength, IsLine, IsBlankLine;
    LineIsTaken(line, rest);
  }

  lemma BlankIsRead(headers: string, blank: string, tail: string)
    requires IsBlankLine(blank)
    ensures ReadHeaders(headers, blank + tail) == Frame(headers + blank, tail)
  {
    hide LineLength;
    LineLengthIs(blank, tail);
  }

  lemma {:induction false} LinesAreRead(headers: string, lines: seq<string>, blank: string, tail: string)
    requires (forall line <- lines :: IsLine(line)) && IsBlankLine(blank)
    ensures ReadHeaders(headers, Joined(lines) + blank + tail)
         == if lines != [] && |headers + Joined(lines)| > MAX_HEADERS then Failed(HeadersTooLarge)
            else Frame(headers + Joined(lines) + blank, tail)
    decreases |lines|
  {
    hide ReadHeaders, IsLine, IsBlankLine;
    if lines == [] {
      assert Joined(lines) + blank + tail == blank + tail;
      BlankIsRead(headers, blank, tail);
      assert headers + "" == headers;
    } else {
      var line, rest := lines[0], Joined(lines[1..]) + blank + tail;
      assert Joined(lines) + blank + tail == line + rest;
      assert line in lines && forall l <- lines[1..] :: l in lines;
      OneLineIsRead(headers, line, rest);
      assert headers + Joined(lines) == headers + line + Joined(lines[1..]);
      LinesAreRead(headers + line, lines[1..], blank, tail);
    }
  }

  lemma LineOfIsALine(h: Header)
    requires IsHeader(h)
    ensures IsLine(LineOf(h)) && IsLine(LineOf(h)[1..])
  {
    var line := LineOf(h);
    assert line[|h.name|] == ':';
    forall j | 0 <= j < |line| - 1
      ensures line[j] != '\n'
    {
      if j < |h.name| {
        assert line[j] == h.name[j] && h.name[j] in h.name;
      } else if j > |h.name| {
        assert line[j] == h.value[j - |h.name| - 1] && h.value[j - |h.name| - 1] in h.value;
      }
    }
    assert line[1..][|h.name| - 1] == ':';
  }

  // ----- The same block, split for its length -----

  lemma LineIsSplit(line: string, rest: string)
    requires '\n' !in line
    ensures Lines(line + "\n" + rest) == [StripCarriageReturn(line)] + Lines(rest)
  {
    var s := line + "\n" + rest;
    forall j | 0 <= j < |line|
      ensures s[j] != '\n'
    {
      assert s[j] == line[j] && line[j] in line;
    }
    assert s[|line|] == '\n';
    assert FirstNewline(s) == |line|;
    assert s[..|line|] == line && s[|line| + 1..] == rest;
  }

  lemma {:induction false} BlockSays(hs: seq<Header>, blank: string)
    requires (forall h <- hs :: IsHeader(h)) && IsBlankLine(blank)
    ensures FirstLength(Lines(Block(hs) + blank)) == SaidLength(hs)
    decreases |hs|
  {
    hide LengthOfLine, Says, StripCarriageReturn, Lines;
    if hs == [] {
      assert LinesOf(hs) == [];
      BlankSaysNothing(blank);
    } else {
      var h := hs[0];
      assert h in hs && forall g <- hs[1..] :: g in hs;
      assert LinesOf(hs)[1..] == LinesOf(hs[1..]);
      var line := h.name + ":" + h.value;
      assert '\n' !in line;
      assert Block(hs) + blank == line + "\n" + (Block(hs[1..]) + blank);
      LineIsSplit(line, Block(hs[1..]) + blank);
      StrippedLineSays(h);
      BlockSays(hs[1..], blank);
      var first, more := StripCarriageReturn(line), Lines(Block(hs[1..]) + blank);
      assert ([first] + more)[1..] == more;
    }
  }

  lemma BlankSaysNothing(blank: string)
    requires IsBlankLine(blank)
    ensures FirstLength(Lines("" + blank)) == 0
  {
    assert "" + blank == blank;
    assert blank == "\r\n" || blank == "\n";
    LineIsSplit(blank[..|blank| - 1], "");
    assert blank == blank[..|blank| - 1] + "\n" + "";
    assert Lines(blank) == [""];
    assert FirstLength([""]) == FirstLength([]);
  }

  lemma {:induction false} BlockIsAscii(hs: seq<Header>)
    requires forall h <- hs :: IsHeader(h)
    ensures IsAscii(Block(hs))
  {
    if hs != [] {
      assert hs[0] in hs && forall g <- hs[1..] :: g in hs;
      assert LinesOf(hs)[1..] == LinesOf(hs[1..]);
      BlockIsAscii(hs[1..]);
      var h := hs[0];
      assert IsAscii(LineOf(h)) by {
        assert forall c <- LineOf(h) :: c in h.name || c == ':' || c in h.value || c == '\n';
      }
      assert forall c <- Block(hs) :: c in LineOf(h) || c in Block(hs[1..]);
    }
  }

  // ----- A whole frame -----

  lemma BlockMore(first: Header, more: seq<Header>)
    ensures Block([first] + more) == LineOf(first) + Block(more)
  {
    assert LinesOf([first] + more)[1..] == LinesOf(more);
  }

  lemma LinesAreLines(hs: seq<Header>)
    requires forall h <- hs :: IsHeader(h)
    ensures forall line <- LinesOf(hs) :: IsLine(line)
  {
    hide IsLine, LineOf, IsHeader;
    forall line | line in LinesOf(hs)
      ensures IsLine(line)
    {
      var i :| 0 <= i < |hs| && LinesOf(hs)[i] == line;
      assert hs[i] in hs;
      LineOfIsALine(hs[i]);
    }
  }

  /** The first octet is read ahead of its line. */
  lemma FirstLineIsRead(line: string, lines: seq<string>, blank: string, tail: string)
    requires IsLine(line) && IsLine(line[1..]) && (forall l <- lines :: IsLine(l)) && IsBlankLine(blank)
    ensures var block := line + Joined(lines);
            ReadHeaders(line[..1], line[1..] + Joined(lines) + blank + tail)
            == if |block| > MAX_HEADERS then Failed(HeadersTooLarge) else Frame(block + blank, tail)
  {
    var all := [line[1..]] + lines;
    hide ReadHeaders, IsLine, IsBlankLine;
    assert all[1..] == lines;
    assert Joined(all) == line[1..] + Joined(lines);
    hide Joined;
    assert line[..1] + Joined(all) == line + Joined(lines);
    LinesAreRead(line[..1], all, blank, tail);
  }

  lemma DataIsCut(line: string, more: string, blank: string, tail: string)
    requires line != ""
    ensures var data := line + more + blank + tail;
            && data != "" && data[0] == line[0]
            && data[..1] == line[..1] && data[1..] == line[1..] + more + blank + tail
  {
  }

  lemma NameOpensTheLine(h: Header)
    requires IsHeader(h)
    ensures LineOf(h) != "" && LineOf(h)[0] == h.name[0]
  {
  }

  lemma BlockIsRead(first: Header, more: seq<Header>, blank: string, tail: string)
    requires IsHeader(first) && (forall h <- more :: IsHeader(h)) && IsBlankLine(blank) && first.name[0] != '{'
    ensures var block := LineOf(first) + Block(more);
            var data := block + blank + tail;
            && data != "" && data[0] != '{'
            && ReadHeaders(data[..1], data[1..])
               == if |block| > MAX_HEADERS then Failed(HeadersTooLarge) else Frame(block + blank, tail)
  {
    NameOpensTheLine(first);
    hide ReadHeaders, IsLine, LinesOf, IsHeader, LineOf, Joined, IsBlankLine;
    LineOfIsALine(first);
    LinesAreLines(more);
    FirstLineIsRead(LineOf(first), LinesOf(more), blank, tail);
    DataIsCut(LineOf(first), Block(more), blank, tail);
  }

  /** Whatever headers stand in front and however they are written, a frame is its block and as much behind it as the
      first length says; a block past 64 KiB is refused, and so is a body the stream does not hold. */
  lemma AnyBlockIsRead(lossy: Decoder, first: Header, more: seq<Header>, blank: string, tail: string)
    requires KeepsAscii(lossy) && IsHeader(first) && (forall h <- more :: IsHeader(h)) && IsBlankLine(blank)
    requires first.name[0] != '{'
    ensures var hs := [first] + more;
            var n := SaidLength(hs);
            ReadOne(lossy, Block(hs) + blank + tail)
            == if |Block(hs)| > 64 * 1024 then Failed(HeadersTooLarge)
               else if n > ISIZE_MAX then Panicked
               else if n > |tail| then Failed(UnexpectedEof)
               else Frame(Block(hs) + blank + tail[..n], tail[n..])
  {
    hide ReadHeaders, FirstLength, Lines, Block, LineOf, SaidLength, IsAscii, IsHeader, IsBlankLine;
    var hs := [first] + more;
    assert forall h <- hs :: IsHeader(h);
    BlockMore(first, more);
    BlockIsRead(first, more, blank, tail);
    BlockSays(hs, blank);
    BlockIsAscii(hs);
    BlankIsAscii(Block(hs), blank);
  }

  lemma BlankIsAscii(block: string, blank: string)
    requires IsAscii(block) && IsBlankLine(blank)
    ensures IsAscii(block + blank)
  {
    assert forall c <- block + blank :: c in block || c in blank;
  }
}
