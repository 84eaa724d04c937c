/** Text as its octets, and back: section 3 of RFC 3629. */
module Utf8 {
  import opened Text

  /** The octets of one character; its code point is below 0x11_0000. */
  function CharOctets(c: char): (bytes: seq<byte>)
    ensures bytes != []
  {
    var n := c as int;
    if n < 0x80 then [n]
    else if n < 0x800 then [0xC0 + n / 64, 0x80 + n % 64]
    else if n < 0x1_0000 then [0xE0 + n / 4096, 0x80 + n / 64 % 64, 0x80 + n % 64]
    else [0xF0 + n / 262_144, 0x80 + n / 4096 % 64, 0x80 + n / 64 % 64, 0x80 + n % 64]
  }

  function Octets(s: string): seq<byte> {
    if s == [] then [] else CharOctets(s[0]) + Octets(s[1..])
  }

  function CharOf(n: int): Option<char> {
    if 0 <= n < 0xD800 || 0xE000 <= n < 0x11_0000 then Some(n as char) else None
  }

  /** How many octets a character opening with this one has. */
  function Width(lead: byte): nat {
    if lead < 0x80 then 1 else if lead < 0xE0 then 2 else if lead < 0xF0 then 3 else 4
  }

  /** What an octet carries over its marker bits. */
  function Over(b: int, marker: int): int {
    b - marker
  }

  function Joined(high: int, low: int): int {
    high * 64 + low
  }

  function CodePoint(bytes: seq<byte>): int
    requires bytes != [] && |bytes| == Width(bytes[0])
  {
    if |bytes| == 1 then bytes[0]
    else if |bytes| == 2 then Joined(Over(bytes[0], 0xC0), Over(bytes[1], 0x80))
    else if |bytes| == 3 then Joined(Joined(Over(bytes[0], 0xE0), Over(bytes[1], 0x80)), Over(bytes[2], 0x80))
    else
      Joined(Joined(Joined(Over(bytes[0], 0xF0), Over(bytes[1], 0x80)), Over(bytes[2], 0x80)), Over(bytes[3], 0x80))
  }

  /** Reading octets as text; None for what no text is written as. */
  function Read(bytes: seq<byte>): Option<string> {
    if bytes == [] then Some([])
    else
      var w := Width(bytes[0]);
      if |bytes| < w then None
      else
        var c, rest := CharOf(CodePoint(bytes[..w])), Read(bytes[w..]);
        if c.None? || rest.None? then None else Some([c.value] + rest.value)
  }

  lemma SixBitDigits(n: nat)
    ensures Joined(n / 64, n % 64) == n
    ensures Joined(n / 4096, n / 64 % 64) == n / 64
    ensures Joined(n / 262_144, n / 4096 % 64) == n / 4096
  {
    assert n / 64 / 64 == n / 4096;
    assert n / 4096 / 64 == n / 262_144;
  }

  lemma CharReadsBack(c: char)
    ensures var bytes := CharOctets(c);
            |bytes| == Width(bytes[0]) && CharOf(CodePoint(bytes)) == Some(c)
  {
    SixBitDigits(c as int);
  }

  /** Text survives the trip through its octets. */
  lemma {:induction false} OctetsReadBack(s: string)
    ensures Read(Octets(s)) == Some(s)
  {
    if s != [] {
      hide CharOctets, CodePoint, CharOf, Width;
      var first, rest := CharOctets(s[0]), Octets(s[1..]);
      CharReadsBack(s[0]);
      OctetsReadBack(s[1..]);
      assert (first + rest)[..|first|] == first && (first + rest)[|first|..] == rest;
      assert [s[0]] + s[1..] == s;
    }
  }
}
