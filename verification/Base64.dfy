/** The hand-written Base64 coder and decoder (cmd/src/cognito.rs), sections 4 and 5 of RFC 4648.
    Shifts and masks on 32-bit words are written as the arithmetic they do; a left shift drops what passes bit 31. */
module Base64 {
  import opened Text

  type sextet = x: int | 0 <= x < 64

  const WORD := 0x1_0000_0000

  function Char(v: sextet): char {
    if v < 26 then (v + 'A' as int) as char
    else if v < 52 then (v - 26 + 'a' as int) as char
    else if v < 62 then (v - 52 + '0' as int) as char
    else if v == 62 then '+'
    else '/'
  }

  /** The value of a character in either alphabet, or None. */
  function Value(c: char): Option<sextet> {
    if 'A' <= c <= 'Z' then Some(c as int - 'A' as int)
    else if 'a' <= c <= 'z' then Some(c as int - 'a' as int + 26)
    else if '0' <= c <= '9' then Some(c as int - '0' as int + 52)
    else if c == '-' || c == '+' then Some(62)
    else if c == '_' || c == '/' then Some(63)
    else None
  }

  /** The standard alphabet: capitals, small letters, digits, plus and slash, each run in order. */
  lemma CharIsStandard(v: sextet)
    ensures Char(0) == 'A' && Char(26) == 'a' && Char(52) == '0' && Char(62) == '+' && Char(63) == '/'
    ensures v < 63 && v + 1 !in {26, 52, 62, 63} ==> Char(v + 1) as int == Char(v) as int + 1
  {
  }

  /** Every character of it is read as what it stands for, and the two of the URL alphabet as the two they replace;
      nothing else is read. */
  lemma ValueIsStandard(c: char, v: sextet)
    ensures Value(Char(v)) == Some(v) && Value('-') == Some(62) && Value('_') == Some(63)
    ensures Value(c) == Some(v) ==> c == Char(v) || (c == '-' && v == 62) || (c == '_' && v == 63)
  {
  }

  // ----- What the coding means, a group at a time -----

  function Sextet0(b0: int): (v: int)
    requires 0 <= b0 < 256
    ensures 0 <= v < 64
  {
    b0 / 4
  }

  function Sextet1(b0: int, b1: int): (v: int)
    requires 0 <= b0 < 256 && 0 <= b1 < 256
    ensures 0 <= v < 64
  {
    b0 % 4 * 16 + b1 / 16
  }

  function Sextet2(b1: int, b2: int): (v: int)
    requires 0 <= b1 < 256 && 0 <= b2 < 256
    ensures 0 <= v < 64
  {
    b1 % 16 * 4 + b2 / 64
  }

  function Sextet3(b2: int): (v: int)
    requires 0 <= b2 < 256
    ensures 0 <= v < 64
  {
    b2 % 64
  }

  function Octet0(v0: int, v1: int): (b: int)
    requires 0 <= v0 < 64 && 0 <= v1 < 64
    ensures 0 <= b < 256
  {
    v0 * 4 + v1 / 16
  }

  function Octet1(v1: int, v2: int): (b: int)
    requires 0 <= v1 < 64 && 0 <= v2 < 64
    ensures 0 <= b < 256
  {
    v1 % 16 * 16 + v2 / 4
  }

  function Octet2(v2: int, v3: int): (b: int)
    requires 0 <= v2 < 64 && 0 <= v3 < 64
    ensures 0 <= b < 256
  {
    v2 % 4 * 64 + v3
  }

  /** The sextets of a run of octets: each three octets as four sextets, zero bits filling a short last group. */
  function Sextets(input: seq<byte>): seq<sextet> {
    if input == [] then []
    else if |input| == 1 then [Sextet0(input[0]), Sextet1(input[0], 0)]
    else if |input| == 2 then [Sextet0(input[0]), Sextet1(input[0], input[1]), Sextet2(input[1], 0)]
    else
      [Sextet0(input[0]), Sextet1(input[0], input[1]), Sextet2(input[1], input[2]), Sextet3(input[2])]
      + Sextets(input[3..])
  }

  /** The octets of a run of sextets: each four sextets as three octets; leftover bits are dropped. */
  function Octets(vs: seq<sextet>): seq<byte> {
    if |vs| < 2 then []
    else if |vs| == 2 then [Octet0(vs[0], vs[1])]
    else if |vs| == 3 then [Octet0(vs[0], vs[1]), Octet1(vs[1], vs[2])]
    else [Octet0(vs[0], vs[1]), Octet1(vs[1], vs[2]), Octet2(vs[2], vs[3])] + Octets(vs[4..])
  }

  function Chars(vs: seq<sextet>): (s: string)
    ensures |s| == |vs|
  {
    if vs == [] then [] else [Char(vs[0])] + Chars(vs[1..])
  }

  function Padding(length: nat): string {
    if length % 3 == 0 then "" else if length % 3 == 1 then "==" else "="
  }

  function Encode(input: seq<byte>): string {
    Chars(Sextets(input)) + Padding(|input|)
  }

  /** What one character contributes: a sextet, nothing for a pad, or a refusal. */
  function CharSpells(c: char): Option<seq<sextet>> {
    if c == '=' then Some([])
    else if Value(c).None? then None
    else Some([Value(c).value])
  }

  function Join(a: Option<seq<sextet>>, b: Option<seq<sextet>>): Option<seq<sextet>> {
    if a.None? || b.None? then None else Some(a.value + b.value)
  }

  /** The sextets a string spells, pads skipped; None when some character is in neither alphabet. */
  function Spelled(s: string): Option<seq<sextet>> {
    if s == [] then Some([]) else Join(Spelled(s[..|s| - 1]), CharSpells(s[|s| - 1]))
  }

  function Decode(s: string): Option<seq<byte>> {
    if Spelled(s).None? then None else Some(Octets(Spelled(s).value))
  }

  // ----- The encoder: three octets at a time through a 24-bit word -----

  method B64(input: seq<byte>) returns (out: string)
    ensures out == Encode(input)
  {
    hide Encode, Char, Sextet0, Sextet1, Sextet2, Sextet3;
    out := "";
    var i := 0;
    if input == [] {
      NothingEncodesToNothing();
    }
    while i < |input|
      invariant i <= |input|
      invariant if i == |input| then out == Encode(input) else out + Encode(input[i..]) == Encode(input)
      decreases |input| - i
    {
      var n: int := if |input| - i < 3 then |input| - i else 3;
      var b0: int := input[i];
      var b1: int := if n > 1 then input[i + 1] else 0;
      var b2: int := if n > 2 then input[i + 2] else 0;
      var quad := Quad(n, b0, b1, b2);
      EncodeStep(input[i..], b1, b2);
      assert input[i..][n..] == input[i + n..];
      out := out + quad;
      i := i + n;
    }
  }

  method Quad(n: int, b0: int, b1: int, b2: int) returns (quad: string)
    requires 0 <= b0 < 256 && 0 <= b1 < 256 && 0 <= b2 < 256
    ensures quad == [Char(Sextet0(b0)), Char(Sextet1(b0, b1)),
                     if n > 1 then Char(Sextet2(b1, b2)) else '=',
                     if n > 2 then Char(Sextet3(b2)) else '=']
  {
    hide Char;
    var w := b0 * 65_536 + b1 * 256 + b2;
    WordSextets(b0, b1, b2);
    quad := [Char(w / 262_144 % 64), Char(w / 4_096 % 64),
             if n > 1 then Char(w / 64 % 64) else '=', if n > 2 then Char(w % 64) else '='];
  }

  lemma NothingEncodesToNothing()
    ensures Encode([]) == ""
  {
  }

  /** The four sextets cut from a 24-bit word are the group's. */
  lemma WordSextets(b0: int, b1: int, b2: int)
    requires 0 <= b0 < 256 && 0 <= b1 < 256 && 0 <= b2 < 256
    ensures var w := b0 * 65_536 + b1 * 256 + b2;
            && w / 262_144 % 64 == Sextet0(b0)
            && w / 4_096 % 64 == Sextet1(b0, b1)
            && w / 64 % 64 == Sextet2(b1, b2)
            && w % 64 == Sextet3(b2)
  {
    WordTop(b0, b1, b2);
    WordMiddle(b0, b1, b2);
    WordBottom(b0, b1, b2);
  }

  lemma WordTop(b0: int, b1: int, b2: int)
    requires 0 <= b0 < 256 && 0 <= b1 < 256 && 0 <= b2 < 256
    ensures (b0 * 65_536 + b1 * 256 + b2) / 262_144 % 64 == Sextet0(b0)
  {
    var q, r := b0 / 4, b0 % 4;
    var z := r * 65_536 + b1 * 256 + b2;
    assert b0 * 65_536 + b1 * 256 + b2 == 262_144 * q + z;
    assert 0 <= z < 262_144;
  }

  lemma WordMiddle(b0: int, b1: int, b2: int)
    requires 0 <= b0 < 256 && 0 <= b1 < 256 && 0 <= b2 < 256
    ensures (b0 * 65_536 + b1 * 256 + b2) / 4_096 % 64 == Sextet1(b0, b1)
  {
    var q, r := b0 / 4, b0 % 4;
    var q1, r1 := b1 / 16, b1 % 16;
    var z := r1 * 256 + b2;
    var x := 64 * q + (r * 16 + q1);
    assert b0 * 65_536 + b1 * 256 + b2 == 4_096 * x + z;
    assert 0 <= z < 4_096;
    assert (b0 * 65_536 + b1 * 256 + b2) / 4_096 == x;
  }

  lemma WordBottom(b0: int, b1: int, b2: int)
    requires 0 <= b0 < 256 && 0 <= b1 < 256 && 0 <= b2 < 256
    ensures (b0 * 65_536 + b1 * 256 + b2) / 64 % 64 == Sextet2(b1, b2)
    ensures (b0 * 65_536 + b1 * 256 + b2) % 64 == Sextet3(b2)
  {
    var q1, r1 := b1 / 16, b1 % 16;
    var q2, r2 := b2 / 64, b2 % 64;
    var x := 64 * (16 * b0 + q1) + (r1 * 4 + q2);
    assert b0 * 65_536 + b1 * 256 + b2 == 64 * x + r2;
    assert (b0 * 65_536 + b1 * 256 + b2) / 64 == x;
  }

  /** One group's worth: four characters and then the rest, pads standing in for what a short group lacks. */
  lemma EncodeStep(input: seq<byte>, b1: int, b2: int)
    requires input != []
    requires b1 == if |input| > 1 then input[1] else 0
    requires b2 == if |input| > 2 then input[2] else 0
    ensures var quad := [Char(Sextet0(input[0])), Char(Sextet1(input[0], b1)),
                         if |input| > 1 then Char(Sextet2(b1, b2)) else '=',
                         if |input| > 2 then Char(Sextet3(b2)) else '='];
            Encode(input) == if |input| <= 3 then quad else quad + Encode(input[3..])
  {
    if |input| >= 3 {
      EncodeFullGroup(input);
      if |input| == 3 {
        assert input[3..] == [];
      }
    } else if |input| == 2 {
      CharsUnrolled([Sextet0(input[0]), Sextet1(input[0], b1), Sextet2(b1, 0)]);
    } else {
      CharsUnrolled([Sextet0(input[0]), Sextet1(input[0], 0)]);
    }
  }

  lemma EncodeFullGroup(input: seq<byte>)
    requires |input| >= 3
    ensures Encode(input)
         == [Char(Sextet0(input[0])), Char(Sextet1(input[0], input[1])),
             Char(Sextet2(input[1], input[2])), Char(Sextet3(input[2]))] + Encode(input[3..])
  {
    hide Char, Sextet0, Sextet1, Sextet2, Sextet3;
    var group := [Sextet0(input[0]), Sextet1(input[0], input[1]), Sextet2(input[1], input[2]), Sextet3(input[2])];
    CharsConcat(group, Sextets(input[3..]));
    CharsUnrolled(group);
    assert (|input| - 3) % 3 == |input| % 3;
  }

  lemma CharsUnrolled(vs: seq<sextet>)
    requires |vs| <= 4
    ensures |Chars(vs)| == |vs|
    ensures forall i :: 0 <= i < |vs| ==> Chars(vs)[i] == Char(vs[i])
  {
    if vs != [] {
      CharsUnrolled(vs[1..]);
    }
  }

  lemma {:induction false} CharsConcat(a: seq<sextet>, b: seq<sextet>)
    ensures Chars(a + b) == Chars(a) + Chars(b)
  {
    if a == [] {
      assert a + b == b;
    } else {
      assert (a + b)[1..] == a[1..] + b;
      CharsConcat(a[1..], b);
    }
  }

  // ----- The decoder: an accumulator that is shifted but never masked -----

  method B64UrlDecode(s: string) returns (out: Option<seq<byte>>)
    ensures out == Decode(s)
  {
    hide Octets, LowBitsAreLast, Spelled, Shifted, Emitted;
    assert Octets([]) == [] && LowBitsAreLast(0, []) && Spelled(s[..0]) == Some([]) by { NothingSpelled(s); }
    var octets: seq<byte> := [];
    var buf: int := 0;
    var bits: int := 0;
    ghost var vs: seq<sextet> := [];
    for i := 0 to |s|
      invariant Spelled(s[..i]) == Some(vs)
      invariant octets == Octets(vs)
      invariant 0 <= buf < WORD
      invariant bits == PendingBits(|vs|) && LowBitsAreLast(buf, vs)
    {
      var c := s[i];
      SpelledStep(s, i);
      if c == '=' {
        continue;
      }
      var v: sextet := 0;
      match Value(c) {
        case None =>
          SpelledFailureSticks(s, i + 1);
          return None;
        case Some(value) => v := value;
      }
      ghost var buf0 := buf;
      buf := Shifted(buf, v);
      bits := bits + 6;
      OctetsStep(vs, v, buf0);
      if bits >= 8 {
        bits := bits - 8;
        octets := octets + [Emitted(buf, bits)];
      }
      vs := vs + [v];
    }
    assert s[..|s|] == s;
    out := Some(octets);
  }

  lemma NothingSpelled(s: string)
    ensures Octets([]) == [] && LowBitsAreLast(0, []) && Spelled(s[..0]) == Some([])
  {
  }

  lemma SpelledStep(s: string, i: nat)
    requires i < |s| && Spelled(s[..i]).Some?
    ensures Spelled(s[..i + 1]) ==
            if s[i] == '=' then Spelled(s[..i])
            else if Value(s[i]).None? then None
            else Some(Spelled(s[..i]).value + [Value(s[i]).value])
  {
    assert s[..i + 1][..i] == s[..i];
    JoinNothing(Spelled(s[..i]));
  }

  function RightShift(x: int, bits: nat): int
    decreases bits
  {
    if bits == 0 then x else RightShift(x / 2, bits - 1)
  }

  /** The low octet once the waiting bits are shifted away. */
  function Emitted(buf: int, bits: nat): (b: int)
    ensures 0 <= b < 256
  {
    RightShift(buf, bits) % 256
  }

  lemma RightShifts(x: int)
    ensures RightShift(x, 0) == x && RightShift(x, 2) == x / 4 && RightShift(x, 4) == x / 16
  {
    assert RightShift(x, 2) == RightShift(x / 2, 1) == RightShift(x / 2 / 2, 0);
    var y := x / 4;
    assert RightShift(y, 2) == RightShift(y / 2, 1) == RightShift(y / 2 / 2, 0);
    assert RightShift(x, 4) == RightShift(x / 2, 3) == RightShift(x / 2 / 2, 2);
  }

  /** How many bits wait in the accumulator after `n` sextets. */
  function PendingBits(n: nat): nat {
    if n % 4 == 0 then 0 else if n % 4 == 1 then 6 else if n % 4 == 2 then 4 else 2
  }

  /** All that is known of the accumulator: its low waiting bits are the last sextet's. */
  predicate LowBitsAreLast(buf: int, vs: seq<sextet>) {
    match |vs| % 4
    case 0 => true
    case 1 => buf % 64 == vs[|vs| - 1]
    case 2 => buf % 16 == vs[|vs| - 1] % 16
    case _ => buf % 4 == vs[|vs| - 1] % 4
  }

  lemma {:induction false} SpelledFailureSticks(s: string, i: nat)
    requires i <= |s| && Spelled(s[..i]).None?
    ensures Spelled(s).None?
    decreases |s|
  {
    if i == |s| {
      assert s[..i] == s;
    } else {
      assert s[..|s| - 1][..i] == s[..i];
      SpelledFailureSticks(s[..|s| - 1], i);
    }
  }

  /** One more sextet into the 32-bit accumulator: everything moves up six bits and the top six fall off. */
  function Shifted(buf: int, v: int): int {
    buf * 64 % WORD + v
  }

  /** High bits that fall off the word leave the low ones as the new sextet. */
  lemma UnmaskedShift(buf: int, v: int)
    requires 0 <= buf < WORD && 0 <= v < 64
    ensures var next := Shifted(buf, v);
            && 0 <= next < WORD
            && next % 64 == v && next % 16 == v % 16 && next % 4 == v % 4
  {
    ShiftDropsHighBits(buf);
    LowBitsStay(buf % 0x400_0000, v);
  }

  lemma ShiftDropsHighBits(buf: int)
    requires 0 <= buf < WORD
    ensures var low := buf % 0x400_0000;
            && buf * 64 % WORD == low * 64
            && low % 64 == buf % 64 && low % 16 == buf % 16 && low % 4 == buf % 4
  {
    var q, low := buf / 0x400_0000, buf % 0x400_0000;
    assert buf == 0x400_0000 * q + low;
    assert buf * 64 == WORD * q + low * 64;
    LowBitsOfSum(q, low);
  }

  lemma LowBitsOfSum(q: int, low: int)
    requires 0 <= q && 0 <= low
    ensures var buf := 0x400_0000 * q + low;
            low % 64 == buf % 64 && low % 16 == buf % 16 && low % 4 == buf % 4
  {
    LowBitsStay64(0x10_0000 * q, low);
    LowBitsStay16(0x40_0000 * q, low);
    LowBitsStay4(0x100_0000 * q, low);
  }

  lemma LowBitsStay64(q: int, v: int)
    requires 0 <= q && 0 <= v
    ensures (q * 64 + v) % 64 == v % 64
  {
    assert q * 64 + v == 64 * (q + v / 64) + v % 64;
  }

  lemma LowBitsStay(low: int, v: int)
    requires 0 <= low && 0 <= v < 64
    ensures (low * 64 + v) % 64 == v
    ensures (low * 64 + v) % 16 == v % 16
    ensures (low * 64 + v) % 4 == v % 4
  {
    LowBitsStay16(low * 4, v);
    LowBitsStay4(low * 16, v);
  }

  lemma LowBitsStay16(q: int, v: int)
    requires 0 <= q && 0 <= v
    ensures (q * 16 + v) % 16 == v % 16
  {
    assert q * 16 + v == 16 * (q + v / 16) + v % 16;
  }

  lemma LowBitsStay4(q: int, v: int)
    requires 0 <= q && 0 <= v
    ensures (q * 4 + v) % 4 == v % 4
  {
    assert q * 4 + v == 4 * (q + v / 4) + v % 4;
  }

  lemma OctetAtFour(low: int, v: int)
    requires 0 <= low && 0 <= v < 64
    ensures (low * 64 + v) / 16 % 256 == Octet0(low % 64, v)
  {
    var u := v / 16;
    assert low * 64 + v == 16 * (low * 4 + u) + v % 16;
    LowBits64(low, u);
  }

  lemma LowBits64(low: int, u: int)
    requires 0 <= low && 0 <= u < 4
    ensures (low * 4 + u) % 256 == low % 64 * 4 + u
  {
    var q, r := low / 64, low % 64;
    assert low == 64 * q + r;
    var z := r * 4 + u;
    assert low * 4 + u == 256 * q + z;
    assert 0 <= z < 256;
  }

  lemma OctetAtTwo(low: int, v: int)
    requires 0 <= low && 0 <= v < 64
    ensures (low * 64 + v) / 4 % 256 == Octet1(low % 16, v)
  {
    var u := v / 4;
    assert low * 64 + v == 4 * (low * 16 + u) + v % 4;
    LowBits16(low, u);
  }

  lemma LowBits16(low: int, u: int)
    requires 0 <= low && 0 <= u < 16
    ensures (low * 16 + u) % 256 == low % 16 * 16 + u
  {
    var q, r := low / 16, low % 16;
    assert low == 16 * q + r;
    var z := r * 16 + u;
    assert low * 16 + u == 256 * q + z;
    assert 0 <= z < 256;
  }

  lemma OctetAtZero(low: int, v: int)
    requires 0 <= low && 0 <= v < 64
    ensures (low * 64 + v) % 256 == Octet2(low % 4, v)
  {
    LowBits4(low, v);
    assert low % 4 % 4 == low % 4;
  }

  lemma LowBits4(low: int, u: int)
    requires 0 <= low && 0 <= u < 64
    ensures (low * 64 + u) % 256 == low % 4 * 64 + u
  {
    var q, r := low / 4, low % 4;
    assert low == 4 * q + r;
    var z := r * 64 + u;
    assert low * 64 + u == 256 * q + z;
    assert 0 <= z < 256;
  }

  /** The octet that `v` completes, if any. */
  function Completed(vs: seq<sextet>, v: sextet): seq<byte> {
    if |vs| % 4 == 0 then []
    else
      var last := vs[|vs| - 1];
      if |vs| % 4 == 1 then [Octet0(last, v)]
      else if |vs| % 4 == 2 then [Octet1(last, v)]
      else [Octet2(last, v)]
  }

  lemma LowBitsStep(vs: seq<sextet>, v: sextet, buf: int)
    requires 0 <= buf < WORD
    ensures LowBitsAreLast(Shifted(buf, v), vs + [v])
  {
    UnmaskedShift(buf, v);
    hide Shifted;
    var all := vs + [v];
    assert all[|all| - 1] == v;
  }

  lemma CompletedIsInTheWord(vs: seq<sextet>, v: sextet, buf: int)
    requires 0 <= buf < WORD && LowBitsAreLast(buf, vs)
    ensures Completed(vs, v) ==
            if |vs| % 4 == 0 then [] else [Emitted(Shifted(buf, v), PendingBits(|vs| + 1))]
  {
    hide Shifted, Emitted, Octet0, Octet1, Octet2;
    if |vs| % 4 != 0 {
      var last := vs[|vs| - 1];
      if |vs| % 4 == 1 {
        SecondSextet(last, v, buf);
      } else if |vs| % 4 == 2 {
        ThirdSextet(last, v, buf);
      } else {
        FourthSextet(last, v, buf);
      }
    }
  }

  lemma SecondSextet(last: sextet, v: sextet, buf: int)
    requires 0 <= buf < WORD && buf % 64 == last
    ensures Emitted(Shifted(buf, v), 4) == Octet0(last, v)
  {
    hide Octet0, RightShift, Emitted;
    var low := buf % 0x400_0000;
    ShiftDropsHighBits(buf);
    OctetAtFour(low, v);
    EmittedIs(low * 64 + v);
  }

  lemma ThirdSextet(last: sextet, v: sextet, buf: int)
    requires 0 <= buf < WORD && buf % 16 == last % 16
    ensures Emitted(Shifted(buf, v), 2) == Octet1(last, v)
  {
    hide Octet1, RightShift, Emitted;
    var low := buf % 0x400_0000;
    ShiftDropsHighBits(buf);
    OctetAtTwo(low, v);
    EmittedIs(low * 64 + v);
    LowBitsMakeTheOctet(last, v);
  }

  lemma FourthSextet(last: sextet, v: sextet, buf: int)
    requires 0 <= buf < WORD && buf % 4 == last % 4
    ensures Emitted(Shifted(buf, v), 0) == Octet2(last, v)
  {
    hide Octet2, RightShift, Emitted;
    var low := buf % 0x400_0000;
    ShiftDropsHighBits(buf);
    OctetAtZero(low, v);
    EmittedIs(low * 64 + v);
    LowBitsMakeTheOctet(last, v);
  }

  lemma EmittedIs(x: int)
    ensures Emitted(x, 0) == x % 256 && Emitted(x, 2) == x / 4 % 256 && Emitted(x, 4) == x / 16 % 256
  {
    RightShifts(x);
    hide RightShift;
  }

  lemma LowBitsMakeTheOctet(last: sextet, v: sextet)
    ensures Octet1(last % 16, v) == Octet1(last, v) && Octet2(last % 4, v) == Octet2(last, v)
  {
  }

  lemma ShiftedFits(buf: int, v: sextet)
    requires 0 <= buf < WORD
    ensures 0 <= Shifted(buf, v) < WORD
  {
    UnmaskedShift(buf, v);
  }

  lemma OctetsStep(vs: seq<sextet>, v: sextet, buf: int)
    requires 0 <= buf < WORD && LowBitsAreLast(buf, vs)
    ensures 0 <= Shifted(buf, v) < WORD
    ensures LowBitsAreLast(Shifted(buf, v), vs + [v])
    ensures var pending := PendingBits(|vs|) + 6;
            PendingBits(|vs| + 1) == if pending >= 8 then pending - 8 else pending
    ensures var done := if PendingBits(|vs|) >= 2 then [Emitted(Shifted(buf, v), PendingBits(|vs| + 1))] else [];
            Octets(vs + [v]) == Octets(vs) + done
  {
    hide Octets, Shifted, LowBitsAreLast, Completed, Emitted;
    ShiftedFits(buf, v);
    LowBitsStep(vs, v, buf);
    CompletedIsInTheWord(vs, v, buf);
    OctetsSnoc(vs, v);
  }

  lemma OctetsOfFour(vs: seq<sextet>)
    requires |vs| >= 4
    ensures Octets(vs) == [Octet0(vs[0], vs[1]), Octet1(vs[1], vs[2]), Octet2(vs[2], vs[3])] + Octets(vs[4..])
  {
  }

  lemma OctetsSnocShort(vs: seq<sextet>, v: sextet)
    requires |vs| < 4
    ensures Octets(vs + [v]) == Octets(vs) + Completed(vs, v)
  {
    hide *;
    OctetsOfFew(vs);
    CompletedOfFew(vs, v);
    if |vs| == 3 {
      OctetsOfFour(vs + [v]);
      OctetsOfFew((vs + [v])[4..]);
    } else {
      OctetsOfFew(vs + [v]);
    }
  }

  lemma OctetsOfFew(vs: seq<sextet>)
    requires |vs| < 4
    ensures Octets(vs) ==
            if |vs| < 2 then []
            else if |vs| == 2 then [Octet0(vs[0], vs[1])]
            else [Octet0(vs[0], vs[1]), Octet1(vs[1], vs[2])]
  {
    hide Octet0, Octet1, Octet2;
  }

  lemma CompletedOfFew(vs: seq<sextet>, v: sextet)
    requires |vs| < 4
    ensures Completed(vs, v) ==
            if |vs| == 0 then []
            else if |vs| == 1 then [Octet0(vs[0], v)]
            else if |vs| == 2 then [Octet1(vs[1], v)]
            else [Octet2(vs[2], v)]
  {
    hide Octet0, Octet1, Octet2;
  }

  lemma CompletedLater(vs: seq<sextet>, v: sextet)
    requires |vs| > 4
    ensures Completed(vs[4..], v) == Completed(vs, v)
  {
    hide Octet0, Octet1, Octet2;
    assert |vs[4..]| % 4 == |vs| % 4;
  }

  lemma {:induction false} OctetsSnoc(vs: seq<sextet>, v: sextet)
    ensures Octets(vs + [v]) == Octets(vs) + Completed(vs, v)
    decreases |vs|
  {
    hide Octet0, Octet1, Octet2;
    if |vs| >= 4 {
      OctetsOfFour(vs);
      OctetsOfFour(vs + [v]);
      assert (vs + [v])[4..] == vs[4..] + [v];
      if |vs| > 4 {
        CompletedLater(vs, v);
      }
      OctetsSnoc(vs[4..], v);
      hide Octets;
    } else {
      OctetsSnocShort(vs, v);
    }
  }

  // ----- Round trips -----

  lemma CharHasItsValue(v: sextet)
    ensures Value(Char(v)) == Some(v) && Char(v) != '='
  {
  }

  lemma {:induction false} SpelledConcat(a: string, b: string)
    ensures Spelled(a + b) == Join(Spelled(a), Spelled(b))
    decreases |b|
  {
    hide CharSpells;
    if b == [] {
      assert a + b == a;
      JoinNothing(Spelled(a));
    } else {
      var n := |b| - 1;
      assert (a + b)[..|a| + n] == a + b[..n];
      SpelledConcat(a, b[..n]);
      JoinAssociates(Spelled(a), Spelled(b[..n]), CharSpells(b[n]));
    }
  }

  lemma JoinNothing(a: Option<seq<sextet>>)
    ensures Join(a, Some([])) == a && Join(Some([]), a) == a
  {
    if a.Some? {
      assert a.value + [] == a.value && [] + a.value == a.value;
    }
  }

  lemma JoinAssociates(a: Option<seq<sextet>>, b: Option<seq<sextet>>, c: Option<seq<sextet>>)
    ensures Join(Join(a, b), c) == Join(a, Join(b, c))
  {
    if a.Some? && b.Some? && c.Some? {
      assert a.value + b.value + c.value == a.value + (b.value + c.value);
    }
  }

  lemma SpelledOne(c: char)
    ensures Spelled([c]) == CharSpells(c)
  {
    hide CharSpells;
    assert [c][..0] == [];
    JoinNothing(CharSpells(c));
  }

  lemma {:induction false} CharsSpellThemselves(vs: seq<sextet>)
    ensures Spelled(Chars(vs)) == Some(vs)
  {
    hide Char, Value;
    if vs != [] {
      CharHasItsValue(vs[0]);
      CharsSpellThemselves(vs[1..]);
      SpelledConcat([Char(vs[0])], Chars(vs[1..]));
      SpelledOne(Char(vs[0]));
      assert [vs[0]] + vs[1..] == vs;
    }
  }

  lemma GroupRoundTrip(b0: int, b1: int, b2: int)
    requires 0 <= b0 < 256 && 0 <= b1 < 256 && 0 <= b2 < 256
    ensures Octet0(Sextet0(b0), Sextet1(b0, b1)) == b0
    ensures Octet1(Sextet1(b0, b1), Sextet2(b1, b2)) == b1
    ensures Octet2(Sextet2(b1, b2), Sextet3(b2)) == b2
  {
  }

  lemma {:induction false} OctetsOfSextets(input: seq<byte>)
    ensures Octets(Sextets(input)) == input
  {
    hide Sextet0, Sextet1, Sextet2, Sextet3, Octet0, Octet1, Octet2;
    if |input| >= 3 {
      OctetsOfSextets(input[3..]);
      GroupRoundTrip(input[0], input[1], input[2]);
      assert Sextets(input)[4..] == Sextets(input[3..]);
      assert input == [input[0], input[1], input[2]] + input[3..];
    } else if |input| == 2 {
      GroupRoundTrip(input[0], input[1], 0);
    } else if |input| == 1 {
      GroupRoundTrip(input[0], 0, 0);
    }
  }

  /** Encoding and then decoding gives back every octet sequence. */
  lemma Base64RoundTrip(input: seq<byte>)
    ensures Decode(Encode(input)) == Some(input)
  {
    hide Sextets, Octets, Spelled, Chars;
    CharsSpellThemselves(Sextets(input));
    PaddingSpellsNothing(|input|);
    SpelledConcat(Chars(Sextets(input)), Padding(|input|));
    JoinNothing(Some(Sextets(input)));
    OctetsOfSextets(input);
  }

  lemma PaddingSpellsNothing(length: nat)
    ensures Spelled(Padding(length)) == Some([])
  {
    SpelledOne('=');
    SpelledConcat("=", "=");
    assert "=" + "=" == "==";
    JoinNothing(Some([]));
  }

  function UrlChar(c: char): char {
    if c == '+' then '-' else if c == '/' then '_' else c
  }

  /** The same text in the URL alphabet, without padding: what a token carries. */
  function UrlUnpadded(s: string): string {
    if s == [] then []
    else UrlUnpadded(s[..|s| - 1]) + if s[|s| - 1] == '=' then [] else [UrlChar(s[|s| - 1])]
  }

  /** Dropping pads and changing alphabet never changes what a string decodes to, valid or not. */
  lemma {:induction false} UrlFormSpellsTheSame(s: string)
    ensures Spelled(UrlUnpadded(s)) == Spelled(s)
  {
    if s != [] {
      var front, c := s[..|s| - 1], s[|s| - 1];
      UrlFormSpellsTheSame(front);
      if c != '=' {
        SpelledConcat(UrlUnpadded(front), [UrlChar(c)]);
        SpelledOne(UrlChar(c));
      } else {
        assert UrlUnpadded(s) == UrlUnpadded(front);
        JoinNothing(Spelled(front));
      }
    }
  }

  lemma Base64UrlRoundTrip(input: seq<byte>)
    ensures Decode(UrlUnpadded(Encode(input))) == Some(input)
  {
    UrlFormSpellsTheSame(Encode(input));
    Base64RoundTrip(input);
  }

  /** The decoder refuses a string exactly when it holds a character of neither alphabet that is not a pad. */
  lemma {:induction false} DecodeRefusesExactly(s: string)
    ensures Decode(s).None? <==> exists c <- s :: c != '=' && Value(c).None?
  {
    if s != [] {
      var front := s[..|s| - 1];
      DecodeRefusesExactly(front);
      assert s == front + [s[|s| - 1]];
    }
  }
}
