/** Allowlist matching: whole bytes, then a mask, against the meaning of a prefix (cmd/src/cidr.rs),
    section 3.1 of RFC 4632. */
module Cidr {
  import opened Text

  type Octets = seq<bv8>

  // ----- The fast form: bytes and a mask -----

  function Mask(leftover: nat): bv8
    requires leftover <= 8
  {
    0xFF << (8 - leftover)
  }

  /** An octet under the mask. */
  function Masked(b: bv8, leftover: nat): bv8
    requires leftover <= 8
  {
    b & Mask(leftover)
  }

  /** An octet as a number. */
  function Num(b: bv8): byte {
    b as int
  }

  lemma TopBits1(x: bv8)
    ensures Num(Masked(x, 1)) == Num(x) - Num(x) % 128
  {
    assert Mask(1) == 0x80;
  }

  lemma TopBits2(x: bv8)
    ensures Num(Masked(x, 2)) == Num(x) - Num(x) % 64
  {
    assert Mask(2) == 0xC0;
  }

  lemma TopBits3(x: bv8)
    ensures Num(Masked(x, 3)) == Num(x) - Num(x) % 32
  {
    assert Mask(3) == 0xE0;
  }

  lemma TopBits4(x: bv8)
    ensures Num(Masked(x, 4)) == Num(x) - Num(x) % 16
  {
    assert Mask(4) == 0xF0;
  }

  lemma TopBits5(x: bv8)
    ensures Num(Masked(x, 5)) == Num(x) - Num(x) % 8
  {
    assert Mask(5) == 0xF8;
  }

  lemma TopBits6(x: bv8)
    ensures Num(Masked(x, 6)) == Num(x) - Num(x) % 4
  {
    assert Mask(6) == 0xFC;
  }

  lemma TopBits7(x: bv8)
    ensures Num(Masked(x, 7)) == Num(x) - Num(x) % 2
  {
    assert Mask(7) == 0xFE;
  }

  lemma PowersOfTwo()
    ensures Pow2(1) == 2 && Pow2(2) == 4 && Pow2(3) == 8 && Pow2(4) == 16 && Pow2(5) == 32 && Pow2(6) == 64
    ensures Pow2(7) == 128
  {
  }

  /** The shift and the mask come to arithmetic: the low bits are taken off, for every octet and every leftover. */
  lemma MaskClearsLowBits(b: bv8, leftover: nat)
    requires 0 < leftover < 8
    ensures Num(Masked(b, leftover)) == Num(b) - Num(b) % Pow2(8 - leftover)
  {
    hide *;
    PowersOfTwo();
    if leftover == 1 {
      TopBits1(b);
    } else if leftover == 2 {
      TopBits2(b);
    } else if leftover == 3 {
      TopBits3(b);
    } else if leftover == 4 {
      TopBits4(b);
    } else if leftover == 5 {
      TopBits5(b);
    } else if leftover == 6 {
      TopBits6(b);
    } else {
      TopBits7(b);
    }
  }

  lemma NumIsInjective(a: bv8, b: bv8)
    ensures Num(a) == Num(b) <==> a == b
  {
  }

  /** Rust slices and indexes here, so a prefix longer than the address is out of bounds, not false. */
  function PrefixEq(net: Octets, host: Octets, bits: nat): bool
    requires |net| == |host| && bits <= 8 * |net|
  {
    var whole := bits / 8;
    if net[..whole] != host[..whole] then false
    else
      var leftover := bits % 8;
      if leftover == 0 then true else Masked(net[whole], leftover) == Masked(host[whole], leftover)
  }

  // ----- The simple meaning: big-endian values and integer division -----

  function Pow2(n: nat): (p: nat)
    ensures p > 0
  {
    if n == 0 then 1 else 2 * Pow2(n - 1)
  }

  function Value(s: Octets): nat {
    if s == [] then 0 else Value(s[..|s| - 1]) * 256 + Num(s[|s| - 1])
  }

  /** Division by 2^k, halving k times. */
  function Halve(x: nat, k: nat): nat
    decreases k
  {
    if k == 0 then x else Halve(x / 2, k - 1)
  }

  lemma {:induction false} HalveIsDivision(x: nat, k: nat)
    ensures Halve(x, k) == x / Pow2(k)
    decreases k
  {
    if k > 0 {
      HalveIsDivision(x / 2, k - 1);
      DivideTwice(x, Pow2(k - 1));
    }
  }

  lemma DivideTwice(x: nat, p: nat)
    requires p > 0
    ensures x / 2 / p == x / (2 * p)
  {
    var q, r := x / 2 / p, x / 2 % p;
    assert x / 2 == p * q + r;
    var s := x % 2;
    assert x == (2 * p) * q + (2 * r + s);
    QuotientIsUnique(x, 2 * p, q, 2 * r + s);
  }

  lemma QuotientIsUnique(x: nat, d: nat, q: nat, r: nat)
    requires d > 0 && x == d * q + r && r < d
    ensures x / d == q
  {
    var q' := x / d;
    var r' := x % d;
    MultiplesApart(d, q, q');
    MultiplesApart(d, q', q);
  }

  lemma MultiplesApart(d: nat, a: nat, b: nat)
    ensures a < b ==> d * a + d <= d * b
  {
    if a < b {
      var gap := b - a - 1;
      assert d * b == d * a + d + d * gap;
    }
  }

  lemma {:induction false} HalveAdds(x: nat, j: nat, k: nat)
    ensures Halve(Halve(x, j), k) == Halve(x, j + k)
    decreases j
  {
    if j > 0 {
      HalveAdds(x / 2, j - 1, k);
    }
  }

  /** Shifting out a byte leaves the value of the bytes in front of it. */
  lemma HalveByte(front: nat, last: byte)
    ensures Halve(front * 256 + last, 8) == front
  {
    HalveIsDivision(front * 256 + last, 8);
    assert Pow2(8) == 256 by { assert Pow2(4) == 16; }
  }

  lemma {:induction false} HalveBytes(s: Octets, n: nat)
    requires n <= |s|
    ensures Halve(Value(s), 8 * (|s| - n)) == Value(s[..n])
    decreases |s|
  {
    if n == |s| {
      assert s[..n] == s;
    } else {
      var front := s[..|s| - 1];
      HalveByte(Value(front), Num(s[|s| - 1]));
      HalveAdds(Value(s), 8, 8 * (|front| - n));
      HalveBytes(front, n);
      assert front[..n] == s[..n];
    }
  }

  lemma {:induction false} ValueIsInjective(a: Octets, b: Octets)
    requires |a| == |b|
    ensures Value(a) == Value(b) <==> a == b
  {
    if a != [] {
      hide Num;
      var n := |a| - 1;
      ValueIsInjective(a[..n], b[..n]);
      NumIsInjective(a[n], b[n]);
      assert a == a[..n] + [a[n]] && b == b[..n] + [b[n]];
    }
  }

  /** Within one octet, comparing under the mask is comparing the quotients. */
  lemma MaskComparesQuotients(a: bv8, b: bv8, leftover: nat)
    requires 0 < leftover < 8
    ensures Masked(a, leftover) == Masked(b, leftover)
       <==> Num(a) / Pow2(8 - leftover) == Num(b) / Pow2(8 - leftover)
  {
    hide Masked, Num, Pow2;
    var p := Pow2(8 - leftover);
    MaskClearsLowBits(a, leftover);
    MaskClearsLowBits(b, leftover);
    NumIsInjective(Masked(a, leftover), Masked(b, leftover));
    MaskedIsAMultiple(Num(a), p);
    MaskedIsAMultiple(Num(b), p);
  }

  lemma MaskedIsAMultiple(a: nat, p: nat)
    requires p > 0
    ensures a - a % p == p * (a / p) && (a - a % p) / p == a / p
  {
    QuotientIsUnique(p * (a / p), p, a / p, 0);
  }

  lemma SplitByte(front: nat, last: byte, m: nat, w: nat)
    requires m > 0 && m * w == 256
    ensures (front * 256 + last) / m == front * w + last / m
    ensures 0 <= last / m < w
  {
    var q, r := last / m, last % m;
    Regroup(m, w, front, q);
    QuotientIsUnique(front * 256 + last, m, front * w + q, r);
    MultiplesApart(m, w, q + 1);
    assert m * q <= last < m * w;
  }

  lemma Regroup(m: nat, w: nat, front: nat, q: nat)
    requires m * w == 256
    ensures m * (front * w + q) == front * 256 + m * q
  {
    assert m * (front * w + q) == m * (front * w) + m * q;
    assert m * (front * w) == (m * w) * front;
  }

  lemma PowersOfAByte(k: nat)
    requires k <= 8
    ensures Pow2(k) * Pow2(8 - k) == 256
  {
    assert Pow2(1) == 2 && Pow2(2) == 4 && Pow2(3) == 8 && Pow2(4) == 16;
    assert Pow2(5) == 32 && Pow2(6) == 64 && Pow2(7) == 128 && Pow2(8) == 256;
  }

  /** Shifted values agree exactly when the bytes in front agree and so do the top bits of the last. */
  lemma ShiftedValuesAgree(f: nat, a: byte, g: nat, b: byte, k: nat)
    requires k <= 8
    ensures (f * 256 + a) / Pow2(k) == (g * 256 + b) / Pow2(k) <==> f == g && a / Pow2(k) == b / Pow2(k)
  {
    PowersOfAByte(k);
    hide Pow2;
    var m, w := Pow2(k), Pow2(8 - k);
    SplitByte(f, a, m, w);
    SplitByte(g, b, m, w);
    DigitsAreUnique(w, f, a / m, g, b / m);
  }

  lemma DigitsAreUnique(w: nat, f: nat, x: int, g: nat, y: int)
    requires 0 <= x < w && 0 <= y < w
    ensures f * w + x == g * w + y <==> f == g && x == y
  {
    assert f * w == w * f && g * w == w * g;
    MultiplesApart(w, f, g);
    MultiplesApart(w, g, f);
  }

  // ----- The refinement -----

  function Quotient(s: Octets, bits: nat): nat
    requires bits <= 8 * |s|
  {
    QuotientIsNatural(Value(s), Pow2(8 * |s| - bits));
    Value(s) / Pow2(8 * |s| - bits)
  }

  lemma QuotientIsNatural(x: nat, p: nat)
    requires p > 0
    ensures x / p >= 0
  {
    var q, r := x / p, x % p;
    assert x == p * q + r && r < p;
  }

  lemma QuotientByHalving(s: Octets, n: nat, k: nat)
    requires n <= |s| && k <= 8 * n
    ensures Value(s) / Pow2(8 * (|s| - n) + k) == Value(s[..n]) / Pow2(k)
  {
    HalveIsDivision(Value(s), 8 * (|s| - n) + k);
    HalveAdds(Value(s), 8 * (|s| - n), k);
    HalveBytes(s, n);
    HalveIsDivision(Value(s[..n]), k);
  }

  /** The byte-and-mask comparison holds exactly when the two addresses, read as big-endian numbers,
      agree after division by 2^(width - bits), for addresses of any width. */
  lemma PrefixEqIsDivision(net: Octets, host: Octets, bits: nat)
    requires |net| == |host| && bits <= 8 * |net|
    ensures PrefixEq(net, host, bits) <==> Quotient(net, bits) == Quotient(host, bits)
  {
    if bits % 8 == 0 {
      WholeOctetsAgree(net, host, bits);
    } else {
      LeftoverBitsAgree(net, host, bits);
    }
  }

  lemma WholeOctetsAgree(net: Octets, host: Octets, bits: nat)
    requires |net| == |host| && bits <= 8 * |net| && bits % 8 == 0
    ensures PrefixEq(net, host, bits) <==> Quotient(net, bits) == Quotient(host, bits)
  {
    hide Value, Pow2, Masked;
    var whole := bits / 8;
    QuotientByHalving(net, whole, 0);
    QuotientByHalving(host, whole, 0);
    ValueIsInjective(net[..whole], host[..whole]);
    assert Pow2(0) == 1 by { PowerOfNone(); }
  }

  lemma PowerOfNone()
    ensures Pow2(0) == 1
  {
  }

  lemma LeftoverBitsAgree(net: Octets, host: Octets, bits: nat)
    requires |net| == |host| && bits <= 8 * |net| && bits % 8 != 0
    ensures PrefixEq(net, host, bits) <==> Quotient(net, bits) == Quotient(host, bits)
  {
    hide Value, Pow2, Masked;
    var whole, leftover := bits / 8, bits % 8;
    assert 8 * (|net| - (whole + 1)) + (8 - leftover) == 8 * |net| - bits;
    FrontAndMaskAgree(net, host, whole, leftover);
  }

  lemma FrontAndMaskAgree(net: Octets, host: Octets, whole: nat, leftover: nat)
    requires |net| == |host| && whole < |net| && 0 < leftover < 8
    ensures var p := Pow2(8 * (|net| - (whole + 1)) + (8 - leftover));
            Value(net) / p == Value(host) / p
            <==> net[..whole] == host[..whole] && Masked(net[whole], leftover) == Masked(host[whole], leftover)
  {
    hide *;
    var k := 8 - leftover;
    ValueSplits(net, whole);
    ValueSplits(host, whole);
    QuotientByHalving(net, whole + 1, k);
    QuotientByHalving(host, whole + 1, k);
    ShiftedValuesAgree(Value(net[..whole]), Num(net[whole]), Value(host[..whole]), Num(host[whole]), k);
    ValueIsInjective(net[..whole], host[..whole]);
    MaskComparesQuotients(net[whole], host[whole], leftover);
  }

  lemma ValueSplits(s: Octets, i: nat)
    requires i < |s|
    ensures Value(s[..i + 1]) == Value(s[..i]) * 256 + Num(s[i])
  {
    assert s[..i + 1][..i] == s[..i];
  }

  lemma ShorterQuotient(s: Octets, short: nat, long: nat)
    requires short <= long <= 8 * |s|
    ensures Quotient(s, short) == Halve(Quotient(s, long), long - short)
  {
    HalveIsDivision(Value(s), 8 * |s| - short);
    HalveIsDivision(Value(s), 8 * |s| - long);
    HalveAdds(Value(s), 8 * |s| - long, long - short);
  }

  /** Shortening a prefix only adds addresses. */
  lemma ShorterPrefixIsWider(net: Octets, host: Octets, short: nat, long: nat)
    requires |net| == |host| && short <= long <= 8 * |net|
    requires PrefixEq(net, host, long)
    ensures PrefixEq(net, host, short)
  {
    PrefixEqIsDivision(net, host, long);
    PrefixEqIsDivision(net, host, short);
    ShorterQuotient(net, short, long);
    ShorterQuotient(host, short, long);
  }

  /** Two blocks of one width are nested or disjoint: if they share one address, the longer lies in the shorter. */
  lemma BlocksAreNestedOrDisjoint(a: Octets, m: nat, b: Octets, n: nat, shared: Octets, host: Octets)
    requires |a| == |b| == |shared| == |host| && m <= n <= 8 * |a|
    requires PrefixEq(a, shared, m) && PrefixEq(b, shared, n)
    requires PrefixEq(b, host, n)
    ensures PrefixEq(a, host, m)
  {
    ShorterPrefixIsWider(b, shared, m, n);
    ShorterPrefixIsWider(b, host, m, n);
    PrefixEqIsDivision(a, shared, m);
    PrefixEqIsDivision(b, shared, m);
    PrefixEqIsDivision(b, host, m);
    PrefixEqIsDivision(a, host, m);
  }

  // ----- Entries and clients -----

  datatype Ip = V4(octets: Octets) | V6(octets: Octets) {
    predicate Valid() {
      |octets| == if V4? then 4 else 16
    }

    function Width(): nat {
      if V4? then 32 else 128
    }
  }

  predicate IsMapped(ip: Ip) {
    && ip.V6? && |ip.octets| == 16
    && ip.octets[..10] == seq(10, _ => 0)
    && ip.octets[10] == 255 && ip.octets[11] == 255
  }

  /** An IPv4-mapped IPv6 address is the same host as its IPv4 form. */
  function Canonical(ip: Ip): (c: Ip)
    requires ip.Valid()
    ensures c.Valid() && !IsMapped(c)
  {
    if IsMapped(ip) then V4(ip.octets[12..]) else ip
  }

  datatype Entry = Entry(addr: Ip, prefixLen: nat)

  /** The result of a match. Past the end of a collapsed address there is no answer: the slice is out of bounds. */
  datatype Answer = Covered(yes: bool) | OutOfBounds

  /** An entry as written: a bare address is its whole canonical self; with a length, the family stays as written. */
  datatype Written = Bare(addr: Ip) | WithLength(addr: Ip, bits: nat)

  datatype ParseResult = Parsed(entry: Entry) | TooLong

  /** An entry that parsing can produce: its prefix is no longer than its address as written. */
  predicate IsParsed(e: Entry) {
    e.addr.Valid() && e.prefixLen <= e.addr.Width()
  }

  function ParseEntry(w: Written): (r: ParseResult)
    requires w.addr.Valid()
    ensures r.Parsed? ==> IsParsed(r.entry)
    ensures r.TooLong? <==> w.WithLength? && w.bits > w.addr.Width()
  {
    match w
    case Bare(addr) => Parsed(Entry(Canonical(addr), Canonical(addr).Width()))
    case WithLength(addr, bits) => if bits > addr.Width() then TooLong else Parsed(Entry(addr, bits))
  }

  /** `PrefixEq`, with the slice and the index checked the way the language checks them. */
  function CheckedPrefixEq(net: Octets, host: Octets, bits: nat): Answer
    requires |net| == |host|
  {
    var whole := bits / 8;
    if whole > |net| then OutOfBounds
    else if net[..whole] != host[..whole] then Covered(false)
    else
      var leftover := bits % 8;
      if leftover == 0 then Covered(true)
      else if whole >= |net| then OutOfBounds
      else Covered(Masked(net[whole], leftover) == Masked(host[whole], leftover))
  }

  function Contains(entry: Entry, ip: Ip): Answer
    requires entry.addr.Valid() && ip.Valid()
  {
    var net, host := Canonical(entry.addr), Canonical(ip);
    if net.V4? != host.V4? then Covered(false)
    else CheckedPrefixEq(net.octets, host.octets, entry.prefixLen)
  }

  predicate AreValid(list: seq<Entry>) {
    forall i :: 0 <= i < |list| ==> list[i].addr.Valid()
  }

  /** An empty list allows everyone; otherwise the first entry to cover the client, or to fail, decides. */
  function Allows(list: seq<Entry>, ip: Ip): Answer
    requires ip.Valid() && AreValid(list)
  {
    if list == [] then Covered(true) else AnyCovers(list, ip)
  }

  function AnyCovers(list: seq<Entry>, ip: Ip): Answer
    requires ip.Valid() && AreValid(list)
  {
    if list == [] then Covered(false)
    else
      var first := Contains(list[0], ip);
      if first == Covered(false) then AnyCovers(list[1..], ip) else first
  }

  /** And every entry of that shape is one that parsing produces. */
  lemma ParsedIsWritten(e: Entry)
    requires IsParsed(e)
    ensures ParseEntry(WithLength(e.addr, e.prefixLen)) == Parsed(e)
  {
  }

  /** What an entry covers: equality of quotients in one family. */
  predicate Covers(e: Entry, ip: Ip)
    requires e.addr.Valid() && ip.Valid()
  {
    var net, host := Canonical(e.addr), Canonical(ip);
    && net.V4? == host.V4? && e.prefixLen <= net.Width()
    && Quotient(net.octets, e.prefixLen) == Quotient(host.octets, e.prefixLen)
  }

  /** A mapped entry whose length runs past its 32 collapsed bits, and whose front agrees as far as it is compared. */
  predicate Overruns(e: Entry, ip: Ip)
    requires e.addr.Valid() && ip.Valid()
  {
    var net, host := Canonical(e.addr), Canonical(ip);
    IsMapped(e.addr) && host.V4? && (e.prefixLen >= 40 || (e.prefixLen > 32 && net == host))
  }

  /** For every entry that parses and every client: a match is what the entry covers, and there is no answer at all
      exactly when it overruns. */
  lemma ContainsMeans(entry: Entry, ip: Ip)
    requires IsParsed(entry) && ip.Valid()
    ensures Contains(entry, ip) == Covered(true) <==> Covers(entry, ip)
    ensures Contains(entry, ip).OutOfBounds? <==> Overruns(entry, ip)
  {
    var net, host := Canonical(entry.addr), Canonical(ip);
    if net.V4? == host.V4? && entry.prefixLen <= net.Width() {
      PrefixEqIsDivision(net.octets, host.octets, entry.prefixLen);
    } else if net.V4? && host.V4? && entry.prefixLen < 40 {
      assert net.octets[..4] == net.octets && host.octets[..4] == host.octets;
    }
  }

  /** An IPv4 host as it appears on a dual-stack socket. */
  function Mapped(v4: Octets): Ip {
    V6(seq(10, _ => 0) + [255, 255] + v4)
  }

  /** A client is one host in either spelling, and no list tells the two apart; an entry written in the mapped form
      covers what it would as an IPv4 one. */
  lemma MappedIsTheSameHost(v4: Octets, list: seq<Entry>, bits: nat, ip: Ip)
    requires |v4| == 4 && AreValid(list) && ip.Valid()
    ensures Canonical(Mapped(v4)) == V4(v4) && Canonical(V4(v4)) == V4(v4)
    ensures Allows(list, Mapped(v4)) == Allows(list, V4(v4))
    ensures Contains(Entry(Mapped(v4), bits), ip) == Contains(Entry(V4(v4), bits), ip)
  {
    var mapped := Mapped(v4);
    assert mapped.octets[12..] == v4 && mapped.octets[..10] == seq(10, _ => 0);
    hide IsMapped, CheckedPrefixEq, Mapped, Canonical;
    SameAnswers(list, Mapped(v4), V4(v4));
  }

  lemma {:induction false} SameAnswers(list: seq<Entry>, a: Ip, b: Ip)
    requires a.Valid() && b.Valid() && Canonical(a) == Canonical(b) && AreValid(list)
    ensures AnyCovers(list, a) == AnyCovers(list, b)
  {
    hide CheckedPrefixEq, Canonical;
    if list != [] {
      SameAnswers(list[1..], a, b);
    }
  }

  /** Any other address is its own form. */
  lemma OthersAreThemselves(ip: Ip)
    requires ip.Valid()
    ensures Canonical(ip) == ip || exists v4: Octets :: |v4| == 4 && ip == Mapped(v4)
  {
    if IsMapped(ip) {
      assert ip.octets == seq(10, _ => 0) + [255, 255] + ip.octets[12..];
      assert ip == Mapped(ip.octets[12..]);
    }
  }

  /** A bare address matches exactly itself, in either spelling. */
  lemma BareAddressMatchesItself(addr: Ip, ip: Ip)
    requires addr.Valid() && ip.Valid()
    ensures Contains(ParseEntry(Bare(addr)).entry, ip) == Covered(Canonical(addr) == Canonical(ip))
  {
    var net, host := Canonical(addr), Canonical(ip);
    assert Canonical(net) == net;
    if net.V4? == host.V4? {
      assert net.octets[..|net.octets|] == net.octets && host.octets[..|host.octets|] == host.octets;
    }
  }

  /** Some entry is `p`, and none in front of it is `q`. */
  predicate FirstBefore(list: seq<Entry>, p: Entry -> bool, q: Entry -> bool) {
    exists i :: 0 <= i < |list| && IsFirstAt(list, p, q, i)
  }

  predicate IsFirstAt(list: seq<Entry>, p: Entry -> bool, q: Entry -> bool, i: int)
    requires 0 <= i < |list|
  {
    p(list[i]) && forall j :: 0 <= j < i ==> !q(list[j])
  }

  lemma FirstBeforeStep(list: seq<Entry>, p: Entry -> bool, q: Entry -> bool)
    requires list != []
    ensures FirstBefore(list, p, q) <==> p(list[0]) || (!q(list[0]) && FirstBefore(list[1..], p, q))
  {
    var rest := list[1..];
    if p(list[0]) {
      assert IsFirstAt(list, p, q, 0);
    } else if FirstBefore(list, p, q) {
      var i :| 0 <= i < |list| && IsFirstAt(list, p, q, i);
      assert IsFirstAt(rest, p, q, i - 1);
    } else if !q(list[0]) && FirstBefore(rest, p, q) {
      var i :| 0 <= i < |rest| && IsFirstAt(rest, p, q, i);
      forall j | 0 <= j < i + 1
        ensures !q(list[j])
      {
        if j > 0 {
          assert rest[j - 1] == list[j];
        }
      }
      assert IsFirstAt(list, p, q, i + 1);
    }
  }

  function Covering(ip: Ip): Entry -> bool {
    (e: Entry) => e.addr.Valid() && ip.Valid() && Covers(e, ip)
  }

  function Overrunning(ip: Ip): Entry -> bool {
    (e: Entry) => e.addr.Valid() && ip.Valid() && Overruns(e, ip)
  }

  predicate AreParsed(list: seq<Entry>) {
    forall i :: 0 <= i < |list| ==> IsParsed(list[i])
  }

  /** For every list that parses: yes exactly when it is empty or an entry covers the client before one overruns; no
      answer exactly when an entry overruns before one covers; and otherwise no. */
  lemma AllowsMeans(list: seq<Entry>, ip: Ip)
    requires ip.Valid() && AreValid(list) && AreParsed(list)
    ensures Allows(list, ip) == Covered(true) <==> list == [] || FirstBefore(list, Covering(ip), Overrunning(ip))
    ensures Allows(list, ip).OutOfBounds? <==> FirstBefore(list, Overrunning(ip), Covering(ip))
  {
    hide Covers, Overruns, Contains;
    if list != [] {
      AnyCoversMeans(list, ip);
    }
  }

  lemma {:induction false} AnyCoversMeans(list: seq<Entry>, ip: Ip)
    requires ip.Valid() && AreValid(list) && AreParsed(list)
    ensures AnyCovers(list, ip) == Covered(true) <==> FirstBefore(list, Covering(ip), Overrunning(ip))
    ensures AnyCovers(list, ip).OutOfBounds? <==> FirstBefore(list, Overrunning(ip), Covering(ip))
    decreases |list|
  {
    hide Covers, Overruns, Contains, IsParsed;
    if list != [] {
      ContainsMeans(list[0], ip);
      AnyCoversMeans(list[1..], ip);
      FirstBeforeStep(list, Covering(ip), Overrunning(ip));
      FirstBeforeStep(list, Overrunning(ip), Covering(ip));
      hide FirstBefore;
    }
  }

  /** With every entry bare or written in its own family nothing overruns, so the list always answers, and it says yes
      exactly when it is empty or some entry covers the client. */
  lemma OwnFamilyAlwaysAnswers(list: seq<Entry>, ip: Ip)
    requires ip.Valid() && AreValid(list) && AreParsed(list)
    requires forall i :: 0 <= i < |list| ==> !IsMapped(list[i].addr)
    ensures Allows(list, ip) == Covered(list == [] || exists i :: 0 <= i < |list| && Covers(list[i], ip))
  {
    AllowsMeans(list, ip);
    hide Covers, Allows, IsParsed, Canonical, IsMapped;
    forall i | 0 <= i < |list|
      ensures !Overruns(list[i], ip)
    {
    }
    hide Overruns;
    if i :| 0 <= i < |list| && Covers(list[i], ip) {
      assert IsFirstAt(list, Covering(ip), Overrunning(ip), i);
    }
  }

  /** A mapped entry written with a prefix length of its own family has no answer for an IPv4 client. */
  lemma MappedEntryHasNoAnswer()
    ensures var mapped := V6(seq(10, _ => 0) + [255, 255, 10, 0, 0, 0]);
            && ParseEntry(WithLength(mapped, 104)).Parsed?
            && Contains(Entry(mapped, 104), V4([10, 1, 2, 3])) == OutOfBounds
  {
    var mapped := V6(seq(10, _ => 0) + [255, 255, 10, 0, 0, 0]);
    assert mapped.octets[..10] == seq(10, _ => 0);
    ContainsMeans(ParseEntry(WithLength(mapped, 104)).entry, V4([10, 1, 2, 3]));
  }
}
