/** Connection strings assembled from separate fields (cmd/src/aws.rs), sections 2.1 and 3.2.1 of RFC 3986. */
module ConnectionUrl {
  import opened Text
  import Utf8

  // ----- Percent encoding -----

  function ByteChar(b: byte): char {
    b as char
  }

  predicate IsUnreserved(c: char) {
    IsAsciiAlphanumeric(c) || c in {'-', '_', '.', '~'}
  }

  function HexDigit(d: int): char
    requires 0 <= d < 16
  {
    if d < 10 then (d + '0' as int) as char else (d - 10 + 'A' as int) as char
  }

  function Escape(b: byte): (s: string)
    ensures s != ""
  {
    if IsUnreserved(ByteChar(b)) then [ByteChar(b)] else ['%', HexDigit(High(b)), HexDigit(Low(b))]
  }

  function High(b: int): (d: int)
    requires 0 <= b < 256
    ensures 0 <= d < 16
  {
    b / 16
  }

  function Low(b: int): (d: int)
    requires 0 <= b < 256
    ensures 0 <= d < 16
  {
    b % 16
  }

  function Encoded(bytes: seq<byte>): string {
    if bytes == [] then "" else Escape(bytes[0]) + Encoded(bytes[1..])
  }

  method PercentEncode(s: string) returns (out: string)
    ensures out == Encoded(Utf8.Octets(s))
  {
    hide Encoded, IsUnreserved, Utf8.Octets;
    out := "";
    var bytes := Utf8.Octets(s);
    assert bytes[0..] == bytes;
    for i := 0 to |bytes|
      invariant out + Encoded(bytes[i..]) == Encoded(bytes)
    {
      EncodedStep(bytes, i);
      ghost var before := out;
      var c := ByteChar(bytes[i]);
      if IsUnreserved(c) {
        out := out + [c];
      } else {
        out := out + ['%', HexDigit(High(bytes[i])), HexDigit(Low(bytes[i]))];
      }
      assert out == before + Escape(bytes[i]);
      assert out + Encoded(bytes[i + 1..]) == before + (Escape(bytes[i]) + Encoded(bytes[i + 1..]));
    }
    assert bytes[|bytes|..] == [];
    EncodedNothing();
  }

  lemma EncodedStep(bytes: seq<byte>, i: nat)
    requires i < |bytes|
    ensures Encoded(bytes[i..]) == Escape(bytes[i]) + Encoded(bytes[i + 1..])
  {
    assert bytes[i..][1..] == bytes[i + 1..];
  }

  lemma EncodedNothing()
    ensures Encoded([]) == ""
  {
  }

  // ----- A reader of what section 2.1 says an escape means -----

  function HexValue(c: char): Option<int> {
    if IsAsciiDigit(c) then Some(c as int - '0' as int)
    else if 'A' <= c <= 'F' then Some(c as int - 'A' as int + 10)
    else if 'a' <= c <= 'f' then Some(c as int - 'a' as int + 10)
    else None
  }

  function AsByte(n: int): Option<byte> {
    if 0 <= n < 256 then Some(n) else None
  }

  function HexPair(high: char, low: char): Option<byte> {
    var h, l := HexValue(high), HexValue(low);
    if h.None? || l.None? then None else AsByte(h.value * 16 + l.value)
  }

  /** The first octet spelled, and how many characters spell it. */
  function FirstOctet(s: string): Option<byte>
    requires s != ""
  {
    if s[0] != '%' then AsByte(s[0] as int)
    else if |s| < 3 then None
    else HexPair(s[1], s[2])
  }

  function FirstWidth(s: string): nat
    requires s != ""
  {
    if s[0] == '%' then 3 else 1
  }

  function Decoded(s: string): Option<seq<byte>> {
    if s == "" then Some([])
    else if FirstOctet(s).None? || |s| < FirstWidth(s) then None
    else
      var rest := Decoded(s[FirstWidth(s)..]);
      if rest.None? then None else Some([FirstOctet(s).value] + rest.value)
  }

  function PercentDecode(s: string): Option<string> {
    var bytes := Decoded(s);
    if bytes.None? then None else Utf8.Read(bytes.value)
  }

  lemma HexReadsBack(d: int)
    requires 0 <= d < 16
    ensures HexValue(HexDigit(d)) == Some(d) && IsUnreserved(HexDigit(d))
  {
  }

  lemma EscapeReadsBack(b: byte, rest: string)
    ensures FirstOctet(Escape(b) + rest) == Some(b) && FirstWidth(Escape(b) + rest) == |Escape(b)|
    ensures forall c <- Escape(b) :: IsUnreserved(c) || c == '%'
  {
    HexReadsBack(High(b));
    HexReadsBack(Low(b));
    hide HexDigit, HexValue;
  }

  lemma {:induction false} EncodedReadsBack(bytes: seq<byte>)
    ensures Decoded(Encoded(bytes)) == Some(bytes)
    ensures forall c <- Encoded(bytes) :: IsUnreserved(c) || c == '%'
  {
    if bytes != [] {
      hide Escape, FirstOctet, FirstWidth, IsUnreserved;
      var first, rest := Escape(bytes[0]), Encoded(bytes[1..]);
      EscapeReadsBack(bytes[0], rest);
      EncodedReadsBack(bytes[1..]);
      assert (first + rest)[|first|..] == rest;
      assert [bytes[0]] + bytes[1..] == bytes;
    }
  }

  function PercentEncoded(s: string): string {
    Encoded(Utf8.Octets(s))
  }

  predicate IsDelimiter(c: char) {
    c in {':', '/', '?', '#', '[', ']', '@'}
  }

  /** Decoding gives back the text, and nothing in the encoded text could end the part of a URL it stands in. */
  lemma PercentRoundTrip(s: string)
    ensures PercentDecode(PercentEncoded(s)) == Some(s)
    ensures forall c <- PercentEncoded(s) :: !IsDelimiter(c)
  {
    EncodedReadsBack(Utf8.Octets(s));
    Utf8.OctetsReadBack(s);
    hide Encoded, Decoded, Utf8.Octets, Utf8.Read;
  }

  /** An unreserved octet stands for itself and any other is escaped: a percent sign and two digits,
      the letters among them capitals. */
  lemma EscapesOnlyOthers(b: byte)
    ensures Escape(b) == [b as char] <==> IsUnreserved(b as char)
    ensures !IsUnreserved(b as char) ==>
              && |Escape(b)| == 3 && Escape(b)[0] == '%'
              && forall i :: 1 <= i < 3 ==> IsAsciiDigit(Escape(b)[i]) || 'A' <= Escape(b)[i] <= 'F'
  {
    assert !IsUnreserved('%');
  }

  /** Text of unreserved ASCII is left as it is. */
  lemma {:induction false} PlainTextIsKept(s: string)
    requires forall c <- s :: IsUnreserved(c)
    ensures PercentEncoded(s) == s
  {
    hide IsUnreserved, Escape;
    if s != [] {
      var c := s[0];
      assert c in s && forall d <- s[1..] :: d in s;
      UnreservedIsAscii(c);
      assert Utf8.CharOctets(c) == [c as int];
      EscapesOnlyOthers(c as int);
      PlainTextIsKept(s[1..]);
      assert ([c as int] + Utf8.Octets(s[1..]))[1..] == Utf8.Octets(s[1..]);
      assert [c] + s[1..] == s;
    }
  }

  lemma UnreservedIsAscii(c: char)
    requires IsUnreserved(c)
    ensures c as int < 0x80
  {
  }

  lemma PercentEncodingIsInjective(s: string, t: string)
    requires PercentEncoded(s) == PercentEncoded(t)
    ensures s == t
  {
    PercentRoundTrip(s);
    PercentRoundTrip(t);
    hide PercentEncoded, PercentDecode;
  }

  // ----- Fields -----

  type Settings = map<string, string>

  const PG_PREFIXES: seq<string> := ["HUNTWELL_PG", "PG", "DB"]
  const POOL_PREFIXES: seq<string> := ["POOL_PG"] + PG_PREFIXES

  /** The names a field goes by, in the order they are tried: every stem under a prefix before the next prefix. */
  function Names(prefixes: seq<string>, stems: seq<string>): seq<string> {
    if prefixes == [] then []
    else seq(|stems|, i requires 0 <= i < |stems| => prefixes[0] + "_" + stems[i]) + Names(prefixes[1..], stems)
  }

  predicate IsSet(settings: Settings, name: string) {
    name in settings && !IsBlank(settings[name])
  }

  function FirstSet(settings: Settings, names: seq<string>): Option<string> {
    if names == [] then None
    else if IsSet(settings, names[0]) then Some(Trim(settings[names[0]]))
    else FirstSet(settings, names[1..])
  }

  predicate IsFirstSet(settings: Settings, names: seq<string>, i: nat) {
    i < |names| && IsSet(settings, names[i]) && forall j :: 0 <= j < i ==> !IsSet(settings, names[j])
  }

  /** The first name that says something decides, and only then is there a field. */
  lemma {:induction false} FirstSetDecides(settings: Settings, names: seq<string>)
    ensures FirstSet(settings, names).None? <==> forall i :: 0 <= i < |names| ==> !IsSet(settings, names[i])
    ensures forall i :: 0 <= i < |names| && IsFirstSet(settings, names, i) ==>
                          FirstSet(settings, names) == Some(Trim(settings[names[i]]))
  {
    hide IsSet, Trim;
    if names != [] && !IsSet(settings, names[0]) {
      FirstSetDecides(settings, names[1..]);
      assert forall i :: 1 <= i < |names| ==> names[i] == names[1..][i - 1];
    }
  }

  function Field(settings: Settings, prefixes: seq<string>, stems: seq<string>): Option<string> {
    FirstSet(settings, Names(prefixes, stems))
  }

  function Or(a: Option<string>, default: string): string {
    if a.Some? then a.value else default
  }

  // ----- Composing -----

  datatype Parts = Parts(
    host: string, port: string, user: string, db: string, pass: Option<string>, sslmode: Option<string>)

  function PartsOf(settings: Settings, prefixes: seq<string>, defaultDb: string): Option<Parts> {
    var host := Field(settings, prefixes, ["HOST"]);
    if host.None? then None
    else
      Some(Parts(
             host.value,
             Or(Field(settings, prefixes, ["PORT"]), "5432"),
             Or(Field(settings, prefixes, ["USERNAME", "USER"]), "postgres"),
             Or(Field(settings, prefixes, ["DATABASE", "DBNAME", "NAME"]), defaultDb),
             Field(settings, prefixes, ["PASSWORD", "PASS"]),
             Field(settings, prefixes, ["SSLMODE"])))
  }

  const SCHEME := "postgres://"

  function UserInfo(parts: Parts): string {
    PercentEncoded(parts.user) + if parts.pass.Some? then ":" + PercentEncoded(parts.pass.value) else ""
  }

  /** Everything after the `@`, as it was given. */
  function Address(parts: Parts): string {
    parts.host + ":" + parts.port + "/" + parts.db
    + if parts.sslmode.Some? then "?sslmode=" + parts.sslmode.value else ""
  }

  function UrlOf(parts: Parts): string {
    SCHEME + UserInfo(parts) + "@" + Address(parts)
  }

  method Compose(settings: Settings, prefixes: seq<string>, defaultDb: string) returns (url: Option<string>)
    ensures url == if PartsOf(settings, prefixes, defaultDb).None? then None
                   else Some(UrlOf(PartsOf(settings, prefixes, defaultDb).value))
  {
    hide Field, Encoded, Utf8.Octets;
    var host := Field(settings, prefixes, ["HOST"]);
    if host.None? {
      return None;
    }
    var port := Or(Field(settings, prefixes, ["PORT"]), "5432");
    var user := Or(Field(settings, prefixes, ["USERNAME", "USER"]), "postgres");
    var db := Or(Field(settings, prefixes, ["DATABASE", "DBNAME", "NAME"]), defaultDb);
    var pass := Field(settings, prefixes, ["PASSWORD", "PASS"]);
    var mode := Field(settings, prefixes, ["SSLMODE"]);
    ghost var parts := Parts(host.value, port, user, db, pass, mode);
    var userinfo := PercentEncode(user);
    if pass.Some? {
      var secret := PercentEncode(pass.value);
      userinfo := userinfo + ":" + secret;
    }
    assert userinfo == UserInfo(parts);
    var text := SCHEME + userinfo + "@" + host.value + ":" + port + "/" + db;
    if mode.Some? {
      text := text + ("?sslmode=" + mode.value);
    }
    UrlSpelledOut(parts);
    assert text == UrlOf(parts);
    url := Some(text);
  }

  lemma UrlSpelledOut(parts: Parts)
    ensures var text := SCHEME + UserInfo(parts) + "@" + parts.host + ":" + parts.port + "/" + parts.db;
            UrlOf(parts) == if parts.sslmode.Some? then text + ("?sslmode=" + parts.sslmode.value) else text
  {
    hide UserInfo;
    var front := SCHEME + UserInfo(parts) + "@";
    assert UrlOf(parts) == front + Address(parts);
    if parts.sslmode.Some? {
      assert Address(parts) == parts.host + ":" + parts.port + "/" + parts.db + ("?sslmode=" + parts.sslmode.value);
    } else {
      assert Address(parts) == parts.host + ":" + parts.port + "/" + parts.db;
    }
  }

  // ----- Reading a connection URL -----

  /** The first place a character stands, or the length. */
  function FirstAt(s: string, c: char): (i: nat)
    ensures i <= |s|
    ensures i < |s| ==> s[i] == c
    ensures forall j :: 0 <= j < i ==> s[j] != c
  {
    if s == [] || s[0] == c then 0 else 1 + FirstAt(s[1..], c)
  }

  datatype Login = Login(user: Option<string>, pass: Option<Option<string>>)

  /** The login and what follows it: the authority at its first `@`, the user information at its first `:`. */
  function ReadUrl(url: string): Option<(Login, string)> {
    if !(SCHEME <= url) then None
    else
      var authority := url[|SCHEME|..];
      var at := FirstAt(authority, '@');
      if at == |authority| then None
      else
        var info := authority[..at];
        var colon := FirstAt(info, ':');
        var pass := if colon == |info| then None else Some(PercentDecode(info[colon + 1..]));
        Some((Login(PercentDecode(info[..colon]), pass), authority[at + 1..]))
  }

  lemma FirstAtConcat(a: string, c: char, b: string)
    requires forall x <- a :: x != c
    ensures FirstAt(a + [c] + b, c) == |a|
  {
    var s := a + [c] + b;
    forall j | 0 <= j < |a|
      ensures s[j] != c
    {
      assert a[j] in a;
    }
    assert s[|a|] == c;
  }

  lemma FirstAtNowhere(a: string, c: char)
    requires forall x <- a :: x != c
    ensures FirstAt(a, c) == |a|
  {
    assert forall j :: 0 <= j < |a| ==> a[j] in a;
  }

  lemma UserInfoHasNoAt(parts: Parts)
    ensures forall c <- UserInfo(parts) :: c != '@' && c != '/' && c != '?' && c != '#'
  {
    PercentRoundTrip(parts.user);
    if parts.pass.Some? {
      PercentRoundTrip(parts.pass.value);
    }
    hide PercentEncoded;
  }

  lemma UserInfoReadsBack(parts: Parts)
    ensures var info := UserInfo(parts);
            var colon := FirstAt(info, ':');
            && PercentDecode(info[..colon]) == Some(parts.user)
            && (colon == |info| <==> parts.pass.None?)
            && (parts.pass.Some? ==> PercentDecode(info[colon + 1..]) == parts.pass)
  {
    hide PercentEncoded, PercentDecode, FirstAt;
    var user := PercentEncoded(parts.user);
    PercentRoundTrip(parts.user);
    if parts.pass.Some? {
      var pass := PercentEncoded(parts.pass.value);
      PercentRoundTrip(parts.pass.value);
      FirstAtConcat(user, ':', pass);
      var info := UserInfo(parts);
      assert info == user + [':'] + pass;
      assert info[..|user|] == user && info[|user| + 1..] == pass;
    } else {
      FirstAtNowhere(user, ':');
      assert UserInfo(parts) == user;
    }
  }

  /** Whatever the user and the password are, the URL gives both back exactly, tells no password from an empty one,
      and leaves the address as it was: no password can move the host. */
  lemma UrlRoundTrip(parts: Parts)
    ensures var pass := if parts.pass.None? then None else Some(parts.pass);
            ReadUrl(UrlOf(parts)) == Some((Login(Some(parts.user), pass), Address(parts)))
  {
    hide UserInfo, Address, FirstAt, PercentDecode;
    var info, address := UserInfo(parts), Address(parts);
    var authority := info + ['@'] + address;
    assert UrlOf(parts) == SCHEME + authority;
    assert UrlOf(parts)[|SCHEME|..] == authority;
    UserInfoHasNoAt(parts);
    FirstAtConcat(info, '@', address);
    assert authority[..|info|] == info && authority[|info| + 1..] == address;
    UserInfoReadsBack(parts);
  }

  /** So over one address, two URLs are the same only for the same login. */
  lemma UrlIsInjective(a: Parts, b: Parts)
    requires UrlOf(a) == UrlOf(b)
    ensures a.user == b.user && a.pass == b.pass && Address(a) == Address(b)
  {
    UrlRoundTrip(a);
    UrlRoundTrip(b);
    hide UrlOf, ReadUrl, Address;
  }
}
