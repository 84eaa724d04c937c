/** Text as the standard library sees it: Unicode white space, trimming, ASCII case, substrings. */
module Text {

  datatype Option<+T> = None | Some(value: T)

  type byte = x: int | 0 <= x < 256

  /** The Unicode White_Space property. */
  predicate IsWhitespace(c: char) {
    || '\t' <= c <= '\r' || c == ' ' || c == '\U{0085}' || c == '\U{00A0}' || c == '\U{1680}'
    || '\U{2000}' <= c <= '\U{200A}' || c == '\U{2028}' || c == '\U{2029}' || c == '\U{202F}'
    || c == '\U{205F}' || c == '\U{3000}'
  }

  predicate IsBlank(s: string) {
    forall c <- s :: IsWhitespace(c)
  }

  function TrimStart(s: string): string {
    if s != [] && IsWhitespace(s[0]) then TrimStart(s[1..]) else s
  }

  function TrimEnd(s: string): string {
    if s != [] && IsWhitespace(s[|s| - 1]) then TrimEnd(s[..|s| - 1]) else s
  }

  function Trim(s: string): string {
    TrimEnd(TrimStart(s))
  }

  /** Neither end is white space; exactly the strings `Trim` leaves alone. */
  predicate IsTrimmed(s: string) {
    s == [] || (!IsWhitespace(s[0]) && !IsWhitespace(s[|s| - 1]))
  }

  lemma {:induction false} TrimEndKeepsStart(s: string)
    ensures TrimEnd(s) <= s
    ensures TrimEnd(s) != [] ==> !IsWhitespace(TrimEnd(s)[|TrimEnd(s)| - 1])
  {
    if s != [] && IsWhitespace(s[|s| - 1]) {
      TrimEndKeepsStart(s[..|s| - 1]);
    }
  }

  lemma {:induction false} TrimStartFront(s: string)
    ensures TrimStart(s) == [] || !IsWhitespace(TrimStart(s)[0])
  {
    if s != [] && IsWhitespace(s[0]) {
      TrimStartFront(s[1..]);
    }
  }

  lemma TrimIsTrimmed(s: string)
    ensures IsTrimmed(Trim(s))
  {
    TrimStartFront(s);
    TrimEndKeepsStart(TrimStart(s));
  }

  lemma TrimLeavesTrimmed(s: string)
    requires IsTrimmed(s)
    ensures Trim(s) == s
  {
  }

  lemma {:induction false} TrimBlank(s: string)
    ensures Trim(s) == [] <==> IsBlank(s)
  {
    if s != [] && IsWhitespace(s[0]) {
      TrimBlank(s[1..]);
      assert s == [s[0]] + s[1..];
    } else if s != [] {
      TrimEndKeepsFirst(s);
    }
  }

  lemma {:induction false} TrimEndKeepsFirst(s: string)
    requires s != [] && !IsWhitespace(s[0])
    ensures TrimEnd(s) != []
  {
    if IsWhitespace(s[|s| - 1]) {
      TrimEndKeepsFirst(s[..|s| - 1]);
    }
  }

  // ----- ASCII -----

  predicate IsAsciiUpper(c: char) {
    'A' <= c <= 'Z'
  }

  predicate IsAsciiLower(c: char) {
    'a' <= c <= 'z'
  }

  predicate IsAsciiDigit(c: char) {
    '0' <= c <= '9'
  }

  predicate IsAsciiAlphanumeric(c: char) {
    IsAsciiUpper(c) || IsAsciiLower(c) || IsAsciiDigit(c)
  }

  function LowerChar(c: char): char {
    if IsAsciiUpper(c) then (c as int + 32) as char else c
  }

  function Lower(s: string): (r: string)
    ensures |r| == |s|
    ensures forall i :: 0 <= i < |s| ==> r[i] == LowerChar(s[i])
  {
    if s == [] then [] else [LowerChar(s[0])] + Lower(s[1..])
  }

  predicate EqualsIgnoringCase(a: string, b: string) {
    Lower(a) == Lower(b)
  }

  // ----- Substrings -----

  predicate ContainsAt(s: string, sub: string, i: nat) {
    i + |sub| <= |s| && s[i..i + |sub|] == sub
  }

  predicate Contains(s: string, sub: string) {
    exists i: nat | i <= |s| :: ContainsAt(s, sub, i)
  }

  predicate EndsWith(s: string, suffix: string) {
    |suffix| <= |s| && s[|s| - |suffix|..] == suffix
  }

  lemma ContainedIsBetween(text: string, mark: string)
    ensures Contains(text, mark) <==> exists before, after: string :: text == before + mark + after
  {
    if Contains(text, mark) {
      var i: nat :| i <= |text| && ContainsAt(text, mark, i);
      assert text == text[..i] + mark + text[i + |mark|..];
    }
    if before, after: string :| text == before + mark + after {
      assert text[|before|..|before| + |mark|] == mark;
      assert ContainsAt(text, mark, |before|);
    }
  }

  /** The first place `sub` stands in `s`, at or after `i`. */
  function IndexFrom(s: string, sub: string, i: nat): (found: Option<nat>)
    requires i <= |s|
    ensures found.Some? ==> i <= found.value && ContainsAt(s, sub, found.value)
    ensures forall j: nat :: i <= j < (if found.Some? then found.value else |s| + 1) ==> !ContainsAt(s, sub, j)
    decreases |s| - i
  {
    if ContainsAt(s, sub, i) then Some(i)
    else if i == |s| then None
    else IndexFrom(s, sub, i + 1)
  }

  /** A place with none before it is the first. */
  lemma FirstIsFound(s: string, sub: string, k: nat)
    requires ContainsAt(s, sub, k) && forall j: nat :: j < k ==> !ContainsAt(s, sub, j)
    ensures IndexFrom(s, sub, 0) == Some(k)
  {
  }

  /** One character out of place is enough. */
  lemma NotAt(s: string, sub: string, j: nat, i: nat)
    requires i < |sub| && (j + i >= |s| || s[j + i] != sub[i])
    ensures !ContainsAt(s, sub, j)
  {
    if j + |sub| <= |s| {
      assert s[j..j + |sub|][i] == s[j + i];
    }
  }

  // ----- Decimal numbers -----

  function Digit(d: nat): (c: char)
    requires d < 10
    ensures IsAsciiDigit(c) && c as int - '0' as int == d
  {
    (d + '0' as int) as char
  }

  function Decimal(n: nat): (s: string)
    ensures s != [] && forall c <- s :: IsAsciiDigit(c)
  {
    if n < 10 then [Digit(n)] else Decimal(n / 10) + [Digit(n % 10)]
  }

  function DigitValue(c: char): nat
    requires IsAsciiDigit(c)
  {
    c as int - '0' as int
  }

  function DigitsValue(s: string): nat
    requires forall c <- s :: IsAsciiDigit(c)
  {
    if s == [] then 0 else DigitsValue(s[..|s| - 1]) * 10 + DigitValue(s[|s| - 1])
  }

  lemma {:induction false} DecimalValue(n: nat)
    ensures DigitsValue(Decimal(n)) == n
  {
    if n >= 10 {
      DecimalValue(n / 10);
      assert Decimal(n)[..|Decimal(n)| - 1] == Decimal(n / 10);
    } else {
      assert Decimal(n)[..0] == [];
    }
  }

  function Ten(k: nat): (p: nat)
    ensures p > 0
  {
    if k == 0 then 1 else 10 * Ten(k - 1)
  }

  lemma {:induction false} DecimalLength(n: nat, k: nat)
    requires k > 0 && n < Ten(k)
    ensures |Decimal(n)| <= k
    decreases k
  {
    if n >= 10 {
      assert k > 1 by {
        assert Ten(1) == 10 * Ten(0);
      }
      DecimalLength(n / 10, k - 1);
    }
  }
}
