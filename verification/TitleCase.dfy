/** Title-casing scraped names (cmd/src/normalize.rs). The alphabet's case mapping is a parameter, and maps a
    character to any text; the words kept in capitals and the particles kept small are parameters too. */
module TitleCase {
  import opened Normalize
  import opened Multiline

  datatype Casing = Casing(
    up: char -> string, down: char -> string, isLower: char -> bool, isAlphanumeric: char -> bool,
    capitals: set<string>, particles: set<string>)

  predicate IsWordChar(k: Casing, c: char) {
    k.isAlphanumeric(c) || c == '\'' || c == '.'
  }

  predicate HasLower(k: Casing, s: string) {
    exists c <- s :: k.isLower(c)
  }

  function MapAll(f: char -> string, s: string): string {
    if s == "" then "" else f(s[0]) + MapAll(f, s[1..])
  }

  // ----- One word -----

  /** The letters behind the first: a capital behind an apostrophe that is not itself the first. */
  function Tail(k: Casing, w: string, capital: bool): string {
    if w == "" then "" else (if capital then k.up(w[0]) else k.down(w[0])) + Tail(k, w[1..], w[0] == '\'')
  }

  function Capitalized(k: Casing, w: string): string {
    if w == "" then "" else k.up(w[0]) + Tail(k, w[1..], false)
  }

  /** Neither kept in capitals nor a particle that may be small. */
  predicate IsPlainWord(k: Casing, w: string, first: bool) {
    var upper := MapAll(k.up, w);
    upper !in k.capitals && (first || upper !in k.particles)
  }

  function CaseWord(k: Casing, w: string, first: bool): string {
    if IsPlainWord(k, w, first) then Capitalized(k, w)
    else if MapAll(k.up, w) in k.capitals then MapAll(k.up, w)
    else MapAll(k.down, w)
  }

  method FlushWord(k: Casing, w: string, first: bool) returns (out: string)
    ensures out == CaseWord(k, w, first)
  {
    var upper := MapAll(k.up, w);
    if upper in k.capitals {
      return upper;
    }
    if !first && upper in k.particles {
      return MapAll(k.down, w);
    }
    out := "";
    for i := 0 to |w|
      invariant i == 0 ==> out == ""
      invariant i > 0 ==> out + Tail(k, w[i..], i >= 2 && w[i - 1] == '\'') == Capitalized(k, w)
    {
      assert w[i..][1..] == w[i + 1..];
      ghost var before := out;
      if i == 0 {
        out := out + k.up(w[i]);
      } else if i >= 2 && w[i - 1] == '\'' {
        out := out + k.up(w[i]);
      } else {
        out := out + k.down(w[i]);
      }
      if i > 0 {
        ghost var rest := Tail(k, w[i + 1..], w[i] == '\'');
        TailStep(k, w, i);
        assert out + rest == before + ((if i >= 2 && w[i - 1] == '\'' then k.up(w[i]) else k.down(w[i])) + rest);
      }
    }
    assert w[|w|..] == "";
  }

  lemma TailStep(k: Casing, w: string, i: nat)
    requires 0 < i < |w|
    ensures forall capital :: Tail(k, w[i..], capital)
                           == (if capital then k.up(w[i]) else k.down(w[i])) + Tail(k, w[i + 1..], w[i] == '\'')
  {
    assert w[i..][1..] == w[i + 1..];
  }

  // ----- A text, word by word -----

  /** How far the word at the front reaches. */
  function WordLength(k: Casing, s: string): (n: nat)
    ensures n <= |s|
    ensures forall i :: 0 <= i < n ==> IsWordChar(k, s[i])
    ensures n < |s| ==> !IsWordChar(k, s[n])
  {
    if s == "" || !IsWordChar(k, s[0]) then 0 else 1 + WordLength(k, s[1..])
  }

  function Titled(k: Casing, s: string, first: bool): string
    decreases |s|
  {
    var n := WordLength(k, s);
    if s == "" then ""
    else if n == 0 then [s[0]] + Titled(k, s[1..], first)
    else CaseWord(k, s[..n], first) + Titled(k, s[n..], false)
  }

  function SmartTitled(k: Casing, nfc: string -> string, s: string): string {
    var clean := Cleanse(nfc, s);
    if HasLower(k, clean) then clean else Titled(k, clean, true)
  }

  predicate IsWord(k: Casing, w: string) {
    forall i :: 0 <= i < |w| ==> IsWordChar(k, w[i])
  }

  /** The loop: a word is gathered until it ends, then written out. */
  method TitleCaseWords(k: Casing, s: string) returns (out: string)
    ensures out == Titled(k, s, true)
  {
    hide CaseWord, IsWordChar, Titled;
    out := "";
    var word := "";
    var first := true;
    assert s[0..] == s && "" + s == s;
    for i := 0 to |s|
      invariant IsWord(k, word)
      invariant out + Titled(k, word + s[i..], first) == Titled(k, s, true)
    {
      var c := s[i];
      assert s[i..] == [c] + s[i + 1..];
      if IsWordChar(k, c) {
        assert word + s[i..] == word + [c] + s[i + 1..];
        word := word + [c];
      } else {
        TitledBreak(k, word, c, s[i + 1..], first);
        if word != "" {
          var cased := FlushWord(k, word, first);
          out := out + cased;
          first := false;
          word := "";
        }
        out := out + [c];
        assert "" + s[i + 1..] == s[i + 1..];
      }
    }
    assert word + s[|s|..] == word;
    TitledEnd(k, word, first);
    if word != "" {
      var cased := FlushWord(k, word, first);
      out := out + cased;
    }
  }

  method SmartTitleCase(k: Casing, nfc: string -> string, s: string) returns (out: string)
    ensures out == SmartTitled(k, nfc, s)
  {
    hide Scrubbed, Titled;
    var clean := Scrub(nfc, s, true);
    if clean == "" {
      TitledNothing(k, true);
      return "";
    }
    if exists c <- clean :: k.isLower(c) {
      return clean;
    }
    out := TitleCaseWords(k, clean);
  }

  lemma TitledNothing(k: Casing, first: bool)
    ensures Titled(k, "", first) == ""
  {
  }

  lemma WordEnds(k: Casing, word: string, rest: string)
    requires IsWord(k, word) && (rest != "" ==> !IsWordChar(k, rest[0]))
    ensures WordLength(k, word + rest) == |word|
  {
    var s := word + rest;
    var n := WordLength(k, s);
    assert forall i :: 0 <= i < |word| ==> s[i] == word[i];
    assert rest != "" ==> s[|word|] == rest[0];
  }

  lemma TitledEnd(k: Casing, word: string, first: bool)
    requires IsWord(k, word)
    ensures Titled(k, word, first) == if word == "" then "" else CaseWord(k, word, first)
  {
    hide CaseWord, IsWordChar;
    WordEnds(k, word, "");
    assert word + "" == word && word[..|word|] == word && word[|word|..] == "";
  }

  /** What a word's end is worth: the word cased, the character behind it as it is, and the rest. */
  lemma TitledWord(k: Casing, word: string, rest: string, first: bool)
    requires IsWord(k, word) && word != "" && (rest != "" ==> !IsWordChar(k, rest[0]))
    ensures Titled(k, word + rest, first) == CaseWord(k, word, first) + Titled(k, rest, false)
  {
    hide CaseWord, IsWordChar;
    WordEnds(k, word, rest);
    assert (word + rest)[..|word|] == word && (word + rest)[|word|..] == rest;
  }

  lemma TitledOther(k: Casing, c: char, rest: string, first: bool)
    requires !IsWordChar(k, c)
    ensures Titled(k, [c] + rest, first) == [c] + Titled(k, rest, first)
  {
    hide CaseWord, IsWordChar;
    WordEnds(k, "", [c] + rest);
    assert "" + ([c] + rest) == [c] + rest && ([c] + rest)[1..] == rest;
  }

  lemma TitledBreak(k: Casing, word: string, c: char, rest: string, first: bool)
    requires IsWord(k, word) && !IsWordChar(k, c)
    ensures Titled(k, word + ([c] + rest), first) ==
            if word == "" then [c] + Titled(k, rest, first)
            else CaseWord(k, word, first) + ([c] + Titled(k, rest, false))
  {
    hide CaseWord, IsWordChar, Titled;
    if word == "" {
      assert word + ([c] + rest) == [c] + rest;
      TitledOther(k, c, rest, first);
    } else {
      TitledWord(k, word, [c] + rest, first);
      TitledOther(k, c, rest, false);
    }
  }

  /** The start of a text, as titling takes it apart. */
  lemma Apart(k: Casing, s: string)
    requires s != ""
    ensures var n := WordLength(k, s);
            && s == s[..n] + s[n..] && IsWord(k, s[..n])
            && (n == 0 ==> s == [s[0]] + s[1..] && !IsWordChar(k, s[0]))
  {
    hide IsWordChar, WordLength;
  }

  // ----- Only case changes -----

  /** What a character may come out as: either case of a word's character, and any other as it is. */
  predicate IsCaseOf(k: Casing, c: char, piece: string) {
    if IsWordChar(k, c) then piece == k.up(c) || piece == k.down(c) else piece == [c]
  }

  /** One text is the other, character by character, up to the case of its words. */
  predicate DiffersInCase(k: Casing, a: string, b: string) {
    if a == "" then b == ""
    else exists n :: 0 <= n <= |b| && IsCaseOf(k, a[0], b[..n]) && DiffersInCase(k, a[1..], b[n..])
  }

  lemma DiffersInCaseCons(k: Casing, c: char, a: string, piece: string, b: string)
    requires IsCaseOf(k, c, piece) && DiffersInCase(k, a, b)
    ensures DiffersInCase(k, [c] + a, piece + b)
  {
    assert ([c] + a)[1..] == a && (piece + b)[..|piece|] == piece && (piece + b)[|piece|..] == b;
  }

  lemma {:induction false} DiffersInCaseConcat(k: Casing, a: string, b: string, c: string, d: string)
    requires DiffersInCase(k, a, b) && DiffersInCase(k, c, d)
    ensures DiffersInCase(k, a + c, b + d)
  {
    hide IsCaseOf;
    if a == "" {
      assert a + c == c && b + d == d;
    } else {
      var n :| 0 <= n <= |b| && IsCaseOf(k, a[0], b[..n]) && DiffersInCase(k, a[1..], b[n..]);
      DiffersInCaseConcat(k, a[1..], b[n..], c, d);
      DiffersInCaseCons(k, a[0], a[1..] + c, b[..n], b[n..] + d);
      assert [a[0]] + (a[1..] + c) == a + c && b[..n] + (b[n..] + d) == b + d;
    }
  }

  lemma {:induction false} MappedDiffersInCase(k: Casing, f: char -> string, w: string)
    requires IsWord(k, w) && (f == k.up || f == k.down)
    ensures DiffersInCase(k, w, MapAll(f, w))
  {
    hide DiffersInCase;
    if w == "" {
      NothingDiffers(k);
    } else {
      MappedDiffersInCase(k, f, w[1..]);
      DiffersInCaseCons(k, w[0], w[1..], f(w[0]), MapAll(f, w[1..]));
      assert [w[0]] + w[1..] == w;
    }
  }

  lemma NothingDiffers(k: Casing)
    ensures DiffersInCase(k, "", "")
  {
  }

  lemma {:induction false} TailDiffersInCase(k: Casing, w: string, capital: bool)
    requires IsWord(k, w)
    ensures DiffersInCase(k, w, Tail(k, w, capital))
    decreases |w|
  {
    hide DiffersInCase;
    if w == "" {
      NothingDiffers(k);
    } else {
      TailDiffersInCase(k, w[1..], w[0] == '\'');
      DiffersInCaseCons(k, w[0], w[1..], if capital then k.up(w[0]) else k.down(w[0]),
                        Tail(k, w[1..], w[0] == '\''));
      assert [w[0]] + w[1..] == w;
    }
  }

  lemma WordDiffersInCase(k: Casing, w: string, first: bool)
    requires IsWord(k, w) && w != ""
    ensures DiffersInCase(k, w, CaseWord(k, w, first))
  {
    hide DiffersInCase;
    MappedDiffersInCase(k, k.up, w);
    MappedDiffersInCase(k, k.down, w);
    TailDiffersInCase(k, w[1..], false);
    DiffersInCaseCons(k, w[0], w[1..], k.up(w[0]), Tail(k, w[1..], false));
    assert [w[0]] + w[1..] == w;
  }

  /** Titling never adds, drops or moves a character: it changes the case of letters in words and nothing else. True of
      any case mapping whatever. */
  lemma {:induction false} TitlingChangesOnlyCase(k: Casing, s: string, first: bool)
    ensures DiffersInCase(k, s, Titled(k, s, first))
    decreases |s|
  {
    hide DiffersInCase, CaseWord, IsWordChar;
    if s == "" {
      NothingDiffers(k);
    } else {
      Apart(k, s);
      var n := WordLength(k, s);
      if n == 0 {
        TitlingChangesOnlyCase(k, s[1..], first);
        OtherIsItself(k, s[0]);
        DiffersInCaseCons(k, s[0], s[1..], [s[0]], Titled(k, s[1..], first));
      } else {
        TitlingChangesOnlyCase(k, s[n..], false);
        WordDiffersInCase(k, s[..n], first);
        DiffersInCaseConcat(k, s[..n], CaseWord(k, s[..n], first), s[n..], Titled(k, s[n..], false));
      }
    }
  }

  lemma OtherIsItself(k: Casing, c: char)
    requires !IsWordChar(k, c)
    ensures IsCaseOf(k, c, [c])
  {
  }
}
