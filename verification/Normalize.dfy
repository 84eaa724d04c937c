/** Scraped text brought to one form: the one-pass scrubber and its line-keeping variant (cmd/src/normalize.rs). */
module Normalize {
  import opened Text

  /** Characters that render as nothing or as damage: dropped outright. White space is never one of these. */
  predicate IsInvisible(c: char) {
    && !IsWhitespace(c)
    && (|| c == '\U{00AD}' || '\U{200B}' <= c <= '\U{200F}' || '\U{202A}' <= c <= '\U{202E}'
        || '\U{2060}' <= c <= '\U{2064}' || c == '\U{FEFF}' || c == '\U{FFFD}'
        || c < ' ' || '\U{007F}' <= c < '\U{00A0}')
  }

  /** Typographic punctuation as ASCII. */
  function FoldChar(c: char): string {
    if c in {'\U{2018}', '\U{2019}', '\U{201A}', '\U{201B}', '\U{2032}'} then "'"
    else if c in {'\U{201C}', '\U{201D}', '\U{201E}', '\U{201F}', '\U{2033}'} then "\""
    else if '\U{2010}' <= c <= '\U{2015}' || c in {'\U{2212}', '\U{FE58}', '\U{FE63}', '\U{FF0D}'} then "-"
    else if c == '\U{2026}' then "..."
    else if c == '\U{2022}' then "-"
    else [c]
  }

  function Folded(c: char, fold: bool): string {
    if fold then FoldChar(c) else [c]
  }

  // ----- The simple meaning, a stage at a time -----

  function Visible(s: string): string {
    if s == [] then []
    else
      var c := s[|s| - 1];
      Visible(s[..|s| - 1]) + if IsInvisible(c) then [] else [c]
  }

  function FoldAll(s: string, fold: bool): string {
    if s == [] then [] else FoldAll(s[..|s| - 1], fold) + Folded(s[|s| - 1], fold)
  }

  predicate EndsInWord(s: string) {
    s != [] && !IsWhitespace(s[|s| - 1])
  }

  /** The runs of characters between white space. */
  function Words(s: string): (words: seq<string>)
    ensures EndsInWord(s) ==> words != []
  {
    if s == [] then []
    else
      var front, c := s[..|s| - 1], s[|s| - 1];
      if IsWhitespace(c) then Words(front)
      else if EndsInWord(front) then
        var words := Words(front);
        words[|words| - 1 := words[|words| - 1] + [c]]
      else Words(front) + [[c]]
  }

  function JoinWords(words: seq<string>): string {
    if words == [] then []
    else if |words| == 1 then words[0]
    else JoinWords(words[..|words| - 1]) + " " + words[|words| - 1]
  }

  /** Drop the invisible, fold the punctuation, and put single spaces between what is left. */
  function Scrubbed(s: string, fold: bool): string {
    JoinWords(Words(FoldAll(Visible(s), fold)))
  }

  // ----- The one-pass scrubber -----

  /** The text is composed first; composition is the library's, any function here. */
  method Scrub(nfc: string -> string, text: string, fold: bool) returns (out: string)
    ensures out == Scrubbed(nfc(text), fold)
  {
    var s := nfc(text);
    hide IsWhitespace, IsInvisible, Folded, Words, JoinWords, Visible, FoldAll, Pending;
    out := "";
    var atSpace := false;
    ghost var seen := "";
    NothingYet(s, fold);
    for i := 0 to |s|
      invariant seen == FoldAll(Visible(s[..i]), fold)
      invariant out == Pending(seen)
      invariant atSpace <==> out != [] && out[|out| - 1] == ' '
    {
      var c := s[i];
      SeenStep(s, i, fold);
      if IsWhitespace(c) {
        PendingSpace(seen, c);
        if out != [] && !atSpace {
          out := out + " ";
          atSpace := true;
        }
        seen := seen + [c];
        continue;
      }
      if IsInvisible(c) {
        continue;
      }
      FoldedIsText(c, fold);
      PendingText(seen, Folded(c, fold));
      out := out + Folded(c, fold);
      seen := seen + Folded(c, fold);
      atSpace := false;
    }
    assert s[..|s|] == s;
    PendingIsJoined(seen);
    if out != [] && out[|out| - 1] == ' ' {
      out := out[..|out| - 1];
    }
  }

  lemma NothingYet(s: string, fold: bool)
    ensures Visible(s[..0]) == "" && FoldAll("", fold) == "" && Pending("") == ""
  {
  }

  /** What one more character adds to the folded text. */
  lemma SeenStep(s: string, i: nat, fold: bool)
    requires i < |s|
    ensures var seen := FoldAll(Visible(s[..i]), fold);
            FoldAll(Visible(s[..i + 1]), fold) ==
            if IsWhitespace(s[i]) then seen + [s[i]] else if IsInvisible(s[i]) then seen else seen + Folded(s[i], fold)
  {
    hide IsWhitespace, IsInvisible, Folded;
    VisibleStep(s, i);
    FoldAllStep(Visible(s[..i]), s[i], fold);
    if IsWhitespace(s[i]) {
      WhitespaceIsKept(s[i], fold);
    }
    assert Visible(s[..i]) + [] == Visible(s[..i]);
  }

  lemma WhitespaceIsKept(c: char, fold: bool)
    requires IsWhitespace(c)
    ensures !IsInvisible(c) && Folded(c, fold) == [c]
  {
  }

  /** The words so far, with one space held at the end when white space follows them. */
  function Pending(s: string): string {
    JoinWords(Words(s)) + if s != [] && !EndsInWord(s) && Words(s) != [] then " " else ""
  }

  predicate IsText(s: string) {
    forall c <- s :: !IsWhitespace(c)
  }

  predicate AreWords(words: seq<string>) {
    forall i :: 0 <= i < |words| ==> words[i] != [] && IsText(words[i])
  }

  lemma {:induction false} WordsAreWords(s: string)
    ensures AreWords(Words(s))
  {
    if s != [] {
      WordsAreWords(s[..|s| - 1]);
    }
  }

  lemma JoinEndsInText(words: seq<string>)
    requires AreWords(words) && words != []
    ensures JoinWords(words) != [] && !IsWhitespace(JoinWords(words)[|JoinWords(words)| - 1])
  {
    var last := words[|words| - 1];
    assert last[|last| - 1] in last;
  }

  lemma PendingIsJoined(s: string)
    ensures var p := Pending(s);
            JoinWords(Words(s)) == if p != [] && p[|p| - 1] == ' ' then p[..|p| - 1] else p
  {
    WordsAreWords(s);
    if Words(s) != [] {
      JoinEndsInText(Words(s));
    }
  }

  lemma PendingSpace(s: string, c: char)
    requires IsWhitespace(c)
    ensures var p := Pending(s);
            Pending(s + [c]) == if p != [] && p[|p| - 1] != ' ' then p + " " else p
  {
    assert (s + [c])[..|s|] == s;
    WordsAreWords(s);
    if Words(s) != [] {
      JoinEndsInText(Words(s));
    }
  }

  lemma FoldedIsText(c: char, fold: bool)
    requires !IsWhitespace(c)
    ensures Folded(c, fold) != [] && IsText(Folded(c, fold))
    ensures Folded(c, fold)[|Folded(c, fold)| - 1] != ' '
  {
  }

  lemma {:induction false} PendingText(s: string, t: string)
    requires t != [] && IsText(t)
    ensures Pending(s + t) == Pending(s) + t
    decreases |t|
  {
    var front, c := t[..|t| - 1], t[|t| - 1];
    assert c in t;
    assert s + t == s + front + [c];
    if front == [] {
      assert s + front == s;
      PendingChar(s, c);
    } else {
      assert forall x <- front :: x in t;
      PendingText(s, front);
      PendingChar(s + front, c);
      assert t == front + [c];
    }
  }

  lemma PendingChar(s: string, c: char)
    requires !IsWhitespace(c)
    ensures Pending(s + [c]) == Pending(s) + [c]
  {
    var words := Words(s);
    assert (s + [c])[..|s|] == s;
    if EndsInWord(s) {
      var n := |words| - 1;
      assert words[n := words[n] + [c]][..n] == words[..n];
    } else {
      assert (words + [[c]])[..|words|] == words;
    }
  }

  lemma VisibleStep(s: string, i: nat)
    requires i < |s|
    ensures Visible(s[..i + 1]) == Visible(s[..i]) + if IsInvisible(s[i]) then [] else [s[i]]
  {
    assert s[..i + 1][..i] == s[..i];
  }

  lemma FoldAllStep(s: string, c: char, fold: bool)
    ensures FoldAll(s + [c], fold) == FoldAll(s, fold) + Folded(c, fold)
  {
    assert (s + [c])[..|s|] == s;
  }

  // ----- The normal form -----

  predicate IsPlain(s: string, fold: bool) {
    forall c <- s :: !IsInvisible(c) && Folded(c, fold) == [c]
  }

  lemma {:induction false} PlainIsUntouched(s: string, fold: bool)
    requires IsPlain(s, fold)
    ensures Visible(s) == s && FoldAll(s, fold) == s
  {
    hide IsInvisible, Folded;
    if s != [] {
      var front, c := s[..|s| - 1], s[|s| - 1];
      assert c in s;
      assert IsPlain(front, fold) by {
        assert forall x <- front :: x in s;
      }
      PlainIsUntouched(front, fold);
      assert s == front + [c];
      assert Visible(s) == front + [c];
    }
  }

  lemma {:induction false} VisibleIsVisible(s: string)
    ensures forall c <- Visible(s) :: !IsInvisible(c)
  {
    hide IsInvisible;
    if s != [] {
      VisibleIsVisible(s[..|s| - 1]);
    }
  }

  lemma FoldedIsPlain(c: char, fold: bool)
    requires !IsInvisible(c)
    ensures IsPlain(Folded(c, fold), fold)
  {
  }

  lemma {:induction false} FoldAllIsPlain(s: string, fold: bool)
    requires forall c <- s :: !IsInvisible(c)
    ensures IsPlain(FoldAll(s, fold), fold)
  {
    hide IsInvisible, Folded;
    if s != [] {
      var front, c := s[..|s| - 1], s[|s| - 1];
      assert c in s && forall x <- front :: x in s;
      FoldAllIsPlain(front, fold);
      FoldedIsPlain(c, fold);
    }
  }

  predicate ArePlain(words: seq<string>, fold: bool) {
    forall i :: 0 <= i < |words| ==> IsPlain(words[i], fold)
  }

  lemma {:induction false} WordsArePlain(s: string, fold: bool)
    requires IsPlain(s, fold)
    ensures ArePlain(Words(s), fold)
  {
    hide IsInvisible, Folded, IsWhitespace;
    if s != [] {
      var front, c := s[..|s| - 1], s[|s| - 1];
      assert c in s && forall x <- front :: x in s;
      WordsArePlain(front, fold);
    }
  }

  lemma {:induction false} JoinIsPlain(words: seq<string>, fold: bool)
    requires ArePlain(words, fold)
    ensures IsPlain(JoinWords(words), fold)
  {
    SpaceIsPlain(fold);
    hide IsInvisible, Folded;
    if |words| > 1 {
      JoinIsPlain(words[..|words| - 1], fold);
      assert forall c <- JoinWords(words) ::
          c in JoinWords(words[..|words| - 1]) || c == ' ' || c in words[|words| - 1];
    }
  }

  lemma SpaceIsPlain(fold: bool)
    ensures !IsInvisible(' ') && Folded(' ', fold) == " " && IsWhitespace(' ')
  {
  }

  /** More text: onto the word in progress, or as a word of its own. */
  function Extended(words: seq<string>, inWord: bool, t: string): seq<string> {
    if inWord && words != [] then words[|words| - 1 := words[|words| - 1] + t] else words + [t]
  }

  lemma WordsOfChar(s: string, c: char)
    requires !IsWhitespace(c)
    ensures Words(s + [c]) == Extended(Words(s), EndsInWord(s), [c]) && EndsInWord(s + [c])
  {
    assert (s + [c])[..|s|] == s;
  }

  lemma ExtendedTwice(words: seq<string>, inWord: bool, t: string, u: string)
    ensures Extended(Extended(words, inWord, t), true, u) == Extended(words, inWord, t + u)
  {
    var once := Extended(words, inWord, t);
    var n := |once| - 1;
    assert once[n] + u == Extended(words, inWord, t + u)[n];
  }

  lemma {:induction false} WordsOfText(s: string, t: string)
    requires t != [] && IsText(t)
    ensures Words(s + t) == Extended(Words(s), EndsInWord(s), t)
    ensures EndsInWord(s + t)
    decreases |t|
  {
    hide IsWhitespace, Words, EndsInWord, Extended;
    var front, c := t[..|t| - 1], t[|t| - 1];
    assert c in t;
    assert s + t == s + front + [c];
    assert t == front + [c];
    if front == [] {
      assert s + front == s && t == [c];
      WordsOfChar(s, c);
    } else {
      assert forall x <- front :: x in t;
      WordsOfText(s, front);
      WordsOfChar(s + front, c);
      ExtendedTwice(Words(s), EndsInWord(s), front, [c]);
    }
  }

  lemma WordsOfSpace(s: string)
    ensures Words(s + " ") == Words(s) && !EndsInWord(s + " ")
  {
    assert (s + " ")[..|s|] == s;
  }

  lemma OneWord(t: string)
    requires t != [] && IsText(t)
    ensures Words(t) == [t]
  {
    WordsOfText("", t);
    assert "" + t == t;
  }

  lemma JoinStep(words: seq<string>)
    requires words != []
    ensures JoinWords(words) ==
            if |words| == 1 then words[0] else JoinWords(words[..|words| - 1]) + " " + words[|words| - 1]
  {
  }

  /** Splitting what was joined gives the words back. */
  lemma {:induction false} WordsOfJoin(words: seq<string>)
    requires AreWords(words)
    ensures Words(JoinWords(words)) == words
  {
    if words != [] {
      hide IsText, Words, EndsInWord, JoinWords;
      var n := |words| - 1;
      var front, last := words[..n], words[n];
      JoinStep(words);
      if n == 0 {
        OneWord(last);
      } else {
        WordsOfJoin(front);
        WordsOfSpace(JoinWords(front));
        WordsOfText(JoinWords(front) + " ", last);
        assert front + [last] == words;
      }
    }
  }

  /** Scrubbed text is words of plain characters, one space apart, and scrubbing it again changes nothing. */
  lemma ScrubIsIdempotent(s: string, fold: bool)
    ensures IsPlain(Scrubbed(s, fold), fold)
    ensures Scrubbed(Scrubbed(s, fold), fold) == Scrubbed(s, fold)
  {
    var text := FoldAll(Visible(s), fold);
    VisibleIsVisible(s);
    FoldAllIsPlain(Visible(s), fold);
    WordsArePlain(text, fold);
    WordsAreWords(text);
    JoinIsPlain(Words(text), fold);
    PlainIsUntouched(JoinWords(Words(text)), fold);
    WordsOfJoin(Words(text));
  }

  // ----- The two scrubbers together -----

  function FoldWords(words: seq<string>): (folded: seq<string>)
    ensures |folded| == |words|
    ensures forall i :: 0 <= i < |words| ==> folded[i] == FoldAll(words[i], true)
  {
    seq(|words|, i requires 0 <= i < |words| => FoldAll(words[i], true))
  }

  lemma {:induction false} FoldAllConcat(a: string, b: string)
    ensures FoldAll(a + b, true) == FoldAll(a, true) + FoldAll(b, true)
    decreases |b|
  {
    hide Folded;
    if b == [] {
      assert a + b == a;
    } else {
      assert (a + b)[..|a + b| - 1] == a + b[..|b| - 1];
      FoldAllConcat(a, b[..|b| - 1]);
    }
  }

  lemma FoldedEnds(s: string, c: char)
    ensures EndsInWord(FoldAll(s + [c], true)) == !IsWhitespace(c)
  {
    FoldAllStep(s, c, true);
    if IsWhitespace(c) {
      WhitespaceIsKept(c, true);
    } else {
      FoldedIsText(c, true);
      var t := Folded(c, true);
      assert t[|t| - 1] in t;
    }
  }

  lemma FoldOne(c: char)
    ensures FoldAll([c], true) == Folded(c, true)
  {
    assert [c][..0] == "";
  }

  lemma FoldWordsExtended(words: seq<string>, inWord: bool, c: char)
    ensures FoldWords(Extended(words, inWord, [c])) == Extended(FoldWords(words), inWord, Folded(c, true))
  {
    hide Folded;
    FoldOne(c);
    if inWord && words != [] {
      FoldAllStep(words[|words| - 1], c, true);
    }
  }

  lemma FoldedEndsInWord(s: string)
    ensures EndsInWord(FoldAll(s, true)) == EndsInWord(s)
  {
    hide IsWhitespace, Folded;
    if s != [] {
      assert s == s[..|s| - 1] + [s[|s| - 1]];
      FoldedEnds(s[..|s| - 1], s[|s| - 1]);
    }
  }

  lemma WordsOfBlank(s: string, c: char)
    requires IsWhitespace(c)
    ensures Words(s + [c]) == Words(s)
  {
    assert (s + [c])[..|s|] == s;
  }

  /** Folding punctuation never moves a word boundary. */
  lemma {:induction false} FoldingKeepsWords(s: string)
    ensures Words(FoldAll(s, true)) == FoldWords(Words(s))
  {
    if s != [] {
      hide IsWhitespace, Folded, Words, FoldAll, EndsInWord, Extended, IsText;
      var front, c := s[..|s| - 1], s[|s| - 1];
      FoldingKeepsWords(front);
      assert s == front + [c];
      FoldAllStep(front, c, true);
      if IsWhitespace(c) {
        WhitespaceIsKept(c, true);
        WordsOfBlank(FoldAll(front, true), c);
        WordsOfBlank(front, c);
      } else {
        FoldedIsText(c, true);
        WordsOfText(FoldAll(front, true), Folded(c, true));
        WordsOfChar(front, c);
        FoldedEndsInWord(front);
        FoldWordsExtended(Words(front), EndsInWord(front), c);
      }
    } else {
      assert Words(FoldAll("", true)) == [] && FoldWords(Words("")) == [];
    }
  }

  /** Cleansing a cleansed key is cleansing the original: the two scrubbers never disagree about a row. */
  lemma CleanseAfterKey(s: string)
    ensures Scrubbed(Scrubbed(s, false), true) == Scrubbed(s, true)
  {
    var v := Visible(s);
    VisibleIsVisible(s);
    NoFolding(v);
    var key := JoinWords(Words(v));
    WordsAreWords(v);
    WordsArePlain(v, false);
    JoinIsPlain(Words(v), false);
    PlainIsUntouched(key, false);
    FoldingKeepsWords(key);
    WordsOfJoin(Words(v));
    FoldingKeepsWords(v);
  }

  lemma {:induction false} NoFolding(s: string)
    requires forall c <- s :: !IsInvisible(c)
    ensures FoldAll(s, false) == s && IsPlain(s, false)
  {
    hide IsInvisible;
    if s != [] {
      var front, c := s[..|s| - 1], s[|s| - 1];
      assert c in s && forall x <- front :: x in s;
      NoFolding(front);
      assert s == front + [c];
    }
  }

  /** Scrubbed text has no space at either end. */
  lemma ScrubbedIsTrimmed(s: string, fold: bool)
    ensures IsTrimmed(Scrubbed(s, fold))
  {
    var words := Words(FoldAll(Visible(s), fold));
    WordsAreWords(FoldAll(Visible(s), fold));
    if words != [] {
      JoinEndsInText(words);
      JoinStartsInText(words);
    }
  }

  lemma {:induction false} JoinStartsInText(words: seq<string>)
    requires AreWords(words) && words != []
    ensures JoinWords(words) != [] && !IsWhitespace(JoinWords(words)[0])
  {
    if |words| == 1 {
      assert words[0][0] in words[0];
    } else {
      JoinStartsInText(words[..|words| - 1]);
    }
  }
}
