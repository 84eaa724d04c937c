/** What scrubbing does to each character of a text, wherever it stands (cmd/src/normalize.rs). */
module NormalizeLaws {
  import opened Text
  import opened Normalize

  // ----- The characters -----

  /** Soft hyphens, zero-width and bidirectional marks, joiners, the byte order mark, what was decoded wrong, and
      control characters that are no white space. */
  predicate RendersAsNothing(c: char) {
    if IsWhitespace(c) then false
    else if c <= '\U{00FF}' then c <= '\U{001F}' || '\U{007F}' <= c <= '\U{009F}' || c == '\U{00AD}'
    else
      || c in {'\U{200B}', '\U{200C}', '\U{200D}', '\U{200E}', '\U{200F}'}
      || c in {'\U{202A}', '\U{202B}', '\U{202C}', '\U{202D}', '\U{202E}'}
      || c in {'\U{2060}', '\U{2061}', '\U{2062}', '\U{2063}', '\U{2064}'}
      || c in {'\U{FEFF}', '\U{FFFD}'}
  }

  /** The ASCII spelling of typographic quotes, dashes, dots and bullets; nothing for any other character. */
  function Ascii(c: char): string {
    if c in {'\U{2018}', '\U{2019}', '\U{201A}', '\U{201B}', '\U{2032}'} then "'"
    else if c in {'\U{201C}', '\U{201D}', '\U{201E}', '\U{201F}', '\U{2033}'} then "\""
    else if c in {'\U{2010}', '\U{2011}', '\U{2012}', '\U{2013}', '\U{2014}', '\U{2015}'} then "-"
    else if c in {'\U{2212}', '\U{FE58}', '\U{FE63}', '\U{FF0D}', '\U{2022}'} then "-"
    else if c == '\U{2026}' then "..."
    else ""
  }

  lemma InvisibleMeans(c: char)
    ensures IsInvisible(c) <==> RendersAsNothing(c)
  {
  }

  lemma FoldingMeans(c: char, fold: bool)
    ensures Folded(c, fold) == if fold && Ascii(c) != "" then Ascii(c) else [c]
    ensures Ascii(c) != "" ==> !IsInvisible(c)
  {
  }

  // ----- Stage by stage -----

  lemma {:induction false} VisibleConcat(a: string, b: string)
    ensures Visible(a + b) == Visible(a) + Visible(b)
  {
    hide IsInvisible;
    if b == "" {
      assert a + b == a;
    } else {
      var front := b[..|b| - 1];
      assert (a + b)[..|a + b| - 1] == a + front;
      VisibleConcat(a, front);
    }
  }

  lemma {:induction false} FoldConcat(a: string, b: string, fold: bool)
    ensures FoldAll(a + b, fold) == FoldAll(a, fold) + FoldAll(b, fold)
  {
    hide Folded;
    if b == "" {
      assert a + b == a;
    } else {
      var front := b[..|b| - 1];
      assert (a + b)[..|a + b| - 1] == a + front;
      FoldConcat(a, front, fold);
    }
  }

  /** What the stages make of a text from what they make of its parts. */
  lemma SeenConcat(before: string, middle: string, after: string, fold: bool)
    ensures FoldAll(Visible(before + middle + after), fold)
         == FoldAll(Visible(before), fold) + FoldAll(Visible(middle), fold) + FoldAll(Visible(after), fold)
  {
    hide Visible, FoldAll;
    VisibleConcat(before + middle, after);
    VisibleConcat(before, middle);
    FoldConcat(Visible(before) + Visible(middle), Visible(after), fold);
    FoldConcat(Visible(before), Visible(middle), fold);
  }

  lemma OneSeen(c: char, fold: bool)
    ensures FoldAll(Visible([c]), fold) == if IsInvisible(c) then "" else Folded(c, fold)
  {
    hide IsInvisible, Folded;
    assert [c][..0] == "";
    assert Visible([c]) == if IsInvisible(c) then "" else [c];
  }

  lemma {:induction false} SpaceBetween(a: string, gap: string, b: string)
    requires gap != "" && forall c <- gap :: IsWhitespace(c)
    ensures Words(a + gap + b) == Words(a + " " + b)
    ensures EndsInWord(a + gap + b) <==> EndsInWord(a + " " + b)
    decreases |b|
  {
    hide IsWhitespace;
    var s, t := a + gap + b, a + " " + b;
    if b == "" {
      assert s == a + gap && t == a + " ";
      BlankEnds(a, gap);
      SpaceIsBlank();
      BlankEnds(a, " ");
    } else {
      var front := b[..|b| - 1];
      SpaceBetween(a, gap, front);
      assert s[..|s| - 1] == a + gap + front && t[..|t| - 1] == a + " " + front;
      assert s[|s| - 1] == b[|b| - 1] == t[|t| - 1];
    }
  }

  lemma SpaceIsBlank()
    ensures IsWhitespace(' ')
  {
  }

  lemma {:induction false} BlankEnds(a: string, gap: string)
    requires forall c <- gap :: IsWhitespace(c)
    ensures Words(a + gap) == Words(a) && (gap != "" ==> !EndsInWord(a + gap))
    decreases |gap|
  {
    hide IsWhitespace;
    if gap == "" {
      assert a + gap == a;
    } else {
      var front := gap[..|gap| - 1];
      assert gap[|gap| - 1] in gap && forall c <- front :: c in gap;
      BlankEnds(a, front);
      assert (a + gap)[..|a + gap| - 1] == a + front;
    }
  }

  // ----- What scrubbing does to a character, wherever it stands -----

  /** A character that renders as nothing is as if it were not there. */
  lemma InvisibleIsNothing(before: string, c: char, after: string, fold: bool)
    requires RendersAsNothing(c)
    ensures Scrubbed(before + [c] + after, fold) == Scrubbed(before + after, fold)
  {
    InvisibleMeans(c);
    hide Visible, FoldAll, Words, IsInvisible;
    OneSeen(c, fold);
    SeenConcat(before, [c], after, fold);
    SeenConcat(before, "", after, fold);
    assert before + "" + after == before + after;
    NothingSeen(fold);
  }

  lemma NothingSeen(fold: bool)
    ensures FoldAll(Visible(""), fold) == ""
  {
  }

  /** Typographic punctuation is as if it were spelled in ASCII, where it is folded. */
  lemma PunctuationIsAscii(before: string, c: char, after: string)
    requires Ascii(c) != ""
    ensures Scrubbed(before + [c] + after, true) == Scrubbed(before + Ascii(c) + after, true)
  {
    FoldingMeans(c, true);
    AsciiIsItself(c);
    hide Visible, FoldAll, Words, IsInvisible, Folded, Ascii;
    OneSeen(c, true);
    SeenConcat(before, [c], after, true);
    SeenConcat(before, Ascii(c), after, true);
  }

  lemma AsciiIsItself(c: char)
    ensures FoldAll(Visible(Ascii(c)), true) == Ascii(c)
  {
    assert IsPlain(Ascii(c), true);
    hide IsPlain, Ascii, FoldAll, Visible;
    PlainIsUntouched(Ascii(c), true);
  }

  /** Any run of white space is as if it were one space. */
  lemma WhitespaceIsOneSpace(before: string, gap: string, after: string, fold: bool)
    requires gap != "" && forall c <- gap :: IsWhitespace(c)
    ensures Scrubbed(before + gap + after, fold) == Scrubbed(before + " " + after, fold)
  {
    hide Visible, FoldAll, Words, IsWhitespace;
    BlankIsSeen(gap, fold);
    SpaceIsBlank();
    BlankIsSeen(" ", fold);
    SeenConcat(before, gap, after, fold);
    SeenConcat(before, " ", after, fold);
    SpaceBetween(FoldAll(Visible(before), fold), gap, FoldAll(Visible(after), fold));
  }

  lemma {:induction false} BlankIsSeen(gap: string, fold: bool)
    requires forall c <- gap :: IsWhitespace(c)
    ensures FoldAll(Visible(gap), fold) == gap
  {
    hide IsWhitespace, FoldAll, Visible;
    forall c | c in gap
      ensures !IsInvisible(c) && Folded(c, fold) == [c]
    {
      WhitespaceIsKept(c, fold);
    }
    PlainIsUntouched(gap, fold);
  }

  // ----- And to nothing else -----

  /** Words of characters that are none of these. */
  predicate AreOrdinary(words: seq<string>, fold: bool) {
    forall w <- words :: w != "" && forall c <- w ::
      !IsWhitespace(c) && !RendersAsNothing(c) && (fold ==> Ascii(c) == "")
  }

  /** The words with single spaces between them. */
  function Spaced(words: seq<string>): string {
    if words == [] then "" else if |words| == 1 then words[0] else words[0] + " " + Spaced(words[1..])
  }

  lemma {:induction false} JoinIsSpaced(words: seq<string>)
    ensures JoinWords(words) == Spaced(words)
    decreases |words|
  {
    if |words| > 1 {
      var n := |words| - 1;
      JoinIsSpaced(words[..n]);
      SpacedMore(words[..n], words[n]);
      assert words == words[..n] + [words[n]];
    }
  }

  lemma {:induction false} SpacedMore(words: seq<string>, w: string)
    requires words != []
    ensures Spaced(words + [w]) == Spaced(words) + " " + w
    decreases |words|
  {
    if |words| == 1 {
      assert (words + [w])[1..] == [w];
    } else {
      assert (words + [w])[1..] == words[1..] + [w];
      SpacedMore(words[1..], w);
    }
  }

  lemma OrdinaryIsPlain(words: seq<string>, fold: bool)
    requires AreOrdinary(words, fold)
    ensures ArePlain(words, fold) && AreWords(words)
  {
    forall w, c | w in words && c in w
      ensures !IsInvisible(c) && Folded(c, fold) == [c]
    {
      InvisibleMeans(c);
      FoldingMeans(c, fold);
    }
    hide IsWhitespace, RendersAsNothing, Ascii, IsInvisible, Folded;
    assert forall i :: 0 <= i < |words| ==> words[i] in words;
  }

  /** Text of ordinary words - letters of any alphabet, accents and all, digits, plain punctuation - is left as
      it is. */
  lemma OrdinaryTextStays(words: seq<string>, fold: bool)
    requires AreOrdinary(words, fold)
    ensures Scrubbed(Spaced(words), fold) == Spaced(words)
  {
    hide AreOrdinary, IsPlain, ArePlain, AreWords, Visible, FoldAll, Words;
    OrdinaryIsPlain(words, fold);
    JoinIsSpaced(words);
    JoinIsPlain(words, fold);
    PlainIsUntouched(JoinWords(words), fold);
    WordsOfJoin(words);
  }
}
