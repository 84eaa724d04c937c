/** Titling said of a text as its words stand in it: which words stay in capitals, which become small, and where the
    capitals of the others are (cmd/src/normalize.rs). */
module TitleWords {
  import opened TitleCase

  // ----- One word, letter by letter -----

  /** A capital stands first, and behind an apostrophe that is not itself first. */
  predicate CapitalAt(w: string, i: int)
    requires 0 <= i < |w|
  {
    i == 0 || (i >= 2 && w[i - 1] == '\'')
  }

  function Letters(w: string, cased: (int, char) -> string, from: nat): string
    requires from <= |w|
    decreases |w| - from
  {
    if from == |w| then "" else cased(from, w[from]) + Letters(w, cased, from + 1)
  }

  function Upper(k: Casing, w: string): string {
    Letters(w, (_, c) => k.up(c), 0)
  }

  function Small(k: Casing, w: string): string {
    Letters(w, (_, c) => k.down(c), 0)
  }

  function Proper(k: Casing, w: string): string {
    Letters(w, (i, c) => if 0 <= i < |w| && CapitalAt(w, i) then k.up(c) else k.down(c), 0)
  }

  lemma {:induction false} MapAllIsLetters(f: char -> string, w: string, from: nat)
    requires from <= |w|
    ensures MapAll(f, w[from..]) == Letters(w, (_, c) => f(c), from)
    decreases |w| - from
  {
    if from < |w| {
      assert w[from..][1..] == w[from + 1..];
      MapAllIsLetters(f, w, from + 1);
    }
  }

  lemma {:induction false} TailIsLetters(k: Casing, w: string, from: nat)
    requires 1 <= from <= |w|
    ensures Tail(k, w[from..], from >= 2 && w[from - 1] == '\'')
         == Letters(w, (i, c) => if 0 <= i < |w| && CapitalAt(w, i) then k.up(c) else k.down(c), from)
    decreases |w| - from
  {
    if from < |w| {
      assert w[from..][1..] == w[from + 1..];
      TailIsLetters(k, w, from + 1);
    }
  }

  lemma CapitalizedIsProper(k: Casing, w: string)
    ensures Capitalized(k, w) == Proper(k, w)
  {
    if w != "" {
      TailIsLetters(k, w, 1);
    }
  }

  /** A word on the list of capitals stays in capitals; a particle behind the first word is small; any other is small
      but for its capitals. */
  lemma WordsAreCased(k: Casing, w: string, first: bool)
    ensures CaseWord(k, w, first) ==
            if Upper(k, w) in k.capitals then Upper(k, w)
            else if !first && Upper(k, w) in k.particles then Small(k, w)
            else Proper(k, w)
  {
    MapAllIsLetters(k.up, w, 0);
    MapAllIsLetters(k.down, w, 0);
    assert w[0..] == w;
    CapitalizedIsProper(k, w);
  }

  // ----- A sentence -----

  /** A word and what stands behind it, up to the next. */
  datatype Piece = Piece(word: string, gap: string)

  predicate IsGap(k: Casing, gap: string) {
    forall i :: 0 <= i < |gap| ==> !IsWordChar(k, gap[i])
  }

  /** Words with something between each two. */
  predicate IsSentence(k: Casing, pieces: seq<Piece>) {
    && (forall p <- pieces :: p.word != "" && IsWord(k, p.word) && IsGap(k, p.gap))
    && forall i :: 0 <= i < |pieces| - 1 ==> pieces[i].gap != ""
  }

  function Text(pieces: seq<Piece>): string {
    if pieces == [] then "" else pieces[0].word + pieces[0].gap + Text(pieces[1..])
  }

  /** The same with each word cased, only the first as a first word, and the gaps as they are. */
  function Cased(k: Casing, pieces: seq<Piece>, first: bool): string {
    if pieces == [] then ""
    else CaseWord(k, pieces[0].word, first) + pieces[0].gap + Cased(k, pieces[1..], false)
  }

  lemma {:induction false} GapIsKept(k: Casing, gap: string, rest: string, first: bool)
    requires IsGap(k, gap)
    ensures Titled(k, gap + rest, first) == gap + Titled(k, rest, first)
    decreases |gap|
  {
    hide CaseWord, IsWordChar, Titled;
    if gap == "" {
      assert gap + rest == rest;
    } else {
      assert gap + rest == [gap[0]] + (gap[1..] + rest);
      TitledOther(k, gap[0], gap[1..] + rest, first);
      GapIsKept(k, gap[1..], rest, first);
      assert [gap[0]] + (gap[1..] + Titled(k, rest, first)) == gap + Titled(k, rest, first);
    }
  }

  lemma WordThenGap(k: Casing, p: Piece, rest: string, first: bool)
    requires p.word != "" && IsWord(k, p.word) && IsGap(k, p.gap) && (rest == "" || p.gap != "")
    ensures Titled(k, p.word + p.gap + rest, first) == CaseWord(k, p.word, first) + p.gap + Titled(k, rest, false)
  {
    hide CaseWord, IsWordChar, Titled;
    assert p.word + p.gap + rest == p.word + (p.gap + rest);
    if p.gap != "" {
      assert (p.gap + rest)[0] == p.gap[0];
    }
    TitledWord(k, p.word, p.gap + rest, first);
    GapIsKept(k, p.gap, rest, false);
    var cased := CaseWord(k, p.word, first);
    assert cased + (p.gap + Titled(k, rest, false)) == cased + p.gap + Titled(k, rest, false);
  }

  lemma {:induction false} SentenceIsCased(k: Casing, pieces: seq<Piece>, first: bool)
    requires IsSentence(k, pieces)
    ensures Titled(k, Text(pieces), first) == Cased(k, pieces, first)
    decreases |pieces|
  {
    hide CaseWord, IsWordChar, Titled, IsWord, IsGap;
    if pieces == [] {
      TitledNothing(k, first);
    } else {
      var p, more := pieces[0], pieces[1..];
      assert p in pieces && forall q <- more :: q in pieces;
      assert forall i :: 0 <= i < |more| ==> more[i] == pieces[i + 1];
      NothingBehindTheLast(pieces);
      WordThenGap(k, p, Text(more), first);
      SentenceIsCased(k, more, false);
    }
  }

  lemma NothingBehindTheLast(pieces: seq<Piece>)
    requires pieces != []
    ensures |pieces| == 1 ==> Text(pieces[1..]) == ""
  {
  }

  /** Whatever stands in front of the first word, and whatever stands between the words, a text is titled word by word
      and nothing else in it is touched. */
  lemma TextIsCased(k: Casing, front: string, pieces: seq<Piece>)
    requires IsGap(k, front) && IsSentence(k, pieces)
    ensures Titled(k, front + Text(pieces), true) == front + Cased(k, pieces, true)
  {
    hide Titled, Cased, IsSentence;
    GapIsKept(k, front, Text(pieces), true);
    SentenceIsCased(k, pieces, true);
  }
}
