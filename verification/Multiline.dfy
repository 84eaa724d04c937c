/** Cleansing that keeps line breaks, and cleansing behind Unicode composition (cmd/src/normalize.rs). */
module Multiline {
  import opened Text
  import opened Normalize

  // ----- Lines -----

  function FirstNewline(s: string): (i: nat)
    ensures i <= |s|
    ensures i < |s| ==> s[i] == '\n'
    ensures forall j :: 0 <= j < i ==> s[j] != '\n'
  {
    if s == [] || s[0] == '\n' then 0 else 1 + FirstNewline(s[1..])
  }

  function StripCarriageReturn(s: string): string {
    if s != [] && s[|s| - 1] == '\r' then s[..|s| - 1] else s
  }

  /** The lines of a text: a line feed ends one, with any carriage return in front of it. */
  function Lines(s: string): seq<string> {
    if s == [] then []
    else
      var i := FirstNewline(s);
      if i == |s| then [s] else [StripCarriageReturn(s[..i])] + Lines(s[i + 1..])
  }

  function JoinLines(lines: seq<string>): string {
    if lines == [] then []
    else if |lines| == 1 then lines[0]
    else lines[0] + "\n" + JoinLines(lines[1..])
  }

  // ----- Behind Unicode composition -----

  /** `cleanse` and `cleanse_key`: the text is composed first. Composition is the library's; any function here. */
  function Cleanse(nfc: string -> string, s: string): string {
    Scrubbed(nfc(s), true)
  }

  function CleanseKey(nfc: string -> string, s: string): string {
    Scrubbed(nfc(s), false)
  }

  /** Composing leaves a text alone. */
  predicate IsComposed(nfc: string -> string, s: string) {
    nfc(s) == s
  }

  /** Composing scrubbed text leaves it scrubbed, and does not make it vanish or appear. */
  predicate ComposesClean(nfc: string -> string, s: string, fold: bool) {
    Scrubbed(nfc(s), fold) == nfc(s) && (nfc(s) == "" <==> s == "")
  }

  // ----- Paragraphs -----

  function CleansedAll(nfc: string -> string, lines: seq<string>): (clean: seq<string>)
    ensures |clean| == |lines| && forall i :: 0 <= i < |lines| ==> clean[i] == Cleanse(nfc, lines[i])
  {
    seq(|lines|, i requires 0 <= i < |lines| => Cleanse(nfc, lines[i]))
  }

  datatype Page = Page(out: seq<string>, blankPending: bool)

  /** The kept lines so far, and whether a blank one is owed before the next. */
  function Paged(clean: seq<string>): Page {
    if clean == [] then Page([], false)
    else
      var page, last := Paged(clean[..|clean| - 1]), clean[|clean| - 1];
      if last == "" then Page(page.out, page.out != [])
      else Page(page.out + (if page.blankPending then [""] else []) + [last], false)
  }

  function KeptLines(nfc: string -> string, s: string): seq<string> {
    Paged(CleansedAll(nfc, Lines(s))).out
  }

  function CleansedLines(nfc: string -> string, s: string): string {
    JoinLines(KeptLines(nfc, s))
  }

  method CleanseMultiline(nfc: string -> string, s: string) returns (result: string)
    ensures result == CleansedLines(nfc, s)
  {
    hide Cleanse;
    var lines := Lines(s);
    ghost var all := CleansedAll(nfc, lines);
    var out: seq<string> := [];
    var blankPending := false;
    for i := 0 to |lines|
      invariant Page(out, blankPending) == Paged(all[..i])
    {
      assert all[..i + 1][..i] == all[..i];
      var clean := Scrub(nfc, lines[i], true);
      assert clean == all[i] by {
        CleanseIs(nfc, lines[i]);
      }
      if clean == "" {
        blankPending := out != [];
        continue;
      }
      if blankPending {
        out := out + [""];
        blankPending := false;
      }
      out := out + [clean];
    }
    assert all[..|lines|] == all;
    result := JoinLines(out);
  }

  lemma CleanseIs(nfc: string -> string, s: string)
    ensures Cleanse(nfc, s) == Scrubbed(nfc(s), true)
  {
  }

  // ----- The normal form -----

  /** No leading and no doubled blank line. */
  predicate WellSpaced(lines: seq<string>) {
    && (lines != [] ==> lines[0] != "")
    && forall i :: 0 <= i < |lines| - 1 ==> lines[i] != "" || lines[i + 1] != ""
  }

  /** Well spaced and not ending in a blank line. */
  predicate Tidy(lines: seq<string>) {
    WellSpaced(lines) && (lines != [] ==> lines[|lines| - 1] != "")
  }

  predicate AreScrubbed(lines: seq<string>) {
    forall i :: 0 <= i < |lines| ==> Scrubbed(lines[i], true) == lines[i]
  }

  lemma {:induction false} PagedIsTidy(clean: seq<string>)
    ensures var page := Paged(clean);
            && Tidy(page.out) && (page.blankPending ==> page.out != [])
            && forall i :: 0 <= i < |page.out| ==> page.out[i] == "" || page.out[i] in clean
  {
    if clean != [] {
      var n := |clean| - 1;
      PagedIsTidy(clean[..n]);
      assert clean[n] in clean && forall x <- clean[..n] :: x in clean;
    }
  }

  lemma BlankScrubsToNothing()
    ensures Scrubbed("", true) == ""
  {
  }

  /** Every kept line is scrubbed. */
  lemma KeptAreScrubbed(nfc: string -> string, s: string)
    ensures Tidy(KeptLines(nfc, s)) && AreScrubbed(KeptLines(nfc, s))
  {
    var clean := CleansedAll(nfc, Lines(s));
    PagedIsTidy(clean);
    BlankScrubsToNothing();
    forall i | 0 <= i < |clean|
      ensures Scrubbed(clean[i], true) == clean[i]
    {
      ScrubIsIdempotent(nfc(Lines(s)[i]), true);
    }
    hide Scrubbed, Paged;
    forall i | 0 <= i < |KeptLines(nfc, s)|
      ensures Scrubbed(KeptLines(nfc, s)[i], true) == KeptLines(nfc, s)[i]
    {
      var line := KeptLines(nfc, s)[i];
      if line != "" {
        var j :| 0 <= j < |clean| && clean[j] == line;
      }
    }
  }

  lemma PagedNothing()
    ensures Paged([]) == Page([], false)
  {
  }

  lemma PagedStep(clean: seq<string>)
    requires clean != []
    ensures var page, last := Paged(clean[..|clean| - 1]), clean[|clean| - 1];
            Paged(clean) ==
            if last == "" then Page(page.out, page.out != [])
            else Page(page.out + (if page.blankPending then [""] else []) + [last], false)
  {
  }

  /** Well-spaced lines are kept as they are. */
  lemma {:induction false} WellSpacedIsKept(lines: seq<string>)
    requires WellSpaced(lines)
    ensures Paged(lines) ==
            if lines == [] || lines[|lines| - 1] != "" then Page(lines, false) else Page(lines[..|lines| - 1], true)
    decreases |lines|
  {
    hide Paged;
    if lines == [] {
      PagedNothing();
    } else {
      var n := |lines| - 1;
      var front := lines[..n];
      WellSpacedIsKept(front);
      PagedStep(lines);
      if lines[n] != "" {
        if front != [] && front[n - 1] == "" {
          assert lines == front[..n - 1] + [""] + [lines[n]];
        } else {
          assert lines == front + [] + [lines[n]];
        }
      }
    }
  }

  lemma {:induction false} JoinHasOnlySpaces(words: seq<string>)
    requires AreWords(words)
    ensures forall c <- JoinWords(words) :: IsWhitespace(c) ==> c == ' '
  {
    hide IsWhitespace;
    if |words| > 1 {
      var front, last := words[..|words| - 1], words[|words| - 1];
      JoinHasOnlySpaces(front);
      assert forall c <- JoinWords(words) :: c in JoinWords(front) || c == ' ' || c in last;
    }
  }

  lemma ScrubbedHasOnlySpaces(s: string)
    ensures forall c <- Scrubbed(s, true) :: IsWhitespace(c) ==> c == ' '
  {
    WordsAreWords(FoldAll(Visible(s), true));
    JoinHasOnlySpaces(Words(FoldAll(Visible(s), true)));
  }

  predicate IsOneLine(s: string) {
    (forall c <- s :: c != '\n') && StripCarriageReturn(s) == s
  }

  lemma ScrubbedIsOneLine(s: string)
    ensures IsOneLine(Scrubbed(s, true))
  {
    ScrubbedHasOnlySpaces(s);
    var out := Scrubbed(s, true);
    assert out != [] ==> out[|out| - 1] in out;
  }

  lemma LinesOfOne(line: string)
    requires line != "" && IsOneLine(line)
    ensures Lines(line) == [line]
  {
    forall j | 0 <= j < |line|
      ensures line[j] != '\n'
    {
      assert line[j] in line;
    }
  }

  lemma JoinLinesStep(lines: seq<string>)
    requires |lines| > 1
    ensures JoinLines(lines) == lines[0] + "\n" + JoinLines(lines[1..])
  {
  }

  lemma LinesOfMore(first: string, rest: string)
    requires IsOneLine(first)
    ensures Lines(first + "\n" + rest) == [first] + Lines(rest)
  {
    var s := first + "\n" + rest;
    assert s[|first|] == '\n';
    forall j | 0 <= j < |first|
      ensures s[j] != '\n'
    {
      assert first[j] in first;
    }
    assert FirstNewline(s) == |first|;
    assert s[..|first|] == first && s[|first| + 1..] == rest;
  }

  lemma {:induction false} LinesOfJoin(lines: seq<string>)
    requires AreScrubbed(lines) && (lines != [] ==> lines[|lines| - 1] != "")
    ensures Lines(JoinLines(lines)) == lines
    decreases |lines|
  {
    if lines != [] {
      hide Scrubbed, IsOneLine, Lines;
      ScrubbedIsOneLine(lines[0]);
      if |lines| == 1 {
        LinesOfOne(lines[0]);
        assert JoinLines(lines) == lines[0];
      } else {
        var rest := lines[1..];
        JoinLinesStep(lines);
        hide JoinLines;
        assert rest[|rest| - 1] == lines[|lines| - 1];
        LinesOfJoin(rest);
        LinesOfMore(lines[0], JoinLines(rest));
        assert [lines[0]] + rest == lines;
      }
    }
  }

  /** The result is scrubbed lines with no leading, trailing or doubled blank one, and joining them lost none. */
  lemma CleansedLinesAreTidy(nfc: string -> string, s: string)
    ensures Lines(CleansedLines(nfc, s)) == KeptLines(nfc, s)
    ensures Tidy(Lines(CleansedLines(nfc, s))) && AreScrubbed(Lines(CleansedLines(nfc, s)))
  {
    KeptAreScrubbed(nfc, s);
    hide Scrubbed, KeptLines;
    LinesOfJoin(KeptLines(nfc, s));
  }

  /** Where composing leaves the kept lines scrubbed, cleansing them again only composes them. */
  lemma CleansingAgainComposes(nfc: string -> string, s: string, lines: seq<string>)
    requires lines == KeptLines(nfc, s) && forall line <- lines :: ComposesClean(nfc, line, true)
    ensures var composed := CleansedAll(nfc, lines);
            && KeptLines(nfc, CleansedLines(nfc, s)) == composed
            && AreScrubbed(composed) && (composed != [] ==> composed[|composed| - 1] != "")
            && forall i :: 0 <= i < |lines| ==> composed[i] == nfc(lines[i])
  {
    CleansedLinesAreTidy(nfc, s);
    var composed := CleansedAll(nfc, lines);
    forall i | 0 <= i < |lines|
      ensures composed[i] == nfc(lines[i]) && Scrubbed(composed[i], true) == composed[i]
      ensures composed[i] == "" <==> lines[i] == ""
    {
      assert lines[i] in lines;
    }
    hide Scrubbed, KeptLines, Lines, Cleanse, ComposesClean;
    KeptAre(nfc, CleansedLines(nfc, s));
    WellSpacedIsKept(composed);
  }

  lemma KeptAre(nfc: string -> string, s: string)
    ensures KeptLines(nfc, s) == Paged(CleansedAll(nfc, Lines(s))).out
  {
  }

  /** Cleansing twice is cleansing once when every kept line is composed; and, where composing leaves lines scrubbed,
      only then. */
  lemma CleanseMultilineIsIdempotent(nfc: string -> string, s: string)
    ensures var lines, once := KeptLines(nfc, s), CleansedLines(nfc, s);
            && ((forall line <- lines :: IsComposed(nfc, line)) ==> CleansedLines(nfc, once) == once)
            && ((forall line <- lines :: ComposesClean(nfc, line, true)) && CleansedLines(nfc, once) == once ==>
                  forall line <- lines :: IsComposed(nfc, line))
  {
    var lines := KeptLines(nfc, s);
    KeptAreScrubbed(nfc, s);
    assert forall i :: 0 <= i < |lines| ==> lines[i] in lines;
    hide Scrubbed, KeptLines, Lines, JoinLines;
    if forall line <- lines :: IsComposed(nfc, line) || ComposesClean(nfc, line, true) {
      ComposedIsClean(nfc, lines);
      AgainExactly(nfc, s);
    }
  }

  lemma ComposedIsClean(nfc: string -> string, lines: seq<string>)
    requires AreScrubbed(lines)
    ensures forall line <- lines :: IsComposed(nfc, line) ==> ComposesClean(nfc, line, true)
  {
    hide Scrubbed;
  }

  lemma AgainExactly(nfc: string -> string, s: string)
    requires forall line <- KeptLines(nfc, s) :: ComposesClean(nfc, line, true)
    ensures CleansedLines(nfc, CleansedLines(nfc, s)) == CleansedLines(nfc, s)
       <==> forall line <- KeptLines(nfc, s) :: IsComposed(nfc, line)
  {
    var lines := KeptLines(nfc, s);
    var composed := CleansedAll(nfc, lines);
    CleansingAgainComposes(nfc, s, lines);
    KeptAreScrubbed(nfc, s);
    LinesOfJoin(lines);
    LinesOfJoin(composed);
    hide Scrubbed, KeptLines, Lines, Cleanse, JoinLines, ComposesClean;
    assert composed == lines <==> forall i :: 0 <= i < |lines| ==> nfc(lines[i]) == lines[i];
    assert forall i :: 0 <= i < |lines| ==> lines[i] in lines;
  }

  // ----- Single values -----

  /** Cleansing twice is cleansing once when the first left the text composed; and, where composing leaves it scrubbed,
      only then. In both modes. */
  lemma CleanseIsIdempotent(nfc: string -> string, s: string, fold: bool)
    ensures var clean := Scrubbed(nfc(s), fold);
            && (IsComposed(nfc, clean) ==> Scrubbed(nfc(clean), fold) == clean)
            && (ComposesClean(nfc, clean, fold) && Scrubbed(nfc(clean), fold) == clean ==> IsComposed(nfc, clean))
  {
    ScrubIsIdempotent(nfc(s), fold);
    hide Scrubbed;
  }

  /** Text scrubbed for a key has its display form by folding alone. */
  lemma FoldingScrubs(key: string)
    requires Scrubbed(key, false) == key
    ensures Scrubbed(key, true) == FoldAll(key, true)
  {
    ScrubIsIdempotent(key, false);
    PlainIsUntouched(key, false);
    WordsAreWords(key);
    FoldingKeepsWords(key);
    hide Scrubbed, Words;
    ScrubbedIs(key);
    FoldOfJoin(Words(key));
  }

  lemma ScrubbedIs(key: string)
    ensures Scrubbed(key, false) == JoinWords(Words(FoldAll(Visible(key), false)))
    ensures Scrubbed(key, true) == JoinWords(Words(FoldAll(Visible(key), true)))
  {
  }

  lemma {:induction false} FoldOfJoin(words: seq<string>)
    ensures FoldAll(JoinWords(words), true) == JoinWords(FoldWords(words))
  {
    if |words| > 1 {
      var front, last := words[..|words| - 1], words[|words| - 1];
      FoldOfJoin(front);
      assert FoldWords(words)[..|words| - 1] == FoldWords(front);
      FoldAllConcat(JoinWords(front) + " ", last);
      FoldAllStep(JoinWords(front), ' ', true);
      SpaceFolds();
    }
  }

  lemma SpaceFolds()
    ensures Folded(' ', true) == " "
  {
  }

  /** Cleansing a key is cleansing the value it was made from exactly when composing the key changes nothing but
      punctuation that is folded anyway; where composing leaves the key scrubbed. */
  lemma CleanseOfKey(nfc: string -> string, s: string)
    requires ComposesClean(nfc, CleanseKey(nfc, s), false)
    ensures var key := CleanseKey(nfc, s);
            Cleanse(nfc, key) == Cleanse(nfc, s) <==> FoldAll(nfc(key), true) == FoldAll(key, true)
  {
    var key := CleanseKey(nfc, s);
    CleanseAfterKey(nfc(s));
    ScrubIsIdempotent(nfc(s), false);
    ScrubIsIdempotent(nfc(key), false);
    hide Scrubbed;
    FoldingScrubs(key);
    FoldingScrubs(nfc(key));
  }

  // ----- When composing has nothing left to do -----

  /** What Unicode says of composition: it is done once; a word of composed text is composed; and composed words stay so
      with single spaces between them. */
  ghost predicate ComposesByWords(nfc: string -> string) {
    && (forall s :: nfc(nfc(s)) == nfc(s))
    && (forall s, w :: nfc(s) == s && w in Words(s) ==> nfc(w) == w)
    && (forall words: seq<string> :: AreWords(words) && (forall w <- words :: nfc(w) == w) ==>
          nfc(JoinWords(words)) == JoinWords(words))
  }

  /** A text with no invisible character in it, once composed, makes a key that composing leaves alone: only a dropped
      character can bring two together that compose. */
  lemma VisibleTextMakesAComposedKey(nfc: string -> string, s: string)
    requires ComposesByWords(nfc) && Visible(nfc(s)) == nfc(s)
    ensures IsComposed(nfc, CleanseKey(nfc, s))
  {
    var t := nfc(s);
    VisibleIsVisible(t);
    NoFolding(t);
    WordsAreWords(t);
    hide Visible, FoldAll, Words, JoinWords, AreWords;
    var words := Words(t);
    assert nfc(t) == t;
    assert forall w <- words :: nfc(w) == w;
  }

  /** Composition can have something left to do: a zero-width space between a letter and its accent
      keeps them apart until the scrub, which runs after composing, brings them together. */
  lemma CleanseKeyCanMove(nfc: string -> string)
    requires nfc("e\U{200B}\U{0301}") == "e\U{200B}\U{0301}"
    requires nfc("e\U{0301}") == "\U{00E9}"
    ensures var s := "e\U{200B}\U{0301}";
            var key := CleanseKey(nfc, s);
            && key == "e\U{0301}" && CleanseKey(nfc, key) == "\U{00E9}"
            && Cleanse(nfc, s) == "e\U{0301}" && Cleanse(nfc, key) == "\U{00E9}"
  {
    hide Scrubbed;
    AccentIsVisible();
    AccentsAreText();
    OneWordScrub("e\U{0301}", "e\U{200B}\U{0301}");
    OneWordScrub("e\U{0301}", "e\U{0301}");
    OneWordScrub("\U{00E9}", "\U{00E9}");
  }

  lemma AccentIsVisible()
    ensures Visible("e\U{200B}\U{0301}") == "e\U{0301}" && Visible("\U{00E9}") == "\U{00E9}"
    ensures Visible("e\U{0301}") == "e\U{0301}"
  {
    AccentCharacters();
    hide IsInvisible;
    VisibleOfThree('e', '\U{200B}', '\U{0301}');
    VisibleStep("e\U{0301}", 1);
    VisibleStep("e\U{0301}", 0);
    assert "e\U{0301}"[..2] == "e\U{0301}" && "e\U{0301}"[..0] == "" && "e" + "\U{0301}" == "e\U{0301}";
    VisibleStep("\U{00E9}", 0);
    assert "\U{00E9}"[..1] == "\U{00E9}" && "\U{00E9}"[..0] == "";
  }

  lemma AccentCharacters()
    ensures IsInvisible('\U{200B}')
    ensures !IsInvisible('e') && !IsInvisible('\U{0301}') && !IsInvisible('\U{00E9}')
  {
  }

  lemma VisibleOfThree(a: char, b: char, c: char)
    requires !IsInvisible(a) && IsInvisible(b) && !IsInvisible(c)
    ensures Visible([a, b, c]) == [a, c]
  {
    hide IsInvisible;
    assert [a, b, c][..2] == [a, b] && [a, b][..1] == [a] && [a][..0] == [];
    assert Visible([a]) == [a];
    assert Visible([a, b]) == [a];
  }

  lemma AccentsAreText()
    ensures forall c <- {'e', '\U{0301}', '\U{00E9}'} :: !IsWhitespace(c) && Folded(c, true) == [c]
  {
  }

  lemma OneWordScrub(word: string, s: string)
    requires Visible(s) == word && word != [] && IsText(word)
    requires forall c <- word :: !IsInvisible(c) && Folded(c, true) == [c]
    ensures Scrubbed(s, false) == word && Scrubbed(s, true) == word
  {
    NoFolding(word);
    PlainIsUntouched(word, true);
    OneWord(word);
    hide IsInvisible, Folded, Visible;
  }
}
