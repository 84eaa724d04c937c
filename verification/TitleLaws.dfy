/** Title-casing a name again (cmd/src/normalize.rs): when it is left alone, exactly. */
module TitleLaws {
  import opened Text
  import opened Normalize
  import opened Multiline
  import opened TitleCase

  // ----- What is asked of a case mapping -----

  /** Casing makes no white space and nothing a scrub would change. */
  predicate IsFairPiece(c: char, piece: string) {
    piece != "" && (forall d <- piece :: !IsWhitespace(d)) && (IsPlain([c], true) ==> IsPlain(piece, true))
  }

  /** Capitals are capitals of themselves, and no apostrophe comes or goes. */
  predicate AreCapitals(k: Casing, c: char, piece: string) {
    && (forall d <- piece :: IsWordChar(k, d) && k.up(d) == [d] && (d == '\'' ==> c == '\''))
    && (c == '\'' ==> piece == ['\''])
  }

  /** A character of a word is text, and fairly cased both ways; a small form of it that differs from it shows as
      small; and one that is not small itself has proper capitals, though there may be several. */
  predicate IsLawfulAt(k: Casing, c: char) {
    && !IsWhitespace(c) && IsFairPiece(c, k.up(c)) && IsFairPiece(c, k.down(c))
    && (k.down(c) == [c] || HasLower(k, k.down(c)))
    && (!k.isLower(c) ==> AreCapitals(k, c, k.up(c)))
  }

  ghost predicate Lawful(k: Casing) {
    forall c :: IsWordChar(k, c) ==> IsLawfulAt(k, c)
  }

  // ----- Where a second titling differs -----

  /** Several capitals for one character, of which a later one has a small form. */
  predicate Sprawling(k: Casing, piece: string) {
    piece != "" && exists d <- piece[1..] :: k.down(d) != [d]
  }

  predicate TailSprawls(k: Casing, w: string, capital: bool) {
    w != "" && ((capital && Sprawling(k, k.up(w[0]))) || TailSprawls(k, w[1..], w[0] == '\''))
  }

  predicate WordSprawls(k: Casing, w: string) {
    w != "" && (Sprawling(k, k.up(w[0])) || TailSprawls(k, w[1..], false))
  }

  /** Some word is capitalized, and with such a piece. */
  predicate Sprawls(k: Casing, s: string, first: bool)
    decreases |s|
  {
    var n := WordLength(k, s);
    if s == "" then false
    else if n == 0 then Sprawls(k, s[1..], first)
    else (IsPlainWord(k, s[..n], first) && WordSprawls(k, s[..n])) || Sprawls(k, s[n..], false)
  }

  // ----- Texts piece by piece -----

  lemma HasLowerConcat(k: Casing, a: string, b: string)
    ensures HasLower(k, a + b) <==> HasLower(k, a) || HasLower(k, b)
  {
    assert (forall c <- a :: c in a + b) && (forall c <- b :: c in a + b) && forall c <- a + b :: c in a || c in b;
  }

  lemma IsWordConcat(k: Casing, a: string, b: string)
    ensures IsWord(k, a + b) <==> IsWord(k, a) && IsWord(k, b)
  {
    hide IsWordChar;
    var s := a + b;
    assert (forall i :: 0 <= i < |a| ==> s[i] == a[i]) && forall i :: 0 <= i < |b| ==> s[|a| + i] == b[i];
    assert forall i :: |a| <= i < |s| ==> s[i] == b[i - |a|];
  }

  lemma IsWordOf(k: Casing, s: string)
    requires forall c <- s :: IsWordChar(k, c)
    ensures IsWord(k, s)
  {
    hide IsWordChar;
    assert forall i :: 0 <= i < |s| ==> s[i] in s;
  }

  lemma {:induction false} MapAllConcat(f: char -> string, a: string, b: string)
    ensures MapAll(f, a + b) == MapAll(f, a) + MapAll(f, b)
  {
    if a == "" {
      assert a + b == b;
    } else {
      assert (a + b)[1..] == a[1..] + b;
      MapAllConcat(f, a[1..], b);
    }
  }

  lemma {:induction false} MapAllSame(f: char -> string, s: string)
    requires forall c <- s :: f(c) == [c]
    ensures MapAll(f, s) == s
  {
    if s != "" {
      assert s[0] in s && forall c <- s[1..] :: c in s;
      MapAllSame(f, s[1..]);
    }
  }

  lemma {:induction false} LowerOfMapAll(k: Casing, f: char -> string, s: string, c: char)
    requires c in s && HasLower(k, f(c))
    ensures HasLower(k, MapAll(f, s))
  {
    HasLowerConcat(k, f(s[0]), MapAll(f, s[1..]));
    hide HasLower;
    if s[0] != c {
      LowerOfMapAll(k, f, s[1..], c);
    }
  }

  /** Nothing in a text is small. */
  lemma NoLowerParts(k: Casing, s: string)
    requires s != "" && !HasLower(k, s)
    ensures !k.isLower(s[0]) && !HasLower(k, s[1..])
  {
    assert s[0] in s && forall c <- s[1..] :: c in s;
  }

  lemma CapitalsAgain(k: Casing, c: char)
    requires Lawful(k) && IsWordChar(k, c) && !k.isLower(c)
    ensures IsWord(k, k.up(c)) && MapAll(k.up, k.up(c)) == k.up(c) && k.up(c) != ""
  {
    assert IsLawfulAt(k, c);
    MapAllSame(k.up, k.up(c));
    IsWordOf(k, k.up(c));
    hide IsPlain, IsWhitespace;
  }

  lemma DownIsSame(k: Casing, c: char)
    requires Lawful(k) && IsWordChar(k, c) && !HasLower(k, k.down(c))
    ensures k.down(c) == [c]
  {
    assert IsLawfulAt(k, c);
    hide IsPlain, IsWhitespace;
  }

  lemma {:induction false} UpAgain(k: Casing, w: string)
    requires Lawful(k) && IsWord(k, w) && !HasLower(k, w)
    ensures IsWord(k, MapAll(k.up, w)) && MapAll(k.up, MapAll(k.up, w)) == MapAll(k.up, w)
    ensures w != "" ==> MapAll(k.up, w) != ""
  {
    hide Lawful, HasLower, IsWordChar;
    if w != "" {
      NoLowerParts(k, w);
      CapitalsAgain(k, w[0]);
      UpAgain(k, w[1..]);
      var p, rest := k.up(w[0]), MapAll(k.up, w[1..]);
      MapAllConcat(k.up, p, rest);
      IsWordConcat(k, p, rest);
    }
  }

  lemma {:induction false} DownKept(k: Casing, w: string)
    requires Lawful(k) && IsWord(k, w) && !HasLower(k, MapAll(k.down, w))
    ensures MapAll(k.down, w) == w
  {
    hide Lawful, HasLower, IsWordChar;
    if w != "" {
      HasLowerConcat(k, k.down(w[0]), MapAll(k.down, w[1..]));
      DownIsSame(k, w[0]);
      DownKept(k, w[1..]);
    }
  }

  // ----- One word again -----

  lemma {:induction false} TailDown(k: Casing, ds: string, rest: string)
    requires forall d <- ds :: d != '\''
    ensures Tail(k, ds + rest, false) == MapAll(k.down, ds) + Tail(k, rest, false)
  {
    if ds == "" {
      assert ds + rest == rest;
    } else {
      assert (ds + rest)[1..] == ds[1..] + rest;
      assert ds[0] in ds && forall d <- ds[1..] :: d in ds;
      TailDown(k, ds[1..], rest);
    }
  }

  lemma TailCons(k: Casing, c: char, rest: string, capital: bool)
    ensures Tail(k, [c] + rest, capital) == (if capital then k.up(c) else k.down(c)) + Tail(k, rest, c == '\'')
  {
    assert ([c] + rest)[1..] == rest;
  }

  /** What the law says of a character's capitals. */
  lemma CapitalsAre(k: Casing, c: char)
    requires Lawful(k) && IsWordChar(k, c) && !k.isLower(c)
    ensures var p := k.up(c);
            && p != "" && k.up(p[0]) == [p[0]] && (p[0] == '\'' ==> c == '\'')
            && (forall d <- p[1..] :: IsWordChar(k, d) && (d == '\'' ==> c == '\''))
            && (c == '\'' ==> p == ['\''])
  {
    assert IsLawfulAt(k, c);
    hide IsPlain, IsWhitespace, IsWordChar;
    var p := k.up(c);
    assert p[0] in p && forall d <- p[1..] :: d in p;
  }

  lemma LaterLetters(k: Casing, p: string)
    requires Lawful(k) && p != "" && forall d <- p[1..] :: IsWordChar(k, d)
    ensures if Sprawling(k, p) then HasLower(k, MapAll(k.down, p[1..])) else MapAll(k.down, p[1..]) == p[1..]
  {
    hide Lawful, HasLower, IsWordChar, MapAll;
    if Sprawling(k, p) {
      var d :| d in p[1..] && k.down(d) != [d];
      DownShows(k, d);
      LowerOfMapAll(k, k.down, p[1..], d);
    } else {
      MapAllSame(k.down, p[1..]);
    }
  }

  /** A character's capitals in front of a rest, taken as letters again. */
  lemma CapitalsInTail(k: Casing, c: char, rest: string)
    requires Lawful(k) && IsWordChar(k, c) && !k.isLower(c)
    ensures var p := k.up(c);
            p != "" &&
            var later := MapAll(k.down, p[1..]);
            && Tail(k, p + rest, true) == [p[0]] + (later + Tail(k, rest, c == '\''))
            && Capitalized(k, p + rest) == [p[0]] + (later + Tail(k, rest, false))
            && (if Sprawling(k, p) then HasLower(k, later) else later == p[1..])
  {
    hide *;
    CapitalsAre(k, c);
    var p := k.up(c);
    LaterLetters(k, p);
    assert p + rest == [p[0]] + (p[1..] + rest);
    TailCons(k, p[0], p[1..] + rest, true);
    CapitalizedCons(k, p[0], p[1..] + rest);
    if c == '\'' {
      NoLetters(k);
      assert p[1..] == "" && "" + rest == rest;
      assert "" + Tail(k, rest, true) == Tail(k, rest, true);
      assert "" + Tail(k, rest, false) == Tail(k, rest, false);
    } else {
      TailDown(k, p[1..], rest);
    }
  }

  lemma CapitalizedCons(k: Casing, c: char, rest: string)
    ensures Capitalized(k, [c] + rest) == k.up(c) + Tail(k, rest, false)
  {
    assert ([c] + rest)[1..] == rest;
  }

  lemma NoLetters(k: Casing)
    ensures MapAll(k.down, "") == ""
  {
  }

  lemma DownShows(k: Casing, d: char)
    requires Lawful(k) && IsWordChar(k, d) && k.down(d) != [d]
    ensures HasLower(k, k.down(d))
  {
    assert IsLawfulAt(k, d);
    hide IsPlain, IsWhitespace;
  }

  /** The letters behind the first, titled again: the same, unless one sprawls, and then something small appears. */
  lemma {:induction false} TailAgain(k: Casing, w: string, capital: bool)
    requires Lawful(k) && IsWord(k, w) && !HasLower(k, w) && !HasLower(k, Tail(k, w, capital))
    ensures var t := Tail(k, w, capital);
            && IsWord(k, t) && MapAll(k.up, t) == MapAll(k.up, w)
            && (if TailSprawls(k, w, capital) then HasLower(k, Tail(k, t, capital)) else Tail(k, t, capital) == t)
    decreases |w|
  {
    hide Lawful, HasLower, IsWordChar, IsWord, Sprawling;
    if w == "" {
      NothingIsAWord(k);
    } else {
      var c := w[0];
      var rest := Tail(k, w[1..], c == '\'');
      assert w == [c] + w[1..];
      IsWordConcat(k, [c], w[1..]);
      OneIsAWord(k, c);
      NoLowerParts(k, w);
      HasLowerConcat(k, if capital then k.up(c) else k.down(c), rest);
      TailAgain(k, w[1..], c == '\'');
      if capital {
        TailAgainCapital(k, c, w[1..]);
      } else {
        DownIsSame(k, c);
        MapAllConcat(k.up, [c], rest);
        MapAllConcat(k.up, [c], w[1..]);
        IsWordConcat(k, [c], rest);
        TailCons(k, c, rest, false);
        HasLowerConcat(k, [c], Tail(k, rest, c == '\''));
      }
    }
  }

  lemma NothingIsAWord(k: Casing)
    ensures IsWord(k, "") && !TailSprawls(k, "", false) && !TailSprawls(k, "", true)
  {
  }

  lemma OneIsAWord(k: Casing, c: char)
    ensures IsWord(k, [c]) <==> IsWordChar(k, c)
  {
    assert [c][0] == c;
  }

  lemma TailAgainCapital(k: Casing, c: char, w: string)
    requires Lawful(k) && IsWordChar(k, c) && !k.isLower(c)
    requires var rest := Tail(k, w, c == '\'');
             && IsWord(k, rest) && MapAll(k.up, rest) == MapAll(k.up, w)
             && (if TailSprawls(k, w, c == '\'') then HasLower(k, Tail(k, rest, c == '\''))
                 else Tail(k, rest, c == '\'') == rest)
    ensures var t := k.up(c) + Tail(k, w, c == '\'');
            && IsWord(k, t) && MapAll(k.up, t) == MapAll(k.up, [c] + w)
            && (if Sprawling(k, k.up(c)) || TailSprawls(k, w, c == '\'') then HasLower(k, Tail(k, t, true))
                else Tail(k, t, true) == t)
  {
    hide Lawful, HasLower, IsWordChar, IsWord, Sprawling, Tail, TailSprawls;
    CapitalsAgain(k, c);
    var p, rest := k.up(c), Tail(k, w, c == '\'');
    var later, after := MapAll(k.down, p[1..]), Tail(k, rest, c == '\'');
    CapitalsInTail(k, c, rest);
    MapAllConcat(k.up, p, rest);
    MapAllConcat(k.up, [c], w);
    MapAllOne(k.up, c);
    IsWordConcat(k, p, rest);
    HasLowerConcat(k, [p[0]], later + after);
    HasLowerConcat(k, later, after);
    assert p == [p[0]] + p[1..];
  }

  lemma MapAllOne(f: char -> string, c: char)
    ensures MapAll(f, [c]) == f(c)
  {
    assert [c][1..] == "";
  }

  lemma CapitalizedAgain(k: Casing, w: string)
    requires Lawful(k) && IsWord(k, w) && w != "" && !HasLower(k, w) && !HasLower(k, Capitalized(k, w))
    ensures var r := Capitalized(k, w);
            && r != "" && IsWord(k, r) && MapAll(k.up, r) == MapAll(k.up, w)
            && (if WordSprawls(k, w) then HasLower(k, Capitalized(k, r)) else Capitalized(k, r) == r)
  {
    hide Lawful, HasLower, IsWordChar, IsWord, Sprawling, Tail, TailSprawls;
    var c := w[0];
    var p, rest := k.up(c), Tail(k, w[1..], false);
    assert w == [c] + w[1..];
    IsWordConcat(k, [c], w[1..]);
    OneIsAWord(k, c);
    NoLowerParts(k, w);
    HasLowerConcat(k, p, rest);
    TailAgain(k, w[1..], false);
    CapitalsAgain(k, c);
    CapitalsInTail(k, c, rest);
    MapAllConcat(k.up, p, rest);
    IsWordConcat(k, p, rest);
    var later, after := MapAll(k.down, p[1..]), Tail(k, rest, false);
    HasLowerConcat(k, [p[0]], later + after);
    HasLowerConcat(k, later, after);
    assert p == [p[0]] + p[1..];
  }

  lemma WordAgain(k: Casing, w: string, first: bool)
    requires Lawful(k) && IsWord(k, w) && w != "" && !HasLower(k, w) && !HasLower(k, CaseWord(k, w, first))
    ensures var r := CaseWord(k, w, first);
            && r != "" && IsWord(k, r)
            && (if IsPlainWord(k, w, first) && WordSprawls(k, w) then HasLower(k, CaseWord(k, r, first))
                else CaseWord(k, r, first) == r)
  {
    hide Lawful, HasLower, IsWordChar, IsWord, WordSprawls, Capitalized, MapAll;
    UpAgain(k, w);
    if IsPlainWord(k, w, first) {
      CapitalizedAgain(k, w);
    } else if MapAll(k.up, w) !in k.capitals {
      DownKept(k, w);
    }
  }

  // ----- A text again -----

  /** What begins with no word begins with none after titling. */
  lemma TitledStart(k: Casing, s: string, first: bool)
    requires s != "" && !IsWordChar(k, s[0])
    ensures Titled(k, s, first) != "" && Titled(k, s, first)[0] == s[0]
  {
    hide CaseWord, IsWordChar;
    Apart(k, s);
  }

  /** Text without small letters that stays without any when titled: titling it again changes nothing, unless a word
      sprawls, and then something small appears. */
  lemma {:induction false} TitledAgain(k: Casing, s: string, first: bool)
    requires Lawful(k) && !HasLower(k, s) && !HasLower(k, Titled(k, s, first))
    ensures var t := Titled(k, s, first);
            if Sprawls(k, s, first) then HasLower(k, Titled(k, t, first)) else Titled(k, t, first) == t
    decreases |s|
  {
    hide Lawful, CaseWord, IsWordChar, IsWord, HasLower, WordSprawls, IsPlainWord;
    if s != "" {
      Apart(k, s);
      var n := WordLength(k, s);
      HasLowerConcat(k, s[..n], s[n..]);
      if n == 0 {
        var rest := Titled(k, s[1..], first);
        HasLowerConcat(k, [s[0]], s[1..]);
        HasLowerConcat(k, [s[0]], rest);
        TitledAgain(k, s[1..], first);
        TitledOther(k, s[0], rest, first);
        HasLowerConcat(k, [s[0]], Titled(k, rest, first));
      } else {
        var word, rest := s[..n], Titled(k, s[n..], false);
        HasLowerConcat(k, CaseWord(k, word, first), rest);
        TitledAgain(k, s[n..], false);
        if s[n..] != "" {
          TitledStart(k, s[n..], false);
        }
        WordAgain(k, word, first);
        TitledWord(k, CaseWord(k, word, first), rest, first);
        HasLowerConcat(k, CaseWord(k, CaseWord(k, word, first), first), Titled(k, rest, false));
      }
    }
  }

  // ----- Scrubbed text stays scrubbed -----

  /** Where a reader of scrubbed text stands. */
  datatype Place = Start | AfterSpace | AfterText

  /** The rest of a scrubbed text: single plain spaces, between text and text. */
  predicate IsNeat(s: string, at: Place) {
    if s == "" then !at.AfterSpace?
    else if IsWhitespace(s[0]) then s[0] == ' ' && at.AfterText? && IsNeat(s[1..], AfterSpace)
    else IsNeat(s[1..], AfterText)
  }

  /** The same, looked at place by place. */
  predicate IsSpaced(s: string, at: Place) {
    && (s == "" ==> !at.AfterSpace?)
    && (s != "" && !at.AfterText? ==> !IsWhitespace(s[0]))
    && (s != "" ==> !IsWhitespace(s[|s| - 1]))
    && (forall i :: 0 <= i < |s| && IsWhitespace(s[i]) ==> s[i] == ' ')
    && (forall i :: 0 <= i < |s| - 1 ==> !IsWhitespace(s[i]) || !IsWhitespace(s[i + 1]))
  }

  lemma {:induction false} NeatIsSpaced(s: string, at: Place)
    ensures IsNeat(s, at) <==> IsSpaced(s, at)
    decreases |s|
  {
    hide IsWhitespace;
    if s != "" {
      var rest := s[1..];
      NeatIsSpaced(rest, AfterSpace);
      NeatIsSpaced(rest, AfterText);
      assert forall i :: 0 <= i < |rest| ==> rest[i] == s[i + 1];
      assert forall i :: 1 <= i < |s| ==> s[i] == rest[i - 1];
      if |s| == 1 {
        assert rest == "";
      }
    }
  }

  lemma SpaceIsBlank()
    ensures IsWhitespace(' ')
  {
  }

  /** Spaced text is kept by the scrubber's pass as far as it has come. */
  lemma {:induction false} SpacedIsPending(s: string)
    requires s != "" ==> !IsWhitespace(s[0])
    requires forall i :: 0 <= i < |s| && IsWhitespace(s[i]) ==> s[i] == ' '
    requires forall i :: 0 <= i < |s| - 1 ==> !IsWhitespace(s[i]) || !IsWhitespace(s[i + 1])
    ensures Pending(s) == s
  {
    hide IsWhitespace, Pending;
    if s == "" {
      NothingYet("", true);
    } else {
      var n := |s| - 1;
      var front, c := s[..n], s[n];
      assert s == front + [c];
      SpacedIsPending(front);
      if IsWhitespace(c) {
        assert front != "" && front[n - 1] == s[n - 1];
        SpaceIsBlank();
        PendingSpace(front, c);
      } else {
        PendingChar(front, c);
      }
    }
  }

  lemma NeatIsScrubbed(s: string)
    requires IsNeat(s, Start) && IsPlain(s, true)
    ensures Scrubbed(s, true) == s
  {
    NeatIsSpaced(s, Start);
    SpacedIsPending(s);
    PlainIsUntouched(s, true);
    PendingIsJoined(s);
    SpaceIsBlank();
    hide IsWhitespace, Pending, IsPlain, IsNeat;
  }

  lemma {:induction false} JoinIsSpaced(words: seq<string>)
    requires AreWords(words)
    ensures IsSpaced(JoinWords(words), Start)
  {
    hide IsWhitespace;
    SpaceIsBlank();
    if |words| > 0 {
      var front, last := words[..|words| - 1], words[|words| - 1];
      assert forall i :: 0 <= i < |last| ==> last[i] in last;
      if front != [] {
        JoinIsSpaced(front);
        JoinEndsInText(front);
        var a := JoinWords(front);
        assert JoinWords(words) == a + " " + last;
      }
    }
  }

  lemma ScrubbedIsNeat(s: string)
    ensures IsNeat(Scrubbed(s, true), Start)
  {
    var words := Words(FoldAll(Visible(s), true));
    WordsAreWords(FoldAll(Visible(s), true));
    JoinIsSpaced(words);
    NeatIsSpaced(JoinWords(words), Start);
  }

  lemma {:induction false} NeatPiece(piece: string, rest: string, at: Place)
    requires piece != "" && forall d <- piece :: !IsWhitespace(d)
    ensures IsNeat(piece + rest, at) <==> IsNeat(rest, AfterText)
    decreases |piece|
  {
    hide IsWhitespace;
    assert piece[0] in piece && forall d <- piece[1..] :: d in piece;
    assert (piece + rest)[1..] == piece[1..] + rest;
    if |piece| == 1 {
      assert piece[1..] + rest == rest;
    } else {
      NeatPiece(piece[1..], rest, AfterText);
    }
  }

  lemma PlainConcat(a: string, b: string)
    ensures IsPlain(a + b, true) <==> IsPlain(a, true) && IsPlain(b, true)
  {
    hide IsInvisible, Folded;
    assert (forall c <- a :: c in a + b) && (forall c <- b :: c in a + b) && forall c <- a + b :: c in a || c in b;
  }

  lemma PieceIsFair(k: Casing, c: char, piece: string)
    requires Lawful(k) && IsCaseOf(k, c, piece) && IsWordChar(k, c)
    ensures IsFairPiece(c, piece)
  {
    assert IsLawfulAt(k, c);
    hide IsPlain, IsWhitespace;
  }

  /** A change of case keeps neat text neat and plain text plain, wherever in it one starts. */
  lemma {:induction false} CaseKeepsNeat(k: Casing, s: string, t: string, at: Place)
    requires Lawful(k) && DiffersInCase(k, s, t) && IsNeat(s, at) && IsPlain(s, true)
    ensures IsNeat(t, at) && IsPlain(t, true)
    decreases |s|
  {
    hide Lawful, IsCaseOf, IsPlain, IsWhitespace, IsWordChar;
    if s != "" {
      var n :| 0 <= n <= |t| && IsCaseOf(k, s[0], t[..n]) && DiffersInCase(k, s[1..], t[n..]);
      var piece, rest := t[..n], t[n..];
      assert t == piece + rest && s == [s[0]] + s[1..];
      PlainConcat([s[0]], s[1..]);
      PlainConcat(piece, rest);
      if IsWordChar(k, s[0]) {
        PieceIsFair(k, s[0], piece);
        WordCharIsText(k, s[0]);
        CaseKeepsNeat(k, s[1..], rest, AfterText);
        NeatPiece(piece, rest, at);
      } else {
        OtherIsKept(k, s[0], piece);
        CaseKeepsNeat(k, s[1..], rest, if IsWhitespace(s[0]) then AfterSpace else AfterText);
        assert t[1..] == rest;
      }
    } else {
      assert t == "";
    }
  }

  lemma OtherIsKept(k: Casing, c: char, piece: string)
    requires !IsWordChar(k, c) && IsCaseOf(k, c, piece)
    ensures piece == [c]
  {
  }

  lemma WordCharIsText(k: Casing, c: char)
    requires Lawful(k) && IsWordChar(k, c)
    ensures !IsWhitespace(c)
  {
    assert IsLawfulAt(k, c);
  }

  /** A change of case leaves cleansed text scrubbed; and cleansed, composition counted, when composing leaves the
      result alone, and, where composing leaves it scrubbed, only then. */
  lemma CaseKeepsCleansed(k: Casing, nfc: string -> string, s: string, t: string)
    requires Lawful(k) && Scrubbed(s, true) == s && DiffersInCase(k, s, t)
    ensures Scrubbed(t, true) == t
    ensures IsComposed(nfc, t) ==> Cleanse(nfc, t) == t
    ensures ComposesClean(nfc, t, true) && Cleanse(nfc, t) == t ==> IsComposed(nfc, t)
  {
    ScrubbedIsNeat(s);
    ScrubIsIdempotent(s, true);
    hide Scrubbed, IsPlain, Lawful, DiffersInCase;
    CaseKeepsNeat(k, s, t, Start);
    NeatIsScrubbed(t);
  }

  // ----- Where a small letter shows -----

  predicate TailShows(k: Casing, w: string, capital: bool) {
    w != "" && (HasLower(k, if capital then k.up(w[0]) else k.down(w[0])) || TailShows(k, w[1..], w[0] == '\''))
  }

  predicate WordShows(k: Casing, w: string, first: bool) {
    if IsPlainWord(k, w, first) then w != "" && (HasLower(k, k.up(w[0])) || TailShows(k, w[1..], false))
    else if MapAll(k.up, w) in k.capitals then exists c <- w :: HasLower(k, k.up(c))
    else exists c <- w :: HasLower(k, k.down(c))
  }

  /** Some character of the text comes out small. */
  predicate Shows(k: Casing, s: string, first: bool)
    decreases |s|
  {
    var n := WordLength(k, s);
    if s == "" then false
    else if n == 0 then k.isLower(s[0]) || Shows(k, s[1..], first)
    else WordShows(k, s[..n], first) || Shows(k, s[n..], false)
  }

  lemma {:induction false} TailShowsExactly(k: Casing, w: string, capital: bool)
    ensures HasLower(k, Tail(k, w, capital)) <==> TailShows(k, w, capital)
    decreases |w|
  {
    if w != "" {
      TailShowsExactly(k, w[1..], w[0] == '\'');
      HasLowerConcat(k, if capital then k.up(w[0]) else k.down(w[0]), Tail(k, w[1..], w[0] == '\''));
      hide HasLower;
    }
  }

  lemma {:induction false} MapShowsExactly(k: Casing, f: char -> string, w: string)
    ensures HasLower(k, MapAll(f, w)) <==> exists c <- w :: HasLower(k, f(c))
  {
    if w != "" {
      MapShowsExactly(k, f, w[1..]);
      HasLowerConcat(k, f(w[0]), MapAll(f, w[1..]));
      hide HasLower;
      assert w[0] in w && (forall c <- w[1..] :: c in w) && forall c <- w :: c == w[0] || c in w[1..];
    }
  }

  lemma WordShowsExactly(k: Casing, w: string, first: bool)
    requires w != ""
    ensures HasLower(k, CaseWord(k, w, first)) <==> WordShows(k, w, first)
  {
    MapShowsExactly(k, k.up, w);
    MapShowsExactly(k, k.down, w);
    TailShowsExactly(k, w[1..], false);
    HasLowerConcat(k, k.up(w[0]), Tail(k, w[1..], false));
    hide HasLower, MapAll, Tail, TailShows;
  }

  /** A small letter is in the titled text exactly when some character of the text comes out small. */
  lemma {:induction false} TitledShowsExactly(k: Casing, s: string, first: bool)
    ensures HasLower(k, Titled(k, s, first)) <==> Shows(k, s, first)
    decreases |s|
  {
    if s != "" {
      Apart(k, s);
      var n := WordLength(k, s);
      if n == 0 {
        TitledShowsExactly(k, s[1..], first);
        HasLowerConcat(k, [s[0]], Titled(k, s[1..], first));
        LowerOfOne(k, s[0]);
      } else {
        TitledShowsExactly(k, s[n..], false);
        WordShowsExactly(k, s[..n], first);
        HasLowerConcat(k, CaseWord(k, s[..n], first), Titled(k, s[n..], false));
      }
      hide HasLower, CaseWord, WordShows, IsWordChar;
    }
  }

  lemma LowerOfOne(k: Casing, c: char)
    ensures HasLower(k, [c]) <==> k.isLower(c)
  {
    assert c in [c] && forall d <- [c] :: d == c;
  }

  // ----- A name again -----

  /** What titling leaves alone a second time, read off the cleansed name: it has a small letter, or some character
      of it comes out small, or no capitalized word of it sprawls. */
  predicate Settles(k: Casing, clean: string) {
    HasLower(k, clean) || Shows(k, clean, true) || !Sprawls(k, clean, true)
  }

  /** A name that was title-cased once, exactly. Composed as it came out, it is left alone the second time if and
      only if it settles. Not composed, it is composed the second time, and so not left alone, if that shows a small
      letter; and if that shows none, it is left alone only where titling takes the composed name back to the
      uncomposed. */
  lemma SmartTitlingIsIdempotent(k: Casing, nfc: string -> string, s: string)
    requires Lawful(k)
    ensures var once := SmartTitled(k, nfc, s);
            var twice := SmartTitled(k, nfc, once);
            && (IsComposed(nfc, once) ==> (twice == once <==> Settles(k, Cleanse(nfc, s))))
            && (!IsComposed(nfc, once) && ComposesClean(nfc, once, true) ==>
                  (twice == once <==> !HasLower(k, nfc(once)) && Titled(k, nfc(once), true) == once))
  {
    var clean := Cleanse(nfc, s);
    var once := SmartTitled(k, nfc, s);
    ScrubIsIdempotent(nfc(s), true);
    hide Scrubbed, Titled, Lawful, DiffersInCase, HasLower, Sprawls, Shows;
    TitlingChangesOnlyCase(k, clean, true);
    CaseKeepsCleansed(k, nfc, clean, Titled(k, clean, true));
    TitledShowsExactly(k, clean, true);
    if IsComposed(nfc, once) && !HasLower(k, clean) && !HasLower(k, Titled(k, clean, true)) {
      TitledAgain(k, clean, true);
    }
  }

  /** Capitals can stand apart where small letters are composed: J with a caron has no letter of its own, j with a caron
      has. So the name AJ with a caron comes out uncomposed, and is another name the second time. */
  lemma CaronIsComposedTheSecondTime(k: Casing, nfc: string -> string)
    requires k.isAlphanumeric('A') && k.isAlphanumeric('J') && !k.isAlphanumeric('\U{030C}')
    requires !k.isLower('A') && !k.isLower('J') && !k.isLower('\U{030C}') && k.isLower('\U{01F0}')
    requires k.up('A') == "A" && k.up('J') == "J" && k.down('J') == "j" && "AJ" !in k.capitals
    requires nfc("AJ\U{030C}") == "AJ\U{030C}" && nfc("Aj\U{030C}") == "A\U{01F0}"
    ensures SmartTitled(k, nfc, "AJ\U{030C}") == "Aj\U{030C}"
    ensures SmartTitled(k, nfc, "Aj\U{030C}") == "A\U{01F0}"
  {
    CaronIsClean();
    hide Scrubbed, Capitalized;
    var name := "AJ\U{030C}";
    assert name == "AJ" + (['\U{030C}'] + "") && "AJ" == ['A', 'J'];
    TitledWord(k, "AJ", ['\U{030C}'] + "", true);
    TitledOther(k, '\U{030C}', "", false);
    TitledNothing(k, false);
    TwoCapitals(k, 'A', 'J');
    MapAllSame(k.up, "AJ");
    assert IsPlainWord(k, "AJ", true);
    hide Titled;
    assert !HasLower(k, name);
    assert '\U{01F0}' in "A\U{01F0}";
  }

  lemma CaronIsClean()
    ensures Scrubbed("AJ\U{030C}", true) == "AJ\U{030C}"
    ensures Scrubbed("A\U{01F0}", true) == "A\U{01F0}"
  {
    CaronIsPlain('A');
    CaronIsPlain('J');
    CaronIsPlain('\U{030C}');
    CaronIsPlain('\U{01F0}');
    hide Scrubbed, IsPlain, IsWhitespace;
    PlainConcat(['A'], ['J']);
    PlainConcat(['A'] + ['J'], ['\U{030C}']);
    PlainConcat(['A'], ['\U{01F0}']);
    assert "AJ\U{030C}" == ['A'] + ['J'] + ['\U{030C}'] && "A\U{01F0}" == ['A'] + ['\U{01F0}'];
    PlainWordIsScrubbed("AJ\U{030C}");
    PlainWordIsScrubbed("A\U{01F0}");
  }

  lemma CaronIsPlain(c: char)
    requires c in {'A', 'J', '\U{030C}', '\U{01F0}'}
    ensures IsPlain([c], true) && !IsWhitespace(c)
  {
  }

  /** And a name can fail to settle with the real alphabet: Greek U+1F88 is no small letter, and its capitals are the
      two letters U+1F08 U+0399. Titled again, the second of them turns small. */
  lemma GreekCapitalIsTitledTwice(k: Casing, nfc: string -> string)
    requires k.isAlphanumeric('\U{1F88}') && k.isAlphanumeric('\U{1F08}') && k.isAlphanumeric('\U{0399}')
    requires !k.isLower('\U{1F88}') && !k.isLower('\U{1F08}') && !k.isLower('\U{0399}')
    requires k.up('\U{1F88}') == "\U{1F08}\U{0399}" && k.up('\U{1F08}') == "\U{1F08}" && k.up('\U{0399}') == "\U{0399}"
    requires k.down('\U{0399}') == "\U{03B9}" && "\U{1F08}\U{0399}" !in k.capitals
    requires nfc("\U{1F88}") == "\U{1F88}" && nfc("\U{1F08}\U{0399}") == "\U{1F08}\U{0399}"
    ensures SmartTitled(k, nfc, "\U{1F88}") == "\U{1F08}\U{0399}"
    ensures SmartTitled(k, nfc, "\U{1F08}\U{0399}") == "\U{1F08}\U{03B9}"
  {
    GreekIsClean();
    hide Scrubbed, Capitalized;
    var one, two := "\U{1F88}", "\U{1F08}\U{0399}";
    assert one == ['\U{1F88}'] && two == ['\U{1F08}', '\U{0399}'];
    TitledEnd(k, one, true);
    TitledEnd(k, two, true);
    OneCapital(k, '\U{1F88}');
    TwoCapitals(k, '\U{1F08}', '\U{0399}');
    MapAllOne(k.up, '\U{1F88}');
    MapAllSame(k.up, two);
    hide Titled;
    assert !HasLower(k, one) && !HasLower(k, two);
    assert IsPlainWord(k, one, true) && IsPlainWord(k, two, true);
  }

  lemma OneCapital(k: Casing, a: char)
    ensures Capitalized(k, [a]) == k.up(a)
  {
    assert [a][1..] == "" && Tail(k, "", false) == "";
  }

  lemma TwoCapitals(k: Casing, a: char, b: char)
    ensures Capitalized(k, [a, b]) == k.up(a) + k.down(b)
  {
    assert [a, b][1..] == [b];
    TailCons(k, b, "", false);
    assert [b] + "" == [b];
  }

  lemma GreekIsClean()
    ensures Scrubbed("\U{1F88}", true) == "\U{1F88}"
    ensures Scrubbed("\U{1F08}\U{0399}", true) == "\U{1F08}\U{0399}"
  {
    GreekIsPlain('\U{1F88}');
    GreekIsPlain('\U{1F08}');
    GreekIsPlain('\U{0399}');
    hide Scrubbed, IsPlain, IsWhitespace;
    PlainConcat(['\U{1F08}'], ['\U{0399}']);
    assert "\U{1F88}" == ['\U{1F88}'] && "\U{1F08}\U{0399}" == ['\U{1F08}'] + ['\U{0399}'];
    PlainWordIsScrubbed("\U{1F88}");
    PlainWordIsScrubbed("\U{1F08}\U{0399}");
  }

  lemma GreekIsPlain(c: char)
    requires c in {'\U{1F88}', '\U{1F08}', '\U{0399}'}
    ensures IsPlain([c], true) && !IsWhitespace(c)
  {
  }

  lemma PlainWordIsScrubbed(w: string)
    requires w != "" && IsText(w) && IsPlain(w, true)
    ensures Scrubbed(w, true) == w
  {
    NeatPiece(w, "", Start);
    assert w + "" == w;
    hide IsPlain, IsWhitespace;
    NeatIsScrubbed(w);
  }

  // ----- The ASCII alphabet -----

  function UpperChar(c: char): string {
    if IsAsciiLower(c) then [(c as int - 32) as char] else [c]
  }

  function SmallChar(c: char): string {
    [LowerChar(c)]
  }

  function Ascii(capitals: set<string>, particles: set<string>): Casing {
    Casing(UpperChar, SmallChar, IsAsciiLower, IsAsciiAlphanumeric, capitals, particles)
  }

  predicate IsAsciiWordChar(c: char) {
    IsAsciiAlphanumeric(c) || c == '\'' || c == '.'
  }

  /** The laws are not empty: ASCII case obeys them, whatever the word lists, and in ASCII nothing sprawls. */
  lemma AsciiIsLawful(capitals: set<string>, particles: set<string>)
    ensures Lawful(Ascii(capitals, particles))
  {
    var k := Ascii(capitals, particles);
    forall c | IsWordChar(k, c)
      ensures IsLawfulAt(k, c)
    {
      AsciiIsLawfulAt(k, c);
    }
  }

  lemma AsciiIsLawfulAt(k: Casing, c: char)
    requires k == Ascii(k.capitals, k.particles) && IsAsciiWordChar(c)
    ensures IsLawfulAt(k, c)
  {
    AsciiCases(c);
    AsciiWordCharIsPlain(c);
    AsciiWordCharIsPlain(UpperChar(c)[0]);
    AsciiWordCharIsPlain(SmallChar(c)[0]);
    assert LowerChar(c) in SmallChar(c);
    hide IsPlain, IsWhitespace, UpperChar, LowerChar, IsAsciiAlphanumeric;
  }

  lemma AsciiCases(c: char)
    requires IsAsciiWordChar(c)
    ensures |UpperChar(c)| == 1 && IsAsciiWordChar(UpperChar(c)[0]) && IsAsciiWordChar(LowerChar(c))
    ensures UpperChar(UpperChar(c)[0]) == UpperChar(c)
    ensures (UpperChar(c)[0] == '\'' <==> c == '\'')
    ensures LowerChar(c) == c || IsAsciiLower(LowerChar(c))
  {
  }

  lemma AsciiWordCharIsPlain(c: char)
    requires IsAsciiWordChar(c)
    ensures !IsWhitespace(c) && IsPlain([c], true)
  {
  }
}
