/** Scraped values on their way back into a prompt: flattened, and dropped when they read like orders
    (cmd/src/guard.rs). */
module Replay {
  import opened Text
  import opened Normalize

  predicate IsControl(c: char) {
    c < ' ' || '\U{007F}' <= c < '\U{00A0}'
  }

  /** Control characters and white space of any kind, as plain spaces. */
  function Spaced(s: string): (t: string)
    ensures |t| == |s|
  {
    if s == [] then [] else Spaced(s[..|s| - 1]) + [SpacedChar(s[|s| - 1])]
  }

  function SpacedChar(c: char): char {
    if IsControl(c) || IsWhitespace(c) then ' ' else c
  }

  /** One line of single-spaced words. */
  function Flat(s: string): string {
    JoinWords(Words(Spaced(s)))
  }

  method Flatten(value: string) returns (flat: string)
    ensures flat == Flat(value)
  {
    SpacesAreKnown();
    hide IsWhitespace, IsControl, Words, JoinWords, Pending;
    var out := "";
    var lastSpace := true;
    assert Pending("") == "" by { NothingYet("", false); }
    for i := 0 to |value|
      invariant out == Pending(Spaced(value[..i]))
      invariant lastSpace <==> out == [] || out[|out| - 1] == ' '
    {
      assert value[..i + 1][..i] == value[..i];
      ghost var before := Spaced(value[..i]);
      var c := SpacedChar(value[i]);
      assert Spaced(value[..i + 1]) == before + [c];
      if c == ' ' {
        PendingSpace(before, c);
        if lastSpace {
          continue;
        }
        lastSpace := true;
      } else {
        SpacedCharIsText(value[i]);
        PendingChar(before, c);
        lastSpace := false;
      }
      out := out + [c];
    }
    assert value[..|value|] == value;
    TrimmedPending(Spaced(value));
    flat := Trim(out);
  }

  lemma SpacesAreKnown()
    ensures IsWhitespace(' ')
  {
  }

  lemma SpacedCharIsText(c: char)
    ensures SpacedChar(c) != ' ' ==> !IsWhitespace(SpacedChar(c)) && !IsControl(SpacedChar(c))
  {
  }

  lemma TrimmedPending(s: string)
    ensures Trim(Pending(s)) == JoinWords(Words(s))
  {
    SpacesAreKnown();
    var words := Words(s);
    WordsAreWords(s);
    if words != [] {
      JoinEndsInText(words);
      JoinStartsInText(words);
      hide IsWhitespace;
      var p, j := Pending(s), JoinWords(words);
      if p == j + " " {
        assert p[..|p| - 1] == j;
        assert TrimEnd(p) == TrimEnd(j);
      }
    }
  }

  // ----- Sanitizing -----

  const INSTRUCTION_MARKERS: seq<string> := [
    "ignore previous", "ignore all previous", "disregard previous", "disregard the above", "new instructions",
    "system prompt", "you must", "you should now", "your task is", "assistant:", "system:", "</system", "<system",
    "```", "javascript:", "data:text"]
  const MAX_REPLAY_LEN := 120
  const MAX_REPLAY_URL_LEN := 2048

  predicate LooksLikeAnInstruction(text: string) {
    exists m <- INSTRUCTION_MARKERS :: Contains(Lower(text), m)
  }

  predicate IsPlainUrl(s: string) {
    ("https://" <= s || "http://" <= s) && ' ' !in s
  }

  predicate FitToReplay(flat: string) {
    |flat| <= (if IsPlainUrl(flat) then MAX_REPLAY_URL_LEN else MAX_REPLAY_LEN) && !LooksLikeAnInstruction(flat)
  }

  datatype Sorted = Sorted(kept: seq<string>, dropped: seq<string>)

  function Sanitized(values: seq<string>): Sorted {
    if values == [] then Sorted([], [])
    else
      var front := Sanitized(values[..|values| - 1]);
      var flat := Flat(values[|values| - 1]);
      if flat == "" then front
      else if FitToReplay(flat) then front.(kept := front.kept + [flat])
      else front.(dropped := front.dropped + [flat])
  }

  method SanitizeReplayed(values: seq<string>) returns (kept: seq<string>, dropped: seq<string>)
    ensures Sorted(kept, dropped) == Sanitized(values)
  {
    hide Flat, LooksLikeAnInstruction;
    kept, dropped := [], [];
    for i := 0 to |values|
      invariant Sorted(kept, dropped) == Sanitized(values[..i])
    {
      assert values[..i + 1][..i] == values[..i];
      var flat := Flatten(values[i]);
      if flat == "" {
        continue;
      }
      var limit := if IsPlainUrl(flat) then MAX_REPLAY_URL_LEN else MAX_REPLAY_LEN;
      if |flat| > limit || LooksLikeAnInstruction(flat) {
        dropped := dropped + [flat];
        continue;
      }
      kept := kept + [flat];
    }
    assert values[..|values|] == values;
  }

  // ----- What is fit -----

  /** A marker of the list, in any case, anywhere in the text. */
  ghost predicate HoldsAMarker(text: string) {
    exists before, marker, after: string :: marker in INSTRUCTION_MARKERS && Lower(text) == before + marker + after
  }

  /** A value is replayed if and only if it holds no marker and is at most 120 characters long, or a link without spaces
      of at most 2048. */
  lemma FitMeans(flat: string)
    ensures FitToReplay(flat)
        <==> && !HoldsAMarker(flat)
             && (|flat| <= 120 || (|flat| <= 2048 && ' ' !in flat && ("http://" <= flat || "https://" <= flat)))
  {
    forall marker: string
      ensures Contains(Lower(flat), marker) <==> exists before, after: string :: Lower(flat) == before + marker + after
    {
      ContainedIsBetween(Lower(flat), marker);
    }
    hide Contains, Lower;
  }

  /** So nothing with a marker in it is ever replayed, whatever stands around it and whatever its case. */
  lemma MarkedIsNotReplayed(before: string, order: string, after: string)
    requires Lower(order) in INSTRUCTION_MARKERS
    ensures !FitToReplay(before + order + after)
  {
    hide FitToReplay, Lower, INSTRUCTION_MARKERS;
    FitMeans(before + order + after);
    LowerConcat(before, order, after);
    assert HoldsAMarker(before + order + after);
  }

  lemma LowerConcat(a: string, b: string, c: string)
    ensures Lower(a + b + c) == Lower(a) + Lower(b) + Lower(c)
  {
    hide Lower, LowerChar;
    LowerOfTwo(a + b, c);
    LowerOfTwo(a, b);
  }

  lemma {:induction false} LowerOfTwo(a: string, b: string)
    ensures Lower(a + b) == Lower(a) + Lower(b)
  {
    hide Lower, LowerChar;
    var s := a + b;
    assert forall i :: 0 <= i < |s| ==> s[i] == if i < |a| then a[i] else b[i - |a|];
  }

  // ----- What comes out -----

  lemma {:induction false} SpacedIsSpaced(s: string)
    ensures forall c <- Spaced(s) :: c == ' ' || (!IsWhitespace(c) && !IsControl(c))
  {
    if s != [] {
      SpacedIsSpaced(s[..|s| - 1]);
      SpacedCharIsText(s[|s| - 1]);
      hide IsWhitespace, IsControl, SpacedChar;
      var c := SpacedChar(s[|s| - 1]);
      assert forall x <- Spaced(s) :: x in Spaced(s[..|s| - 1]) || x == c;
    }
  }

  lemma {:induction false} SpacedIsKept(s: string)
    requires forall c <- s :: c == ' ' || (!IsWhitespace(c) && !IsControl(c))
    ensures Spaced(s) == s
  {
    hide IsWhitespace, IsControl, SpacedChar, Spaced;
    SpacedStep(s);
    if s != [] {
      var front, c := s[..|s| - 1], s[|s| - 1];
      assert c in s && forall x <- front :: x in s;
      SpacedIsKept(front);
      SpacedCharIsKept(c);
      assert s == front + [c];
    }
  }

  lemma SpacedStep(s: string)
    ensures Spaced(s) == if s == [] then [] else Spaced(s[..|s| - 1]) + [SpacedChar(s[|s| - 1])]
  {
    hide SpacedChar;
  }

  lemma SpacedCharIsKept(c: char)
    requires c == ' ' || (!IsWhitespace(c) && !IsControl(c))
    ensures SpacedChar(c) == c
  {
    hide IsWhitespace, IsControl;
  }

  predicate AreClean(words: seq<string>) {
    forall i :: 0 <= i < |words| ==> forall c <- words[i] :: !IsWhitespace(c) && !IsControl(c)
  }

  lemma {:induction false} WordsAreClean(s: string)
    requires forall c <- s :: c == ' ' || (!IsWhitespace(c) && !IsControl(c))
    ensures AreClean(Words(s))
  {
    SpacesAreKnown();
    hide IsWhitespace, IsControl;
    if s != [] {
      var front, c := s[..|s| - 1], s[|s| - 1];
      assert c in s && forall x <- front :: x in s;
      WordsAreClean(front);
    }
  }

  lemma {:induction false} JoinIsClean(words: seq<string>)
    requires AreClean(words)
    ensures forall c <- JoinWords(words) :: c == ' ' || (!IsWhitespace(c) && !IsControl(c))
  {
    hide IsWhitespace, IsControl;
    if words != [] {
      var front, last := words[..|words| - 1], words[|words| - 1];
      JoinIsClean(front);
      JoinStep(words);
      hide JoinWords;
      if |words| > 1 {
        assert forall c <- JoinWords(words) :: c in JoinWords(front) || c == ' ' || c in last;
      }
    }
  }

  /** Flattened text holds no line break and no control character, and flattening it again changes nothing. */
  lemma FlatIsIdempotent(s: string)
    ensures forall c <- Flat(s) :: c == ' ' || (!IsWhitespace(c) && !IsControl(c))
    ensures Flat(Flat(s)) == Flat(s)
  {
    var words := Words(Spaced(s));
    SpacedIsSpaced(s);
    WordsAreClean(Spaced(s));
    WordsAreWords(Spaced(s));
    JoinIsClean(words);
    SpacedIsKept(JoinWords(words));
    WordsOfJoin(words);
  }

  /** A character that shows: no white space of any kind and no control character. */
  predicate IsInk(c: char) {
    !IsWhitespace(c) && c > '\U{001F}' && (c < '\U{007F}' || c > '\U{009F}')
  }

  function Ink(s: string): string {
    if s == "" then "" else Ink(s[..|s| - 1]) + if IsInk(s[|s| - 1]) then [s[|s| - 1]] else ""
  }

  lemma InkMore(s: string, c: char)
    ensures Ink(s + [c]) == Ink(s) + if IsInk(c) then [c] else ""
  {
    hide IsInk;
    assert (s + [c])[..|s|] == s;
  }

  lemma InkMeans(c: char)
    ensures IsInk(SpacedChar(c)) <==> IsInk(c)
    ensures IsInk(c) ==> SpacedChar(c) == c
    ensures IsInk(c) ==> !IsWhitespace(c)
    ensures !IsInk(SpacedChar(c)) ==> SpacedChar(c) == ' '
    ensures !IsInk(' ')
  {
  }

  lemma {:induction false} SpacingKeepsInk(s: string)
    ensures Ink(Spaced(s)) == Ink(s)
  {
    hide IsInk, SpacedChar, Ink;
    if s != "" {
      var front, c := s[..|s| - 1], s[|s| - 1];
      SpacingKeepsInk(front);
      InkMeans(c);
      InkMore(front, c);
      InkMore(Spaced(front), SpacedChar(c));
      assert s == front + [c];
    }
  }

  lemma {:induction false} WordsKeepInk(s: string)
    ensures Ink(Pending(s)) == Ink(s)
  {
    hide IsInk, Ink, Pending, IsWhitespace;
    if s == "" {
      NothingYet("", false);
    } else {
      var front, c := s[..|s| - 1], s[|s| - 1];
      WordsKeepInk(front);
      assert s == front + [c];
      InkMore(front, c);
      InkMeans(c);
      InkMore(Pending(front), c);
      InkMore(Pending(front), ' ');
      if IsWhitespace(c) {
        PendingSpace(front, c);
      } else {
        PendingChar(front, c);
      }
    }
  }

  /** Flattening drops and moves no character that shows, and the only other one left is a single plain space. */
  lemma FlatKeepsInk(s: string)
    ensures Ink(Flat(s)) == Ink(s)
    ensures forall c <- Flat(s) :: IsInk(c) || c == ' '
  {
    hide Ink, Pending, Words, JoinWords, IsInk;
    SpacingKeepsInk(s);
    WordsKeepInk(Spaced(s));
    PendingIsJoined(Spaced(s));
    var p := Pending(Spaced(s));
    if p != "" && p[|p| - 1] == ' ' {
      assert p == p[..|p| - 1] + [' '];
      InkMore(p[..|p| - 1], ' ');
      InkMeans(' ');
    }
    FlatIsIdempotent(s);
    forall c | c in Flat(s)
      ensures IsInk(c) || c == ' '
    {
      CleanIsInk(c);
    }
  }

  lemma CleanIsInk(c: char)
    ensures !IsWhitespace(c) && !IsControl(c) ==> IsInk(c)
  {
  }

  function NonBlank(values: seq<string>): seq<string> {
    if values == [] then []
    else
      var last := Flat(values[|values| - 1]);
      NonBlank(values[..|values| - 1]) + if last == "" then [] else [last]
  }

  /** Nothing is lost or invented: what is kept and what is dropped are, together, the flattened non-blank values. */
  lemma {:induction false} SanitizingLosesNothing(values: seq<string>)
    ensures var s := Sanitized(values);
            multiset(s.kept) + multiset(s.dropped) == multiset(NonBlank(values))
  {
    hide Flat, FitToReplay;
    if values != [] {
      SanitizingLosesNothing(values[..|values| - 1]);
    }
  }

  predicate AllReplayable(values: seq<string>) {
    forall v <- values :: v != "" && FitToReplay(v) && Flat(v) == v
  }

  predicate NoneReplayable(values: seq<string>) {
    forall v <- values :: !FitToReplay(v)
  }

  /** Every kept value is flat and fit; every dropped one is not fit. */
  lemma {:induction false} SanitizedIsFit(values: seq<string>)
    ensures AllReplayable(Sanitized(values).kept) && NoneReplayable(Sanitized(values).dropped)
  {
    hide Flat, FitToReplay;
    if values == [] {
      assert Sanitized(values) == Sorted([], []);
    } else {
      SanitizedIsFit(values[..|values| - 1]);
      FlatIsIdempotent(values[|values| - 1]);
    }
  }

  lemma {:induction false} FitIsKept(values: seq<string>)
    requires AllReplayable(values)
    ensures Sanitized(values) == Sorted(values, [])
  {
    hide Flat, FitToReplay;
    if values != [] {
      var front, last := values[..|values| - 1], values[|values| - 1];
      assert last in values && forall v <- front :: v in values;
      FitIsKept(front);
      assert values == front + [last];
    }
  }

  /** A value that was replayed once is replayed the same for ever: sanitizing what was kept keeps all of it. */
  lemma SanitizingIsStable(values: seq<string>)
    ensures Sanitized(Sanitized(values).kept) == Sorted(Sanitized(values).kept, [])
  {
    SanitizedIsFit(values);
    FitIsKept(Sanitized(values).kept);
  }
}
