/** Column names as keys, and the type guessed from a name (cmd/src/artifact.rs). */
module Slugs {
  import opened Text

  // ----- Column names as keys -----

  /** The last character is a letter or digit. */
  predicate EndsInRun(s: string) {
    s != [] && IsAsciiAlphanumeric(s[|s| - 1])
  }

  /** The runs of letters and digits, in lower case. */
  function Runs(s: string): (runs: seq<string>)
    ensures EndsInRun(s) ==> runs != []
  {
    if s == [] then []
    else
      var front, c := s[..|s| - 1], s[|s| - 1];
      if !IsAsciiAlphanumeric(c) then Runs(front)
      else if EndsInRun(front) then
        var runs := Runs(front);
        runs[|runs| - 1 := runs[|runs| - 1] + [LowerChar(c)]]
      else Runs(front) + [[LowerChar(c)]]
  }

  function JoinRuns(runs: seq<string>): string {
    if runs == [] then []
    else if |runs| == 1 then runs[0]
    else JoinRuns(runs[..|runs| - 1]) + "_" + runs[|runs| - 1]
  }

  predicate StartsWithDigit(s: string) {
    s != [] && IsAsciiDigit(s[0])
  }

  /** The runs joined by underscores, opened with a letter. */
  function SlugOf(name: string): string {
    var joined := JoinRuns(Runs(name));
    if StartsWithDigit(joined) then "c" + joined else joined
  }

  method Slug(name: string) returns (out: string)
    ensures out == SlugOf(name)
  {
    hide IsAsciiAlphanumeric, Runs, JoinRuns, Trim;
    out := "";
    var gap := false;
    var t := Trim(name);
    assert JoinRuns(Runs(t[..0])) == "" by { NoRunsYet(t); }
    for i := 0 to |t|
      invariant out == JoinRuns(Runs(t[..i]))
      invariant gap <==> i > 0 && !EndsInRun(t[..i])
    {
      var c := t[i];
      RunsStep(t[..i], c);
      assert t[..i + 1] == t[..i] + [c];
      if IsAsciiAlphanumeric(c) {
        if gap && out != [] {
          out := out + "_";
        }
        gap := false;
        out := out + [LowerChar(c)];
      } else {
        gap := true;
      }
    }
    assert t[..|t|] == t;
    TrimKeepsRuns(name);
    if out != [] && IsAsciiDigit(out[0]) {
      out := "c" + out;
    }
  }

  lemma NoRunsYet(s: string)
    ensures JoinRuns(Runs(s[..0])) == ""
  {
  }

  predicate AreRuns(runs: seq<string>) {
    forall i :: 0 <= i < |runs| ==> runs[i] != [] && IsRun(runs[i])
  }

  predicate IsRun(s: string) {
    forall c <- s :: IsAsciiLower(c) || IsAsciiDigit(c)
  }

  lemma {:induction false} RunsAreRuns(s: string)
    ensures AreRuns(Runs(s))
  {
    if s != [] {
      RunsAreRuns(s[..|s| - 1]);
    }
  }

  lemma RunsMore(s: string, c: char)
    ensures var runs := Runs(s);
            var n := |runs| - 1;
            Runs(s + [c]) ==
            if !IsAsciiAlphanumeric(c) then runs
            else if EndsInRun(s) then runs[n := runs[n] + [LowerChar(c)]]
            else runs + [[LowerChar(c)]]
  {
    hide IsAsciiAlphanumeric;
    assert (s + [c])[..|s|] == s;
  }

  lemma JoinLonger(runs: seq<string>, c: char)
    requires runs != []
    ensures var n := |runs| - 1;
            JoinRuns(runs[n := runs[n] + [c]]) == JoinRuns(runs) + [c]
  {
    var n := |runs| - 1;
    assert runs[n := runs[n] + [c]][..n] == runs[..n];
  }

  lemma JoinMore(runs: seq<string>, r: string)
    ensures JoinRuns(runs + [r]) == if runs == [] then r else JoinRuns(runs) + "_" + r
  {
    assert (runs + [r])[..|runs|] == runs;
  }

  /** What one more character does to the joined runs. */
  lemma RunsStep(s: string, c: char)
    ensures var joined := JoinRuns(Runs(s));
            JoinRuns(Runs(s + [c])) ==
            if !IsAsciiAlphanumeric(c) then joined
            else (if !EndsInRun(s) && joined != [] then joined + "_" else joined) + [LowerChar(c)]
  {
    RunsAreRuns(s);
    RunsMore(s, c);
    var runs := Runs(s);
    JoinIsEmpty(runs);
    hide IsAsciiAlphanumeric, LowerChar, JoinRuns, Runs, AreRuns;
    if EndsInRun(s) {
      JoinLonger(runs, LowerChar(c));
    } else {
      JoinMore(runs, [LowerChar(c)]);
    }
  }

  lemma JoinIsEmpty(runs: seq<string>)
    requires AreRuns(runs)
    ensures JoinRuns(runs) == [] <==> runs == []
  {
  }

  // Trimming first makes no difference to the runs.

  lemma WhitespaceIsNoRun(c: char)
    requires IsWhitespace(c)
    ensures !IsAsciiAlphanumeric(c)
  {
  }

  lemma {:induction false} RunsOfTail(s: string)
    requires s != [] && !IsAsciiAlphanumeric(s[0])
    ensures Runs(s[1..]) == Runs(s) && (EndsInRun(s[1..]) <==> EndsInRun(s))
  {
    hide IsAsciiAlphanumeric;
    var front := s[..|s| - 1];
    if |s| > 1 {
      RunsOfTail(front);
      assert s[1..][..|s| - 2] == front[1..];
    } else {
      assert front == [];
    }
  }

  lemma {:induction false} TrimStartKeepsRuns(s: string)
    ensures Runs(TrimStart(s)) == Runs(s)
  {
    hide IsAsciiAlphanumeric, IsWhitespace, Runs;
    if s != [] && IsWhitespace(s[0]) {
      WhitespaceIsNoRun(s[0]);
      RunsOfTail(s);
      TrimStartKeepsRuns(s[1..]);
    }
  }

  lemma {:induction false} TrimEndKeepsRuns(s: string)
    ensures Runs(TrimEnd(s)) == Runs(s)
  {
    hide IsAsciiAlphanumeric, IsWhitespace;
    if s != [] && IsWhitespace(s[|s| - 1]) {
      WhitespaceIsNoRun(s[|s| - 1]);
      TrimEndKeepsRuns(s[..|s| - 1]);
    }
  }

  lemma TrimKeepsRuns(s: string)
    ensures Runs(Trim(s)) == Runs(s)
  {
    hide Runs, TrimStart, TrimEnd;
    TrimStartKeepsRuns(s);
    TrimEndKeepsRuns(TrimStart(s));
  }

  // ----- The form of a key -----

  predicate IsKeyChar(c: char) {
    IsAsciiLower(c) || IsAsciiDigit(c) || c == '_'
  }

  /** A letter, then letters, digits and underscores. */
  predicate IsKeyForm(s: string) {
    s != [] && IsAsciiLower(s[0]) && forall c <- s :: IsKeyChar(c)
  }

  lemma {:induction false} JoinedForm(runs: seq<string>)
    requires AreRuns(runs) && runs != []
    ensures var joined := JoinRuns(runs);
            joined != [] && joined[0] != '_' && forall c <- joined :: IsKeyChar(c)
  {
    var last := runs[|runs| - 1];
    if |runs| == 1 {
      assert last[0] in last;
    } else {
      var front := runs[..|runs| - 1];
      JoinedForm(front);
      assert forall c <- JoinRuns(runs) :: c in JoinRuns(front) || c == '_' || c in last;
    }
  }

  /** A key is empty, for a name without letters or digits, or well formed. */
  lemma SlugIsAKey(name: string)
    ensures SlugOf(name) == "" <==> forall c <- name :: !IsAsciiAlphanumeric(c)
    ensures SlugOf(name) != "" ==> IsKeyForm(SlugOf(name))
  {
    var runs := Runs(name);
    RunsAreRuns(name);
    RunsAreEmpty(name);
    hide IsAsciiAlphanumeric, Runs, JoinRuns, AreRuns;
    if runs != [] {
      JoinedForm(runs);
      var joined := JoinRuns(runs);
      assert joined[0] in joined;
      assert forall c <- "c" + joined :: c == 'c' || c in joined;
    } else {
      NoRunsYet("");
      RunsAreEmpty("");
    }
  }

  lemma {:induction false} RunsAreEmpty(s: string)
    ensures Runs(s) == [] <==> forall c <- s :: !IsAsciiAlphanumeric(c)
  {
    hide IsAsciiAlphanumeric;
    if s != [] {
      var front, c := s[..|s| - 1], s[|s| - 1];
      assert c in s && forall x <- front :: x in s;
      assert forall x <- s :: x in front || x == c;
      RunsAreEmpty(front);
    }
  }

  // ----- A name that comes out as `url` -----

  lemma ContainedInMore(s: string, c: char, sub: string)
    requires Contains(Lower(s), sub)
    ensures Contains(Lower(s + [c]), sub)
  {
    LowerMore(s, c);
    var i: nat :| i <= |s| && ContainsAt(Lower(s), sub, i);
    assert Lower(s + [c])[i..i + |sub|] == Lower(s)[i..i + |sub|];
    assert ContainsAt(Lower(s + [c]), sub, i);
  }

  lemma LowerMore(s: string, c: char)
    ensures Lower(s + [c]) == Lower(s) + [LowerChar(c)]
  {
  }

  lemma SuffixIsContained(s: string, sub: string)
    requires EndsWith(s, sub)
    ensures Contains(s, sub)
  {
    assert ContainsAt(s, sub, |s| - |sub|);
  }

  /** Every run stands, as it is, in the lower-cased name; an open one at its end. */
  lemma {:induction false} RunsAreContained(s: string)
    ensures forall r <- Runs(s) :: Contains(Lower(s), r)
    ensures EndsInRun(s) ==> EndsWith(Lower(s), Runs(s)[|Runs(s)| - 1])
  {
    hide IsAsciiAlphanumeric, Contains, Lower, LowerChar;
    if s != [] {
      var front, c := s[..|s| - 1], s[|s| - 1];
      assert s == front + [c];
      RunsAreContained(front);
      LowerMore(front, c);
      forall r | r in Runs(front)
        ensures Contains(Lower(s), r)
      {
        ContainedInMore(front, c, r);
      }
      if IsAsciiAlphanumeric(c) {
        var last := Runs(s)[|Runs(s)| - 1];
        assert EndsWith(Lower(s), last);
        SuffixIsContained(Lower(s), last);
        assert forall r <- Runs(s) :: r in Runs(front) || r == last;
      }
    }
  }

  lemma {:induction false} JoinHasUnderscore(runs: seq<string>)
    requires |runs| > 1
    ensures '_' in JoinRuns(runs)
  {
    assert JoinRuns(runs) == JoinRuns(runs[..|runs| - 1]) + "_" + runs[|runs| - 1];
  }

  /** A name keyed `word`, a single run that opens with another letter than `c`, contains that word. */
  lemma SlugIsAWord(name: string, word: string)
    requires SlugOf(name) == word && IsRun(word) && word != "" && word[0] != 'c'
    ensures Contains(Lower(name), word)
  {
    hide Contains, Lower, IsAsciiAlphanumeric;
    var runs := Runs(name);
    RunsAreContained(name);
    assert JoinRuns(runs) == word;
    assert '_' !in word;
    if |runs| > 1 {
      JoinHasUnderscore(runs);
    }
    assert runs[0] in runs;
  }

  // ----- Guessing a type -----

  const URL_WORDS: seq<string> := ["url", "link", "listing", "website", "page"]
  const MONEY_WORDS: seq<string> := ["price", "cost", "salary", "rent", "amount", "value", "fee", "revenue"]
  const DATE_WORDS: seq<string> := ["date", "posted", "published", "founded", "deadline", "closes"]
  const NUMBER_WORDS: seq<string> := [
    "year", "count", "miles", "mileage", "km", "size", "beds", "baths", "employees", "rating", "number", "qty"]
  const LONG_WORDS: seq<string> := ["description", "summary", "notes", "details", "about"]

  predicate Has(n: string, words: seq<string>) {
    exists w <- words :: Contains(n, w)
  }

  function GuessType(name: string): string {
    var n := Lower(name);
    if Has(n, URL_WORDS) then "url"
    else if Has(n, MONEY_WORDS) then "money"
    else if Has(n, DATE_WORDS) then "date"
    else if Has(n, NUMBER_WORDS) then "number"
    else if Has(n, LONG_WORDS) then "longtext"
    else "text"
  }

  /** The fact the appended link rests on: a column that would be keyed `url` is itself a link. */
  lemma KeyedUrlIsAUrl(name: string)
    requires SlugOf(name) == "url"
    ensures GuessType(name) == "url"
  {
    hide SlugOf, Contains, Lower;
    SlugIsAWord(name, "url");
    assert URL_WORDS[0] == "url";
  }
}
