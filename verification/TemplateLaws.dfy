/** Rendering, said of a template as its author wrote it: text, a placeholder, text, and so on
    (cmd/src/prospect.rs). */
module TemplateLaws {
  import opened Text
  import opened Json
  import opened Template

  /** Text and the placeholder behind it: two braces, blanks, a dot, a name, blanks, two braces. */
  datatype Piece = Piece(text: string, before: string, name: string, after: string)

  /** A name is letters, digits and underscores of ASCII, at least one. */
  lemma NamesMean(s: string)
    ensures IsName(s)
        <==> s != "" && forall c <- s :: 'a' <= c <= 'z' || 'A' <= c <= 'Z' || '0' <= c <= '9' || c == '_'
  {
  }

  /** Text opens no placeholder of its own. */
  predicate IsPlain(text: string) {
    !Contains(text, "{{")
  }

  predicate AreWellWritten(pieces: seq<Piece>, last: string) {
    && (forall p <- pieces :: IsPlain(p.text) && IsBlank(p.before) && IsName(p.name) && IsBlank(p.after))
    && IsPlain(last)
  }

  function Written(pieces: seq<Piece>, last: string): string {
    if pieces == [] then last
    else pieces[0].text + Placeholder(pieces[0].before, pieces[0].name, pieces[0].after) + Written(pieces[1..], last)
  }

  /** What the author means: every text as it stands, every placeholder as its value. */
  function Meaning(show: Value -> string, pieces: seq<Piece>, last: string, data: Ctx): string {
    if pieces == [] then last
    else pieces[0].text + ValueText(show, Lookup(data, pieces[0].name)) + Meaning(show, pieces[1..], last, data)
  }

  // ----- No placeholder opens inside plain text -----

  lemma NoBraceNoField(s: string, i: nat)
    requires i <= |s| && (i + 1 >= |s| || s[i] != '{' || s[i + 1] != '{')
    ensures FieldAt(s, i) == None
  {
    if i + 1 < |s| {
      NotAt(s, "{{", i, if s[i] != '{' then 0 else 1);
    }
  }

  lemma ThirdBraceNoField(s: string, i: nat)
    requires i + 2 < |s| && s[i + 2] == '{'
    ensures FieldAt(s, i) == None
  {
    assert !IsWhitespace('{');
    assert SkipBlanks(s, i + 2) == i + 2;
  }

  lemma PlainHasNoBraces(text: string, i: nat)
    requires IsPlain(text) && i + 1 < |text|
    ensures text[i] != '{' || text[i + 1] != '{'
  {
    assert text[i..i + 2] == [text[i], text[i + 1]];
    assert !ContainsAt(text, "{{", i);
  }

  /** Plain text at `from`, in front of a placeholder or of nothing. */
  lemma NoFieldInText(s: string, from: nat, text: string, i: nat)
    requires from + |text| <= |s| && s[from..from + |text|] == text && IsPlain(text)
    requires from + |text| == |s| || ContainsAt(s, "{{", from + |text|)
    requires from <= i < from + |text|
    ensures FieldAt(s, i) == None
  {
    var end := from + |text|;
    assert s[i] == text[i - from];
    if i + 1 < end {
      assert s[i + 1] == text[i + 1 - from];
      PlainHasNoBraces(text, i - from);
      NoBraceNoField(s, i);
    } else if end == |s| {
      NoBraceNoField(s, i);
    } else {
      assert s[end..end + 2][1] == s[i + 2];
      ThirdBraceNoField(s, i);
    }
  }

  lemma {:induction false} NextIsFirst(s: string, from: nat, at: nat)
    requires from <= at <= |s| && forall k :: from <= k < at ==> FieldAt(s, k).None?
    ensures NextField(s, from) == NextField(s, at)
    decreases at - from
  {
    hide FieldAt;
    if from < at {
      NextIsFirst(s, from + 1, at);
    }
  }

  // ----- A placeholder where it stands -----

  lemma PlaceholderStands(front: string, p: Piece, rest: string)
    requires IsBlank(p.before) && IsBlank(p.after) && IsName(p.name)
    ensures var written := Placeholder(p.before, p.name, p.after);
            var s := front + written + rest;
            && FieldAt(s, |front|) == Some(Match(p.name, |front| + |written|))
            && ContainsAt(s, "{{", |front|)
  {
    hide IsBlank, IsName, FieldAt, Laid, Placeholder;
    var written := Placeholder(p.before, p.name, p.after);
    var s, n := front + written + rest, |front|;
    var dot := 2 + |p.before|;
    var nameEnd := dot + 1 + |p.name|;
    var close := nameEnd + |p.after|;
    WrittenIsLaid(p.before, p.name, p.after, rest);
    LaidIsOrdered(written + rest, 0, dot, nameEnd, close);
    LaidFurther(front, written + rest, 0, dot, nameEnd, close);
    assert front + (written + rest) == s;
    SliceFurther(front, written + rest, dot + 1, nameEnd);
    LaidIsFound(s, n, n + dot, n + nameEnd, n + close);
    PlaceholderLength(p);
    LaidOpens(s, n, n + dot, n + nameEnd, n + close);
  }

  lemma SliceFurther(front: string, s: string, i: nat, j: nat)
    requires i <= j <= |s|
    ensures (front + s)[|front| + i..|front| + j] == s[i..j]
  {
  }

  lemma PlaceholderLength(p: Piece)
    ensures |Placeholder(p.before, p.name, p.after)| == 2 + |p.before| + 1 + |p.name| + |p.after| + 2
  {
  }

  lemma LaidOpens(s: string, i: nat, dot: nat, nameEnd: nat, close: nat)
    requires Laid(s, i, dot, nameEnd, close)
    ensures ContainsAt(s, "{{", i)
  {
    hide IsWhitespace, IsNameChar;
  }

  lemma LaidFurther(front: string, s: string, i: nat, dot: nat, nameEnd: nat, close: nat)
    requires Laid(s, i, dot, nameEnd, close)
    ensures var n := |front|; Laid(front + s, n + i, n + dot, n + nameEnd, n + close)
  {
    hide IsWhitespace, IsNameChar;
    var n := |front|;
    assert forall k :: n <= k < n + |s| ==> (front + s)[k] == s[k - n];
    assert (front + s)[n + i..n + i + 2] == s[i..i + 2];
    assert (front + s)[n + close..n + close + 2] == s[close..close + 2];
  }

  // ----- Rendering means what was written -----

  /** One piece in front of whatever follows. */
  lemma PieceIsRendered(show: Value -> string, front: string, p: Piece, rest: string, data: Ctx)
    requires IsPlain(p.text) && IsBlank(p.before) && IsBlank(p.after) && IsName(p.name)
    ensures var read := front + p.text + Placeholder(p.before, p.name, p.after);
            Filled(show, Tokens(read + rest, |front|), data)
            == p.text + ValueText(show, Lookup(data, p.name)) + Filled(show, Tokens(read + rest, |read|), data)
  {
    hide FieldAt, ValueText, IsPlain, IsBlank, IsName, Placeholder, Tokens, Filled, NextField;
    var s := front + p.text + Placeholder(p.before, p.name, p.after) + rest;
    FilledStep(show, s, |front|, data);
    PieceIsFound(front, p, rest);
    assert s[|front|..|front + p.text|] == p.text;
  }

  lemma {:induction false} RenderedFrom(show: Value -> string, front: string, pieces: seq<Piece>, last: string,
                                        data: Ctx)
    requires AreWellWritten(pieces, last)
    ensures Filled(show, Tokens(front + Written(pieces, last), |front|), data) == Meaning(show, pieces, last, data)
    decreases |pieces|
  {
    hide FieldAt, ValueText, IsPlain, IsBlank, IsName, Placeholder, Tokens, Filled, NextField, Contains;
    if pieces == [] {
      FilledStep(show, front + last, |front|, data);
      assert (front + last)[|front|..] == last;
      TextToTheEnd(front + last, |front|, last);
    } else {
      var p, rest := pieces[0], Written(pieces[1..], last);
      var read := front + p.text + Placeholder(p.before, p.name, p.after);
      assert forall q <- pieces[1..] :: q in pieces;
      PieceIsRendered(show, front, p, rest, data);
      RenderedFrom(show, read, pieces[1..], last, data);
      assert front + Written(pieces, last) == read + rest;
    }
  }

  lemma TextToTheEnd(s: string, from: nat, text: string)
    requires from <= |s| && s[from..] == text && IsPlain(text)
    ensures NextField(s, from) == None
  {
    hide FieldAt, IsPlain, NextField;
    assert s[from..from + |text|] == text;
    forall i | from <= i < |s|
      ensures FieldAt(s, i) == None
    {
      NoFieldInText(s, from, text, i);
    }
    NextIsFirst(s, from, |s|);
    NoFieldAtTheEnd(s);
  }

  lemma NoFieldAtTheEnd(s: string)
    ensures NextField(s, |s|) == None
  {
    NoBraceNoField(s, |s|);
  }

  lemma PieceIsFound(front: string, p: Piece, rest: string)
    requires IsPlain(p.text) && IsBlank(p.before) && IsBlank(p.after) && IsName(p.name)
    ensures var written := Placeholder(p.before, p.name, p.after);
            var s := front + p.text + written + rest;
            NextField(s, |front|) == Some(Found(|front + p.text|, Match(p.name, |front + p.text + written|)))
  {
    hide FieldAt, IsPlain, NextField, IsBlank, IsName, Placeholder;
    var written := Placeholder(p.before, p.name, p.after);
    var s := front + p.text + written + rest;
    var at := |front + p.text|;
    PlaceholderStands(front + p.text, p, rest);
    assert s[|front|..at] == p.text;
    forall i | |front| <= i < at
      ensures FieldAt(s, i) == None
    {
      NoFieldInText(s, |front|, p.text, i);
    }
    NextIsFirst(s, |front|, at);
    FoundHere(s, at);
  }

  lemma FoundHere(s: string, at: nat)
    requires at <= |s| && FieldAt(s, at).Some?
    ensures NextField(s, at) == Some(Found(at, FieldAt(s, at).value))
  {
    hide FieldAt;
  }

  /** However a template is written - any text that opens no placeholder, any white space inside the braces - it renders
      to that text with every placeholder's value in its place. */
  lemma RenderedIsTheMeaning(show: Value -> string, pieces: seq<Piece>, last: string, data: Ctx)
    requires AreWellWritten(pieces, last)
    ensures Rendered(show, Written(pieces, last), data) == Meaning(show, pieces, last, data)
  {
    hide Tokens, Filled, Meaning, AreWellWritten;
    RenderedFrom(show, "", pieces, last, data);
    assert "" + Written(pieces, last) == Written(pieces, last);
  }

  /** A field that is missing or null shows nothing; text, numbers and truth values show as they are. */
  lemma ValuesShowAsTheyAre(show: Value -> string, name: string, data: Ctx, text: string)
    requires IsName(name)
    ensures var t := Placeholder("", name, "");
            && Rendered(show, t, data[name := Null]) == "" && Rendered(show, t, data - {name}) == ""
            && Rendered(show, t, data[name := Number(text)]) == text
            && Rendered(show, t, data[name := Str(text)]) == text
            && Rendered(show, t, data[name := Bool(true)]) == "true"
            && Rendered(show, t, data[name := Bool(false)]) == "false"
  {
    OneHole(show, name, data[name := Null]);
    OneHole(show, name, data - {name});
    OneHole(show, name, data[name := Number(text)]);
    OneHole(show, name, data[name := Str(text)]);
    OneHole(show, name, data[name := Bool(true)]);
    OneHole(show, name, data[name := Bool(false)]);
    hide Rendered, Placeholder, IsName;
  }

  lemma OneHole(show: Value -> string, name: string, data: Ctx)
    requires IsName(name)
    ensures Rendered(show, Placeholder("", name, ""), data) == ValueText(show, Lookup(data, name))
  {
    hide Rendered, Placeholder, IsName, ValueText, Contains;
    var piece := Piece("", "", name, "");
    NothingIsPlain();
    RenderedIsTheMeaning(show, [piece], "", data);
    assert [piece][1..] == [];
    assert Written([], "") == "" && Meaning(show, [], "", data) == "";
    assert "" + Placeholder("", name, "") + "" == Placeholder("", name, "");
    assert "" + ValueText(show, Lookup(data, name)) + "" == ValueText(show, Lookup(data, name));
  }

  lemma NothingIsPlain()
    ensures IsPlain("") && IsBlank("")
  {
  }
}
