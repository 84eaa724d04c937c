/** `{{.field}}` templates and the mapping that projects a row through them (cmd/src/prospect.rs). */
module Template {
  import opened Text
  import opened Json

  type Ctx = map<string, Value>

  // ----- Placeholders -----

  predicate IsNameChar(c: char) {
    IsAsciiAlphanumeric(c) || c == '_'
  }

  predicate IsName(s: string) {
    s != "" && forall c <- s :: IsNameChar(c)
  }

  /** The end of the run of characters of one kind that starts at `i`. */
  function SkipBlanks(s: string, i: nat): (j: nat)
    requires i <= |s|
    ensures i <= j <= |s|
    ensures forall k :: i <= k < j ==> IsWhitespace(s[k])
    ensures j < |s| ==> !IsWhitespace(s[j])
    decreases |s| - i
  {
    if i < |s| && IsWhitespace(s[i]) then SkipBlanks(s, i + 1) else i
  }

  function SkipName(s: string, i: nat): (j: nat)
    requires i <= |s|
    ensures i <= j <= |s|
    ensures forall k :: i <= k < j ==> IsNameChar(s[k])
    ensures j < |s| ==> !IsNameChar(s[j])
    decreases |s| - i
  {
    if i < |s| && IsNameChar(s[i]) then SkipName(s, i + 1) else i
  }

  datatype Match = Match(name: string, end: nat)

  /** The placeholder that opens at `i`: two braces, blanks, a dot, a name, blanks, two braces. */
  function FieldAt(s: string, i: nat): (f: Option<Match>)
    requires i <= |s|
    ensures f.Some? ==> i + 6 <= f.value.end <= |s|
  {
    if !ContainsAt(s, "{{", i) then None
    else
      var dot := SkipBlanks(s, i + 2);
      if dot >= |s| || s[dot] != '.' then None
      else
        var nameEnd := SkipName(s, dot + 1);
        var close := SkipBlanks(s, nameEnd);
        if nameEnd == dot + 1 || !ContainsAt(s, "}}", close) then None
        else Some(Match(s[dot + 1..nameEnd], close + 2))
  }

  /** A placeholder written out. */
  function Placeholder(before: string, name: string, after: string): string {
    "{{" + before + "." + name + after + "}}"
  }

  datatype Found = Found(start: nat, field: Match)

  /** The first placeholder at or after `i`. */
  function NextField(s: string, i: nat): (found: Option<Found>)
    requires i <= |s|
    ensures found.Some? ==> i <= found.value.start <= |s| && FieldAt(s, found.value.start) == Some(found.value.field)
    ensures forall k: nat :: i <= k < (if found.Some? then found.value.start else |s| + 1) ==> FieldAt(s, k).None?
    decreases |s| - i
  {
    if FieldAt(s, i).Some? then Some(Found(i, FieldAt(s, i).value))
    else if i == |s| then None
    else NextField(s, i + 1)
  }

  // ----- A template as literals and placeholders -----

  datatype Token = Literal(text: string) | Hole(text: string, name: string)

  function Tokens(s: string, from: nat): seq<Token>
    requires from <= |s|
    decreases |s| - from
  {
    match NextField(s, from)
    case None => [Literal(s[from..])]
    case Some(Found(start, field)) =>
      [Literal(s[from..start]), Hole(s[start..field.end], field.name)] + Tokens(s, field.end)
  }

  function TextOf(tokens: seq<Token>): string {
    if tokens == [] then "" else tokens[0].text + TextOf(tokens[1..])
  }

  function FieldsIn(s: string): set<string> {
    Names(Tokens(s, 0))
  }

  function Names(tokens: seq<Token>): set<string> {
    if tokens == [] then {}
    else (if tokens[0].Hole? then {tokens[0].name} else {}) + Names(tokens[1..])
  }

  // ----- Rendering -----

  /** What a field shows. `show` writes out arrays and objects; any will do. */
  function ValueText(show: Value -> string, v: Option<Value>): string {
    match v
    case None => ""
    case Some(Null) => ""
    case Some(Str(s)) => s
    case Some(Number(text)) => text
    case Some(Bool(b)) => if b then "true" else "false"
    case Some(other) => show(other)
  }

  function Lookup(data: Ctx, name: string): Option<Value> {
    if name in data then Some(data[name]) else None
  }

  function Filled(show: Value -> string, tokens: seq<Token>, data: Ctx): string {
    if tokens == [] then ""
    else
      var first := tokens[0];
      (if first.Hole? then ValueText(show, Lookup(data, first.name)) else first.text)
      + Filled(show, tokens[1..], data)
  }

  function Rendered(show: Value -> string, tmpl: string, data: Ctx): string {
    Filled(show, Tokens(tmpl, 0), data)
  }

  method RenderTemplate(show: Value -> string, tmpl: string, data: Ctx) returns (out: string)
    ensures out == Rendered(show, tmpl, data)
  {
    hide ValueText, FieldAt, Tokens, Filled;
    out := "";
    var last := 0;
    var m := NextField(tmpl, 0);
    assert out + Filled(show, Tokens(tmpl, 0), data) == Rendered(show, tmpl, data);
    while m.Some?
      invariant last <= |tmpl| && m == NextField(tmpl, last)
      invariant out + Filled(show, Tokens(tmpl, last), data) == Rendered(show, tmpl, data)
      decreases |tmpl| - last
    {
      var Found(start, field) := m.value;
      FilledStep(show, tmpl, last, data);
      FieldEndsLater(tmpl, start);
      ghost var rest := Filled(show, Tokens(tmpl, field.end), data);
      ghost var literal, value := tmpl[last..start], ValueText(show, Lookup(data, field.name));
      assert out + (literal + value + rest) == (out + literal + value) + rest;
      out := out + tmpl[last..start];
      out := out + ValueText(show, Lookup(data, field.name));
      last := field.end;
      m := NextField(tmpl, last);
    }
    FilledStep(show, tmpl, last, data);
    out := out + tmpl[last..];
  }

  lemma FieldEndsLater(s: string, i: nat)
    requires i <= |s| && FieldAt(s, i).Some?
    ensures i < FieldAt(s, i).value.end <= |s|
  {
  }

  lemma FilledStep(show: Value -> string, s: string, from: nat, data: Ctx)
    requires from <= |s|
    ensures var next := NextField(s, from);
            Filled(show, Tokens(s, from), data) ==
            if next.None? then s[from..]
            else s[from..next.value.start]
                 + ValueText(show, Lookup(data, next.value.field.name))
                 + Filled(show, Tokens(s, next.value.field.end), data)
  {
    hide ValueText, FieldAt;
    match NextField(s, from)
    case None =>
      assert Tokens(s, from)[1..] == [];
      assert s[from..] + "" == s[from..];
    case Some(Found(start, field)) =>
      var rest := Tokens(s, field.end);
      var literal, hole := Literal(s[from..start]), Hole(s[start..field.end], field.name);
      assert Tokens(s, from)[1..] == [hole] + rest;
      assert ([hole] + rest)[1..] == rest;
  }

  // ----- The split is exact -----

  /** Literals and placeholders, in order, are the template itself. */
  lemma {:induction false} TokensConcatenateBack(s: string, from: nat)
    requires from <= |s|
    ensures TextOf(Tokens(s, from)) == s[from..]
    decreases |s| - from
  {
    hide FieldAt;
    match NextField(s, from)
    case None =>
      assert Tokens(s, from)[1..] == [];
    case Some(Found(start, field)) =>
      FieldEndsLater(s, start);
      TokensConcatenateBack(s, field.end);
      var rest := Tokens(s, field.end);
      var hole := Hole(s[start..field.end], field.name);
      assert Tokens(s, from)[1..] == [hole] + rest;
      assert ([hole] + rest)[1..] == rest;
      assert s[from..] == s[from..start] + (s[start..field.end] + s[field.end..]);
  }

  /** Where the parts of a placeholder at `i` stand. */
  predicate Laid(s: string, i: nat, dot: nat, nameEnd: nat, close: nat) {
    && i + 2 <= dot && dot + 1 < nameEnd <= close && close + 2 <= |s|
    && s[i..i + 2] == "{{" && s[dot] == '.' && s[close..close + 2] == "}}"
    && (forall k :: i + 2 <= k < dot ==> IsWhitespace(s[k]))
    && (forall k :: dot + 1 <= k < nameEnd ==> IsNameChar(s[k]))
    && (forall k :: nameEnd <= k < close ==> IsWhitespace(s[k]))
  }

  lemma FoundIsLaid(s: string, i: nat) returns (dot: nat, nameEnd: nat, close: nat)
    requires i <= |s| && FieldAt(s, i).Some?
    ensures Laid(s, i, dot, nameEnd, close)
    ensures FieldAt(s, i) == Some(Match(s[dot + 1..nameEnd], close + 2))
  {
    hide IsWhitespace, IsNameChar;
    dot := SkipBlanks(s, i + 2);
    nameEnd := SkipName(s, dot + 1);
    close := SkipBlanks(s, nameEnd);
  }

  lemma LaidIsWritten(s: string, i: nat, dot: nat, nameEnd: nat, close: nat)
    requires Laid(s, i, dot, nameEnd, close)
    ensures IsBlank(s[i + 2..dot]) && IsName(s[dot + 1..nameEnd]) && IsBlank(s[nameEnd..close])
    ensures s[i..close + 2] == Placeholder(s[i + 2..dot], s[dot + 1..nameEnd], s[nameEnd..close])
  {
    hide IsWhitespace, IsNameChar;
    assert s[dot..dot + 1] == ".";
    assert s[i..close + 2]
        == s[i..i + 2] + s[i + 2..dot] + s[dot..dot + 1] + s[dot + 1..nameEnd] + s[nameEnd..close]
            + s[close..close + 2];
  }

  /** A placeholder that is found is written as one. */
  lemma FoundIsAPlaceholder(s: string, i: nat)
    requires i <= |s| && FieldAt(s, i).Some?
    ensures var f := FieldAt(s, i).value;
            IsName(f.name)
            && exists before, after ::
                 IsBlank(before) && IsBlank(after) && s[i..f.end] == Placeholder(before, f.name, after)
  {
    hide IsBlank, IsName, Placeholder, Laid, FieldAt;
    var dot, nameEnd, close := FoundIsLaid(s, i);
    assert i + 2 <= dot <= dot + 1 <= nameEnd <= close <= close + 2 <= |s| by {
      LaidIsOrdered(s, i, dot, nameEnd, close);
    }
    LaidIsWritten(s, i, dot, nameEnd, close);
  }

  lemma LaidIsOrdered(s: string, i: nat, dot: nat, nameEnd: nat, close: nat)
    requires Laid(s, i, dot, nameEnd, close)
    ensures i + 2 <= dot <= dot + 1 <= nameEnd <= close <= close + 2 <= |s|
  {
  }

  lemma SkipBlanksStops(s: string, i: nat, j: nat)
    requires i <= j < |s| && !IsWhitespace(s[j]) && forall k :: i <= k < j ==> IsWhitespace(s[k])
    ensures SkipBlanks(s, i) == j
  {
  }

  lemma SkipNameStops(s: string, i: nat, j: nat)
    requires i <= j < |s| && !IsNameChar(s[j]) && forall k :: i <= k < j ==> IsNameChar(s[k])
    ensures SkipName(s, i) == j
  {
  }

  lemma ClosingBraceIsNoName()
    ensures !IsNameChar('}') && !IsWhitespace('}') && !IsWhitespace('.')
    ensures forall c :: IsWhitespace(c) ==> !IsNameChar(c)
  {
  }

  lemma LaidIsFound(s: string, i: nat, dot: nat, nameEnd: nat, close: nat)
    requires Laid(s, i, dot, nameEnd, close)
    ensures FieldAt(s, i) == Some(Match(s[dot + 1..nameEnd], close + 2))
  {
    ClosingBraceIsNoName();
    hide IsWhitespace, IsNameChar;
    assert s[close..close + 2][0] == s[close];
    SkipBlanksStops(s, i + 2, dot);
    SkipNameStops(s, dot + 1, nameEnd);
    SkipBlanksStops(s, nameEnd, close);
  }

  lemma WrittenIsLaid(before: string, name: string, after: string, rest: string)
    requires IsBlank(before) && IsBlank(after) && IsName(name)
    ensures var dot := 2 + |before|;
            var nameEnd := dot + 1 + |name|;
            var s := Placeholder(before, name, after) + rest;
            && Laid(s, 0, dot, nameEnd, nameEnd + |after|)
            && s[dot + 1..nameEnd] == name
  {
    hide IsWhitespace, IsNameChar;
    var s := Placeholder(before, name, after) + rest;
    var dot := 2 + |before|;
    var nameEnd := dot + 1 + |name|;
    assert forall k :: 2 <= k < dot ==> s[k] == before[k - 2];
    assert forall k :: dot + 1 <= k < nameEnd ==> s[k] == name[k - dot - 1];
    assert forall k :: nameEnd <= k < nameEnd + |after| ==> s[k] == after[k - nameEnd];
  }

  /** And every placeholder written out is found, whatever follows it. */
  lemma PlaceholderIsFound(before: string, name: string, after: string, rest: string)
    requires IsBlank(before) && IsBlank(after) && IsName(name)
    ensures FieldAt(Placeholder(before, name, after) + rest, 0)
         == Some(Match(name, |Placeholder(before, name, after)|))
  {
    hide Laid, FieldAt, IsBlank, IsName;
    var dot := 2 + |before|;
    var nameEnd := dot + 1 + |name|;
    WrittenIsLaid(before, name, after, rest);
    LaidIsFound(Placeholder(before, name, after) + rest, 0, dot, nameEnd, nameEnd + |after|);
  }

  // ----- One pass -----

  /** A value goes in as it is, even when it is itself a template: what was substituted is never read again. */
  lemma ValuesAreVerbatim(show: Value -> string, name: string, data: Ctx, value: string)
    requires IsName(name)
    ensures Rendered(show, Placeholder("", name, ""), data[name := Str(value)]) == value
  {
    hide Placeholder, FieldAt, Tokens, Filled, IsName;
    var s := Placeholder("", name, "");
    PlaceholderIsFound("", name, "", "");
    assert s + "" == s;
    var data' := data[name := Str(value)];
    FilledStep(show, s, 0, data');
    FilledStep(show, s, |s|, data');
    assert s[|s|..] == "" && s[0..0] + value + "" == value;
  }

  // ----- What a rendering depends on -----

  predicate Agree(a: Ctx, b: Ctx, names: set<string>) {
    forall n <- names :: Lookup(a, n) == Lookup(b, n)
  }

  lemma {:induction false} FilledDependsOnNames(show: Value -> string, tokens: seq<Token>, a: Ctx, b: Ctx)
    requires Agree(a, b, Names(tokens))
    ensures Filled(show, tokens, a) == Filled(show, tokens, b)
  {
    hide ValueText;
    if tokens != [] {
      assert Agree(a, b, Names(tokens[1..]));
      FilledDependsOnNames(show, tokens[1..], a, b);
      if tokens[0].Hole? {
        assert tokens[0].name in Names(tokens);
      }
    }
  }

  /** Contexts that agree on the fields a template names render it alike. */
  lemma RenderingDependsOnFields(show: Value -> string, tmpl: string, a: Ctx, b: Ctx)
    requires Agree(a, b, FieldsIn(tmpl))
    ensures Rendered(show, tmpl, a) == Rendered(show, tmpl, b)
  {
    FilledDependsOnNames(show, Tokens(tmpl, 0), a, b);
  }

  lemma {:induction false} LongerValueFillsLonger(show: Value -> string, tokens: seq<Token>, data: Ctx, name: string)
    ensures var short, long := data[name := Str("")], data[name := Str("x")];
            && |Filled(show, tokens, short)| <= |Filled(show, tokens, long)|
            && (name in Names(tokens) ==> |Filled(show, tokens, short)| < |Filled(show, tokens, long)|)
  {
    if tokens != [] {
      LongerValueFillsLonger(show, tokens[1..], data, name);
    }
  }

  /** And on no fewer: every field a template names can change what it renders to. */
  lemma EveryFieldMatters(show: Value -> string, tmpl: string, data: Ctx, name: string)
    requires name in FieldsIn(tmpl)
    ensures Rendered(show, tmpl, data[name := Str("")]) != Rendered(show, tmpl, data[name := Str("x")])
  {
    LongerValueFillsLonger(show, Tokens(tmpl, 0), data, name);
  }
}
