/** The columns a person types, turned into a schema the pipeline can run (cmd/src/artifact.rs). */
module Columns {
  import opened Text
  import opened Artifact
  import opened Slugs

  datatype ColumnRequest = ColumnRequest(name: string, prompt: string)

  const NOTE_LIMIT: nat := 2000

  function Note(prompt: string): string {
    var t := Trim(prompt);
    if |t| <= NOTE_LIMIT then t else t[..NOTE_LIMIT]
  }

  function SpecOf(c: ColumnRequest): FieldSpec {
    FieldSpec(SlugOf(c.name), Trim(c.name), GuessType(c.name), "", false, Note(c.prompt))
  }

  predicate HasKey(specs: seq<FieldSpec>, key: string) {
    exists f <- specs :: f.key == key
  }

  /** One column for each usable name, the first to come out as a key winning. */
  function Specs(cols: seq<ColumnRequest>): seq<FieldSpec> {
    if cols == [] then []
    else
      var front, c := Specs(cols[..|cols| - 1]), cols[|cols| - 1];
      if SlugOf(c.name) == "" || HasKey(front, SlugOf(c.name)) then front else front + [SpecOf(c)]
  }

  /** The link appended when no column is one. */
  const LINK: FieldSpec := FieldSpec("url", "Link", "url", "", true, "")

  function WithLink(specs: seq<FieldSpec>): seq<FieldSpec> {
    if Pick(specs, TypedUrl).Some? then specs else specs + [LINK]
  }

  function UrlKey(specs: seq<FieldSpec>): string {
    Or(Pick(specs, TypedUrl), "url")
  }

  /** A column of words other than the link. */
  predicate IsWordy(urlKey: string, f: FieldSpec) {
    f.key != urlKey && (Typed(f, "text") || Typed(f, "longtext"))
  }

  function Wordy(urlKey: string): FieldSpec -> bool {
    f => IsWordy(urlKey, f)
  }

  function RoleFor(f: FieldSpec, urlKey: string, titleKey: Option<string>): string {
    if f.key == urlKey then "url" else if Some(f.key) == titleKey then "title" else f.role
  }

  function WithRoles(specs: seq<FieldSpec>, urlKey: string, titleKey: Option<string>): (out: seq<FieldSpec>)
    ensures |out| == |specs|
    ensures forall i :: 0 <= i < |out| ==> out[i] == specs[i].(role := RoleFor(specs[i], urlKey, titleKey))
  {
    seq(|specs|, i requires 0 <= i < |specs| => specs[i].(role := RoleFor(specs[i], urlKey, titleKey)))
  }

  function SchemaOf(cols: seq<ColumnRequest>): seq<FieldSpec> {
    var specs := Specs(cols);
    if specs == [] then []
    else
      var all, urlKey := WithLink(specs), UrlKey(specs);
      WithRoles(all, urlKey, Pick(all, Wordy(urlKey)))
  }

  method ColumnsToSchema(cols: seq<ColumnRequest>) returns (out: seq<FieldSpec>)
    ensures out == SchemaOf(cols)
  {
    hide SlugOf, GuessType, Note, Trim, Typed, FirstWhere;
    out := [];
    for i := 0 to |cols|
      invariant out == Specs(cols[..i])
    {
      var c := cols[i];
      assert cols[..i + 1][..i] == cols[..i];
      var key := Slug(c.name);
      if key == "" || exists f <- out :: f.key == key {
        continue;
      }
      out := out + [FieldSpec(key, Trim(c.name), GuessType(c.name), "", false, Note(c.prompt))];
    }
    assert cols[..|cols|] == cols;
    if out == [] {
      return;
    }
    var urlKey := "url";
    var link := Pick(out, TypedUrl);
    if link.Some? {
      urlKey := link.value;
    } else {
      out := out + [LINK];
    }
    var titleKey := Pick(out, Wordy(urlKey));
    ghost var all := out;
    for i := 0 to |out|
      invariant |out| == |all|
      invariant forall j :: 0 <= j < i ==> out[j] == WithRoles(all, urlKey, titleKey)[j]
      invariant forall j :: i <= j < |out| ==> out[j] == all[j]
    {
      if out[i].key == urlKey {
        out := out[i := out[i].(role := "url")];
      } else if Some(out[i].key) == titleKey {
        out := out[i := out[i].(role := "title")];
      }
    }
  }

  // ----- The columns before roles -----

  predicate DistinctKeys(specs: seq<FieldSpec>) {
    forall i, j :: 0 <= i < j < |specs| ==> specs[i].key != specs[j].key
  }

  /** A column as a person's request makes it. */
  predicate IsFrom(cols: seq<ColumnRequest>, f: FieldSpec) {
    exists c <- cols :: f == SpecOf(c) && SlugOf(c.name) != ""
  }

  lemma {:induction false} SpecsAreDistinct(cols: seq<ColumnRequest>)
    ensures DistinctKeys(Specs(cols))
    ensures forall f <- Specs(cols) :: IsFrom(cols, f)
    ensures forall c <- cols :: SlugOf(c.name) == "" || HasKey(Specs(cols), SlugOf(c.name))
  {
    hide SlugOf, GuessType, Note, Trim;
    if cols != [] {
      var front, c := cols[..|cols| - 1], cols[|cols| - 1];
      SpecsAreDistinct(front);
      assert c in cols && (forall x <- front :: x in cols) && forall x <- cols :: x in front || x == c;
      var specs, before := Specs(cols), Specs(front);
      if specs != before {
        assert specs == before + [SpecOf(c)];
        assert forall f <- specs :: f in before || f == SpecOf(c);
        assert SpecOf(c) in specs && forall f <- before :: f in specs;
      }
    }
  }

  /** Of several names that come out as one key, the first is the column. */
  lemma {:induction false} FirstColumnWins(cols: seq<ColumnRequest>, k: nat)
    requires k < |cols| && SlugOf(cols[k].name) != ""
    requires forall j :: 0 <= j < k ==> SlugOf(cols[j].name) != SlugOf(cols[k].name)
    ensures SpecOf(cols[k]) in Specs(cols)
  {
    hide SlugOf, GuessType, Note, Trim;
    var front := cols[..|cols| - 1];
    if k < |front| {
      FirstColumnWins(front, k);
    } else {
      SpecsAreDistinct(front);
      assert forall f <- Specs(front) :: IsFrom(front, f);
    }
  }

  const TYPES: set<string> := {"url", "money", "date", "number", "longtext", "text"}

  lemma GuessIsAType(name: string)
    ensures GuessType(name) in TYPES
  {
    hide Has, Lower;
  }

  lemma LowerIsKept(s: string)
    requires forall i :: 0 <= i < |s| ==> !IsAsciiUpper(s[i])
    ensures Lower(s) == s
  {
  }

  lemma LowerWords()
    ensures Lower("url") == "url" && Lower("key") == "key" && Lower("title") == "title" && Lower("") == ""
  {
    hide Lower;
    LowerIsKept("url");
    LowerIsKept("key");
    LowerIsKept("title");
    LowerIsKept("");
  }

  lemma LowerTypes()
    ensures forall t <- TYPES :: Lower(t) == t
  {
    hide Lower;
    LowerIsKept("url");
    LowerIsKept("money");
    LowerIsKept("date");
    LowerIsKept("number");
    LowerIsKept("longtext");
    LowerIsKept("text");
  }

  /** Types and roles as this module writes them compare as they are spelled. */
  lemma TypedIsEqual(f: FieldSpec, t: string)
    requires f.ftype in TYPES && t in TYPES
    ensures Typed(f, t) <==> f.ftype == t
  {
    LowerTypes();
    hide Lower;
  }

  lemma RolesCompare(f: FieldSpec)
    requires f.role in {"", "url", "title"}
    ensures !Is(f, "key") && (Is(f, "url") <==> f.role == "url") && (Is(f, "title") <==> f.role == "title")
  {
    LowerWords();
    hide Lower;
  }

  /** What the columns are before roles are given out, with the link there is always one of. */
  predicate Prepared(all: seq<FieldSpec>, urlKey: string) {
    && DistinctKeys(all)
    && (forall i :: 0 <= i < |all| ==> IsKeyForm(all[i].key) && all[i].ftype in TYPES && all[i].role == "")
    && (exists u :: 0 <= u < |all| && all[u].key == urlKey && all[u].ftype == "url")
  }

  lemma SpecIsFormed(cols: seq<ColumnRequest>, f: FieldSpec)
    requires IsFrom(cols, f)
    ensures IsKeyForm(f.key) && f.ftype in TYPES && f.role == "" && !f.marked
    ensures f.key == "url" ==> f.ftype == "url" && f.caption != "Link"
    ensures f.caption != "" && Trim(f.caption) == f.caption
  {
    hide GuessType, Trim, Note;
    hide SlugOf, IsKeyForm;
    var c :| c in cols && f == SpecOf(c) && SlugOf(c.name) != "";
    GuessIsAType(c.name);
    SlugIsAKey(c.name);
    hide TYPES, IsAsciiAlphanumeric;
    TrimIsTrimmed(c.name);
    TrimLeavesTrimmed(f.caption);
    CaptionSlug(c.name);
    if f.key == "url" {
      KeyedUrlIsAUrl(c.name);
      LinkIsNoUrl();
    }
  }

  /** A caption has the key of the name it is trimmed from. */
  lemma CaptionSlug(name: string)
    ensures SlugOf(Trim(name)) == SlugOf(name)
    ensures SlugOf("") == ""
  {
    hide Runs, JoinRuns;
    TrimKeepsRuns(name);
    NoRunsYet("");
  }

  lemma LinkIsNoUrl()
    ensures SlugOf("Link") != "url"
  {
    hide SlugOf;
    if SlugOf("Link") == "url" {
      SlugIsAWord("Link", "url");
      hide Contains, Lower;
      LinkHasNoUrl();
    }
  }

  lemma LinkHasNoUrl()
    ensures !Contains(Lower("Link"), "url")
  {
    forall i: nat | i <= 4
      ensures !ContainsAt(Lower("Link"), "url", i)
    {
      NotAt(Lower("Link"), "url", i, 0);
    }
  }

  lemma UrlIsAKey()
    ensures IsKeyForm("url") && LINK.key == "url" && LINK.ftype in TYPES && LINK.role == ""
  {
  }

  lemma WithLinkIsPrepared(cols: seq<ColumnRequest>)
    requires Specs(cols) != []
    ensures Prepared(WithLink(Specs(cols)), UrlKey(Specs(cols)))
  {
    hide Specs, IsKeyForm, Typed, IsFrom;
    var specs := Specs(cols);
    SpecsAreDistinct(cols);
    forall i | 0 <= i < |specs|
      ensures IsKeyForm(specs[i].key) && specs[i].ftype in TYPES && specs[i].role == ""
      ensures specs[i].key == "url" ==> specs[i].ftype == "url"
      ensures Typed(specs[i], "url") <==> specs[i].ftype == "url"
    {
      assert specs[i] in specs;
      SpecIsFormed(cols, specs[i]);
      TypedIsEqual(specs[i], "url");
    }
    var u := FirstWhere(specs, TypedUrl);
    var all := WithLink(specs);
    UrlIsAKey();
    if u < |specs| {
      assert all[u].key == UrlKey(specs) && all[u].ftype == "url";
    } else {
      assert all == specs + [LINK] && all[|specs|].key == "url";
      assert forall i :: 0 <= i < |specs| ==> !TypedUrl(specs[i]);
    }
  }

  // ----- The finished schema -----

  /** The column with the link's role. */
  predicate IsTheLink(s: seq<FieldSpec>, u: nat) {
    u < |s| && s[u].role == "url" && forall i :: 0 <= i < |s| && i != u ==> s[i].role != "url"
  }

  predicate AtMostOneTitle(s: seq<FieldSpec>) {
    forall i, j :: 0 <= i < j < |s| ==> s[i].role != "title" || s[j].role != "title"
  }

  lemma RolesAreGivenOnce(all: seq<FieldSpec>, urlKey: string, titleKey: Option<string>)
    requires Prepared(all, urlKey)
    ensures var s := WithRoles(all, urlKey, titleKey);
            && DistinctKeys(s) && AtMostOneTitle(s)
            && (exists u: nat :: IsTheLink(s, u) && s[u].key == urlKey)
            && forall i :: 0 <= i < |s| ==> s[i].role in {"", "url", "title"}
  {
    hide IsKeyForm, TYPES;
    var s := WithRoles(all, urlKey, titleKey);
    var u :| 0 <= u < |all| && all[u].key == urlKey && all[u].ftype == "url";
    assert IsTheLink(s, u);
  }

  /** The mapping over a schema with one link takes the row's identity and its link from that column. */
  lemma LinkIsTheKey(s: seq<FieldSpec>, u: nat)
    requires IsTheLink(s, u) && forall i :: 0 <= i < |s| ==> s[i].role in {"", "url", "title"}
    ensures NewMapping(s).keyField == s[u].key && NewMapping(s).urlField == s[u].key
  {
    forall i | 0 <= i < |s|
      ensures !IsKey(s[i]) && (IsUrl(s[i]) <==> i == u)
    {
      RolesCompare(s[i]);
    }
    hide Is, Typed;
    assert FirstWhere(s, IsUrl) == u;
    assert Pick(s, IsKey) == None && Pick(s, IsUrl) == Some(s[u].key);
  }

  lemma {:induction false} SpecsAreEmpty(cols: seq<ColumnRequest>)
    ensures Specs(cols) == [] <==> forall c <- cols :: SlugOf(c.name) == ""
  {
    SpecsAreDistinct(cols);
    hide SlugOf;
    if Specs(cols) != [] {
      var f := Specs(cols)[0];
      assert f in Specs(cols) && IsFrom(cols, f);
    }
  }

  /** Whatever columns are typed, if one has a usable name the schema runs: its keys are distinct and well formed,
      exactly one column is the link and it is what the mapping identifies rows by, at most one is the title. */
  lemma SchemaIsRunnable(cols: seq<ColumnRequest>)
    ensures SchemaOf(cols) == [] <==> forall c <- cols :: SlugOf(c.name) == ""
    ensures var s := SchemaOf(cols);
            s != [] ==>
              && DistinctKeys(s)
              && (forall i :: 0 <= i < |s| ==> IsKeyForm(s[i].key))
              && AtMostOneTitle(s)
              && exists u: nat :: IsTheLink(s, u) && NewMapping(s).keyField == NewMapping(s).urlField == s[u].key
  {
    hide Specs, SlugOf, IsKeyForm, FirstWhere, Typed, NewMapping, WithLink, UrlKey, Pick, TYPES;
    SpecsAreEmpty(cols);
    if Specs(cols) != [] {
      WithLinkIsPrepared(cols);
      var all, urlKey := WithLink(Specs(cols)), UrlKey(Specs(cols));
      RolesAreGivenOnce(all, urlKey, Pick(all, Wordy(urlKey)));
      var s := SchemaOf(cols);
      var u: nat :| IsTheLink(s, u) && s[u].key == urlKey;
      LinkIsTheKey(s, u);
    }
  }

  // ----- What the person gets back -----

  predicate IsInternal(f: FieldSpec) {
    f.marked || (f.key == "url" && f.caption == "Link" && Typed(f, "url") && f.role == "url")
  }

  /** The columns a plan outputs: its schema without the internal ones. */
  function OutputColumns(schema: seq<FieldSpec>): seq<FieldSpec> {
    if schema == [] then []
    else
      OutputColumns(schema[..|schema| - 1])
      + if IsInternal(schema[|schema| - 1]) then [] else [schema[|schema| - 1]]
  }

  lemma {:induction false} NoneHidden(schema: seq<FieldSpec>)
    requires forall i :: 0 <= i < |schema| ==> !IsInternal(schema[i])
    ensures OutputColumns(schema) == schema
  {
    hide IsInternal;
    if schema != [] {
      NoneHidden(schema[..|schema| - 1]);
    }
  }

  /** The columns output are exactly those typed, in the order typed: none is taken for the internal link, not even
      one keyed `url` or headed `Link`, and an appended link is always hidden. */
  lemma TypedColumnsAreTheOutput(cols: seq<ColumnRequest>)
    ensures var out, specs := OutputColumns(SchemaOf(cols)), Specs(cols);
            && |out| == |specs|
            && forall i :: 0 <= i < |out| ==> out[i] == specs[i].(role := out[i].role)
  {
    hide Specs, Pick, UrlKey, IsKeyForm, TYPES, Trim, RoleFor;
    var s, specs := SchemaOf(cols), Specs(cols);
    SpecsAreDistinct(cols);
    if specs != [] {
      var typed := s[..|specs|];
      forall i | 0 <= i < |typed|
        ensures !IsInternal(typed[i])
      {
        assert specs[i] in specs;
        SpecIsFormed(cols, specs[i]);
      }
      NoneHidden(typed);
      if |s| > |specs| {
        assert s[..|s| - 1] == typed && IsInternal(s[|s| - 1]);
      } else {
        assert s == typed;
      }
    }
  }
}
