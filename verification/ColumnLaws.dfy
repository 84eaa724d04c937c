/** What a typed column becomes: its caption, its note, its type, and which columns are the link and the title
    (cmd/src/artifact.rs). */
module ColumnLaws {
  import opened Text
  import opened Artifact
  import opened Slugs
  import opened Columns

  // ----- One column -----

  /** The prompt without the white space around it, or its first 2000 characters. */
  predicate IsNoteOf(note: string, prompt: string) {
    note <= Trim(prompt) && |note| <= 2000 && (|note| < 2000 ==> note == Trim(prompt))
  }

  predicate IsColumnOf(f: FieldSpec, c: ColumnRequest) {
    && f.key == SlugOf(c.name) && f.caption == Trim(c.name) && f.ftype == GuessType(c.name)
    && IsNoteOf(f.note, c.prompt) && f.role == "" && !f.marked
  }

  /** Each column is one request's: the first whose name comes out as its key. */
  lemma ColumnsAreRequests(cols: seq<ColumnRequest>, k: nat)
    requires k < |cols| && SlugOf(cols[k].name) != ""
    requires forall j :: 0 <= j < k ==> SlugOf(cols[j].name) != SlugOf(cols[k].name)
    ensures exists f <- Specs(cols) :: IsColumnOf(f, cols[k])
    ensures forall f <- Specs(cols) :: f.key == SlugOf(cols[k].name) ==> IsColumnOf(f, cols[k])
  {
    hide SlugOf, GuessType, Trim, Specs, DistinctKeys, IsFrom, HasKey;
    FirstColumnWins(cols, k);
    SpecsAreDistinct(cols);
    SpecIsItsColumn(cols[k]);
    hide SpecOf, IsColumnOf;
    assert SpecOf(cols[k]).key == SlugOf(cols[k].name);
    forall f | f in Specs(cols) && f.key == SlugOf(cols[k].name)
      ensures f == SpecOf(cols[k])
    {
      OneOfAKey(Specs(cols), f, SpecOf(cols[k]));
    }
  }

  lemma SpecIsItsColumn(c: ColumnRequest)
    ensures IsColumnOf(SpecOf(c), c) && SpecOf(c).key == SlugOf(c.name)
  {
    hide SlugOf, GuessType, Trim;
  }

  lemma OneOfAKey(specs: seq<FieldSpec>, f: FieldSpec, g: FieldSpec)
    requires DistinctKeys(specs) && f in specs && g in specs && f.key == g.key
    ensures f == g
  {
    var i :| 0 <= i < |specs| && specs[i] == f;
    var j :| 0 <= j < |specs| && specs[j] == g;
  }

  // ----- The guessed type -----

  /** One of the words stands in the name, in any case. */
  ghost predicate Mentions(name: string, words: seq<string>) {
    exists before, word, after: string :: word in words && Lower(name) == before + word + after
  }

  lemma HasIsMentions(name: string, words: seq<string>)
    ensures Has(Lower(name), words) <==> Mentions(name, words)
  {
    forall word: string
      ensures Contains(Lower(name), word) <==> exists before, after: string :: Lower(name) == before + word + after
    {
      ContainedIsBetween(Lower(name), word);
    }
    hide Contains, Lower;
  }

  /** A name that mentions a link is one; money, dates, numbers and long text are guessed in that order behind it, and
      anything else is text. */
  lemma GuessMeans(name: string)
    ensures var t := GuessType(name);
            var link, money, date := Mentions(name, URL_WORDS), Mentions(name, MONEY_WORDS), Mentions(name, DATE_WORDS);
            var number, long := Mentions(name, NUMBER_WORDS), Mentions(name, LONG_WORDS);
            && (t == "url" <==> link)
            && (t == "money" <==> money && !link)
            && (t == "date" <==> date && !link && !money)
            && (t == "number" <==> number && !link && !money && !date)
            && (t == "longtext" <==> long && !link && !money && !date && !number)
            && (t == "text" <==> !link && !money && !date && !number && !long)
  {
    HasIsMentions(name, URL_WORDS);
    HasIsMentions(name, MONEY_WORDS);
    HasIsMentions(name, DATE_WORDS);
    HasIsMentions(name, NUMBER_WORDS);
    HasIsMentions(name, LONG_WORDS);
    hide Has, Mentions, Lower, URL_WORDS, MONEY_WORDS, DATE_WORDS, NUMBER_WORDS, LONG_WORDS;
    assert "url" != "money" && "url" != "date" && "url" != "number" && "url" != "longtext" && "url" != "text";
  }

  // ----- The columns put out -----

  /** The link that was appended before columns were marked: exactly this key, caption, type and role. */
  predicate IsOldLink(f: FieldSpec) {
    f.key == "url" && f.caption == "Link" && Lower(f.ftype) == Lower("url") && f.role == "url"
  }

  /** A plan puts out every column of its schema that is neither marked internal nor such a link. */
  lemma {:induction false} OutputIsTheRest(schema: seq<FieldSpec>, f: FieldSpec)
    ensures f in OutputColumns(schema) <==> f in schema && !f.marked && !IsOldLink(f)
  {
    hide Lower;
    if schema != [] {
      var n := |schema| - 1;
      OutputIsTheRest(schema[..n], f);
      assert f in schema <==> f in schema[..n] || f == schema[n];
    }
  }

  // ----- The link and the title -----

  /** The first column that holds links. */
  predicate IsFirstLink(s: seq<FieldSpec>, u: int) {
    0 <= u < |s| && s[u].ftype == "url" && forall j :: 0 <= j < u ==> s[j].ftype != "url"
  }

  predicate IsLinkAt(s: seq<FieldSpec>, u: int, key: string) {
    IsFirstLink(s, u) && s[u].key == key
  }

  predicate HoldsWords(f: FieldSpec) {
    f.ftype == "text" || f.ftype == "longtext"
  }

  /** The first column of words but the link. */
  predicate IsFirstWords(s: seq<FieldSpec>, u: int, i: int) {
    0 <= i < |s| && i != u && HoldsWords(s[i]) && forall j :: 0 <= j < i && j != u ==> !HoldsWords(s[j])
  }

  lemma SpecsAreTyped(cols: seq<ColumnRequest>)
    ensures forall f <- WithLink(Specs(cols)) :: f.ftype in TYPES && f.role == ""
    ensures DistinctKeys(WithLink(Specs(cols))) || Specs(cols) == []
  {
    hide Specs, IsKeyForm, Typed, IsFrom, TYPES, FirstWhere;
    if Specs(cols) != [] {
      WithLinkIsPrepared(cols);
    } else {
      UrlIsAKey();
    }
  }

  lemma TypesCompare(f: FieldSpec)
    requires f.ftype in TYPES
    ensures Typed(f, "url") <==> f.ftype == "url"
    ensures Typed(f, "text") || Typed(f, "longtext") <==> HoldsWords(f)
  {
    TypedIsEqual(f, "url");
    TypedIsEqual(f, "text");
    TypedIsEqual(f, "longtext");
    hide Typed;
  }

  lemma LinkColumn(specs: seq<FieldSpec>)
    requires forall f <- WithLink(specs) :: f.ftype in TYPES
    ensures exists u :: IsLinkAt(WithLink(specs), u, UrlKey(specs))
    ensures (forall f <- specs :: f.ftype != "url") ==> WithLink(specs) == specs + [LINK]
    ensures (exists f <- specs :: f.ftype == "url") ==> WithLink(specs) == specs
  {
    hide Typed, FirstWhere, TYPES;
    var all, u := WithLink(specs), FirstWhere(specs, TypedUrl);
    forall i | 0 <= i < |specs|
      ensures TypedUrl(specs[i]) <==> specs[i].ftype == "url"
    {
      assert specs[i] == all[i] && all[i] in all;
      TypesCompare(specs[i]);
    }
    if u < |specs| {
      assert IsLinkAt(all, u, UrlKey(specs));
      assert specs[u] in specs;
    } else {
      assert IsLinkAt(all, |specs|, UrlKey(specs));
      assert forall i :: 0 <= i < |specs| ==> specs[i].ftype != "url";
    }
  }

  lemma TitleColumn(all: seq<FieldSpec>, u: int)
    requires 0 <= u < |all| && DistinctKeys(all) && forall f <- all :: f.ftype in TYPES
    ensures var title := Pick(all, Wordy(all[u].key));
            forall i :: 0 <= i < |all| ==> (title == Some(all[i].key) <==> IsFirstWords(all, u, i))
  {
    hide Typed, FirstWhere, TYPES;
    var wordy := Wordy(all[u].key);
    forall i | 0 <= i < |all|
      ensures wordy(all[i]) <==> i != u && HoldsWords(all[i])
    {
      assert all[i] in all;
      TypesCompare(all[i]);
    }
    hide HoldsWords, Wordy;
    var t := FirstWhere(all, wordy);
  }

  lemma RolesKeepTypes(all: seq<FieldSpec>, urlKey: string, titleKey: Option<string>, u: int, i: int)
    ensures var s := WithRoles(all, urlKey, titleKey);
            && (IsFirstLink(s, u) <==> IsFirstLink(all, u)) && (IsFirstWords(s, u, i) <==> IsFirstWords(all, u, i))
  {
    hide RoleFor;
    var s := WithRoles(all, urlKey, titleKey);
    assert forall j :: 0 <= j < |s| ==> s[j].ftype == all[j].ftype && HoldsWords(s[j]) == HoldsWords(all[j]);
  }

  /** One column's role, by where it stands. */
  function RoleAt(s: seq<FieldSpec>, u: int, i: int): string {
    if i == u then "url" else if IsFirstWords(s, u, i) then "title" else ""
  }

  lemma RolesAre(all: seq<FieldSpec>, u: int)
    requires DistinctKeys(all) && (forall f <- all :: f.ftype in TYPES && f.role == "") && IsFirstLink(all, u)
    ensures var s := WithRoles(all, all[u].key, Pick(all, Wordy(all[u].key)));
            IsFirstLink(s, u) && forall i :: 0 <= i < |s| ==> s[i].role == RoleAt(s, u, i)
  {
    hide TYPES, Pick, Wordy, IsFirstLink, IsFirstWords;
    UIsAColumn(all, u);
    TitleColumn(all, u);
    var title := Pick(all, Wordy(all[u].key));
    var s := WithRoles(all, all[u].key, title);
    RolesKeepTypes(all, all[u].key, title, u, u);
    forall i | 0 <= i < |s|
      ensures s[i].role == RoleAt(s, u, i)
    {
      RolesKeepTypes(all, all[u].key, title, u, i);
      assert all[i] in all;
    }
  }

  lemma UIsAColumn(all: seq<FieldSpec>, u: int)
    requires IsFirstLink(all, u)
    ensures 0 <= u < |all|
  {
  }

  /** The columns with the link there is always one of. */
  function AllColumns(cols: seq<ColumnRequest>): seq<FieldSpec> {
    WithLink(Specs(cols))
  }

  lemma SchemaHasRoles(cols: seq<ColumnRequest>, u: int)
    requires SchemaOf(cols) != [] && IsLinkAt(AllColumns(cols), u, UrlKey(Specs(cols)))
    ensures IsFirstLink(SchemaOf(cols), u)
    ensures forall i :: 0 <= i < |SchemaOf(cols)| ==> SchemaOf(cols)[i].role == RoleAt(SchemaOf(cols), u, i)
    ensures |SchemaOf(cols)| == |AllColumns(cols)|
    ensures forall i :: 0 <= i < |SchemaOf(cols)| ==>
              SchemaOf(cols)[i] == AllColumns(cols)[i].(role := RoleAt(SchemaOf(cols), u, i))
  {
    hide Specs, TYPES, Pick, WithLink, UrlKey, Wordy, IsFirstLink, RoleAt, DistinctKeys, RoleFor;
    UIsAColumn(AllColumns(cols), u);
    SpecsAreTyped(cols);
    RolesAre(AllColumns(cols), u);
  }

  /** The link is the first column that holds links, appended and hidden if none was typed; the title is the first
      column of words but the link, and no other column has a role. */
  lemma LinkAndTitle(cols: seq<ColumnRequest>)
    requires SchemaOf(cols) != []
    ensures var s, specs := SchemaOf(cols), Specs(cols);
            && (if exists f <- specs :: f.ftype == "url" then |s| == |specs|
                else |s| == |specs| + 1 && s[|specs|] == FieldSpec("url", "Link", "url", "url", true, ""))
            && exists u :: IsFirstLink(s, u) && forall i :: 0 <= i < |s| ==> s[i].role == RoleAt(s, u, i)
  {
    hide Specs, TYPES, WithLink, UrlKey, IsFirstLink, RoleAt, SchemaOf;
    SpecsAreTyped(cols);
    LinkColumn(Specs(cols));
    var u :| IsLinkAt(AllColumns(cols), u, UrlKey(Specs(cols)));
    SchemaHasRoles(cols, u);
    if forall f <- Specs(cols) :: f.ftype != "url" {
      AppendedIsTheLink(SchemaOf(cols), AllColumns(cols), u, |Specs(cols)|);
    }
  }

  /** A column that was appended with no link in front of it is the link. */
  lemma AppendedIsTheLink(s: seq<FieldSpec>, all: seq<FieldSpec>, u: int, n: nat)
    requires |s| == |all| == n + 1 && all[n] == LINK
    requires IsFirstLink(s, u) && IsFirstLink(all, u) && (forall i :: 0 <= i < n ==> all[i].ftype != "url")
    requires s[n] == all[n].(role := RoleAt(s, u, n))
    ensures s[n] == FieldSpec("url", "Link", "url", "url", true, "")
  {
    hide IsFirstWords;
  }
}
