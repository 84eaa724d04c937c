/** Which columns are an artifact's key, title and link, and what each column takes from a row
    (cmd/src/artifact.rs). */
module ArtifactFields {
  import opened Text
  import opened Json
  import opened Multiline
  import opened Artifact

  // ----- The special columns -----

  type Wish = FieldSpec -> bool

  function Role(role: string): Wish {
    (f: FieldSpec) => Lower(f.role) == Lower(role)
  }

  function OfType(t: string): Wish {
    (f: FieldSpec) => Lower(f.ftype) == Lower(t)
  }

  const ANY: Wish := (f: FieldSpec) => true

  /** The first column that is as wished. */
  ghost predicate IsFirst(schema: seq<FieldSpec>, wish: Wish, i: int) {
    0 <= i < |schema| && wish(schema[i]) && forall j :: 0 <= j < i ==> !wish(schema[j])
  }

  /** The first column granting the first wish that any column grants; nothing when none grants any. */
  ghost predicate Granted(schema: seq<FieldSpec>, wishes: seq<Wish>, key: string)
    decreases |wishes|
  {
    if wishes == [] then key == ""
    else if exists i :: IsFirst(schema, wishes[0], i) then
      exists i :: IsFirst(schema, wishes[0], i) && key == schema[i].key
    else Granted(schema, wishes[1..], key)
  }

  lemma {:induction false} PickIsFirst(schema: seq<FieldSpec>, wish: Wish)
    ensures Pick(schema, wish).Some? <==> exists i :: IsFirst(schema, wish, i)
    ensures Pick(schema, wish).Some? ==>
              exists i :: IsFirst(schema, wish, i) && Pick(schema, wish).value == schema[i].key
  {
    hide FirstWhere;
    var i := FirstWhere(schema, wish);
    if i < |schema| {
      assert IsFirst(schema, wish, i);
    }
  }

  lemma GrantedBy(schema: seq<FieldSpec>, wish: Wish, more: seq<Wish>, rest: string)
    requires Granted(schema, more, rest)
    ensures Granted(schema, [wish] + more, Or(Pick(schema, wish), rest))
  {
    PickIsFirst(schema, wish);
    hide Pick, IsFirst;
    assert ([wish] + more)[1..] == more && ([wish] + more)[0] == wish;
  }

  /** A wish that means the same picks the same column. */
  lemma {:induction false} PickAlike(schema: seq<FieldSpec>, a: Wish, b: Wish)
    requires forall f :: a(f) <==> b(f)
    ensures Pick(schema, a) == Pick(schema, b)
  {
    FirstAlike(schema, a, b);
  }

  lemma {:induction false} FirstAlike(schema: seq<FieldSpec>, a: Wish, b: Wish)
    requires forall f :: a(f) <==> b(f)
    ensures FirstWhere(schema, a) == FirstWhere(schema, b)
  {
    if schema != [] {
      FirstAlike(schema[1..], a, b);
    }
  }

  lemma FirstOfAny(schema: seq<FieldSpec>)
    ensures FirstKey(schema) == Pick(schema, ANY)
  {
  }

  lemma WishesAreTheirs(schema: seq<FieldSpec>)
    ensures Pick(schema, IsKey) == Pick(schema, Role("key")) && Pick(schema, IsUrl) == Pick(schema, Role("url"))
    ensures Pick(schema, IsTitle) == Pick(schema, Role("title"))
    ensures Pick(schema, TypedUrl) == Pick(schema, OfType("url"))
    ensures Pick(schema, TypedText) == Pick(schema, OfType("text"))
  {
    PickAlike(schema, IsKey, Role("key"));
    PickAlike(schema, IsUrl, Role("url"));
    PickAlike(schema, IsTitle, Role("title"));
    PickAlike(schema, TypedUrl, OfType("url"));
    PickAlike(schema, TypedText, OfType("text"));
  }

  /** The key is the column given that role, else the link's, else the first that holds links, else the first of all;
      the title the one given that role, else the first of text, else the first of all; the link the one given that
      role, else the first that holds links, else none. */
  lemma SpecialColumns(schema: seq<FieldSpec>)
    ensures var m := NewMapping(schema);
            && m.schema == schema
            && Granted(schema, [Role("key"), Role("url"), OfType("url"), ANY], m.keyField)
            && Granted(schema, [Role("title"), OfType("text"), ANY], m.titleField)
            && Granted(schema, [Role("url"), OfType("url")], m.urlField)
  {
    WishesAreTheirs(schema);
    FirstOfAny(schema);
    hide Pick, FirstKey, Role, OfType, ANY;
    var key, url, title := Role("key"), Role("url"), Role("title");
    var typedUrl, typedText, any := OfType("url"), OfType("text"), ANY;
    var first := Or(Pick(schema, any), "");
    assert Granted(schema, [], "");
    GrantedBy(schema, any, [], "");
    assert [any] + [] == [any];
    GrantedBy(schema, typedUrl, [any], first);
    GrantedBy(schema, url, [typedUrl] + [any], Or(Pick(schema, typedUrl), first));
    GrantedBy(schema, key, [url] + ([typedUrl] + [any]), Or(Pick(schema, url), Or(Pick(schema, typedUrl), first)));
    assert [key] + ([url] + ([typedUrl] + [any])) == [key, url, typedUrl, any];
    GrantedBy(schema, typedText, [any], first);
    GrantedBy(schema, title, [typedText] + [any], Or(Pick(schema, typedText), first));
    assert [title] + ([typedText] + [any]) == [title, typedText, any];
    GrantedBy(schema, typedUrl, [], "");
    assert [typedUrl] + [] == [typedUrl];
    GrantedBy(schema, url, [typedUrl], Or(Pick(schema, typedUrl), ""));
    assert [url] + [typedUrl] == [url, typedUrl];
  }

  // ----- What a column takes -----

  /** What a row says under a name: text without the white space around it, numbers and truth values as they are
      written, and nothing for null or a name it does not carry. */
  predicate Says(row: Ctx, name: string, text: string) {
    if name !in row then text == ""
    else
      match row[name]
      case Null => text == ""
      case Str(s) => text == Trim(s)
      case Number(n) => text == n
      case Bool(b) => text == if b then "true" else "false"
      case _ => false
  }

  lemma SaidIsRead(lib: Library, row: Ctx, name: string, text: string)
    requires Says(row, name, text)
    ensures ValStr(lib, row, name) == text
  {
    hide Trim;
  }

  /** A text as a column of that type stores it. */
  predicate StoredAs(lib: Library, f: FieldSpec, text: string, v: Value) {
    if OfType("number")(f) || OfType("money")(f) then
      && (lib.number(text).NotANumber? ==> v == Str(Cleanse(lib.nfc, text)))
      && (lib.number(text).NotFinite? ==> v == Str(text))
      && (lib.number(text).Finite? ==> v == Number(lib.number(text).text))
    else v == Str(if OfType("longtext")(f) then CleansedLines(lib.nfc, text) else Cleanse(lib.nfc, text))
  }

  /** The last of the columns with one key. */
  predicate IsLast(schema: seq<FieldSpec>, i: int) {
    0 <= i < |schema| && forall j :: i < j < |schema| ==> schema[j].key != schema[i].key
  }

  lemma {:induction false} LastColumnDecides(lib: Library, schema: seq<FieldSpec>, row: Ctx, i: int)
    requires IsLast(schema, i)
    ensures schema[i].key in Fields(lib, schema, row)
    ensures Fields(lib, schema, row)[schema[i].key] == Coerced(lib, schema[i], ValStr(lib, row, schema[i].key))
    decreases |schema|
  {
    hide Coerced, ValStr;
    var n := |schema| - 1;
    if i < n {
      LastColumnDecides(lib, schema[..n], row, i);
    }
  }

  lemma {:induction false} FieldsAreColumns(lib: Library, schema: seq<FieldSpec>, row: Ctx, key: string)
    ensures key in Fields(lib, schema, row) <==> exists f <- schema :: f.key == key
    decreases |schema|
  {
    hide Coerced, ValStr;
    if schema != [] {
      var n := |schema| - 1;
      FieldsAreColumns(lib, schema[..n], row, key);
      assert forall f :: f in schema <==> f in schema[..n] || f == schema[n];
    }
  }

  lemma CoercedIsStored(lib: Library, f: FieldSpec, text: string)
    ensures StoredAs(lib, f, text, Coerced(lib, f, text))
  {
    hide Cleanse, CleansedLines, Lower;
  }

  /** A row maps if and only if its key column says something; then the key, the title and the link are what their own
      columns say, cleansed, each column has its own value in its own type, and the row itself is kept with them. */
  lemma EachColumnIsItsOwn(lib: Library, m: ArtifactMapping, row: Ctx, key: string, title: string, url: string)
    requires Says(row, m.keyField, key) && Says(row, m.titleField, title) && Says(row, m.urlField, url)
    ensures Map(lib, m, row).Some? <==> CleanseKey(lib.nfc, key) != ""
    ensures Map(lib, m, row).Some? ==>
              var a := Map(lib, m, row).value;
              && a.sourceKey == CleanseKey(lib.nfc, key)
              && a.title == Cleanse(lib.nfc, title) && a.url == Cleanse(lib.nfc, url)
              && a.fields == Fields(lib, m.schema, row) && a.metadata == row
  {
    SaidIsRead(lib, row, m.keyField, key);
    SaidIsRead(lib, row, m.titleField, title);
    SaidIsRead(lib, row, m.urlField, url);
    hide Cleanse, CleanseKey, ValStr;
  }

  lemma ColumnTakesItsText(lib: Library, m: ArtifactMapping, row: Ctx, i: int, text: string)
    requires Map(lib, m, row).Some? && IsLast(m.schema, i) && Says(row, m.schema[i].key, text)
    ensures var a := Map(lib, m, row).value;
            m.schema[i].key in a.fields && StoredAs(lib, m.schema[i], text, a.fields[m.schema[i].key])
    ensures forall key :: key in Map(lib, m, row).value.fields <==> exists f <- m.schema :: f.key == key
  {
    forall key
      ensures key in Fields(lib, m.schema, row) <==> exists f <- m.schema :: f.key == key
    {
      FieldsAreColumns(lib, m.schema, row, key);
    }
    LastColumnDecides(lib, m.schema, row, i);
    SaidIsRead(lib, row, m.schema[i].key, text);
    CoercedIsStored(lib, m.schema[i], text);
    hide Fields, Coerced, StoredAs, ValStr, IsLast, Says;
  }

  // ----- Locking -----

  /** A locked row says its original key under the key column and what it said under every other name; without a key
      column, or a key, it is left as it is. */
  lemma LockedRowSays(m: ArtifactMapping, row: Ctx, original: string, name: string)
    ensures var locked := LockKey(m, row, original);
            var isKey := name == m.keyField && m.keyField != "" && original != "";
            && (name in locked <==> name in row || isKey)
            && (name in locked ==> locked[name] == if isKey then Str(original) else row[name])
  {
  }
}
