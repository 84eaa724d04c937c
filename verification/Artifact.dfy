/** Custom artifacts: a scraped row under a plan's columns, and the identity it keeps through enrichment
    (cmd/src/artifact.rs, and the enrich and store stages of cmd/src/pipeline.rs). */
module Artifact {
  import opened Text
  import opened Json
  import opened Normalize
  import opened Multiline
  import opened Storing
  import T = Template
  import P = Passes

  type Ctx = T.Ctx

  /** A column of a plan; the numeric limits are the scrape filter's business. */
  datatype FieldSpec = FieldSpec(
    key: string, caption: string, ftype: string, role: string, marked: bool, note: string)

  predicate Is(f: FieldSpec, role: string) {
    EqualsIgnoringCase(f.role, role)
  }

  predicate Typed(f: FieldSpec, t: string) {
    EqualsIgnoringCase(f.ftype, t)
  }

  /** What `parse::<f64>` made of a number's text. */
  datatype Parsed = NotANumber | NotFinite | Finite(text: string)

  /** The library functions a mapping calls; the results hold for any. */
  datatype Library = Library(
    nfc: string -> string, show: Value -> string, number: string -> Parsed)

  datatype Artifact = Artifact(
    sourceKey: string, title: string, url: string, fields: map<string, Value>, metadata: Ctx)

  // ----- Choosing the special columns -----

  function FirstWhere(schema: seq<FieldSpec>, pred: FieldSpec -> bool): (i: nat)
    ensures i <= |schema|
    ensures i < |schema| ==> pred(schema[i])
    ensures forall j :: 0 <= j < i ==> !pred(schema[j])
  {
    if schema == [] || pred(schema[0]) then 0 else 1 + FirstWhere(schema[1..], pred)
  }

  /** The key of the first column that will do. */
  function Pick(schema: seq<FieldSpec>, pred: FieldSpec -> bool): Option<string> {
    var i := FirstWhere(schema, pred);
    if i < |schema| then Some(schema[i].key) else None
  }

  function Else<A>(a: Option<A>, b: Option<A>): Option<A> {
    if a.Some? then a else b
  }

  function FirstKey(schema: seq<FieldSpec>): Option<string> {
    if schema == [] then None else Some(schema[0].key)
  }

  function Or(a: Option<string>, default: string): string {
    if a.Some? then a.value else default
  }

  datatype ArtifactMapping = ArtifactMapping(
    schema: seq<FieldSpec>, keyField: string, titleField: string, urlField: string)

  const IsKey: FieldSpec -> bool := f => Is(f, "key")
  const IsUrl: FieldSpec -> bool := f => Is(f, "url")
  const IsTitle: FieldSpec -> bool := f => Is(f, "title")
  const TypedUrl: FieldSpec -> bool := f => Typed(f, "url")
  const TypedText: FieldSpec -> bool := f => Typed(f, "text")

  function NewMapping(schema: seq<FieldSpec>): ArtifactMapping {
    ArtifactMapping(
      schema,
      Or(Else(Else(Else(Pick(schema, IsKey), Pick(schema, IsUrl)), Pick(schema, TypedUrl)), FirstKey(schema)), ""),
      Or(Else(Else(Pick(schema, IsTitle), Pick(schema, TypedText)), FirstKey(schema)), ""),
      Or(Else(Pick(schema, IsUrl), Pick(schema, TypedUrl)), ""))
  }

  /** A plan whose columns all have names has a column to tell its rows apart by. */
  lemma KeyFieldIsAColumn(schema: seq<FieldSpec>)
    requires schema != [] && forall f <- schema :: f.key != ""
    ensures NewMapping(schema).keyField != ""
    ensures exists f <- schema :: f.key == NewMapping(schema).keyField
  {
    hide FirstWhere;
    forall pred: FieldSpec -> bool | Pick(schema, pred).Some?
      ensures exists f <- schema :: f.key == Pick(schema, pred).value
    {
      assert schema[FirstWhere(schema, pred)] in schema;
    }
    assert schema[0] in schema;
    hide Pick;
  }

  // ----- Mapping a row -----

  /** A scraped value as text; only a string is trimmed. */
  function ValStr(lib: Library, row: Ctx, key: string): string {
    if key in row && row[key].Str? then Trim(row[key].s) else T.ValueText(lib.show, T.Lookup(row, key))
  }

  function Coerced(lib: Library, f: FieldSpec, raw: string): Value {
    if Typed(f, "number") || Typed(f, "money") then
      match lib.number(raw)
      case NotANumber => Str(Cleanse(lib.nfc, raw))
      case NotFinite => Str(raw)
      case Finite(text) => Number(text)
    else if Typed(f, "longtext") then Str(CleansedLines(lib.nfc, raw))
    else Str(Cleanse(lib.nfc, raw))
  }

  /** The columns' values; of two columns with one key, the later. */
  function Fields(lib: Library, schema: seq<FieldSpec>, row: Ctx): map<string, Value> {
    if schema == [] then map[]
    else
      var f := schema[|schema| - 1];
      Fields(lib, schema[..|schema| - 1], row)[f.key := Coerced(lib, f, ValStr(lib, row, f.key))]
  }

  function KeyOf(lib: Library, m: ArtifactMapping, row: Ctx): string {
    CleanseKey(lib.nfc, ValStr(lib, row, m.keyField))
  }

  /** The artifact a row is, or None when its key comes out empty. */
  function Map(lib: Library, m: ArtifactMapping, row: Ctx): Option<Artifact> {
    if KeyOf(lib, m, row) == "" then None
    else
      Some(Artifact(
             KeyOf(lib, m, row), Cleanse(lib.nfc, ValStr(lib, row, m.titleField)),
             Cleanse(lib.nfc, ValStr(lib, row, m.urlField)), Fields(lib, m.schema, row), row))
  }

  function LockKey(m: ArtifactMapping, row: Ctx, original: string): Ctx {
    if m.keyField == "" || original == "" then row else row[m.keyField := Str(original)]
  }

  // ----- The enrich stage -----

  /** A queued row with what it last mapped to. */
  datatype Item = Item(row: Ctx, a: Artifact)

  /** One item after enrichment left `enriched` as its row. */
  function Enriched(lib: Library, m: ArtifactMapping, item: Item, enriched: Ctx): Item {
    var row := LockKey(m, enriched, item.a.sourceKey);
    var a := Map(lib, m, row);
    Item(row, if a.Some? then a.value else item.a)
  }

  /** The queue as the scrape left it: every item mapped from its own row. */
  predicate AsScraped(lib: Library, m: ArtifactMapping, queue: seq<Item>) {
    forall i :: 0 <= i < |queue| ==> Map(lib, m, queue[i].row) == Some(queue[i].a)
  }

  /** The queue after the whole stage. */
  function EnrichedAll(lib: Library, m: ArtifactMapping, queue: seq<Item>, enrichOn: bool, enriched: seq<Ctx>)
    : (after: seq<Item>)
    requires |enriched| == |queue|
    ensures |after| == |queue|
    ensures forall i :: 0 <= i < |queue| ==>
              after[i] == if enrichOn then Enriched(lib, m, queue[i], enriched[i]) else queue[i]
  {
    seq(|queue|, i requires 0 <= i < |queue| =>
          if enrichOn then Enriched(lib, m, queue[i], enriched[i]) else queue[i])
  }

  /** Artifacts are written whatever they are called. */
  function AsQueued(queue: seq<Item>): (rows: seq<Queued>)
    ensures |rows| == |queue|
    ensures forall i :: 0 <= i < |queue| ==> rows[i] == Queued(queue[i].a.sourceKey, true)
  {
    seq(|queue|, i requires 0 <= i < |queue| => Queued(queue[i].a.sourceKey, true))
  }

  /** Row by row, in place: enrich, put the key back, map again, write. `enriched` is what each enrichment left of its
      row, `accepts` what the store says to each write; the first refusal ends the stage. */
  method EnrichAndStore(lib: Library, m: ArtifactMapping, queue: array<Item>, enrichOn: bool, enriched: seq<Ctx>,
                        accepts: seq<bool>)
    returns (result: StoreResult)
    requires |enriched| == |accepts| == queue.Length
    modifies queue
    ensures var after := EnrichedAll(lib, m, old(queue[..]), enrichOn, enriched);
            && result == Stored(AsQueued(after), accepts)
            && forall i :: 0 <= i < queue.Length ==> queue[i] == if i < result.seen then after[i] else old(queue[i])
  {
    hide Enriched, Map, LockKey, Stored;
    ghost var after := EnrichedAll(lib, m, queue[..], enrichOn, enriched);
    ghost var rows := AsQueued(after);
    var keys: seq<string> := [];
    NothingStored(rows, accepts);
    for i := 0 to queue.Length
      invariant StoreResult(keys, false, i) == Stored(rows[..i], accepts[..i])
      invariant forall j :: 0 <= j < queue.Length ==> queue[j] == if j < i then after[j] else old(queue[j])
    {
      if enrichOn {
        EnrichedMeans(lib, m, queue[i], enriched[i]);
        var row := LockKey(m, enriched[i], queue[i].a.sourceKey);
        var a := Map(lib, m, row);
        queue[i] := Item(row, if a.Some? then a.value else queue[i].a);
      }
      StoredStep(rows, accepts, i);
      if !accepts[i] {
        RefusalIsFinal(rows, accepts, i + 1);
        return StoreResult(keys, true, i + 1);
      }
      keys := keys + [queue[i].a.sourceKey];
    }
    assert rows[..queue.Length] == rows && accepts[..queue.Length] == accepts;
    result := StoreResult(keys, false, queue.Length);
  }

  lemma NothingStored(rows: seq<Queued>, accepts: seq<bool>)
    requires |rows| == |accepts|
    ensures Stored(rows[..0], accepts[..0]) == StoreResult([], false, 0)
  {
  }

  lemma EnrichedMeans(lib: Library, m: ArtifactMapping, item: Item, enriched: Ctx)
    ensures var row := LockKey(m, enriched, item.a.sourceKey);
            var a := Map(lib, m, row);
            Enriched(lib, m, item, enriched) == Item(row, if a.Some? then a.value else item.a)
  {
  }

  // ----- Identity -----

  /** A locked row maps to its own key cleansed once more, whatever else enrichment wrote. */
  lemma LockedKeyIsCleansedAgain(lib: Library, m: ArtifactMapping, scraped: Ctx, enriched: Ctx)
    requires m.keyField != "" && Map(lib, m, scraped).Some?
    ensures var key := Map(lib, m, scraped).value.sourceKey;
            KeyOf(lib, m, LockKey(m, enriched, key)) == CleanseKey(lib.nfc, key)
  {
    hide Scrubbed, Fields;
    ScrubbedIsTrimmed(lib.nfc(ValStr(lib, scraped, m.keyField)), false);
    TrimLeavesTrimmed(Map(lib, m, scraped).value.sourceKey);
  }

  /** What enrichment can do to a stored key, exactly. Where composing the scrape-time key leaves it scrubbed,
      the key survives precisely when composing leaves it alone. */
  lemma EnrichmentCannotRename(lib: Library, m: ArtifactMapping, item: Item, enriched: Ctx)
    requires m.keyField != "" && Map(lib, m, item.row) == Some(item.a)
    ensures var key := item.a.sourceKey;
            var again := CleanseKey(lib.nfc, key);
            && Enriched(lib, m, item, enriched).a.sourceKey == (if again == "" then key else again)
            && (lib.nfc(key) == key ==> again == key)
            && (Scrubbed(lib.nfc(key), false) == lib.nfc(key) && lib.nfc(key) != "" ==>
                  (Enriched(lib, m, item, enriched).a.sourceKey == key <==> lib.nfc(key) == key))
  {
    LockedKeyIsCleansedAgain(lib, m, item.row, enriched);
    ScrubIsIdempotent(lib.nfc(ValStr(lib, item.row, m.keyField)), false);
    hide Scrubbed, Fields, ValStr;
  }

  /** It is not always left alone: a zero-width space between a letter and its accent is gone from the scraped key,
      and composing what is left makes another key of it. */
  lemma EnrichmentCanRename(lib: Library, m: ArtifactMapping, item: Item, enriched: Ctx)
    requires m.keyField != "" && Map(lib, m, item.row) == Some(item.a)
    requires m.keyField in item.row && item.row[m.keyField] == Str("e\U{200B}\U{0301}")
    requires lib.nfc("e\U{200B}\U{0301}") == "e\U{200B}\U{0301}" && lib.nfc("e\U{0301}") == "\U{00E9}"
    ensures item.a.sourceKey == "e\U{0301}"
    ensures Enriched(lib, m, item, enriched).a.sourceKey == "\U{00E9}"
  {
    hide Scrubbed, Fields;
    TrimLeavesTrimmed("e\U{200B}\U{0301}");
    CleanseKeyCanMove(lib.nfc);
    LockedKeyIsCleansedAgain(lib, m, item.row, enriched);
  }

  /** A key and the column it came from cleanse to the same display form exactly when composing the key changes nothing
      but punctuation that is folded anyway. */
  lemma KeyAndColumnAgree(lib: Library, m: ArtifactMapping, row: Ctx)
    requires Map(lib, m, row).Some?
    requires ComposesClean(lib.nfc, Map(lib, m, row).value.sourceKey, false)
    ensures var key := Map(lib, m, row).value.sourceKey;
            Cleanse(lib.nfc, key) == Cleanse(lib.nfc, ValStr(lib, row, m.keyField))
            <==> FoldAll(lib.nfc(key), true) == FoldAll(key, true)
  {
    CleanseOfKey(lib.nfc, ValStr(lib, row, m.keyField));
    hide Scrubbed, Fields, ValStr;
  }

  /** Locking a row changes nothing but its key: every other column keeps what enrichment wrote there. */
  lemma {:induction false} LockingTouchesOnlyTheKey(lib: Library, m: ArtifactMapping, row: Ctx, original: string,
                                                    schema: seq<FieldSpec>, key: string)
    requires key != m.keyField
    ensures key in Fields(lib, schema, row) <==> key in Fields(lib, schema, LockKey(m, row, original))
    ensures key in Fields(lib, schema, row) ==>
              Fields(lib, schema, LockKey(m, row, original))[key] == Fields(lib, schema, row)[key]
    decreases |schema|
  {
    hide Coerced;
    if schema != [] {
      LockingTouchesOnlyTheKey(lib, m, row, original, schema[..|schema| - 1], key);
    }
  }

  /** The identities of a queue, in order. */
  function KeysOf(queue: seq<Item>): (keys: seq<string>)
    ensures |keys| == |queue| && forall i :: 0 <= i < |queue| ==> keys[i] == queue[i].a.sourceKey
  {
    seq(|queue|, i requires 0 <= i < |queue| => queue[i].a.sourceKey)
  }

  /** What enrichment makes of a scraped key: the key cleansed once more, or itself where nothing would be left of
      it. */
  function Again(nfc: string -> string, key: string): string {
    var again := CleanseKey(nfc, key);
    if again == "" then key else again
  }

  /** The keys a queue is stored under, whatever its enrichments wrote. */
  function KeysAfter(nfc: string -> string, queue: seq<Item>, enrichOn: bool): (keys: seq<string>)
    ensures |keys| == |queue|
    ensures forall i :: 0 <= i < |queue| ==>
              keys[i] == if enrichOn then Again(nfc, queue[i].a.sourceKey) else queue[i].a.sourceKey
  {
    seq(|queue|, i requires 0 <= i < |queue| =>
          if enrichOn then Again(nfc, queue[i].a.sourceKey) else queue[i].a.sourceKey)
  }

  lemma EnrichedKeys(lib: Library, m: ArtifactMapping, queue: seq<Item>, enrichOn: bool, enriched: seq<Ctx>)
    requires m.keyField != "" && AsScraped(lib, m, queue) && |queue| == |enriched|
    ensures KeysOf(EnrichedAll(lib, m, queue, enrichOn, enriched)) == KeysAfter(lib.nfc, queue, enrichOn)
  {
    if enrichOn {
      forall i | 0 <= i < |queue|
        ensures Enriched(lib, m, queue[i], enriched[i]).a.sourceKey == Again(lib.nfc, queue[i].a.sourceKey)
      {
        EnrichmentCannotRename(lib, m, queue[i], enriched[i]);
      }
    }
    hide Map, Enriched, Scrubbed, Again;
  }

  /** A key that was made by cleansing is made again exactly when composing leaves it alone, where composing leaves it
      scrubbed; and always when composing leaves it alone. */
  lemma AgainExactly(nfc: string -> string, raw: string)
    ensures var key := CleanseKey(nfc, raw);
            && (IsComposed(nfc, key) ==> Again(nfc, key) == key)
            && (ComposesClean(nfc, key, false) && Again(nfc, key) == key ==> IsComposed(nfc, key))
  {
    ScrubIsIdempotent(nfc(raw), false);
    hide Scrubbed;
  }

  /** So the keys of an enriched queue are the scrape-time keys, in order, if and only if each of them is made again. */
  lemma EnrichmentKeepsTheKeys(lib: Library, m: ArtifactMapping, queue: seq<Item>, enriched: seq<Ctx>)
    requires m.keyField != "" && AsScraped(lib, m, queue) && |queue| == |enriched|
    ensures KeysOf(EnrichedAll(lib, m, queue, true, enriched)) == KeysOf(queue)
       <==> forall key <- KeysOf(queue) :: Again(lib.nfc, key) == key
    ensures (forall key <- KeysOf(queue) :: IsComposed(lib.nfc, key)) ==>
              forall key <- KeysOf(queue) :: Again(lib.nfc, key) == key
  {
    EnrichedKeys(lib, m, queue, true, enriched);
    forall i | 0 <= i < |queue|
      ensures IsComposed(lib.nfc, KeysOf(queue)[i]) ==> Again(lib.nfc, KeysOf(queue)[i]) == KeysOf(queue)[i]
    {
      AgainExactly(lib.nfc, ValStr(lib, queue[i].row, m.keyField));
    }
    hide AsScraped, EnrichedAll, Again;
    assert forall i :: 0 <= i < |queue| ==> KeysOf(queue)[i] in KeysOf(queue);
  }

  /** What the stage writes, exactly: a front part of those keys in order, all of them unless the store refuses one.
      They are the scrape-time keys if and only if each one written is made again. */
  lemma StoredKeysAreScraped(lib: Library, m: ArtifactMapping, queue: seq<Item>, enrichOn: bool, enriched: seq<Ctx>,
                             accepts: seq<bool>)
    requires m.keyField != "" && AsScraped(lib, m, queue) && |queue| == |enriched| == |accepts|
    ensures var result := Stored(AsQueued(EnrichedAll(lib, m, queue, enrichOn, enriched)), accepts);
            && result.keys <= KeysAfter(lib.nfc, queue, enrichOn)
            && (!result.failed ==> result.keys == KeysAfter(lib.nfc, queue, enrichOn))
            && (result.keys <= KeysOf(queue) <==>
                  !enrichOn || forall i :: 0 <= i < |result.keys| ==> IsMadeAgain(lib.nfc, queue[i].a.sourceKey))
  {
    var after := EnrichedAll(lib, m, queue, enrichOn, enriched);
    EnrichedKeys(lib, m, queue, enrichOn, enriched);
    StoredAreNamed(AsQueued(after), accepts);
    AllAreNamed(after);
    hide AsScraped, Enriched, EnrichedAll, Stored, Again, NamedKeys, AsQueued, KeysOf, KeysAfter;
    FrontParts(Stored(AsQueued(after), accepts).keys, KeysAfter(lib.nfc, queue, enrichOn), KeysOf(queue));
  }

  predicate IsMadeAgain(nfc: string -> string, key: string) {
    Again(nfc, key) == key
  }

  lemma FrontParts(keys: seq<string>, a: seq<string>, b: seq<string>)
    requires keys <= a && |a| == |b|
    ensures keys <= b <==> forall i :: 0 <= i < |keys| ==> a[i] == b[i]
  {
    assert forall i :: 0 <= i < |keys| ==> keys[i] == a[i];
    if forall i :: 0 <= i < |keys| ==> a[i] == b[i] {
      assert keys == b[..|keys|];
    }
  }

  lemma {:induction false} AllAreNamed(queue: seq<Item>)
    ensures NamedKeys(AsQueued(queue)) == KeysOf(queue)
  {
    if queue != [] {
      var n := |queue| - 1;
      AllAreNamed(queue[..n]);
      assert AsQueued(queue)[..n] == AsQueued(queue[..n]);
      assert KeysOf(queue) == KeysOf(queue[..n]) + [queue[n].a.sourceKey];
    }
  }

  /** The dedupe stage's view of a scraped row. */
  function AsRow(lib: Library, m: ArtifactMapping, row: Ctx, wanted: bool): P.Row {
    var a := Map(lib, m, row);
    P.Row(if a.Some? then Some(a.value.sourceKey) else None, wanted, true, P.Stored)
  }

  /** A queue as the dedupe stage leaves it: every item kept against the snapshot. */
  ghost predicate AreKept(lib: Library, m: ArtifactMapping, opts: P.PassOptions, known: set<string>, rows: seq<P.Row>,
                          queue: seq<Item>) {
    forall i :: 0 <= i < |queue| ==>
      exists wanted :: AsRow(lib, m, queue[i].row, wanted) in P.Kept(opts, known, rows)
  }

  /** Whether the stage writes over a row that was stored before the pass, exactly: nothing it writes was known if and
      only if no key of the part written, made again, is a known one. Without enrichment, and wherever the scraped keys
      are made again as they were, nothing is. */
  lemma StoredKeysAreNew(lib: Library, m: ArtifactMapping, opts: P.PassOptions, known: set<string>,
                         rows: seq<P.Row>, queue: seq<Item>, enrichOn: bool, enriched: seq<Ctx>, accepts: seq<bool>)
    requires m.keyField != "" && opts.kind.Artifacts? && AsScraped(lib, m, queue)
    requires |queue| == |enriched| == |accepts| && AreKept(lib, m, opts, known, rows, queue)
    ensures var keys := Stored(AsQueued(EnrichedAll(lib, m, queue, enrichOn, enriched)), accepts).keys;
            && |keys| <= |queue|
            && ((forall key <- keys :: key !in known) <==>
                  !enrichOn || forall i :: 0 <= i < |keys| ==> IsNewAgain(lib.nfc, known, queue[i].a.sourceKey))
            && ((forall i :: 0 <= i < |keys| ==> IsMadeAgain(lib.nfc, queue[i].a.sourceKey)) ==>
                  forall key <- keys :: key !in known)
  {
    hide Map, Enriched, EnrichedAll, Stored, Again;
    KeptAreNew(lib, m, opts, known, rows, queue);
    StoredKeysAreScraped(lib, m, queue, enrichOn, enriched, accepts);
    hide AsScraped, AreKept;
    var keys := Stored(AsQueued(EnrichedAll(lib, m, queue, enrichOn, enriched)), accepts).keys;
    assert forall i :: 0 <= i < |keys| ==> keys[i] == KeysAfter(lib.nfc, queue, enrichOn)[i];
    assert forall i :: 0 <= i < |keys| ==> keys[i] in keys;
  }

  predicate IsNewAgain(nfc: string -> string, known: set<string>, key: string) {
    Again(nfc, key) !in known
  }

  lemma KeptAreNew(lib: Library, m: ArtifactMapping, opts: P.PassOptions, known: set<string>, rows: seq<P.Row>,
                   queue: seq<Item>)
    requires AsScraped(lib, m, queue) && AreKept(lib, m, opts, known, rows, queue)
    ensures forall i :: 0 <= i < |queue| ==> queue[i].a.sourceKey !in known
  {
    hide Map;
    P.KeptRowsAreNew(opts, known, rows);
    forall i | 0 <= i < |queue|
      ensures queue[i].a.sourceKey !in known
    {
      var wanted :| AsRow(lib, m, queue[i].row, wanted) in P.Kept(opts, known, rows);
    }
  }

  /** It can happen: a composed key is known, a scraped one comes apart at a zero-width space and passes for new, and
      what the stage writes is the known row. */
  lemma KnownRowIsWrittenOver(lib: Library, m: ArtifactMapping, opts: P.PassOptions, item: Item, enriched: Ctx)
    requires m.keyField != "" && opts.kind.Artifacts? && Map(lib, m, item.row) == Some(item.a)
    requires m.keyField in item.row && item.row[m.keyField] == Str("e\U{200B}\U{0301}")
    requires lib.nfc("e\U{200B}\U{0301}") == "e\U{200B}\U{0301}" && lib.nfc("e\U{0301}") == "\U{00E9}"
    ensures var known := {"\U{00E9}"};
            && AreKept(lib, m, opts, known, [AsRow(lib, m, item.row, true)], [item])
            && Stored(AsQueued(EnrichedAll(lib, m, [item], true, [enriched])), [true]).keys == ["\U{00E9}"]
  {
    hide Map, Enriched, P.Kept, Stored, EnrichedAll, AsQueued, KeysOf, NamedKeys;
    EnrichmentCanRename(lib, m, item, enriched);
    OneKeptRow(opts, {"\U{00E9}"}, AsRow(lib, m, item.row, true));
    OneStored(EnrichedAll(lib, m, [item], true, [enriched]));
  }

  lemma OneStored(after: seq<Item>)
    requires |after| == 1
    ensures Stored(AsQueued(after), [true]).keys == [after[0].a.sourceKey]
  {
    StoredAreNamed(AsQueued(after), [true]);
    AllAreNamed(after);
  }

  lemma OneKeptRow(opts: P.PassOptions, known: set<string>, row: P.Row)
    requires opts.kind.Artifacts? && row.key.Some? && row.key.value !in known && row.wanted
    ensures row in P.Kept(opts, known, [row])
  {
    assert [row][..0] == [];
  }
}
