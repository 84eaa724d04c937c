/** The enrich and store stages of a prospect run (cmd/src/pipeline.rs). */
module Prospects {
  import opened Text
  import opened Mapping
  import opened Storing
  import T = Template
  import P = Passes

  type Ctx = T.Ctx

  /** A queued row with what it last mapped to. */
  datatype Item = Item(row: Ctx, p: Prospect)

  /** One item after enrichment left `enriched` as its row: mapped over the seed's values, if it maps at all, and its
      scraped key put back. */
  function Enriched(lib: Library, m: Templates, seed: Ctx, item: Item, enriched: Ctx): Item {
    var mapped := MapRow(lib, m, seed + enriched);
    Item(enriched, if mapped.Some? then mapped.value.(sourceKey := item.p.sourceKey) else item.p)
  }

  function EnrichedAll(lib: Library, m: Templates, seed: Ctx, queue: seq<Item>, enrichOn: bool, enriched: seq<Ctx>)
    : (after: seq<Item>)
    requires |enriched| == |queue|
    ensures |after| == |queue|
    ensures forall i :: 0 <= i < |queue| ==>
              after[i] == if enrichOn then Enriched(lib, m, seed, queue[i], enriched[i]) else queue[i]
  {
    seq(|queue|, i requires 0 <= i < |queue| =>
          if enrichOn then Enriched(lib, m, seed, queue[i], enriched[i]) else queue[i])
  }

  function AsQueued(queue: seq<Item>): (rows: seq<Queued>)
    ensures |rows| == |queue|
    ensures forall i :: 0 <= i < |queue| ==> rows[i] == Queued(queue[i].p.sourceKey, !IsBlank(queue[i].p.name))
  {
    seq(|queue|, i requires 0 <= i < |queue| => Queued(queue[i].p.sourceKey, !IsBlank(queue[i].p.name)))
  }

  /** Row by row, in place: enrich, map again, put the key back, and write what has a name. */
  method EnrichAndStore(lib: Library, m: Templates, seed: Ctx, queue: array<Item>, enrichOn: bool, enriched: seq<Ctx>,
                        accepts: seq<bool>)
    returns (result: StoreResult)
    requires |enriched| == |accepts| == queue.Length
    modifies queue
    ensures var after := EnrichedAll(lib, m, seed, old(queue[..]), enrichOn, enriched);
            && result == Stored(AsQueued(after), accepts)
            && forall i :: 0 <= i < queue.Length ==> queue[i] == if i < result.seen then after[i] else old(queue[i])
  {
    hide MapRow, Stored, IsBlank;
    ghost var after := EnrichedAll(lib, m, seed, queue[..], enrichOn, enriched);
    ghost var rows := AsQueued(after);
    var keys: seq<string> := [];
    NothingStored(rows, accepts);
    for i := 0 to queue.Length
      invariant StoreResult(keys, false, i) == Stored(rows[..i], accepts[..i])
      invariant forall j :: 0 <= j < queue.Length ==> queue[j] == if j < i then after[j] else old(queue[j])
    {
      if enrichOn {
        var mapped := MapRow(lib, m, seed + enriched[i]);
        var p := queue[i].p;
        if mapped.Some? {
          p := mapped.value.(sourceKey := p.sourceKey);
        }
        queue[i] := Item(enriched[i], p);
      }
      StoredStep(rows, accepts, i);
      if IsBlank(queue[i].p.name) {
        continue;
      }
      if !accepts[i] {
        RefusalIsFinal(rows, accepts, i + 1);
        return StoreResult(keys, true, i + 1);
      }
      keys := keys + [queue[i].p.sourceKey];
    }
    assert rows[..queue.Length] == rows && accepts[..queue.Length] == accepts;
    result := StoreResult(keys, false, queue.Length);
  }

  lemma NothingStored(rows: seq<Queued>, accepts: seq<bool>)
    requires |rows| == |accepts|
    ensures Stored(rows[..0], accepts[..0]) == StoreResult([], false, 0)
  {
  }

  // ----- What enrichment may change -----

  /** The row over the seed's values: what it carries is its own, and the rest is the seed's. */
  ghost predicate IsOver(merged: Ctx, seed: Ctx, row: Ctx) {
    && merged.Keys == seed.Keys + row.Keys
    && forall k <- merged :: merged[k] == if k in row then row[k] else seed[k]
  }

  /** An enriched item is what its row maps to now, over the seed's values, but for its key; a row that no longer maps
      leaves the item as it was. */
  lemma EnrichedTakesTheRow(lib: Library, m: Templates, seed: Ctx, item: Item, enriched: Ctx, merged: Ctx)
    requires IsOver(merged, seed, enriched)
    ensures var after := Enriched(lib, m, seed, item, enriched);
            && after.row == enriched && after.p.sourceKey == item.p.sourceKey
            && (MapRow(lib, m, merged).None? ==> after.p == item.p)
            && (MapRow(lib, m, merged).Some? ==>
                  after.p.(sourceKey := MapRow(lib, m, merged).value.sourceKey) == MapRow(lib, m, merged).value)
  {
    hide MapRow;
    assert merged == seed + enriched;
  }

  // ----- Identity -----

  function KeysOf(queue: seq<Item>): (keys: seq<string>)
    ensures |keys| == |queue| && forall i :: 0 <= i < |queue| ==> keys[i] == queue[i].p.sourceKey
  {
    seq(|queue|, i requires 0 <= i < |queue| => queue[i].p.sourceKey)
  }

  /** Whatever enrichment writes, composed or not, every key the stage stores is the scrape-time key of a queued row,
      and of one that has a name in the end; nothing else decides which are stored. */
  lemma StoredKeysAreScraped(lib: Library, m: Templates, seed: Ctx, queue: seq<Item>, enrichOn: bool,
                             enriched: seq<Ctx>, accepts: seq<bool>)
    requires |queue| == |enriched| == |accepts|
    ensures var after := EnrichedAll(lib, m, seed, queue, enrichOn, enriched);
            var result := Stored(AsQueued(after), accepts);
            && KeysOf(after) == KeysOf(queue)
            && (forall key <- result.keys ::
                  exists i :: 0 <= i < |queue| && queue[i].p.sourceKey == key && !IsBlank(after[i].p.name))
            && (!result.failed ==>
                  forall i :: 0 <= i < |queue| && !IsBlank(after[i].p.name) ==> queue[i].p.sourceKey in result.keys)
  {
    hide MapRow, Stored, IsBlank, EnrichedAll, AsQueued, KeysOf, NamedKeys;
    var after := EnrichedAll(lib, m, seed, queue, enrichOn, enriched);
    var rows := AsQueued(after);
    StoredAreNamed(rows, accepts);
    var result := Stored(rows, accepts);
    forall key | key in result.keys
      ensures exists i :: 0 <= i < |queue| && queue[i].p.sourceKey == key && !IsBlank(after[i].p.name)
    {
      assert key in NamedKeys(rows);
      NamedKeysComeFrom(rows, key);
      var i :| 0 <= i < |rows| && rows[i].named && rows[i].key == key;
      assert queue[i].p.sourceKey == key;
    }
    if !result.failed {
      forall i | 0 <= i < |queue| && !IsBlank(after[i].p.name)
        ensures queue[i].p.sourceKey in result.keys
      {
        NamedKeyIsThere(rows, i);
      }
    }
  }

  lemma {:induction false} NamedKeyIsThere(rows: seq<Queued>, i: nat)
    requires i < |rows| && rows[i].named
    ensures rows[i].key in NamedKeys(rows)
  {
    var n := |rows| - 1;
    if i < n {
      NamedKeyIsThere(rows[..n], i);
    }
  }

  /** The dedupe stage's view of a scraped row. */
  function AsRow(lib: Library, m: Templates, seed: Ctx, row: Ctx, wanted: bool): P.Row {
    var p := MapRow(lib, m, seed + row);
    P.Row(if p.Some? then Some(p.value.sourceKey) else None, wanted, p.Some? && !IsBlank(p.value.name), P.Stored)
  }

  /** So no key that was known when the pass began is written by it. */
  lemma StoredKeysAreNew(lib: Library, m: Templates, seed: Ctx, opts: P.PassOptions, known: set<string>,
                         rows: seq<P.Row>, queue: seq<Item>, enrichOn: bool, enriched: seq<Ctx>, accepts: seq<bool>)
    requires |queue| == |enriched| == |accepts|
    requires forall item <- queue ::
               MapRow(lib, m, seed + item.row) == Some(item.p)
               && exists wanted :: AsRow(lib, m, seed, item.row, wanted) in P.Kept(opts, known, rows)
    ensures forall key <- Stored(AsQueued(EnrichedAll(lib, m, seed, queue, enrichOn, enriched)), accepts).keys ::
              key !in known
  {
    hide MapRow, Stored, EnrichedAll;
    P.KeptRowsAreNew(opts, known, rows);
    forall item | item in queue
      ensures item.p.sourceKey !in known
    {
      var wanted :| AsRow(lib, m, seed, item.row, wanted) in P.Kept(opts, known, rows);
    }
    StoredKeysAreScraped(lib, m, seed, queue, enrichOn, enriched, accepts);
  }
}
