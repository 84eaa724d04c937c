/** The store stage both pipelines end in: the queue is written row by row until the store refuses one
    (cmd/src/pipeline.rs). */
module Storing {
  import P = Passes

  /** What the stage asks about a queued row; one without a name is passed over. */
  datatype Queued = Queued(key: string, named: bool)

  /** The keys written, in order, whether the store refused one, and how many rows were seen. */
  datatype StoreResult = StoreResult(keys: seq<string>, failed: bool, seen: nat)

  function StoreNext(before: StoreResult, row: Queued, accepted: bool): StoreResult {
    if before.failed then before
    else if !row.named then before.(seen := before.seen + 1)
    else if !accepted then before.(failed := true, seen := before.seen + 1)
    else StoreResult(before.keys + [row.key], false, before.seen + 1)
  }

  function Stored(queue: seq<Queued>, accepts: seq<bool>): StoreResult
    requires |accepts| == |queue|
  {
    if queue == [] then StoreResult([], false, 0)
    else
      var n := |queue| - 1;
      StoreNext(Stored(queue[..n], accepts[..n]), queue[n], accepts[n])
  }

  lemma StoredStep(queue: seq<Queued>, accepts: seq<bool>, i: nat)
    requires |accepts| == |queue| && i < |queue|
    ensures Stored(queue[..i + 1], accepts[..i + 1])
         == StoreNext(Stored(queue[..i], accepts[..i]), queue[i], accepts[i])
  {
    assert queue[..i + 1][..i] == queue[..i] && accepts[..i + 1][..i] == accepts[..i];
  }

  /** After a refusal nothing more is written. */
  lemma {:induction false} RefusalIsFinal(queue: seq<Queued>, accepts: seq<bool>, i: nat)
    requires |accepts| == |queue| && i <= |queue| && Stored(queue[..i], accepts[..i]).failed
    ensures Stored(queue, accepts) == Stored(queue[..i], accepts[..i])
    decreases |queue|
  {
    if i == |queue| {
      assert queue[..i] == queue && accepts[..i] == accepts;
    } else {
      var n := |queue| - 1;
      assert queue[..n][..i] == queue[..i] && accepts[..n][..i] == accepts[..i];
      RefusalIsFinal(queue[..n], accepts[..n], i);
    }
  }

  /** The keys of the named rows, in order. */
  function NamedKeys(queue: seq<Queued>): seq<string> {
    if queue == [] then []
    else
      var n := |queue| - 1;
      NamedKeys(queue[..n]) + if queue[n].named then [queue[n].key] else []
  }

  /** What is written is a front part of the named rows' keys, in order; all of them if and only if no named row was
      refused. */
  lemma {:induction false} StoredAreNamed(queue: seq<Queued>, accepts: seq<bool>)
    requires |accepts| == |queue|
    ensures var result := Stored(queue, accepts);
            && result.keys <= NamedKeys(queue)
            && (!result.failed ==> result.keys == NamedKeys(queue) && result.seen == |queue|)
            && (result.failed ==> |result.keys| < |NamedKeys(queue)|)
            && (result.failed <==> exists i :: 0 <= i < |queue| && queue[i].named && !accepts[i])
  {
    if queue != [] {
      var n := |queue| - 1;
      StoredAreNamed(queue[..n], accepts[..n]);
    }
  }

  /** A refused stage has seen the rows up to the first named one the store refused, and that one; it wrote the keys of
      the named ones in front of it. */
  lemma {:induction false} RefusedAtTheFirst(queue: seq<Queued>, accepts: seq<bool>)
    requires |accepts| == |queue| && Stored(queue, accepts).failed
    ensures var result := Stored(queue, accepts);
            && 0 < result.seen <= |queue|
            && queue[result.seen - 1].named && !accepts[result.seen - 1]
            && (forall i :: 0 <= i < result.seen - 1 ==> queue[i].named ==> accepts[i])
            && result.keys == NamedKeys(queue[..result.seen - 1])
  {
    var n := |queue| - 1;
    var before := Stored(queue[..n], accepts[..n]);
    if before.failed {
      RefusedAtTheFirst(queue[..n], accepts[..n]);
      assert queue[..n][..before.seen - 1] == queue[..before.seen - 1];
    } else {
      StoredAreNamed(queue[..n], accepts[..n]);
    }
  }

  /** Each of those keys is some named row's. */
  lemma {:induction false} NamedKeysComeFrom(queue: seq<Queued>, key: string)
    requires key in NamedKeys(queue)
    ensures exists i :: 0 <= i < |queue| && queue[i].named && queue[i].key == key
  {
    var n := |queue| - 1;
    if !(queue[n].named && queue[n].key == key) {
      assert key in NamedKeys(queue[..n]);
      NamedKeysComeFrom(queue[..n], key);
      var i :| 0 <= i < n && queue[..n][i].named && queue[..n][i].key == key;
      assert queue[i].key == key;
    }
  }

  // ----- What the pass counts for it -----

  /** A row's fate as the pass sees it. */
  function FateOf(row: Queued, accepted: bool): P.StoreFate {
    if !row.named then P.Skipped else if accepted then P.Stored else P.StoreFailed
  }

  /** The pass counts exactly the keys written, unless the store refused one; then it counts nothing, though what was
      written stays written. */
  lemma {:induction false} PassCountsTheKeys(rows: seq<P.Row>, queue: seq<Queued>, accepts: seq<bool>)
    requires |rows| == |queue| == |accepts|
    requires forall i :: 0 <= i < |rows| ==> rows[i].fate == FateOf(queue[i], accepts[i])
    ensures var result := Stored(queue, accepts);
            P.StoreAll(rows) == if result.failed then P.Broke(P.OtherFault) else P.Yield(|result.keys|)
  {
    if queue != [] {
      var n := |queue| - 1;
      PassCountsTheKeys(rows[..n], queue[..n], accepts[..n]);
    }
  }

  /** So what a run counts is what was written, but for its refused passes, and rows written can pass the target that
      the count keeps to: a first pass that is refused its second row, and a second that fills a target of two. */
  lemma WrittenCanPassTheTarget(a: string, b: string)
    ensures var queue := [Queued(a, true), Queued(b, true)];
            var first, second := Stored(queue, [true, false]), Stored(queue, [true, true]);
            first.failed && !second.failed && |second.keys| == 2 && |first.keys| + |second.keys| == 3
  {
    var queue := [Queued(a, true), Queued(b, true)];
    StoredStep(queue, [true, false], 0);
    StoredStep(queue, [true, false], 1);
    StoredStep(queue, [true, true], 0);
    StoredStep(queue, [true, true], 1);
    assert queue[..2] == queue && [true, false][..2] == [true, false] && [true, true][..2] == [true, true];
    assert queue[..0] == [] && [true, false][..0] == [] && [true, true][..0] == [];
  }
}
