/** One pass of a run: the rows a scrape brings back, filtered, capped and stored (cmd/src/pipeline.rs). */
module Passes {
  import opened Text

  datatype PlanKind = Prospects | Artifacts | Report | Assets

  /** What the last stage did with a row it was given. */
  datatype StoreFate = Stored | Skipped | StoreFailed

  /** A scraped row, reduced to what the stages ask about it.
      `key` is None when the row cannot be mapped, or its link is refused;
      `wanted` is the plan's own filter: minimum value, stated limits, no twin on another site. */
  datatype Row = Row(key: Option<string>, wanted: bool, named: bool, fate: StoreFate)

  datatype Fault = Breach | NoBrowser | NoCredits | OtherFault

  datatype PassResult = Yield(count: nat) | Broke(fault: Fault)

  datatype Scrape =
    | ScrapeFailed(fault: Fault)
    | Document(written: bool)
    | Rows(rows: seq<Row>, known: set<string>)

  datatype PassOptions = PassOptions(kind: PlanKind, enrich: bool, filesPerRun: nat)

  predicate Keeps(opts: PassOptions, known: set<string>, queued: seq<Row>, row: Row) {
    && row.key.Some?
    && row.key.value !in known
    && match opts.kind
       case Prospects => row.wanted && (opts.enrich || row.named)
       case Artifacts => row.wanted
       case Assets => forall q <- queued :: q.key != row.key
       case Report => false
  }

  /** The rows that survive the dedupe stage, in order. */
  function Kept(opts: PassOptions, known: set<string>, rows: seq<Row>): seq<Row> {
    if rows == [] then []
    else
      var front := Kept(opts, known, rows[..|rows| - 1]);
      if Keeps(opts, known, front, rows[|rows| - 1]) then front + [rows[|rows| - 1]] else front
  }

  function Limit(opts: PassOptions, maxNew: Option<int>): Option<nat> {
    var asked: Option<nat> := if maxNew.None? then None else Some(if maxNew.value < 0 then 0 else maxNew.value);
    if !opts.kind.Assets? then asked
    else if asked.None? || opts.filesPerRun < asked.value then Some(opts.filesPerRun)
    else asked
  }

  function Capped(queue: seq<Row>, limit: Option<nat>): seq<Row> {
    if limit.Some? && limit.value < |queue| then queue[..limit.value] else queue
  }

  /** Storing stops at the first row the store refuses outright, and the pass then counts for nothing. */
  function StoreAll(queue: seq<Row>): PassResult {
    if queue == [] then Yield(0)
    else
      var front := StoreAll(queue[..|queue| - 1]);
      if front.Broke? then front
      else
        match queue[|queue| - 1].fate
        case StoreFailed => Broke(OtherFault)
        case Skipped => front
        case Stored => Yield(front.count + 1)
  }

  function Pass(opts: PassOptions, scrape: Scrape, maxNew: Option<int>): PassResult {
    match scrape
    case ScrapeFailed(fault) => Broke(fault)
    case Document(written) => Yield(if opts.kind.Report? && written then 1 else 0)
    case Rows(rows, known) => StoreAll(Capped(Kept(opts, known, rows), Limit(opts, maxNew)))
  }

  // ----- The stages as the pipeline runs them -----

  method Dedupe(opts: PassOptions, known: set<string>, rows: seq<Row>)
    returns (queue: seq<Row>, duplicates: nat, dropped: nat)
    ensures queue == Kept(opts, known, rows)
    ensures |queue| + duplicates + dropped == |rows|
  {
    queue, duplicates, dropped := [], 0, 0;
    for i := 0 to |rows|
      invariant queue == Kept(opts, known, rows[..i])
      invariant |queue| + duplicates + dropped == i
    {
      var row := rows[i];
      assert rows[..i + 1][..i] == rows[..i];
      if row.key.None? {
        dropped := dropped + 1;
      } else if row.key.value in known || (opts.kind.Assets? && exists q <- queue :: q.key == row.key) {
        duplicates := duplicates + 1;
      } else if opts.kind.Report?
          || (!opts.kind.Assets? && !row.wanted)
          || (opts.kind.Prospects? && !opts.enrich && !row.named) {
        dropped := dropped + 1;
      } else {
        queue := queue + [row];
      }
    }
    assert rows[..|rows|] == rows;
  }

  method RunRows(opts: PassOptions, rows: seq<Row>, known: set<string>, maxNew: Option<int>)
    returns (result: PassResult)
    ensures result == Pass(opts, Rows(rows, known), maxNew)
  {
    var queue, _, _ := Dedupe(opts, known, rows);
    if opts.kind.Assets? {
      var limit := opts.filesPerRun;
      if maxNew.Some? && maxNew.value < limit {
        limit := if maxNew.value < 0 then 0 else maxNew.value;
      }
      if |queue| > limit {
        queue := queue[..limit];
      }
    } else if maxNew.Some? {
      if maxNew.value <= 0 {
        assert Capped(queue, Limit(opts, maxNew)) == [];
        return Yield(0);
      }
      if |queue| > maxNew.value {
        queue := queue[..maxNew.value];
      }
    }
    assert queue == Capped(Kept(opts, known, rows), Limit(opts, maxNew));
    result := StoreRows(queue);
  }

  method StoreRows(queue: seq<Row>) returns (result: PassResult)
    ensures result == StoreAll(queue)
  {
    var stored := 0;
    for i := 0 to |queue|
      invariant StoreAll(queue[..i]) == Yield(stored)
    {
      assert queue[..i + 1][..i] == queue[..i];
      match queue[i].fate
      case StoreFailed =>
        StoreFailureSticks(queue, i + 1);
        return Broke(OtherFault);
      case Skipped =>
      case Stored =>
        stored := stored + 1;
    }
    assert queue[..|queue|] == queue;
    result := Yield(stored);
  }

  method RunPass(opts: PassOptions, scrape: Scrape, maxNew: Option<int>) returns (result: PassResult)
    ensures result == Pass(opts, scrape, maxNew)
  {
    match scrape
    case ScrapeFailed(fault) => result := Broke(fault);
    case Document(written) => result := Yield(if opts.kind.Report? && written then 1 else 0);
    case Rows(rows, known) => result := RunRows(opts, rows, known, maxNew);
  }

  lemma {:induction false} StoreFailureSticks(queue: seq<Row>, i: nat)
    requires i <= |queue| && StoreAll(queue[..i]).Broke?
    ensures StoreAll(queue) == StoreAll(queue[..i])
    decreases |queue|
  {
    if i == |queue| {
      assert queue[..i] == queue;
    } else {
      var front := queue[..|queue| - 1];
      assert front[..i] == queue[..i];
      StoreFailureSticks(front, i);
    }
  }

  // ----- What a pass may do -----

  lemma {:induction false} StoresAtMostTheQueue(queue: seq<Row>)
    ensures StoreAll(queue).Yield? ==> StoreAll(queue).count <= |queue|
  {
    if queue != [] {
      StoresAtMostTheQueue(queue[..|queue| - 1]);
    }
  }

  /** No pass reports more than it was asked for. */
  lemma PassIsCapped(opts: PassOptions, scrape: Scrape, maxNew: Option<int>)
    requires maxNew.Some?
    ensures (maxNew.value > 0 || scrape.Rows?) && Pass(opts, scrape, maxNew).Yield? ==>
              Pass(opts, scrape, maxNew).count <= if maxNew.value < 0 then 0 else maxNew.value
  {
    if scrape.Rows? {
      StoresAtMostTheQueue(Capped(Kept(opts, scrape.known, scrape.rows), Limit(opts, maxNew)));
    }
  }

  /** Every row that reaches the store was absent from the snapshot of known keys, and a file is never queued twice. */
  lemma {:induction false} KeptRowsAreNew(opts: PassOptions, known: set<string>, rows: seq<Row>)
    ensures var queue := Kept(opts, known, rows);
            && (forall r <- queue :: r in rows && r.key.Some? && r.key.value !in known)
            && (opts.kind.Assets? ==> forall i, j :: 0 <= i < j < |queue| ==> queue[i].key != queue[j].key)
  {
    if rows != [] {
      KeptRowsAreNew(opts, known, rows[..|rows| - 1]);
    }
  }

  /** Nothing wanted is lost: a row the stage leaves out is unmappable, known, filtered, or a file already queued. */
  lemma {:induction false} DroppedForAReason(opts: PassOptions, known: set<string>, rows: seq<Row>, row: Row)
    requires row in rows && row !in Kept(opts, known, rows)
    ensures || row.key.None?
            || row.key.value in known
            || opts.kind.Report?
            || (opts.kind.Assets? && exists q <- Kept(opts, known, rows) :: q.key == row.key)
            || (!opts.kind.Assets? && !row.wanted)
            || (opts.kind.Prospects? && !opts.enrich && !row.named)
  {
    var front := rows[..|rows| - 1];
    if row in front {
      DroppedForAReason(opts, known, front, row);
    }
  }
}
