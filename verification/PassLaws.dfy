/** What a pass keeps, how many of those rows it stores and what it counts, said of the rows as they were scraped
    (cmd/src/pipeline.rs). */
module PassLaws {
  import opened Text
  import opened Passes

  // ----- Which rows are kept -----

  /** A row that is new and that the plan wants; of files, the first of those with one key. */
  ghost predicate Qualifies(opts: PassOptions, known: set<string>, rows: seq<Row>, j: int)
    requires 0 <= j < |rows|
  {
    && rows[j].key.Some? && rows[j].key.value !in known && !opts.kind.Report?
    && (opts.kind.Assets? ==> forall i :: 0 <= i < j ==> rows[i].key != rows[j].key)
    && (!opts.kind.Assets? ==> rows[j].wanted)
    && (opts.kind.Prospects? ==> opts.enrich || rows[j].named)
  }

  predicate IsIncreasing(at: seq<nat>) {
    forall i, j :: 0 <= i < j < |at| ==> at[i] < at[j]
  }

  /** The queue is the rows at those places, in the order they were scraped. */
  predicate StandsAt(queue: seq<Row>, rows: seq<Row>, at: seq<nat>) {
    && |at| == |queue| && IsIncreasing(at)
    && forall i :: 0 <= i < |at| ==> at[i] < |rows| && queue[i] == rows[at[i]]
  }

  ghost predicate AreThoseThatQualify(opts: PassOptions, known: set<string>, rows: seq<Row>, at: seq<nat>) {
    && (forall j <- at :: j < |rows|)
    && forall j: nat :: j < |rows| ==> (j in at <==> Qualifies(opts, known, rows, j))
  }

  lemma QualifiesInFront(opts: PassOptions, known: set<string>, rows: seq<Row>, n: nat, j: nat)
    requires j < n <= |rows|
    ensures Qualifies(opts, known, rows[..n], j) == Qualifies(opts, known, rows, j)
  {
  }

  /** A row is kept when its turn comes exactly if it qualifies. */
  lemma KeptIfItQualifies(opts: PassOptions, known: set<string>, rows: seq<Row>)
    requires rows != []
    ensures var n := |rows| - 1;
            Keeps(opts, known, Kept(opts, known, rows[..n]), rows[n]) <==> Qualifies(opts, known, rows, n)
  {
    hide Kept;
    var n := |rows| - 1;
    var front, row := rows[..n], rows[n];
    KeptRowsAreNew(opts, known, front);
    if opts.kind.Assets? && row.key.Some? && row.key.value !in known {
      forall i | 0 <= i < n && rows[i].key == row.key
        ensures exists q <- Kept(opts, known, front) :: q.key == row.key
      {
        assert rows[i] == front[i] && rows[i] in front;
        if rows[i] !in Kept(opts, known, front) {
          DroppedForAReason(opts, known, front, rows[i]);
        }
      }
      forall q | q in Kept(opts, known, front)
        ensures exists i :: 0 <= i < n && rows[i].key == q.key
      {
        var i :| 0 <= i < |front| && front[i] == q;
        assert rows[i] == q;
      }
    }
  }

  lemma OneMore(opts: PassOptions, known: set<string>, rows: seq<Row>, at: seq<nat>)
    requires rows != [] && AreThoseThatQualify(opts, known, rows[..|rows| - 1], at)
    ensures var n := |rows| - 1;
            AreThoseThatQualify(opts, known, rows, if Qualifies(opts, known, rows, n) then at + [n] else at)
  {
    var n := |rows| - 1;
    forall j: nat | j < n
      ensures Qualifies(opts, known, rows[..n], j) == Qualifies(opts, known, rows, j)
    {
      QualifiesInFront(opts, known, rows, n, j);
    }
    hide Qualifies;
    assert forall j :: j in at + [n] <==> j in at || j == n;
  }

  /** The dedupe stage keeps exactly the rows that qualify, each where it stood and none twice. */
  lemma {:induction false} KeptAreThoseThatQualify(opts: PassOptions, known: set<string>, rows: seq<Row>)
    ensures exists at :: StandsAt(Kept(opts, known, rows), rows, at) && AreThoseThatQualify(opts, known, rows, at)
  {
    hide Keeps, Qualifies;
    if rows == [] {
      assert StandsAt(Kept(opts, known, rows), rows, []) && AreThoseThatQualify(opts, known, rows, []);
    } else {
      var n := |rows| - 1;
      var front := rows[..n];
      KeptAreThoseThatQualify(opts, known, front);
      KeptIfItQualifies(opts, known, rows);
      var at :| StandsAt(Kept(opts, known, front), front, at) && AreThoseThatQualify(opts, known, front, at);
      OneMore(opts, known, rows, at);
      var at' := if Qualifies(opts, known, rows, n) then at + [n] else at;
      StillStands(Kept(opts, known, front), rows, at);
      assert StandsAt(Kept(opts, known, rows), rows, at');
    }
  }

  lemma StillStands(queue: seq<Row>, rows: seq<Row>, at: seq<nat>)
    requires rows != [] && StandsAt(queue, rows[..|rows| - 1], at)
    ensures StandsAt(queue, rows, at)
    ensures StandsAt(queue + [rows[|rows| - 1]], rows, at + [|rows| - 1])
  {
  }

  // ----- How many of them reach the store -----

  function LeastOf(a: nat, b: nat): nat {
    if a < b then a else b
  }

  /** As many as there are, as were asked for, and, of files, as one run may fetch. */
  function Room(opts: PassOptions, kept: nat, maxNew: Option<int>): nat {
    var asked := if maxNew.None? then kept else if maxNew.value < 0 then 0 else maxNew.value;
    LeastOf(LeastOf(kept, asked), if opts.kind.Assets? then opts.filesPerRun else kept)
  }

  /** What reaches the store is the front part of the kept rows that there is room for: none too many, none too few. */
  lemma CutKeepsTheFront(opts: PassOptions, known: set<string>, rows: seq<Row>, maxNew: Option<int>)
    ensures var kept := Kept(opts, known, rows);
            Pass(opts, Rows(rows, known), maxNew) == StoreAll(kept[..Room(opts, |kept|, maxNew)])
  {
    hide Kept, StoreAll;
    var kept := Kept(opts, known, rows);
    assert kept[..|kept|] == kept;
  }

  // ----- What is counted -----

  function Fates(queue: seq<Row>): seq<StoreFate> {
    seq(|queue|, i requires 0 <= i < |queue| => queue[i].fate)
  }

  /** A pass whose queue the store refuses anything of is broken; any other counts the rows stored. */
  lemma {:induction false} StoreAllCounts(queue: seq<Row>)
    ensures StoreAll(queue) == if StoreFailed in Fates(queue) then Broke(OtherFault)
                               else Yield(multiset(Fates(queue))[Stored])
  {
    if queue != [] {
      var n := |queue| - 1;
      StoreAllCounts(queue[..n]);
      assert Fates(queue) == Fates(queue[..n]) + [queue[n].fate];
    }
  }

  /** So a pass over rows the store takes counts as many as were kept and there was room for. */
  lemma EveryRowCounts(opts: PassOptions, known: set<string>, rows: seq<Row>, maxNew: Option<int>)
    requires forall row <- rows :: row.fate == Stored
    ensures Pass(opts, Rows(rows, known), maxNew) == Yield(Room(opts, |Kept(opts, known, rows)|, maxNew))
  {
    hide Kept, StoreAll, Pass, Room;
    var kept := Kept(opts, known, rows);
    KeptRowsAreNew(opts, known, rows);
    CutKeepsTheFront(opts, known, rows, maxNew);
    RoomIsWithin(opts, |kept|, maxNew);
    var queue := kept[..Room(opts, |kept|, maxNew)];
    assert forall row <- queue :: row in kept;
    AllStored(queue);
  }

  lemma RoomIsWithin(opts: PassOptions, kept: nat, maxNew: Option<int>)
    ensures Room(opts, kept, maxNew) <= kept
  {
  }

  lemma {:induction false} AllStored(queue: seq<Row>)
    requires forall row <- queue :: row.fate == Stored
    ensures StoreAll(queue) == Yield(|queue|)
  {
    if queue != [] {
      AllStored(queue[..|queue| - 1]);
    }
  }

  /** A pass with no rows: a scrape that failed breaks it, and a document counts once, for a report that was written. */
  lemma RowlessPasses(opts: PassOptions, fault: Fault, written: bool, maxNew: Option<int>)
    ensures Pass(opts, ScrapeFailed(fault), maxNew) == Broke(fault)
    ensures Pass(opts, Document(written), maxNew).Yield?
    ensures Pass(opts, Document(written), maxNew).count <= 1
    ensures Pass(opts, Document(written), maxNew).count == 1 <==> opts.kind.Report? && written
  {
  }
}
