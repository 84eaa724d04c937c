/** The filters in front of an artifact run's enrichment: stated limits, and one listing found on two sites
    (cmd/src/thrift/filters.rs, cmd/src/thrift/twins.rs, and the dedupe stage of cmd/src/pipeline.rs). */
module Twins {
  import opened Text
  import P = Passes

  /** What the filters read of a row: its site, the three-letter runs of its title, and its columns that are plainly
      numbers. */
  datatype Listing = Listing(host: string, grams: set<string>, numbers: map<string, real>)

  /** A scraped row: its key, None when it cannot be mapped, and what the filters read. */
  datatype Scraped = Scraped(key: Option<string>, listing: Listing)

  datatype Limit = Limit(column: string, min: Option<real>, max: Option<real>)

  /** The plan's limits, and which of the two filters are on. */
  datatype Filters = Filters(limits: seq<Limit>, limitsOn: bool, twinsOn: bool)

  // ----- Limits -----

  predicate Breaks(limit: Limit, numbers: map<string, real>) {
    && limit.column in numbers
    && var n := numbers[limit.column];
       (limit.max.Some? && n > limit.max.value) || (limit.min.Some? && n < limit.min.value)
  }

  /** A number that breaks a stated limit; a column that is no number breaks none. */
  predicate IsOutside(filters: Filters, listing: Listing) {
    filters.limitsOn && exists l <- filters.limits :: Breaks(l, listing.numbers)
  }

  // ----- Twins -----

  /** Four fifths of the runs the two titles have between them are in both. */
  predicate AreAlike(a: set<string>, b: set<string>) {
    a != {} && b != {} && 5 * |a * b| >= 4 * |a + b|
  }

  /** On different sites, with nearly the same title, sharing a number and disagreeing on none. */
  predicate AreTwins(a: Listing, b: Listing) {
    && a.host != "" && b.host != "" && a.host != b.host
    && a.numbers.Keys * b.numbers.Keys != {}
    && (forall c <- a.numbers.Keys * b.numbers.Keys :: a.numbers[c] == b.numbers[c])
    && AreAlike(a.grams, b.grams)
  }

  lemma TwinsAreMutual(a: Listing, b: Listing)
    ensures AreTwins(a, b) <==> AreTwins(b, a)
  {
    assert a.numbers.Keys * b.numbers.Keys == b.numbers.Keys * a.numbers.Keys;
    assert a.grams * b.grams == b.grams * a.grams && a.grams + b.grams == b.grams + a.grams;
  }

  predicate HasTwin(filters: Filters, seen: seq<Listing>, listing: Listing) {
    filters.twinsOn && exists other <- seen :: AreTwins(listing, other)
  }

  /** Remembered, unless it has a twin; nothing is when the filter is off. */
  function Remember(filters: Filters, seen: seq<Listing>, listing: Listing): seq<Listing> {
    if !filters.twinsOn || HasTwin(filters, seen, listing) then seen else seen + [listing]
  }

  // ----- The dedupe stage -----

  /** The rows kept so far, and the listings remembered: those kept, and the known ones that came by. */
  datatype Stage = Stage(queue: seq<Scraped>, seen: seq<Listing>)

  function Next(filters: Filters, known: set<string>, before: Stage, row: Scraped): Stage {
    if row.key.None? then before
    else if row.key.value in known then before.(seen := Remember(filters, before.seen, row.listing))
    else if IsOutside(filters, row.listing) || HasTwin(filters, before.seen, row.listing) then before
    else Stage(before.queue + [row], Remember(filters, before.seen, row.listing))
  }

  function Deduped(filters: Filters, known: set<string>, rows: seq<Scraped>): Stage {
    if rows == [] then Stage([], [])
    else Next(filters, known, Deduped(filters, known, rows[..|rows| - 1]), rows[|rows| - 1])
  }

  method DedupeArtifacts(filters: Filters, known: set<string>, rows: seq<Scraped>)
    returns (queue: seq<Scraped>, duplicates: nat, unmappable: nat, outside: nat, twinned: nat)
    ensures queue == Deduped(filters, known, rows).queue
    ensures |queue| + duplicates + unmappable + outside + twinned == |rows|
  {
    hide IsOutside, AreTwins;
    queue, duplicates, unmappable, outside, twinned := [], 0, 0, 0, 0;
    var seen: seq<Listing> := [];
    for i := 0 to |rows|
      invariant Stage(queue, seen) == Deduped(filters, known, rows[..i])
      invariant |queue| + duplicates + unmappable + outside + twinned == i
    {
      assert rows[..i + 1][..i] == rows[..i];
      var row := rows[i];
      if row.key.None? {
        unmappable := unmappable + 1;
        continue;
      }
      if row.key.value in known {
        seen := Remember(filters, seen, row.listing);
        duplicates := duplicates + 1;
        continue;
      }
      if IsOutside(filters, row.listing) {
        outside := outside + 1;
        continue;
      }
      if HasTwin(filters, seen, row.listing) {
        twinned := twinned + 1;
        continue;
      }
      seen := Remember(filters, seen, row.listing);
      queue := queue + [row];
    }
    assert rows[..|rows|] == rows;
  }

  // ----- What the filters mean -----

  /** Within the limits, unless they are off: no number the listing has is above a maximum or below a minimum stated for
      its column. */
  lemma InsideMeans(filters: Filters, listing: Listing)
    ensures !IsOutside(filters, listing)
        <==> !filters.limitsOn
             || forall l <- filters.limits :: l.column in listing.numbers ==>
                  && (l.max.Some? ==> listing.numbers[l.column] <= l.max.value)
                  && (l.min.Some? ==> l.min.value <= listing.numbers[l.column])
  {
  }

  /** Nearly the same title: what is in one title alone is at most a quarter of what is in both. */
  lemma AlikeMeans(a: set<string>, b: set<string>)
    ensures AreAlike(a, b) <==> a != {} && b != {} && 4 * |(a - b) + (b - a)| <= |a * b|
  {
    var alone := (a - b) + (b - a);
    assert a + b == a * b + alone && a * b !! alone;
    assert |a + b| == |a * b| + |alone|;
  }

  /** A listing on another site with nearly the same title is a twin if and only if they have a number in common and
      every number they have in common is the same. */
  lemma TwinsMean(a: Listing, b: Listing)
    ensures AreTwins(a, b)
        <==> && a.host != "" && b.host != "" && a.host != b.host && AreAlike(a.grams, b.grams)
             && (exists c :: c in a.numbers && c in b.numbers)
             && (forall c :: c in a.numbers && c in b.numbers ==> a.numbers[c] == b.numbers[c])
  {
    hide AreAlike;
    var shared := a.numbers.Keys * b.numbers.Keys;
    if c :| c in a.numbers && c in b.numbers {
      assert c in shared;
    }
  }

  // ----- What the stage promises -----

  /** No two listings remembered are twins, whichever is asked about the other. */
  predicate NoTwins(seen: seq<Listing>) {
    forall i, j :: 0 <= i < j < |seen| ==> !AreTwins(seen[i], seen[j]) && !AreTwins(seen[j], seen[i])
  }

  lemma RememberKeepsApart(filters: Filters, seen: seq<Listing>, listing: Listing)
    requires NoTwins(seen)
    ensures NoTwins(Remember(filters, seen, listing))
    ensures filters.twinsOn ==> forall x <- seen :: x in Remember(filters, seen, listing)
  {
    hide AreTwins;
    forall i | 0 <= i < |seen|
      ensures AreTwins(seen[i], listing) == AreTwins(listing, seen[i]) && seen[i] in seen
    {
      TwinsAreMutual(seen[i], listing);
    }
  }

  /** Every kept row can be mapped, is new and inside the limits, and no two of them are twins: an enriched row is never
      one already enriched from another site. */
  lemma {:induction false} KeptAreApart(filters: Filters, known: set<string>, rows: seq<Scraped>)
    ensures var stage := Deduped(filters, known, rows);
            && (forall r <- stage.queue ::
                  r in rows && r.key.Some? && r.key.value !in known && !IsOutside(filters, r.listing))
            && NoTwins(stage.seen)
            && (filters.twinsOn ==> forall r <- stage.queue :: r.listing in stage.seen)
    decreases |rows|
  {
    hide IsOutside, AreTwins, NoTwins, Remember;
    if rows == [] {
      NothingSeen();
    } else {
      var front, row := rows[..|rows| - 1], rows[|rows| - 1];
      KeptAreApart(filters, known, front);
      assert row in rows && forall r <- front :: r in rows;
      RememberKeepsApart(filters, Deduped(filters, known, front).seen, row.listing);
      RememberAdds(filters, Deduped(filters, known, front).seen, row.listing);
    }
  }

  lemma NothingSeen()
    ensures NoTwins([])
  {
  }

  lemma RememberAdds(filters: Filters, seen: seq<Listing>, listing: Listing)
    ensures filters.twinsOn && !HasTwin(filters, seen, listing) ==> listing in Remember(filters, seen, listing)
  {
  }

  /** Nothing else is left out: a row that is not kept cannot be mapped, was known, is outside a limit, or is the
      twin of a listing that is remembered. */
  lemma {:induction false} LeftOutForAReason(filters: Filters, known: set<string>, rows: seq<Scraped>, row: Scraped)
    requires row in rows && row !in Deduped(filters, known, rows).queue
    ensures || row.key.None?
            || row.key.value in known
            || IsOutside(filters, row.listing)
            || HasTwin(filters, Deduped(filters, known, rows).seen, row.listing)
    decreases |rows|
  {
    hide IsOutside, AreTwins;
    var front := rows[..|rows| - 1];
    if row in front {
      LeftOutForAReason(filters, known, front, row);
    }
  }

  lemma RememberedStays(filters: Filters, seen: seq<Listing>, listing: Listing)
    ensures seen <= Remember(filters, seen, listing)
    ensures filters.twinsOn ==>
              listing in Remember(filters, seen, listing) || HasTwin(filters, Remember(filters, seen, listing), listing)
  {
    hide AreTwins;
  }

  lemma TwinsAreStillSeen(filters: Filters, seen: seq<Listing>, more: seq<Listing>, listing: Listing)
    requires seen <= more
    ensures HasTwin(filters, seen, listing) ==> HasTwin(filters, more, listing)
    ensures listing in seen ==> listing in more
  {
    hide AreTwins;
    assert forall other <- seen :: other in more;
  }

  /** A row that was known is not forgotten: its listing, or a twin of it, is among those later rows are held
      against. */
  lemma {:induction false} KnownRowsAreRemembered(filters: Filters, known: set<string>, rows: seq<Scraped>,
                                                  row: Scraped)
    requires filters.twinsOn && row in rows && row.key.Some? && row.key.value in known
    ensures var seen := Deduped(filters, known, rows).seen;
            row.listing in seen || HasTwin(filters, seen, row.listing)
    decreases |rows|
  {
    hide IsOutside, HasTwin, Remember;
    var n := |rows| - 1;
    var before := Deduped(filters, known, rows[..n]).seen;
    RememberedStays(filters, before, rows[n].listing);
    if rows[n] != row {
      assert row in rows[..n];
      KnownRowsAreRemembered(filters, known, rows[..n], row);
      TwinsAreStillSeen(filters, before, Deduped(filters, known, rows).seen, row.listing);
    }
  }

  /** The row brought the listing in: it was known, or it was kept. */
  predicate Brought(known: set<string>, queue: seq<Scraped>, row: Scraped, listing: Listing) {
    row.listing == listing && row.key.Some? && (row.key.value in known || row in queue)
  }

  /** And nothing is held against a row but what came by: each remembered listing is a row's that was known or kept. */
  lemma {:induction false} RememberedCameBy(filters: Filters, known: set<string>, rows: seq<Scraped>, seen: Listing)
    requires seen in Deduped(filters, known, rows).seen
    ensures exists row :: row in rows && Brought(known, Deduped(filters, known, rows).queue, row, seen)
    decreases |rows|
  {
    hide IsOutside, HasTwin, AreTwins;
    var n := |rows| - 1;
    var before, after := Deduped(filters, known, rows[..n]), Deduped(filters, known, rows);
    if seen in before.seen {
      RememberedCameBy(filters, known, rows[..n], seen);
      var row :| row in rows[..n] && Brought(known, before.queue, row, seen);
      assert row in rows && (row in before.queue ==> row in after.queue);
      assert Brought(known, after.queue, row, seen);
    } else {
      assert rows[n] in rows && Brought(known, after.queue, rows[n], seen);
    }
  }

  /** Nothing remembered in front of the row is its twin; with the filter off nothing is remembered. */
  predicate IsAlone(filters: Filters, seen: seq<Listing>, row: Scraped) {
    filters.twinsOn ==> forall other <- seen :: !AreTwins(row.listing, other)
  }

  /** Each row in its turn: kept if and only if it can be mapped, is new, inside the limits and alone; remembered, with
      the filter on, if and only if it is alone and was kept or known. */
  lemma EachRowInTurn(filters: Filters, known: set<string>, rows: seq<Scraped>, j: nat)
    requires j < |rows|
    ensures var before, after := Deduped(filters, known, rows[..j]), Deduped(filters, known, rows[..j + 1]);
            var row := rows[j];
            var isKnown := row.key.Some? && row.key.value in known;
            var isKept := row.key.Some? && !isKnown && !IsOutside(filters, row.listing)
                          && IsAlone(filters, before.seen, row);
            && after.queue == before.queue + (if isKept then [row] else [])
            && after.seen == before.seen
                 + (if filters.twinsOn && IsAlone(filters, before.seen, row) && (isKnown || isKept) then [row.listing]
                    else [])
  {
    hide IsOutside, AreTwins;
    assert rows[..j + 1][..j] == rows[..j];
    var before := Deduped(filters, known, rows[..j]);
    assert before.queue + [] == before.queue && before.seen + [] == before.seen;
  }

  // ----- As the pass sees it -----

  /** Whether a row, when its turn comes, is one the plan wants. */
  predicate IsWanted(filters: Filters, known: set<string>, rows: seq<Scraped>, i: nat)
    requires i < |rows|
  {
    && !IsOutside(filters, rows[i].listing)
    && !HasTwin(filters, Deduped(filters, known, rows[..i]).seen, rows[i].listing)
  }

  function AsRow(filters: Filters, known: set<string>, rows: seq<Scraped>, i: nat): P.Row
    requires i < |rows|
  {
    P.Row(rows[i].key, IsWanted(filters, known, rows, i), true, P.Stored)
  }

  function AsRows(filters: Filters, known: set<string>, rows: seq<Scraped>): seq<P.Row> {
    seq(|rows|, i requires 0 <= i < |rows| => AsRow(filters, known, rows, i))
  }

  function KeysOf(queue: seq<Scraped>): seq<Option<string>> {
    seq(|queue|, i requires 0 <= i < |queue| => queue[i].key)
  }

  function RowKeys(queue: seq<P.Row>): seq<Option<string>> {
    seq(|queue|, i requires 0 <= i < |queue| => queue[i].key)
  }

  /** With that for a row's one flag, the pass keeps exactly the rows the stage does, in order. */
  lemma {:induction false} PassKeepsTheSame(filters: Filters, known: set<string>, rows: seq<Scraped>,
                                            opts: P.PassOptions)
    requires opts.kind.Artifacts?
    ensures RowKeys(P.Kept(opts, known, AsRows(filters, known, rows))) == KeysOf(Deduped(filters, known, rows).queue)
    decreases |rows|
  {
    hide IsOutside, HasTwin, Remember;
    if rows != [] {
      var n := |rows| - 1;
      var front := rows[..n];
      PassKeepsTheSame(filters, known, front, opts);
      forall i | 0 <= i < n
        ensures AsRow(filters, known, rows, i) == AsRow(filters, known, front, i)
      {
        assert rows[..i] == front[..i];
      }
      assert AsRows(filters, known, rows)[..n] == AsRows(filters, known, front);
      var all := AsRows(filters, known, rows);
      assert all[|all| - 1] == AsRow(filters, known, rows, n);
      var kept, queue := P.Kept(opts, known, all[..n]), Deduped(filters, known, front).queue;
      RowKeysMore(kept, all[n]);
      KeysOfMore(queue, rows[n]);
    }
  }

  lemma RowKeysMore(queue: seq<P.Row>, row: P.Row)
    ensures RowKeys(queue + [row]) == RowKeys(queue) + [row.key]
  {
  }

  lemma KeysOfMore(queue: seq<Scraped>, row: Scraped)
    ensures KeysOf(queue + [row]) == KeysOf(queue) + [row.key]
  {
  }
}
