/** What every run of the loop keeps, for every answer the scrapes, the planner and the store can give. */
module RunLoopLaws {
  import opened Text
  import opened Passes
  import opened RunLoop

  // ----- Reading a run off its log -----

  function Last(log: seq<Entry>): Entry
    requires log != []
  {
    log[|log| - 1]
  }

  function Front(log: seq<Entry>): seq<Entry>
    requires log != []
  {
    log[..|log| - 1]
  }

  /** What an entry found: what its pass counted, and nothing for a skipped seed or a broken pass. */
  function Found(e: Entry): nat {
    match e
    case Done(_, Yield(count), _) => count
    case _ => 0
  }

  /** A containment breach, a lost browser and spent credits end a run; any other fault does not. */
  predicate EndsTheRun(e: Entry) {
    e.Done? && e.result in {Broke(Breach), Broke(NoBrowser), Broke(NoCredits)}
  }

  predicate FailedQuietly(e: Entry) {
    e.Done? && e.result == Broke(OtherFault)
  }

  function TotalOf(log: seq<Entry>): nat {
    if log == [] then 0 else TotalOf(Front(log)) + Found(Last(log))
  }

  /** Passes that failed without ending the run. */
  function FailuresIn(log: seq<Entry>): nat {
    if log == [] then 0 else FailuresIn(Front(log)) + if FailedQuietly(Last(log)) then 1 else 0
  }

  /** How many passes in a row, up to the end of the log, found nothing. Skipped seeds are not passes. */
  function ZeroRun(log: seq<Entry>): nat {
    if log == [] then 0
    else if Last(log).Skip? then ZeroRun(Front(log))
    else if Found(Last(log)) > 0 then 0
    else ZeroRun(Front(log)) + 1
  }

  function Taken(log: seq<Entry>): seq<Seed> {
    if log == [] then [] else Taken(Front(log)) + [Last(log).seed]
  }

  function Planned(log: seq<Entry>): seq<Seed> {
    if log == [] then [] else Planned(Front(log)) + if Last(log).Done? then Last(log).planned else []
  }

  predicate HasFatal(log: seq<Entry>) {
    exists e <- log :: EndsTheRun(e)
  }

  lemma LogGrows(log: seq<Entry>, e: Entry)
    ensures Front(log + [e]) == log && Last(log + [e]) == e
    ensures HasFatal(log + [e]) <==> HasFatal(log) || EndsTheRun(e)
  {
    assert (log + [e])[|log|] == e;
    assert forall x :: x in log + [e] <==> x in log || x == e;
  }

  /** How many seeds a run may take: one, unless it learns and its plan is no report. */
  function Budget(cfg: Config): int {
    if cfg.learn && !cfg.pass.kind.Report? then cfg.budget else 1
  }

  /** The target, if there is one, is met by the end of the log. */
  predicate MetTarget(cfg: Config, log: seq<Entry>) {
    cfg.target > 0 && TotalOf(log) >= cfg.target
  }

  /** The passes in a row that found nothing are as many as the plan allows. */
  predicate LostPatience(cfg: Config, log: seq<Entry>) {
    ZeroRun(log) > 0 && ZeroRun(log) >= cfg.maxNoProgress
  }

  // ----- The invariant -----

  /** Patience was never already exhausted when a seed was taken. */
  predicate Patient(cfg: Config, log: seq<Entry>) {
    forall j :: 0 <= j < |log| ==> !LostPatience(cfg, log[..j])
  }

  /** Seeds were taken from the front of everything queued at the start or planned since. */
  predicate InOrder(start: seq<Seed>, log: seq<Entry>, queue: seq<Seed>) {
    Taken(log) + queue == start + Planned(log)
  }

  predicate Books(st: State) {
    st.total == TotalOf(st.log) && st.failures == FailuresIn(st.log)
  }

  predicate WithinTarget(cfg: Config, st: State) {
    cfg.target > 0 ==> st.total <= cfg.target
  }

  /** Holds of the state in front of every iteration. */
  predicate Running(cfg: Config, start: seq<Seed>, st: State) {
    && Books(st) && WithinTarget(cfg, st)
    && st.iter == |st.log|
    && (st.log == [] || st.iter <= Iterations(cfg))
    && st.noProgress == ZeroRun(st.log)
    && !LostPatience(cfg, st.log)
    && Patient(cfg, st.log)
    && InOrder(start, st.log, st.queue)
    && !HasFatal(st.log)
  }

  /** Holds of a finished run. */
  predicate Ended(cfg: Config, start: seq<Seed>, last: State, outcome: Outcome) {
    && Books(last) && WithinTarget(cfg, last)
    && (last.log == [] || |last.log| <= Budget(cfg))
    && Patient(cfg, last.log)
    && Taken(last.log) <= start + Planned(last.log)
    && (outcome.Halted? <==> HasFatal(last.log))
    && (outcome.Halted? ==> last.log != [] && Last(last.log).Done? && Last(last.log).result == Broke(outcome.fault))
    && (last.log != [] ==> !HasFatal(Front(last.log)))
    && (outcome.Finished? || outcome.NothingSearched? ==>
          outcome == Conclude(last) && Justified(cfg, start, last.log))
  }

  /** The four ways a run may come to its own end: no seed is left, its budget is spent, its target is met, or its
      patience is lost. */
  predicate Justified(cfg: Config, start: seq<Seed>, log: seq<Entry>) {
    || Taken(log) == start + Planned(log)
    || |log| >= Budget(cfg)
    || MetTarget(cfg, log)
    || LostPatience(cfg, log)
  }

  // ----- One iteration keeps it -----

  lemma BudgetIsIterations(cfg: Config)
    ensures Iterations(cfg) == Budget(cfg)
  {
  }

  /** A seed was taken off the queue and the log grew by the entry for it. */
  lemma EntryKeepsOrder(start: seq<Seed>, log: seq<Entry>, queue: seq<Seed>, e: Entry)
    requires InOrder(start, log, queue) && queue != [] && e.seed == queue[0]
    ensures InOrder(start, log + [e], queue[1..] + if e.Done? then e.planned else [])
    ensures Taken(log + [e]) <= start + Planned(log + [e])
  {
    LogGrows(log, e);
    var planned := if e.Done? then e.planned else [];
    assert queue == [e.seed] + queue[1..];
    assert Taken(log + [e]) + (queue[1..] + planned) == Taken(log) + queue + planned;
    assert start + Planned(log + [e]) == start + Planned(log) + planned;
  }

  lemma EntryKeepsPatience(cfg: Config, log: seq<Entry>, e: Entry)
    requires Patient(cfg, log)
    requires !LostPatience(cfg, log)
    ensures Patient(cfg, log + [e])
  {
    hide LostPatience;
    forall j | 0 <= j < |log| + 1
      ensures !LostPatience(cfg, (log + [e])[..j])
    {
      assert (log + [e])[..j] == log[..j];
      assert log[..|log|] == log;
    }
  }

  lemma EntryKeepsBooks(st: State, e: Entry)
    requires Books(st) && st.noProgress == ZeroRun(st.log)
    requires e.Done?
    ensures !Fatal(e.result) ==>
              && Books(Tallied(st, e.result).(log := st.log + [e]))
              && Idled(st, e.result).noProgress == ZeroRun(st.log + [e])
    ensures Fatal(e.result) ==> Books(st.(log := st.log + [e]))
  {
    LogGrows(st.log, e);
  }

  lemma PassKeepsRunning(cfg: Config, world: World, start: seq<Seed>, st: State, result: PassResult)
    requires Running(cfg, start, st) && st.queue != [] && st.iter < Iterations(cfg)
    requires cfg.target > 0 ==> st.total + Count(result) <= cfg.target
    requires Record(cfg, world, st.(queue := st.queue[1..]), st.queue[0], result).Continue?
    ensures Running(cfg, start, Record(cfg, world, st.(queue := st.queue[1..]), st.queue[0], result).state)
  {
    hide PlannedAfter, TotalOf, FailuresIn, ZeroRun, Taken, Planned, HasFatal, Iterations, Patient, InOrder;
    var e := Done(st.queue[0], result, PlannedAfter(cfg, world, st.(queue := st.queue[1..]), result));
    LogGrows(st.log, e);
    EntryKeepsOrder(start, st.log, st.queue, e);
    EntryKeepsPatience(cfg, st.log, e);
    EntryKeepsBooks(st, e);
  }

  lemma PassEnds(cfg: Config, world: World, start: seq<Seed>, st: State, result: PassResult)
    requires Running(cfg, start, st) && st.queue != [] && st.iter < Iterations(cfg)
    requires cfg.target > 0 ==> st.total + Count(result) <= cfg.target
    requires Record(cfg, world, st.(queue := st.queue[1..]), st.queue[0], result).Stop?
    ensures var step := Record(cfg, world, st.(queue := st.queue[1..]), st.queue[0], result);
            Ended(cfg, start, step.state, step.outcome)
  {
    hide PlannedAfter, TotalOf, FailuresIn, ZeroRun, Taken, Planned, HasFatal, Iterations, Patient, InOrder, Count;
    var e := Done(st.queue[0], result, PlannedAfter(cfg, world, st.(queue := st.queue[1..]), result));
    BudgetIsIterations(cfg);
    LogGrows(st.log, e);
    EntryKeepsOrder(start, st.log, st.queue, e);
    EntryKeepsPatience(cfg, st.log, e);
    EntryKeepsBooks(st, e);
  }

  lemma SkipKeeps(cfg: Config, start: seq<Seed>, st: State)
    requires Running(cfg, start, st) && st.queue != [] && st.iter < Iterations(cfg)
    ensures Running(cfg, start, st.(queue := st.queue[1..], iter := st.iter + 1, log := st.log + [Skip(st.queue[0])]))
  {
    hide Taken, Planned, HasFatal, Iterations, Patient;
    var e := Skip(st.queue[0]);
    LogGrows(st.log, e);
    EntryKeepsOrder(start, st.log, st.queue, e);
    EntryKeepsPatience(cfg, st.log, e);
    assert st.queue[1..] + [] == st.queue[1..];
  }

  lemma StoppingBetweenPasses(cfg: Config, start: seq<Seed>, st: State, rest: seq<Seed>)
    requires Running(cfg, start, st)
    ensures Ended(cfg, start, st.(queue := rest), StoreError)
    ensures Justified(cfg, start, st.log) ==> Ended(cfg, start, st.(queue := rest), Conclude(st))
    ensures st.queue == [] ==> Justified(cfg, start, st.log)
  {
    hide TotalOf, FailuresIn, ZeroRun, Taken, Planned, Patient, LostPatience, EndsTheRun;
    assert Taken(st.log) <= Taken(st.log) + st.queue;
    assert Taken(st.log) + [] == Taken(st.log);
    if st.log != [] {
      assert forall e <- Front(st.log) :: e in st.log;
    }
  }

  lemma IterationKeeps(cfg: Config, world: World, start: seq<Seed>, st: State)
    requires Running(cfg, start, st) && st.queue != [] && st.iter < Iterations(cfg)
    ensures var step := Iterate(cfg, world, st);
            && (step.Continue? ==> Running(cfg, start, step.state))
            && (step.Stop? ==> Ended(cfg, start, step.state, step.outcome))
  {
    hide Pass, Record, Ended, Patient, InOrder, HasFatal;
    var seed := st.queue[0];
    if cfg.learn && seed != cfg.initial && !world.explored(seed).Fresh? {
      SkipKeeps(cfg, start, st);
      StoppingBetweenPasses(cfg, start, st, st.queue[1..]);
    } else if cfg.target > 0 && cfg.target <= st.total {
      StoppingBetweenPasses(cfg, start, st, st.queue[1..]);
    } else {
      var result := Pass(cfg.pass, world.scrape(seed), Remaining(cfg, st.total));
      if cfg.target > 0 {
        PassIsCapped(cfg.pass, world.scrape(seed), Remaining(cfg, st.total));
      }
      IterateRunsAPass(cfg, world, st);
      if Iterate(cfg, world, st).Stop? {
        PassEnds(cfg, world, start, st, result);
      } else {
        PassKeepsRunning(cfg, world, start, st, result);
      }
    }
  }

  lemma {:induction false} LoopEnds(cfg: Config, worlds: nat -> World, start: seq<Seed>, st: State)
    requires Running(cfg, start, st)
    ensures var (last, outcome) := Loop(cfg, worlds, st);
            Ended(cfg, start, last, outcome)
    decreases Iterations(cfg) - st.iter
  {
    hide Iterate;
    if st.iter < Iterations(cfg) && st.queue != [] {
      LoopUnfolds(cfg, worlds, st);
      IterationKeeps(cfg, worlds(st.iter), start, st);
      var step := Iterate(cfg, worlds(st.iter), st);
      if step.Continue? {
        IterationAdvances(cfg, worlds(st.iter), st);
        LoopEnds(cfg, worlds, start, step.state);
      }
    } else {
      StoppingBetweenPasses(cfg, start, st, st.queue);
    }
  }

  lemma IterationAdvances(cfg: Config, world: World, st: State)
    requires st.queue != []
    ensures var step := Iterate(cfg, world, st);
            step.Continue? ==> step.state.iter == st.iter + 1
  {
    hide Pass;
  }

  // ----- The laws, for every run -----

  lemma EveryRunEnds(cfg: Config, worlds: nat -> World, start: seq<Seed>)
    ensures var (last, outcome) := Loop(cfg, worlds, Start(start));
            Ended(cfg, start, last, outcome)
  {
    assert Taken([]) + start == start + Planned([]);
    LoopEnds(cfg, worlds, start, Start(start));
  }

  /** A run takes at most its budget of seeds, in queue order: the starting queue, then planned seeds as they came. */
  lemma SeedsAreTakenInOrder(cfg: Config, worlds: nat -> World, start: seq<Seed>)
    ensures var log := Loop(cfg, worlds, Start(start)).0.log;
            && (log == [] || |log| <= Budget(cfg))
            && Taken(log) <= start + Planned(log)
  {
    EveryRunEnds(cfg, worlds, start);
  }

  /** A run takes up the queue an earlier one left, and the plan's own seed when there is none or it starts over. */
  lemma RunTakesUpTheQueue(cfg: Config, worlds: nat -> World, restart: bool, resumed: seq<Seed>)
    ensures var log := Loop(cfg, worlds, Start(InitialQueue(cfg, restart, resumed))).0.log;
            && (!restart && resumed != [] ==> Taken(log) <= resumed + Planned(log))
            && (restart || resumed == [] ==> Taken(log) <= [cfg.initial] + Planned(log))
  {
    hide Loop;
    SeedsAreTakenInOrder(cfg, worlds, InitialQueue(cfg, restart, resumed));
  }

  /** No seed is taken once the allowed number of passes in a row found nothing. */
  lemma PatienceIsKept(cfg: Config, worlds: nat -> World, start: seq<Seed>, j: nat)
    requires j < |Loop(cfg, worlds, Start(start)).0.log|
    ensures !LostPatience(cfg, Loop(cfg, worlds, Start(start)).0.log[..j])
  {
    EveryRunEnds(cfg, worlds, start);
  }

  /** With a target set, the new results counted never exceed it. */
  lemma TargetIsNeverExceeded(cfg: Config, worlds: nat -> World, start: seq<Seed>)
    requires cfg.target > 0
    ensures TotalOf(Loop(cfg, worlds, Start(start)).0.log) <= cfg.target
  {
    EveryRunEnds(cfg, worlds, start);
  }

  /** The verdict is honest: a total is the sum of the passes, a zero total means no pass failed,
      and a run is halted exactly when one of its passes was fatal. */
  lemma OutcomeIsHonest(cfg: Config, worlds: nat -> World, start: seq<Seed>)
    ensures var (last, outcome) := Loop(cfg, worlds, Start(start));
            && (outcome.Halted? <==> HasFatal(last.log))
            && (outcome.Finished? ==>
                  outcome.total == TotalOf(last.log) && (outcome.total == 0 ==> FailuresIn(last.log) == 0))
            && (outcome.NothingSearched? ==>
                  TotalOf(last.log) == 0 && outcome.failures == FailuresIn(last.log) > 0)
  {
    EveryRunEnds(cfg, worlds, start);
  }

  /** A run that was not cut short used up its queue, its budget, its target or its patience. */
  lemma RunsStopForAReason(cfg: Config, worlds: nat -> World, start: seq<Seed>)
    ensures var (last, outcome) := Loop(cfg, worlds, Start(start));
            outcome.Finished? || outcome.NothingSearched? ==> Justified(cfg, start, last.log)
  {
    EveryRunEnds(cfg, worlds, start);
  }

  // ----- Every entry is a real pass -----

  /** A seed whose turn it is is looked up unless it is the plan's own; a run that does not learn looks none up. */
  predicate IsLookedUp(cfg: Config, seed: Seed) {
    cfg.learn && seed != cfg.initial
  }

  /** Whether an entry that did not end the run found the planner worth asking: fewer seeds waiting than iterations
      left. What waits is everything queued or planned before it, but for the seeds taken. */
  predicate IsPlannedAfter(cfg: Config, start: seq<Seed>, before: seq<Entry>, e: Entry) {
    var left := Budget(cfg) - (|before| + 1);
    && cfg.learn && cfg.plannerPrompt
    && left > 0 && |start + Planned(before)| - (|before| + 1) < left
    && !EndsTheRun(e) && !MetTarget(cfg, before + [e]) && !LostPatience(cfg, before + [e])
  }

  /** An entry behind the others: a skipped seed was explored lately; any other is that seed's own pass, capped to what
      the target lacked, and brought in what the planner said if it was asked, and nothing if not. */
  predicate IsReal(cfg: Config, world: World, start: seq<Seed>, before: seq<Entry>, e: Entry) {
    match e
    case Skip(seed) => IsLookedUp(cfg, seed) && world.explored(seed) == Explored
    case Done(seed, result, planned) =>
      && (IsLookedUp(cfg, seed) ==> world.explored(seed) == Fresh)
      && !MetTarget(cfg, before)
      && result == Pass(cfg.pass, world.scrape(seed),
                        if cfg.target > 0 then Some(cfg.target - TotalOf(before)) else None)
      && planned == if IsPlannedAfter(cfg, start, before, e) then world.planned else []
  }

  predicate Faithful(cfg: Config, worlds: nat -> World, start: seq<Seed>, log: seq<Entry>) {
    forall j {:trigger log[j]} :: 0 <= j < |log| ==> IsReal(cfg, worlds(j), start, log[..j], log[j])
  }

  lemma FaithfulGrows(cfg: Config, worlds: nat -> World, start: seq<Seed>, log: seq<Entry>, e: Entry)
    requires Faithful(cfg, worlds, start, log) && IsReal(cfg, worlds(|log|), start, log, e)
    ensures Faithful(cfg, worlds, start, log + [e])
  {
    hide IsReal;
    forall j | 0 <= j < |log| + 1
      ensures (log + [e])[..j] == log[..j]
    {
    }
    assert log[..|log|] == log;
  }

  lemma {:induction false} OneSeedEach(log: seq<Entry>)
    ensures |Taken(log)| == |log|
  {
    if log != [] {
      OneSeedEach(Front(log));
    }
  }

  /** What a pass leaves behind is what its entry says it must. */
  lemma PlannedIsReal(cfg: Config, world: World, start: seq<Seed>, st: State, seed: Seed, result: PassResult)
    requires Running(cfg, start, st) && st.queue != []
    ensures var planned := PlannedAfter(cfg, world, st.(queue := st.queue[1..]), result);
            planned == if IsPlannedAfter(cfg, start, st.log, Done(seed, result, planned)) then world.planned else []
  {
    hide Taken, Planned, Patient, HasFatal, TotalOf, ZeroRun, FailuresIn, Iterations;
    var planned := PlannedAfter(cfg, world, st.(queue := st.queue[1..]), result);
    var e := Done(seed, result, planned);
    OneSeedEach(st.log);
    BudgetIsIterations(cfg);
    TalliesAdd(st.log, e);
    assert |start + Planned(st.log)| == |st.log| + |st.queue|;
  }

  lemma TalliesAdd(log: seq<Entry>, e: Entry)
    requires e.Done?
    ensures TotalOf(log + [e]) == TotalOf(log) + Found(e)
    ensures ZeroRun(log + [e]) == if Found(e) > 0 then 0 else ZeroRun(log) + 1
  {
    LogGrows(log, e);
  }

  lemma IterationIsFaithful(cfg: Config, worlds: nat -> World, start: seq<Seed>, st: State)
    requires Running(cfg, start, st) && st.queue != [] && Faithful(cfg, worlds, start, st.log)
    ensures Faithful(cfg, worlds, start, Iterate(cfg, worlds(st.iter), st).state.log)
  {
    hide Pass, Faithful, PlannedAfter, Patient, InOrder, IsPlannedAfter, HasFatal, TotalOf, ZeroRun, Iterations;
    var seed := st.queue[0];
    var world := worlds(st.iter);
    if cfg.learn && seed != cfg.initial && !world.explored(seed).Fresh? {
      if world.explored(seed).Explored? {
        FaithfulGrows(cfg, worlds, start, st.log, Skip(seed));
      }
    } else if !(cfg.target > 0 && cfg.target <= st.total) {
      var result := Pass(cfg.pass, world.scrape(seed), Remaining(cfg, st.total));
      var planned := PlannedAfter(cfg, world, st.(queue := st.queue[1..]), result);
      PlannedIsReal(cfg, world, start, st, seed, result);
      FaithfulGrows(cfg, worlds, start, st.log, Done(seed, result, planned));
    }
  }

  /** The store's lookup failed on the seed whose turn it was. */
  predicate LookupBroke(cfg: Config, worlds: nat -> World, start: seq<Seed>, log: seq<Entry>) {
    var queued := start + Planned(log);
    |log| < |queued| && IsLookedUp(cfg, queued[|log|]) && worlds(|log|).explored(queued[|log|]) == LookupFailed
  }

  lemma LookupsBreakARun(cfg: Config, worlds: nat -> World, start: seq<Seed>, st: State)
    requires Running(cfg, start, st) && st.queue != []
    ensures var step := Iterate(cfg, worlds(st.iter), st);
            step.Stop? && step.outcome.StoreError? ==> LookupBroke(cfg, worlds, start, step.state.log)
  {
    hide Pass, PlannedAfter, Patient, HasFatal, TotalOf, ZeroRun, Taken, Planned, Iterations;
    OneSeedEach(st.log);
    assert (Taken(st.log) + st.queue)[|st.log|] == st.queue[0];
  }

  lemma {:induction false} LoopIsFaithful(cfg: Config, worlds: nat -> World, start: seq<Seed>, st: State)
    requires Running(cfg, start, st) && Faithful(cfg, worlds, start, st.log)
    ensures var (last, outcome) := Loop(cfg, worlds, st);
            && Faithful(cfg, worlds, start, last.log)
            && (outcome.StoreError? ==> LookupBroke(cfg, worlds, start, last.log))
    decreases Iterations(cfg) - st.iter
  {
    hide Iterate, Faithful, Running, LookupBroke;
    if st.iter < Iterations(cfg) && st.queue != [] {
      LoopUnfolds(cfg, worlds, st);
      IterationKeeps(cfg, worlds(st.iter), start, st);
      IterationIsFaithful(cfg, worlds, start, st);
      LookupsBreakARun(cfg, worlds, start, st);
      var step := Iterate(cfg, worlds(st.iter), st);
      if step.Continue? {
        IterationAdvances(cfg, worlds(st.iter), st);
        LoopIsFaithful(cfg, worlds, start, step.state);
      }
    }
  }

  /** Over any run: each entry is real, planner and all, and only a broken lookup of the next seed ends it in a store
      error. */
  lemma EveryEntryIsARealPass(cfg: Config, worlds: nat -> World, start: seq<Seed>)
    ensures var (last, outcome) := Loop(cfg, worlds, Start(start));
            && Faithful(cfg, worlds, start, last.log)
            && (outcome.StoreError? ==> LookupBroke(cfg, worlds, start, last.log))
  {
    assert Taken([]) + start == start + Planned([]);
    LoopIsFaithful(cfg, worlds, start, Start(start));
  }

  // ----- Skipping the planner changes nothing -----

  /** An iteration that asks the planner even when the queue already covers the iterations left. */
  function EagerIterate(cfg: Config, world: World, st: State): Next
    requires st.queue != []
  {
    var step := Iterate(cfg, world, st);
    var left := Iterations(cfg) - (st.iter + 1);
    if step.Continue? && step.state.log != [] && Last(step.state.log).Done?
       && cfg.learn && cfg.plannerPrompt && left > 0 && |st.queue[1..]| >= left
    then Continue(step.state.(queue := step.state.queue + world.planned))
    else step
  }

  function EagerLoop(cfg: Config, worlds: nat -> World, st: State): (State, Outcome)
    decreases Iterations(cfg) - st.iter
  {
    if st.iter >= Iterations(cfg) || st.queue == [] then (st, Conclude(st))
    else
      IterationAdvances(cfg, worlds(st.iter), st);
      var step := EagerIterate(cfg, worlds(st.iter), st);
      if step.Stop? then (step.state, step.outcome) else EagerLoop(cfg, worlds, step.state)
  }

  function FirstSeeds(queue: seq<Seed>, n: int): seq<Seed> {
    if n < 0 then [] else if n < |queue| then queue[..n] else queue
  }

  /** The same run so far, with queues that agree on every seed there is still time for. */
  predicate SameReach(cfg: Config, thrifty: State, eager: State) {
    && eager == thrifty.(queue := eager.queue)
    && var left := Iterations(cfg) - thrifty.iter;
       FirstSeeds(thrifty.queue, left) == FirstSeeds(eager.queue, left)
  }

  /** What a pass leaves behind depends on the queue only through whether it covers the iterations left. */
  lemma RecordIgnoresTheQueue(cfg: Config, world: World, a: State, b: State, seed: Seed, result: PassResult)
    requires b == a.(queue := b.queue)
    requires var left := Iterations(cfg) - (a.iter + 1); |a.queue| < left <==> |b.queue| < left
    ensures var x, y := Record(cfg, world, a, seed, result), Record(cfg, world, b, seed, result);
            var planned := PlannedAfter(cfg, world, a, result);
            && (x.Stop? ==> y == Stop(x.state.(queue := b.queue), x.outcome))
            && (x.Continue? ==> x.state.queue == a.queue + planned
                                && y == Continue(x.state.(queue := b.queue + planned)))
  {
    hide Fatal;
  }

  lemma IterateIgnoresTheQueue(cfg: Config, world: World, a: State, b: State)
    requires b == a.(queue := b.queue) && a.queue != [] && b.queue != [] && a.queue[0] == b.queue[0]
    requires var left := Iterations(cfg) - (a.iter + 1); |a.queue[1..]| < left <==> |b.queue[1..]| < left
    ensures var x, y := Iterate(cfg, world, a), Iterate(cfg, world, b);
            && (x.Stop? ==> y == Stop(x.state.(queue := b.queue[1..]), x.outcome))
            && (x.Continue? ==> exists p ::
                  && x.state.queue == a.queue[1..] + p
                  && y == Continue(x.state.(queue := b.queue[1..] + p))
                  && (|a.queue[1..]| >= Iterations(cfg) - (a.iter + 1) ==> p == []))
  {
    hide Pass, Record, Fatal, TargetMet;
    var seed := a.queue[0];
    var a', b' := a.(queue := a.queue[1..]), b.(queue := b.queue[1..]);
    if cfg.learn && seed != cfg.initial && !world.explored(seed).Fresh? {
      assert a.queue[1..] + [] == a.queue[1..] && b.queue[1..] + [] == b.queue[1..];
    } else if !(cfg.target > 0 && cfg.target <= a.total) {
      var result := Pass(cfg.pass, world.scrape(seed), Remaining(cfg, a.total));
      IterateRunsAPass(cfg, world, a);
      IterateRunsAPass(cfg, world, b);
      RecordIgnoresTheQueue(cfg, world, a', b', seed, result);
    }
  }

  lemma SameReachIteration(cfg: Config, world: World, a: State, b: State)
    requires SameReach(cfg, a, b) && a.iter < Iterations(cfg) && a.queue != [] && b.queue != []
    ensures var x, y := Iterate(cfg, world, a), EagerIterate(cfg, world, b);
            && (x.Continue? <==> y.Continue?)
            && (x.Continue? ==> SameReach(cfg, x.state, y.state))
            && (x.Stop? ==> x.outcome == y.outcome && x.state.log == y.state.log)
  {
    hide Iterate;
    var left := Iterations(cfg) - (a.iter + 1);
    SameReachDequeue(a.queue, b.queue, left);
    IterateIgnoresTheQueue(cfg, world, a, b);
    IterationAdvances(cfg, world, a);
    if |a.queue[1..]| >= left && Iterate(cfg, world, a).Continue? {
      SameReachEnqueue(a.queue[1..], b.queue[1..], [], world.planned, left);
      SameReachEnqueue(a.queue[1..], b.queue[1..], [], [], left);
      assert b.queue[1..] + [] + world.planned == b.queue[1..] + world.planned;
    }
  }

  lemma SameReachDequeue(a: seq<Seed>, b: seq<Seed>, left: nat)
    requires a != [] && b != [] && FirstSeeds(a, left + 1) == FirstSeeds(b, left + 1)
    ensures a[0] == b[0] && FirstSeeds(a[1..], left) == FirstSeeds(b[1..], left)
    ensures |a[1..]| < left || |b[1..]| < left ==> a == b
  {
    var fa, fb := FirstSeeds(a, left + 1), FirstSeeds(b, left + 1);
    assert a[0] == fa[0] && b[0] == fb[0];
    assert FirstSeeds(a[1..], left) == fa[1..];
    assert FirstSeeds(b[1..], left) == fb[1..];
  }

  lemma SameReachEnqueue(a: seq<Seed>, b: seq<Seed>, p: seq<Seed>, q: seq<Seed>, left: int)
    requires FirstSeeds(a, left) == FirstSeeds(b, left) && |a| >= left && |b| >= left
    ensures FirstSeeds(a + p, left) == FirstSeeds(b + q, left)
  {
    if left >= 0 {
      assert (a + p)[..left] == a[..left];
      assert (b + q)[..left] == b[..left];
    }
  }

  lemma {:induction false} SameReachLoop(cfg: Config, worlds: nat -> World, a: State, b: State)
    requires SameReach(cfg, a, b)
    ensures var (x, out) := Loop(cfg, worlds, a);
            var (y, out') := EagerLoop(cfg, worlds, b);
            out == out' && x.log == y.log
    decreases Iterations(cfg) - a.iter
  {
    hide Iterate, EagerIterate;
    if a.iter < Iterations(cfg) && a.queue != [] {
      assert b.queue != [];
      LoopUnfolds(cfg, worlds, a);
      var world := worlds(a.iter);
      SameReachIteration(cfg, world, a, b);
      if Iterate(cfg, world, a).Continue? {
        IterationAdvances(cfg, world, a);
        SameReachLoop(cfg, worlds, Iterate(cfg, world, a).state, EagerIterate(cfg, world, b).state);
      }
    }
  }

  /** Not asking the planner while the queue covers the iterations left saves a call and changes no run:
      the same seeds, the same passes, the same verdict as asking every time. */
  lemma SkippingThePlannerIsHarmless(cfg: Config, worlds: nat -> World, start: seq<Seed>)
    ensures var (last, outcome) := Loop(cfg, worlds, Start(start));
            var (last', outcome') := EagerLoop(cfg, worlds, Start(start));
            outcome == outcome' && last.log == last'.log
  {
    SameReachLoop(cfg, worlds, Start(start), Start(start));
  }
}
