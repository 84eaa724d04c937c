/** The learn-mode loop: a seed queue, a target, an iteration budget and a zero-yield stop (cmd/src/pipeline.rs). */
module RunLoop {
  import opened Text
  import opened Passes

  type Seed = string

  /** The answer to "was this seed already explored lately?" */
  datatype Lookup = Fresh | Explored | LookupFailed

  /** Everything the outside world answers during one iteration. */
  datatype World = World(
    explored: Seed -> Lookup,
    scrape: Seed -> Scrape,
    planned: seq<Seed>)      // what the planner suggests when asked; empty when it fails

  datatype Config = Config(
    pass: PassOptions,
    learn: bool,
    budget: int,             // the iterations asked for
    target: int,
    maxNoProgress: int,
    plannerPrompt: bool,
    initial: Seed)

  function Iterations(cfg: Config): int {
    if cfg.pass.kind.Report? then 1 else if cfg.learn then cfg.budget else 1
  }

  /** The seeds a run starts from: the queue an earlier run left, unless it left none or a restart was asked for. */
  function InitialQueue(cfg: Config, restart: bool, resumed: seq<Seed>): seq<Seed> {
    if restart || resumed == [] then [cfg.initial] else resumed
  }

  /** One entry per seed taken off the queue. */
  datatype Entry =
    | Skip(seed: Seed)
    | Done(seed: Seed, result: PassResult, planned: seq<Seed>)

  datatype Outcome = Finished(total: nat) | NothingSearched(failures: nat) | Halted(fault: Fault) | StoreError

  datatype State = State(queue: seq<Seed>, iter: nat, noProgress: nat, total: nat, failures: nat, log: seq<Entry>)

  // ----- The loop as a function of its state -----

  predicate Fatal(result: PassResult) {
    result.Broke? && !result.fault.OtherFault?
  }

  function Count(result: PassResult): nat {
    if result.Yield? then result.count else 0
  }

  function Remaining(cfg: Config, total: nat): Option<int> {
    if cfg.target > 0 then Some(cfg.target - total) else None
  }

  /** Whether the planner is asked at the end of an iteration. */
  predicate Asks(cfg: Config, queued: nat, itersLeft: int) {
    cfg.learn && cfg.plannerPrompt && itersLeft > 0 && queued < itersLeft
  }

  datatype Next = Continue(state: State) | Stop(state: State, outcome: Outcome)

  function Conclude(st: State): Outcome {
    if st.total == 0 && st.failures > 0 then NothingSearched(st.failures) else Finished(st.total)
  }

  function Iterate(cfg: Config, world: World, st: State): Next
    requires st.queue != []
  {
    var seed := st.queue[0];
    var st := st.(queue := st.queue[1..]);
    var lookup := if cfg.learn && seed != cfg.initial then world.explored(seed) else Fresh;
    if lookup.LookupFailed? then Stop(st, StoreError)
    else if lookup.Explored? then Continue(st.(iter := st.iter + 1, log := st.log + [Skip(seed)]))
    else if cfg.target > 0 && cfg.target <= st.total then Stop(st, Conclude(st))
    else Record(cfg, world, st, seed, Pass(cfg.pass, world.scrape(seed), Remaining(cfg, st.total)))
  }

  /** What a pass leaves behind, and whether the loop goes on. */
  function Record(cfg: Config, world: World, st: State, seed: Seed, result: PassResult): Next {
    var planned := PlannedAfter(cfg, world, st, result);
    var st := st.(log := st.log + [Done(seed, result, planned)]);
    if Fatal(result) then Stop(st, Halted(result.fault))
    else
      var tallied := Tallied(st, result);
      var next := Idled(tallied, result);
      if TargetMet(cfg, tallied) then Stop(tallied, Conclude(tallied))
      else if OutOfPatience(cfg, next) then Stop(next, Conclude(next))
      else Continue(next.(queue := next.queue + planned, iter := next.iter + 1))
  }

  function Tallied(st: State, result: PassResult): State {
    st.(total := st.total + Count(result), failures := st.failures + if result.Broke? then 1 else 0)
  }

  function Idled(st: State, result: PassResult): State {
    st.(noProgress := if Count(result) == 0 then st.noProgress + 1 else 0)
  }

  predicate TargetMet(cfg: Config, st: State) {
    cfg.target > 0 && st.total >= cfg.target
  }

  predicate OutOfPatience(cfg: Config, st: State) {
    st.noProgress > 0 && st.noProgress >= cfg.maxNoProgress
  }

  /** The seeds a finished pass leaves behind; none when the loop is about to stop. */
  function PlannedAfter(cfg: Config, world: World, st: State, result: PassResult): seq<Seed> {
    var next := Idled(Tallied(st, result), result);
    if Fatal(result) || TargetMet(cfg, next) || OutOfPatience(cfg, next) then []
    else if Asks(cfg, |st.queue|, Iterations(cfg) - (st.iter + 1)) then world.planned
    else []
  }

  function Loop(cfg: Config, worlds: nat -> World, st: State): (State, Outcome)
    decreases Iterations(cfg) - st.iter
  {
    if st.iter >= Iterations(cfg) || st.queue == [] then (st, Conclude(st))
    else
      match Iterate(cfg, worlds(st.iter), st)
      case Stop(last, outcome) => (last, outcome)
      case Continue(next) => Loop(cfg, worlds, next)
  }

  function Start(queue: seq<Seed>): State {
    State(queue, 0, 0, 0, 0, [])
  }

  // ----- The loop as the pipeline runs it -----

  lemma LoopUnfolds(cfg: Config, worlds: nat -> World, st: State)
    requires st.iter < Iterations(cfg) && st.queue != []
    ensures var step := Iterate(cfg, worlds(st.iter), st);
            Loop(cfg, worlds, st) ==
            if step.Stop? then (step.state, step.outcome) else Loop(cfg, worlds, step.state)
  {
  }

  lemma IterateRunsAPass(cfg: Config, world: World, st: State)
    requires st.queue != []
    requires !(cfg.learn && st.queue[0] != cfg.initial) || world.explored(st.queue[0]).Fresh?
    requires cfg.target > 0 ==> st.total < cfg.target
    ensures Iterate(cfg, world, st) ==
            Record(cfg, world, st.(queue := st.queue[1..]), st.queue[0],
                   Pass(cfg.pass, world.scrape(st.queue[0]), Remaining(cfg, st.total)))
  {
  }

  /** The bookkeeping after a pass: totals, the stop rules, and whether the planner is worth asking. */
  method Account(cfg: Config, iterations: int, world: World, queue: seq<Seed>, iter: nat, noProgress: nat,
                 totalNew: nat, failures: nat, result: PassResult, ghost st: State, ghost seed: Seed)
    returns (iter': nat, noProgress': nat, totalNew': nat, failures': nat, fatal: bool, stop: bool,
             suggested: seq<Seed>)
    requires iterations == Iterations(cfg)
    requires st == State(queue, iter, noProgress, totalNew, failures, st.log)
    ensures suggested == PlannedAfter(cfg, world, st, result)
    ensures fatal ==> result.Broke?
    ensures var log := st.log + [Done(seed, result, suggested)];
            var last := State(queue, st.iter, noProgress', totalNew', failures', log);
            Record(cfg, world, st, seed, result) ==
            if fatal then Stop(last, Halted(result.fault))
            else if stop then Stop(last, Conclude(last))
            else Continue(State(queue + suggested, iter', noProgress', totalNew', failures', log))
    ensures iter' == iter || iter' == iter + 1
    ensures !fatal && !stop ==> iter' == iter + 1
  {
    iter', noProgress', totalNew', failures', fatal, stop, suggested :=
      iter, noProgress, totalNew, failures, false, false, [];
    var newCount := 0;
    if result.Broke? {
      if !result.fault.OtherFault? {
        fatal := true;
        return;
      }
      failures' := failures + 1;
    } else {
      newCount := result.count;
    }
    totalNew' := totalNew + newCount;
    if cfg.target > 0 && totalNew' >= cfg.target {
      iter', stop := iter + 1, true;
      return;
    }
    if newCount == 0 {
      noProgress' := noProgress + 1;
      if noProgress' >= cfg.maxNoProgress {
        stop := true;
        return;
      }
    } else {
      noProgress' := 0;
    }
    var itersLeft := iterations - (iter + 1);
    if cfg.learn && cfg.plannerPrompt && itersLeft > 0 && |queue| < itersLeft {
      suggested := world.planned;
    }
    iter' := iter + 1;
  }

  method RunPipeline(cfg: Config, restart: bool, resumed: seq<Seed>, worlds: nat -> World)
    returns (outcome: Outcome, log: seq<Entry>)
    ensures var (last, out) := Loop(cfg, worlds, Start(InitialQueue(cfg, restart, resumed)));
            outcome == out && log == last.log
  {
    hide Pass, Record;
    var iterations := if cfg.pass.kind.Report? then 1 else if cfg.learn then cfg.budget else 1;
    var queue := if restart then [cfg.initial] else if resumed == [] then [cfg.initial] else resumed;
    var noProgress: nat, totalNew: nat, failures: nat, iter: nat := 0, 0, 0, 0;
    log := [];
    ghost var goal := Loop(cfg, worlds, Start(InitialQueue(cfg, restart, resumed)));
    while iter < iterations && queue != []
      invariant Loop(cfg, worlds, State(queue, iter, noProgress, totalNew, failures, log)) == goal
      decreases iterations - iter
    {
      ghost var before := State(queue, iter, noProgress, totalNew, failures, log);
      LoopUnfolds(cfg, worlds, before);
      var seed := queue[0];
      queue := queue[1..];
      ghost var taken := before.(queue := queue);
      var world := worlds(iter);
      if cfg.learn && seed != cfg.initial {
        var lookup := world.explored(seed);
        if lookup.LookupFailed? {
          return StoreError, log;
        }
        if lookup.Explored? {
          iter := iter + 1;
          log := log + [Skip(seed)];
          continue;
        }
      }
      var remaining: Option<int> := None;
      if cfg.target > 0 {
        var left := cfg.target - totalNew;
        if left <= 0 {
          break;
        }
        remaining := Some(left);
      }
      var result := RunPass(cfg.pass, world.scrape(seed), remaining);
      IterateRunsAPass(cfg, world, before);
      var fatal, stop, suggested;
      iter, noProgress, totalNew, failures, fatal, stop, suggested :=
        Account(cfg, iterations, world, queue, iter, noProgress, totalNew, failures, result, taken, seed);
      log := log + [Done(seed, result, suggested)];
      if fatal {
        return Halted(result.fault), log;
      }
      if stop {
        break;
      }
      queue := queue + suggested;
      assert Iterate(cfg, world, before) == Continue(State(queue, iter, noProgress, totalNew, failures, log));
    }
    outcome := if totalNew == 0 && failures > 0 then NothingSearched(failures) else Finished(totalNew);
  }
}
