/** What the guard keeps over every run of tool calls, in any order and with any interleaving of call ids. */
module GuardLaws {
  import opened Text
  import opened Json
  import opened Hosts
  import opened Guard

  /** The guard's memory after a run of events. */
  function After(policy: Policy, events: seq<Event>): Memory {
    if events == [] then FRESH
    else Inspect(policy, After(policy, events[..|events| - 1]), events[|events| - 1]).memory
  }

  /** What one event draws. */
  function Verdict(policy: Policy, m: Memory, e: Event): seq<Violation> {
    match Inspect(policy, m, e).verdict
    case None => []
    case Some(v) => [v]
  }

  /** Every verdict a run returned, in order. */
  function Verdicts(policy: Policy, events: seq<Event>): seq<Violation> {
    if events == [] then []
    else
      var front := events[..|events| - 1];
      Verdicts(policy, front) + Verdict(policy, After(policy, front), events[|events| - 1])
  }

  // ----- One event -----

  /** The verdicts that spend the refusal budget. */
  predicate Counted(v: Violation) {
    v.reason in {RefusedAttempt, RestrictedPlatform, PersistentAttempts}
  }

  /** Whether a reason ends the run; None when it depends on how the call ended. */
  function ReasonIsFatal(reason: Reason): Option<bool> {
    match reason
    case PolicyFailed => Some(true)
    case PersistentAttempts => Some(true)
    case OffAllowlistNavigation => Some(true)
    case RefusedAttempt => Some(false)
    case RestrictedPlatform => Some(false)
    case SearchViaBrowser => Some(false)
    case _ => None
  }

  /** A verdict against the memory it was given, before it is recorded. */
  predicate WellJudged(m: Memory, j: Judged) {
    && j.memory.tripped == m.tripped && j.memory.violations == m.violations && j.memory.pending == m.pending
    && (j.verdict.None? ==> j.memory.refused == m.refused)
    && (j.verdict.Some? ==>
          && j.memory.refused == m.refused + (if Counted(j.verdict.value) then 1 else 0)
          && (Counted(j.verdict.value) ==> j.verdict.value.fatal == (j.memory.refused > REFUSED_ATTEMPT_BUDGET))
          && (ReasonIsFatal(j.verdict.value.reason).Some? ==>
                j.verdict.value.fatal == ReasonIsFatal(j.verdict.value.reason).value))
  }

  lemma HostsAreWellJudged(policy: Policy, m: Memory, tool: string, args: Value, result: Value)
    ensures WellJudged(m, JudgedHosts(policy, m, tool, args, result))
  {
    hide CallHosts, Remembered, HostAllowed, IsRestricted;
  }

  lemma CallsAreWellJudged(policy: Policy, m: Memory, tool: string, args: Value, result: Value)
    ensures WellJudged(m, JudgedCall(policy, m, tool, args, result))
  {
    hide JudgedHosts, WasRefused, IsCursorDumpRead, WellJudged, Refused, Outcome;
    HostsAreWellJudged(policy, m, tool, args, result);
    OutcomesAreWellJudged(policy, m, tool, ForbiddenMcpServer, args, result);
    OutcomesAreWellJudged(policy, m, tool, CodeExecutionInBrowser, args, result);
    RefusalsAreWellJudged(m, tool, RefusedAttempt, policy.redact(args));
    PlainVerdicts(policy, m, tool, args);
  }

  lemma OutcomesAreWellJudged(policy: Policy, m: Memory, tool: string, reason: Reason, args: Value, result: Value)
    requires reason in {ForbiddenMcpServer, CodeExecutionInBrowser}
    ensures WellJudged(m, Outcome(policy, m, tool, reason, args, result))
  {
    hide WasRefused;
  }

  lemma RefusalsAreWellJudged(m: Memory, tool: string, within: Reason, detail: string)
    requires within in {RefusedAttempt, RestrictedPlatform}
    ensures WellJudged(m, Refused(m, tool, within, detail))
  {
  }

  lemma PlainVerdicts(policy: Policy, m: Memory, tool: string, args: Value)
    ensures WellJudged(m, Judged(None, m))
    ensures WellJudged(m, Judged(Some(Violation(tool, SearchViaBrowser, policy.redact(args), false)), m))
    ensures WellJudged(m, Judged(Some(Violation(tool, PolicyFailed, policy.redact(args), true)), m))
  {
  }

  lemma EventsAreWellJudged(policy: Policy, m: Memory, e: Event)
    ensures var j := Inspect(policy, m, e);
            && (j.verdict.None? ==> j.memory.refused == m.refused && j.memory.tripped == m.tripped
                                    && j.memory.violations == m.violations)
            && (j.verdict.Some? ==>
                  var v := j.verdict.value;
                  && j.memory.tripped == (m.tripped || v.fatal)
                  && j.memory.violations ==
                       (if |m.violations| < MAX_VIOLATIONS then m.violations + [v] else m.violations)
                  && j.memory.refused == m.refused + (if Counted(v) then 1 else 0)
                  && (Counted(v) ==> v.fatal == (j.memory.refused > REFUSED_ATTEMPT_BUDGET))
                  && (ReasonIsFatal(v.reason).Some? ==> v.fatal == ReasonIsFatal(v.reason).value))
    ensures Inspect(policy, m, e).memory.pending ==
            if e.Call? then Recall(m.pending, e.callId, e.args, e.result).pending else m.pending
  {
    hide JudgedHosts, JudgedCall, Recall;
    match e
    case Call(tool, args, result, callId) =>
      var recalled := Recall(m.pending, callId, args, result);
      CallsAreWellJudged(policy, m.(pending := recalled.pending), tool, recalled.args, result);
    case Before(tool, args) =>
      HostsAreWellJudged(policy, m, tool, args, Null);
  }

  // ----- Latches, logs and the refusal budget, over every run -----

  function FirstOf(vs: seq<Violation>, n: nat): seq<Violation> {
    if n < |vs| then vs[..n] else vs
  }

  function CountedAmong(vs: seq<Violation>): seq<Violation> {
    if vs == [] then []
    else CountedAmong(vs[..|vs| - 1]) + if Counted(vs[|vs| - 1]) then [vs[|vs| - 1]] else []
  }

  /** The refusals counted so far, fatal from the fourth on and never before. */
  predicate BudgetKept(vs: seq<Violation>, refused: nat) {
    && refused == |CountedAmong(vs)|
    && forall i :: 0 <= i < |CountedAmong(vs)| ==> (CountedAmong(vs)[i].fatal <==> i >= 3)
  }

  predicate ReasonsKept(vs: seq<Violation>) {
    forall v <- vs :: ReasonIsFatal(v.reason).Some? ==> v.fatal == ReasonIsFatal(v.reason).value
  }

  predicate Faithful(vs: seq<Violation>, m: Memory) {
    && (m.tripped <==> exists v <- vs :: v.fatal)
    && m.violations == FirstOf(vs, 32)
    && BudgetKept(vs, m.refused)
    && ReasonsKept(vs)
  }

  lemma VerdictKeepsBudget(vs: seq<Violation>, refused: nat, v: Violation, refused': nat)
    requires BudgetKept(vs, refused)
    requires refused' == refused + (if Counted(v) then 1 else 0)
    requires Counted(v) ==> v.fatal == (refused' > REFUSED_ATTEMPT_BUDGET)
    ensures BudgetKept(vs + [v], refused')
  {
    hide Counted;
    var all := vs + [v];
    assert all[..|all| - 1] == vs && all[|all| - 1] == v;
    assert CountedAmong(all) == CountedAmong(vs) + if Counted(v) then [v] else [];
  }

  lemma VerdictKeepsFaith(vs: seq<Violation>, m: Memory, v: Violation, m': Memory)
    requires Faithful(vs, m)
    requires m'.tripped == (m.tripped || v.fatal)
    requires m'.violations == if |m.violations| < MAX_VIOLATIONS then m.violations + [v] else m.violations
    requires m'.refused == m.refused + (if Counted(v) then 1 else 0)
    requires Counted(v) ==> v.fatal == (m'.refused > REFUSED_ATTEMPT_BUDGET)
    requires ReasonIsFatal(v.reason).Some? ==> v.fatal == ReasonIsFatal(v.reason).value
    ensures Faithful(vs + [v], m')
  {
    hide Counted, ReasonIsFatal, BudgetKept;
    VerdictKeepsBudget(vs, m.refused, v, m'.refused);
    var all := vs + [v];
    assert forall x :: x in all <==> x in vs || x == v;
    assert |vs| >= MAX_VIOLATIONS ==> all[..MAX_VIOLATIONS] == vs[..MAX_VIOLATIONS];
  }

  /** Every run: tripped exactly when some verdict was fatal; the log is the first 32 verdicts;
      and the counted refusals are fatal from the fourth on, never before. */
  lemma {:induction false} EveryRunIsFaithful(policy: Policy, events: seq<Event>)
    ensures Faithful(Verdicts(policy, events), After(policy, events))
    decreases |events|
  {
    hide Inspect, Counted, ReasonIsFatal;
    if events == [] {
      assert Verdicts(policy, []) == [] && After(policy, []) == FRESH;
    } else {
      var front, e := events[..|events| - 1], events[|events| - 1];
      EveryRunIsFaithful(policy, front);
      var m := After(policy, front);
      EventsAreWellJudged(policy, m, e);
      match Inspect(policy, m, e).verdict
      case None =>
        assert Verdicts(policy, front) + [] == Verdicts(policy, front);
      case Some(v) =>
        VerdictKeepsFaith(Verdicts(policy, front), m, v, After(policy, events));
    }
  }

  /** Once tripped, a guard stays tripped. */
  lemma {:induction false} TrippingIsForever(policy: Policy, events: seq<Event>, i: nat)
    requires i <= |events| && After(policy, events[..i]).tripped
    ensures After(policy, events).tripped
    decreases |events|
  {
    hide Inspect;
    if i == |events| {
      assert events[..i] == events;
    } else {
      var front := events[..|events| - 1];
      assert front[..i] == events[..i];
      TrippingIsForever(policy, front, i);
      EventsAreWellJudged(policy, After(policy, front), events[|events| - 1]);
    }
  }

  // ----- Bounds -----

  lemma {:induction false} AsSetIsNoLarger(hosts: seq<string>)
    ensures |AsSet(hosts)| <= |hosts|
  {
    if hosts != [] {
      AsSetIsNoLarger(hosts[1..]);
      assert AsSet(hosts) == {hosts[0]} + AsSet(hosts[1..]);
    } else {
      assert AsSet(hosts) == {};
    }
  }

  lemma RememberedFits(seen: set<string>, hosts: seq<string>)
    requires |seen| <= MAX_HOSTS
    ensures |Remembered(seen, hosts)| <= MAX_HOSTS
  {
    var taken := AtMost(hosts, MAX_HOSTS - |seen|);
    AsSetIsNoLarger(taken);
    assert |seen + AsSet(taken)| <= |seen| + |AsSet(taken)|;
  }

  lemma RecallFits(pending: map<string, Value>, callId: string, args: Value, result: Value)
    requires |pending| <= MAX_PENDING
    ensures |Recall(pending, callId, args, result).pending| <= MAX_PENDING
  {
    assert pending[callId := args].Keys == pending.Keys + {callId};
    assert (pending - {callId}).Keys == pending.Keys - {callId};
    assert |pending[callId := args].Keys| <= |pending.Keys| + 1;
    assert |(pending - {callId}).Keys| <= |pending.Keys|;
  }

  lemma CallRemembers(policy: Policy, m: Memory, tool: string, args: Value, result: Value)
    ensures var hosts := JudgedCall(policy, m, tool, args, result).memory.hosts;
            hosts == m.hosts || hosts == Remembered(m.hosts, CallHosts(args, result))
  {
    hide CallHosts, Remembered, WasRefused, IsCursorDumpRead, FirstRestricted, FirstForeign, IndexFrom, Lower;
  }

  /** The hosts an event may add to the log: those the judged call names. */
  function Named(m: Memory, e: Event): seq<string> {
    match e
    case Call(tool, args, result, callId) => CallHosts(Recall(m.pending, callId, args, result).args, result)
    case Before(tool, args) => CallHosts(args, Null)
  }

  lemma HostLogGrowsBy(policy: Policy, m: Memory, e: Event)
    ensures var hosts := Inspect(policy, m, e).memory.hosts;
            hosts == m.hosts || hosts == Remembered(m.hosts, Named(m, e))
  {
    hide CallHosts, Remembered, JudgedCall, FirstRestricted, FirstForeign;
    if e.Call? {
      var recalled := Recall(m.pending, e.callId, e.args, e.result);
      CallRemembers(policy, m.(pending := recalled.pending), e.tool, recalled.args, e.result);
    }
  }

  /** Whatever a page makes the agent do, the guard's own memory stays bounded. */
  lemma {:induction false} MemoryIsBounded(policy: Policy, events: seq<Event>)
    ensures var m := After(policy, events);
            |m.hosts| <= 500 && |m.pending| <= 256 && |m.violations| <= 32
    decreases |events|
  {
    hide Inspect, CallHosts, Remembered, Recall;
    EveryRunIsFaithful(policy, events);
    if events != [] {
      var front, e := events[..|events| - 1], events[|events| - 1];
      MemoryIsBounded(policy, front);
      var m := After(policy, front);
      EventsAreWellJudged(policy, m, e);
      HostLogGrowsBy(policy, m, e);
      RememberedFits(m.hosts, Named(m, e));
      if e.Call? {
        RecallFits(m.pending, e.callId, e.args, e.result);
      }
    }
  }

  // ----- Started and completed -----

  predicate IsStart(e: Event, callId: string) {
    e.Call? && e.callId == callId && e.result.Null? && !e.args.Null?
  }

  predicate IsCompletion(e: Event, callId: string) {
    e.Call? && e.callId == callId && !e.result.Null?
  }

  /** Where a call's latest start stands, if it has not completed since. */
  function LatestStart(events: seq<Event>, callId: string): (at: Option<nat>)
    ensures at.Some? ==> at.value < |events| && IsStart(events[at.value], callId)
  {
    if events == [] then None
    else
      var n := |events| - 1;
      if IsStart(events[n], callId) then Some(n)
      else if IsCompletion(events[n], callId) then None
      else LatestStart(events[..n], callId)
  }

  /** What that start said. */
  function Waiting(events: seq<Event>, callId: string): Option<Value> {
    var at := LatestStart(events, callId);
    if at.Some? then Some(events[at.value].args) else None
  }

  function Held(m: Memory, callId: string): Option<Value> {
    if callId in m.pending then Some(m.pending[callId]) else None
  }

  /** The latest start found the table with room, or already holding what it says. Other calls' starts are no matter. */
  predicate FoundRoom(policy: Policy, events: seq<Event>, callId: string) {
    var at := LatestStart(events, callId);
    at.Some? ==>
      var m := After(policy, events[..at.value]);
      |m.pending| < MAX_PENDING || Held(m, callId) == Some(events[at.value].args)
  }

  /** What one event does to one call's entry. */
  lemma EntryAfter(policy: Policy, m: Memory, e: Event, callId: string)
    requires callId != ""
    ensures var held := Held(Inspect(policy, m, e).memory, callId);
            if IsStart(e, callId) then held == (if |m.pending| < MAX_PENDING then Some(e.args) else Held(m, callId))
            else if IsCompletion(e, callId) then held == None
            else held == Held(m, callId)
  {
    EventsAreWellJudged(policy, m, e);
    hide Inspect;
  }

  lemma {:induction false} NothingHeldUnlessWaiting(policy: Policy, events: seq<Event>, callId: string)
    requires callId != "" && LatestStart(events, callId) == None
    ensures Held(After(policy, events), callId) == None
  {
    hide Inspect, Held;
    if events == [] {
      NothingHeldAtFirst(callId);
    } else {
      var n := |events| - 1;
      EntryAfter(policy, After(policy, events[..n]), events[n], callId);
      if !IsCompletion(events[n], callId) {
        NothingHeldUnlessWaiting(policy, events[..n], callId);
      }
    }
  }

  lemma NothingHeldAtFirst(callId: string)
    ensures Held(FRESH, callId) == None
  {
  }

  /** From a call's latest start on, its entry is what that start left. */
  lemma {:induction false} EntryIsTheLatestStarts(policy: Policy, events: seq<Event>, callId: string)
    requires callId != "" && LatestStart(events, callId).Some?
    ensures var i := LatestStart(events, callId).value;
            var m := After(policy, events[..i]);
            Held(After(policy, events), callId)
            == if |m.pending| < MAX_PENDING then Some(events[i].args) else Held(m, callId)
    decreases |events|
  {
    hide Inspect, Held;
    var n := |events| - 1;
    var front := events[..n];
    EntryAfter(policy, After(policy, front), events[n], callId);
    if !IsStart(events[n], callId) {
      EntryIsTheLatestStarts(policy, front, callId);
      var i := LatestStart(events, callId).value;
      assert front[..i] == events[..i];
    }
  }

  /** At every point of every run, for every call id and whatever the others do: the guard holds exactly what the call's
      own latest start said, if and only if that start found room. */
  lemma PendingIsWaiting(policy: Policy, events: seq<Event>, callId: string)
    requires callId != ""
    ensures Held(After(policy, events), callId) == Waiting(events, callId) <==> FoundRoom(policy, events, callId)
  {
    hide After, LatestStart, Held;
    if LatestStart(events, callId).None? {
      NothingHeldUnlessWaiting(policy, events, callId);
    } else {
      EntryIsTheLatestStarts(policy, events, callId);
    }
  }

  /** So a completed event that carries no arguments is judged by its own started event's, whatever came between, if and
      only if that start found room. */
  lemma CompletedIsJudgedByItsStart(policy: Policy, events: seq<Event>, done: Event)
    requires done.Call? && done.callId != "" && !done.result.Null? && done.args.Null?
    ensures var judged := Recall(After(policy, events).pending, done.callId, done.args, done.result).args;
            var waiting := Waiting(events, done.callId);
            judged == (if waiting.Some? then waiting.value else Null) <==> FoundRoom(policy, events, done.callId)
  {
    PendingIsWaiting(policy, events, done.callId);
    PendingIsNotNull(policy, events, done.callId);
    hide After, LatestStart, FoundRoom;
  }

  /** No entry is null, so losing one is never mistaken for keeping it. */
  lemma PendingIsNotNull(policy: Policy, events: seq<Event>, callId: string)
    requires callId != ""
    ensures Held(After(policy, events), callId) != Some(Null)
    ensures Waiting(events, callId) != Some(Null)
  {
    if callId in After(policy, events).pending {
      PendingIsItsOwn(policy, events, callId);
    }
    hide After;
  }

  // ----- A full table -----

  function IdOf(i: nat): string {
    "call " + Decimal(i)
  }

  function StartOf(i: nat): Event {
    Call("browser_snapshot", Str(IdOf(i)), Null, IdOf(i))
  }

  /** That many calls started, none completed. */
  function Started(n: nat): seq<Event> {
    if n == 0 then [] else Started(n - 1) + [StartOf(n - 1)]
  }

  function Ids(n: nat): set<string> {
    if n == 0 then {} else Ids(n - 1) + {IdOf(n - 1)}
  }

  lemma {:induction false} IdsAreApart(n: nat, i: nat)
    ensures IdOf(i) in Ids(n) <==> i < n
  {
    if n > 0 {
      IdsAreApart(n - 1, i);
      DecimalValue(i);
      DecimalValue(n - 1);
      assert IdOf(i)[5..] == Decimal(i) && IdOf(n - 1)[5..] == Decimal(n - 1);
    }
  }

  lemma {:induction false} IdsAreMany(n: nat)
    ensures |Ids(n)| == n
  {
    if n > 0 {
      IdsAreMany(n - 1);
      IdsAreApart(n - 1, n - 1);
    }
  }

  lemma StartedStep(policy: Policy, n: nat)
    ensures After(policy, Started(n + 1)) == Inspect(policy, After(policy, Started(n)), StartOf(n)).memory
    ensures Started(n + 1)[..|Started(n)|] == Started(n) && Started(n + 1)[|Started(n)|] == StartOf(n)
  {
    hide Inspect;
    assert Started(n + 1)[..|Started(n)|] == Started(n);
  }

  lemma StartEnters(policy: Policy, m: Memory, i: nat)
    requires |m.pending| < MAX_PENDING
    ensures Inspect(policy, m, StartOf(i)).memory.pending.Keys == m.pending.Keys + {IdOf(i)}
  {
    EventsAreWellJudged(policy, m, StartOf(i));
    hide Inspect;
  }

  lemma SizeIsKeys(pending: map<string, Value>, keys: set<string>)
    requires pending.Keys == keys
    ensures |pending| == |keys|
  {
  }

  lemma NothingStarted(policy: Policy)
    ensures After(policy, Started(0)).pending == map[] && Ids(0) == {}
  {
    hide Inspect;
  }

  lemma {:induction false} StartedFill(policy: Policy, n: nat)
    requires n <= MAX_PENDING
    ensures After(policy, Started(n)).pending.Keys == Ids(n) && |After(policy, Started(n)).pending| == n
  {
    hide Inspect, After, Started, IdOf, StartOf;
    IdsAreMany(n);
    if n == 0 {
      NothingStarted(policy);
    } else {
      StartedFill(policy, n - 1);
      StartedStep(policy, n - 1);
      StartEnters(policy, After(policy, Started(n - 1)), n - 1);
      SizeIsKeys(After(policy, Started(n)).pending, Ids(n));
    }
  }

  /** The condition can fail: behind 256 calls in flight one more start is forgotten, and its completion is judged with
      no arguments at all. */
  lemma ForgottenStart(policy: Policy, result: Value)
    requires !result.Null?
    ensures var events := Started(MAX_PENDING + 1);
            var id := IdOf(MAX_PENDING);
            && Waiting(events, id) == Some(Str(id))
            && Recall(After(policy, events).pending, id, Null, result).args == Null
            && !FoundRoom(policy, events, id)
  {
    hide Inspect, Ids;
    var id := IdOf(MAX_PENDING);
    var m := After(policy, Started(MAX_PENDING));
    StartedFill(policy, MAX_PENDING);
    IdsAreApart(MAX_PENDING, MAX_PENDING);
    StartedStep(policy, MAX_PENDING);
    EntryAfter(policy, m, StartOf(MAX_PENDING), id);
    PendingIsWaiting(policy, Started(MAX_PENDING + 1), id);
    hide After, Started;
  }

  /** Even when the table is full, nothing remembered for a call id ever came from another call. */
  lemma {:induction false} PendingIsItsOwn(policy: Policy, events: seq<Event>, callId: string)
    requires callId in After(policy, events).pending
    ensures exists i :: 0 <= i < |events| && IsStart(events[i], callId)
                     && events[i].args == After(policy, events).pending[callId]
    decreases |events|
  {
    hide Inspect;
    if events != [] {
      var n := |events| - 1;
      var front, e := events[..n], events[n];
      EventsAreWellJudged(policy, After(policy, front), e);
      if IsStart(e, callId) && After(policy, events).pending[callId] == e.args {
        assert IsStart(events[n], callId);
      } else {
        PendingIsItsOwn(policy, front, callId);
        var i :| 0 <= i < |front| && IsStart(front[i], callId) && front[i].args == After(policy, front).pending[callId];
        assert events[i] == front[i];
      }
    }
  }

  // ----- What silence means -----

  /** The events whose hosts are judged: browser calls, before they are made and from the stream. */
  predicate Browses(e: Event) {
    match e
    case Before(tool, _) => "browser_" <= tool
    case Call(tool, _, _, _) =>
      var lower := Lower(tool);
      var dot := IndexFrom(lower, ".", 0);
      && dot.Some? && lower[..dot.value] in ALLOWED_MCP_PROVIDERS
      && lower[dot.value + 1..] !in DENIED_BROWSER_TOOLS && "browser_" <= lower[dot.value + 1..]
  }

  /** A host the policy has nothing against: not restricted, unless that is allowed, and on the allowlist if there is
      one. */
  predicate IsInside(policy: Policy, host: string) {
    && (policy.restrictedOk || !IsRestricted(host))
    && (policy.allowlist == [] || HostAllowed(policy.allowlist, host))
  }

  /** The host check, host by host. */
  lemma HostsAreJudgedExactly(policy: Policy, m: Memory, tool: string, args: Value, result: Value)
    ensures var verdict := JudgedHosts(policy, m, tool, args, result).verdict;
            && (verdict.None? <==> forall h <- CallHosts(args, result) :: IsInside(policy, h))
            && (verdict.Some? ==> exists h <- CallHosts(args, result) ::
                  !IsInside(policy, h) && verdict.value.detail == "host " + h)
  {
    hide IsRestricted, HostAllowed, CallHosts, Remembered;
    var hosts := CallHosts(args, result);
    var restricted, foreign := FirstRestricted(hosts), FirstForeign(policy.allowlist, hosts);
    if !policy.restrictedOk && restricted.Some? {
      assert restricted.value in hosts && !IsInside(policy, restricted.value);
    } else if policy.allowlist != [] && foreign.Some? {
      assert foreign.value in hosts && !IsInside(policy, foreign.value);
    }
  }

  /** What an event's arguments are judged as. */
  function JudgedAs(m: Memory, e: Event): (Value, Value) {
    match e
    case Call(_, args, result, callId) => (Recall(m.pending, callId, args, result).args, result)
    case Before(_, args) => (args, Null)
  }

  lemma BrowsingIsHostJudging(policy: Policy, m: Memory, e: Event)
    requires Browses(e)
    ensures var (args, result) := JudgedAs(m, e);
            exists before: Memory :: before.hosts == m.hosts
              && Inspect(policy, m, e).verdict == JudgedHosts(policy, before, e.tool, args, result).verdict
              && Inspect(policy, m, e).memory.hosts == Remembered(m.hosts, CallHosts(args, result))
  {
    hide CallHosts, Remembered, FirstRestricted, FirstForeign, Lower, IndexFrom;
    var before := if e.Call? then m.(pending := Recall(m.pending, e.callId, e.args, e.result).pending) else m;
    var (args, result) := JudgedAs(m, e);
    JudgingLogsHosts(policy, before, e.tool, args, result);
    assert Inspect(policy, m, e) == Recorded(JudgedHosts(policy, before, e.tool, args, result));
    hide JudgedHosts, JudgedCall, Recall;
  }

  lemma JudgingLogsHosts(policy: Policy, m: Memory, tool: string, args: Value, result: Value)
    ensures JudgedHosts(policy, m, tool, args, result).memory.hosts == Remembered(m.hosts, CallHosts(args, result))
  {
    hide CallHosts, Remembered, FirstRestricted, FirstForeign;
  }

  lemma OutcomesLogNoHosts(policy: Policy, m: Memory, tool: string, reason: Reason, args: Value, result: Value)
    ensures Outcome(policy, m, tool, reason, args, result).memory == m
    ensures Refused(m, tool, reason, policy.redact(args)).memory.hosts == m.hosts
  {
    hide WasRefused;
  }

  lemma OthersJudgeNoHosts(policy: Policy, m: Memory, tool: string, args: Value, result: Value)
    requires !Browses(Call(tool, args, result, ""))
    ensures JudgedCall(policy, m, tool, args, result).memory.hosts == m.hosts
  {
    OutcomesLogNoHosts(policy, m, tool, ForbiddenMcpServer, args, result);
    OutcomesLogNoHosts(policy, m, tool, CodeExecutionInBrowser, args, result);
    OutcomesLogNoHosts(policy, m, tool, RefusedAttempt, args, result);
    hide JudgedHosts, WasRefused, IsCursorDumpRead, Lower, IndexFrom, Outcome, Refused;
  }

  lemma OthersLogNoHosts(policy: Policy, m: Memory, e: Event)
    requires !Browses(e)
    ensures Inspect(policy, m, e).memory.hosts == m.hosts
  {
    if e.Call? {
      var recalled := Recall(m.pending, e.callId, e.args, e.result);
      OthersJudgeNoHosts(policy, m.(pending := recalled.pending), e.tool, recalled.args, e.result);
    }
    hide JudgedCall, JudgedHosts, Recall, Lower, IndexFrom;
  }

  /** A browser event draws no verdict if and only if every host it names, sorted out of its own arguments or those its
      start left, is inside the policy; and a verdict names one that is not. */
  lemma SilentBrowsingStaysInside(policy: Policy, m: Memory, e: Event)
    requires Browses(e)
    ensures var verdict := Inspect(policy, m, e).verdict;
            && (verdict.None? <==> forall h <- Named(m, e) :: IsInside(policy, h))
            && (verdict.Some? ==>
                  exists h <- Named(m, e) :: !IsInside(policy, h) && verdict.value.detail == "host " + h)
  {
    var (args, result) := JudgedAs(m, e);
    BrowsingIsHostJudging(policy, m, e);
    hide Inspect, JudgedHosts, CallHosts, IsInside, Browses, Recall;
    var before: Memory :| before.hosts == m.hosts
      && Inspect(policy, m, e).verdict == JudgedHosts(policy, before, e.tool, args, result).verdict;
    HostsAreJudgedExactly(policy, before, e.tool, args, result);
  }

  /** Those hosts are the ones in the judged values, and no others. */
  lemma NamedAreInTheValues(m: Memory, e: Event)
    ensures var (args, result) := JudgedAs(m, e);
            forall h :: h in Named(m, e) <==> h in HostsIn("", args) || (!result.Null? && h in HostsIn("", result))
  {
    var (args, result) := JudgedAs(m, e);
    hide HostsIn, SortedUnique, Ascending;
    SortedUniqueKeeps(HostsIn("", args) + if result.Null? then [] else HostsIn("", result));
  }

  /** A browser event of a run that names the host. */
  predicate NamesAt(policy: Policy, events: seq<Event>, i: int, host: string)
    requires 0 <= i < |events|
  {
    Browses(events[i]) && host in Named(After(policy, events[..i]), events[i])
  }

  lemma RememberedCome(seen: set<string>, hosts: seq<string>, h: string)
    requires h in Remembered(seen, hosts)
    ensures h in seen || h in hosts
  {
  }

  /** Over any run: each logged host was named by a browser event of it, and if the policy has anything against the host
      that event drew a verdict. So a run without verdicts logged nothing but hosts inside the policy. */
  lemma {:induction false} LoggedHostsAreAccountedFor(policy: Policy, events: seq<Event>, host: string)
    requires host in After(policy, events).hosts
    ensures exists i :: 0 <= i < |events| && NamesAt(policy, events, i, host)
              && (IsInside(policy, host) || Inspect(policy, After(policy, events[..i]), events[i]).verdict.Some?)
    decreases |events|
  {
    hide Inspect, Browses, IsInside, Named, Remembered, CallHosts;
    if events == [] {
      NoHostsAtFirst(host);
    } else {
      var n := |events| - 1;
      var front, e := events[..n], events[n];
      var m := After(policy, front);
      if host in m.hosts {
        LoggedHostsAreAccountedFor(policy, front, host);
        var i :| 0 <= i < |front| && NamesAt(policy, front, i, host)
          && (IsInside(policy, host) || Inspect(policy, After(policy, front[..i]), front[i]).verdict.Some?);
        assert front[..i] == events[..i] && NamesAt(policy, events, i, host);
      } else {
        NewlyLogged(policy, m, e, host);
        assert NamesAt(policy, events, n, host);
      }
    }
  }

  lemma NoHostsAtFirst(host: string)
    ensures host !in FRESH.hosts
  {
  }

  lemma NewlyLogged(policy: Policy, m: Memory, e: Event, host: string)
    requires host !in m.hosts && host in Inspect(policy, m, e).memory.hosts
    ensures Browses(e) && host in Named(m, e)
    ensures IsInside(policy, host) || Inspect(policy, m, e).verdict.Some?
  {
    if !Browses(e) {
      OthersLogNoHosts(policy, m, e);
    } else {
      BrowsingIsHostJudging(policy, m, e);
      SilentBrowsingStaysInside(policy, m, e);
      hide Inspect, JudgedHosts, IsInside, Browses, Recall, CallHosts, Remembered;
      var (args, result) := JudgedAs(m, e);
      RememberedCome(m.hosts, CallHosts(args, result), host);
    }
  }
}
