/** Which tool calls draw a verdict, which verdict, and which of them end a run, said of the calls themselves
    (cmd/src/guard.rs). */
module GuardVerdicts {
  import opened Text
  import opened Json
  import opened Hosts
  import opened Guard
  import opened GuardLaws

  // ----- What a call's name says -----

  /** The name in lower case is a provider without a dot, a dot, and the rest. */
  predicate Names(tool: string, provider: string, rest: string) {
    '.' !in provider && Lower(tool) == provider + "." + rest
  }

  /** The four servers a run may be given. */
  predicate IsOurs(provider: string) {
    provider in {"browser", "prospects", "huntwell", "mcp-prospects"}
  }

  /** The tools that reach the machine, its files or the network past the browser. */
  predicate IsForbidden(tool: string) {
    || tool in {"shell", "terminal", "bash", "webfetch"}
    || tool in {"write", "edit", "multiedit", "editnotebook", "delete", "remove", "applypatch"}
    || tool in {"read", "grep", "glob", "ls"}
  }

  ghost predicate AsksForeignServer(tool: string) {
    exists provider, rest :: Names(tool, provider, rest) && !IsOurs(provider)
  }

  ghost predicate RunsCodeInBrowser(tool: string) {
    exists provider, rest ::
      Names(tool, provider, rest) && IsOurs(provider) && rest == "browser_run_code_unsafe"
  }

  predicate SearchesTheWeb(tool: string) {
    '.' !in tool && Lower(tool) == "websearch"
  }

  predicate UsesForbiddenTool(tool: string, args: Value) {
    '.' !in tool && IsForbidden(Lower(tool)) && !IsCursorDumpRead(Lower(tool), args)
  }

  /** What no policy that holds lets through. */
  ghost predicate BreaksOut(tool: string, args: Value) {
    AsksForeignServer(tool) || RunsCodeInBrowser(tool) || UsesForbiddenTool(tool, args)
  }

  // ----- Names and their first dot -----

  lemma LowerKeepsDots(tool: string)
    ensures '.' in Lower(tool) <==> '.' in tool
  {
    if '.' in tool {
      var i :| 0 <= i < |tool| && tool[i] == '.';
      assert Lower(tool)[i] == '.';
    }
    if '.' in Lower(tool) {
      var i :| 0 <= i < |tool| && Lower(tool)[i] == '.';
      assert tool[i] == '.';
    }
  }

  lemma DotAt(s: string, i: nat)
    ensures ContainsAt(s, ".", i) <==> i < |s| && s[i] == '.'
  {
    if i < |s| {
      assert s[i..i + 1] == [s[i]];
    }
  }

  /** What the first dot is. */
  lemma FirstDot(s: string)
    ensures var dot := IndexFrom(s, ".", 0);
            && (dot.Some? <==> '.' in s)
            && (dot.Some? ==> dot.value < |s| && s[dot.value] == '.' && '.' !in s[..dot.value])
  {
    hide IndexFrom, ContainsAt;
    var dot := IndexFrom(s, ".", 0);
    forall i: nat | i < |s|
      ensures ContainsAt(s, ".", i) <==> s[i] == '.'
    {
      DotAt(s, i);
    }
    if dot.Some? {
      DotAt(s, dot.value);
    }
  }

  /** Only there can a name be read as a provider and a tool. */
  lemma CutIsFirst(s: string, provider: string, rest: string, n: nat)
    requires s == provider + "." + rest && '.' !in provider
    requires n < |s| && s[n] == '.' && '.' !in s[..n]
    ensures n == |provider| && provider == s[..n] && rest == s[n + 1..]
  {
    assert s[|provider|] == '.';
    assert forall i :: 0 <= i < |provider| ==> s[i] == provider[i] && provider[i] in provider;
    assert forall i :: 0 <= i < n ==> s[i] == s[..n][i] && s[..n][i] in s[..n];
  }

  lemma FirstDotNames(tool: string, provider: string, rest: string)
    ensures var lower := Lower(tool);
            var dot := IndexFrom(lower, ".", 0);
            Names(tool, provider, rest)
            <==> dot.Some? && provider == lower[..dot.value] && rest == lower[dot.value + 1..]
  {
    hide Lower, IndexFrom, ContainsAt;
    var lower := Lower(tool);
    var dot := IndexFrom(lower, ".", 0);
    FirstDot(lower);
    if Names(tool, provider, rest) {
      assert lower[|provider|] == '.';
      CutIsFirst(lower, provider, rest, dot.value);
    } else if dot.Some? {
      assert lower == lower[..dot.value] + "." + lower[dot.value + 1..];
    }
  }

  lemma NoDotNoProvider(tool: string)
    ensures '.' in tool <==> IndexFrom(Lower(tool), ".", 0).Some?
  {
    hide Lower, IndexFrom;
    LowerKeepsDots(tool);
    FirstDot(Lower(tool));
  }

  /** The same predicates by the cut the guard makes. */
  lemma KindsByTheCut(tool: string)
    ensures var lower := Lower(tool);
            var dot := IndexFrom(lower, ".", 0);
            && (AsksForeignServer(tool) <==> dot.Some? && lower[..dot.value] !in ALLOWED_MCP_PROVIDERS)
            && (RunsCodeInBrowser(tool) <==>
                dot.Some? && lower[..dot.value] in ALLOWED_MCP_PROVIDERS
                && lower[dot.value + 1..] in DENIED_BROWSER_TOOLS)
            && ('.' in tool <==> dot.Some?)
  {
    hide Lower, IndexFrom, Names;
    var lower := Lower(tool);
    var dot := IndexFrom(lower, ".", 0);
    NoDotNoProvider(tool);
    if dot.Some? {
      FirstDotNames(tool, lower[..dot.value], lower[dot.value + 1..]);
    }
    forall provider, rest | Names(tool, provider, rest)
      ensures dot.Some? && provider == lower[..dot.value] && rest == lower[dot.value + 1..]
    {
      FirstDotNames(tool, provider, rest);
    }
  }

  // ----- Refusals -----

  /** A result is a refusal if it carries the policy layer's field, or one of the marks, in any case, anywhere in its
      text; nothing else is. */
  lemma RefusalsAreMarked(policy: Policy, result: Value)
    ensures var text := if result.Str? then result.s else policy.render(result);
            WasRefused(policy, result)
            <==> || Get(result, "permissionDenied").Some?
                 || exists before, mark, after: string ::
                      mark in REFUSAL_MARKS && Lower(text) == before + mark + after
  {
    var text := Lower(if result.Str? then result.s else policy.render(result));
    forall mark: string
      ensures Contains(text, mark) <==> exists before, after: string :: text == before + mark + after
    {
      ContainedIsBetween(text, mark);
    }
    hide Contains, Lower;
  }

  // ----- The one read that is allowed -----

  /** The first of three fields that is text names the path; without one it is empty. */
  predicate NamesPath(args: Value, path: string) {
    if IsText(args, "path") then Get(args, "path") == Some(Str(path))
    else if IsText(args, "file_path") then Get(args, "file_path") == Some(Str(path))
    else if IsText(args, "filePath") then Get(args, "filePath") == Some(Str(path))
    else path == ""
  }

  predicate IsText(args: Value, key: string) {
    Get(args, key).Some? && Get(args, key).value.Str?
  }

  /** The path in lower case, its backslashes turned over. */
  predicate Straightens(path: string, straight: string) {
    && |straight| == |path|
    && forall i :: 0 <= i < |path| ==> straight[i] == if path[i] == '\\' then '/' else LowerChar(path[i])
  }

  lemma PathIsNamed(args: Value)
    ensures NamesPath(args, PathFromArgs(args))
  {
    hide Get;
    FirstTextIs(args, "path", ["file_path", "filePath"]);
    FirstTextIs(args, "file_path", ["filePath"]);
    FirstTextIs(args, "filePath", []);
    assert ["path", "file_path", "filePath"] == ["path"] + ["file_path", "filePath"];
    assert ["file_path", "filePath"] == ["file_path"] + ["filePath"] && ["filePath"] == ["filePath"] + [];
  }

  lemma FirstTextIs(args: Value, key: string, more: seq<string>)
    ensures FirstText(args, [key] + more)
         == if IsText(args, key) then Get(args, key).value.s else FirstText(args, more)
    ensures FirstText(args, []) == ""
  {
    hide Get;
    assert ([key] + more)[1..] == more;
  }

  lemma {:induction false} SlashedAt(s: string)
    ensures |Slashed(s)| == |s|
    ensures forall i :: 0 <= i < |s| ==> Slashed(s)[i] == if s[i] == '\\' then '/' else s[i]
  {
    if s != [] {
      SlashedAt(s[1..]);
    }
  }

  /** A read is let through if and only if the path it names, however it is written, has both of the agent's own
      directories in it. */
  lemma DumpReadsAreExact(tool: string, args: Value, path: string, straight: string)
    requires NamesPath(args, path) && Straightens(path, straight)
    ensures IsCursorDumpRead(tool, args)
        <==> && tool == "read"
             && (exists before, after: string :: straight == before + "/agent-tools/" + after)
             && (exists before, after: string :: straight == before + "/.cursor/projects/" + after)
  {
    PathIsNamed(args);
    assert PathFromArgs(args) == path;
    SlashedAt(path);
    assert straight == Lower(Slashed(path));
    ContainedIsBetween(straight, "/agent-tools/");
    ContainedIsBetween(straight, "/.cursor/projects/");
    hide Contains, Lower, Slashed, PathFromArgs;
  }

  // ----- Calls outside browsing -----

  lemma OtherCallsJudgedExactly(policy: Policy, m: Memory, tool: string, args: Value, result: Value)
    requires !Browses(Call(tool, args, result, ""))
    ensures var verdict := JudgedCall(policy, m, tool, args, result).verdict;
            && (verdict.Some? <==> !result.Null? && (BreaksOut(tool, args) || SearchesTheWeb(tool)))
            && (verdict.Some? ==> verdict.value == Earned(policy, m.refused, tool, args, result))
  {
    KindsByTheCut(tool);
    hide Lower, IndexFrom, Names, WasRefused, IsCursorDumpRead, JudgedHosts;
    hide AsksForeignServer, RunsCodeInBrowser;
    if Lower(tool) in SEARCH_VIA_BROWSER {
      assert Lower(tool) != "read" && Lower(tool) !in FORBIDDEN_TOOLS;
      SearchIsNoRead(tool, args);
    }
  }

  lemma SearchIsNoRead(tool: string, args: Value)
    requires Lower(tool) in SEARCH_VIA_BROWSER
    ensures !IsCursorDumpRead(Lower(tool), args)
  {
    hide Lower, Contains;
  }

  /** The verdict such a call earns once it has completed: reaching a foreign server or running code in the browser is
      fatal unless it was refused, searching never is, and a forbidden tool is fatal when it ran or when three attempts
      were refused before. */
  ghost function Earned(policy: Policy, refusedBefore: nat, tool: string, args: Value, result: Value): Violation {
    var ran := !WasRefused(policy, result);
    var detail := policy.redact(args);
    if AsksForeignServer(tool) then Violation(tool, ForbiddenMcpServer, detail, ran)
    else if RunsCodeInBrowser(tool) then Violation(tool, CodeExecutionInBrowser, detail, ran)
    else if SearchesTheWeb(tool) then Violation(tool, Reason.SearchViaBrowser, detail, false)
    else if ran then Violation(tool, PolicyFailed, detail, true)
    else if refusedBefore < 3 then Violation(tool, RefusedAttempt, detail, false)
    else Violation(tool, PersistentAttempts, detail, true)
  }

  /** Any event that is not browsing: it draws a verdict if and only if it is a completed call to a foreign server, a
      denied browser tool, a web search or a forbidden tool; and then the one it earned. */
  lemma VerdictsAreEarned(policy: Policy, m: Memory, e: Event)
    requires !Browses(e)
    ensures var (args, result) := JudgedAs(m, e);
            var verdict := Inspect(policy, m, e).verdict;
            && (verdict.Some? <==> e.Call? && !result.Null? && (BreaksOut(e.tool, args) || SearchesTheWeb(e.tool)))
            && (verdict.Some? ==> verdict.value == Earned(policy, m.refused, e.tool, args, result))
  {
    if e.Call? {
      var recalled := Recall(m.pending, e.callId, e.args, e.result);
      OtherCallsJudgedExactly(policy, m.(pending := recalled.pending), e.tool, recalled.args, e.result);
      hide JudgedCall, Recall, BreaksOut, SearchesTheWeb, Earned;
    }
  }

  /** No call is both browsing and one of those. */
  lemma BrowsingBreaksNothing(e: Event, args: Value)
    requires e.Call? && (BreaksOut(e.tool, args) || SearchesTheWeb(e.tool))
    ensures !Browses(e)
  {
    KindsByTheCut(e.tool);
    hide Lower, IndexFrom, Names, IsCursorDumpRead;
    hide AsksForeignServer, RunsCodeInBrowser;
  }

  // ----- Browsing -----

  /** The least of the hosts that are so. */
  predicate IsLeast(host: string, hosts: seq<string>, so: string -> bool) {
    host in hosts && so(host) && forall h <- hosts :: so(h) ==> h == host || Less(host, h)
  }

  lemma {:induction false} FirstRestrictedIsLeast(hosts: seq<string>)
    requires Ascending(hosts) && FirstRestricted(hosts).Some?
    ensures IsLeast(FirstRestricted(hosts).value, hosts, h => IsRestricted(h))
  {
    hide Less, IsRestricted;
    if !IsRestricted(hosts[0]) {
      FirstRestrictedIsLeast(hosts[1..]);
      assert hosts == [hosts[0]] + hosts[1..];
    } else {
      forall h | h in hosts
        ensures h == hosts[0] || Less(hosts[0], h)
      {
        var i :| 0 <= i < |hosts| && hosts[i] == h;
      }
    }
  }

  lemma {:induction false} FirstForeignIsLeast(allowlist: seq<string>, hosts: seq<string>)
    requires Ascending(hosts) && FirstForeign(allowlist, hosts).Some?
    ensures IsLeast(FirstForeign(allowlist, hosts).value, hosts, h => !HostAllowed(allowlist, h))
  {
    hide Less, HostAllowed;
    if HostAllowed(allowlist, hosts[0]) {
      FirstForeignIsLeast(allowlist, hosts[1..]);
      assert hosts == [hosts[0]] + hosts[1..];
    } else {
      forall h | h in hosts
        ensures h == hosts[0] || Less(hosts[0], h)
      {
        var i :| 0 <= i < |hosts| && hosts[i] == h;
      }
    }
  }

  /** What a host check earns: the least restricted host is a refused attempt like any other, fatal behind three; only
      when there is none is a host off the allowlist looked for, and the least of those is fatal at once. */
  ghost predicate IsEarnedByHosts(policy: Policy, refusedBefore: nat, tool: string, hosts: seq<string>, v: Violation) {
    v.tool == tool
    && if !policy.restrictedOk && exists h <- hosts :: IsRestricted(h) then
         && v.reason == (if refusedBefore < 3 then RestrictedPlatform else PersistentAttempts)
         && v.fatal == (refusedBefore >= 3)
         && exists h :: IsLeast(h, hosts, x => IsRestricted(x)) && v.detail == "host " + h
       else
         && v.reason == OffAllowlistNavigation && v.fatal
         && exists h :: IsLeast(h, hosts, x => !HostAllowed(policy.allowlist, x)) && v.detail == "host " + h
  }

  lemma HostVerdictsAreEarned(policy: Policy, m: Memory, tool: string, args: Value, result: Value)
    ensures var verdict := JudgedHosts(policy, m, tool, args, result).verdict;
            verdict.Some? ==> IsEarnedByHosts(policy, m.refused, tool, CallHosts(args, result), verdict.value)
  {
    hide IsRestricted, HostAllowed, CallHosts, Remembered, SortedUnique, IsLeast, HostsIn, Ascending, Less;
    var hosts := CallHosts(args, result);
    CallHostsAscend(args, result);
    if FirstRestricted(hosts).Some? {
      FirstRestrictedIsLeast(hosts);
    }
    if FirstForeign(policy.allowlist, hosts).Some? {
      FirstForeignIsLeast(policy.allowlist, hosts);
    }
  }

  lemma CallHostsAscend(args: Value, result: Value)
    ensures Ascending(CallHosts(args, result))
  {
    hide HostsIn, SortedUnique, Ascending, Less;
    SortedUniqueKeeps(HostsIn("", args) + if result.Null? then [] else HostsIn("", result));
  }

  /** A browser event's verdict names the least host outside the policy and is as fatal as that host makes it. */
  lemma BrowsingVerdictsAreEarned(policy: Policy, m: Memory, e: Event)
    requires Browses(e) && Inspect(policy, m, e).verdict.Some?
    ensures IsEarnedByHosts(policy, m.refused, e.tool, Named(m, e), Inspect(policy, m, e).verdict.value)
  {
    var (args, result) := JudgedAs(m, e);
    var before := if e.Call? then m.(pending := Recall(m.pending, e.callId, e.args, e.result).pending) else m;
    HostVerdictsAreEarned(policy, before, e.tool, args, result);
    hide JudgedHosts, CallHosts, IsEarnedByHosts, Lower, IndexFrom, IsCursorDumpRead, WasRefused, Recall;
  }

  // ----- The host log -----

  /** A browser event adds to the log the first of the hosts it names, as many as there was room for out of 500; a named
      host that was logged before takes up room like any other. */
  lemma LogTakesTheFirst(policy: Policy, m: Memory, e: Event, host: string)
    requires Browses(e)
    ensures host in Inspect(policy, m, e).memory.hosts
        <==> host in m.hosts || exists i :: 0 <= i < |Named(m, e)| && |m.hosts| + i < 500 && Named(m, e)[i] == host
  {
    hide Inspect, Browses, JudgedHosts, CallHosts, Recall;
    BrowsingIsHostJudging(policy, m, e);
    RoomIsTaken(m.hosts, Named(m, e), host);
  }

  lemma RoomIsTaken(seen: set<string>, hosts: seq<string>, host: string)
    ensures host in Remembered(seen, hosts)
        <==> host in seen || exists i :: 0 <= i < |hosts| && |seen| + i < 500 && hosts[i] == host
  {
    var room := if |seen| < 500 then 500 - |seen| else 0;
    assert forall i :: 0 <= i < |AtMost(hosts, room)| ==> AtMost(hosts, room)[i] == hosts[i];
    assert host in AtMost(hosts, room) <==> exists i :: 0 <= i < |hosts| && i < room && hosts[i] == host;
  }

  // ----- When a run is stopped -----

  /** An event that ends the run, given how many attempts were refused before it. */
  ghost predicate EndsTheRun(policy: Policy, m: Memory, e: Event) {
    var (args, result) := JudgedAs(m, e);
    if Browses(e) then
      if !policy.restrictedOk && exists h <- Named(m, e) :: IsRestricted(h) then m.refused >= 3
      else policy.allowlist != [] && exists h <- Named(m, e) :: !HostAllowed(policy.allowlist, h)
    else
      && e.Call? && !result.Null? && BreaksOut(e.tool, args)
      && (!WasRefused(policy, result) || (UsesForbiddenTool(e.tool, args) && m.refused >= 3))
  }

  lemma EventTripsExactly(policy: Policy, m: Memory, e: Event)
    ensures Inspect(policy, m, e).memory.tripped <==> m.tripped || EndsTheRun(policy, m, e)
  {
    EventsAreWellJudged(policy, m, e);
    if Browses(e) {
      SilentBrowsingStaysInside(policy, m, e);
      if Inspect(policy, m, e).verdict.Some? {
        BrowsingVerdictsAreEarned(policy, m, e);
      }
      hide Inspect, Named, IsRestricted, HostAllowed, JudgedAs, BreaksOut, UsesForbiddenTool, Browses;
    } else {
      var (args, result) := JudgedAs(m, e);
      VerdictsAreEarned(policy, m, e);
      KindsByTheCut(e.tool);
      OneKindAtMost(e.tool, args);
      hide Inspect, Named, JudgedAs, Browses, WasRefused, UsesForbiddenTool, AsksForeignServer, RunsCodeInBrowser;
      hide SearchesTheWeb;
    }
  }

  lemma OneKindAtMost(tool: string, args: Value)
    ensures !(AsksForeignServer(tool) && RunsCodeInBrowser(tool))
    ensures UsesForbiddenTool(tool, args) ==> !AsksForeignServer(tool) && !RunsCodeInBrowser(tool)
    ensures SearchesTheWeb(tool) ==>
              !AsksForeignServer(tool) && !RunsCodeInBrowser(tool) && !UsesForbiddenTool(tool, args)
  {
    KindsByTheCut(tool);
    hide Lower, IndexFrom, Names, AsksForeignServer, RunsCodeInBrowser, IsCursorDumpRead;
  }

  ghost predicate EndsAt(policy: Policy, events: seq<Event>, i: int)
    requires 0 <= i < |events|
  {
    EndsTheRun(policy, After(policy, events[..i]), events[i])
  }

  lemma EndsAtInFront(policy: Policy, events: seq<Event>, n: nat, i: nat)
    requires i < n <= |events|
    ensures EndsAt(policy, events[..n], i) == EndsAt(policy, events, i)
  {
    hide EndsTheRun, After;
    assert events[..n][..i] == events[..i];
  }

  /** A run is stopped if and only if one of its events ended it. */
  lemma {:induction false} RunTripsExactly(policy: Policy, events: seq<Event>)
    ensures After(policy, events).tripped <==> exists i :: 0 <= i < |events| && EndsAt(policy, events, i)
    decreases |events|
  {
    hide Inspect, EndsAt;
    if events != [] {
      var n := |events| - 1;
      RunTripsExactly(policy, events[..n]);
      LastEventTrips(policy, events);
      forall i: nat | i < n
        ensures EndsAt(policy, events[..n], i) == EndsAt(policy, events, i)
      {
        EndsAtInFront(policy, events, n, i);
      }
      if After(policy, events[..n]).tripped {
        var i :| 0 <= i < n && EndsAt(policy, events[..n], i);
        assert EndsAt(policy, events, i);
      }
    }
  }

  lemma LastEventTrips(policy: Policy, events: seq<Event>)
    requires events != []
    ensures var n := |events| - 1;
            After(policy, events).tripped <==> After(policy, events[..n]).tripped || EndsAt(policy, events, n)
  {
    hide Inspect, EndsTheRun;
    var n := |events| - 1;
    EventTripsExactly(policy, After(policy, events[..n]), events[n]);
  }

  /** So one call that got through to a foreign server, a denied browser tool or a forbidden tool stops the run,
      wherever it came and whatever came after it. */
  lemma BreakingOutTrips(policy: Policy, events: seq<Event>, i: nat)
    requires i < |events| && events[i].Call?
    requires var (args, result) := JudgedAs(After(policy, events[..i]), events[i]);
             !result.Null? && !WasRefused(policy, result) && BreaksOut(events[i].tool, args)
    ensures After(policy, events).tripped
  {
    hide BreaksOut, WasRefused, JudgedAs, After, Browses;
    var (args, _) := JudgedAs(After(policy, events[..i]), events[i]);
    BrowsingBreaksNothing(events[i], args);
    RunTripsExactly(policy, events);
    assert EndsAt(policy, events, i);
  }
}
