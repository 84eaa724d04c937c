/** The containment guard: what each tool call earns, and what the guard remembers (cmd/src/guard.rs). */
module Guard {
  import opened Text
  import opened Json
  import opened Hosts

  const FORBIDDEN_TOOLS: set<string> :=
    {"shell", "terminal", "bash", "write", "edit", "multiedit", "editnotebook", "delete", "remove", "applypatch",
     "webfetch", "read", "grep", "glob", "ls"}
  const SEARCH_VIA_BROWSER: set<string> := {"websearch"}
  const ALLOWED_MCP_PROVIDERS: set<string> := {"browser", "prospects", "huntwell", "mcp-prospects"}
  const DENIED_BROWSER_TOOLS: set<string> := {"browser_run_code_unsafe"}
  const REFUSED_ATTEMPT_BUDGET := 3
  const MAX_VIOLATIONS := 32
  const MAX_HOSTS := 500
  const MAX_PENDING := 256

  datatype Reason =
    | RefusedAttempt | PolicyFailed | PersistentAttempts | ForbiddenMcpServer | CodeExecutionInBrowser
    | OffAllowlistNavigation | RestrictedPlatform | SearchViaBrowser

  datatype Violation = Violation(tool: string, reason: Reason, detail: string, fatal: bool)

  /** What a guard is built with. `redact` and `print` render JSON for the log and for searching; any will do. */
  datatype Policy = Policy(
    allowlist: seq<string>, restrictedOk: bool, redact: Value -> string, render: Value -> string)

  /** What a guard remembers. */
  datatype Memory = Memory(
    tripped: bool,
    refused: nat,
    violations: seq<Violation>,
    hosts: set<string>,
    pending: map<string, Value>)

  const FRESH := Memory(false, 0, [], {}, map[])

  datatype Judged = Judged(verdict: Option<Violation>, memory: Memory)

  // ----- Reading a call -----

  const REFUSAL_MARKS: seq<string> :=
    ["permissiondenied", "permission denied", "blocked by permissions", "blocked by pretooluse hook",
     "blocked by hook", "not allowed by"]

  predicate WasRefused(policy: Policy, result: Value) {
    if Get(result, "permissionDenied").Some? then true
    else
      var haystack := Lower(if result.Str? then result.s else policy.render(result));
      exists mark <- REFUSAL_MARKS :: Contains(haystack, mark)
  }

  function PathFromArgs(args: Value): string {
    FirstText(args, ["path", "file_path", "filePath"])
  }

  function FirstText(args: Value, keys: seq<string>): string {
    if keys == [] then ""
    else
      match Get(args, keys[0])
      case Some(Str(s)) => s
      case _ => FirstText(args, keys[1..])
  }

  function Slashed(s: string): string {
    if s == [] then [] else [if s[0] == '\\' then '/' else s[0]] + Slashed(s[1..])
  }

  predicate IsCursorDumpRead(tool: string, args: Value) {
    && tool == "read"
    && var p := Lower(Slashed(PathFromArgs(args)));
       Contains(p, "/agent-tools/") && Contains(p, "/.cursor/projects/")
  }

  // ----- Judging -----

  /** A refused attempt: counted, and fatal once the budget is spent. */
  function Refused(m: Memory, tool: string, within: Reason, detail: string): Judged {
    var refused := m.refused + 1;
    var over := refused > REFUSED_ATTEMPT_BUDGET;
    Judged(Some(Violation(tool, if over then PersistentAttempts else within, detail, over)), m.(refused := refused))
  }

  /** The hosts a call names, sorted and unique. */
  function CallHosts(args: Value, result: Value): seq<string> {
    SortedUnique(HostsIn("", args) + if result.Null? then [] else HostsIn("", result))
  }

  /** The first hosts there is still room for. */
  function Remembered(seen: set<string>, hosts: seq<string>): set<string> {
    var room := if |seen| < MAX_HOSTS then MAX_HOSTS - |seen| else 0;
    seen + AsSet(AtMost(hosts, room))
  }

  function JudgedHosts(policy: Policy, m: Memory, tool: string, args: Value, result: Value): Judged {
    var hosts := CallHosts(args, result);
    var m := m.(hosts := Remembered(m.hosts, hosts));
    var restricted := if policy.restrictedOk then None else FirstRestricted(hosts);
    if restricted.Some? then Refused(m, tool, RestrictedPlatform, "host " + restricted.value)
    else if policy.allowlist == [] then Judged(None, m)
    else
      match FirstForeign(policy.allowlist, hosts)
      case None => Judged(None, m)
      case Some(host) => Judged(Some(Violation(tool, OffAllowlistNavigation, "host " + host, true)), m)
  }

  function JudgedCall(policy: Policy, m: Memory, tool: string, args: Value, result: Value): Judged {
    var lower := Lower(tool);
    var dot := IndexFrom(lower, ".", 0);
    if dot.Some? then
      var provider, rest := lower[..dot.value], lower[dot.value + 1..];
      if provider !in ALLOWED_MCP_PROVIDERS then Outcome(policy, m, tool, ForbiddenMcpServer, args, result)
      else if rest in DENIED_BROWSER_TOOLS then Outcome(policy, m, tool, CodeExecutionInBrowser, args, result)
      else if "browser_" <= rest then JudgedHosts(policy, m, tool, args, result)
      else Judged(None, m)
    else if IsCursorDumpRead(lower, args) then Judged(None, m)
    else if lower in SEARCH_VIA_BROWSER then
      if result.Null? then Judged(None, m)
      else Judged(Some(Violation(tool, SearchViaBrowser, policy.redact(args), false)), m)
    else if lower !in FORBIDDEN_TOOLS || result.Null? then Judged(None, m)
    else if !WasRefused(policy, result) then
      Judged(Some(Violation(tool, PolicyFailed, policy.redact(args), true)), m)
    else Refused(m, tool, RefusedAttempt, policy.redact(args))
  }

  /** Only a completed call has an outcome; then it is fatal unless the policy layer refused it. */
  function Outcome(policy: Policy, m: Memory, tool: string, reason: Reason, args: Value, result: Value): Judged {
    if result.Null? then Judged(None, m)
    else Judged(Some(Violation(tool, reason, policy.redact(args), !WasRefused(policy, result))), m)
  }

  // ----- One event -----

  datatype Event =
    | Call(tool: string, args: Value, result: Value, callId: string)   // from the stream; a null result is the start
    | Before(tool: string, args: Value)                                // asked before the call is made

  datatype Recalled = Recalled(args: Value, pending: map<string, Value>)

  /** The arguments to judge a call by: its own, or those its start left behind. */
  function Recall(pending: map<string, Value>, callId: string, args: Value, result: Value): Recalled {
    if callId == "" then Recalled(args, pending)
    else if result.Null? then
      Recalled(args, if !args.Null? && |pending| < MAX_PENDING then pending[callId := args] else pending)
    else
      Recalled(if callId in pending && args.Null? then pending[callId] else args, pending - {callId})
  }

  /** Recording a verdict: latch on a fatal one, and keep the first few. */
  function Recorded(j: Judged): Judged {
    if j.verdict.None? then j
    else
      var v := j.verdict.value;
      j.(memory := j.memory.(
        tripped := j.memory.tripped || v.fatal,
        violations := if |j.memory.violations| < MAX_VIOLATIONS then j.memory.violations + [v]
                      else j.memory.violations))
  }

  function Inspect(policy: Policy, m: Memory, e: Event): Judged {
    match e
    case Call(tool, args, result, callId) =>
      var recalled := Recall(m.pending, callId, args, result);
      Recorded(JudgedCall(policy, m.(pending := recalled.pending), tool, recalled.args, result))
    case Before(tool, args) =>
      if "browser_" <= tool then Recorded(JudgedHosts(policy, m, tool, args, Null)) else Judged(None, m)
  }

  // ----- The guard itself -----

  /** Whether any guard of this process has tripped. */
  class Process {
    var breached: bool

    constructor ()
      ensures !breached
    {
      breached := false;
    }
  }

  class Watcher {
    const policy: Policy
    const process: Process
    var tripped: bool
    var refused: nat
    var violations: seq<Violation>
    var hosts: set<string>
    var pendingArgs: map<string, Value>

    ghost function Now(): Memory
      reads this
    {
      Memory(tripped, refused, violations, hosts, pendingArgs)
    }

    constructor (policy: Policy, process: Process)
      ensures this.policy == policy.(allowlist := NormalAllowlist(policy.allowlist))
      ensures this.process == process && Now() == FRESH
    {
      this.policy := policy.(allowlist := NormalAllowlist(policy.allowlist));
      this.process := process;
      tripped, refused, violations, hosts, pendingArgs := false, 0, [], {}, map[];
    }

    method InspectCall(tool: string, args: Value, result: Value, callId: string) returns (verdict: Option<Violation>)
      modifies this, process
      ensures Judged(verdict, Now()) == Inspect(policy, old(Now()), Call(tool, args, result, callId))
      ensures process.breached == (old(process.breached) || (verdict.Some? && verdict.value.fatal))
    {
      var judged := ArgsFor(callId, args, result);
      verdict := Judge(tool, judged, result);
      Record(verdict);
    }

    method JudgeBefore(tool: string, args: Value) returns (verdict: Option<Violation>)
      modifies this, process
      ensures Judged(verdict, Now()) == Inspect(policy, old(Now()), Before(tool, args))
      ensures process.breached == (old(process.breached) || (verdict.Some? && verdict.value.fatal))
    {
      if !("browser_" <= tool) {
        return None;
      }
      verdict := JudgeBrowserHost(tool, args, Null);
      Record(verdict);
    }

    method Record(verdict: Option<Violation>)
      modifies `tripped, `violations, process
      ensures Judged(verdict, Now()) == Recorded(Judged(verdict, old(Now())))
      ensures process.breached == (old(process.breached) || (verdict.Some? && verdict.value.fatal))
    {
      match verdict
      case None =>
      case Some(v) =>
        if v.fatal {
          tripped := true;
          process.breached := true;
        }
        if |violations| < MAX_VIOLATIONS {
          violations := violations + [v];
        }
    }

    method ArgsFor(callId: string, args: Value, result: Value) returns (judged: Value)
      modifies `pendingArgs
      ensures Recalled(judged, pendingArgs) == Recall(old(pendingArgs), callId, args, result)
    {
      if callId == "" {
        return args;
      }
      if result.Null? {
        if !args.Null? && |pendingArgs| < MAX_PENDING {
          pendingArgs := pendingArgs[callId := args];
        }
        return args;
      }
      judged := args;
      if callId in pendingArgs {
        if args.Null? {
          judged := pendingArgs[callId];
        }
        pendingArgs := pendingArgs - {callId};
      }
    }

    method CollectHosts(args: Value, result: Value) returns (found: seq<string>)
      ensures found == CallHosts(args, result)
    {
      hide HostsIn, SortedUnique;
      found := HostsIn("", args);
      assert HostsIn("", args) + [] == HostsIn("", args);
      if !result.Null? {
        found := found + HostsIn("", result);
      }
      found := SortedUnique(found);
    }

    method RememberHosts(found: seq<string>)
      modifies `hosts
      ensures hosts == Remembered(old(hosts), found)
    {
      if found != [] {
        var room := if |hosts| < MAX_HOSTS then MAX_HOSTS - |hosts| else 0;
        hosts := hosts + AsSet(AtMost(found, room));
      }
    }

    method JudgeBrowserHost(tool: string, args: Value, result: Value) returns (verdict: Option<Violation>)
      modifies `refused, `hosts
      ensures Judged(verdict, Now()) == JudgedHosts(policy, old(Now()), tool, args, result)
    {
      hide HostAllowed, IsRestricted, Remembered, CallHosts, FirstRestricted, FirstForeign, HostsIn, SortedUnique;
      hide Refused;
      var found := CollectHosts(args, result);
      RememberHosts(found);
      if !policy.restrictedOk {
        var restricted := FirstRestricted(found);
        if restricted.Some? {
          verdict := Refuse(tool, RestrictedPlatform, "host " + restricted.value);
          return;
        }
      }
      if policy.allowlist == [] || found == [] {
        return None;
      }
      var bad := FirstForeign(policy.allowlist, found);
      match bad
      case None => return None;
      case Some(host) => return Some(Violation(tool, OffAllowlistNavigation, "host " + host, true));
    }

    method Refuse(tool: string, within: Reason, detail: string) returns (verdict: Option<Violation>)
      modifies `refused
      ensures Judged(verdict, Now()) == Refused(old(Now()), tool, within, detail)
    {
      refused := refused + 1;
      var over := refused > REFUSED_ATTEMPT_BUDGET;
      verdict := Some(Violation(tool, if over then PersistentAttempts else within, detail, over));
    }

    method Judge(tool: string, args: Value, result: Value) returns (verdict: Option<Violation>)
      modifies `refused, `hosts
      ensures Judged(verdict, Now()) == JudgedCall(policy, old(Now()), tool, args, result)
    {
      hide JudgedHosts, WasRefused, IsCursorDumpRead, Lower, IndexFrom;
      var lower := Lower(tool);
      var dot := IndexFrom(lower, ".", 0);
      if dot.Some? {
        var provider, rest := lower[..dot.value], lower[dot.value + 1..];
        if provider !in ALLOWED_MCP_PROVIDERS {
          if result.Null? {
            return None;
          }
          return Some(Violation(tool, ForbiddenMcpServer, policy.redact(args), !WasRefused(policy, result)));
        }
        if rest in DENIED_BROWSER_TOOLS {
          if result.Null? {
            return None;
          }
          return Some(Violation(tool, CodeExecutionInBrowser, policy.redact(args), !WasRefused(policy, result)));
        }
        if "browser_" <= rest {
          verdict := JudgeBrowserHost(tool, args, result);
          return;
        }
        return None;
      }
      if IsCursorDumpRead(lower, args) {
        return None;
      }
      if lower in SEARCH_VIA_BROWSER {
        if result.Null? {
          return None;
        }
        return Some(Violation(tool, SearchViaBrowser, policy.redact(args), false));
      }
      if lower !in FORBIDDEN_TOOLS {
        return None;
      }
      if result.Null? {
        return None;
      }
      if !WasRefused(policy, result) {
        return Some(Violation(tool, PolicyFailed, policy.redact(args), true));
      }
      verdict := Refuse(tool, RefusedAttempt, policy.redact(args));
    }
  }
}
