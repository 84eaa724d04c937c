/** The live estimate shown before the provider reports usage (cmd/src/agent.rs). */
module StreamEstimate {

  const MAX_STREAM_CHUNK := 200_000
  const FLUSH_MILLIS := 250
  const FLUSH_TOKENS := 2_000

  /** A stream event, reduced to what the meter reads of it. */
  datatype Event =
    | Assistant(partial: bool, textChars: nat)     // `partial` repeats carry a timestamp
    | ToolCall(completed: bool, resultChars: nat)
    | Other

  datatype Usage = Usage(input: nat, output: nat) {
    function Billable(): nat {
      input + output
    }
  }

  datatype Estimate = Estimate(context: nat, input: nat, output: nat) {
    function Shown(): Usage {
      Usage(input + context / 4, output)
    }
  }

  function Capped(chars: nat): (counted: nat)
    ensures counted <= chars && counted <= 200_000
    ensures counted < chars ==> counted == 200_000
  {
    if chars < MAX_STREAM_CHUNK then chars else MAX_STREAM_CHUNK
  }

  function AfterPrompt(chars: nat): Estimate {
    Estimate(Capped(chars), 0, 0)
  }

  function Step(e: Estimate, ev: Event): Estimate {
    match ev
    case Assistant(partial, textChars) =>
      var n := Capped(textChars);
      if partial || n == 0 then e
      else Estimate(e.context + n, e.input + e.context / 4, e.output + n / 4)
    case ToolCall(completed, resultChars) =>
      if completed then e.(context := e.context + Capped(resultChars)) else e
    case Other => e
  }

  function Run(e: Estimate, events: seq<Event>): Estimate
    decreases |events|
  {
    if events == [] then e else Run(Step(e, events[0]), events[1..])
  }

  class StreamMeter {
    var contextChars: nat
    var input: nat
    var output: nat
    var lastFlush: int      // milliseconds, negative before the first flush
    var lastShown: nat

    ghost function Now(): Estimate
      reads this
    {
      Estimate(contextChars, input, output)
    }

    constructor ()
      ensures Now() == Estimate(0, 0, 0) && lastFlush < 0 && lastShown == 0
    {
      contextChars, input, output, lastFlush, lastShown := 0, 0, 0, -1, 0;
    }

    /** A call begins: nothing seen, nothing shown. */
    method Reset()
      modifies this
      ensures Now() == Estimate(0, 0, 0) && lastFlush < 0 && lastShown == 0
    {
      contextChars, input, output, lastFlush, lastShown := 0, 0, 0, -1, 0;
    }

    method NotePrompt(chars: nat)
      modifies `contextChars
      ensures contextChars == Capped(chars)
    {
      contextChars := if chars < MAX_STREAM_CHUNK then chars else MAX_STREAM_CHUNK;
    }

    method NoteEvent(ev: Event)
      modifies `contextChars, `input, `output
      ensures Now() == Step(old(Now()), ev)
    {
      match ev
      case Assistant(partial, textChars) =>
        if partial {
          return;
        }
        var n := Capped(textChars);
        if n <= 0 {
          return;
        }
        input := input + contextChars / 4;
        output := output + n / 4;
        contextChars := contextChars + n;
      case ToolCall(completed, resultChars) =>
        if !completed {
          return;
        }
        var n := Capped(resultChars);
        if n > 0 {
          contextChars := contextChars + n;
        }
      case Other =>
    }

    /** Whether to show the figure now: it must have changed, and either a quarter second passed or it moved enough. */
    method ShouldFlush(now: nat) returns (flush: bool)
      modifies `lastFlush, `lastShown
      ensures var shown := Now().Shown().Billable();
              && flush == Due(shown, old(lastShown), old(lastFlush), now)
              && lastShown == (if flush then shown else old(lastShown))
              && lastFlush == (if flush then now else old(lastFlush))
    {
      var billable := input + contextChars / 4 + output;
      if billable == 0 || billable == lastShown {
        return false;
      }
      if lastFlush >= 0 {
        if now - lastFlush < FLUSH_MILLIS && billable - lastShown < FLUSH_TOKENS {
          return false;
        }
      }
      lastFlush := now;
      lastShown := billable;
      return true;
    }
  }

  predicate Due(billable: nat, lastShown: nat, lastFlush: int, now: nat) {
    && billable != 0 && billable != lastShown
    && !(lastFlush >= 0 && now - lastFlush < FLUSH_MILLIS && billable - lastShown < FLUSH_TOKENS)
  }

  // ----- The closed form -----

  /** The characters an event adds to the context. */
  function Chars(ev: Event): nat {
    match ev
    case Assistant(partial, textChars) => if partial then 0 else Capped(textChars)
    case ToolCall(completed, resultChars) => if completed then Capped(resultChars) else 0
    case Other => 0
  }

  predicate IsTurn(ev: Event) {
    ev.Assistant? && Chars(ev) > 0
  }

  /** The context in front of event number `k`: the prompt and everything before it. */
  function ContextAt(prompt: nat, events: seq<Event>, k: nat): nat
    requires k <= |events|
  {
    if k == 0 then Capped(prompt) else ContextAt(prompt, events, k - 1) + Chars(events[k - 1])
  }

  /** Every turn among the first `k` events is billed a quarter of the context in front of it. */
  function TurnInput(prompt: nat, events: seq<Event>, k: nat): nat
    requires k <= |events|
  {
    if k == 0 then 0
    else
      var turn := if IsTurn(events[k - 1]) then ContextAt(prompt, events, k - 1) / 4 else 0;
      TurnInput(prompt, events, k - 1) + turn
  }

  function TurnOutput(events: seq<Event>, k: nat): nat
    requires k <= |events|
  {
    if k == 0 then 0
    else TurnOutput(events, k - 1) + if IsTurn(events[k - 1]) then Chars(events[k - 1]) / 4 else 0
  }

  lemma {:induction false} RunSnoc(e: Estimate, events: seq<Event>, last: Event)
    ensures Run(e, events + [last]) == Step(Run(e, events), last)
    decreases |events|
  {
    if events == [] {
      assert Run(Step(e, last), []) == Step(e, last);
    } else {
      assert (events + [last])[1..] == events[1..] + [last];
      RunSnoc(Step(e, events[0]), events[1..], last);
    }
  }

  lemma {:induction false} RunIsClosedForm(prompt: nat, events: seq<Event>, k: nat)
    requires k <= |events|
    ensures Run(AfterPrompt(prompt), events[..k])
         == Estimate(ContextAt(prompt, events, k), TurnInput(prompt, events, k), TurnOutput(events, k))
    decreases k
  {
    if k > 0 {
      RunIsClosedForm(prompt, events, k - 1);
      assert events[..k] == events[..k - 1] + [events[k - 1]];
      RunSnoc(AfterPrompt(prompt), events[..k - 1], events[k - 1]);
    }
  }

  /** What the page shows is every finished turn's bill plus one for the context waiting to go in next. */
  lemma ShownIsTheBill(prompt: nat, events: seq<Event>)
    ensures Run(AfterPrompt(prompt), events).Shown()
         == Usage(TurnInput(prompt, events, |events|) + ContextAt(prompt, events, |events|) / 4,
                  TurnOutput(events, |events|))
  {
    assert events[..|events|] == events;
    RunIsClosedForm(prompt, events, |events|);
  }

  // ----- Monotone, and at most quadratic -----

  lemma {:induction false} ShownNeverDecreases(e: Estimate, events: seq<Event>)
    ensures e.Shown().input <= Run(e, events).Shown().input
    ensures e.Shown().output <= Run(e, events).Shown().output
    decreases |events|
  {
    if events != [] {
      var t := Step(e, events[0]);
      assert e.context <= t.context && e.context / 4 <= t.context / 4;
      ShownNeverDecreases(t, events[1..]);
    }
  }

  lemma {:induction false} ContextIsLinear(prompt: nat, events: seq<Event>, k: nat)
    requires k <= |events|
    ensures ContextAt(prompt, events, k) <= MAX_STREAM_CHUNK * (k + 1)
    decreases k
  {
    if k > 0 {
      ContextIsLinear(prompt, events, k - 1);
    }
  }

  function Triangle(n: nat): nat {
    if n == 0 then 0 else n + Triangle(n - 1)
  }

  lemma {:induction false} TriangleClosed(n: nat)
    ensures 2 * Triangle(n) == n * (n + 1)
  {
    if n > 0 {
      TriangleClosed(n - 1);
    }
  }

  lemma {:induction false} TurnInputIsQuadratic(prompt: nat, events: seq<Event>, k: nat)
    requires k <= |events|
    ensures TurnInput(prompt, events, k) <= 50_000 * Triangle(k)
    decreases k
  {
    if k > 0 {
      TurnInputIsQuadratic(prompt, events, k - 1);
      ContextIsLinear(prompt, events, k - 1);
    }
  }

  /** The context grows at most one capped chunk an event, so the estimate is at most quadratic in their number. */
  lemma ShownIsAtMostQuadratic(prompt: nat, events: seq<Event>)
    ensures var k := |events|;
            Run(AfterPrompt(prompt), events).Shown().input <= 50_000 * (k + 1) * (k + 2) / 2
  {
    var k := |events|;
    ShownIsTheBill(prompt, events);
    TurnInputIsQuadratic(prompt, events, k);
    ContextIsLinear(prompt, events, k);
    TriangleClosed(k + 1);
    HalfOfDouble(k);
  }

  lemma HalfOfDouble(k: nat)
    requires 2 * Triangle(k + 1) == (k + 1) * (k + 2)
    ensures 50_000 * (k + 1) * (k + 2) / 2 == 50_000 * Triangle(k + 1)
  {
    assert 50_000 * (k + 1) * (k + 2) == 50_000 * ((k + 1) * (k + 2));
    assert 50_000 * ((k + 1) * (k + 2)) == 2 * (50_000 * Triangle(k + 1));
  }

  /** The bound is exact: a long prompt and nothing but full-size turns reach it. */
  lemma {:induction false} QuadraticIsReached(k: nat)
    ensures var events := seq(k, _ => Assistant(false, MAX_STREAM_CHUNK));
            var e := Run(AfterPrompt(MAX_STREAM_CHUNK), events);
            && e.context == MAX_STREAM_CHUNK * (k + 1)
            && e.input == 50_000 * Triangle(k)
            && e.Shown().input == 50_000 * (k + 1) * (k + 2) / 2
  {
    var turn := Assistant(false, MAX_STREAM_CHUNK);
    if k > 0 {
      QuadraticIsReached(k - 1);
      assert seq(k, _ => turn) == seq(k - 1, _ => turn) + [turn];
      RunSnoc(AfterPrompt(MAX_STREAM_CHUNK), seq(k - 1, _ => turn), turn);
    }
    TriangleClosed(k + 1);
    HalfOfDouble(k);
  }

  // ----- When the page is told -----

  /** A figure is shown if and only if there is one, it is not the one shown, and it is the first, a quarter of a second
      has passed since the last, or it is 2000 tokens up. */
  lemma FigureIsDue(billable: nat, lastShown: nat, lastFlush: int, now: nat)
    ensures Due(billable, lastShown, lastFlush, now)
        <==> && billable > 0 && billable != lastShown
             && (lastFlush < 0 || now >= lastFlush + 250 || billable >= lastShown + 2000)
  {
  }

  // ----- The page never steps back -----

  /** Whatever came between, a figure that is due is larger than the one last shown. */
  lemma ShownFiguresClimb(e: Estimate, events: seq<Event>, lastFlush: int, now: nat)
    ensures var shown := Run(e, events).Shown().Billable();
            Due(shown, e.Shown().Billable(), lastFlush, now) ==> e.Shown().Billable() < shown
  {
    ShownNeverDecreases(e, events);
  }
}
