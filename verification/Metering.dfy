/** Token metering: the per-call usage slot and the bookings made from it
    (cmd/src/agent.rs, cmd/src/pipeline.rs, cmd/src/store.rs). */
module Metering {
  import E = StreamEstimate

  datatype TokenUsage = TokenUsage(input: int, output: int, cacheRead: int, cacheWrite: int) {
    function Billable(): int {
      input + output
    }

    function Add(o: TokenUsage): TokenUsage {
      TokenUsage(input + o.input, output + o.output, cacheRead + o.cacheRead, cacheWrite + o.cacheWrite)
    }

    function SaturatingSub(o: TokenUsage): TokenUsage {
      TokenUsage(Clamp(input - o.input), Clamp(output - o.output),
                 Clamp(cacheRead - o.cacheRead), Clamp(cacheWrite - o.cacheWrite))
    }
  }

  function Clamp(n: int): int {
    if n < 0 then 0 else n
  }

  function Larger(a: int, b: int): int {
    if a < b then b else a
  }

  datatype Figure = Input | Output | CacheRead | CacheWrite | Cost

  /** Tokens and what the provider said they cost, which always travel together. */
  datatype Charge = Charge(tokens: TokenUsage, cost: int) {
    /** One figure of the charge; two charges are equal when all five are. */
    function At(f: Figure): int {
      match f
      case Input => tokens.input
      case Output => tokens.output
      case CacheRead => tokens.cacheRead
      case CacheWrite => tokens.cacheWrite
      case Cost => cost
    }

    function Add(o: Charge): Charge {
      Charge(tokens.Add(o.tokens), cost + o.cost)
    }

    function SaturatingSub(o: Charge): Charge {
      Charge(tokens.SaturatingSub(o.tokens), Clamp(cost - o.cost))
    }

    /** The componentwise maximum. */
    function Join(o: Charge): Charge {
      Charge(TokenUsage(Larger(tokens.input, o.tokens.input), Larger(tokens.output, o.tokens.output),
                        Larger(tokens.cacheRead, o.tokens.cacheRead), Larger(tokens.cacheWrite, o.tokens.cacheWrite)),
             Larger(cost, o.cost))
    }
  }

  const NO_TOKENS := TokenUsage(0, 0, 0, 0)
  const ZERO := Charge(NO_TOKENS, 0)

  /** How the store answers one booking. */
  datatype Answer = TotalsFailed | DebitFailed | Debited(exhausted: bool)

  /** One agent call's usage. */
  datatype Slot = Slot(pending: Charge, booked: Charge, callTotal: Charge)

  /** A slice handed over to be booked: first counted in the run's total, then answered by the store. Between the two
      the booking waits, and any other step may come. */
  datatype Booking = Booking(charge: Charge, counted: bool)

  /** What the whole run has billed, and whether it must stop. */
  datatype Ledger = Ledger(
    tokenCap: int,
    realBooked: TokenUsage,
    account: Charge,       // what the store has debited
    budgetReached: bool,
    creditsExhausted: bool)

  datatype State = State(
    slot: Slot,
    inFlight: seq<Booking>,
    ledger: Ledger,
    tally: Charge,         // the per-stage tally, all stages together
    flusher: bool,         // a live writer is installed
    metered: bool)         // this process runs a real execution for a real account

  /** One step of the process that no other can divide, in whatever order threads and tasks take them. */
  datatype Op =
    | BeginCall
    | Stream(isResult: bool, reported: Charge)
    | Note(used: Charge)
    | Flush
    | Drain                                       // the closing drain takes what is pending
    | CloseCall                                   // and, its booking done, the call's total
    | Count(i: nat)                               // booking `i` joins the run's total
    | Answered(i: nat, answer: Answer)            // and hears from the store
    | LiveWallet(estimate: TokenUsage, covered: bool)
    | LiveCap(estimate: TokenUsage)

  // ----- The steps -----

  const EMPTY_SLOT := Slot(ZERO, ZERO, ZERO)

  function Book(slot: Slot, c: Charge): Slot {
    slot.(pending := slot.pending.Add(c), booked := slot.booked.Add(c))
  }

  function Hear(slot: Slot, isResult: bool, reported: Charge): Slot {
    if reported == ZERO then slot
    else Book(slot, if isResult then reported.SaturatingSub(slot.booked) else reported)
  }

  function Take(slot: Slot): Slot {
    slot.(pending := ZERO, callTotal := slot.callTotal.Add(slot.pending))
  }

  /** An empty slice is never booked. */
  function Enqueue(inFlight: seq<Booking>, c: Charge): seq<Booking> {
    if c == ZERO then inFlight else inFlight + [Booking(c, false)]
  }

  /** The token limit latches when a total shows it. */
  function Capped(ledger: Ledger, spent: int): Ledger {
    if ledger.tokenCap > 0 && spent >= ledger.tokenCap && !ledger.budgetReached then
      ledger.(budgetReached := true, creditsExhausted := true)
    else ledger
  }

  function Counted(ledger: Ledger, c: Charge): Ledger {
    var total := ledger.realBooked.Add(c.tokens);
    Capped(ledger.(realBooked := total), total.Billable())
  }

  /** No run goes on once its debit could not be made. */
  function Heard(ledger: Ledger, c: Charge, answer: Answer): Ledger {
    match answer
    case Debited(exhausted) =>
      ledger.(account := ledger.account.Add(c), creditsExhausted := ledger.creditsExhausted || exhausted)
    case _ => ledger.(creditsExhausted := true)
  }

  predicate CanCount(s: State, i: nat) {
    i < |s.inFlight| && !s.inFlight[i].counted
  }

  predicate CanAnswer(s: State, i: nat) {
    i < |s.inFlight| && s.inFlight[i].counted
  }

  function Step(s: State, op: Op): State {
    match op
    case BeginCall => s.(slot := EMPTY_SLOT)
    case Stream(isResult, reported) => s.(slot := Hear(s.slot, isResult, reported))
    case Note(used) => s.(slot := Book(s.slot, used))
    case Flush =>
      if s.flusher then s.(slot := Take(s.slot), inFlight := Enqueue(s.inFlight, s.slot.pending)) else s
    case Drain =>
      s.(slot := Take(s.slot), inFlight := if s.metered then Enqueue(s.inFlight, s.slot.pending) else s.inFlight)
    case CloseCall =>
      s.(slot := s.slot.(callTotal := ZERO), tally := s.tally.Add(s.slot.callTotal))
    case Count(i) =>
      if CanCount(s, i) then
        s.(inFlight := s.inFlight[i := s.inFlight[i].(counted := true)],
           ledger := Counted(s.ledger, s.inFlight[i].charge))
      else s
    case Answered(i, answer) =>
      if CanAnswer(s, i) then
        s.(inFlight := s.inFlight[..i] + s.inFlight[i + 1..],
           ledger := Heard(s.ledger, s.inFlight[i].charge, answer))
      else s
    case LiveWallet(estimate, covered) =>
      // Only what is not booked yet is held against the wallet.
      if covered || estimate == NO_TOKENS || estimate.SaturatingSub(s.slot.booked.tokens) == NO_TOKENS then s
      else s.(ledger := s.ledger.(creditsExhausted := true))
    case LiveCap(estimate) =>
      if estimate == NO_TOKENS then s
      else s.(ledger := Capped(s.ledger, s.ledger.realBooked.Add(estimate).Billable()))
  }

  function Run(s: State, ops: seq<Op>): State
    decreases |ops|
  {
    if ops == [] then s else Run(Step(s, ops[0]), ops[1..])
  }

  lemma {:induction false} RunConcat(s: State, a: seq<Op>, b: seq<Op>)
    ensures Run(s, a + b) == Run(Run(s, a), b)
    decreases |a|
  {
    hide Step;
    if a == [] {
      assert a + b == b;
    } else {
      assert (a + b)[1..] == a[1..] + b;
      RunConcat(Step(s, a[0]), a[1..], b);
    }
  }

  lemma RunNothing(s: State)
    ensures Run(s, []) == s
  {
  }

  lemma RunOne(s: State, op: Op)
    ensures Run(s, [op]) == Step(s, op)
  {
    hide Step;
    assert [op][1..] == [];
  }

  lemma RunMore(s: State, ops: seq<Op>, op: Op)
    ensures Run(s, ops + [op]) == Step(Run(s, ops), op)
  {
    hide Step, Run;
    RunConcat(s, ops, [op]);
    RunOne(Run(s, ops), op);
  }

  /** A booking made from where nothing can come between: counted and answered at once. */
  function Landing(n: nat, answer: Answer): seq<Op> {
    [Count(n)] + [Answered(n, answer)]
  }

  /** A flush as its caller makes it. On the runtime the booking is left to a task; elsewhere it is waited for. */
  function Flushing(onRuntime: bool, n: nat, answer: Answer): seq<Op> {
    [Flush] + if onRuntime then [] else Landing(n, answer)
  }

  // ----- The process that takes them -----

  class Meter {
    var pending: Charge
    var booked: Charge
    var callTotal: Charge
    var inFlight: seq<Booking>
    var flusher: bool
    const metered: bool
    const tokenCap: int
    const estimate: E.StreamMeter     // what the live page shows meanwhile
    var realBooked: TokenUsage
    var account: Charge
    var tally: Charge
    var budgetReached: bool
    var creditsExhausted: bool

    ghost function SlotNow(): Slot
      reads this
    {
      Slot(pending, booked, callTotal)
    }

    ghost function LedgerNow(): Ledger
      reads this
    {
      Ledger(tokenCap, realBooked, account, budgetReached, creditsExhausted)
    }

    ghost function Now(): State
      reads this
    {
      State(SlotNow(), inFlight, LedgerNow(), tally, flusher, metered)
    }

    constructor (metered: bool, flusher: bool, tokenCap: int)
      ensures Now() == Begun(metered, flusher, tokenCap)
      ensures fresh(estimate) && estimate.Now() == E.Estimate(0, 0, 0)
    {
      estimate := new E.StreamMeter();
      pending, booked, callTotal, inFlight := ZERO, ZERO, ZERO, [];
      this.metered, this.flusher, this.tokenCap := metered, flusher, tokenCap;
      realBooked, account, tally := NO_TOKENS, ZERO, ZERO;
      budgetReached, creditsExhausted := false, false;
    }

    /** The slot and the live estimate start over together. */
    method BeginUsageCall()
      modifies this, estimate
      ensures Now() == Step(old(Now()), BeginCall)
      ensures estimate.Now() == E.Estimate(0, 0, 0) && estimate.lastFlush < 0 && estimate.lastShown == 0
    {
      estimate.Reset();
      pending, booked, callTotal := ZERO, ZERO, ZERO;
    }

    method AccumulateUsage(isResult: bool, reported: Charge)
      modifies this
      ensures Now() == Step(old(Now()), Stream(isResult, reported))
    {
      if reported == ZERO {
        return;
      }
      if isResult {
        var delta := reported.tokens.SaturatingSub(booked.tokens);
        var costDelta := Clamp(reported.cost - booked.cost);
        pending := Charge(pending.tokens.Add(delta), pending.cost + costDelta);
        booked := Charge(booked.tokens.Add(delta), booked.cost + costDelta);
      } else {
        pending := pending.Add(reported);
        booked := booked.Add(reported);
      }
    }

    method NoteUsage(used: Charge, onRuntime: bool, answer: Answer)
      modifies this
      ensures Now() == Run(old(Now()), [Note(used)] + Flushing(onRuntime, |old(inFlight)|, answer))
    {
      ghost var before, n := Now(), |inFlight|;
      pending := pending.Add(used);
      booked := booked.Add(used);
      assert Now() == Step(before, Note(used));
      hide Step, Run, Flushing;
      FlushUsageLive(onRuntime, answer);
      RunConcat(before, [Note(used)], Flushing(onRuntime, n, answer));
      RunOne(before, Note(used));
    }

    method TakeUsage() returns (taken: Charge)
      modifies this
      ensures taken == old(pending)
      ensures Now() == old(Now()).(slot := Take(old(SlotNow())))
    {
      taken := pending;
      pending := ZERO;
      callTotal := callTotal.Add(taken);
    }

    method TakeCallTotal() returns (total: Charge)
      modifies this
      ensures total == old(callTotal)
      ensures Now() == old(Now()).(slot := old(SlotNow()).(callTotal := ZERO))
    {
      total := callTotal;
      callTotal := ZERO;
    }

    /** Whether the caller is on the runtime decides who books the slice: a task, some time later, or the caller,
        now. */
    method FlushUsageLive(onRuntime: bool, answer: Answer)
      modifies this
      ensures Now() == Run(old(Now()), Flushing(onRuntime, |old(inFlight)|, answer))
    {
      hide Run, Landing;
      ghost var before, n := Now(), |inFlight|;
      RunNothing(Step(before, Flush));
      RunConcat(before, [Flush], if onRuntime then [] else Landing(n, answer));
      RunOne(before, Flush);
      NothingToLand(before, Flush, answer);
      if !flusher {
        return;
      }
      var taken := TakeUsage();
      if taken == ZERO {
        return;
      }
      if onRuntime {
        inFlight := inFlight + [Booking(taken, false)];
      } else {
        BookTokens(taken, answer);
      }
    }

    method MeterRun(answer: Answer)
      modifies this
      ensures Now() == Run(old(Now()), [Drain] + Landing(|old(inFlight)|, answer) + [CloseCall])
    {
      hide Run, Landing, Step, Take;
      ghost var before, n := Now(), |inFlight|;
      DrainTakes(before);
      RunConcat(before, [Drain], Landing(n, answer));
      RunOne(before, Drain);
      RunMore(before, [Drain] + Landing(n, answer), CloseCall);
      NothingToLand(before, Drain, answer);
      var leftover := TakeUsage();
      if metered && leftover != ZERO {
        BookTokens(leftover, answer);
      }
      assert Now() == Run(before, [Drain] + Landing(n, answer));
      CloseTallies(Now());
      var total := TakeCallTotal();
      tally := tally.Add(total);
    }

    /** A booking that is waited for. */
    method BookTokens(c: Charge, answer: Answer)
      modifies this
      ensures Now() == Run(old(Now()).(inFlight := Enqueue(old(inFlight), c)), Landing(|old(inFlight)|, answer))
    {
      ghost var before := Now();
      var n := |inFlight|;
      if c == ZERO {
        LandingBeyond(before, n, answer);
        return;
      }
      inFlight := inFlight + [Booking(c, false)];
      ghost var begun := Now();
      CountBooking(n);
      AnswerBooking(n, answer);
      hide Step, Run;
      RunMore(begun, [Count(n)], Answered(n, answer));
      RunOne(begun, Count(n));
    }

    /** The first half of a booking, up to where it first waits. */
    method CountBooking(i: nat)
      requires i < |inFlight| && !inFlight[i].counted
      modifies this
      ensures Now() == Step(old(Now()), Count(i))
    {
      realBooked := realBooked.Add(inFlight[i].charge.tokens);
      CheckTokenCap(realBooked.Billable());
      inFlight := inFlight[i := inFlight[i].(counted := true)];
    }

    /** The second half: what the store answers. */
    method AnswerBooking(i: nat, answer: Answer)
      requires i < |inFlight| && inFlight[i].counted
      modifies this
      ensures Now() == Step(old(Now()), Answered(i, answer))
    {
      match answer {
        case TotalsFailed => creditsExhausted := true;
        case DebitFailed => creditsExhausted := true;
        case Debited(exhausted) =>
          account := account.Add(inFlight[i].charge);
          if exhausted {
            creditsExhausted := true;
          }
      }
      inFlight := inFlight[..i] + inFlight[i + 1..];
    }

    /** Waits for every booking. The tasks get on in any order and the store answers as it likes; in the end none is
        left, and nothing happened but bookings being counted and answered. */
    method SettleBookings(answers: Booking -> Answer) returns (ghost ops: seq<Op>)
      modifies this
      ensures inFlight == [] && Now() == Run(old(Now()), ops) && AreLandings(ops)
    {
      ghost var before := Now();
      ops := [];
      while inFlight != []
        invariant Now() == Run(before, ops) && AreLandings(ops)
        decreases |inFlight|, Uncounted(inFlight)
      {
        var i: nat :| i < |inFlight|;
        if inFlight[i].counted {
          var answer := answers(inFlight[i]);
          AnswerBooking(i, answer);
          RunMore(before, ops, Answered(i, answer));
          ops := ops + [Answered(i, answer)];
        } else {
          CountingLeavesFewer(inFlight, i);
          CountBooking(i);
          RunMore(before, ops, Count(i));
          ops := ops + [Count(i)];
        }
      }
    }

    method CheckTokenCap(spent: int)
      modifies `budgetReached, `creditsExhausted
      ensures LedgerNow() == Capped(old(LedgerNow()), spent)
    {
      if tokenCap > 0 && spent >= tokenCap && !budgetReached {
        budgetReached := true;
        creditsExhausted := true;
      }
    }

    /** The estimate, held against the wallet and then against the limit; `covered` is what the store said of the part
        not booked yet, an unreadable wallet counting as empty. */
    method ShowLiveTokens(estimate: TokenUsage, covered: bool)
      modifies this
      ensures Now() == Run(old(Now()), [LiveWallet(estimate, covered)] + [LiveCap(estimate)])
    {
      hide Run;
      ghost var before := Now();
      RunMore(before, [LiveWallet(estimate, covered)], LiveCap(estimate));
      RunOne(before, LiveWallet(estimate, covered));
      NoEstimate(before, covered);
      if estimate == NO_TOKENS {
        return;
      }
      if estimate.SaturatingSub(booked.tokens) != NO_TOKENS && !covered {
        creditsExhausted := true;
      }
      CheckTokenCap(realBooked.Add(estimate).Billable());
    }
  }

  /** How a run begins. */
  function Begun(metered: bool, flusher: bool, tokenCap: int): State {
    State(EMPTY_SLOT, [], Ledger(tokenCap, NO_TOKENS, ZERO, false, false), ZERO, flusher, metered)
  }

  predicate AreLandings(ops: seq<Op>) {
    forall op <- ops :: op.Count? || op.Answered?
  }

  /** How many bookings are not counted yet. */
  function Uncounted(bs: seq<Booking>): nat {
    if bs == [] then 0 else Uncounted(bs[1..]) + if bs[0].counted then 0 else 1
  }

  lemma {:induction false} CountingLeavesFewer(bs: seq<Booking>, i: nat)
    requires i < |bs| && !bs[i].counted
    ensures Uncounted(bs[i := bs[i].(counted := true)]) == Uncounted(bs) - 1
  {
    var after := bs[i := bs[i].(counted := true)];
    if i == 0 {
      assert after[1..] == bs[1..];
    } else {
      assert after[1..] == bs[1..][i - 1 := bs[i].(counted := true)];
      CountingLeavesFewer(bs[1..], i - 1);
    }
  }

  /** Landing a booking that is not there does nothing. */
  lemma LandingBeyond(s: State, n: nat, answer: Answer)
    requires n >= |s.inFlight|
    ensures Run(s, Landing(n, answer)) == s
  {
    RunMore(s, [Count(n)], Answered(n, answer));
    RunOne(s, Count(n));
    hide Run;
  }

  /** Nor does landing what an empty drain did not hand over. */
  lemma NothingToLand(s: State, op: Op, answer: Answer)
    requires op.Flush? || op.Drain?
    ensures var t := Step(s, op);
            |t.inFlight| == |s.inFlight| ==> Run(t, Landing(|s.inFlight|, answer)) == t
  {
    var t := Step(s, op);
    if |t.inFlight| == |s.inFlight| {
      LandingBeyond(t, |s.inFlight|, answer);
    }
  }

  lemma DrainTakes(s: State)
    ensures Step(s, Drain) ==
            s.(slot := Take(s.slot), inFlight := if s.metered then Enqueue(s.inFlight, s.slot.pending) else s.inFlight)
  {
  }

  lemma CloseTallies(s: State)
    ensures Step(s, CloseCall) == s.(slot := s.slot.(callTotal := ZERO), tally := s.tally.Add(s.slot.callTotal))
  {
  }

  lemma NoEstimate(s: State, covered: bool)
    ensures Step(Step(s, LiveWallet(NO_TOKENS, covered)), LiveCap(NO_TOKENS)) == s
  {
  }
}
