/** What metering keeps, in every interleaving of calls, events, drains, bookings and estimates
    (cmd/src/agent.rs, cmd/src/pipeline.rs). */
module MeteringLaws {
  import opened Metering
  import E = StreamEstimate

  // ----- What one step newly books, hands over, forgets, or fails to debit -----

  function Booked(s: State, op: Op): Charge {
    match op
    case Stream(isResult, reported) =>
      if isResult && reported != ZERO then reported.SaturatingSub(s.slot.booked) else reported
    case Note(used) => used
    case _ => ZERO
  }

  function HandedOver(s: State, op: Op): Charge {
    match op
    case Flush => if s.flusher then s.slot.pending else ZERO
    case Drain => if s.metered then s.slot.pending else ZERO
    case _ => ZERO
  }

  function Forgotten(s: State, op: Op): Charge {
    match op
    case BeginCall => s.slot.pending
    case Drain => if s.metered then ZERO else s.slot.pending
    case _ => ZERO
  }

  function Refused(s: State, op: Op): Charge {
    match op
    case Answered(i, answer) => if CanAnswer(s, i) && !answer.Debited? then s.inFlight[i].charge else ZERO
    case _ => ZERO
  }

  /** The sum of one figure over a run, of whatever `amount` reads off each step. */
  function Total(s: State, ops: seq<Op>, amount: (State, Op) -> Charge, f: Figure): int
    decreases |ops|
  {
    if ops == [] then 0
    else amount(s, ops[0]).At(f) + Total(Step(s, ops[0]), ops[1..], amount, f)
  }

  lemma {:induction false} TotalConcat(s: State, a: seq<Op>, b: seq<Op>, amount: (State, Op) -> Charge, f: Figure)
    ensures Total(s, a + b, amount, f) == Total(s, a, amount, f) + Total(Run(s, a), b, amount, f)
    decreases |a|
  {
    hide Step;
    if a == [] {
      assert a + b == b;
    } else {
      assert (a + b)[1..] == a[1..] + b;
      TotalConcat(Step(s, a[0]), a[1..], b, amount, f);
    }
  }

  // ----- Bookings in flight -----

  /** One figure of the bookings that are counted, or of those that are not. */
  function Sum(bs: seq<Booking>, counted: bool, f: Figure): int {
    if bs == [] then 0
    else (if bs[0].counted == counted then bs[0].charge.At(f) else 0) + Sum(bs[1..], counted, f)
  }

  lemma {:induction false} SumConcat(a: seq<Booking>, b: seq<Booking>, counted: bool, f: Figure)
    ensures Sum(a + b, counted, f) == Sum(a, counted, f) + Sum(b, counted, f)
  {
    if a == [] {
      assert a + b == b;
    } else {
      assert (a + b)[1..] == a[1..] + b;
      SumConcat(a[1..], b, counted, f);
    }
  }

  lemma SumOne(b: Booking, counted: bool, f: Figure)
    ensures Sum([b], counted, f) == if b.counted == counted then b.charge.At(f) else 0
  {
    assert [b][1..] == [];
  }

  lemma SumAround(bs: seq<Booking>, i: nat, b: Booking, counted: bool, f: Figure)
    requires i < |bs|
    ensures Sum(bs[i := b], counted, f) == Sum(bs[..i] + bs[i + 1..], counted, f) + Sum([b], counted, f)
    ensures Sum(bs, counted, f) == Sum(bs[..i] + bs[i + 1..], counted, f) + Sum([bs[i]], counted, f)
  {
    hide Sum;
    SumConcat(bs[..i], bs[i + 1..], counted, f);
    assert bs[i := b] == bs[..i] + ([b] + bs[i + 1..]);
    SumConcat(bs[..i], [b] + bs[i + 1..], counted, f);
    SumConcat([b], bs[i + 1..], counted, f);
    assert bs == bs[..i] + ([bs[i]] + bs[i + 1..]);
    SumConcat(bs[..i], [bs[i]] + bs[i + 1..], counted, f);
    SumConcat([bs[i]], bs[i + 1..], counted, f);
  }

  lemma EnqueuedSum(bs: seq<Booking>, c: Charge, f: Figure)
    ensures Sum(Enqueue(bs, c), false, f) == Sum(bs, false, f) + c.At(f)
    ensures Sum(Enqueue(bs, c), true, f) == Sum(bs, true, f)
  {
    if c != ZERO {
      SumConcat(bs, [Booking(c, false)], false, f);
      SumConcat(bs, [Booking(c, false)], true, f);
      SumOne(Booking(c, false), false, f);
      SumOne(Booking(c, false), true, f);
    }
  }

  /** What a step does to the sums in flight, the run's total and the account. */
  lemma StepMovesSlices(s: State, op: Op, f: Figure)
    requires f != Cost
    ensures var t := Step(s, op);
            && Billed(t.ledger, f) + Sum(t.inFlight, false, f)
               == Billed(s.ledger, f) + Sum(s.inFlight, false, f) + HandedOver(s, op).At(f)
            && t.ledger.account.At(f) + Sum(t.inFlight, true, f) + Refused(s, op).At(f) - Billed(t.ledger, f)
               == s.ledger.account.At(f) + Sum(s.inFlight, true, f) - Billed(s.ledger, f)
  {
    StepMovesAll(s, op, f);
    if op.Count? && CanCount(s, op.i) {
      CountMoves(s, op.i, f);
    } else if op.Answered? && CanAnswer(s, op.i) {
      AnswerMoves(s, op.i, op.answer, f);
    } else if op.Flush? || op.Drain? {
      EnqueuedSum(s.inFlight, s.slot.pending, f);
    }
    hide Sum, Take, Hear, Enqueue;
  }

  /** The run's billed total, one figure of it; the total keeps no cost. */
  function Billed(ledger: Ledger, f: Figure): int {
    Charge(ledger.realBooked, 0).At(f)
  }

  lemma CountMoves(s: State, i: nat, f: Figure)
    requires CanCount(s, i)
    ensures var t := Step(s, Count(i));
            var c := s.inFlight[i].charge.At(f);
            && Sum(t.inFlight, false, f) == Sum(s.inFlight, false, f) - c
            && Sum(t.inFlight, true, f) == Sum(s.inFlight, true, f) + c
            && t.ledger.account == s.ledger.account
            && (f != Cost ==> Billed(t.ledger, f) == Billed(s.ledger, f) + c)
  {
    var b := s.inFlight[i].(counted := true);
    SumAround(s.inFlight, i, b, false, f);
    SumAround(s.inFlight, i, b, true, f);
    SumOne(b, false, f);
    SumOne(b, true, f);
    SumOne(s.inFlight[i], false, f);
    SumOne(s.inFlight[i], true, f);
    hide Sum;
  }

  lemma AnswerMoves(s: State, i: nat, answer: Answer, f: Figure)
    requires CanAnswer(s, i)
    ensures var t := Step(s, Answered(i, answer));
            var c := s.inFlight[i].charge.At(f);
            && Sum(t.inFlight, false, f) == Sum(s.inFlight, false, f)
            && Sum(t.inFlight, true, f) == Sum(s.inFlight, true, f) - c
            && t.ledger.realBooked == s.ledger.realBooked
            && t.ledger.account.At(f) == s.ledger.account.At(f) + if answer.Debited? then c else 0
  {
    SumAround(s.inFlight, i, s.inFlight[i], false, f);
    SumAround(s.inFlight, i, s.inFlight[i], true, f);
    SumOne(s.inFlight[i], false, f);
    SumOne(s.inFlight[i], true, f);
    hide Sum;
  }

  /** In all five figures: what is handed over is debited, refused, or still in flight. */
  lemma StepMovesAll(s: State, op: Op, f: Figure)
    ensures var t := Step(s, op);
            t.ledger.account.At(f) + InFlight(t, f) + Refused(s, op).At(f)
            == s.ledger.account.At(f) + InFlight(s, f) + HandedOver(s, op).At(f)
  {
    if op.Count? && CanCount(s, op.i) {
      CountMoves(s, op.i, f);
    } else if op.Answered? && CanAnswer(s, op.i) {
      AnswerMoves(s, op.i, op.answer, f);
    } else if op.Flush? || op.Drain? {
      EnqueuedSum(s.inFlight, s.slot.pending, f);
    }
    hide Sum, Take, Hear, Enqueue;
  }

  function InFlight(s: State, f: Figure): int {
    Sum(s.inFlight, false, f) + Sum(s.inFlight, true, f)
  }

  // ----- Every interleaving charges every token exactly once -----

  /** Whatever order the steps come in: pending before plus newly booked is handed over, still pending, or forgotten. */
  lemma {:induction false} Conservation(s: State, ops: seq<Op>, f: Figure)
    ensures s.slot.pending.At(f) + Total(s, ops, Booked, f)
         == Total(s, ops, HandedOver, f) + Total(s, ops, Forgotten, f) + Run(s, ops).slot.pending.At(f)
    decreases |ops|
  {
    if ops != [] {
      StepConserves(s, ops[0], f);
      hide Step, Booked, HandedOver, Forgotten;
      Conservation(Step(s, ops[0]), ops[1..], f);
    }
  }

  lemma StepConserves(s: State, op: Op, f: Figure)
    ensures s.slot.pending.At(f) + Booked(s, op).At(f)
         == HandedOver(s, op).At(f) + Forgotten(s, op).At(f) + Step(s, op).slot.pending.At(f)
  {
    hide Enqueue, Counted, Heard, Capped;
  }

  /** The slices handed over are counted in the run's total or still wait for it, at every point of every run. */
  lemma {:induction false} HandedOverIsBilled(s: State, ops: seq<Op>, f: Figure)
    requires f != Cost
    ensures var t := Run(s, ops);
            Billed(t.ledger, f) + Sum(t.inFlight, false, f)
            == Billed(s.ledger, f) + Sum(s.inFlight, false, f) + Total(s, ops, HandedOver, f)
    decreases |ops|
  {
    if ops != [] {
      StepMovesSlices(s, ops[0], f);
      hide Step, HandedOver;
      HandedOverIsBilled(Step(s, ops[0]), ops[1..], f);
    }
  }

  /** And they reach the account, cost and all, unless the store refused them or they are still in flight. */
  lemma {:induction false} HandedOverIsDebited(s: State, ops: seq<Op>, f: Figure)
    ensures var t := Run(s, ops);
            t.ledger.account.At(f) + InFlight(t, f) + Total(s, ops, Refused, f)
            == s.ledger.account.At(f) + InFlight(s, f) + Total(s, ops, HandedOver, f)
    decreases |ops|
  {
    if ops != [] {
      StepMovesAll(s, ops[0], f);
      hide Step, HandedOver, Refused, InFlight;
      HandedOverIsDebited(Step(s, ops[0]), ops[1..], f);
    }
  }

  /** Once nothing is in flight, before and after: everything handed over is billed, and debited but for refusals. */
  lemma SettledIsBilledInFull(s: State, ops: seq<Op>, f: Figure)
    requires s.inFlight == [] && Run(s, ops).inFlight == []
    ensures var t := Run(s, ops);
            && (f != Cost ==> Billed(t.ledger, f) == Billed(s.ledger, f) + Total(s, ops, HandedOver, f))
            && t.ledger.account.At(f) + Total(s, ops, Refused, f)
               == s.ledger.account.At(f) + Total(s, ops, HandedOver, f)
  {
    HandedOverIsDebited(s, ops, f);
    if f != Cost {
      HandedOverIsBilled(s, ops, f);
    }
  }

  predicate WithinOneCall(ops: seq<Op>) {
    BeginCall !in ops
  }

  lemma {:induction false} SlotBalancesFrom(s: State, ops: seq<Op>, f: Figure, drained: int)
    requires WithinOneCall(ops)
    requires s.slot.booked.At(f) + drained == Held(s, f)
    ensures Run(s, ops).slot.booked.At(f) + drained == Held(Run(s, ops), f)
    decreases |ops|
  {
    if ops != [] {
      assert ops[0] in ops;
      assert forall op :: op in ops[1..] ==> op in ops;
      StepBalances(s, ops[0], f);
      hide Step, Held;
      SlotBalancesFrom(Step(s, ops[0]), ops[1..], f, drained);
    }
  }

  function Held(s: State, f: Figure): int {
    s.slot.pending.At(f) + s.slot.callTotal.At(f) + s.tally.At(f)
  }

  lemma StepBalances(s: State, op: Op, f: Figure)
    requires !op.BeginCall?
    ensures Step(s, op).slot.booked.At(f) - s.slot.booked.At(f) == Held(Step(s, op), f) - Held(s, f)
  {
    hide Enqueue, Counted, Heard, Capped;
  }

  /** From the start of a call, in every interleaving: booked = pending + call total + already drained to the tally. */
  lemma SlotBalances(s: State, ops: seq<Op>, f: Figure)
    requires WithinOneCall(ops)
    ensures var t := Run(Step(s, BeginCall), ops);
            t.slot.booked.At(f) == t.slot.pending.At(f) + t.slot.callTotal.At(f) + (t.tally.At(f) - s.tally.At(f))
  {
    SlotBalancesFrom(Step(s, BeginCall), ops, f, s.tally.At(f));
  }

  lemma {:induction false} BookedIsTheSum(s: State, ops: seq<Op>, f: Figure)
    requires WithinOneCall(ops)
    ensures Run(s, ops).slot.booked.At(f) == s.slot.booked.At(f) + Total(s, ops, Booked, f)
    decreases |ops|
  {
    if ops != [] {
      assert ops[0] in ops;
      assert forall op :: op in ops[1..] ==> op in ops;
      StepBooks(s, ops[0], f);
      hide Step, Booked;
      BookedIsTheSum(Step(s, ops[0]), ops[1..], f);
    }
  }

  lemma StepBooks(s: State, op: Op, f: Figure)
    requires !op.BeginCall?
    ensures Step(s, op).slot.booked.At(f) == s.slot.booked.At(f) + Booked(s, op).At(f)
  {
    hide Enqueue, Counted, Heard, Capped;
  }

  lemma {:induction false} MeteredForgetsNothing(s: State, ops: seq<Op>, f: Figure)
    requires s.metered && WithinOneCall(ops)
    ensures Total(s, ops, Forgotten, f) == 0 && Run(s, ops).metered
    decreases |ops|
  {
    if ops != [] {
      assert ops[0] in ops;
      assert forall op :: op in ops[1..] ==> op in ops;
      StepForgetsNothing(s, ops[0], f);
      hide Step, Forgotten;
      MeteredForgetsNothing(Step(s, ops[0]), ops[1..], f);
    }
  }

  lemma StepForgetsNothing(s: State, op: Op, f: Figure)
    requires s.metered && !op.BeginCall?
    ensures Forgotten(s, op).At(f) == 0 && Step(s, op).metered
  {
    hide Enqueue, Counted, Heard, Capped, Take, Hear, Book;
  }

  // ----- One whole call -----

  /** Nothing pending and nothing to tally: between calls, and just after a call began. */
  predicate IsDrained(slot: Slot) {
    slot.pending == ZERO && slot.callTotal == ZERO
  }

  /** A step that leaves the slot alone: bookings land and estimates are shown. */
  predicate IsQuiet(op: Op) {
    op.Count? || op.Answered? || op.LiveWallet? || op.LiveCap?
  }

  predicate AreQuiet(ops: seq<Op>) {
    forall op <- ops :: IsQuiet(op)
  }

  lemma {:induction false} QuietKeepsTheSlot(s: State, ops: seq<Op>)
    requires AreQuiet(ops)
    ensures Run(s, ops).slot == s.slot && Run(s, ops).tally == s.tally
    decreases |ops|
  {
    if ops != [] {
      assert ops[0] in ops;
      assert forall op :: op in ops[1..] ==> op in ops;
      QuietStepKeepsTheSlot(s, ops[0]);
      hide Step, IsQuiet;
      QuietKeepsTheSlot(Step(s, ops[0]), ops[1..]);
    }
  }

  lemma QuietStepKeepsTheSlot(s: State, op: Op)
    requires IsQuiet(op)
    ensures Step(s, op).slot == s.slot && Step(s, op).tally == s.tally
  {
    hide Counted, Heard, Capped;
  }

  /** The steps of one call: whatever comes, then the closing drain, its booking and others landing, and the close. */
  function WholeCall(ops: seq<Op>, quiet: seq<Op>): seq<Op> {
    ops + ([Drain] + quiet + [CloseCall])
  }

  lemma ClosingDrains(s: State, quiet: seq<Op>)
    requires AreQuiet(quiet)
    ensures var t := Run(s, [Drain] + quiet + [CloseCall]);
            IsDrained(t.slot) && t.slot.booked == s.slot.booked
  {
    RunMore(s, [Drain] + quiet, CloseCall);
    RunConcat(s, [Drain], quiet);
    RunOne(s, Drain);
    QuietKeepsTheSlot(Step(s, Drain), quiet);
    hide Run;
  }

  /** A whole call of a metered run, from any drained slot, so also for a model that never begins one: whatever was
      flushed on the way and whatever is still in flight, nothing is left in the slot, the stage tally grows by exactly
      what the call booked, and so does the billed total with what waits to join it. */
  lemma WholeCallIsBilledOnce(s: State, ops: seq<Op>, quiet: seq<Op>, f: Figure)
    requires s.metered && IsDrained(s.slot) && WithinOneCall(ops) && AreQuiet(quiet)
    ensures var all := WholeCall(ops, quiet);
            var t := Run(s, all);
            var booked := t.slot.booked.At(f) - s.slot.booked.At(f);
            && IsDrained(t.slot)
            && booked == Total(s, all, Booked, f) == Total(s, all, HandedOver, f)
            && t.tally.At(f) == s.tally.At(f) + booked
            && (f != Cost ==> Billed(t.ledger, f) + Sum(t.inFlight, false, f)
                              == Billed(s.ledger, f) + Sum(s.inFlight, false, f) + booked)
  {
    var all := WholeCall(ops, quiet);
    assert WithinOneCall(all);
    hide AreQuiet, Step;
    RunConcat(s, ops, [Drain] + quiet + [CloseCall]);
    ClosingDrains(Run(s, ops), quiet);
    MeteredForgetsNothing(s, all, f);
    Conservation(s, all, f);
    BookedIsTheSum(s, all, f);
    SlotBalancesFrom(s, all, f, Held(s, f) - s.slot.booked.At(f));
    if f != Cost {
      HandedOverIsBilled(s, all, f);
    }
  }

  /** And once the bookings are settled the billed total has grown by exactly what the call booked. */
  lemma SettledCallIsBilledOnce(s: State, ops: seq<Op>, quiet: seq<Op>, landings: seq<Op>, f: Figure)
    requires s.metered && IsDrained(s.slot) && s.inFlight == [] && WithinOneCall(ops) && AreQuiet(quiet)
    requires AreLandings(landings) && Run(s, WholeCall(ops, quiet) + landings).inFlight == [] && f != Cost
    ensures var t := Run(s, WholeCall(ops, quiet) + landings);
            Billed(t.ledger, f) == Billed(s.ledger, f) + (t.slot.booked.At(f) - s.slot.booked.At(f))
  {
    var all := WholeCall(ops, quiet);
    var t := Run(s, all);
    RunConcat(s, all, landings);
    WholeCallIsBilledOnce(s, ops, quiet, f);
    assert AreQuiet(landings);
    QuietKeepsTheSlot(t, landings);
    HandedOverIsBilled(t, landings, f);
    QuietHandsNothingOver(t, landings, f);
    hide Run, Step, WholeCall;
  }

  lemma {:induction false} QuietHandsNothingOver(s: State, ops: seq<Op>, f: Figure)
    requires AreQuiet(ops)
    ensures Total(s, ops, HandedOver, f) == 0
    decreases |ops|
  {
    if ops != [] {
      assert ops[0] in ops;
      assert forall op :: op in ops[1..] ==> op in ops;
      hide Step;
      QuietHandsNothingOver(Step(s, ops[0]), ops[1..], f);
    }
  }

  // ----- Many calls, one after the other -----

  /** What a call's own events book, the slot's other business left out. */
  function HeardNext(booked: Charge, op: Op): Charge {
    match op
    case Stream(isResult, reported) =>
      if reported == ZERO then booked
      else booked.Add(if isResult then reported.SaturatingSub(booked) else reported)
    case Note(used) => booked.Add(used)
    case _ => booked
  }

  function HeardBy(booked: Charge, ops: seq<Op>): Charge
    decreases |ops|
  {
    if ops == [] then booked else HeardBy(HeardNext(booked, ops[0]), ops[1..])
  }

  lemma StepHears(s: State, op: Op)
    requires !op.BeginCall?
    ensures Step(s, op).slot.booked == HeardNext(s.slot.booked, op)
  {
    hide Enqueue, Counted, Heard, Capped;
  }

  /** Flushes, drains, bookings and estimates between a call's events make no difference to what they book. */
  lemma {:induction false} BookedIsHeard(s: State, ops: seq<Op>)
    requires WithinOneCall(ops)
    ensures Run(s, ops).slot.booked == HeardBy(s.slot.booked, ops)
    decreases |ops|
  {
    if ops != [] {
      assert ops[0] in ops;
      assert forall op :: op in ops[1..] ==> op in ops;
      StepHears(s, ops[0]);
      hide Step, HeardNext;
      BookedIsHeard(Step(s, ops[0]), ops[1..]);
    }
  }

  /** A call: its own steps, with everybody's quiet ones among them, and those between its drain and its close. */
  datatype Call = Call(ops: seq<Op>, quiet: seq<Op>)

  predicate IsOneCall(c: Call) {
    WithinOneCall(c.ops) && AreQuiet(c.quiet)
  }

  function CallSteps(c: Call): seq<Op> {
    [BeginCall] + WholeCall(c.ops, c.quiet)
  }

  function AllSteps(calls: seq<Call>): seq<Op> {
    if calls == [] then [] else AllSteps(calls[..|calls| - 1]) + CallSteps(calls[|calls| - 1])
  }

  /** What the calls' own events book, each heard from nothing. */
  function AllHeard(calls: seq<Call>, f: Figure): int {
    if calls == [] then 0
    else AllHeard(calls[..|calls| - 1], f) + HeardBy(ZERO, calls[|calls| - 1].ops).At(f)
  }

  lemma OneMoreCall(s: State, c: Call, f: Figure)
    requires s.metered && IsDrained(s.slot) && IsOneCall(c)
    ensures var t := Run(s, CallSteps(c));
            var heard := HeardBy(ZERO, c.ops).At(f);
            && t.metered && IsDrained(t.slot)
            && t.tally.At(f) == s.tally.At(f) + heard
            && (f != Cost ==> Billed(t.ledger, f) + Sum(t.inFlight, false, f)
                              == Billed(s.ledger, f) + Sum(s.inFlight, false, f) + heard)
  {
    var begun := Step(s, BeginCall);
    assert begun == s.(slot := EMPTY_SLOT);
    hide Step;
    RunConcat(s, [BeginCall], WholeCall(c.ops, c.quiet));
    RunOne(s, BeginCall);
    WholeCallIsBilledOnce(begun, c.ops, c.quiet, f);
    MeteredForgetsNothing(begun, WholeCall(c.ops, c.quiet), f);
    BookedIsHeard(begun, c.ops);
    RunConcat(begun, c.ops, [Drain] + c.quiet + [CloseCall]);
    ClosingDrains(Run(begun, c.ops), c.quiet);
    hide Run, HeardBy, Sum, Billed;
  }

  /** Over a whole metered run of calls, however their flushes and bookings interleave: the tally, and the billed total
      with what waits to join it, grow by exactly what each call's own events book, heard apart from all the others. */
  lemma {:induction false} EveryCallIsBilledOnce(s: State, calls: seq<Call>, f: Figure)
    requires s.metered && IsDrained(s.slot) && forall c <- calls :: IsOneCall(c)
    ensures var t := Run(s, AllSteps(calls));
            && t.metered && IsDrained(t.slot)
            && t.tally.At(f) == s.tally.At(f) + AllHeard(calls, f)
            && (f != Cost ==> Billed(t.ledger, f) + Sum(t.inFlight, false, f)
                              == Billed(s.ledger, f) + Sum(s.inFlight, false, f) + AllHeard(calls, f))
  {
    if calls == [] {
      RunNothing(s);
    } else {
      var front, c := calls[..|calls| - 1], calls[|calls| - 1];
      assert c in calls && forall x <- front :: x in calls;
      EveryCallIsBilledOnce(s, front, f);
      RunConcat(s, AllSteps(front), CallSteps(c));
      hide Run, Step, IsOneCall, CallSteps, HeardBy, Sum, Billed;
      OneMoreCall(Run(s, AllSteps(front)), c, f);
    }
  }

  /** So a result must be heard in its own call. One that is heard after the next call began books all of itself,
      whatever its own call had booked already; within its call it books only what is new. */
  lemma LateResultBooksAllOfItself(s: State, reported: Charge)
    requires reported != ZERO
    ensures Step(Step(s, BeginCall), Stream(true, reported)).slot.pending == ZERO.Join(reported)
    ensures Step(s, Stream(true, reported)).slot.pending
         == s.slot.pending.Add(reported.SaturatingSub(s.slot.booked))
  {
  }

  /** An instance: a turn is booked and its call closed, the next call begins, and then the first call's result arrives.
      Two bookings of the same tokens are handed over. */
  lemma LateResultIsBookedTwice(c: Charge)
    requires c != ZERO && ZERO.Join(c) == c
    ensures var first := [BeginCall] + [Stream(false, c)] + [Flush] + [Drain] + [CloseCall];
            var t := Run(Begun(true, true, 0), first + [BeginCall] + [Stream(true, c)] + [Flush]);
            t.inFlight == [Booking(c, false), Booking(c, false)]
  {
    var start := Begun(true, true, 0);
    var a := TurnIsFlushed(start, c);
    var first := [BeginCall] + [Stream(false, c)] + [Flush] + [Drain] + [CloseCall];
    RunMore(start, [BeginCall] + [Stream(false, c)] + [Flush], Drain);
    RunMore(start, [BeginCall] + [Stream(false, c)] + [Flush] + [Drain], CloseCall);
    EmptyDrain(a);
    var b := Step(Step(a, Drain), CloseCall);
    RunMore(start, first, BeginCall);
    RunMore(start, first + [BeginCall], Stream(true, c));
    RunMore(start, first + [BeginCall] + [Stream(true, c)], Flush);
    ResultIsFlushed(b, c);
    hide Run, Step;
  }

  lemma TurnIsFlushed(start: State, c: Charge) returns (a: State)
    requires start == Begun(true, true, 0) && c != ZERO
    ensures a == Run(start, [BeginCall] + [Stream(false, c)] + [Flush])
    ensures a.inFlight == [Booking(c, false)] && a.slot.pending == ZERO && a.flusher && a.metered
  {
    RunMore(start, [BeginCall] + [Stream(false, c)], Flush);
    RunMore(start, [BeginCall], Stream(false, c));
    RunOne(start, BeginCall);
    hide Run;
    a := Step(Step(Step(start, BeginCall), Stream(false, c)), Flush);
    assert [] + [Booking(c, false)] == [Booking(c, false)];
  }

  lemma EmptyDrain(a: State)
    requires a.slot.pending == ZERO
    ensures var b := Step(Step(a, Drain), CloseCall);
            b.inFlight == a.inFlight && b.flusher == a.flusher
  {
  }

  lemma ResultIsFlushed(b: State, c: Charge)
    requires b.inFlight == [Booking(c, false)] && b.flusher && c != ZERO && ZERO.Join(c) == c
    ensures Step(Step(Step(b, BeginCall), Stream(true, c)), Flush).inFlight == [Booking(c, false), Booking(c, false)]
  {
    LateResultBooksAllOfItself(b, c);
    hide Hear, Book;
  }

  // ----- A cumulative result never double-counts -----

  /** A result lifts what is booked to the componentwise maximum, in tokens and in cost. */
  lemma ResultBooksTheMaximum(s: State, reported: Charge)
    requires reported != ZERO
    ensures Step(s, Stream(true, reported)).slot.booked == s.slot.booked.Join(reported)
  {
  }

  /** Hearing the same result again, or any smaller one, books nothing, whatever was flushed or drained meanwhile. */
  lemma RepeatedResultAddsNothing(s: State, reported: Charge, between: seq<Op>, again: Charge)
    requires WithinOneCall(between)
    requires reported != ZERO && reported.Join(again) == reported
    requires forall op :: op in between ==> IsQuiet(op) || op.Flush? || op.Drain? || op.CloseCall?
    ensures var t := Run(Step(s, Stream(true, reported)), between);
            Step(t, Stream(true, again)) == t
  {
    var heard := Step(s, Stream(true, reported));
    DrainsKeepBooked(heard, between);
    var t := Run(heard, between);
    assert again.SaturatingSub(t.slot.booked) == ZERO;
  }

  lemma {:induction false} DrainsKeepBooked(s: State, ops: seq<Op>)
    requires forall op :: op in ops ==> IsQuiet(op) || op.Flush? || op.Drain? || op.CloseCall?
    ensures Run(s, ops).slot.booked == s.slot.booked
    decreases |ops|
  {
    if ops != [] {
      assert ops[0] in ops;
      assert forall op :: op in ops[1..] ==> op in ops;
      DrainKeepsBooked(s, ops[0]);
      hide Step, IsQuiet;
      DrainsKeepBooked(Step(s, ops[0]), ops[1..]);
    }
  }

  lemma DrainKeepsBooked(s: State, op: Op)
    requires IsQuiet(op) || op.Flush? || op.Drain? || op.CloseCall?
    ensures Step(s, op).slot.booked == s.slot.booked
  {
    hide Counted, Heard, Capped, Enqueue;
  }

  // ----- Failing closed -----

  /** Until the run is told to stop, the account has been debited for every counted token but those still waiting for
      their answer. */
  predicate AccountIsCurrent(s: State, f: Figure) {
    s.ledger.creditsExhausted || s.ledger.account.At(f) + Sum(s.inFlight, true, f) == Billed(s.ledger, f)
  }

  lemma StepFailsClosed(s: State, op: Op, f: Figure)
    requires f != Cost
    ensures AccountIsCurrent(s, f) ==> AccountIsCurrent(Step(s, op), f)
    ensures s.ledger.creditsExhausted ==> Step(s, op).ledger.creditsExhausted
    ensures s.ledger.budgetReached ==> Step(s, op).ledger.budgetReached
    ensures Refused(s, op).At(f) != 0 ==> Step(s, op).ledger.creditsExhausted
  {
    LatchesHold(s, op);
    RefusalStops(s, op);
    StepMovesSlices(s, op, f);
    hide Step, HandedOver, Refused, Billed;
  }

  lemma LatchesHold(s: State, op: Op)
    ensures s.ledger.creditsExhausted ==> Step(s, op).ledger.creditsExhausted
    ensures s.ledger.budgetReached ==> Step(s, op).ledger.budgetReached
  {
    hide Enqueue, Take, Hear, Book;
  }

  lemma RefusalStops(s: State, op: Op)
    ensures Refused(s, op) == ZERO || Step(s, op).ledger.creditsExhausted
  {
    hide Enqueue, Take, Hear, Book, Capped, Counted;
  }

  /** At every step of every run, overlapping bookings and all: the account stays current but for what is in flight,
      a refused debit stops the run, and neither latch is ever reset. */
  lemma {:induction false} EveryRunFailsClosed(s: State, ops: seq<Op>, f: Figure)
    requires f != Cost && AccountIsCurrent(s, f)
    ensures var t := Run(s, ops);
            && AccountIsCurrent(t, f)
            && (t.inFlight == [] ==> t.ledger.creditsExhausted || t.ledger.account.At(f) == Billed(t.ledger, f))
            && (Total(s, ops, Refused, f) != 0 ==> t.ledger.creditsExhausted)
            && (s.ledger.creditsExhausted ==> t.ledger.creditsExhausted)
            && (s.ledger.budgetReached ==> t.ledger.budgetReached)
    decreases |ops|
  {
    if ops != [] {
      StepFailsClosed(s, ops[0], f);
      hide Step, Refused;
      EveryRunFailsClosed(Step(s, ops[0]), ops[1..], f);
    }
  }

  // ----- The token limit -----

  /** The totals a step holds against the limit: a newly counted total, or a live one with the estimate on top. */
  function Checked(s: State, op: Op): seq<int> {
    match op
    case Count(i) =>
      if CanCount(s, i) then [s.ledger.realBooked.Add(s.inFlight[i].charge.tokens).Billable()] else []
    case LiveCap(estimate) =>
      if estimate == NO_TOKENS then [] else [s.ledger.realBooked.Add(estimate).Billable()]
    case _ => []
  }

  /** All of them over a run, in order. */
  function CheckedTotals(s: State, ops: seq<Op>): seq<int>
    decreases |ops|
  {
    if ops == [] then [] else Checked(s, ops[0]) + CheckedTotals(Step(s, ops[0]), ops[1..])
  }

  predicate ReachesCap(totals: seq<int>, cap: int) {
    cap > 0 && exists n <- totals :: n >= cap
  }

  lemma ReachesCapConcat(a: seq<int>, b: seq<int>, cap: int)
    ensures ReachesCap(a + b, cap) <==> ReachesCap(a, cap) || ReachesCap(b, cap)
  {
    var all := a + b;
    assert (forall n <- a :: n in all) && (forall n <- b :: n in all) && forall n <- all :: n in a || n in b;
  }

  lemma CheckTripsAtTheCap(s: State, op: Op)
    ensures var t := Step(s, op);
            && t.ledger.tokenCap == s.ledger.tokenCap
            && (t.ledger.budgetReached <==>
                s.ledger.budgetReached || ReachesCap(Checked(s, op), s.ledger.tokenCap))
  {
    hide Enqueue, Take, Hear, Book;
    var checked := Checked(s, op);
    assert |checked| == 1 ==> checked[0] in checked;
    assert forall n <- checked :: n == checked[0];
  }

  /** A run reaches its token limit exactly when a total held against it did: a counted one, or a live one. */
  lemma {:induction false} BudgetTripsExactlyAtTheCap(s: State, ops: seq<Op>)
    ensures Run(s, ops).ledger.budgetReached
        <==> s.ledger.budgetReached || ReachesCap(CheckedTotals(s, ops), s.ledger.tokenCap)
    decreases |ops|
  {
    if ops != [] {
      hide Step, Checked, ReachesCap;
      var t := Step(s, ops[0]);
      BudgetTripsExactlyAtTheCap(t, ops[1..]);
      CheckTripsAtTheCap(s, ops[0]);
      ReachesCapConcat(Checked(s, ops[0]), CheckedTotals(t, ops[1..]), s.ledger.tokenCap);
    } else {
      assert !ReachesCap([], s.ledger.tokenCap);
    }
  }

  // ----- Who waits for a booking -----

  /** On the runtime a flushed slice is left in flight and nothing of the run's account has changed yet; elsewhere it is
      booked before the caller goes on, and nothing more is in flight than before. */
  lemma FlushIsLeftOrBooked(s: State, answer: Answer)
    ensures var n := |s.inFlight|;
            var left, waited := Run(s, Flushing(true, n, answer)), Run(s, Flushing(false, n, answer));
            var flushed := s.flusher && s.slot.pending != ZERO;
            && left.ledger == s.ledger
            && left.inFlight == s.inFlight + (if flushed then [Booking(s.slot.pending, false)] else [])
            && waited.inFlight == s.inFlight
            && waited.ledger == (if flushed then Heard(Counted(s.ledger, s.slot.pending), s.slot.pending, answer)
                                 else s.ledger)
  {
    hide Run, Landing, Counted, Heard;
    var n := |s.inFlight|;
    assert [Flush] + [] == [Flush];
    assert s.inFlight + [] == s.inFlight;
    RunOne(s, Flush);
    RunConcat(s, [Flush], Landing(n, answer));
    LastLands(Step(s, Flush), n, answer);
  }

  lemma LastLands(t: State, n: nat, answer: Answer)
    requires |t.inFlight| <= n + 1 && (n < |t.inFlight| ==> !t.inFlight[n].counted)
    ensures var landed := Run(t, Landing(n, answer));
            if |t.inFlight| <= n then landed == t
            else
              var c := t.inFlight[n].charge;
              landed.inFlight == t.inFlight[..n] && landed.ledger == Heard(Counted(t.ledger, c), c, answer)
  {
    hide Run, Counted, Heard;
    RunMore(t, [Count(n)], Answered(n, answer));
    RunOne(t, Count(n));
    if |t.inFlight| <= n {
      LandingBeyond(t, n, answer);
    }
  }

  // ----- When the run must stop -----

  /** The steps after which no run goes on, whatever its totals: a booking the store refused, a debit that emptied the
      wallet, and a live estimate some figure of which is past what is booked and not covered. */
  predicate Stops(s: State, op: Op) {
    match op
    case Answered(i, answer) => CanAnswer(s, i) && answer != Debited(false)
    case LiveWallet(estimate, covered) =>
      !covered && estimate != NO_TOKENS && exists f: Figure :: IsUnbooked(s, estimate, f)
    case _ => false
  }

  predicate IsUnbooked(s: State, estimate: TokenUsage, f: Figure) {
    f != Cost && Charge(estimate, 0).At(f) > s.slot.booked.At(f)
  }

  predicate SomeStop(s: State, ops: seq<Op>)
    decreases |ops|
  {
    ops != [] && (Stops(s, ops[0]) || SomeStop(Step(s, ops[0]), ops[1..]))
  }

  lemma UnbookedRemains(s: State, estimate: TokenUsage)
    ensures estimate.SaturatingSub(s.slot.booked.tokens) != NO_TOKENS
        <==> exists f: Figure :: IsUnbooked(s, estimate, f)
  {
    if estimate.SaturatingSub(s.slot.booked.tokens) != NO_TOKENS {
      assert || IsUnbooked(s, estimate, Input) || IsUnbooked(s, estimate, Output)
             || IsUnbooked(s, estimate, CacheRead) || IsUnbooked(s, estimate, CacheWrite);
    }
  }

  lemma StepStopsExactly(s: State, op: Op)
    ensures Step(s, op).ledger.creditsExhausted
        <==> || s.ledger.creditsExhausted
             || Stops(s, op)
             || (!s.ledger.budgetReached && ReachesCap(Checked(s, op), s.ledger.tokenCap))
  {
    hide Enqueue, Take, Hear, Book, IsUnbooked;
    var checked := Checked(s, op);
    assert |checked| == 1 ==> checked[0] in checked;
    assert forall n <- checked :: n == checked[0];
    if op.LiveWallet? {
      UnbookedRemains(s, op.estimate);
    }
  }

  /** Over every run: it must stop if and only if it already had to, a booking was refused, a debit emptied the wallet,
      a live estimate's unbooked part was not covered, or a total first reached the limit. */
  lemma {:induction false} RunStopsExactly(s: State, ops: seq<Op>)
    ensures Run(s, ops).ledger.creditsExhausted
        <==> || s.ledger.creditsExhausted
             || SomeStop(s, ops)
             || (!s.ledger.budgetReached && ReachesCap(CheckedTotals(s, ops), s.ledger.tokenCap))
    decreases |ops|
  {
    hide Step, Checked, ReachesCap, Stops;
    if ops == [] {
      NoTotalReaches(s.ledger.tokenCap);
    } else {
      var t := Step(s, ops[0]);
      RunStopsExactly(t, ops[1..]);
      StepStopsExactly(s, ops[0]);
      CheckTripsAtTheCap(s, ops[0]);
      ReachesCapConcat(Checked(s, ops[0]), CheckedTotals(t, ops[1..]), s.ledger.tokenCap);
    }
  }

  lemma NoTotalReaches(cap: int)
    ensures !ReachesCap([], cap)
  {
  }

  /** A live estimate as usage; it guesses no cached tokens. */
  function AsTokens(u: E.Usage): TokenUsage {
    TokenUsage(u.input, u.output, 0, 0)
  }

  /** So a run can stop with nothing booked: a first prompt of 200000 octets shows 50000 tokens, and a limit of 50000 is
      reached before the model has said a word. */
  lemma LiveEstimateTripsAlone(covered: bool)
    ensures var shown := AsTokens(E.AfterPrompt(200_000).Shown());
            var start := Begun(true, true, 50_000);
            var t := Run(start, [BeginCall] + [LiveWallet(shown, covered)] + [LiveCap(shown)]);
            && t.ledger.budgetReached && t.ledger.creditsExhausted
            && t.ledger.realBooked == NO_TOKENS && t.slot == EMPTY_SLOT && t.inFlight == []
  {
    var shown := AsTokens(E.AfterPrompt(200_000).Shown());
    FirstPromptShows();
    var start := Begun(true, true, 50_000);
    FiftyThousandTrips(Step(start, BeginCall), covered);
    assert Step(start, BeginCall) == start;
    hide *;
    RunMore(start, [BeginCall] + [LiveWallet(shown, covered)], LiveCap(shown));
    RunMore(start, [BeginCall], LiveWallet(shown, covered));
    RunOne(start, BeginCall);
  }

  lemma FiftyThousandTrips(s: State, covered: bool)
    requires s.ledger == Ledger(50_000, NO_TOKENS, ZERO, false, false)
    ensures var shown := TokenUsage(50_000, 0, 0, 0);
            var t := Step(Step(s, LiveWallet(shown, covered)), LiveCap(shown));
            && t.ledger.budgetReached && t.ledger.creditsExhausted
            && t.ledger.realBooked == NO_TOKENS && t.slot == s.slot && t.inFlight == s.inFlight
  {
    hide Enqueue, Take, Hear, Book, Counted, Heard;
  }

  lemma FirstPromptShows()
    ensures AsTokens(E.AfterPrompt(200_000).Shown()) == TokenUsage(50_000, 0, 0, 0)
  {
  }
}
