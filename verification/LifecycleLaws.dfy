/**
 What the answers of the lifecycle coordinator mean: each code, each stop and each change of session, told by the state
 before and the command, and read off whole runs (docs/architecture.md; protocol/motion_lifecycle_coordinator.c).
 */
module LifecycleLaws {
  import opened Words
  import opened ReliableReceiver
  import opened LifecycleCoordinator
  import opened LifecycleRuns
  import MotionSequence

  predicate IsStart(t: Transaction)
  {
    t.command == 0x01
  }

  predicate IsEnd(t: Transaction)
  {
    t.command == 0x02
  }

  /** This delivery is a transaction not seen before. */
  predicate Fresh(c: Coordinator, t: Transaction)
  {
    Classify(c.receiver, t) == New
  }

  /** The step answers `t` with this code. */
  predicate Answers(c: Coordinator, e: Event, t: Transaction, result: Result)
  {
    Step(c, e).1.response == Some(Terminal(t, result))
  }

  /** The step asks for a physical stop. */
  predicate AsksForStop(c: Coordinator, e: Event)
  {
    Step(c, e).1.operation != 0
  }

  // ---------- Answers to new transactions ----------

  /** Each code is given at once exactly when its meaning holds of the state before; and every new transaction is
      acknowledged. */
  lemma AnswersMeanWhatTheySay(c: Coordinator, t: Transaction)
    requires Consistent(c) && Fresh(c, t)
    ensures Step(c, Delivered(t)).1.ack == Some(t)
    ensures Answers(c, Delivered(t), t, AlreadyActive) <==> IsStart(t) && c.state == Active && c.sessionId == t.sessionId
    ensures Answers(c, Delivered(t), t, AlreadyEnded) <==> IsEnd(t) && c.state == NoSession
    ensures Answers(c, Delivered(t), t, SessionMismatch) <==>
              IsEnd(t) && c.state != NoSession && c.sessionId != t.sessionId
    ensures Answers(c, Delivered(t), t, BusyStopping) <==> IsStart(t) && c.state == Ending
    ensures Answers(c, Delivered(t), t, InvalidCommand) <==> !IsStart(t) && !IsEnd(t)
    ensures forall p :: Answers(c, Delivered(t), p, Superseded) <==>
              && c.receiver.pending == Some(p)
              && ((IsStart(t) && c.state == Starting) || (IsEnd(t) && c.sessionId == t.sessionId))
    ensures forall p, result :: Answers(c, Delivered(t), p, result) ==>
              result in {AlreadyActive, AlreadyEnded, SessionMismatch, BusyStopping, InvalidCommand, Superseded}
  {
  }

  /** A stop is asked for exactly to begin a session when none is running or another one is, and to end the running one;
      then, and only then, nothing is answered yet. */
  lemma StopsAreAskedFor(c: Coordinator, t: Transaction)
    requires Consistent(c) && Fresh(c, t)
    ensures AsksForStop(c, Delivered(t)) <==>
              || (IsStart(t) && (c.state == NoSession || (c.state == Active && c.sessionId != t.sessionId)))
              || (IsEnd(t) && c.state == Active && c.sessionId == t.sessionId)
    ensures AsksForStop(c, Delivered(t)) <==> Step(c, Delivered(t)).1.response == None
  {
  }

  /** The transaction that asks for a stop, or takes over the one in progress, owns it from then on, and says whether a
      session is to begin, and which; any other new transaction changes neither state, session, owner nor operation. */
  lemma OwnersTakeOver(c: Coordinator, t: Transaction)
    requires Consistent(c) && Fresh(c, t)
    ensures var d := Step(c, Delivered(t)).0;
            var owns := || AsksForStop(c, Delivered(t))
                        || (c.activeOperation != 0 && exists p :: Answers(c, Delivered(t), p, Superseded));
            if owns
            then && d.receiver.pending == Some(t) && d.sessionId == t.sessionId
                 && d.state == (if IsStart(t) then Starting else Ending)
                 && (c.activeOperation != 0 ==> d.activeOperation == c.activeOperation)
            else && d.receiver.pending == c.receiver.pending && d.sessionId == c.sessionId && d.state == c.state
                 && d.activeOperation == c.activeOperation
  {
    if c.activeOperation != 0 && ((IsStart(t) && c.state == Starting) || (IsEnd(t) && c.sessionId == t.sessionId)) {
      assert Answers(c, Delivered(t), c.receiver.pending.value, Superseded);
    }
  }

  /** A delivery that is not new moves nothing; one with the latest number but another content, and one with an older
      number, is not even answered. */
  lemma OldDeliveriesMoveNothing(c: Coordinator, t: Transaction)
    requires Consistent(c) && !Fresh(c, t)
    ensures Step(c, Delivered(t)).0 == c && Step(c, Delivered(t)).1.operation == 0
    ensures !OwnsFrontier(c, t) ==> Step(c, Delivered(t)).1 == NO_ACTION
  {
    MotionSequence.ClassifyIsSerialOrder(c.receiver.latest.value, t.sequence);
  }

  // ---------- Sessions ----------

  /** An active session is left only through a reset, an END with its own id, or a START with another id. */
  lemma ActiveIsLeftOnlyBy(c: Coordinator, e: Event)
    requires Consistent(c) && c.state == Active
    requires Step(c, e).0.state != Active || Step(c, e).0.sessionId != c.sessionId
    ensures || e.WasReset?
            || (e.Delivered? && IsEnd(e.t) && e.t.sessionId == c.sessionId)
            || (e.Delivered? && IsStart(e.t) && e.t.sessionId != c.sessionId)
  {
  }

  /** And one is entered only when a stop that a START owns has succeeded. */
  lemma ActiveIsEnteredOnlyBy(c: Coordinator, e: Event)
    requires Consistent(c) && Step(c, e).0.state == Active && (c.state != Active || Step(c, e).0.sessionId != c.sessionId)
    ensures e.Completed? && e.success && e.operation == c.activeOperation != 0
    ensures c.receiver.pending.Some? && IsStart(c.receiver.pending.value)
    ensures Step(c, e).0.sessionId == c.receiver.pending.value.sessionId
  {
  }

  /** An END of another session changes neither state, session nor operation. */
  lemma ForeignEndIsHarmless(c: Coordinator, t: Transaction)
    requires Consistent(c) && IsEnd(t) && t.sessionId != c.sessionId
    ensures var d := Step(c, Delivered(t)).0;
            d.state == c.state && d.sessionId == c.sessionId && d.activeOperation == c.activeOperation
  {
  }

  // ---------- The end of a stop ----------

  /** The owner of the stop in progress, read off the deliveries and the answers alone: the transaction accepted last that
      was not answered itself, since the last stop ended. */
  function Owner(events: seq<Event>): Option<Transaction>
  {
    if events == [] then None
    else
      var before, e := events[..|events| - 1], events[|events| - 1];
      var response := Step(Run(before), e).1.response;
      match e
      case WasReset => None
      case Completed(_, _) => if response.Some? then None else Owner(before)
      case Delivered(t) =>
        if Fresh(Run(before), t) && (response.None? || response.value.result == Superseded) then Some(t) else Owner(before)
  }

  lemma {:induction false} OwnerIsPending(events: seq<Event>)
    ensures Owner(events) == Run(events).receiver.pending
  {
    if events != [] {
      var before, e := events[..|events| - 1], events[|events| - 1];
      OwnerIsPending(before);
      RunConsistent(before);
      OwnerStep(Run(before), e);
    }
  }

  lemma OwnerStep(c: Coordinator, e: Event)
    requires Consistent(c)
    ensures var (d, a) := Step(c, e);
            d.receiver.pending ==
              match e
              case WasReset => None
              case Completed(_, _) => if a.response.Some? then None else c.receiver.pending
              case Delivered(t) =>
                if Fresh(c, t) && (a.response.None? || a.response.value.result == Superseded) then Some(t)
                else c.receiver.pending
  {
  }

  /** When a stop ends, its owner, and nobody else, is answered: OK exactly if the stop succeeded, STOP_FAILED otherwise.
      Then a session is active exactly if the owner is a START and the stop succeeded, and it is the owner's; otherwise
      there is none. */
  lemma StopIsAnswered(events: seq<Event>, success: bool)
    requires Run(events).activeOperation != 0
    ensures Owner(events).Some?
    ensures var t, e := Owner(events).value, Completed(Run(events).activeOperation, success);
            var (d, a) := Step(Run(events), e);
            && a.response == Some(Terminal(t, if success then Ok else StopFailed)) && a.ack == None && a.operation == 0
            && (IsStart(t) || IsEnd(t))
            && d.activeOperation == 0
            && (if success && IsStart(t) then d.state == Active && d.sessionId == t.sessionId
                else d.state == NoSession && d.sessionId == 0)
  {
    RunConsistent(events);
    OwnerIsPending(events);
    CompletionAnswers(Run(events), success);
  }

  lemma CompletionAnswers(c: Coordinator, success: bool)
    requires Consistent(c) && c.activeOperation != 0
    ensures c.receiver.pending.Some?
    ensures var t := c.receiver.pending.value;
            var (d, a) := Step(c, Completed(c.activeOperation, success));
            && a.response == Some(Terminal(t, if success then Ok else StopFailed)) && a.ack == None && a.operation == 0
            && (IsStart(t) || IsEnd(t))
            && d.activeOperation == 0
            && (if success && IsStart(t) then d.state == Active && d.sessionId == t.sessionId
                else d.state == NoSession && d.sessionId == 0)
  {
  }
}
