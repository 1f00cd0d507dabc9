/**
 The STM32 motion lifecycle coordinator (protocol/motion_lifecycle_coordinator.c).

 `Deliver` and `Complete` are the decision table of docs/architecture.md on values; the class
 `MotionLifecycleCoordinator` is the handler-by-handler code, proved to follow the table.
 */
module LifecycleCoordinator {
  import opened Words
  import opened ReliableReceiver
  import MotionSequence

  datatype LifecycleState = NoSession | Starting | Active | Ending

  datatype Coordinator = Coordinator(
    state: LifecycleState, sessionId: u32, receiver: Receiver, nextOperation: u32, activeOperation: u32)

  /** What a handler asks for: an ACK, a terminal answer, and a stop operation (0 for none). */
  datatype Action = Action(ack: Option<Transaction>, response: Option<Terminal>, operation: u32)

  const NO_ACTION := Action(None, None, 0)

  const INITIAL := Coordinator(NoSession, 0, EMPTY, 0, 0)

  function Reset(c: Coordinator): Coordinator
  {
    Coordinator(NoSession, 0, EMPTY, c.nextOperation, 0)
  }

  /** The successor of an operation id: zero is skipped on wrap-around. */
  function NextOperation(id: u32): (r: u32)
    ensures r != 0
  {
    if id == TWO32 - 1 then 1 else id + 1
  }

  /** Accept `t` as the owner of a newly requested physical stop. */
  function RequestStop(c: Coordinator, t: Transaction, state: LifecycleState, sessionId: u32): (Coordinator, Action)
  {
    var id := NextOperation(c.nextOperation);
    (Coordinator(state, sessionId, BeginPending(c.receiver, t), id, id), Action(Some(t), None, id))
  }

  /** Accept `t` and answer it at once. */
  function Answer(c: Coordinator, t: Transaction, result: Result): (Coordinator, Action)
  {
    (c.(receiver := RecordImmediate(c.receiver, t, result)), Action(Some(t), Some(Terminal(t, result)), 0))
  }

  /** Accept `t` as the new owner of the stop in progress; the previous owner is answered. */
  function TakeOver(c: Coordinator, t: Transaction, state: LifecycleState, sessionId: u32): (Coordinator, Action)
  {
    var previous := if c.receiver.pending.Some? then c.receiver.pending.value else ZERO_TRANSACTION;
    (Coordinator(state, sessionId, BeginPending(c.receiver, t), c.nextOperation, c.activeOperation),
     Action(Some(t), Some(Terminal(previous, Superseded)), 0))
  }

  /** The lifecycle table for transactions classified as new. */
  function DeliverNew(c: Coordinator, t: Transaction): (Coordinator, Action)
  {
    if t.command != START && t.command != END then Answer(c, t, InvalidCommand)
    else if t.command == START then
      match c.state
      case NoSession => RequestStop(c, t, Starting, t.sessionId)
      case Active =>
        if t.sessionId == c.sessionId then Answer(c, t, AlreadyActive)
        else RequestStop(c, t, Starting, t.sessionId)
      case Starting => TakeOver(c, t, Starting, t.sessionId)
      case Ending => Answer(c, t, BusyStopping)
    else if c.state == NoSession then Answer(c, t, AlreadyEnded)
    else if t.sessionId != c.sessionId then Answer(c, t, SessionMismatch)
    else if c.state == Active then RequestStop(c, t, Ending, c.sessionId)
    else TakeOver(c, t, Ending, c.sessionId)
  }

  function Deliver(c: Coordinator, t: Transaction): (Coordinator, Action)
  {
    match Classify(c.receiver, t)
    case New => DeliverNew(c, t)
    case PendingRetry => (c, Action(Some(t), None, 0))
    case CompletedRetry =>
      (c, if c.receiver.terminal.Some?
          then Action(Some(c.receiver.terminal.value.transaction), Some(c.receiver.terminal.value), 0)
          else NO_ACTION)
    case _ => (c, NO_ACTION)
  }

  /** A completion is honoured only for the operation now active. */
  predicate Accepts(c: Coordinator, operation: u32)
  {
    && operation != 0 && operation == c.activeOperation
    && c.receiver.pending.Some?
    && (c.state == Starting || c.state == Ending)
  }

  function Complete(c: Coordinator, operation: u32, success: bool): (Coordinator, Action)
  {
    if !Accepts(c, operation) then (c, NO_ACTION)
    else
      var owner := c.receiver.pending.value;
      var result := if success then Ok else StopFailed;
      var active := c.state == Starting && success;
      (Coordinator(
         if active then Active else NoSession,
         if active then c.sessionId else 0,
         CompletePending(c.receiver, owner, result), c.nextOperation, 0),
       Action(None, Some(Terminal(owner, result)), 0))
  }

  /** The invariant of every reachable coordinator. */
  ghost predicate Consistent(c: Coordinator)
  {
    && Explained(c.receiver)
    && (c.receiver.pending.Some? <==> c.state == Starting || c.state == Ending)
    && (c.receiver.pending.Some? <==> c.activeOperation != 0)
    && (c.activeOperation != 0 ==> c.activeOperation == c.nextOperation)
    && (c.receiver.pending.Some? ==>
          && c.receiver.pending.value.sessionId == c.sessionId
          && c.receiver.pending.value.command == (if c.state == Starting then START else END))
    && (c.state == NoSession ==> c.sessionId == 0)
    && (c.receiver.terminal.Some? ==> TerminalAgrees(c, c.receiver.terminal.value))
  }

  /** A cached answer that promises an active session is still true of the coordinator,
      and one given while a stop is pending belongs to another transaction than the owner. */
  ghost predicate TerminalAgrees(c: Coordinator, a: Terminal)
  {
    && (a.transaction.command == START && (a.result == Ok || a.result == AlreadyActive) ==>
          c.state == Active && c.sessionId == a.transaction.sessionId)
    && (c.receiver.pending.Some? ==> a.transaction != c.receiver.pending.value)
    && (c.receiver.pending.Some? ==> a.result in {BusyStopping, SessionMismatch, InvalidCommand})
  }

  lemma DeliverKeepsConsistent(c: Coordinator, t: Transaction)
    requires Consistent(c)
    ensures Consistent(Deliver(c, t).0)
  {
  }

  lemma CompleteKeepsConsistent(c: Coordinator, operation: u32, success: bool)
    requires Consistent(c)
    ensures Consistent(Complete(c, operation, success).0)
  {
  }

  lemma ResetKeepsConsistent(c: Coordinator)
    ensures Consistent(Reset(c)) && Reset(Reset(c)) == Reset(c) && Reset(c).receiver == EMPTY
  {
  }

  /** A stop in progress has a pending owner, so its completion is accepted. */
  lemma ActiveIsAccepted(c: Coordinator)
    requires Consistent(c) && c.activeOperation != 0
    ensures Accepts(c, c.activeOperation) && c.state != Active
  {
  }

  /** A reachable receiver never answers Invalid. */
  lemma NeverInvalid(c: Coordinator, t: Transaction)
    requires Consistent(c)
    ensures Classify(c.receiver, t) != Invalid
  {
    if c.receiver.latest.Some? {
      MotionSequence.ClassifyIsSerialOrder(c.receiver.latest.value, t.sequence);
    }
  }

  class MotionLifecycleCoordinator {
    var state: LifecycleState
    var motionSessionId: u32
    var nextOperationId: u32
    var activeOperationId: u32
    const receiver: MotionReliableReceiver

    predicate Valid()
      reads this, receiver
    {
      receiver.Valid()
    }

    function View(): Coordinator
      reads this, receiver
    {
      Coordinator(state, motionSessionId, receiver.View(), nextOperationId, activeOperationId)
    }

    constructor ()
      ensures Valid() && fresh(receiver) && View() == INITIAL
    {
      state := NoSession;
      motionSessionId := 0;
      nextOperationId := 0;
      activeOperationId := 0;
      receiver := new MotionReliableReceiver();
    }

    method ResetSession()
      requires Valid()
      modifies this, receiver
      ensures Valid() && View() == Reset(old(View()))
    {
      state := NoSession;
      motionSessionId := 0;
      activeOperationId := 0;
      receiver.Reset();
    }

    method BeginNewOperation() returns (id: u32)
      modifies this`nextOperationId, this`activeOperationId
      ensures id == nextOperationId == activeOperationId == NextOperation(old(nextOperationId))
    {
      nextOperationId := (nextOperationId + 1) % TWO32;
      if nextOperationId == 0 {
        nextOperationId := nextOperationId + 1;
      }
      activeOperationId := nextOperationId;
      id := activeOperationId;
    }

    /** handle_start_no_session and handle_start_replacing_active. */
    method HandleStart(t: Transaction) returns (action: Action)
      requires Valid()
      modifies this, receiver
      ensures Valid() && (View(), action) == RequestStop(old(View()), t, Starting, t.sessionId)
    {
      receiver.Begin(t);
      state := Starting;
      motionSessionId := t.sessionId;
      var id := BeginNewOperation();
      action := Action(Some(t), None, id);
    }

    /** handle_end_active. */
    method HandleEndActive(t: Transaction) returns (action: Action)
      requires Valid()
      modifies this, receiver
      ensures Valid() && (View(), action) == RequestStop(old(View()), t, Ending, old(motionSessionId))
    {
      receiver.Begin(t);
      state := Ending;
      var id := BeginNewOperation();
      action := Action(Some(t), None, id);
    }

    /** The handlers that only record an immediate terminal answer. */
    method HandleImmediate(t: Transaction, result: Result) returns (action: Action)
      requires Valid()
      modifies this, receiver
      ensures Valid() && (View(), action) == Answer(old(View()), t, result)
    {
      receiver.Record(t, result);
      action := Action(Some(t), Some(Terminal(t, result)), 0);
    }

    method HandleStartWhileStarting(t: Transaction) returns (action: Action)
      requires Valid()
      modifies this, receiver
      ensures Valid() && (View(), action) == TakeOver(old(View()), t, old(state), t.sessionId)
    {
      var superseded := receiver.pendingTransaction;
      receiver.Begin(t);
      motionSessionId := t.sessionId;
      action := Action(Some(t), Some(Terminal(superseded, Superseded)), 0);
    }

    /** handle_end_while_starting and handle_end_while_ending. */
    method HandleEndWhileStopping(t: Transaction) returns (action: Action)
      requires Valid()
      modifies this, receiver
      ensures Valid() && (View(), action) == TakeOver(old(View()), t, Ending, old(motionSessionId))
    {
      var superseded := receiver.pendingTransaction;
      receiver.Begin(t);
      state := Ending;
      action := Action(Some(t), Some(Terminal(superseded, Superseded)), 0);
    }

    method HandleTransaction(t: Transaction) returns (action: Action)
      requires Valid()
      modifies this, receiver
      ensures Valid() && (View(), action) == Deliver(old(View()), t)
    {
      action := NO_ACTION;
      var decision := receiver.Decide(t);
      match decision {
        case PendingRetry =>
          return Action(Some(t), None, 0);
        case New =>
          if state == Active && t.command == START && t.sessionId == motionSessionId {
            action := HandleImmediate(t, AlreadyActive);
            return;
          }
          if state == Active && t.command == START {
            action := HandleStart(t);
            return;
          }
          if state == Active && t.command == END && t.sessionId == motionSessionId {
            action := HandleEndActive(t);
            return;
          }
          if state == Active && t.command == END {
            action := HandleImmediate(t, SessionMismatch);
            return;
          }
        case CompletedRetry =>
          return Action(
              Some(receiver.terminalTransaction),
              Some(Terminal(receiver.terminalTransaction, receiver.terminalResult)), 0);
        case _ =>
          return;
      }
      if state == Starting && t.command == START {
        action := HandleStartWhileStarting(t);
        return;
      }
      if state == NoSession && t.command == START {
        action := HandleStart(t);
        return;
      }
      if state == NoSession && t.command == END {
        action := HandleImmediate(t, AlreadyEnded);
        return;
      }
      if state == Starting && t.command == END && t.sessionId == motionSessionId {
        action := HandleEndWhileStopping(t);
        return;
      }
      if state == Starting && t.command == END {
        action := HandleImmediate(t, SessionMismatch);
        return;
      }
      if state == Ending && t.command == START {
        action := HandleImmediate(t, BusyStopping);
        return;
      }
      if state == Ending && t.command == END && t.sessionId == motionSessionId {
        action := HandleEndWhileStopping(t);
        return;
      }
      if state == Ending && t.command == END {
        action := HandleImmediate(t, SessionMismatch);
        return;
      }
      if t.command != START && t.command != END {
        action := HandleImmediate(t, InvalidCommand);
        return;
      }
    }

    method CompleteOperation(operation: u32, success: bool) returns (action: Action)
      requires Valid()
      modifies this, receiver
      ensures Valid() && (View(), action) == Complete(old(View()), operation, success)
    {
      action := NO_ACTION;
      if operation == 0 || operation != activeOperationId {
        return;
      }
      if !receiver.pendingValid {
        return;
      }
      if state != Starting && state != Ending {
        return;
      }
      activeOperationId := 0;
      var owner := receiver.pendingTransaction;
      if state == Ending {
        var answer := if success then Ok else StopFailed;
        state := NoSession;
        motionSessionId := 0;
        var _ := receiver.Complete(owner, answer);
        return Action(None, Some(Terminal(owner, answer)), 0);
      }
      var answer;
      if success {
        state := Active;
        answer := Ok;
      } else {
        state := NoSession;
        motionSessionId := 0;
        answer := StopFailed;
      }
      var _ := receiver.Complete(owner, answer);
      action := Action(None, Some(Terminal(owner, answer)), 0);
    }
  }
}
