/** The de-duplicating receiver of lifecycle transactions (protocol/motion_reliable_receiver.c). */
module ReliableReceiver {
  import opened Words
  import MotionSequence

  const START: u8 := 0x01
  const END: u8 := 0x02

  /** Identity of a lifecycle command: the complete triple. */
  datatype Transaction = Transaction(sequence: u16, command: u8, sessionId: u32)

  const ZERO_TRANSACTION := Transaction(0, 0, 0)

  datatype Result =
    | Ok | AlreadyActive | AlreadyEnded | SessionMismatch | Superseded
    | BusyStopping | RejectedUnsafe | InvalidCommand | StopFailed

  datatype Decision = Invalid | New | PendingRetry | CompletedRetry | Stale | Collision

  datatype Terminal = Terminal(transaction: Transaction, result: Result)

  /** Abstract receiver: a frontier, one pending transaction, one cached terminal answer. */
  datatype Receiver = Receiver(latest: Option<u16>, pending: Option<Transaction>, terminal: Option<Terminal>)

  const EMPTY := Receiver(None, None, None)

  function Classify(r: Receiver, t: Transaction): (d: Decision)
  {
    if r.latest.None? then New
    else match MotionSequence.Classify(r.latest.value, t.sequence)
      case Newer => New
      case Stale => Stale
      case Same =>
        if r.terminal.Some? && r.terminal.value.transaction.sequence == r.latest.value then
          if r.terminal.value.transaction == t then CompletedRetry else Collision
        else if r.pending.Some? && r.pending.value.sequence == r.latest.value then
          if r.pending.value == t then PendingRetry else Collision
        else Invalid
  }

  function BeginPending(r: Receiver, t: Transaction): Receiver
  {
    Receiver(Some(t.sequence), Some(t), None)
  }

  function RecordImmediate(r: Receiver, t: Transaction, result: Result): Receiver
  {
    r.(latest := Some(t.sequence), terminal := Some(Terminal(t, result)))
  }

  function CompletePending(r: Receiver, t: Transaction, result: Result): Receiver
  {
    if r.pending != Some(t) then r
    else if r.latest == Some(t.sequence) then Receiver(r.latest, None, Some(Terminal(t, result)))
    else r.(pending := None)
  }

  /** What every reachable receiver satisfies: the frontier is always explained by a record. */
  predicate Explained(r: Receiver)
  {
    && (r.latest.Some? ==>
          || (r.terminal.Some? && r.terminal.value.transaction.sequence == r.latest.value)
          || (r.pending.Some? && r.pending.value.sequence == r.latest.value))
    && (r.terminal.Some? ==> r.latest == Some(r.terminal.value.transaction.sequence))
    && (r.pending.Some? ==> r.latest.Some?)
  }

  /** The receiver record as the source lays it out: validity flags beside values. */
  class MotionReliableReceiver {
    var latestSequenceValid: bool
    var latestSequence: u16
    var pendingValid: bool
    var pendingTransaction: Transaction
    var terminalValid: bool
    var terminalTransaction: Transaction
    var terminalResult: Result

    /** Cleared records hold zeroes, as reset and completion leave them. */
    predicate Valid()
      reads this
    {
      !pendingValid ==> pendingTransaction == ZERO_TRANSACTION
    }

    function View(): Receiver
      reads this
    {
      Receiver(
        if latestSequenceValid then Some(latestSequence) else None,
        if pendingValid then Some(pendingTransaction) else None,
        if terminalValid then Some(Terminal(terminalTransaction, terminalResult)) else None)
    }

    constructor ()
      ensures Valid() && View() == EMPTY
    {
      latestSequenceValid, latestSequence := false, 0;
      pendingValid, pendingTransaction := false, ZERO_TRANSACTION;
      terminalValid, terminalTransaction, terminalResult := false, ZERO_TRANSACTION, Ok;
    }

    method Reset()
      modifies this
      ensures Valid() && View() == EMPTY
    {
      latestSequenceValid, latestSequence := false, 0;
      pendingValid, pendingTransaction := false, ZERO_TRANSACTION;
      terminalValid, terminalTransaction, terminalResult := false, ZERO_TRANSACTION, Ok;
    }

    method Decide(t: Transaction) returns (d: Decision)
      ensures d == Classify(View(), t)
    {
      if !latestSequenceValid {
        return New;
      }
      var relation := MotionSequence.Classify(latestSequence, t.sequence);
      match relation {
        case Newer => return New;
        case Stale => return Stale;
        case Same =>
      }
      if terminalValid && terminalTransaction.sequence == latestSequence {
        if terminalTransaction == t {
          return CompletedRetry;
        }
        return Collision;
      }
      if pendingValid && pendingTransaction.sequence == latestSequence {
        if pendingTransaction == t {
          return PendingRetry;
        }
        return Collision;
      }
      return Invalid;
    }

    method Begin(t: Transaction)
      modifies this
      ensures Valid() && View() == BeginPending(old(View()), t)
    {
      terminalValid, terminalTransaction, terminalResult := false, ZERO_TRANSACTION, Ok;
      pendingTransaction := t;
      latestSequence := t.sequence;
      latestSequenceValid := true;
      pendingValid := true;
    }

    method Record(t: Transaction, result: Result)
      requires Valid()
      modifies this
      ensures Valid() && View() == RecordImmediate(old(View()), t, result)
    {
      latestSequence := t.sequence;
      terminalTransaction := t;
      terminalResult := result;
      terminalValid := true;
      latestSequenceValid := true;
    }

    method Complete(t: Transaction, result: Result) returns (completed: bool)
      requires Valid()
      modifies this
      ensures Valid() && View() == CompletePending(old(View()), t, result)
      ensures completed <==> old(View()).pending == Some(t)
    {
      if !pendingValid || pendingTransaction != t {
        return false;
      }
      var pending := pendingTransaction;
      pendingValid := false;
      pendingTransaction := ZERO_TRANSACTION;
      if latestSequenceValid && pending.sequence == latestSequence {
        terminalTransaction := pending;
        terminalResult := result;
        terminalValid := true;
      }
      return true;
    }
  }
}
