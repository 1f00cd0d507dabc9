/**
 The Raspberry Pi side of the lifecycle protocol (software/rpi/src/stm32_motion_session.cpp):
 one outstanding transaction, retried until it is answered.
 */
module MotionSession {
  import opened Words
  import opened ReliableReceiver
  import opened Messages

  datatype SessionState = Inactive | StartPending | Active | EndPending

  const ACK_TIMEOUT_MS := 100
  const TERMINAL_TIMEOUT_MS := 750
  const MAX_RETRIES := 3

  datatype Session = Session(
    state: SessionState, activeId: u32, next: u16, nextWheel: u16,
    pending: Option<Transaction>, acked: bool, timerRunning: bool, retries: u8, lastTransmit: u32)

  const INITIAL := Session(Inactive, 0, 1, 1, None, false, false, 0, 0)

  function Next16(x: u16): u16 { (x + 1) % TWO16 }

  /** Session reset: sequence counters survive. */
  function Reset(s: Session): Session
  {
    INITIAL.(next := s.next, nextWheel := s.nextWheel)
  }

  function Begin(s: Session, command: u8, sessionId: u32, state: SessionState, activeId: u32): (Session, Option<ToStm>)
  {
    var t := Transaction(s.next, command, sessionId);
    (s.(state := state, activeId := activeId, next := Next16(s.next), pending := Some(t),
        acked := false, timerRunning := false, retries := 0), Some(CommandFrame(t)))
  }

  function BeginStart(s: Session, sessionId: u32): (Session, Option<ToStm>)
  {
    if s.pending.Some? then (s, None) else Begin(s, START, sessionId, StartPending, 0)
  }

  function BeginEnd(s: Session, sessionId: u32): (Session, Option<ToStm>)
  {
    if s.pending.Some? || s.state != Active || sessionId != s.activeId then (s, None)
    else Begin(s, END, sessionId, EndPending, s.activeId)
  }

  /** An ACK for the pending sequence number; only the first one restarts the timer. */
  predicate AckMatches(s: Session, f: ToPi)
  {
    s.pending.Some? && f.MotionAck? && f.sequence == s.pending.value.sequence && f.status == ACCEPTED
  }

  function HandleAck(s: Session, f: ToPi, now: u32): (Session, bool)
  {
    if !AckMatches(s, f) then (s, false)
    else (if s.acked then s else s.(acked := true, lastTransmit := now), true)
  }

  /** A terminal answer for exactly the pending transaction. */
  predicate ResponseMatches(s: Session, f: ToPi)
  {
    s.pending.Some? && f.MotionResponse? && Transaction(f.sequence, f.command, f.sessionId) == s.pending.value
  }

  function HandleResponse(s: Session, f: ToPi): (Session, Option<Result>)
  {
    if !ResponseMatches(s, f) then (s, None)
    else
      var started := f.command == START && (f.result == Ok || f.result == AlreadyActive);
      var known := f.command == START || f.command == END;
      (s.(state := if !known then s.state else if started then Active else Inactive,
          activeId := if !known then s.activeId else if started then f.sessionId else 0,
          pending := None, timerRunning := false), Some(f.result))
  }

  function MarkTransmitted(s: Session, now: u32): Session
  {
    if s.pending.None? then s else s.(lastTransmit := now, timerRunning := true)
  }

  predicate TimedOut(s: Session, now: u32)
  {
    && s.pending.Some? && s.timerRunning
    && Elapsed32(now, s.lastTransmit) >= (if s.acked then TERMINAL_TIMEOUT_MS else ACK_TIMEOUT_MS)
  }

  function RetryIfDue(s: Session, now: u32): (Session, Option<ToStm>)
  {
    if !TimedOut(s, now) || s.retries >= MAX_RETRIES then (s, None)
    else (s.(retries := s.retries + 1, timerRunning := false), Some(CommandFrame(s.pending.value)))
  }

  predicate RetryExhausted(s: Session, now: u32)
  {
    TimedOut(s, now) && s.retries >= MAX_RETRIES
  }

  function BuildWheel(s: Session, left: i16, right: i16): (Session, Option<ToStm>)
  {
    if s.state != Active then (s, None)
    else (s.(nextWheel := Next16(s.nextWheel)), Some(WheelVelocity(s.nextWheel, Some(Wheels(s.activeId, left, right)))))
  }

  /** What every reachable session satisfies. */
  ghost predicate Coherent(s: Session)
  {
    && (s.pending.Some? <==> s.state == StartPending || s.state == EndPending)
    && (s.pending.Some? ==>
          && s.pending.value.command == (if s.state == StartPending then START else END)
          && Next16(s.pending.value.sequence) == s.next)
    && s.retries <= MAX_RETRIES
  }

  lemma BeginKeepsCoherent(s: Session, sessionId: u32)
    requires Coherent(s)
    ensures Coherent(BeginStart(s, sessionId).0) && Coherent(BeginEnd(s, sessionId).0)
  {
  }

  class Stm32MotionSession {
    var nextSequence: u16
    var pendingSequence: u16
    var pendingSessionId: u32
    var transactionPending: bool
    var pendingCommand: u8
    var pendingFrame: ToStm
    var ackReceived: bool
    var retryTimerRunning: bool
    var retryCount: u8
    var lastTransmitMs: u32
    var nextWheelSequence: u16
    var state: SessionState
    var activeSessionId: u32

    ghost predicate Valid()
      reads this
    {
      && (transactionPending ==>
            pendingFrame == CommandFrame(Transaction(pendingSequence, pendingCommand, pendingSessionId)))
      && Coherent(View())
    }

    function View(): Session
      reads this
    {
      Session(state, activeSessionId, nextSequence, nextWheelSequence,
              if transactionPending then Some(Transaction(pendingSequence, pendingCommand, pendingSessionId)) else None,
              ackReceived, retryTimerRunning, retryCount, lastTransmitMs)
    }

    /** The accessor state(). */
    function State(): (r: SessionState)
      reads this
      ensures r == View().state
    {
      state
    }

    lemma IsCoherent()
      requires Valid()
      ensures Coherent(View())
    {
    }

    constructor ()
      ensures Valid() && View() == INITIAL
    {
      nextSequence, nextWheelSequence := 1, 1;
      pendingSequence, pendingSessionId, pendingCommand, pendingFrame := 0, 0, 0, OtherToStm;
      transactionPending, ackReceived, retryTimerRunning := false, false, false;
      retryCount, lastTransmitMs := 0, 0;
      state, activeSessionId := Inactive, 0;
    }

    method BuildWheelVelocity(left: i16, right: i16) returns (frame: Option<ToStm>)
      requires Valid()
      modifies this
      ensures Valid() && (View(), frame) == BuildWheel(old(View()), left, right)
    {
      if state != Active {
        return None;
      }
      frame := Some(WheelVelocity(nextWheelSequence, Some(Wheels(activeSessionId, left, right))));
      nextWheelSequence := (nextWheelSequence + 1) % TWO16;
    }

    method BeginStartSession(sessionId: u32) returns (frame: Option<ToStm>)
      requires Valid()
      modifies this
      ensures Valid() && (View(), frame) == BeginStart(old(View()), sessionId)
    {
      hide Coherent;
      BeginKeepsCoherent(View(), sessionId);
      if transactionPending {
        return None;
      }
      var f := CommandFrame(Transaction(nextSequence, START, sessionId));
      pendingSequence := nextSequence;
      nextSequence := (nextSequence + 1) % TWO16;
      pendingSessionId := sessionId;
      pendingCommand := START;
      pendingFrame := f;
      ackReceived := false;
      retryTimerRunning := false;
      retryCount := 0;
      transactionPending := true;
      state := StartPending;
      activeSessionId := 0;
      frame := Some(f);
    }

    method BeginEndSession(sessionId: u32) returns (frame: Option<ToStm>)
      requires Valid()
      modifies this
      ensures Valid() && (View(), frame) == BeginEnd(old(View()), sessionId)
    {
      hide Coherent;
      BeginKeepsCoherent(View(), sessionId);
      if transactionPending || state != Active || sessionId != activeSessionId {
        return None;
      }
      var f := CommandFrame(Transaction(nextSequence, END, sessionId));
      pendingSequence := nextSequence;
      nextSequence := (nextSequence + 1) % TWO16;
      pendingSessionId := sessionId;
      pendingCommand := END;
      pendingFrame := f;
      ackReceived := false;
      retryTimerRunning := false;
      retryCount := 0;
      transactionPending := true;
      state := EndPending;
      frame := Some(f);
    }

    method OnAck(f: ToPi, now: u32) returns (accepted: bool)
      requires Valid()
      modifies this
      ensures Valid() && (View(), accepted) == HandleAck(old(View()), f, now)
    {
      if !transactionPending {
        return false;
      }
      if !f.MotionAck? {
        return false;
      }
      if f.sequence != pendingSequence {
        return false;
      }
      if f.status != ACCEPTED {
        return false;
      }
      if !ackReceived {
        ackReceived := true;
        lastTransmitMs := now;
      }
      return true;
    }

    method OnResponse(f: ToPi) returns (result: Option<Result>)
      requires Valid()
      modifies this
      ensures Valid() && (View(), result) == HandleResponse(old(View()), f)
    {
      if !transactionPending {
        return None;
      }
      if !f.MotionResponse? {
        return None;
      }
      if f.sequence != pendingSequence {
        return None;
      }
      if f.command != pendingCommand {
        return None;
      }
      if f.sessionId != pendingSessionId {
        return None;
      }
      if pendingCommand == START {
        if f.result == Ok || f.result == AlreadyActive {
          state := Active;
          activeSessionId := pendingSessionId;
        } else {
          state := Inactive;
          activeSessionId := 0;
        }
      } else if pendingCommand == END {
        state := Inactive;
        activeSessionId := 0;
      }
      transactionPending := false;
      retryTimerRunning := false;
      return Some(f.result);
    }

    method MarkPendingTransmitted(now: u32)
      requires Valid()
      modifies this
      ensures Valid() && View() == MarkTransmitted(old(View()), now)
    {
      if !transactionPending {
        return;
      }
      lastTransmitMs := now;
      retryTimerRunning := true;
    }

    method TakeRetryIfDue(now: u32) returns (frame: Option<ToStm>)
      requires Valid()
      modifies this
      ensures Valid() && (View(), frame) == RetryIfDue(old(View()), now)
    {
      if !transactionPending || !retryTimerRunning {
        return None;
      }
      var timeout := if ackReceived then TERMINAL_TIMEOUT_MS else ACK_TIMEOUT_MS;
      if Elapsed32(now, lastTransmitMs) < timeout {
        return None;
      }
      if retryCount >= MAX_RETRIES {
        return None;
      }
      retryCount := retryCount + 1;
      retryTimerRunning := false;
      return Some(pendingFrame);
    }

    method IsRetryExhausted(now: u32) returns (exhausted: bool)
      ensures exhausted == RetryExhausted(View(), now)
    {
      if !transactionPending || !retryTimerRunning {
        return false;
      }
      if retryCount < MAX_RETRIES {
        return false;
      }
      var timeout := if ackReceived then TERMINAL_TIMEOUT_MS else ACK_TIMEOUT_MS;
      return Elapsed32(now, lastTransmitMs) >= timeout;
    }

    method ResetSession()
      modifies this
      ensures Valid() && View() == Reset(old(View()))
    {
      pendingSequence, pendingSessionId, pendingCommand, pendingFrame := 0, 0, 0, OtherToStm;
      transactionPending, ackReceived, retryTimerRunning := false, false, false;
      retryCount, lastTransmitMs := 0, 0;
      state, activeSessionId := Inactive, 0;
    }
  }

  // ---------- Runs ----------

  datatype Event =
    | Start(sessionId: u32) | End(sessionId: u32) | Got(f: ToPi)
    | Transmitted | RetryPoll | Wheel(left: i16, right: i16) | WasReset

  /** An event and the unbounded millisecond at which it happens. */
  datatype Timed = Timed(at: nat, e: Event)

  /** The frames handed out for the transaction now pending, whether it was acknowledged, whether the last one handed out
      was confirmed as sent, and the time of the last confirmation or first acknowledgement. */
  datatype Track = Track(sends: seq<ToStm>, acked: bool, confirmed: bool, reference: Option<nat>)

  const NO_TRACK := Track([], false, false, None)

  /** A received frame is offered to the ACK handler first, then to the response handler. */
  function Receive(s: Session, f: ToPi, now: u32): Session
  {
    if AckMatches(s, f) then HandleAck(s, f, now).0 else HandleResponse(s, f).0
  }

  function Step(s: Session, x: Timed): (Session, Option<ToStm>)
  {
    match x.e
    case Start(id) => BeginStart(s, id)
    case End(id) => BeginEnd(s, id)
    case Got(f) => (Receive(s, f, Clock32(x.at)), None)
    case Transmitted => (MarkTransmitted(s, Clock32(x.at)), None)
    case RetryPoll => RetryIfDue(s, Clock32(x.at))
    case Wheel(l, r) => (BuildWheel(s, l, r).0, None)
    case WasReset => (Reset(s), None)
  }

  function Follow(k: Track, s: Session, x: Timed): Track
  {
    match x.e
    case Start(_) => if Step(s, x).1.Some? then Track([Step(s, x).1.value], false, false, None) else k
    case End(_) => if Step(s, x).1.Some? then Track([Step(s, x).1.value], false, false, None) else k
    case RetryPoll => if Step(s, x).1.Some? then k.(sends := k.sends + [Step(s, x).1.value], confirmed := false) else k
    case Transmitted => if s.pending.Some? then k.(confirmed := true, reference := Some(x.at)) else k
    case Got(f) => if AckMatches(s, f) && !k.acked then k.(acked := true, reference := Some(x.at)) else k
    case _ => k
  }

  function Run(xs: seq<Timed>): (Session, Track)
  {
    if xs == [] then (INITIAL, NO_TRACK)
    else
      var (s, k) := Run(xs[..|xs| - 1]);
      (Step(s, xs[|xs| - 1]).0, Follow(k, s, xs[|xs| - 1]))
  }

  predicate Monotone(xs: seq<Timed>)
  {
    forall i, j :: 0 <= i <= j < |xs| ==> xs[i].at <= xs[j].at
  }

  ghost predicate Tracked(s: Session, k: Track, now: nat)
  {
    && Coherent(s)
    && (s.pending.Some? ==>
          && |k.sends| == s.retries + 1
          && (forall i :: 0 <= i < |k.sends| ==> k.sends[i] == CommandFrame(s.pending.value))
          && k.acked == s.acked
          && s.timerRunning == k.confirmed && (k.confirmed ==> k.reference.Some?)
          && (k.reference.Some? ==> k.reference.value <= now && s.lastTransmit == Clock32(k.reference.value)))
  }

  lemma BeginTracked(s: Session, k: Track, x: Timed, now: nat)
    requires Tracked(s, k, now) && now <= x.at && (x.e.Start? || x.e.End?)
    ensures Tracked(Step(s, x).0, Follow(k, s, x), x.at)
  {
  }

  lemma GotTracked(s: Session, k: Track, x: Timed, now: nat)
    requires Tracked(s, k, now) && now <= x.at && x.e.Got?
    ensures Tracked(Step(s, x).0, Follow(k, s, x), x.at)
  {
  }

  lemma StepTracked(s: Session, k: Track, x: Timed, now: nat)
    requires Tracked(s, k, now) && now <= x.at
    ensures Tracked(Step(s, x).0, Follow(k, s, x), x.at)
  {
    if x.e.Start? || x.e.End? {
      BeginTracked(s, k, x, now);
    } else if x.e.Got? {
      GotTracked(s, k, x, now);
    }
  }

  lemma {:induction false} RunTracked(xs: seq<Timed>)
    requires Monotone(xs)
    ensures Tracked(Run(xs).0, Run(xs).1, if xs == [] then 0 else xs[|xs| - 1].at)
  {
    if xs != [] {
      var before := xs[..|xs| - 1];
      RunTracked(before);
      var (s, k) := Run(before);
      StepTracked(s, k, xs[|xs| - 1], if before == [] then 0 else before[|before| - 1].at);
    }
  }

  /** In every run a transaction is pending exactly in the two pending states, has been handed out at
      most four times, and always as the same frame. */
  lemma BoundedExactRetransmission(xs: seq<Timed>)
    requires Monotone(xs)
    ensures var (s, k) := Run(xs);
            && (s.pending.Some? <==> s.state in {StartPending, EndPending})
            && (s.pending.Some? ==>
                  && 1 <= |k.sends| <= 4
                  && forall i :: 0 <= i < |k.sends| ==> k.sends[i] == CommandFrame(s.pending.value))
  {
    RunTracked(xs);
  }

  /** A retry repeats the first transmission, is at most the fourth, and comes at least 100 ms, or 750 ms
      once acknowledged, after the last confirmed transmission or first acknowledgement. */
  lemma RetrySpacing(xs: seq<Timed>, at: nat)
    requires Monotone(xs + [Timed(at, RetryPoll)])
    requires RetryIfDue(Run(xs).0, Clock32(at)).1.Some?
    ensures var k := Run(xs).1;
            && 1 <= |k.sends| <= 3
            && RetryIfDue(Run(xs).0, Clock32(at)).1 == Some(k.sends[0])
            && k.reference.Some?
            && at - k.reference.value >= (if k.acked then 750 else 100)
  {
    var all := xs + [Timed(at, RetryPoll)];
    forall i, j | 0 <= i <= j < |xs|
      ensures xs[i].at <= xs[j].at
    {
      assert all[i] == xs[i] && all[j] == xs[j];
    }
    RunTracked(xs);
    if xs != [] {
      assert all[|xs| - 1] == xs[|xs| - 1] && all[|xs|].at == at;
    }
    ElapsedOfClocks(at, Run(xs).1.reference.value);
  }

  /** Exactly when: once the last frame handed out is confirmed as sent, a retry is given out if and only if fewer than
      four were and the time is up, 100 ms, or 750 ms once acknowledged; after the fourth, the retries are exhausted. */
  lemma RetryIffDue(xs: seq<Timed>, at: nat)
    requires Monotone(xs + [Timed(at, RetryPoll)]) && Run(xs).0.pending.Some? && Run(xs).1.confirmed
    ensures Run(xs).1.reference.Some?
    ensures at - Run(xs).1.reference.value < TWO32 ==>
              var k, s := Run(xs).1, Run(xs).0;
              var due := at - k.reference.value >= (if k.acked then 750 else 100);
              && (RetryIfDue(s, Clock32(at)).1.Some? <==> due && |k.sends| < 4)
              && (RetryExhausted(s, Clock32(at)) <==> due && |k.sends| == 4)
  {
    var all := xs + [Timed(at, RetryPoll)];
    forall i, j | 0 <= i <= j < |xs|
      ensures xs[i].at <= xs[j].at
    {
      assert all[i] == xs[i] && all[j] == xs[j];
    }
    RunTracked(xs);
    if xs != [] {
      assert all[|xs| - 1] == xs[|xs| - 1] && all[|xs|].at == at;
    }
    ElapsedOfClocks(at, Run(xs).1.reference.value);
  }

  // ---------- What the frames say and the answers do ----------

  /** Exactly the acknowledgement of the pending number counts, and changes only the timer, once. */
  lemma AckIsExact(s: Session, f: ToPi, now: u32)
    ensures var (r, accepted) := HandleAck(s, f, now);
            && (accepted <==> s.pending.Some? && f == MotionAck(s.pending.value.sequence, 0x00))
            && r == if accepted && !s.acked then s.(acked := true, lastTransmit := now) else s
  {
  }

  /** Exactly the answer to the pending transaction counts. A START that is answered OK or ALREADY_ACTIVE makes its session
      the active one; any other answer, and any answer to an END, leaves none. */
  lemma ResponseIsExact(s: Session, f: ToPi)
    requires Coherent(s)
    ensures var (r, result) := HandleResponse(s, f);
            && (result.Some? <==> s.pending.Some? && f.MotionResponse?
                                  && Transaction(f.sequence, f.command, f.sessionId) == s.pending.value)
            && (result.None? ==> r == s)
            && (result.Some? ==>
                  && result.value == f.result && r.pending == None && r.next == s.next
                  && (if s.state == StartPending && f.result in {Ok, AlreadyActive}
                      then r.state == Active && r.activeId == f.sessionId
                      else r.state == Inactive && r.activeId == 0))
  {
  }
}
