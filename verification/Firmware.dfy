/**
 The STM32 application: link manager, motion protocol manager and one pass of the main loop
 (firmware/stm32/App/Src/uart_link_manager.c, stm32_motion_protocol_manager.c,
 firmware/stm32/Platform/NucleoF446RE/Core/Src/main.c), on top of the guard, the stop confirmation
 and the lifecycle coordinator.

 The motor port, the transmitter and the encoders are the environment: they may fail or read anything.
 Beside the 32-bit millisecond clock runs an unbounded ghost clock.
 */
module Firmware {
  import opened Words
  import opened ReliableReceiver
  import opened Messages
  import opened StmParty
  import opened MotorDriver
  import opened CommandGuard
  import C = LifecycleCoordinator
  import S = MotionStop

  const MOTION_COMMAND_TIMEOUT_MS: u32 := 250
  const LINK_HEARTBEAT_TIMEOUT_MS: u32 := 1000
  const FULL_SCALE_MM_S := 400
  const MINIMUM_START_COMMAND := 50

  datatype LinkResult =
    | LinkStopFailed | InvalidLinkSync | InvalidHeartbeat | LinkNotSynchronized
    | LinkTransmitFailed | LinkSynchronized | HeartbeatAccepted | PeerUnsynchronized

  datatype ManagerResult = Processed | StopInProgress | StopHasFailed | TransmitFailed

  /** What polling the receiver brought: nothing, an overflow, or a decoded frame. */
  datatype Received = Nothing | Overflow | Frame(f: ToStm)

  /** Open-loop conversion of one wheel velocity, with the configuration of main. */
  function Feedforward(velocity: i16): (command: int)
    ensures InRange(command) && DirectionOf(command) == DirectionOf(velocity)
  {
    if velocity == 0 then 0
    else
      var signed: int := velocity;
      var magnitude := if signed < 0 then -signed else signed;
      var limited := if magnitude > FULL_SCALE_MM_S then FULL_SCALE_MM_S else magnitude;
      var command := MINIMUM_START_COMMAND + limited * (COMMAND_MAX - MINIMUM_START_COMMAND) / FULL_SCALE_MM_S;
      if velocity < 0 then -command else command
  }

  /** The amount: nothing for standstill; otherwise 50 of 1000, plus the share of the remaining 950 that the speed has of
      400 mm/s, rounded down; no more than 1000 beyond that speed, and the same backwards. */
  lemma FeedforwardAmount(velocity: i16)
    ensures var c := Feedforward(velocity);
            var v: int := velocity;
            var speed := if v < 0 then -v else v;
            var duty := if c < 0 then -c else c;
            && (v == 0 <==> c == 0) && (v < 0 <==> c < 0)
            && (v != 0 && speed <= 400 ==> 400 * (duty - 50) <= 950 * speed < 400 * (duty - 49))
            && (speed >= 400 ==> duty == 1000)
  {
  }

  /** Faster is never slower. */
  lemma FeedforwardRises(slow: i16, fast: i16)
    requires slow <= fast
    ensures Feedforward(slow) <= Feedforward(fast)
  {
    FeedforwardAmount(slow);
    FeedforwardAmount(fast);
  }

  // ---------- Stops and wheel commands, as the inputs show them ----------

  /** The readings of a confirmation after one more pass: a new one starts with a reading of its own. */
  function Confirmation(started: bool, samples: seq<S.Sample>, at: nat, first: S.Counts, second: S.Counts): (r: seq<S.Sample>)
    ensures |r| >= 1
  {
    (if started then samples else [S.Sample(at, first)]) + [S.Sample(at, second)]
  }

  /** Stops that ended in a pass ended as their readings decide; a success, with the motors at rest throughout. */
  ghost predicate Judged(cs: seq<Completion>, readings: seq<S.Sample>, accepted: seq<Accepted>)
  {
    && |cs| <= 1
    && (cs != [] ==>
          && |readings| >= 1 && S.Decision(readings) == Some(cs[0].success)
          && (cs[0].success ==> RestBetween(accepted, readings[0].at, readings[|readings| - 1].at)))
  }

  /** A nonzero wheel command of this session was delivered. */
  predicate WheelsFor(rx: Received, session: u32)
  {
    && rx.Frame? && rx.f.WheelVelocity? && rx.f.wheels.Some?
    && rx.f.wheels.value.sessionId == session && (rx.f.wheels.value.left != 0 || rx.f.wheels.value.right != 0)
  }

  /** A link frame either leaves the party as it was or, unless it synchronises, drops the link. */
  lemma LinkFrameEvents(v: Stm, f: ToStm, o: Outcome)
    requires f.LinkSync? || f.Heartbeat?
    ensures f.LinkSync? ==> StmStep(v, Take(f, o)) == TakeSync(v, f.sequence, f.token, o)
    ensures f.Heartbeat? ==>
              var (w, out) := TakeHeartbeat(v, f.sequence, f.linkState, o);
              StmStep(v, Take(f, o)) == (if w.synced then v else Stm(false, C.Reset(v.coordinator)), out)
  {
  }

  /** The event of a completed stop, once the completion is known to be accepted. */
  lemma FinishEvent(v: Stm, success: bool, fate: Fate)
    requires C.Accepts(v.coordinator, v.coordinator.activeOperation)
    ensures var (d, a) := C.Complete(v.coordinator, v.coordinator.activeOperation, success);
            StmStep(v, Finish(success, fate)) ==
              (if success && fate.Sent? then v.(coordinator := d) else Stm(false, C.Reset(d)), AnswerWire(a, fate))
  {
  }

  lemma AcceptedHasPending(c: C.Coordinator)
    requires C.Accepts(c, c.activeOperation)
    ensures c.receiver.pending.Some? && c.state != C.Active && c.activeOperation != 0
  {
  }

  lemma CompletedIsNotActive(c: C.Coordinator, success: bool)
    requires C.Accepts(c, c.activeOperation)
    ensures C.Complete(c, c.activeOperation, success).0.activeOperation == 0
  {
  }

  /** What a delivery does to the stop operation and to an active session. */
  lemma DeliverShape(c: C.Coordinator, t: Transaction)
    requires C.Consistent(c)
    ensures var (d, a) := C.Deliver(c, t);
            && C.Consistent(d)
            && (a.operation != 0 ==> c.activeOperation == 0 && d.activeOperation == a.operation)
            && (a.operation == 0 ==> d.activeOperation == c.activeOperation)
            && (a.operation == 0 && c.state == C.Active ==> d.state == C.Active && d.sessionId == c.sessionId)
  {
    C.DeliverKeepsConsistent(c, t);
  }

  lemma NotActiveOrNotStopping(c: C.Coordinator)
    requires C.Consistent(c) && c.state == C.Active
    ensures c.activeOperation == 0
  {
  }

  lemma LoseEvent(v: Stm)
    ensures StmStep(v, LoseLink) == (Stm(false, C.Reset(v.coordinator)), [])
  {
  }

  lemma NothingCompleted(v: Stm, e: StmEvent)
    requires !e.Finish?
    ensures Completed(v, e) == []
  {
  }

  lemma FinishCompletes(v: Stm, success: bool, fate: Fate)
    requires C.Accepts(v.coordinator, v.coordinator.activeOperation)
    ensures v.coordinator.receiver.pending.Some?
    ensures Completed(v, Finish(success, fate)) == [Completion(v.coordinator.receiver.pending.value, success)]
  {
  }

  /** The last thing asked of the driver was to drive as the wheel command says, at `at`; the port accepted, and what it
      accepted is what the histories of the wheels plan for the converted velocities. */
  ghost predicate DrivesAs(t: Trace, w: Wheels, at: nat)
  {
    && |t.left| > 0 && |t.right| > 0 && |t.accepted| > 0
    && t.left[|t.left| - 1] == Apply(Feedforward(w.left), at, true)
    && t.right[|t.right| - 1] == Apply(Feedforward(w.right), at, true)
    && Calls(t.left[..|t.left| - 1]) && Calls(t.right[..|t.right| - 1])
    && t.accepted[|t.accepted| - 1] ==
         Accepted(at, Output(Run(t.left[..|t.left| - 1]).0, Feedforward(w.left), Clock32(at)),
                  Output(Run(t.right[..|t.right| - 1]).0, Feedforward(w.right), Clock32(at)))
    && Serves(t.accepted[|t.accepted| - 1].left, Feedforward(w.left))
    && Serves(t.accepted[|t.accepted| - 1].right, Feedforward(w.right))
  }

  /** The first thing put to the port since was this control, and it was refused. */
  predicate PutFirst(before: Trace, after: Trace, control: Accepted)
  {
    |after.offers| > |before.offers| && after.offers[|before.offers|] == Offer(control, false)
  }

  // ---------- Wheel commands ----------

  /** A wheel command taken for the session active on a synchronised link. */
  predicate Commands(v: Stm, e: StmEvent)
  {
    && e.Take? && e.f.WheelVelocity? && e.f.wheels.Some?
    && v.synced && v.coordinator.state == C.Active && e.f.wheels.value.sessionId == v.coordinator.sessionId
  }

  /** The port accepted a control that serves these wheels, at this time; or it has refused one. */
  ghost predicate Moved(t: Trace, w: Wheels, tickAt: nat, ok: bool)
  {
    if ok then exists x :: 0 <= x < |t.accepted| && ServesWheels(t.accepted[x], w, tickAt)
    else exists x :: 0 <= x < |t.offers| && RefusedBy(t.offers[x], tickAt)
  }

  predicate ServesWheels(a: Accepted, w: Wheels, tickAt: nat)
  {
    a.at == tickAt && Serves(a.left, Feedforward(w.left)) && Serves(a.right, Feedforward(w.right))
  }

  predicate RefusedBy(x: Offer, tickAt: nat)
  {
    !x.taken && x.control.at <= tickAt
  }

  /** What surrounds the events of a pass: what the receiver delivered, when the pass began, when the driver read the clock,
      and when the link was last confirmed. */
  datatype Moment = Moment(rx: Received, at: nat, tickAt: nat, beatAt: nat)

  /** A stop was put to the port between these times, and refused. */
  ghost predicate StopRefusedIn(t: Trace, from: nat, to: nat)
  {
    exists x :: 0 <= x < |t.offers| && IsRefusedStop(t.offers[x], from, to)
  }

  predicate IsRefusedStop(x: Offer, from: nat, to: nat)
  {
    !x.taken && x.control.left == x.control.right == BRAKE && from <= x.control.at <= to
  }

  /** Nothing about motion was delivered. */
  predicate Idle(rx: Received)
  {
    rx.Nothing? || (rx.Frame? && (rx.f.Heartbeat? || rx.f.OtherToStm?))
  }

  predicate AsksForRest(e: StmEvent)
  {
    e.Take? && (e.f.LinkSync? || (e.f.Heartbeat? && e.f.linkState == Some(0x00)))
  }

  /** A wheel command for the active session is put to the motors; a stop is called refused only if the port refused it; and
      the link is given up only after an overflow, a refused stop, or 1000 ms without a confirmation. */
  ghost predicate Justified(v: Stm, e: StmEvent, t: Trace, x: Moment)
  {
    && (Commands(v, e) ==> Moved(t, e.f.wheels.value, x.tickAt, e.o.motorOk))
    && (AsksForRest(e) && !e.o.motorOk ==> StopRefusedIn(t, x.at, x.tickAt))
    && (e.LoseLink? ==> x.rx.Overflow? || StopRefusedIn(t, x.at, x.tickAt) || x.at >= x.beatAt + 1000)
  }

  /** So it is with each of these events. */
  ghost predicate AllJustified(v: Stm, es: seq<StmEvent>, t: Trace, x: Moment)
  {
    forall j :: 0 <= j < |es| ==> Justified(After(v, es[..j]), es[j], t, x)
  }

  /** The link is confirmed by a LINK_SYNC or heartbeat that leaves it synchronised. */
  predicate Confirms(v: Stm, e: StmEvent)
  {
    e.Take? && (e.f.LinkSync? || e.f.Heartbeat?) && StmStep(v, e).0.synced
  }

  predicate ConfirmsIn(v: Stm, es: seq<StmEvent>)
  {
    && es != []
    && (ConfirmsIn(v, es[..|es| - 1]) || Confirms(After(v, es[..|es| - 1]), es[|es| - 1]))
  }

  lemma RefusedOnce(t: Trace, x: nat, from: nat, to: nat)
    requires x < |t.offers| && IsRefusedStop(t.offers[x], from, to)
    ensures StopRefusedIn(t, from, to)
  {
  }

  lemma RefusalStays(t: Trace, u: Trace, since: nat, from: nat, to: nat, from': nat, to': nat)
    requires StopRefusedIn(t, from, to) && Grown(t, u, since) && from' <= from && to <= to'
    ensures StopRefusedIn(u, from', to')
  {
    var x :| 0 <= x < |t.offers| && IsRefusedStop(t.offers[x], from, to);
    assert IsRefusedStop(u.offers[x], from', to');
  }

  lemma MovedLater(t: Trace, u: Trace, from: nat, w: Wheels, tickAt: nat, ok: bool)
    requires Moved(t, w, tickAt, ok) && Grown(t, u, from)
    ensures Moved(u, w, tickAt, ok)
  {
    hide ServesWheels, RefusedBy;
    if ok {
      var x :| 0 <= x < |t.accepted| && ServesWheels(t.accepted[x], w, tickAt);
      assert ServesWheels(u.accepted[x], w, tickAt);
    } else {
      var x :| 0 <= x < |t.offers| && RefusedBy(t.offers[x], tickAt);
      assert RefusedBy(u.offers[x], tickAt);
    }
  }

  lemma JustifiedLater(v: Stm, e: StmEvent, t: Trace, u: Trace, since: nat, x: Moment)
    requires Justified(v, e, t, x) && Grown(t, u, since)
    ensures Justified(v, e, u, x)
  {
    hide Moved, Grown, StopRefusedIn, Commands;
    if Commands(v, e) {
      assert e.Take? && e.f.WheelVelocity? && e.f.wheels.Some? by { CommandsAreWheels(v, e); }
      MovedLater(t, u, since, e.f.wheels.value, x.tickAt, e.o.motorOk);
    }
    if StopRefusedIn(t, x.at, x.tickAt) {
      RefusalStays(t, u, since, x.at, x.tickAt, x.at, x.tickAt);
    }
  }

  lemma CommandsAreWheels(v: Stm, e: StmEvent)
    requires Commands(v, e)
    ensures e.Take? && e.f.WheelVelocity? && e.f.wheels.Some?
  {
  }

  lemma AllJustifiedLater(v: Stm, es: seq<StmEvent>, t: Trace, u: Trace, since: nat, x: Moment)
    requires AllJustified(v, es, t, x) && Grown(t, u, since)
    ensures AllJustified(v, es, u, x)
  {
    hide Justified, After, Grown;
    forall j | 0 <= j < |es|
      ensures Justified(After(v, es[..j]), es[j], u, x)
    {
      JustifiedLater(After(v, es[..j]), es[j], t, u, since, x);
    }
  }

  lemma {:induction false} NothingTaken(es: seq<StmEvent>)
    requires Taken(es) == []
    ensures forall j :: 0 <= j < |es| ==> !es[j].Take?
  {
    if es != [] {
      NothingTaken(es[..|es| - 1]);
      assert forall j :: 0 <= j < |es| - 1 ==> es[j] == es[..|es| - 1][j];
    }
  }

  /** Events that take nothing need only account for a lost link. */
  lemma LossesJustified(v: Stm, es: seq<StmEvent>, t: Trace, x: Moment)
    requires Taken(es) == []
    requires LoseLink in es ==> x.rx.Overflow? || StopRefusedIn(t, x.at, x.tickAt) || x.at >= x.beatAt + 1000
    ensures AllJustified(v, es, t, x) && !ConfirmsIn(v, es)
  {
    hide After, Moved, StopRefusedIn, StmStep, ConfirmsIn;
    NothingTaken(es);
    NothingConfirms(v, es);
  }

  lemma {:induction false} NothingConfirms(v: Stm, es: seq<StmEvent>)
    requires Taken(es) == []
    ensures !ConfirmsIn(v, es)
  {
    hide After, StmStep;
    if es != [] {
      NothingConfirms(v, es[..|es| - 1]);
    }
  }

  lemma {:induction false} JustifiedBoth(v: Stm, a: seq<StmEvent>, b: seq<StmEvent>, t: Trace, x: Moment)
    requires AllJustified(v, a, t, x) && AllJustified(After(v, a), b, t, x)
    ensures AllJustified(v, a + b, t, x)
  {
    hide After, Justified;
    forall j | 0 <= j < |a + b|
      ensures Justified(After(v, (a + b)[..j]), (a + b)[j], t, x)
    {
      if j < |a| {
        assert (a + b)[..j] == a[..j];
      } else {
        assert (a + b)[..j] == a + b[..j - |a|];
        AfterBoth(v, a, b[..j - |a|]);
      }
    }
  }

  lemma {:induction false} ConfirmsBoth(v: Stm, a: seq<StmEvent>, b: seq<StmEvent>)
    ensures ConfirmsIn(v, a + b) <==> ConfirmsIn(v, a) || ConfirmsIn(After(v, a), b)
  {
    hide After, Confirms;
    if b == [] {
      assert a + b == a;
    } else {
      var before := b[..|b| - 1];
      ConfirmsBoth(v, a, before);
      AfterBoth(v, a, before);
      assert (a + b)[..|a + b| - 1] == a + before;
    }
  }

  /** Two stages of a pass, accounted for together. */
  lemma StagesJustified(v: Stm, a: seq<StmEvent>, b: seq<StmEvent>, t: Trace, u: Trace, since: nat, x: Moment)
    requires AllJustified(v, a, t, x) && Grown(t, u, since) && AllJustified(After(v, a), b, u, x)
    ensures AllJustified(v, a + b, u, x)
    ensures ConfirmsIn(v, a + b) <==> ConfirmsIn(v, a) || ConfirmsIn(After(v, a), b)
  {
    hide *;
    AllJustifiedLater(v, a, t, u, since, x);
    JustifiedBoth(v, a, b, u, x);
    ConfirmsBoth(v, a, b);
  }

  lemma {:induction false} PassJustified(v: Stm, a: seq<StmEvent>, b: seq<StmEvent>, t: Trace, u: Trace, x: Moment)
    requires Taken(a) == [] && (LoseLink in a ==> StopRefusedIn(t, x.at, x.at)) && x.at <= x.tickAt
    requires Grown(t, u, x.at) && AllJustified(After(v, a), b, u, x)
    ensures AllJustified(v, a + b, u, x) && (ConfirmsIn(v, a + b) <==> ConfirmsIn(After(v, a), b))
  {
    hide *;
    if LoseLink in a {
      RefusalStays(t, t, x.at, x.at, x.at, x.at, x.tickAt) by { GrownNot(t, x.at); }
    }
    LossesJustified(v, a, t, x);
    StagesJustified(v, a, b, t, u, x.at, x);
  }

  lemma JustifiedOne(v: Stm, e: StmEvent, t: Trace, x: Moment)
    requires Justified(v, e, t, x)
    ensures AllJustified(v, [e], t, x) && (ConfirmsIn(v, [e]) <==> Confirms(v, e))
  {
    hide Justified, Confirms;
    RunOfNone(v);
    assert [e][..0] == [];
  }

  /** The control planned for these wheels was accepted; or refused, or not even offered while a stop was owed. */
  ghost predicate PutToMotors(before: Trace, after: Trace, l: Wheel, r: Wheel, w: Wheels, tickAt: nat, owed: bool, ok: bool)
  {
    if ok then after.accepted == before.accepted + [Planned(l, r, w, tickAt)]
    else owed || PutFirst(before, after, Planned(l, r, w, tickAt))
  }

  function Planned(l: Wheel, r: Wheel, w: Wheels, tickAt: nat): Accepted
  {
    Accepted(tickAt, Output(l, Feedforward(w.left), Clock32(tickAt)), Output(r, Feedforward(w.right), Clock32(tickAt)))
  }

  /** What an accepted and a refused command leave in the trace. */
  lemma MovedNow(before: Trace, t: Trace, l: Wheel, r: Wheel, w: Wheels, tickAt: nat, owed: bool)
    requires t.accepted == before.accepted + [Planned(l, r, w, tickAt)]
    ensures PutToMotors(before, t, l, r, w, tickAt, owed, true) && Moved(t, w, tickAt, true)
  {
    assert ServesWheels(t.accepted[|t.accepted| - 1], w, tickAt);
  }

  lemma RefusedNow(before: Trace, after: Trace, u: Trace, owed: bool, l: Wheel, r: Wheel, w: Wheels, tickAt: nat, from: nat)
    requires Grown(before, u, from) && Grown(after, u, from)
    requires owed ==>
               before.offers != [] && var x := before.offers[|before.offers| - 1]; !x.taken && x.control.at <= tickAt
    requires !owed ==> PutFirst(before, after, Planned(l, r, w, tickAt))
    ensures PutToMotors(before, u, l, r, w, tickAt, owed, false) && Moved(u, w, tickAt, false)
  {
    if owed {
      assert RefusedBy(u.offers[|before.offers| - 1], tickAt);
    } else {
      assert RefusedBy(u.offers[|before.offers|], tickAt);
    }
  }

  lemma DrivesAsPlanned(t: Trace, l: Wheel, r: Wheel, u: Trace, w: Wheels, at: nat)
    requires Explains(t, l, r)
    requires u.left == t.left + [Apply(Feedforward(w.left), at, true)]
    requires u.right == t.right + [Apply(Feedforward(w.right), at, true)]
    requires u.accepted == t.accepted + [Accepted(at, Output(l, Feedforward(w.left), Clock32(at)),
                                                  Output(r, Feedforward(w.right), Clock32(at)))]
    ensures DrivesAs(u, w, at)
  {
    hide Run, Calls, Output, Serves;
    assert u.left[..|u.left| - 1] == t.left && u.right[..|u.right| - 1] == t.right;
  }

  // ---------- Operations through a pass ----------

  /** What may become of the active operation: it stays, it ends, or the next one begins when there is none. */
  predicate OperationStep(c: C.Coordinator, operation: u32)
  {
    operation in {0, c.activeOperation} || (c.activeOperation == 0 && operation == C.NextOperation(c.nextOperation))
  }

  lemma StepsOperation(v: Stm, e: StmEvent)
    requires C.Consistent(v.coordinator)
    ensures OperationStep(v.coordinator, StmStep(v, e).0.coordinator.activeOperation)
  {
  }

  /** Through the stages of a pass, the confirmation runs at the end exactly if the operation is still the one the pass
      began with. */
  lemma SameOperation(c0: C.Coordinator, c1: C.Coordinator, operation: u32, s1: bool, s2: bool)
    requires c0.activeOperation != 0 ==> c0.activeOperation == c0.nextOperation
    requires c1.activeOperation in {0, c0.activeOperation} && c1.nextOperation == c0.nextOperation
    requires OperationStep(c1, operation)
    requires s1 <==> c1.activeOperation != 0
    requires s2 <==> s1 && operation == c1.activeOperation
    ensures s2 <==> c0.activeOperation != 0 && operation == c0.activeOperation
  {
  }

  /** The end of a stop, or of the link, leaves no operation. */
  lemma EndsOperation(v: Stm, e: StmEvent)
    requires C.Consistent(v.coordinator) && (e.Finish? || e.LoseLink?)
    ensures StmStep(v, e).0.coordinator.activeOperation == 0
    ensures StmStep(v, e).0.coordinator.nextOperation == v.coordinator.nextOperation
    ensures Completed(v, e) != [] ==> v.coordinator.activeOperation != 0
  {
  }

  // ---------- The application ----------

  class Stm32 {
    const guard: CommandGuard
    const stop: S.MotionStop
    const coordinator: C.MotionLifecycleCoordinator

    // uart_link_manager
    var linkInitialized: bool
    var synchronized: bool
    var heartbeatTimeoutMs: u32
    var lastHeartbeatMs: u32

    // stm32_motion_protocol_manager
    var pendingStopOperation: u32
    var confirmationStarted: bool

    /** Unbounded time of the current pass, and of the latest clock reading of the motor driver. */
    ghost var clock: nat
    ghost var tickClock: nat
    /** When the link was last confirmed. */
    ghost var heartbeatAt: nat
    /** The session of the wheel command that armed the watchdog. */
    ghost var driveSession: u32
    /** Every frame put on the wire. */
    var line: seq<ToPi>

    /** This controller as a protocol party. */
    ghost function View(): Stm
      reads this, coordinator, coordinator.receiver
    {
      Stm(synchronized, coordinator.View())
    }

    ghost predicate Parts()
      reads this, guard, guard.driver, guard.watchdog, stop, coordinator, coordinator.receiver
    {
      && guard.Valid() && guard.watchdog.timeoutMs == MOTION_COMMAND_TIMEOUT_MS
      && stop.Valid() && coordinator.Valid() && C.Consistent(coordinator.View())
      && linkInitialized && heartbeatTimeoutMs == LINK_HEARTBEAT_TIMEOUT_MS
      && Timed()
      && (!synchronized ==> coordinator.View() == C.Reset(coordinator.View()))
    }

    /** The driver has seen no later time than the latest clock reading. */
    ghost predicate Timed()
      reads this, guard, guard.driver
    {
      clock <= tickClock && guard.driver.brakedSince <= tickClock && guard.driver.CalledAt() <= tickClock
    }

    /** The wheels may be in motion under the watchdog's eye. */
    ghost predicate Watching()
      reads this, guard, guard.watchdog
    {
      guard.watchdog.armed && !guard.stopPending
    }

    /** What was asked of the motors since came in this pass; and if the wheels may be in motion, they were before, and
        nothing was asked. */
    ghost predicate Since(before: Trace, wasWatching: bool)
      reads this, guard, guard.driver, guard.watchdog
    {
      && Grown(before, guard.driver.trace, clock) && guard.driver.CalledAt() <= tickClock
      && (Watching() ==> wasWatching && guard.driver.trace == before)
    }

    /** What was set in motion goes on: nothing was asked of the motors. */
    ghost predicate GoesOn(before: Trace, wasWatching: bool)
      reads this, guard, guard.driver, guard.watchdog
    {
      guard.driver.trace == before && Watching() == wasWatching
    }

    /** Motion is watched only for the active session of a synchronised link. */
    ghost predicate Watched(age: nat)
      reads this, guard, guard.watchdog, coordinator
    {
      guard.watchdog.armed && !guard.stopPending ==>
        && synchronized && coordinator.state == C.Active && driveSession == coordinator.motionSessionId
        && guard.watchdog.refreshedAt <= clock < guard.watchdog.refreshedAt + age
    }

    /** The manager's pending stop is the coordinator's active operation; while it is being confirmed the
        motors stay braked. The last reading was taken at most `gap` ago. */
    ghost predicate Confirming(gap: nat)
      reads this, guard, guard.driver, stop, coordinator
    {
      && pendingStopOperation == coordinator.activeOperationId
      && (confirmationStarted <==> stop.active)
      && (confirmationStarted ==>
            && stop.operationId == pendingStopOperation != 0 && stop.samples != []
            && stop.samples[|stop.samples| - 1].at <= clock <= stop.samples[|stop.samples| - 1].at + gap
            && !guard.driver.Energised() && guard.driver.brakedSince <= stop.samples[0].at)
    }

    /** A running confirmation goes on untouched exactly while the operation is the same. */
    ghost predicate Undisturbed(wasStarted: bool, samples: seq<S.Sample>, operation: u32)
      reads this, stop, coordinator
    {
      && (confirmationStarted <==> wasStarted && coordinator.activeOperationId == operation)
      && (confirmationStarted ==> stop.samples == samples)
    }

    ghost predicate LinkTimed(age: nat)
      reads this
    {
      synchronized ==> heartbeatAt <= clock < heartbeatAt + age && lastHeartbeatMs == Clock32(heartbeatAt)
    }

    /** Holds between the stages of a pass. */
    ghost predicate Stage()
      reads this, guard, guard.driver, guard.watchdog, stop, coordinator, coordinator.receiver
    {
      Parts() && Watched(MOTION_COMMAND_TIMEOUT_MS) && Confirming(0) && LinkTimed(TWO32)
    }

    /** Holds between passes of the loop. */
    ghost predicate Inv()
      reads this, guard, guard.driver, guard.watchdog, stop, coordinator, coordinator.receiver
    {
      Stage() && LinkTimed(LINK_HEARTBEAT_TIMEOUT_MS)
    }

    /** A wheel is energised only while a stop is owed, or for a fresh command of the active session. */
    ghost predicate MotorSafe()
      reads this, guard, guard.driver, guard.watchdog, coordinator
    {
      guard.driver.Energised() ==>
        || guard.stopPending
        || (&& synchronized && coordinator.state == C.Active
            && guard.watchdog.armed && driveSession == coordinator.motionSessionId
            && clock - guard.watchdog.refreshedAt < 250)
    }

    constructor ()
      ensures Inv() && MotorSafe() && clock == 0 && tickClock == 0 && line == [] && !confirmationStarted
      ensures guard.driver.trace == NO_TRACE && !guard.watchdog.armed
      ensures fresh(guard) && fresh(guard.driver) && fresh(guard.watchdog) && fresh(stop)
      ensures fresh(coordinator) && fresh(coordinator.receiver)
      ensures View() == Stm(false, C.INITIAL)
      ensures heartbeatAt == 0
    {
      guard := new CommandGuard(MOTION_COMMAND_TIMEOUT_MS);
      stop := new S.MotionStop();
      coordinator := new C.MotionLifecycleCoordinator();
      linkInitialized, synchronized, heartbeatTimeoutMs, lastHeartbeatMs := true, false, LINK_HEARTBEAT_TIMEOUT_MS, 0;
      pendingStopOperation, confirmationStarted := 0, false;
      clock, tickClock, heartbeatAt, driveSession := 0, 0, 0, 0;
      line := [];
    }

    /** The transmitter: a reported failure may still have delivered the frame. */
    method Send(f: ToPi) returns (ok: bool, ghost fate: Fate)
      modifies this`line
      ensures ok == fate.Sent? && line == old(line) + OnWire(f, fate)
    {
      ok := *;
      var delivered: bool := *;
      fate := if ok then Sent else Failed(delivered);
      if ok || delivered {
        line := line + [f];
      }
    }

    /** stm32_motion_protocol_manager_reset. */
    method ResetManager()
      requires coordinator.Valid()
      modifies this`pendingStopOperation, this`confirmationStarted, stop, coordinator, coordinator.receiver
      ensures coordinator.Valid() && coordinator.View() == C.Reset(old(coordinator.View()))
      ensures stop.Valid() && !stop.active && pendingStopOperation == 0 && !confirmationStarted
    {
      coordinator.ResetSession();
      stop.Cancel();
      pendingStopOperation := 0;
      confirmationStarted := false;
    }

    /** Whatever was energised is braked, or a stop is owed. */
    ghost predicate StoppedOrOwed()
      reads guard, guard.driver, guard.watchdog
    {
      guard.stopPending || (!guard.watchdog.armed && !guard.driver.Energised())
    }

    /** motion_command_guard_stop, at the driver's latest clock reading. */
    method StopNow() returns (ok: bool)
      requires guard.Valid() && Timed()
      modifies guard`stopPending, guard.driver, guard.watchdog`armed
      ensures guard.Valid() && Since(old(guard.driver.trace), old(Watching()))
      ensures guard.stopPending == !ok && StoppedOrOwed()
      ensures guard.driver.RestKept(old(guard.driver.Energised()), old(guard.driver.brakedSince), tickClock)
      ensures !ok ==> StopRefusedIn(guard.driver.trace, tickClock, tickClock)
    {
      hide CommandGuard.Ready, StopRefused, MotorDriver.Energised, Grown;
      ghost var before := guard.driver.trace;
      ok := guard.Stop(tickClock);
      GrownEarlier(before, guard.driver.trace, tickClock, clock);
      if !ok {
        RefusedOnce(guard.driver.trace, |before.offers|, tickClock, tickClock);
      }
    }

    /** reset_link_and_stop_motion of main.c. */
    method ResetLinkAndStopMotion()
      requires coordinator.Valid() && guard.Valid() && Timed()
      modifies this`linkInitialized, this`synchronized, this`heartbeatTimeoutMs, this`lastHeartbeatMs
      modifies this`pendingStopOperation, this`confirmationStarted, stop, coordinator, coordinator.receiver
      modifies guard`stopPending, guard.driver, guard.watchdog`armed
      ensures coordinator.Valid() && coordinator.View() == C.Reset(old(coordinator.View()))
      ensures stop.Valid() && !stop.active && pendingStopOperation == 0 && !confirmationStarted
      ensures guard.Valid() && StoppedOrOwed() && Since(old(guard.driver.trace), old(Watching()))
      ensures guard.driver.RestKept(old(guard.driver.Energised()), old(guard.driver.brakedSince), tickClock)
      ensures linkInitialized && heartbeatTimeoutMs == LINK_HEARTBEAT_TIMEOUT_MS && !synchronized
    {
      linkInitialized, synchronized, heartbeatTimeoutMs, lastHeartbeatMs := true, false, LINK_HEARTBEAT_TIMEOUT_MS, 0;
      ResetManager();
      var _ := StopNow();
    }

    /** The same, seen as a stage of a pass: from wherever a failure was noticed, it leaves a controller at rest. */
    method StartOver()
      requires coordinator.Valid() && guard.Valid() && guard.watchdog.timeoutMs == MOTION_COMMAND_TIMEOUT_MS
      requires C.Consistent(coordinator.View()) && Timed()
      modifies this`linkInitialized, this`synchronized, this`heartbeatTimeoutMs, this`lastHeartbeatMs
      modifies this`pendingStopOperation, this`confirmationStarted, stop, coordinator, coordinator.receiver
      modifies guard`stopPending, guard.driver, guard.watchdog`armed
      ensures Stage() && !confirmationStarted && View() == Stm(false, C.Reset(old(coordinator.View())))
      ensures Since(old(guard.driver.trace), old(Watching()))
    {
      hide C.Consistent, S.MotionStop.Valid, C.MotionLifecycleCoordinator.Valid, CommandGuard.Ready, StopRefused, Grown;
      hide MotionReliableReceiver.View, MotorDriver.Energised;
      ghost var before := coordinator.View();
      ResetLinkAndStopMotion();
      C.ResetKeepsConsistent(before);
    }

    /** process_action: transmit what the action asks for, then start the stop it asks for. */
    method ProcessAction(a: C.Action) returns (r: ManagerResult, ghost ack: Fate, ghost answer: Fate)
      requires guard.Valid() && Timed()
      modifies this`line, this`pendingStopOperation, this`confirmationStarted
      modifies guard`stopPending, guard.driver, guard.watchdog`armed
      ensures guard.Valid() && Since(old(guard.driver.trace), old(Watching()))
      ensures guard.driver.RestKept(old(guard.driver.Energised()), old(guard.driver.brakedSince), tickClock)
      ensures line == old(line) + (AckWire(a, ack) + AnswerWire(a, answer))
      ensures r == if !Reported(a, Outcome(true, ack, answer)) then TransmitFailed
                   else if a.operation != 0 then StopInProgress else Processed
      ensures if a.operation != 0
              then pendingStopOperation == a.operation && !confirmationStarted && StoppedOrOwed()
              else pendingStopOperation == old(pendingStopOperation) && confirmationStarted == old(confirmationStarted)
                   && guard.stopPending == old(guard.stopPending) && guard.watchdog.armed == old(guard.watchdog.armed)
                   && guard.driver.trace == old(guard.driver.trace)
                   && guard.driver.Energised() == old(guard.driver.Energised())
                   && guard.driver.brakedSince == old(guard.driver.brakedSince)
    {
      hide CommandGuard.Valid, Grown;
      GrownNot(guard.driver.trace, clock);
      var transmitFailed := false;
      ack, answer := Sent, Sent;
      if a.ack.Some? {
        var ok;
        ok, ack := Send(MotionAck(a.ack.value.sequence, ACCEPTED));
        if !ok {
          transmitFailed := true;
        }
      }
      if a.response.Some? {
        var ok;
        ok, answer := Send(ResponseFrame(a.response.value));
        if !ok {
          transmitFailed := true;
        }
      }
      if a.operation != 0 {
        pendingStopOperation := a.operation;
        confirmationStarted := false;
        var _ := StopNow();
        return if transmitFailed then TransmitFailed else StopInProgress, ack, answer;
      }
      return if transmitFailed then TransmitFailed else Processed, ack, answer;
    }

    /** The end of stm32_motion_protocol_manager_update: the verdict completes the lifecycle operation, and the answer
        goes to the owner. */
    method CompleteStop(success: bool) returns (r: ManagerResult, ghost fate: Fate)
      requires guard.Valid() && Timed()
      requires coordinator.Valid() && C.Accepts(coordinator.View(), coordinator.activeOperationId)
      modifies this`line, this`pendingStopOperation, this`confirmationStarted
      modifies coordinator, coordinator.receiver, guard`stopPending, guard.driver, guard.watchdog`armed
      ensures guard.Valid() && coordinator.Valid()
      ensures pendingStopOperation == 0 && !confirmationStarted
      ensures guard.stopPending == old(guard.stopPending) && guard.watchdog.armed == old(guard.watchdog.armed)
      ensures guard.driver.Energised() == old(guard.driver.Energised())
      ensures guard.driver.trace == old(guard.driver.trace) && guard.driver.brakedSince == old(guard.driver.brakedSince)
      ensures var (d, a) := C.Complete(old(coordinator.View()), old(coordinator.activeOperationId), success);
              coordinator.View() == d && line == old(line) + AnswerWire(a, fate)
      ensures r in {StopHasFailed, TransmitFailed, Processed}
      ensures r in {StopHasFailed, TransmitFailed} <==> !(success && fate.Sent?)
    {
      hide CommandGuard.Valid, Grown;
      pendingStopOperation := 0;
      confirmationStarted := false;
      var action := coordinator.CompleteOperation(coordinator.activeOperationId, success);
      var completion;
      ghost var ack;
      completion, ack, fate := ProcessAction(action);
      assert AckWire(action, ack) + AnswerWire(action, fate) == AnswerWire(action, fate);
      if completion == TransmitFailed {
        return completion, fate;
      }
      return if success then completion else StopHasFailed, fate;
    }

    /** The confirmation of a pending stop: begun once, then advanced by one reading. The failure branch of
        motion_stop_begin cannot be taken because the pending operation id is not zero. */
    method AdvanceStop(now: u32, first: S.Counts, second: S.Counts) returns (c: S.Completion)
      requires stop.Valid() && now == Clock32(clock) && pendingStopOperation != 0 && Confirming(S.MAX_GAP_MS)
      requires !guard.driver.Energised() && guard.driver.brakedSince <= clock
      modifies this`confirmationStarted, stop
      ensures stop.Valid() && confirmationStarted
      ensures stop.samples == Confirmation(old(confirmationStarted), old(stop.samples), clock, first, second)
      ensures guard.driver.brakedSince <= stop.samples[0].at && stop.samples[|stop.samples| - 1].at == clock
      ensures c.Unfinished? ==> Confirming(0)
      ensures c.Finished? ==> !stop.active && c.operation == pendingStopOperation
      ensures S.Decision(stop.samples) == if c.Finished? then Some(c.success) else None
    {
      if !confirmationStarted {
        var begun := stop.Begin(pendingStopOperation, now, first, clock);
        assert begun;
        confirmationStarted := true;
      }
      c := stop.Update(now, second, clock);
    }

    /** stm32_motion_protocol_manager_update: watchdog first, then the stop confirmation. `finished` tells
        whether the stop operation completed, and how. */
    method ManagerUpdate(now: u32, first: S.Counts, second: S.Counts)
      returns (r: ManagerResult, ghost finished: Option<bool>, ghost fate: Fate)
      requires Parts() && now == Clock32(clock) && tickClock == clock
      requires Watched(TWO32) && Confirming(S.MAX_GAP_MS)
      modifies this`line, this`pendingStopOperation, this`confirmationStarted
      modifies stop, coordinator, coordinator.receiver, guard`stopPending, guard.driver, guard.watchdog`armed
      ensures Parts() && Watched(MOTION_COMMAND_TIMEOUT_MS)
      ensures Since(old(guard.driver.trace), old(Watching()))
      ensures r in {StopHasFailed, TransmitFailed, Processed, StopInProgress}
      ensures finished.Some? ==> old(pendingStopOperation) != 0
      ensures finished.None? && r == StopHasFailed ==>
                guard.stopPending && StopRefusedIn(guard.driver.trace, clock, clock)
      ensures old(pendingStopOperation) != 0 && (finished.Some? || r != StopHasFailed) ==>
                var readings := Confirmation(old(confirmationStarted), old(stop.samples), clock, first, second);
                && finished == S.Decision(readings)
                && (finished == None ==> confirmationStarted && stop.samples == readings)
                && (finished == Some(true) ==> RestBetween(guard.driver.trace.accepted, readings[0].at, clock))
      ensures old(pendingStopOperation) == 0 || finished.Some? ==> !confirmationStarted
      ensures finished.None? ==>
                && coordinator.View() == old(coordinator.View()) && line == old(line)
                && r != TransmitFailed && (r != StopHasFailed ==> Confirming(0))
      ensures finished.Some? ==>
                && C.Accepts(old(coordinator.View()), old(coordinator.activeOperationId))
                && var (d, a) := C.Complete(old(coordinator.View()), old(coordinator.activeOperationId), finished.value);
                && coordinator.View() == d && line == old(line) + AnswerWire(a, fate)
                && (r in {StopHasFailed, TransmitFailed} <==> !(finished.value && fate.Sent?))
                && Confirming(0)
      ensures old(Watching()) && clock - guard.watchdog.refreshedAt < 250 ==> GoesOn(old(guard.driver.trace), true)
    {
      hide CommandGuard.Ready, StopRefused, C.Complete, C.Consistent, C.Accepts, S.MotionStop.Valid, S.Decision;
      hide StopRefusedIn, MotorDriver.Energised, Grown, RestBetween;
      hide C.MotionLifecycleCoordinator.Valid, MotionReliableReceiver.View;
      finished, fate := None, Sent;
      ghost var before := coordinator.View();
      var g := guard.Update(now, clock);
      if g == CouldNotStop {
        RefusedOnce(guard.driver.trace, |guard.driver.trace.offers| - 1, clock, clock);
        return StopHasFailed, finished, fate;
      }
      if pendingStopOperation == 0 {
        return Processed, finished, fate;
      }
      C.ActiveIsAccepted(before);
      AcceptedHasPending(before);
      var c := AdvanceStop(now, first, second);
      if c.Unfinished? {
        return StopInProgress, finished, fate;
      }
      C.CompleteKeepsConsistent(before, before.activeOperation, c.success);
      CompletedIsNotActive(before, c.success);
      AtRestSoFar(stop.samples[0].at);
      finished := Some(c.success);
      r, fate := CompleteStop(c.success);
    }

    lemma AtRestSoFar(t: nat)
      requires guard.Valid() && !guard.driver.Energised() && guard.driver.brakedSince <= t
      ensures RestBetween(guard.driver.trace.accepted, t, clock)
    {
      RestSoFar(guard.driver.trace.accepted, guard.driver.brakedSince, t, clock);
    }

    /** The manager update and main's reaction: a failed stop or transmission resets the link. */
    method UpdateOrReset(now: u32, first: S.Counts, second: S.Counts) returns (ghost e: Option<StmEvent>)
      requires Parts() && now == Clock32(clock) && tickClock == clock
      requires Watched(TWO32) && Confirming(S.MAX_GAP_MS) && LinkTimed(TWO32)
      modifies this, guard`stopPending, guard.driver, guard.watchdog`armed, stop, coordinator, coordinator.receiver
      ensures Stage() && clock == old(clock) && tickClock == old(tickClock) && driveSession == old(driveSession)
      ensures Since(old(guard.driver.trace), old(Watching()))
      ensures e.None? ==> View() == old(View()) && line == old(line)
      ensures e.Some? ==> e.value.Finish? || e.value.LoseLink?
      ensures e.Some? ==>
                View() == StmStep(old(View()), e.value).0 && line == old(line) + StmStep(old(View()), e.value).1
      ensures var readings := Confirmation(old(confirmationStarted), old(stop.samples), clock, first, second);
              && (e.None? && old(coordinator.activeOperationId) != 0 ==> confirmationStarted)
              && (confirmationStarted ==> stop.samples == readings && S.Decision(readings) == None)
              && Judged(if e.Some? then Completed(old(View()), e.value) else [], readings, guard.driver.trace.accepted)
      ensures e == Some(LoseLink) ==> StopRefusedIn(guard.driver.trace, clock, clock)
      ensures heartbeatAt == old(heartbeatAt)
      ensures old(Watching()) && clock - guard.watchdog.refreshedAt < 250 && synchronized ==>
                GoesOn(old(guard.driver.trace), true)
    {
      hide StopRefusedIn, StmStep, C.Consistent, C.Complete, C.Accepts, CommandGuard.Valid, Grown, RestBetween, S.Decision;
      hide Completed;
      hide S.MotionStop.Valid, C.MotionLifecycleCoordinator.Valid, MotionReliableReceiver.View, MotorDriver.Energised;
      ghost var v0, t0 := View(), guard.driver.trace;
      var r;
      ghost var finished, fate;
      r, finished, fate := ManagerUpdate(now, first, second);
      ghost var t1 := guard.driver.trace;
      if r == StopHasFailed || r == TransmitFailed {
        StartOver();
        GrownTwice(t0, t1, guard.driver.trace, clock);
        if finished.None? {
          RefusalStays(t1, guard.driver.trace, clock, clock, clock, clock, clock);
        }
      }
      e := if finished.Some? then Some(Finish(finished.value, fate)) else if r == StopHasFailed then Some(LoseLink) else None;
      LoseEvent(v0);
      NothingCompleted(v0, LoseLink);
      if finished.Some? {
        FinishEvent(v0, finished.value, fate);
        FinishCompletes(v0, finished.value, fate);
        if finished.value {
          ghost var readings := Confirmation(old(confirmationStarted), old(stop.samples), clock, first, second);
          RestStays(t1, guard.driver.trace, readings[0].at, clock);
        }
      }
    }

    /** The first stage of a pass, at a new clock reading. */
    method UpdateStage(now: u32, ghost at: nat, first: S.Counts, second: S.Counts) returns (ghost es: seq<StmEvent>)
      requires Inv() && tickClock <= at <= clock + S.MAX_GAP_MS && now == Clock32(at)
      modifies this, guard`stopPending, guard.driver, guard.watchdog`armed, stop, coordinator, coordinator.receiver
      ensures Stage() && clock == tickClock == at && Taken(es) == [] && driveSession == old(driveSession)
      ensures Since(old(guard.driver.trace), old(Watching()))
      ensures View() == After(old(View()), es) && line == old(line) + Wired(old(View()), es)
      ensures var readings := Confirmation(old(confirmationStarted), old(stop.samples), at, first, second);
              && (confirmationStarted ==> stop.samples == readings && S.Decision(readings) == None)
              && Judged(Completions(old(View()), es), readings, guard.driver.trace.accepted)
      ensures confirmationStarted <==> coordinator.activeOperationId != 0
      ensures coordinator.activeOperationId in {0, old(coordinator.activeOperationId)}
      ensures coordinator.nextOperationId == old(coordinator.nextOperationId)
      ensures Completions(old(View()), es) != [] ==> old(coordinator.activeOperationId) != 0
      ensures LoseLink in es ==> StopRefusedIn(guard.driver.trace, at, at)
      ensures heartbeatAt == old(heartbeatAt)
      ensures old(Watching()) && at - guard.watchdog.refreshedAt < 250 && synchronized ==>
                GoesOn(old(guard.driver.trace), true)
      ensures guard.watchdog.refreshedAt == old(guard.watchdog.refreshedAt)
    {
      hide StopRefusedIn, StmStep, C.Consistent, CommandGuard.Valid, Grown, S.Decision, Completed, Judged;
      hide S.MotionStop.Valid, C.MotionLifecycleCoordinator.Valid, MotionReliableReceiver.View, MotorDriver.Energised;
      clock, tickClock := at, at;
      ghost var v0 := View();
      ghost var e := UpdateOrReset(now, first, second);
      if e.Some? {
        es := [e.value];
        RunOfOne(v0, e.value);
        EndsOperation(v0, e.value);
      } else {
        es := [];
        RunOfNone(v0);
      }
    }

    /** uart_link_manager_handle_link_sync. */
    method HandleLinkSync(sequence: u16, token: Option<Token>, now: u32) returns (r: LinkResult, ghost o: Outcome)
      requires guard.Valid() && Timed() && now == Clock32(clock)
      modifies this`line, this`synchronized, this`lastHeartbeatMs, this`heartbeatAt
      modifies guard`stopPending, guard.driver, guard.watchdog`armed
      ensures guard.Valid() && StoppedOrOwed()
      ensures Since(old(guard.driver.trace), old(Watching()))
      ensures guard.driver.RestKept(old(guard.driver.Energised()), old(guard.driver.brakedSince), tickClock)
      ensures Stm(synchronized, C.Reset(old(coordinator.View()))) == TakeSync(old(View()), sequence, token, o).0
      ensures line == old(line) + TakeSync(old(View()), sequence, token, o).1
      ensures r == LinkSynchronized <==> synchronized
      ensures synchronized ==> heartbeatAt == clock && lastHeartbeatMs == now
      ensures o.motorOk == !guard.stopPending
      ensures !o.motorOk ==> StopRefusedIn(guard.driver.trace, tickClock, tickClock)
      ensures !synchronized ==> heartbeatAt == old(heartbeatAt)
    {
      hide StopRefusedIn, CommandGuard.Ready, StopRefused, Grown, MotorDriver.Energised;
      synchronized := false;
      o := Outcome(true, Sent, Sent);
      var stopped := StopNow();
      if !stopped {
        return LinkStopFailed, o.(motorOk := false);
      }
      if token.None? {
        return InvalidLinkSync, o;
      }
      var ok;
      ghost var fate;
      ok, fate := Send(LinkSyncOk(sequence, token.value));
      o := o.(answer := fate);
      if !ok {
        return LinkTransmitFailed, o;
      }
      lastHeartbeatMs := now;
      heartbeatAt := clock;
      synchronized := true;
      return LinkSynchronized, o;
    }

    /** uart_link_manager_handle_heartbeat. */
    method HandleHeartbeat(sequence: u16, linkState: Option<u8>, now: u32) returns (r: LinkResult, ghost o: Outcome)
      requires guard.Valid() && Timed() && now == Clock32(clock) && (synchronized || StoppedOrOwed())
      modifies this`line, this`synchronized, this`lastHeartbeatMs, this`heartbeatAt
      modifies guard`stopPending, guard.driver, guard.watchdog`armed
      ensures guard.Valid()
      ensures Since(old(guard.driver.trace), old(Watching()))
      ensures guard.driver.RestKept(old(guard.driver.Energised()), old(guard.driver.brakedSince), tickClock)
      ensures synchronized == TakeHeartbeat(old(View()), sequence, linkState, o).0.synced
      ensures line == old(line) + TakeHeartbeat(old(View()), sequence, linkState, o).1
      ensures r != LinkSynchronized
      ensures synchronized ==> old(synchronized) && heartbeatAt == clock && lastHeartbeatMs == now
      ensures synchronized || StoppedOrOwed()
      ensures synchronized ==>
                && guard.stopPending == old(guard.stopPending) && guard.watchdog.armed == old(guard.watchdog.armed)
                && guard.driver.trace == old(guard.driver.trace)
                && guard.driver.Energised() == old(guard.driver.Energised())
                && guard.driver.brakedSince == old(guard.driver.brakedSince)
      ensures linkState == Some(UNSYNCHRONIZED) ==> o.motorOk == !guard.stopPending
      ensures !o.motorOk ==> StopRefusedIn(guard.driver.trace, tickClock, tickClock)
      ensures !synchronized ==> heartbeatAt == old(heartbeatAt)
    {
      hide StopRefusedIn, CommandGuard.Ready, StopRefused, Grown, MotorDriver.Energised;
      GrownNot(guard.driver.trace, clock);
      o := Outcome(true, Sent, Sent);
      if linkState.None? {
        synchronized := false;
        var stopped := StopNow();
        return if stopped then InvalidHeartbeat else LinkStopFailed, o;
      }
      var ok;
      ghost var fate;
      if linkState.value == UNSYNCHRONIZED {
        synchronized := false;
        var stopped := StopNow();
        if !stopped {
          return LinkStopFailed, o.(motorOk := false);
        }
        ok, fate := Send(HeartbeatReply(sequence, UNSYNCHRONIZED));
        return if ok then PeerUnsynchronized else LinkTransmitFailed, o.(answer := fate);
      }
      if linkState.value != SYNCHRONIZED {
        synchronized := false;
        var stopped := StopNow();
        return if stopped then InvalidHeartbeat else LinkStopFailed, o;
      }
      if !synchronized {
        ok, fate := Send(HeartbeatReply(sequence, UNSYNCHRONIZED));
        return if ok then LinkNotSynchronized else LinkTransmitFailed, o.(answer := fate);
      }
      ok, fate := Send(HeartbeatReply(sequence, SYNCHRONIZED));
      o := o.(answer := fate);
      if !ok {
        synchronized := false;
        var stopped := StopNow();
        return if stopped then LinkTransmitFailed else LinkStopFailed, o;
      }
      lastHeartbeatMs := now;
      heartbeatAt := clock;
      return HeartbeatAccepted, o;
    }

    /** A link frame: a new epoch, or any loss of synchronisation, resets the motion session. */
    method ReceiveLinkFrame(f: ToStm, now: u32, ghost tickAt: nat) returns (ghost o: Outcome)
      requires Stage() && tickClock <= tickAt && now == Clock32(clock) && (f.LinkSync? || f.Heartbeat?)
      modifies this, guard`stopPending, guard.driver, guard.watchdog`armed, stop, coordinator, coordinator.receiver
      ensures Stage() && clock == old(clock) && tickClock == old(tickClock) && driveSession == old(driveSession)
      ensures Since(old(guard.driver.trace), old(Watching()))
      ensures Undisturbed(old(confirmationStarted), old(stop.samples), old(coordinator.activeOperationId))
      ensures View() == StmStep(old(View()), Take(f, o)).0
      ensures line == old(line) + StmStep(old(View()), Take(f, o)).1
      ensures !o.motorOk ==> StopRefusedIn(guard.driver.trace, clock, tickAt)
      ensures heartbeatAt == if synchronized then clock else old(heartbeatAt)
      ensures f.Heartbeat? && synchronized ==> old(synchronized) && GoesOn(old(guard.driver.trace), old(Watching()))
    {
      hide C.Consistent, S.MotionStop.Valid, C.MotionLifecycleCoordinator.Valid, CommandGuard.Ready, StopRefused, Grown;
      hide StopRefusedIn;
      hide MotionReliableReceiver.View, MotorDriver.Energised, StmStep, TakeSync, TakeHeartbeat;
      ghost var before := coordinator.View();
      var r;
      if f.LinkSync? {
        r, o := HandleLinkSync(f.sequence, f.token, now);
      } else {
        r, o := HandleHeartbeat(f.sequence, f.linkState, now);
      }
      LinkFrameEvents(old(View()), f, o);
      GrownNot(guard.driver.trace, clock);
      if !o.motorOk {
        RefusalStays(guard.driver.trace, guard.driver.trace, clock, tickClock, tickClock, clock, tickAt);
      }
      if r == LinkSynchronized || !synchronized {
        ResetManager();
        C.ResetKeepsConsistent(before);
      }
    }

    /** stm32_motion_protocol_manager_handle for a lifecycle command, and main's reaction to it. */
    method ReceiveCommand(t: Transaction) returns (ghost o: Outcome)
      requires Stage() && synchronized
      modifies this, guard`stopPending, guard.driver, guard.watchdog`armed, stop, coordinator, coordinator.receiver
      ensures Stage() && clock == old(clock) && tickClock == old(tickClock) && driveSession == old(driveSession)
      ensures Since(old(guard.driver.trace), old(Watching()))
      ensures Undisturbed(old(confirmationStarted), old(stop.samples), old(coordinator.activeOperationId))
      ensures View() == TakeCommand(old(View()), t, o).0 && line == old(line) + TakeCommand(old(View()), t, o).1
      ensures heartbeatAt == old(heartbeatAt)
    {
      hide C.Consistent, C.Deliver, S.MotionStop.Valid, C.MotionLifecycleCoordinator.Valid;
      hide CommandGuard.Ready, StopRefused, Grown;
      hide MotionReliableReceiver.View, MotorDriver.Energised, CommandGuard.Valid, MotorDriver.CalledAt;
      ghost var before, t0 := coordinator.View(), guard.driver.trace;
      var action := coordinator.HandleTransaction(t);
      DeliverShape(before, t);
      var r;
      ghost var ack, answer;
      r, ack, answer := ProcessAction(action);
      o := Outcome(true, ack, answer);
      ghost var t1 := guard.driver.trace;
      if r == TransmitFailed {
        StartOver();
        GrownTwice(t0, t1, guard.driver.trace, clock);
      }
    }

    /** stm32_motion_protocol_manager_handle for wheel velocities, and main's reaction to a refusal.
        `tick` is the clock reading of the motor driver. */
    method ReceiveWheels(wheels: Wheels, now: u32, tick: u32, ghost tickAt: nat) returns (ghost o: Outcome)
      requires Stage() && synchronized && now == Clock32(clock) && tick == Clock32(tickAt) && tickClock <= tickAt
      modifies this, guard, guard.driver, guard.watchdog, stop, coordinator, coordinator.receiver
      ensures Stage() && clock == old(clock) && tickClock == tickAt && line == old(line) && heartbeatAt == old(heartbeatAt)
      ensures Grown(old(guard.driver.trace), guard.driver.trace, clock)
      ensures Undisturbed(old(confirmationStarted), old(stop.samples), old(coordinator.activeOperationId))
      ensures View() == StmStep(old(View()), Take(WheelVelocity(0, Some(wheels)), o)).0
      ensures ArmedBy(old(Watching()), old(guard.watchdog.refreshedAt), old(driveSession), old(guard.driver.trace),
                      Frame(WheelVelocity(0, Some(wheels))), tickAt)
      ensures old(coordinator.state) == C.Active && wheels.sessionId == old(coordinator.motionSessionId) ==>
                && PutToMotors(old(guard.driver.trace), guard.driver.trace, old(guard.driver.left), old(guard.driver.right),
                               wheels, tickAt, old(guard.stopPending), o.motorOk)
                && Moved(guard.driver.trace, wheels, tickAt, o.motorOk)
    {
      hide C.Consistent, S.MotionStop.Valid, C.MotionLifecycleCoordinator.Valid, CommandGuard.Ready, StopRefused, Grown;
      hide MotionReliableReceiver.View, MotorDriver.Energised, DrivesAs, Moved, PutToMotors;
      GrownNot(guard.driver.trace, clock);
      o := Outcome(true, Sent, Sent);
      tickClock := tickAt;
      if coordinator.state == C.Active && wheels.sessionId == coordinator.motionSessionId {
        o := DriveWheels(wheels, now, tick);
      }
    }

    /** A command for the active session. */
    method DriveWheels(wheels: Wheels, now: u32, tick: u32) returns (ghost o: Outcome)
      requires Stage() && synchronized && now == Clock32(clock) && tick == Clock32(tickClock)
      requires coordinator.state == C.Active && wheels.sessionId == coordinator.motionSessionId
      modifies this, guard, guard.driver, guard.watchdog, stop, coordinator, coordinator.receiver
      ensures Stage() && clock == old(clock) && tickClock == old(tickClock) && line == old(line)
      ensures heartbeatAt == old(heartbeatAt) && Grown(old(guard.driver.trace), guard.driver.trace, clock)
      ensures Undisturbed(old(confirmationStarted), old(stop.samples), old(coordinator.activeOperationId))
      ensures View() == StmStep(old(View()), Take(WheelVelocity(0, Some(wheels)), o)).0
      ensures ArmedBy(old(Watching()), old(guard.watchdog.refreshedAt), old(driveSession), old(guard.driver.trace),
                      Frame(WheelVelocity(0, Some(wheels))), tickClock)
      ensures PutToMotors(old(guard.driver.trace), guard.driver.trace, old(guard.driver.left), old(guard.driver.right),
                          wheels, tickClock, old(guard.stopPending), o.motorOk)
      ensures Moved(guard.driver.trace, wheels, tickClock, o.motorOk)
    {
      hide C.Consistent, S.MotionStop.Valid, C.MotionLifecycleCoordinator.Valid, CommandGuard.Ready, StopRefused, Grown;
      hide MotionReliableReceiver.View, MotorDriver.Energised, Output, DrivesAs, Explains, Feedforward, Moved, PutToMotors;
      ghost var before, t0, tickAt := coordinator.View(), guard.driver.trace, tickClock;
      GrownNot(t0, clock);
      o := Outcome(true, Sent, Sent);
      NotActiveOrNotStopping(before);
      var command := Command(Feedforward(wheels.left), Feedforward(wheels.right));
      guard.History();
      ghost var l0, r0, owed := guard.driver.left, guard.driver.right, guard.stopPending;
      if owed {
        guard.Owed();
      }
      var ok := guard.Apply(command, now, clock, tick, tickAt);
      ghost var t1 := guard.driver.trace;
      GrownEarlier(t0, t1, tickAt, clock);
      o := o.(motorOk := ok);
      if ok {
        DrivesAsPlanned(t0, l0, r0, t1, wheels, tickAt);
        MovedNow(t0, t1, l0, r0, wheels, tickAt, owed);
        driveSession := wheels.sessionId;
      } else {
        StartOver();
        ghost var u := guard.driver.trace;
        GrownTwice(t0, t1, u, clock);
        RefusedNow(t0, t1, u, owed, l0, r0, wheels, tickAt, clock);
      }
    }

    /** If the wheels may be in motion, nothing changed, or they were set in motion now, by a nonzero wheel command of the
        session driven and as the driver plans for it. */
    ghost predicate ArmedBy(wasWatching: bool, wasRefreshedAt: nat, wasSession: u32, before: Trace, rx: Received, tickAt: nat)
      reads this, guard, guard.driver, guard.watchdog
    {
      Watching() ==>
        || (&& wasWatching && guard.watchdog.refreshedAt == wasRefreshedAt && driveSession == wasSession
            && guard.driver.trace == before)
        || (&& guard.watchdog.refreshedAt == clock && WheelsFor(rx, driveSession)
            && DrivesAs(guard.driver.trace, rx.f.wheels.value, tickAt))
    }

    lemma IsConsistent()
      requires Stage()
      ensures C.Consistent(coordinator.View())
      ensures coordinator.activeOperationId != 0 ==> coordinator.activeOperationId == coordinator.nextOperationId
      ensures confirmationStarted ==> coordinator.activeOperationId != 0
    {
    }

    /** Main's reaction to an overflow of the receive queue. */
    method ReceiveOverflow()
      requires Stage()
      modifies this, guard`stopPending, guard.driver, guard.watchdog`armed, stop, coordinator, coordinator.receiver
      ensures Stage() && clock == old(clock) && tickClock == old(tickClock) && driveSession == old(driveSession)
      ensures Since(old(guard.driver.trace), old(Watching()))
      ensures Undisturbed(old(confirmationStarted), old(stop.samples), old(coordinator.activeOperationId))
      ensures View() == StmStep(old(View()), LoseLink).0 && line == old(line) + StmStep(old(View()), LoseLink).1
      ensures heartbeatAt == old(heartbeatAt)
    {
      hide C.Consistent, CommandGuard.Ready, StopRefused, S.MotionStop.Valid, C.MotionLifecycleCoordinator.Valid, Grown;
      hide MotionReliableReceiver.View, MotorDriver.Energised;
      StartOver();
    }

    /** The second stage of a pass: handle what the receiver delivered. */
    method ReceiveStage(rx: Received, now: u32, tick: u32, ghost tickAt: nat) returns (ghost es: seq<StmEvent>)
      requires Stage() && now == Clock32(clock) && tick == Clock32(tickAt) && tickClock <= tickAt
      modifies this, guard, guard.driver, guard.watchdog, stop, coordinator, coordinator.receiver
      ensures Stage() && clock == old(clock) && tickClock in {old(tickClock), tickAt}
      ensures Grown(old(guard.driver.trace), guard.driver.trace, clock)
      ensures View() == After(old(View()), es) && line == old(line) + Wired(old(View()), es)
      ensures Undisturbed(old(confirmationStarted), old(stop.samples), old(coordinator.activeOperationId))
      ensures match rx
              case Nothing => es == []
              case Overflow => es == [LoseLink]
              case Frame(f) => |es| == 1 && es[0].Take? && es[0].f == f
      ensures Taken(es) == (if rx.Frame? then [rx.f] else []) && Completions(old(View()), es) == []
      ensures OperationStep(old(coordinator.View()), coordinator.activeOperationId)
      ensures ArmedBy(old(Watching()), old(guard.watchdog.refreshedAt), old(driveSession), old(guard.driver.trace), rx, tickAt)
      ensures AllJustified(old(View()), es, guard.driver.trace, Moment(rx, clock, tickAt, heartbeatAt))
      ensures heartbeatAt == if ConfirmsIn(old(View()), es) then clock else old(heartbeatAt)
      ensures synchronized && Idle(rx) ==> old(synchronized) && GoesOn(old(guard.driver.trace), old(Watching()))
    {
      hide Stage, C.Deliver, C.Consistent, Grown, MotionReliableReceiver.View, Completed, Output, Moved, AllJustified, Serves;
      hide PutToMotors, StopRefusedIn, ConfirmsIn;
      ghost var v0 := View();
      IsConsistent();
      ghost var o := Outcome(true, Sent, Sent);
      GrownNot(guard.driver.trace, clock);
      match rx {
        case Nothing =>
          es := [];
          RunOfNone(v0);
          LossesJustified(v0, es, guard.driver.trace, Moment(rx, clock, tickAt, heartbeatAt));
          return;
        case Overflow =>
          ReceiveOverflow();
          es := [LoseLink];
        case Frame(f) =>
          match f {
            case LinkSync(_, _) => o := ReceiveLinkFrame(f, now, tickAt);
            case Heartbeat(_, _) => o := ReceiveLinkFrame(f, now, tickAt);
            case MotionCommand(sequence, body) =>
              if synchronized && body.Some? {
                o := ReceiveCommand(Transaction(sequence, body.value.command, body.value.sessionId));
              }
            case WheelVelocity(_, wheels) =>
              if synchronized && wheels.Some? {
                o := ReceiveWheels(wheels.value, now, tick, tickAt);
              }
            case OtherToStm =>
          }
          es := [Take(f, o)];
      }
      JustifiedOne(v0, es[0], guard.driver.trace, Moment(rx, clock, tickAt, heartbeatAt));
      RunOfOne(v0, es[0]);
      NothingCompleted(v0, es[0]);
      StepsOperation(v0, es[0]);
    }

    /** The last stage of a pass: uart_link_manager_update, and the reset that follows a lost link. */
    method LinkStage(now: u32) returns (ghost es: seq<StmEvent>)
      requires Stage() && now == Clock32(clock)
      modifies this, guard`stopPending, guard.driver, guard.watchdog`armed, stop, coordinator, coordinator.receiver
      ensures Inv() && clock == old(clock) && tickClock == old(tickClock) && driveSession == old(driveSession)
      ensures Since(old(guard.driver.trace), old(Watching()))
      ensures Undisturbed(old(confirmationStarted), old(stop.samples), old(coordinator.activeOperationId))
      ensures View() == After(old(View()), es) && line == old(line) + Wired(old(View()), es)
      ensures Taken(es) == [] && Completions(old(View()), es) == []
      ensures coordinator.activeOperationId in {0, old(coordinator.activeOperationId)}
      ensures heartbeatAt == old(heartbeatAt)
      ensures old(synchronized) && clock - old(heartbeatAt) < 1000 ==> es == []
      ensures old(synchronized) && clock - old(heartbeatAt) >= 1000 ==> es == [LoseLink] && !synchronized
      ensures !old(synchronized) ==> es == []
      ensures synchronized ==> old(synchronized) && GoesOn(old(guard.driver.trace), old(Watching()))
    {
      hide C.Consistent, C.Deliver, S.MotionStop.Valid, C.MotionLifecycleCoordinator.Valid;
      hide CommandGuard.Ready, StopRefused, Grown;
      hide MotionReliableReceiver.View, MotorDriver.Energised, StmStep, Completed;
      ghost var v0, before := View(), coordinator.View();
      GrownNot(guard.driver.trace, clock);
      es := [];
      RunOfNone(v0);
      if !linkInitialized || !synchronized {
        return;
      }
      ElapsedOfClocks(clock, heartbeatAt);
      if Elapsed32(now, lastHeartbeatMs) < heartbeatTimeoutMs {
        return;
      }
      synchronized := false;
      var _ := StopNow();
      ResetManager();
      C.ResetKeepsConsistent(before);
      es := [LoseLink];
      RunOfOne(v0, LoseLink);
      LoseEvent(v0);
      NothingCompleted(v0, LoseLink);
    }

    /** The second and third stage together. */
    method ReceiveAndSupervise(rx: Received, now: u32, tick: u32, ghost tickAt: nat) returns (ghost es: seq<StmEvent>)
      requires Stage() && now == Clock32(clock) && tick == Clock32(tickAt) && tickClock <= tickAt
      modifies this, guard, guard.driver, guard.watchdog, stop, coordinator, coordinator.receiver
      ensures Inv() && clock == old(clock) && tickClock in {old(tickClock), tickAt}
      ensures Grown(old(guard.driver.trace), guard.driver.trace, clock)
      ensures View() == After(old(View()), es) && line == old(line) + Wired(old(View()), es)
      ensures Undisturbed(old(confirmationStarted), old(stop.samples), old(coordinator.activeOperationId))
      ensures Taken(es) == (if rx.Frame? then [rx.f] else []) && Completions(old(View()), es) == []
      ensures OperationStep(old(coordinator.View()), coordinator.activeOperationId)
      ensures ArmedBy(old(Watching()), old(guard.watchdog.refreshedAt), old(driveSession), old(guard.driver.trace), rx, tickAt)
      ensures AllJustified(old(View()), es, guard.driver.trace, Moment(rx, clock, tickAt, heartbeatAt))
      ensures heartbeatAt == if ConfirmsIn(old(View()), es) then clock else old(heartbeatAt)
      ensures synchronized && Idle(rx) ==> old(synchronized) && GoesOn(old(guard.driver.trace), old(Watching()))
    {
      hide StmStep, After, Wired, Taken, Completions, Grown, Stage, Inv, DrivesAs, WheelsFor, MotionReliableReceiver.View;
      hide AllJustified, ConfirmsIn, StopRefusedIn;
      ghost var v0, t0 := View(), guard.driver.trace;
      IsConsistent();
      ghost var e1 := ReceiveStage(rx, now, tick, tickAt);
      ghost var t1 := guard.driver.trace;
      ghost var e2 := LinkStage(now);
      GrownTwice(t0, t1, guard.driver.trace, clock);
      es := e1 + e2;
      StagesCompose(v0, e1, e2);
      ghost var x := Moment(rx, clock, tickAt, heartbeatAt);
      LossesJustified(After(v0, e1), e2, guard.driver.trace, x);
      StagesJustified(v0, e1, e2, t1, guard.driver.trace, clock, x);
    }

    /** One pass of the main loop, whatever the port, the transmitter, the encoders and the line do. The motors
        are safe at its end; only an accepted wheel command arms the watchdog; a running stop confirmation gains exactly
        one reading however many commands arrive, and goes on with its operation until its readings decide; the pass
        performs a sequence of protocol events in which the delivered frame is taken once. */
    method Pass(now: u32, ghost at: nat, first: S.Counts, second: S.Counts, rx: Received, tick: u32, ghost tickAt: nat)
      returns (ghost es: seq<StmEvent>)
      requires Inv() && tickClock <= at <= clock + S.MAX_GAP_MS && now == Clock32(at)
      requires at <= tickAt && tick == Clock32(tickAt)
      modifies this, guard, guard.driver, guard.watchdog, stop, coordinator, coordinator.receiver
      ensures Inv() && MotorSafe() && clock == at && tickClock <= tickAt
      ensures View() == After(old(View()), es) && line == old(line) + Wired(old(View()), es)
      ensures Taken(es) == if rx.Frame? then [rx.f] else []
      ensures Grown(old(guard.driver.trace), guard.driver.trace, at)
      ensures var readings := Confirmation(old(confirmationStarted), old(stop.samples), at, first, second);
              && (confirmationStarted ==> stop.samples == readings && S.Decision(readings) == None)
              && Judged(Completions(old(View()), es), readings, guard.driver.trace.accepted)
      ensures confirmationStarted <==>
                old(coordinator.activeOperationId) != 0 && coordinator.activeOperationId == old(coordinator.activeOperationId)
      ensures Completions(old(View()), es) != [] ==> old(coordinator.activeOperationId) != 0
      ensures ArmedBy(old(Watching()), old(guard.watchdog.refreshedAt), old(driveSession), old(guard.driver.trace), rx, tickAt)
      ensures AllJustified(old(View()), es, guard.driver.trace, Moment(rx, at, tickAt, heartbeatAt))
      ensures heartbeatAt == if ConfirmsIn(old(View()), es) then at else old(heartbeatAt)
      ensures old(Watching()) && at - old(guard.watchdog.refreshedAt) < 250 && synchronized && Idle(rx) ==>
                GoesOn(old(guard.driver.trace), true)
    {
      hide C.Consistent, C.Deliver, MotionReliableReceiver.View, DrivesAs, WheelsFor, OperationStep;
      hide StmStep, After, Wired, Taken, Completions, Judged, Grown, S.Decision, Stage, Inv, MotorSafe;
      hide AllJustified, ConfirmsIn, StopRefusedIn;
      ghost var v0, t0 := View(), guard.driver.trace;
      InvIsStage();
      IsConsistent();
      ghost var e1 := UpdateStage(now, at, first, second);
      ghost var t1, c1, s1 := guard.driver.trace, coordinator.View(), confirmationStarted;
      ghost var e2 := ReceiveAndSupervise(rx, now, tick, tickAt);
      SameOperation(v0.coordinator, c1, coordinator.activeOperationId, s1, confirmationStarted);
      GrownTwice(t0, t1, guard.driver.trace, at);
      es := e1 + e2;
      StagesCompose(v0, e1, e2);
      ghost var x := Moment(rx, at, tickAt, heartbeatAt);
      PassJustified(v0, e1, e2, t1, guard.driver.trace, x);
      ghost var readings := Confirmation(old(confirmationStarted), old(stop.samples), at, first, second);
      JudgedLater(Completions(v0, e1), readings, t1, guard.driver.trace);
      MotorsAreSafe();
    }

    lemma InvIsStage()
      requires Inv()
      ensures Stage()
    {
    }

    lemma MotorsAreSafe()
      requires Inv()
      ensures MotorSafe()
    {
    }
  }

  lemma StagesCompose(v: Stm, a: seq<StmEvent>, b: seq<StmEvent>)
    ensures After(v, a + b) == After(After(v, a), b)
    ensures Wired(v, a + b) == Wired(v, a) + Wired(After(v, a), b)
    ensures Taken(a + b) == Taken(a) + Taken(b)
    ensures Completions(After(v, a), b) == [] ==> Completions(v, a + b) == Completions(v, a)
  {
    hide *;
    AfterBoth(v, a, b);
    TakenBoth(a, b);
    CompletionsBoth(v, a, b);
  }

  /** A rest found during a pass is still one at its end. */
  lemma JudgedLater(cs: seq<Completion>, readings: seq<S.Sample>, t: Trace, u: Trace)
    requires Judged(cs, readings, t.accepted) && |readings| >= 1 && Grown(t, u, readings[|readings| - 1].at)
    ensures Judged(cs, readings, u.accepted)
  {
    hide S.Decision, RestBetween, Grown;
    if cs != [] && cs[0].success {
      RestStays(t, u, readings[0].at, readings[|readings| - 1].at);
    }
  }
}
