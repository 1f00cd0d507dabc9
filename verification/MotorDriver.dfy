/**
 The DRI0041 motor driver and its reversal interlock (firmware/stm32/App/Src/motor_driver_dri0041.c).

 The two wheels run the same state machine side by side; only acceptance by the port is shared.
 */
module MotorDriver {
  import opened Words
  import opened Messages

  const COMMAND_MAX := 1000
  const REVERSAL_BRAKE_MS := 100

  datatype Direction = Stopped | Forward | Reverse

  /** What the port is told about one wheel; zero duty with both inputs low is a brake. */
  datatype Control = Control(duty: u16, in1: bool, in2: bool)

  const BRAKE := Control(0, false, false)

  datatype Wheel = Wheel(direction: Direction, pending: bool, reversal: Direction, startedMs: u32)

  const AT_REST := Wheel(Stopped, false, Stopped, 0)

  function DirectionOf(command: int): Direction
  {
    if command > 0 then Forward else if command < 0 then Reverse else Stopped
  }

  predicate Opposite(a: Direction, b: Direction)
  {
    a != Stopped && b != Stopped && a != b
  }

  predicate InRange(command: int)
  {
    -COMMAND_MAX <= command <= COMMAND_MAX
  }

  /** The control that drives a wheel as commanded. */
  function ControlOf(command: int): (c: Control)
    requires InRange(command)
    ensures Driven(c) == DirectionOf(command) && SignedDuty(c) == command
    ensures command == 0 ==> c == BRAKE
  {
    if command > 0 then Control(command, true, false)
    else if command < 0 then Control(-command, false, true)
    else BRAKE
  }

  /** The direction in which a control energises its wheel. */
  function Driven(c: Control): Direction
  {
    if c.duty == 0 then Stopped
    else if c.in1 && !c.in2 then Forward
    else if c.in2 && !c.in1 then Reverse
    else Stopped
  }

  /** The duty with which a control energises its wheel, negative in reverse. */
  function SignedDuty(c: Control): int
  {
    var duty: int := c.duty;
    if c.in1 && !c.in2 then duty else if c.in2 && !c.in1 then -duty else 0
  }

  /** A control for this command: exactly its duty and direction, or a brake. */
  predicate Serves(c: Control, command: int)
  {
    c == BRAKE || SignedDuty(c) == command
  }

  /** A wheel must be braked now: it is asked to reverse and has not braked for the full interval. */
  predicate Holds(w: Wheel, requested: Direction, now: u32)
  {
    if w.pending then
      || requested == Stopped
      || (requested != w.direction && requested == w.reversal && Elapsed32(now, w.startedMs) < REVERSAL_BRAKE_MS)
    else Opposite(w.direction, requested)
  }

  function Output(w: Wheel, command: int, now: u32): (c: Control)
    requires InRange(command)
    ensures Serves(c, command)
  {
    if Holds(w, DirectionOf(command), now) then BRAKE else ControlOf(command)
  }

  /** The wheel after an apply call, by whether the port accepted the control. */
  function AfterApply(w: Wheel, requested: Direction, now: u32, accepted: bool): Wheel
  {
    if !accepted then w.(pending := w.pending && (requested == Stopped || requested != w.direction))
    else if !w.pending && Opposite(w.direction, requested) then w.(pending := true, reversal := requested, startedMs := now)
    else if w.pending && requested != Stopped && requested != w.direction then
      if requested == w.reversal && Elapsed32(now, w.startedMs) >= REVERSAL_BRAKE_MS
      then w.(pending := false, direction := requested) else w
    else w.(pending := false, direction := requested)
  }

  /** The wheel after an accepted stop. */
  function AfterStop(w: Wheel): Wheel
  {
    w.(pending := false, direction := Stopped)
  }

  // ---------- Histories of one wheel ----------

  datatype Call =
    | Apply(command: int, at: nat, accepted: bool)
    | Stop(at: nat, accepted: bool)

  /** One control the port accepted: when, in which direction it drives, and whether zero was asked for. */
  datatype Entry = Entry(at: nat, driven: Direction, zero: bool)

  function Step(w: Wheel, c: Call): Wheel
    requires c.Apply? ==> InRange(c.command)
  {
    match c
    case Apply(command, at, accepted) => AfterApply(w, DirectionOf(command), Clock32(at), accepted)
    case Stop(_, accepted) => if accepted then AfterStop(w) else w
  }

  function Logged(w: Wheel, c: Call): seq<Entry>
    requires c.Apply? ==> InRange(c.command)
  {
    if !c.accepted then []
    else match c
      case Apply(command, at, _) => [Entry(at, Driven(Output(w, command, Clock32(at))), DirectionOf(command) == Stopped)]
      case Stop(at, _) => [Entry(at, Stopped, true)]
  }

  /** When the last call was made. */
  function LastAt(cs: seq<Call>): nat
  {
    if cs == [] then 0 else cs[|cs| - 1].at
  }

  /** Calls are in range and their clock readings do not run backwards. */
  predicate Calls(cs: seq<Call>)
  {
    if cs == [] then true
    else
      var before, c := cs[..|cs| - 1], cs[|cs| - 1];
      Calls(before) && LastAt(before) <= c.at && (c.Apply? ==> InRange(c.command))
  }

  function Run(cs: seq<Call>): (Wheel, seq<Entry>)
    requires Calls(cs)
  {
    if cs == [] then (AT_REST, [])
    else
      var (w, log) := Run(cs[..|cs| - 1]);
      (Step(w, cs[|cs| - 1]), log + Logged(w, cs[|cs| - 1]))
  }

  lemma {:induction false} RunExtended(cs: seq<Call>, c: Call)
    requires Calls(cs) && LastAt(cs) <= c.at && (c.Apply? ==> InRange(c.command))
    ensures Calls(cs + [c]) && LastAt(cs + [c]) == c.at
    ensures Run(cs + [c]) == (Step(Run(cs).0, c), Run(cs).1 + Logged(Run(cs).0, c))
  {
    var cs' := cs + [c];
    assert cs'[..|cs|] == cs && cs'[|cs'| - 1] == c;
  }

  /** The direction of the last accepted drive, unless zero was asked for since. */
  function Effective(log: seq<Entry>): Direction
  {
    if log == [] then Stopped
    else
      var e := log[|log| - 1];
      if e.driven != Stopped then e.driven
      else if e.zero then Stopped
      else Effective(log[..|log| - 1])
  }

  /** From `b` on the wheel has only been braked for a reversal. */
  predicate BrakedFrom(log: seq<Entry>, b: int)
  {
    forall i :: 0 <= b <= i < |log| ==> log[i].driven == Stopped && !log[i].zero
  }

  ghost predicate Inv(w: Wheel, log: seq<Entry>, now: nat)
  {
    && w.direction == Effective(log)
    && (forall i :: 0 <= i < |log| ==> log[i].at <= now && (log[i].zero ==> log[i].driven == Stopped))
    && (w.direction == Stopped ==> log == [] || log[|log| - 1].zero)
    && (w.pending ==>
          && Opposite(w.direction, w.reversal)
          && exists b :: 0 <= b < |log| && BrakedFrom(log, b) && w.startedMs == Clock32(log[b].at))
  }

  lemma {:induction false} StepKeeps(w: Wheel, log: seq<Entry>, now: nat, c: Call)
    requires Inv(w, log, now) && now <= c.at && (c.Apply? ==> InRange(c.command))
    ensures Inv(Step(w, c), log + Logged(w, c), c.at)
  {
    if !c.accepted {
      assert log + Logged(w, c) == log;
    } else {
      var e := Logged(w, c)[0];
      var log' := log + [e];
      assert log'[..|log|] == log && log'[|log|] == e;
      assert Effective(log') == if e.driven != Stopped then e.driven else if e.zero then Stopped else Effective(log);
      if Step(w, c).pending {
        PendingKeeps(w, log, now, c, e);
      }
    }
  }

  lemma {:induction false} PendingKeeps(w: Wheel, log: seq<Entry>, now: nat, c: Call, e: Entry)
    requires Inv(w, log, now) && c.accepted && (c.Apply? ==> InRange(c.command)) && Logged(w, c) == [e]
    requires Step(w, c).pending
    ensures Opposite(Step(w, c).direction, Step(w, c).reversal)
    ensures exists b :: 0 <= b < |log + [e]| && BrakedFrom(log + [e], b) && Step(w, c).startedMs == Clock32((log + [e])[b].at)
  {
    var log' := log + [e];
    if w.pending {
      var b :| 0 <= b < |log| && BrakedFrom(log, b) && w.startedMs == Clock32(log[b].at);
      assert BrakedFrom(log', b) && log'[b] == log[b];
    } else {
      assert BrakedFrom(log', |log|) && log'[|log|] == e;
    }
  }

  lemma {:induction false} RunKeeps(cs: seq<Call>)
    requires Calls(cs)
    ensures Inv(Run(cs).0, Run(cs).1, LastAt(cs))
  {
    if cs != [] {
      var before := cs[..|cs| - 1];
      RunKeeps(before);
      StepKeeps(Run(before).0, Run(before).1, LastAt(before), cs[|cs| - 1]);
    }
  }

  /** Between two accepted controls nothing but braking happens. */
  predicate OnlyBrakesBetween(log: seq<Entry>, i: int, j: int)
  {
    forall k :: 0 <= i < k < j < |log| ==> log[k].driven == Stopped
  }

  predicate NoZeroBetween(log: seq<Entry>, i: int, j: int)
  {
    forall k :: 0 <= i < k < j < |log| ==> !log[k].zero
  }

  /** A brake between `i` and `j` was accepted at least the interval before `j`. */
  predicate LongBrakeBetween(log: seq<Entry>, i: int, j: int)
    requires 0 <= i < j < |log|
  {
    exists b :: i < b < j && log[j].at - log[b].at >= 100
  }

  lemma {:induction false} EffectiveOfLastDrive(log: seq<Entry>, i: nat)
    requires i < |log| && log[i].driven != Stopped
    requires forall k :: i < k < |log| ==> log[k].driven == Stopped && !log[k].zero
    ensures Effective(log) == log[i].driven
  {
    if i < |log| - 1 {
      EffectiveOfLastDrive(log[..|log| - 1], i);
    }
  }

  /** In every history of a wheel, under any port failures: two consecutive accepted controls never drive
      in opposite directions, and without an explicit zero or stop in between, a reversed drive comes at
      least 100 ms after an accepted brake. */
  lemma {:induction false} ReversalInterlock(cs: seq<Call>, i: nat, j: nat)
    requires Calls(cs) && i < j < |Run(cs).1|
    requires Opposite(Run(cs).1[i].driven, Run(cs).1[j].driven) && OnlyBrakesBetween(Run(cs).1, i, j)
    ensures i + 1 < j
    ensures NoZeroBetween(Run(cs).1, i, j) ==> LongBrakeBetween(Run(cs).1, i, j)
  {
    var before, c := cs[..|cs| - 1], cs[|cs| - 1];
    var (w, log) := Run(before);
    var log' := Run(cs).1;
    if j < |log| {
      assert forall k :: 0 <= k < |log| ==> log'[k] == log[k];
      ReversalInterlock(before, i, j);
      if LongBrakeBetween(log, i, j) {
        var b :| i < b < j && log[j].at - log[b].at >= 100;
        assert log'[j].at - log'[b].at >= 100;
      }
    } else {
      assert j == |log| && forall k :: 0 <= k < |log| ==> log'[k] == log[k];
      RunKeeps(before);
      if i == |log| - 1 {
        assert false;
      }
      if NoZeroBetween(log', i, j) {
        forall k | i < k < |log|
          ensures log[k].driven == Stopped && !log[k].zero
        {
          assert log'[k] == log[k];
        }
        EffectiveOfLastDrive(log, i);
        var b :| 0 <= b < |log| && BrakedFrom(log, b) && w.startedMs == Clock32(log[b].at);
        ElapsedOfClocks(c.at, log[b].at);
        assert i < b && log'[j].at - log'[b].at >= 100;
      }
    }
  }

  /** A command that asks for no reversal, from the last drive in force, is passed on as it is: same duty, same direction. */
  lemma {:induction false} PassedOnAsAsked(cs: seq<Call>, command: int, at: nat)
    requires Calls(cs) && LastAt(cs) <= at && InRange(command)
    requires !Opposite(Effective(Run(cs).1), DirectionOf(command))
    ensures SignedDuty(Output(Run(cs).0, command, Clock32(at))) == command
  {
    RunKeeps(cs);
  }

  /** And a reversal is passed on once the wheel has been braked for it for 100 ms: first asked at the end of `cs` and
      accepted as a brake, asked again that much later, less than a clock period. */
  lemma {:induction false} ReversalGoesThrough(cs: seq<Call>, first: int, at: nat, again: int, later: nat)
    requires Calls(cs) && LastAt(cs) <= at && InRange(first) && InRange(again)
    requires Opposite(Effective(Run(cs).1), DirectionOf(first)) && !Run(cs).0.pending
    requires DirectionOf(again) == DirectionOf(first) && 100 <= later - at < TWO32
    ensures Calls(cs + [Apply(first, at, true)])
    ensures var more := cs + [Apply(first, at, true)];
            && Run(more).1 == Run(cs).1 + [Entry(at, Stopped, false)]
            && SignedDuty(Output(Run(more).0, again, Clock32(later))) == again
  {
    RunKeeps(cs);
    RunExtended(cs, Apply(first, at, true));
    ElapsedOfClocks(later, at);
  }

  /** The interval promised for every reversal is not given after an explicit zero: forward, zero, reverse
      within two milliseconds is accepted as asked. */
  lemma ZeroDefeatsTheInterval() returns (cs: seq<Call>)
    ensures Calls(cs) && |Run(cs).1| == 3
    ensures Opposite(Run(cs).1[0].driven, Run(cs).1[2].driven) && OnlyBrakesBetween(Run(cs).1, 0, 2)
    ensures !LongBrakeBetween(Run(cs).1, 0, 2)
  {
    var a, b, c := Apply(100, 0, true), Apply(0, 1, true), Apply(-100, 2, true);
    RunExtended([], a);
    RunExtended([] + [a], b);
    RunExtended([] + [a] + [b], c);
    cs := [] + [a] + [b] + [c];
    assert Run([] + [a]).0 == Wheel(Forward, false, Stopped, 0);
    assert Run([] + [a] + [b]).0 == Wheel(Stopped, false, Stopped, 0);
    assert Run(cs).1 == [Entry(0, Forward, false), Entry(1, Stopped, true), Entry(2, Reverse, false)];
  }

  /** Where the last accepted drive stands in the log. */
  predicate LastDriveAt(log: seq<Entry>, i: int)
  {
    0 <= i < |log| && log[i].driven != Stopped && forall k :: i < k < |log| ==> log[k].driven == Stopped
  }

  predicate ZeroedSince(log: seq<Entry>, i: int)
  {
    exists k :: 0 <= i < k < |log| && log[k].zero
  }

  /** The wheel has been braked since its last drive, at least the interval before `at`. */
  predicate BrakedLongEnough(log: seq<Entry>, i: int, at: nat)
  {
    0 <= i && i + 1 < |log| && at - log[i + 1].at >= 100
  }

  /** Exactly when the interval fails: an accepted reversal drives before the wheel has braked long enough
      if and only if zero or stop was accepted since the last drive and it comes that early. */
  lemma {:induction false} IntervalFailsIff(cs: seq<Call>, i: nat, command: int, at: nat)
    requires Calls(cs) && LastAt(cs) <= at && InRange(command)
    requires LastDriveAt(Run(cs).1, i) && Opposite(Run(cs).1[i].driven, DirectionOf(command))
    ensures Driven(Output(Run(cs).0, command, Clock32(at))) != Stopped && !BrakedLongEnough(Run(cs).1, i, at) <==>
            ZeroedSince(Run(cs).1, i) && !BrakedLongEnough(Run(cs).1, i, at)
  {
    RunKeeps(cs);
    var w, log := Run(cs).0, Run(cs).1;
    if ZeroedSince(log, i) {
      var k :| i < k < |log| && log[k].zero;
      ZeroedIsStopped(log, i, k, w);
    } else {
      EffectiveOfLastDrive(log, i);
      if w.pending {
        var b :| 0 <= b < |log| && BrakedFrom(log, b) && w.startedMs == Clock32(log[b].at);
        ElapsedOfClocks(at, log[b].at);
        LogIsOrdered(cs, i + 1, b);
      }
    }
  }

  lemma {:induction false} LogIsOrdered(cs: seq<Call>, i: nat, j: nat)
    requires Calls(cs) && i <= j < |Run(cs).1|
    ensures Run(cs).1[i].at <= Run(cs).1[j].at
  {
    var before := cs[..|cs| - 1];
    RunKeeps(before);
    if j < |Run(before).1| {
      LogIsOrdered(before, i, j);
    }
  }

  /** Once zero was accepted after the last drive, only further zeroes can have followed. */
  lemma {:induction false} ZeroedIsStopped(log: seq<Entry>, i: nat, k: nat, w: Wheel)
    requires LastDriveAt(log, i) && i < k < |log| && log[k].zero
    requires w.direction == Effective(log) && (w.pending ==> Opposite(w.direction, w.reversal))
    ensures w.direction == Stopped && !w.pending
  {
    EffectiveAfterZero(log, i, k);
  }

  lemma {:induction false} EffectiveAfterZero(log: seq<Entry>, i: nat, k: nat)
    requires LastDriveAt(log, i) && i < k < |log| && log[k].zero
    ensures Effective(log) == Stopped
  {
    if k < |log| - 1 && !log[|log| - 1].zero {
      EffectiveAfterZero(log[..|log| - 1], i, k);
    }
  }

  // ---------- What the port was asked and accepted ----------

  /** A control the port accepted for both wheels. */
  datatype Accepted = Accepted(at: nat, left: Control, right: Control)

  /** A control that was put to the port, taken or refused. */
  datatype Offer = Offer(control: Accepted, taken: bool)

  /** Everything the driver was asked for each wheel, everything it put to the port, and everything the port accepted. */
  datatype Trace = Trace(left: seq<Call>, right: seq<Call>, offers: seq<Offer>, accepted: seq<Accepted>)

  const NO_TRACE := Trace([], [], [], [])

  predicate Drives(a: Accepted)
  {
    Driven(a.left) != Stopped || Driven(a.right) != Stopped
  }

  /** Some wheel is energised by the control now in force; before the first one the port is at rest. */
  predicate Energises(accepted: seq<Accepted>)
  {
    accepted != [] && Drives(accepted[|accepted| - 1])
  }

  /** The calls that the port accepted. */
  function AcceptedCalls(cs: seq<Call>): seq<Call>
  {
    if cs == [] then []
    else AcceptedCalls(cs[..|cs| - 1]) + if cs[|cs| - 1].accepted then [cs[|cs| - 1]] else []
  }

  /** A control that answers a call: it serves the command asked for, and a stop is a brake. */
  predicate AnswersCall(a: Accepted, c: Call, leftSide: bool)
  {
    && a.at == c.at
    && var control := if leftSide then a.left else a.right;
       if c.Apply? then Serves(control, c.command) else control == BRAKE
  }

  /** Each control the port accepted answers the call that was accepted then, in duty and direction. */
  ghost predicate Obeyed(cs: seq<Call>, accepted: seq<Accepted>, leftSide: bool)
  {
    && |AcceptedCalls(cs)| == |accepted|
    && forall i :: 0 <= i < |accepted| ==> AnswersCall(accepted[i], AcceptedCalls(cs)[i], leftSide)
  }

  lemma {:induction false} ObeyedMore(cs: seq<Call>, c: Call, accepted: seq<Accepted>, out: seq<Accepted>, leftSide: bool)
    requires Obeyed(cs, accepted, leftSide)
    requires if c.accepted then |out| == 1 && AnswersCall(out[0], c, leftSide) else out == []
    ensures Obeyed(cs + [c], accepted + out, leftSide)
  {
    hide AnswersCall;
    assert (cs + [c])[..|cs|] == cs;
  }

  /** The histories of the wheels account for what the port accepted. */
  ghost predicate Mirrors(log: seq<Entry>, accepted: seq<Accepted>, leftSide: bool)
  {
    && |log| == |accepted|
    && forall i :: 0 <= i < |log| ==>
         log[i].at == accepted[i].at && log[i].driven == Driven(if leftSide then accepted[i].left else accepted[i].right)
  }

  ghost predicate Explains(t: Trace, l: Wheel, r: Wheel)
  {
    && Calls(t.left) && Calls(t.right) && LastAt(t.left) == LastAt(t.right)
    && Run(t.left).0 == l && Run(t.right).0 == r
    && Mirrors(Run(t.left).1, t.accepted, true) && Mirrors(Run(t.right).1, t.accepted, false)
    && Obeyed(t.left, t.accepted, true) && Obeyed(t.right, t.accepted, false)
  }

  lemma NothingExplained()
    ensures Explains(NO_TRACE, AT_REST, AT_REST)
  {
  }

  /** One more call, made of both wheels at once and accepted or refused for both. */
  lemma {:induction false} ExplainsMore(t: Trace, l: Wheel, r: Wheel, a: Call, b: Call, out: seq<Accepted>, offers: seq<Offer>)
    requires Explains(t, l, r) && LastAt(t.left) <= a.at == b.at && a.accepted == b.accepted
    requires (a.Apply? ==> InRange(a.command)) && (b.Apply? ==> InRange(b.command))
    requires if a.accepted
             then |out| == 1 && out[0].at == a.at
                  && Driven(out[0].left) == Logged(l, a)[0].driven && Driven(out[0].right) == Logged(r, b)[0].driven
                  && AnswersCall(out[0], a, true) && AnswersCall(out[0], b, false)
             else out == []
    ensures Explains(Trace(t.left + [a], t.right + [b], offers, t.accepted + out), Step(l, a), Step(r, b))
  {
    hide Calls, Run, Step, LastAt, Obeyed, AnswersCall;
    ObeyedMore(t.left, a, t.accepted, out, true);
    ObeyedMore(t.right, b, t.accepted, out, false);
    RunExtended(t.left, a);
    RunExtended(t.right, b);
  }

  /** In every trace the port was never told to reverse a wheel directly. */
  lemma {:induction false} NeverReversedDirectly(t: Trace, l: Wheel, r: Wheel, i: nat)
    requires Explains(t, l, r) && i + 1 < |t.accepted|
    ensures !Opposite(Driven(t.accepted[i].left), Driven(t.accepted[i + 1].left))
    ensures !Opposite(Driven(t.accepted[i].right), Driven(t.accepted[i + 1].right))
  {
    hide Calls, Run, Obeyed;
    if Opposite(Run(t.left).1[i].driven, Run(t.left).1[i + 1].driven) {
      ReversalInterlock(t.left, i, i + 1);
    }
    if Opposite(Run(t.right).1[i].driven, Run(t.right).1[i + 1].driven) {
      ReversalInterlock(t.right, i, i + 1);
    }
  }

  /** No wheel has been energised since `t`. */
  ghost predicate RestSince(accepted: seq<Accepted>, t: nat)
  {
    forall i :: 0 <= i < |accepted| && (i + 1 < |accepted| ==> accepted[i + 1].at > t) ==> !Drives(accepted[i])
  }

  /** No wheel was energised at any time from `t` up to `u`: a control that was in force then drives neither. */
  ghost predicate RestBetween(accepted: seq<Accepted>, t: nat, u: nat)
  {
    forall i :: 0 <= i < |accepted| && accepted[i].at < u && (i + 1 < |accepted| ==> accepted[i + 1].at > t) ==>
      !Drives(accepted[i])
  }

  /** The port was offered and has accepted more, nothing accepted of it before `from`. */
  ghost predicate Grown(before: Trace, after: Trace, from: nat)
  {
    && before.offers <= after.offers && before.accepted <= after.accepted
    && forall i :: |before.accepted| <= i < |after.accepted| ==> after.accepted[i].at >= from
  }

  lemma GrownTwice(a: Trace, b: Trace, c: Trace, from: nat)
    requires Grown(a, b, from) && Grown(b, c, from)
    ensures Grown(a, c, from)
  {
    forall i | |a.accepted| <= i < |c.accepted|
      ensures c.accepted[i].at >= from
    {
      if i < |b.accepted| {
        assert c.accepted[i] == b.accepted[i];
      }
    }
  }

  lemma GrownNot(t: Trace, from: nat)
    ensures Grown(t, t, from)
  {
  }

  lemma GrownEarlier(a: Trace, b: Trace, from: nat, earlier: nat)
    requires Grown(a, b, from) && earlier <= from
    ensures Grown(a, b, earlier)
  {
  }

  lemma RestSoFar(accepted: seq<Accepted>, since: nat, t: nat, u: nat)
    requires RestSince(accepted, since) && since <= t
    ensures RestBetween(accepted, t, u)
  {
  }

  /** A past rest stays one whatever the port accepts later. */
  lemma RestStays(a: Trace, b: Trace, t: nat, u: nat)
    requires RestBetween(a.accepted, t, u) && Grown(a, b, u)
    ensures RestBetween(b.accepted, t, u)
  {
    forall i | 0 <= i < |b.accepted| && b.accepted[i].at < u && (i + 1 < |b.accepted| ==> b.accepted[i + 1].at > t)
      ensures !Drives(b.accepted[i])
    {
      assert i < |a.accepted| && a.accepted[i] == b.accepted[i];
      if i + 1 < |a.accepted| {
        assert a.accepted[i + 1] == b.accepted[i + 1];
      }
      assert !Drives(a.accepted[i]);
    }
  }

  /** Nothing was accepted after the last call. */
  lemma AcceptedByThen(t: Trace, l: Wheel, r: Wheel)
    requires Explains(t, l, r)
    ensures forall i :: 0 <= i < |t.accepted| ==> t.accepted[i].at <= LastAt(t.left)
  {
    hide Run, Calls, LastAt, Obeyed;
    RunKeeps(t.left);
    forall i | 0 <= i < |t.accepted|
      ensures t.accepted[i].at <= LastAt(t.left)
    {
      assert Run(t.left).1[i].at == t.accepted[i].at;
    }
  }

  // ---------- The driver ----------

  datatype Command = Command(left: i16, right: i16)

  class MotorDriver {
    var initialized: bool
    var left: Wheel
    var right: Wheel
    ghost var trace: Trace
    /** When the present rest began, while no wheel is energised. */
    ghost var brakedSince: nat

    ghost predicate Valid()
      reads this
    {
      Explains(trace, left, right) && (!Energised() ==> RestSince(trace.accepted, brakedSince))
    }

    ghost predicate Energised()
      reads this
    {
      Energises(trace.accepted)
    }

    /** When it was last called. */
    ghost function CalledAt(): nat
      reads this
    {
      LastAt(trace.left)
    }

    /** A rest that lasts keeps its beginning; one that begins does so at `at`. */
    ghost predicate RestKept(wasEnergised: bool, wasBrakedSince: nat, at: nat)
      reads this
    {
      && brakedSince in {wasBrakedSince, at}
      && (!Energised() ==> brakedSince == if wasEnergised then at else wasBrakedSince)
    }

    constructor (portOk: bool)
      ensures Valid() && initialized == portOk && left == right == AT_REST && trace == NO_TRACE && brakedSince == 0
    {
      initialized := portOk;
      left, right := AT_REST, AT_REST;
      trace, brakedSince := NO_TRACE, 0;
      new;
      NothingExplained();
    }

    /** The port may refuse any control; a refused control leaves the previous one in force. */
    method PortApply(l: Control, r: Control, ghost at: nat) returns (ok: bool)
      requires !Energised() ==> RestSince(trace.accepted, brakedSince)
      requires forall i :: 0 <= i < |trace.accepted| ==> trace.accepted[i].at <= at
      modifies this`trace, this`brakedSince
      ensures RestKept(old(Energised()), old(brakedSince), at)
      ensures !Energised() ==> RestSince(trace.accepted, brakedSince)
      ensures trace == Trace(old(trace).left, old(trace).right, old(trace).offers + [Offer(Accepted(at, l, r), ok)],
                             old(trace).accepted + if ok then [Accepted(at, l, r)] else [])
    {
      ok := *;
      if ok {
        if Energised() {
          brakedSince := at;
        }
        trace := trace.(accepted := trace.accepted + [Accepted(at, l, r)]);
      }
      trace := trace.(offers := trace.offers + [Offer(Accepted(at, l, r), ok)]);
    }

    /** Decisions taken for one wheel before the port is asked. */
    static method PlanWheel(w: Wheel, command: int, now: u32) returns (w': Wheel, control: Control, start: bool)
      requires InRange(command)
      ensures control == Output(w, command, now)
      ensures start <==> !w.pending && Opposite(w.direction, DirectionOf(command))
      ensures w' == w.(pending := w.pending && (DirectionOf(command) == Stopped || DirectionOf(command) != w.direction))
    {
      var requested := DirectionOf(command);
      w', control, start := w, ControlOf(command), false;
      if w.pending {
        if requested == Stopped {
          control := BRAKE;
        } else if requested == w.direction {
          w' := w'.(pending := false);
        } else if requested == w.reversal {
          if Elapsed32(now, w.startedMs) < REVERSAL_BRAKE_MS {
            control := BRAKE;
          }
        }
      } else if Opposite(w.direction, requested) {
        control := BRAKE;
        start := true;
      }
    }

    /** Bookkeeping for one wheel after the port accepted. */
    static method CommitWheel(w: Wheel, ghost before: Wheel, requested: Direction, now: u32, start: bool) returns (w': Wheel)
      requires start <==> !before.pending && Opposite(before.direction, requested)
      requires w == before.(pending := before.pending && (requested == Stopped || requested != before.direction))
      ensures w' == AfterApply(before, requested, now, true)
    {
      w' := w;
      if start {
        w' := w'.(pending := true, reversal := requested, startedMs := now);
      } else if w.pending {
        if requested == Stopped {
          w' := w'.(pending := false, direction := Stopped);
        } else if requested == w.direction {
          w' := w'.(pending := false);
        } else if requested == w.reversal && Elapsed32(now, w.startedMs) >= REVERSAL_BRAKE_MS {
          w' := w'.(pending := false, direction := requested);
        }
      } else {
        w' := w'.(direction := requested);
      }
    }

    /** Each wheel takes one step of its history, both with the same verdict of the port. */
    method ApplyCommand(command: Command, now: u32, ghost at: nat) returns (ok: bool)
      requires Valid() && now == Clock32(at) && CalledAt() <= at
      modifies this`left, this`right, this`trace, this`brakedSince
      ensures Valid() && RestKept(old(Energised()), old(brakedSince), at)
      ensures !initialized || !InRange(command.left) || !InRange(command.right) ==> !ok && unchanged(this)
      ensures initialized && InRange(command.left) && InRange(command.right) ==>
                && left == Step(old(left), Apply(command.left, at, ok))
                && right == Step(old(right), Apply(command.right, at, ok))
                && trace.left == old(trace).left + [Apply(command.left, at, ok)]
                && trace.right == old(trace).right + [Apply(command.right, at, ok)]
                && var out := Accepted(at, Output(old(left), command.left, now), Output(old(right), command.right, now));
                   && trace.offers == old(trace).offers + [Offer(out, ok)]
                   && trace.accepted == old(trace).accepted + if ok then [out] else []
    {
      hide Explains, Run, Calls;
      if !initialized {
        return false;
      }
      if !InRange(command.left) || !InRange(command.right) {
        return false;
      }
      ghost var l0, r0, t0 := left, right, trace;
      var leftOut, rightOut, startLeft, startRight;
      left, leftOut, startLeft := PlanWheel(left, command.left, now);
      right, rightOut, startRight := PlanWheel(right, command.right, now);
      AcceptedByThen(t0, l0, r0);
      ok := PortApply(leftOut, rightOut, at);
      if ok {
        left := CommitWheel(left, l0, DirectionOf(command.left), now, startLeft);
        right := CommitWheel(right, r0, DirectionOf(command.right), now, startRight);
      }
      ghost var a, b := Apply(command.left, at, ok), Apply(command.right, at, ok);
      ExplainsMore(t0, l0, r0, a, b, trace.accepted[|t0.accepted|..], trace.offers);
      trace := trace.(left := t0.left + [a], right := t0.right + [b]);
    }

    method StopMotors(ghost at: nat) returns (ok: bool)
      requires Valid() && CalledAt() <= at
      modifies this`left, this`right, this`trace, this`brakedSince
      ensures Valid() && RestKept(old(Energised()), old(brakedSince), at)
      ensures !initialized ==> !ok && unchanged(this)
      ensures initialized ==>
                && left == Step(old(left), Stop(at, ok)) && right == Step(old(right), Stop(at, ok))
                && trace.left == old(trace).left + [Stop(at, ok)] && trace.right == old(trace).right + [Stop(at, ok)]
                && trace.offers == old(trace).offers + [Offer(Accepted(at, BRAKE, BRAKE), ok)]
                && trace.accepted == old(trace).accepted + if ok then [Accepted(at, BRAKE, BRAKE)] else []
    {
      hide Explains, Run, Calls;
      if !initialized {
        return false;
      }
      ghost var l0, r0, t0 := left, right, trace;
      AcceptedByThen(t0, l0, r0);
      ok := PortApply(BRAKE, BRAKE, at);
      if ok {
        left := left.(pending := false, direction := Stopped);
        right := right.(pending := false, direction := Stopped);
      }
      ExplainsMore(t0, l0, r0, Stop(at, ok), Stop(at, ok), trace.accepted[|t0.accepted|..], trace.offers);
      trace := trace.(left := t0.left + [Stop(at, ok)], right := t0.right + [Stop(at, ok)]);
    }
  }
}
