/**
 The two programs on one line. The client and the main loop run as they are, joined by two queues of frames that may lose
 any frame; the STM32 may reboot at any time. Whatever the schedule, the run is one of the joint protocol, so that the two
 programs agree on the session.
 */
module Robot {
  import opened Words
  import opened Messages
  import opened StmParty
  import opened PiParty
  import opened WheelLog
  import opened MotorDriver
  import opened CommandGuard
  import Firmware
  import A = Agreement
  import C = LifecycleCoordinator
  import L = LinkSession
  import M = MotionSession
  import R = ClientRunner
  import S = MotionStop

  /** How a pass of the main loop finds its receiver: silent, overflowed, or with the frame at the head of the queue. */
  datatype Arrival = Silent | Overflowed | Head

  datatype Move =
    | SetCommand(command: WheelLog.Command)
    | PiPolls(count: nat, gone: bool, token: Token)
    | StmPasses(at: nat, tickAt: nat, first: S.Counts, second: S.Counts, arrival: Arrival)
    | StmReboots
    | LoseToStm(i: nat)
    | LoseToPi(i: nat)

  /** The clock readings of the last pass since the STM32 booted. */
  function LastPass(moves: seq<Move>): (nat, nat)
  {
    if moves == [] then (0, 0)
    else match moves[|moves| - 1]
      case StmPasses(at, tickAt, _, _, _) => (at, tickAt)
      case StmReboots => (0, 0)
      case _ => LastPass(moves[..|moves| - 1])
  }

  function Tokens(moves: seq<Move>): set<Token>
  {
    if moves == [] then {}
    else Tokens(moves[..|moves| - 1]) + if moves[|moves| - 1].PiPolls? then {moves[|moves| - 1].token} else {}
  }

  /** The STM32 clock does not run backwards nor a whole period between passes, and the Pi draws no token twice. */
  predicate Fair(moves: seq<Move>)
  {
    if moves == [] then true
    else
      var before, x := moves[..|moves| - 1], moves[|moves| - 1];
      && Fair(before)
      && (x.StmPasses? ==> LastPass(before).1 <= x.at <= x.tickAt && x.at <= LastPass(before).0 + S.MAX_GAP_MS)
      && (x.PiPolls? ==> x.token !in Tokens(before))
  }

  lemma {:induction false} FairUpTo(moves: seq<Move>, i: nat)
    requires Fair(moves) && i < |moves|
    ensures Fair(moves[..i + 1])
    decreases |moves|
  {
    if i + 1 < |moves| {
      FairUpTo(moves[..|moves| - 1], i);
      assert moves[..|moves| - 1][..i + 1] == moves[..i + 1];
    } else {
      assert moves[..i + 1] == moves;
    }
  }

  lemma FairNext(moves: seq<Move>, i: nat)
    requires Fair(moves) && i < |moves|
    ensures var before, x := moves[..i], moves[i];
            && (x.StmPasses? ==> LastPass(before).1 <= x.at <= x.tickAt && x.at <= LastPass(before).0 + S.MAX_GAP_MS)
            && (x.PiPolls? ==> x.token !in Tokens(before))
            && LastPass(moves[..i + 1]) ==
                 (if x.StmPasses? then (x.at, x.tickAt) else if x.StmReboots? then (0, 0) else LastPass(before))
            && Tokens(moves[..i + 1]) == Tokens(before) + if x.PiPolls? then {x.token} else {}
  {
    FairUpTo(moves, i);
    assert moves[..i + 1][..i] == moves[..i];
  }

  // ---------- Events of one program as steps of the joint protocol ----------

  lemma HearSendsNothing(p: Pi, f: ToPi, now: u32)
    ensures PiStep(p, Hear(f, now)).1 == []
  {
  }

  /** The last event of a run of the client. */
  lemma {:induction false} PiRunLast(es: seq<PiEvent>, e: PiEvent)
    requires PiRun(es + [e]).Some?
    ensures PiRun(es).Some? && PiEnabled(PiRun(es).value.0, e)
    ensures PiRun(es + [e]).value ==
              (PiStep(PiRun(es).value.0, e).0, PiRun(es).value.1 + PiStep(PiRun(es).value.0, e).1)
  {
    hide PiStep, PiEnabled;
    assert (es + [e])[..|es|] == es;
  }

  lemma OpensSplit(es: seq<PiEvent>, e: PiEvent, token: Token)
    requires R.OpensWith(es + [e], token)
    ensures R.OpensWith(es, token) && (e.Open? ==> es == [] && e.token == token)
    ensures Opens(es + [e]) == 0 ==> Opens(es) == 0 && !e.Open?
  {
    EventsMore(es, e);
    if |es + [e]| == 1 {
      assert es == [];
    }
  }

  /** What is left of a queue whose front has been heard. */
  lemma HeadOfRest(heard: seq<ToPi>, f: ToPi, queue: seq<ToPi>)
    requires heard + [f] <= queue
    ensures |heard| < |queue| && queue[|heard|] == f && heard <= queue
    ensures queue[|heard|..] != [] && queue[|heard|..][0] == f && queue[|heard|..][1..] == queue[|heard| + 1..]
  {
    assert (heard + [f])[|heard|] == f;
  }

  /** One more event of the client, after those of `es`. */
  lemma {:induction false} PiMovesOn(labels: seq<A.Label>, z: A.Sys, e: PiEvent, queue: seq<ToPi>, heard: seq<ToPi>)
      returns (labels': seq<A.Label>, z': A.Sys)
    requires A.Run(labels) == Some(z) && PiEnabled(z.pi, e) && (e.Open? ==> e.token !in z.used)
    requires heard <= queue && z.toPi == queue[|heard|..] && (e.Hear? ==> heard + [e.f] <= queue)
    ensures A.Run(labels') == Some(z') && z'.pi == PiStep(z.pi, e).0 && z'.stm == z.stm
    ensures z'.toStm == z.toStm + PiStep(z.pi, e).1
    ensures z'.toPi == queue[if e.Hear? then |heard| + 1 else |heard|..]
    ensures z'.used == if e.Open? then z.used + {e.token} else z.used
  {
    hide PiStep, PiEnabled, A.Run, A.Next;
    if e.Hear? {
      HeadOfRest(heard, e.f, queue);
      HearSendsNothing(z.pi, e.f, e.now);
      labels', z' := PiHearsOne(labels, z, e);
    } else {
      labels', z' := PiDoesOne(labels, z, e);
    }
  }

  /** The client's events, taken one after the other. */
  lemma {:induction false} PiMoves(labels: seq<A.Label>, z: A.Sys, before: seq<PiEvent>, es: seq<PiEvent>,
                                   w: seq<ToStm>, p': Pi, w': seq<ToStm>, token: Token)
      returns (labels': seq<A.Label>, z': A.Sys)
    requires A.Run(labels) == Some(z) && PiRun(before) == Some((z.pi, w)) && PiRun(before + es) == Some((p', w'))
    requires Heard(es) <= z.toPi && R.OpensWith(es, token) && token !in z.used
    ensures A.Run(labels') == Some(z') && z'.pi == p' && z'.stm == z.stm && w <= w'
    ensures z'.toStm == z.toStm + w'[|w|..] && z'.toPi == z.toPi[|Heard(es)|..] && z'.used <= z.used + {token}
    ensures es == [] ==> z'.used == z.used
    decreases |es|
  {
    hide PiStep, PiEnabled, PiRun, Heard, Opens, R.OpensWith, A.Run, A.Next;
    if es == [] {
      assert before + es == before;
      R.NoneHeard();
      labels', z' := labels, z;
    } else {
      var e, es0 := es[|es| - 1], es[..|es| - 1];
      assert es == es0 + [e] && before + es == before + es0 + [e];
      PiRunLast(before + es0, e);
      EventsMore(es0, e);
      OpensSplit(es0, e, token);
      HeardBefore(es0, e, z.toPi);
      var (p1, w1) := PiRun(before + es0).value;
      var labels1, z1 := PiMoves(labels, z, before, es0, w, p1, w1, token);
      labels', z' := PiMovesOn(labels1, z1, e, z.toPi, Heard(es0));
      SentOn(w, w1, PiStep(p1, e).1, z.toStm);
    }
  }

  lemma HeardBefore(es: seq<PiEvent>, e: PiEvent, queue: seq<ToPi>)
    requires Heard(es + [e]) <= queue
    ensures Heard(es) <= queue && (e.Hear? ==> Heard(es) + [e.f] <= queue)
    ensures |Heard(es + [e])| == |Heard(es)| + if e.Hear? then 1 else 0
  {
    hide Heard;
    EventsMore(es, e);
  }

  lemma SentOn(w: seq<ToStm>, w1: seq<ToStm>, out: seq<ToStm>, queue: seq<ToStm>)
    requires w <= w1
    ensures w <= w1 + out && queue + w1[|w|..] + out == queue + (w1 + out)[|w|..]
  {
  }

  lemma PiHearsOne(labels: seq<A.Label>, z: A.Sys, e: PiEvent) returns (labels': seq<A.Label>, z': A.Sys)
    requires A.Run(labels) == Some(z) && e.Hear? && PiEnabled(z.pi, e) && z.toPi != [] && z.toPi[0] == e.f
    ensures A.Run(labels') == Some(z') && z' == z.(pi := PiStep(z.pi, e).0, toPi := z.toPi[1..])
  {
    hide PiStep, A.Run;
    labels' := labels + [A.PiHears(e.now)];
    z' := A.Next(z, A.PiHears(e.now));
    A.RunMore(labels, z, A.PiHears(e.now));
  }

  lemma PiDoesOne(labels: seq<A.Label>, z: A.Sys, e: PiEvent) returns (labels': seq<A.Label>, z': A.Sys)
    requires A.Run(labels) == Some(z) && !e.Hear? && PiEnabled(z.pi, e) && (e.Open? ==> e.token !in z.used)
    ensures A.Run(labels') == Some(z')
    ensures z' == z.(pi := PiStep(z.pi, e).0, toStm := z.toStm + PiStep(z.pi, e).1,
                     used := if e.Open? then z.used + {e.token} else z.used)
  {
    hide PiStep, PiEnabled, A.Run;
    labels' := labels + [A.PiDoes(e)];
    z' := A.Next(z, A.PiDoes(e));
    A.RunMore(labels, z, A.PiDoes(e));
  }

  /** The main loop's events, taken one after the other. */
  lemma {:induction false} StmMoves(labels: seq<A.Label>, z: A.Sys, es: seq<StmEvent>)
      returns (labels': seq<A.Label>, z': A.Sys)
    requires A.Run(labels) == Some(z) && Taken(es) <= z.toStm
    ensures A.Run(labels') == Some(z') && z'.pi == z.pi && z'.used == z.used && z'.stm == After(z.stm, es)
    ensures z'.toPi == z.toPi + Wired(z.stm, es) && z'.toStm == z.toStm[|Taken(es)|..]
    decreases |es|
  {
    hide StmStep, A.Run;
    if es == [] {
      labels', z' := labels, z;
    } else {
      var e, es0 := es[|es| - 1], es[..|es| - 1];
      var labels1, z1 := StmMoves(labels, z, es0);
      if e.Take? {
        assert z1.toStm == z.toStm[|Taken(es0)|..] && z1.toStm[0] == e.f;
      }
      labels', z' := StmDoesOne(labels1, z1, e);
    }
  }

  lemma StmDoesOne(labels: seq<A.Label>, z: A.Sys, e: StmEvent) returns (labels': seq<A.Label>, z': A.Sys)
    requires A.Run(labels) == Some(z) && (e.Take? ==> z.toStm != [] && z.toStm[0] == e.f)
    ensures A.Run(labels') == Some(z')
    ensures z' == z.(stm := StmStep(z.stm, e).0, toPi := z.toPi + StmStep(z.stm, e).1,
                     toStm := if e.Take? then z.toStm[1..] else z.toStm)
  {
    hide StmStep, A.Run;
    var l := match e
      case Finish(success, fate) => A.StmFinishes(success, fate)
      case LoseLink => A.StmLosesLink
      case Take(_, o) => A.StmTakes(o);
    labels' := labels + [l];
    z' := A.Next(z, l);
    A.RunMore(labels, z, l);
  }

  /** Frames that were read and not heard are lost. */
  lemma {:induction false} Unheard(labels: seq<A.Label>, z: A.Sys, n: nat) returns (labels': seq<A.Label>, z': A.Sys)
    requires A.Run(labels) == Some(z) && n <= |z.toPi|
    ensures A.Run(labels') == Some(z') && z' == z.(toPi := z.toPi[n..])
    decreases n
  {
    hide A.Run;
    if n == 0 {
      labels', z' := labels, z;
      assert z.toPi[0..] == z.toPi;
    } else {
      var labels1, z1 := LostToPi(labels, z, 0);
      assert z1.toPi == z.toPi[1..];
      labels', z' := Unheard(labels1, z1, n - 1);
      assert z.toPi[1..][n - 1..] == z.toPi[n..];
    }
  }

  lemma LostToPi(labels: seq<A.Label>, z: A.Sys, k: nat) returns (labels': seq<A.Label>, z': A.Sys)
    requires A.Run(labels) == Some(z) && k < |z.toPi|
    ensures A.Run(labels') == Some(z') && z' == z.(toPi := z.toPi[..k] + z.toPi[k + 1..])
  {
    hide A.Run;
    A.RunMore(labels, z, A.LoseToPi(k));
    labels', z' := labels + [A.LoseToPi(k)], A.Next(z, A.LoseToPi(k));
  }

  lemma LostToStm(labels: seq<A.Label>, z: A.Sys, k: nat) returns (labels': seq<A.Label>, z': A.Sys)
    requires A.Run(labels) == Some(z) && k < |z.toStm|
    ensures A.Run(labels') == Some(z') && z' == z.(toStm := z.toStm[..k] + z.toStm[k + 1..])
  {
    hide A.Run;
    A.RunMore(labels, z, A.LoseToStm(k));
    labels', z' := labels + [A.LoseToStm(k)], A.Next(z, A.LoseToStm(k));
  }

  lemma Rebooted(labels: seq<A.Label>, z: A.Sys) returns (labels': seq<A.Label>, z': A.Sys)
    requires A.Run(labels) == Some(z)
    ensures A.Run(labels') == Some(z') && z' == z.(stm := POWER_UP)
  {
    hide A.Run;
    A.RunMore(labels, z, A.StmReboots);
    labels', z' := labels + [A.StmReboots], A.Next(z, A.StmReboots);
  }

  // ---------- The two programs ----------

  /** Everything on its way to the STM32 was put on the wire by the client. */
  predicate Originates(toStm: seq<ToStm>, wire: seq<ToStm>)
  {
    forall k :: 0 <= k < |toStm| ==> toStm[k] in wire
  }

  predicate WheelsOf(f: ToStm, session: u32)
  {
    Firmware.WheelsFor(Firmware.Frame(f), session)
  }

  /** The motion under way is the one that a wheel frame of this session on the client's wire commands. */
  ghost predicate Obeys(wire: seq<ToStm>, session: u32, trace: Trace)
  {
    exists i, at :: Commanded(wire, session, trace, i, at)
  }

  ghost predicate Commanded(wire: seq<ToStm>, session: u32, trace: Trace, i: int, at: nat)
  {
    0 <= i < |wire| && WheelsOf(wire[i], session) && Firmware.DrivesAs(trace, wire[i].wheels.value, at)
  }

  lemma ObeysMore(wire: seq<ToStm>, wire': seq<ToStm>, session: u32, trace: Trace)
    requires wire <= wire' && Obeys(wire, session, trace)
    ensures Obeys(wire', session, trace)
  {
    hide Firmware.DrivesAs;
    var i, at :| Commanded(wire, session, trace, i, at);
    assert Commanded(wire', session, trace, i, at);
  }

  lemma OriginatesMore(toStm: seq<ToStm>, wire: seq<ToStm>, wire': seq<ToStm>)
    requires Originates(toStm, wire) && wire <= wire'
    ensures Originates(toStm + wire'[|wire|..], wire')
  {
  }

  lemma OriginatesLess(toStm: seq<ToStm>, wire: seq<ToStm>, k: nat)
    requires Originates(toStm, wire) && k < |toStm|
    ensures Originates(toStm[..k] + toStm[k + 1..], wire) && Originates(toStm[1..], wire)
  {
  }

  lemma Consumed(heard: seq<ToPi>, queue: seq<ToPi>, n: nat)
    requires n <= |queue| && heard <= queue[..n]
    ensures heard <= queue && |heard| <= n && queue[|heard|..][n - |heard|..] == queue[n..]
  {
  }

  /** A poll that was handed the first `n` frames of its queue, as steps of the joint protocol. */
  lemma {:induction false} PollMoves(labels: seq<A.Label>, z: A.Sys, before: seq<PiEvent>, es: seq<PiEvent>,
                                     w: seq<ToStm>, p': Pi, w': seq<ToStm>, token: Token, n: nat)
      returns (labels': seq<A.Label>, z': A.Sys)
    requires A.Run(labels) == Some(z) && PiRun(before) == Some((z.pi, w)) && PiRun(before + es) == Some((p', w'))
    requires n <= |z.toPi| && Heard(es) <= z.toPi[..n] && R.OpensWith(es, token) && token !in z.used
    ensures A.Run(labels') == Some(z') && w <= w' && z'.used <= z.used + {token}
    ensures z' == A.Sys(p', z.stm, z.toStm + w'[|w|..], z.toPi[n..], z'.used)
  {
    hide A.Run, A.Next, PiRun, Heard, R.OpensWith;
    Consumed(Heard(es), z.toPi, n);
    var labels1, z1 := PiMoves(labels, z, before, es, w, p', w', token);
    labels', z' := Unheard(labels1, z1, n - |Heard(es)|);
  }

  lemma Handed(reading: R.Reading, toPi: seq<ToPi>, n: nat)
    requires n <= |toPi| && (reading == R.Frames(toPi[..n]) || (reading == R.Gone && n == 0))
    ensures R.FramesOf(reading) == toPi[..n]
  {
  }

  /** A poll that may read up to `count` frames of its queue, or finds the port gone. */
  method PollOnce(r: R.Stm32ClientRunner, count: nat, gone: bool, token: Token, toStm: seq<ToStm>, toPi: seq<ToPi>,
                  ghost labels: seq<A.Label>, ghost z: A.Sys)
      returns (toStm': seq<ToStm>, toPi': seq<ToPi>, ghost labels': seq<A.Label>, ghost z': A.Sys)
    requires r.Valid() && A.Run(labels) == Some(z) && token !in z.used
    requires z.pi == r.View() && z.toStm == toStm && z.toPi == toPi
    modifies r, r.link, r.motion
    ensures r.Valid() && A.Run(labels') == Some(z') && old(r.wire) <= r.wire
    ensures toStm' == toStm + r.wire[|old(r.wire)|..]
    ensures z' == A.Sys(r.View(), z.stm, toStm', toPi', z'.used) && z'.used <= z.used + {token}
  {
    hide A.Run, PiRun, Heard, R.OpensWith, Opens, Occasions, OccasionsOf, WheelFrames, Carried, Disciplined;
    hide R.Stm32ClientRunner.Core, R.Stm32ClientRunner.Attuned, R.Stm32ClientRunner.LogGrew, R.Stm32ClientRunner.View;
    var n := if gone then 0 else if count < |toPi| then count else |toPi|;
    var reading := if gone then R.Gone else R.Frames(toPi[..n]);
    var sent := |r.wire|;
    ghost var before, w := r.events, r.wire;
    R.Accounts(r);
    ghost var es := r.Poll(reading, token);
    R.Accounts(r);
    Handed(reading, toPi, n);
    labels', z' := PollMoves(labels, z, before, es, w, r.View(), r.wire, token, n);
    toStm' := toStm + r.wire[sent..];
    toPi' := toPi[n..];
  }

  /** A pass of the main loop. */
  method PassOnce(m: Firmware.Stm32, at: nat, tickAt: nat, first: S.Counts, second: S.Counts, arrival: Arrival,
                  toStm: seq<ToStm>, toPi: seq<ToPi>, ghost labels: seq<A.Label>, ghost z: A.Sys, ghost wire: seq<ToStm>)
      returns (toStm': seq<ToStm>, toPi': seq<ToPi>, ghost labels': seq<A.Label>, ghost z': A.Sys)
    requires Originates(toStm, wire) && (m.Watching() ==> Obeys(wire, m.driveSession, m.guard.driver.trace))
    requires m.Inv() && m.tickClock <= at <= tickAt && at <= m.clock + S.MAX_GAP_MS
    requires A.Run(labels) == Some(z) && z.stm == m.View() && z.toStm == toStm && z.toPi == toPi
    modifies m, m.guard, m.guard.driver, m.guard.watchdog, m.stop, m.coordinator, m.coordinator.receiver
    ensures m.Inv() && m.MotorSafe() && m.clock == at && m.tickClock <= tickAt && A.Run(labels') == Some(z')
    ensures z' == A.Sys(z.pi, m.View(), toStm', toPi', z.used)
    ensures Originates(toStm', wire) && (m.Watching() ==> Obeys(wire, m.driveSession, m.guard.driver.trace))
  {
    hide A.Run, After, Wired, Taken, Completions, Firmware.Judged, Firmware.DrivesAs, Obeys, Originates;
    hide Firmware.Stm32.Inv, Firmware.Stm32.MotorSafe, Firmware.Stm32.View, Firmware.Stm32.ArmedBy;
    ghost var watching, refreshed, session, trace :=
      m.Watching(), m.guard.watchdog.refreshedAt, m.driveSession, m.guard.driver.trace;
    var rx := match arrival
      case Silent => Firmware.Nothing
      case Overflowed => Firmware.Overflow
      case Head => if toStm == [] then Firmware.Nothing else Firmware.Frame(toStm[0]);
    var sent := |m.line|;
    ghost var es := m.Pass(Clock32(at), at, first, second, rx, Clock32(tickAt), tickAt);
    assert Taken(es) <= toStm;
    labels', z' := StmMoves(labels, z, es);
    toStm' := if rx.Frame? then toStm[1..] else toStm;
    toPi' := toPi + m.line[sent..];
    StillObeys(m, watching, refreshed, session, trace, rx, tickAt, toStm, wire);
    if rx.Frame? {
      OriginatesLess(toStm, wire, 0);
    }
  }

  lemma StillObeys(m: Firmware.Stm32, watching: bool, refreshed: nat, session: u32, trace: Trace, rx: Firmware.Received,
                   tickAt: nat, toStm: seq<ToStm>, wire: seq<ToStm>)
    requires m.ArmedBy(watching, refreshed, session, trace, rx, tickAt) && (watching ==> Obeys(wire, session, trace))
    requires Originates(toStm, wire) && (rx.Frame? ==> toStm != [] && rx.f == toStm[0])
    ensures m.Watching() ==> Obeys(wire, m.driveSession, m.guard.driver.trace)
  {
    hide Firmware.DrivesAs;
    if m.Watching() && !(watching && m.driveSession == session && m.guard.driver.trace == trace) {
      var i :| 0 <= i < |wire| && wire[i] == rx.f;
      assert Commanded(wire, m.driveSession, m.guard.driver.trace, i, tickAt);
    }
  }

  /** Both programs from power-up, under any fair schedule: their states and the frames between them are those of a run of
      the joint protocol, and if the client believes a session is active and the controller is still synchronised, the
      controller is active with the same session. A wheel is energised only while the port refuses the stop asked last, or
      as a wheel frame of the active session that the client put on its wire commands. */
  method RunBoth(start: nat, moves: seq<Move>)
      returns (r: R.Stm32ClientRunner, m: Firmware.Stm32, toStm: seq<ToStm>, toPi: seq<ToPi>, ghost labels: seq<A.Label>)
    requires 0 < start && Fair(moves)
    ensures r.Valid() && m.Inv() && m.MotorSafe()
    ensures exists used :: A.Run(labels) == Some(A.Sys(r.View(), m.View(), toStm, toPi, used))
    ensures r.motion.State() == M.Active && m.synchronized ==>
              m.coordinator.state == C.Active && m.coordinator.motionSessionId == r.motion.activeSessionId
    ensures Energises(m.guard.driver.trace.accepted) ==>
              || StopRefused(m.guard.driver.trace)
              || (&& m.synchronized && m.coordinator.state == C.Active
                  && Obeys(r.wire, m.coordinator.motionSessionId, m.guard.driver.trace))
  {
    hide Obeys, Originates;
    hide A.Run, A.Next, A.Enabled, Tokens, LastPass, Fair, PiRun, After, Wired, Taken, Heard, R.OpensWith;
    hide R.Stm32ClientRunner.Core, R.Stm32ClientRunner.Attuned, R.Stm32ClientRunner.LogGrew, R.Stm32ClientRunner.View;
    hide Firmware.Stm32.Inv, Firmware.Stm32.MotorSafe, Firmware.Stm32.View, Firmware.Stm32.Watching, Energises, StopRefused;
    r := new R.Stm32ClientRunner(start);
    m := new Firmware.Stm32();
    toStm, toPi, labels := [], [], [];
    ghost var z := A.INITIAL;
    A.NothingRun();
    Beginning();
    NothingMoves(m, r.wire);
    for i := 0 to |moves|
      invariant r.Valid() && fresh(r) && fresh(r.link) && fresh(r.motion)
      invariant m.Inv() && m.MotorSafe() && fresh(m) && fresh(m.guard) && fresh(m.guard.driver) && fresh(m.guard.watchdog)
      invariant fresh(m.stop) && fresh(m.coordinator) && fresh(m.coordinator.receiver)
      invariant (m.clock, LastPass(moves[..i]).1) == LastPass(moves[..i]) && m.tickClock <= LastPass(moves[..i]).1
      invariant A.Run(labels) == Some(z) && z == A.Sys(r.View(), m.View(), toStm, toPi, z.used)
      invariant z.used <= Tokens(moves[..i])
      invariant Originates(toStm, r.wire) && (m.Watching() ==> Obeys(r.wire, m.driveSession, m.guard.driver.trace))
    {
      var x := moves[i];
      FairNext(moves, i);
      match x {
        case SetCommand(c) =>
          r.SetWheelCommand(c);
        case PiPolls(count, gone, token) =>
          ghost var wire := r.wire;
          ghost var queue := toStm;
          toStm, toPi, labels, z := PollOnce(r, count, gone, token, toStm, toPi, labels, z);
          OriginatesMore(queue, wire, r.wire);
          if m.Watching() {
            ObeysMore(wire, r.wire, m.driveSession, m.guard.driver.trace);
          }
        case StmPasses(at, tickAt, first, second, arrival) =>
          toStm, toPi, labels, z := PassOnce(m, at, tickAt, first, second, arrival, toStm, toPi, labels, z, r.wire);
        case StmReboots =>
          labels, z := Rebooted(labels, z);
          m := new Firmware.Stm32();
          NothingMoves(m, r.wire);
        case LoseToStm(k) =>
          if k < |toStm| {
            OriginatesLess(toStm, r.wire, k);
            labels, z := LostToStm(labels, z, k);
            toStm := toStm[..k] + toStm[k + 1..];
          }
        case LoseToPi(k) =>
          if k < |toPi| {
            labels, z := LostToPi(labels, z, k);
            toPi := toPi[..k] + toPi[k + 1..];
          }
      }
    }
    A.TwoPartyAgreement(labels);
    Agree(r, m, z);
    MovesAsTold(m, r.wire);
  }

  lemma NothingMoves(m: Firmware.Stm32, wire: seq<ToStm>)
    requires !m.guard.watchdog.armed
    ensures !m.Watching() && Originates([], wire)
  {
  }

  lemma MovesAsTold(m: Firmware.Stm32, wire: seq<ToStm>)
    requires m.Inv() && m.MotorSafe() && (m.Watching() ==> Obeys(wire, m.driveSession, m.guard.driver.trace))
    ensures Energises(m.guard.driver.trace.accepted) ==>
              || StopRefused(m.guard.driver.trace)
              || (&& m.synchronized && m.coordinator.state == C.Active
                  && Obeys(wire, m.coordinator.motionSessionId, m.guard.driver.trace))
  {
    hide Obeys, C.Consistent, C.MotionLifecycleCoordinator.Valid, S.MotionStop.Valid;
  }

  lemma Agree(r: R.Stm32ClientRunner, m: Firmware.Stm32, z: A.Sys)
    requires z.pi == r.View() && z.stm == m.View()
    requires z.pi.motion.state == M.Active && z.stm.synced ==>
               z.stm.coordinator.state == C.Active && z.stm.coordinator.sessionId == z.pi.motion.activeId
    ensures r.motion.State() == M.Active && m.synchronized ==>
              m.coordinator.state == C.Active && m.coordinator.motionSessionId == r.motion.activeSessionId
  {
  }

  lemma Beginning()
    ensures LastPass([]) == (0, 0) && Tokens([]) == {}
  {
  }
}
