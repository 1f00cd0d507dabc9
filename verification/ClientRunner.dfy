/** The Raspberry Pi client (software/rpi/src/stm32_client_runner.cpp): connection epochs, lifecycle decisions and
    wheel frames. Times are nanoseconds of the steady clock; zero is the "not set" time point, as in the source. */
module ClientRunner {
  import opened Words
  import opened Messages
  import opened PiParty
  import L = LinkSession
  import M = MotionSession

  import opened WheelLog

  const SYNC_TIMEOUT := 1000 * NS_PER_MS
  const RECONNECT_DELAY := 500 * NS_PER_MS

  /** What the serial port gives in one wait-and-read: the frames decoded from at most one buffer, or nothing, or the
      news that it is gone. */
  datatype Reading = Gone | Quiet | Frames(frames: seq<ToPi>)

  /** Milliseconds since `start`, as the 32-bit counter that the sessions see. */
  function Milliseconds(start: nat, t: nat): u32
  {
    if t < start then 0 else ((t - start) / 1_000_000) % 0x1_0000_0000
  }

  /** What the sessions measure with that counter is the time that has passed, to the millisecond, while it is less than
      one period of the counter. */
  lemma MillisecondsPass(start: nat, t: nat, u: nat)
    requires start <= t <= u && u - t < 4_294_967_295 * 1_000_000
    ensures var passed := Elapsed32(Milliseconds(start, u), Milliseconds(start, t));
            u - t - 1_000_000 < passed * 1_000_000 < u - t + 1_000_000
  {
    var m, n := (t - start) / 1_000_000, (u - start) / 1_000_000;
    assert m <= n < m + TWO32;
    ElapsedOfClocks(n, m);
  }

  function FramesOf(r: Reading): seq<ToPi>
  {
    if r.Frames? then r.frames else []
  }

  // ---------- What the client remembers of the session ----------

  ghost predicate Follows(s: M.Session, id: u32)
  {
    && (s.state == M.Active ==> s.activeId == id)
    && (s.state == M.StartPending ==> s.pending.Some? && s.pending.value.sessionId == id)
  }

  ghost predicate Paced(state: M.SessionState, transmitted: nat, session: nat, log: seq<WheelSent>)
  {
    && (transmitted != 0 ==>
          && state == M.Active && log != []
          && log[|log| - 1].session == session && log[|log| - 1].confirmedAt == Some(transmitted))
    && (transmitted == 0 && (state == M.Active || state == M.StartPending) && log != [] ==>
          log[|log| - 1].session < session)
  }

  lemma RetryKeeps(s: M.Session, now: u32, at: u32)
    ensures var r := M.RetryIfDue(s, now).0;
            && r.state == s.state && r.activeId == s.activeId && r.pending == s.pending
            && M.MarkTransmitted(r, at).state == s.state && M.MarkTransmitted(r, at).activeId == s.activeId
            && M.MarkTransmitted(r, at).pending == s.pending
    ensures M.RetryIfDue(s, now).1.Some? ==> M.RetryIfDue(s, now).1.value.MotionCommand?
  {
  }

  /** An inactive session can always be started, and an active one ended: nothing is pending then. */
  lemma StartBegins(s: M.Session, id: u32, at: u32)
    requires M.Coherent(s) && s.state == M.Inactive
    ensures M.BeginStart(s, id).1.Some? && M.BeginStart(s, id).1.value.MotionCommand?
    ensures M.BeginStart(s, id).0.state == M.StartPending == M.MarkTransmitted(M.BeginStart(s, id).0, at).state
    ensures Follows(M.BeginStart(s, id).0, id) && Follows(M.MarkTransmitted(M.BeginStart(s, id).0, at), id)
  {
  }

  lemma EndBegins(s: M.Session, at: u32)
    requires M.Coherent(s) && s.state == M.Active
    ensures M.BeginEnd(s, s.activeId).1.Some? && M.BeginEnd(s, s.activeId).1.value.MotionCommand?
    ensures M.BeginEnd(s, s.activeId).0.state == M.EndPending == M.MarkTransmitted(M.BeginEnd(s, s.activeId).0, at).state
  {
  }

  lemma WheelBuilds(s: M.Session, c: Command)
    requires s.state == M.Active
    ensures var (r, f) := M.BuildWheel(s, c.left, c.right);
            && r.state == s.state && r.activeId == s.activeId && r.pending == s.pending
            && f.Some? && f.value.WheelVelocity? && f.value.wheels == Some(Wheels(s.activeId, c.left, c.right))
  {
  }

  lemma AckKeeps(s: M.Session, f: ToPi, now: u32)
    ensures var r := M.HandleAck(s, f, now).0;
            r.state == s.state && r.activeId == s.activeId && r.pending == s.pending
    ensures M.HandleAck(s, f, now).1 <==> M.AckMatches(s, f)
    ensures !M.HandleAck(s, f, now).1 ==> M.HandleAck(s, f, now).0 == s
  {
  }

  lemma ResponseEnds(s: M.Session, f: ToPi, id: u32)
    requires M.Coherent(s) && Follows(s, id)
    ensures var (r, result) := M.HandleResponse(s, f);
            if result.None? then r == s
            else if s.state == M.StartPending then r.state == M.Inactive || (r.state == M.Active && r.activeId == id)
            else s.state == M.EndPending && r.state == M.Inactive
  {
  }

  lemma EntryIsFresh(w: WheelSent, sets: seq<SetCall>, epochs: seq<nat>, epochStart: nat, setAt: nat)
    requires w.frame.WheelVelocity? && w.frame.wheels.Some?
    requires w.frame.wheels.value.left == w.command.left && w.frame.wheels.value.right == w.command.right
    requires w.command.left != 0 || w.command.right != 0
    requires sets != [] && w.serves == |sets| - 1 && sets[w.serves] == SetCall(w.command, setAt, w.epoch)
    requires epochs != [] && w.epoch == |epochs| && epochs[|epochs| - 1] == epochStart
    requires epochStart <= setAt <= w.decidedAt < setAt + WHEEL_COMMAND_FRESHNESS
    ensures Fresh(w, sets, epochs)
  {
  }

  /** A frame after the period fits behind the last one, from what the client remembers of it. */
  lemma EntryFits(w: WheelSent, log: seq<WheelSent>, session: nat, state: M.SessionState, transmitted: nat)
    requires Paced(state, transmitted, session, log) && state == M.Active && w.session == session
    requires log != [] ==> log[|log| - 1].session <= session
    requires transmitted == 0 || w.decidedAt - transmitted >= WHEEL_TX_PERIOD
    ensures log != [] ==> Spaced(log[|log| - 1], w)
  {
  }

  lemma PacedNow(log: seq<WheelSent>, w: WheelSent, session: nat)
    requires w.session == session
    ensures w.confirmedAt.Some? && w.confirmedAt.value > 0 ==> Paced(M.Active, w.confirmedAt.value, session, log + [w])
  {
  }

  /** A session that is being started or ended has not been driven. */
  lemma PacedStarts(log: seq<WheelSent>, transmitted: nat, session: nat)
    requires Paced(M.Inactive, transmitted, session, log) && (log != [] ==> log[|log| - 1].session <= session)
    ensures Paced(M.StartPending, transmitted, session + 1, log)
  {
  }

  lemma PacedEnds(log: seq<WheelSent>, session: nat)
    ensures Paced(M.EndPending, 0, session, log)
  {
  }

  /** A reset session needs no id and no transmission time. */
  lemma ResetForgets(s: M.Session, session: nat, log: seq<WheelSent>)
    ensures M.Reset(s).state == M.Inactive && M.Reset(M.Reset(s)) == M.Reset(s)
    ensures Follows(M.Reset(s), 0) && Paced(M.Inactive, 0, session, log)
  {
  }

  lemma OpenSteps(p: Pi, token: Token, fate: Fate)
    requires p.phase == Disconnected
    ensures var (k, f) := L.BeginSynchronization(L.Disconnect(p.link), token);
            && PiEnabled(p, Open(token, fate)) && !f.WheelVelocity?
            && PiStep(p, Open(token, fate)) ==
                 (if fate.Sent? then Pi(Synchronizing, k, M.Reset(p.motion))
                  else Pi(Disconnected, L.Disconnect(k), M.Reset(p.motion)), OnWire(f, fate))
  {
  }

  lemma SyncHears(p: Pi, f: ToPi, now: u32)
    requires p.phase == Synchronizing
    ensures var (k, accepted) := L.HandleSyncOk(p.link, f, now);
            && PiEnabled(p, Hear(f, now))
            && PiStep(p, Hear(f, now)) == (Pi(if accepted then Synchronized else Synchronizing, k, p.motion), [])
  {
  }

  lemma MotionHears(p: Pi, f: ToPi, now: u32)
    requires p.phase == Synchronized && p.link.state != L.Disconnected
    requires L.HandleHeartbeat(p.link, f, now) == (p.link, false)
    ensures PiEnabled(p, Hear(f, now))
    ensures PiStep(p, Hear(f, now)) ==
              (p.(motion := if M.AckMatches(p.motion, f) then M.HandleAck(p.motion, f, now).0
                            else M.HandleResponse(p.motion, f).0), [])
  {
  }

  lemma CheckSteps(p: Pi, now: u32)
    requires p.phase == Synchronized
    ensures PiEnabled(p, CheckLink(now)) && PiStep(p, CheckLink(now)) == (p.(link := L.CheckTimeout(p.link, now)), [])
  {
  }

  lemma BeatSteps(p: Pi, now: u32, fate: Fate)
    requires p.phase == Synchronized
    ensures PiEnabled(p, Beat(now, fate))
    ensures var (k, f) := L.HeartbeatIfDue(p.link, now);
            && PiStep(p, Beat(now, fate)) == (p.(link := k), if f.Some? then OnWire(f.value, fate) else [])
            && (f.Some? ==> f.value.Heartbeat?)
  {
  }

  lemma HeartbeatHears(p: Pi, f: ToPi, now: u32)
    requires p.phase == Synchronized
    ensures var (k, accepted) := L.HandleHeartbeat(p.link, f, now);
            && PiEnabled(p, Hear(f, now))
            && (accepted || k.state == L.Disconnected ==> PiStep(p, Hear(f, now)) == (p.(link := k), []))
  {
  }

  lemma DropSteps(p: Pi)
    ensures PiEnabled(p, Drop) && PiStep(p, Drop) == (Pi(Disconnected, L.Disconnect(p.link), M.Reset(p.motion)), [])
  {
  }

  lemma LifecycleSteps(p: Pi, id: u32, fate: Fate, at: u32)
    requires p.phase == Synchronized
    ensures PiEnabled(p, StartSession(id, fate, at)) && PiEnabled(p, EndSession(id, fate, at))
    ensures var (s, f) := M.BeginStart(p.motion, id);
            f.Some? ==>
              PiStep(p, StartSession(id, fate, at)) ==
                (p.(motion := if fate.Sent? then M.MarkTransmitted(s, at) else s), OnWire(f.value, fate))
    ensures var (s, f) := M.BeginEnd(p.motion, id);
            f.Some? ==>
              PiStep(p, EndSession(id, fate, at)) ==
                (p.(motion := if fate.Sent? then M.MarkTransmitted(s, at) else s), OnWire(f.value, fate))
  {
  }

  lemma DriveSteps(p: Pi, c: Command, fate: Fate)
    requires p.phase == Synchronized
    ensures PiEnabled(p, Drive(c.left, c.right, fate))
    ensures var (s, f) := M.BuildWheel(p.motion, c.left, c.right);
            f.Some? ==> PiStep(p, Drive(c.left, c.right, fate)) == (p.(motion := s), OnWire(f.value, fate))
  {
  }

  // ---------- Why and when an epoch ends ----------

  /** 1000 ms without an accepted reply. */
  predicate Overdue(k: L.Link, now: u32)
  {
    Elapsed32(now, k.lastValidResponse) >= 1000
  }

  /** The fourth transmission has gone unanswered for 100 ms, or 750 ms once acknowledged. */
  predicate Exhausted(s: M.Session, now: u32)
  {
    && s.pending.Some? && s.timerRunning && s.retries >= 3
    && Elapsed32(now, s.lastTransmit) >= (if s.acked then 750 else 100)
  }

  predicate HasFailed(e: PiEvent)
  {
    (e.Open? || e.StartSession? || e.EndSession? || e.Retry? || e.Beat? || e.Drive?) && !e.fate.Sent?
  }

  /** A send was reported as failed. */
  ghost predicate SendFailed(es: seq<PiEvent>)
  {
    exists i :: 0 <= i < |es| && HasFailed(es[i])
  }

  /** A heartbeat reply reports the STM32 unsynchronised. */
  ghost predicate ReportsLoss(frames: seq<ToPi>)
  {
    exists i :: 0 <= i < |frames| && frames[i].HeartbeatReply? && frames[i].linkState == 0x00
  }

  /** The moment `now` stands for lies between `from` and `to`. */
  ghost predicate StampOf(now: u32, start: nat, from: nat, to: nat)
  {
    exists t :: from <= t <= to && now == Milliseconds(start, t)
  }

  /** The times an event carries were read from the clock between `from` and `to`. */
  ghost predicate Stamped(e: PiEvent, start: nat, from: nat, to: nat)
  {
    match e
    case CheckLink(now) => StampOf(now, start, from, to)
    case Hear(_, now) => StampOf(now, start, from, to)
    case StartSession(_, fate, at) => fate.Sent? ==> StampOf(at, start, from, to)
    case EndSession(_, fate, at) => fate.Sent? ==> StampOf(at, start, from, to)
    case Retry(now, fate, at) => StampOf(now, start, from, to) && (fate.Sent? ==> StampOf(at, start, from, to))
    case Beat(now, _) => StampOf(now, start, from, to)
    case _ => true
  }

  ghost predicate AllStamped(es: seq<PiEvent>, start: nat, from: nat, to: nat)
  {
    forall i :: 0 <= i < |es| ==> Stamped(es[i], start, from, to)
  }

  lemma StampWidens(now: u32, start: nat, from: nat, to: nat, from': nat, to': nat)
    requires StampOf(now, start, from, to) && from' <= from && to <= to'
    ensures StampOf(now, start, from', to')
  {
  }

  lemma StampedWidens(es: seq<PiEvent>, start: nat, from: nat, to: nat, from': nat, to': nat)
    requires AllStamped(es, start, from, to) && from' <= from && to <= to'
    ensures AllStamped(es, start, from', to')
  {
    hide StampOf;
    forall i | 0 <= i < |es|
      ensures Stamped(es[i], start, from', to')
    {
      var e := es[i];
      if e.CheckLink? || e.Hear? || e.Retry? || e.Beat? {
        StampWidens(e.now, start, from, to, from', to');
      }
      if (e.StartSession? || e.EndSession? || e.Retry?) && e.fate.Sent? {
        StampWidens(e.at, start, from, to, from', to');
      }
    }
  }

  lemma StampedBoth(es: seq<PiEvent>, fs: seq<PiEvent>, start: nat, from: nat, to: nat)
    requires AllStamped(es, start, from, to) && AllStamped(fs, start, from, to)
    ensures AllStamped(es + fs, start, from, to)
  {
    hide Stamped;
  }

  lemma FailedBoth(es: seq<PiEvent>, fs: seq<PiEvent>)
    ensures SendFailed(es + fs) <==> SendFailed(es) || SendFailed(fs)
  {
    hide HasFailed;
    if SendFailed(es) {
      var i :| 0 <= i < |es| && HasFailed(es[i]);
      assert HasFailed((es + fs)[i]);
    }
    if SendFailed(fs) {
      var i :| 0 <= i < |fs| && HasFailed(fs[i]);
      assert HasFailed((es + fs)[|es| + i]);
    }
  }

  lemma FailedOne(e: PiEvent)
    ensures SendFailed([e]) <==> HasFailed(e)
  {
    if HasFailed(e) {
      assert HasFailed([e][0]);
    }
  }

  lemma DropAdds(es: seq<PiEvent>, start: nat, from: nat, to: nat)
    requires AllStamped(es, start, from, to)
    ensures AllStamped(es + [Drop], start, from, to) && (SendFailed(es + [Drop]) <==> SendFailed(es))
    ensures es != [] ==> (es + [Drop])[0] == es[0]
  {
    hide Stamped;
    FailedBoth(es, [Drop]);
    FailedOne(Drop);
    assert Stamped(Drop, start, from, to) by { DropIsStamped(start, from, to); }
  }

  lemma DropIsStamped(start: nat, from: nat, to: nat)
    ensures Stamped(Drop, start, from, to)
  {
  }

  lemma FirstIsStamped(es: seq<PiEvent>, start: nat, from: nat, to: nat)
    requires AllStamped(es, start, from, to) && es != [] && es[0].CheckLink?
    ensures StampOf(es[0].now, start, from, to)
  {
    hide StampOf;
    assert Stamped(es[0], start, from, to);
  }

  lemma FailedAmong(es: seq<PiEvent>)
    requires |es| <= 2
    ensures SendFailed(es) <==> (|es| > 0 && HasFailed(es[0])) || (|es| > 1 && HasFailed(es[1]))
  {
    hide HasFailed;
  }

  lemma HearsDoNotFail(es: seq<PiEvent>)
    requires forall i :: 0 <= i < |es| ==> es[i].Hear?
    ensures !SendFailed(es)
  {
  }

  /** What the checks of the sessions decide, in these words. */
  lemma ChecksDecide(k: L.Link, s: M.Session, now: u32)
    ensures k.state == L.Synchronized ==> (L.CheckTimeout(k, now).state == L.Synchronized <==> !Overdue(k, now))
    ensures M.RetryExhausted(s, now) <==> Exhausted(s, now)
    ensures L.HeartbeatIfDue(k, now).0.state == k.state
  {
  }

  lemma RepliesDecide(k: L.Link, f: ToPi, now: u32)
    requires k.state == L.Synchronized
    ensures var (r, accepted) := L.HandleHeartbeat(k, f, now);
            && (r.state == L.Disconnected <==> k.heartbeatPending && f == HeartbeatReply(k.heartbeatSequence, 0x00))
            && (accepted <==> k.heartbeatPending && f == HeartbeatReply(k.heartbeatSequence, 0x01))
            && r.state in {L.Synchronized, L.Disconnected}
            && (!accepted && r.state != L.Disconnected ==> r == k)
            && (accepted ==> r.state == L.Synchronized)
  {
  }

  lemma SyncDecides(k: L.Link, f: ToPi, now: u32)
    requires k.state == L.SyncPending
    ensures var (r, accepted) := L.HandleSyncOk(k, f, now);
            && (accepted <==> f == LinkSyncOk(k.syncSequence, k.syncToken))
            && (if accepted then r.state == L.Synchronized else r == k)
  {
  }

  lemma SentIsOnWire(f: ToStm)
    ensures OnWire(f, Sent) == [f]
  {
  }

  lemma BeginningDecides(k: L.Link, token: Token)
    ensures var (r, f) := L.BeginSynchronization(L.Disconnect(k), token);
            r.state == L.SyncPending && r.syncToken == token && f == LinkSync(r.syncSequence, Some(token))
  {
  }

  /** A synchronising epoch ends only if the port is gone or 1000 ms have passed since it began; if they have not, and the
      port delivers the answer to its LINK_SYNC, number and token, the client is synchronised. A synchronised epoch ends
      only after 1000 ms without an accepted reply, with the retries exhausted, on a failed send, with the port gone, or
      on a reply that reports the loss of synchronisation; and the first four always end it. */
  ghost predicate EpochLaw(p: Pi, q: Pi, reading: Reading, es: seq<PiEvent>, start: nat, from: nat, to: nat)
  {
    && (p.phase == Synchronizing ==>
          && (q.phase == Disconnected ==> reading.Gone? || to >= start + 1_000_000_000)
          && (to < start + 1_000_000_000 && LinkSyncOk(p.link.syncSequence, p.link.syncToken) in FramesOf(reading) ==>
                q.phase == Synchronized)
          && (q.phase == Synchronized ==> LinkSyncOk(p.link.syncSequence, p.link.syncToken) in FramesOf(reading)))
    && (p.phase == Synchronized ==>
          && q.phase != Synchronizing && es != [] && es[0].CheckLink? && StampOf(es[0].now, start, from, to)
          && (q.phase == Disconnected ==>
                || Overdue(p.link, es[0].now) || Exhausted(p.motion, es[0].now) || SendFailed(es) || reading.Gone?
                || ReportsLoss(FramesOf(reading)))
          && (q.phase == Synchronized ==>
                !Overdue(p.link, es[0].now) && !Exhausted(p.motion, es[0].now) && !SendFailed(es) && !reading.Gone?))
  }

  // ---------- Rounds ----------

  /** The events of one synchronised iteration. */
  datatype Round = Round(
    upkeep: seq<PiEvent>, start: seq<PiEvent>, drive: seq<PiEvent>, end: seq<PiEvent>, beat: seq<PiEvent>,
    heard: seq<PiEvent>)

  const NO_ROUND := Round([], [], [], [], [], [])

  function Flat(r: Round): seq<PiEvent>
  {
    r.upkeep + r.start + r.drive + r.end + r.beat + r.heard
  }

  /** Nothing is heard and no epoch opened. */
  ghost predicate Tame(es: seq<PiEvent>)
  {
    forall i :: 0 <= i < |es| ==> !es[i].Hear? && !es[i].Open?
  }

  lemma {:induction false} TameHears(es: seq<PiEvent>)
    requires Tame(es)
    ensures Heard(es) == [] && Opens(es) == 0
  {
    if es != [] {
      TameHears(es[..|es| - 1]);
    }
  }

  lemma {:induction false} HearsOnly(es: seq<PiEvent>)
    requires forall i :: 0 <= i < |es| ==> es[i].Hear?
    ensures Opens(es) == 0
  {
    if es != [] {
      HearsOnly(es[..|es| - 1]);
    }
  }

  lemma {:induction false} HeardBoth(es: seq<PiEvent>, fs: seq<PiEvent>)
    ensures Heard(es + fs) == Heard(es) + Heard(fs) && Opens(es + fs) == Opens(es) + Opens(fs)
  {
    if fs == [] {
      assert es + fs == es;
    } else {
      HeardBoth(es, fs[..|fs| - 1]);
      assert (es + fs)[..|es + fs| - 1] == es + fs[..|fs| - 1];
    }
  }

  lemma NoneHeard()
    ensures Heard([]) == [] && Opens([]) == 0
  {
  }

  lemma DropHears(before: seq<PiEvent>, es: seq<PiEvent>)
    ensures Heard(es + [Drop]) == Heard(es) && Opens(es + [Drop]) == Opens(es)
    ensures before + es + [Drop] == before + (es + [Drop])
  {
    hide Heard, Opens;
    EventsMore(es, Drop);
  }

  /** What a round, complete or not, consists of. */
  ghost predicate Sane(r: Round)
  {
    && Tame(r.upkeep) && Tame(r.start) && Tame(r.drive) && Tame(r.end) && Tame(r.beat)
    && forall i :: 0 <= i < |r.heard| ==> r.heard[i].Hear?
  }

  lemma SaneHears(r: Round)
    requires Sane(r)
    ensures Heard(Flat(r)) == Heard(r.heard) && Opens(Flat(r)) == 0
  {
    hide Heard, Opens;
    TameHears(r.upkeep);
    TameHears(r.start);
    TameHears(r.drive);
    TameHears(r.end);
    TameHears(r.beat);
    HearsOnly(r.heard);
    HeardBoth(r.upkeep, r.start);
    HeardBoth(r.upkeep + r.start, r.drive);
    HeardBoth(r.upkeep + r.start + r.drive, r.end);
    HeardBoth(r.upkeep + r.start + r.drive + r.end, r.beat);
    HeardBoth(r.upkeep + r.start + r.drive + r.end + r.beat, r.heard);
  }

  ghost predicate RoundStamped(r: Round, start: nat, from: nat, to: nat)
  {
    && AllStamped(r.upkeep, start, from, to) && AllStamped(r.start, start, from, to) && AllStamped(r.drive, start, from, to)
    && AllStamped(r.end, start, from, to) && AllStamped(r.beat, start, from, to) && AllStamped(r.heard, start, from, to)
  }

  /** A send of the round was reported as failed. */
  ghost predicate RoundFailed(r: Round)
  {
    || SendFailed(r.upkeep) || SendFailed(r.start) || SendFailed(r.drive) || SendFailed(r.end) || SendFailed(r.beat)
    || SendFailed(r.heard)
  }

  /** One more part of a round, done after `c` with times from `begun` on. */
  lemma PartAdds(r: Round, r': Round, es: seq<PiEvent>, start: nat, from: nat, c: nat, begun: nat, to: nat)
    requires RoundStamped(r, start, from, c) && AllStamped(es, start, begun, to) && from <= begun && c <= to
    requires || (r.upkeep == [] && r' == r.(upkeep := es)) || (r.start == [] && r' == r.(start := es))
             || (r.drive == [] && r' == r.(drive := es)) || (r.end == [] && r' == r.(end := es))
             || (r.beat == [] && r' == r.(beat := es)) || (r.heard == [] && r' == r.(heard := es))
    ensures RoundStamped(r', start, from, to) && (RoundFailed(r') <==> RoundFailed(r) || SendFailed(es))
  {
    hide AllStamped, SendFailed;
    StampedWidens(r.upkeep, start, from, c, from, to);
    StampedWidens(r.start, start, from, c, from, to);
    StampedWidens(r.drive, start, from, c, from, to);
    StampedWidens(r.end, start, from, c, from, to);
    StampedWidens(r.beat, start, from, c, from, to);
    StampedWidens(r.heard, start, from, c, from, to);
    StampedWidens(es, start, begun, to, from, to);
    FailedAmong([]);
  }

  lemma NothingStamped(start: nat, from: nat, to: nat)
    ensures RoundStamped(NO_ROUND, start, from, to) && !RoundFailed(NO_ROUND)
  {
  }

  lemma OnlyOne(e: PiEvent, start: nat, from: nat, to: nat)
    requires Stamped(e, start, from, to)
    ensures AllStamped([e], start, from, to)
  {
  }

  lemma DrivesAreStamped(es: seq<PiEvent>, start: nat, from: nat, to: nat)
    requires es == [] || (|es| == 1 && es[0].Drive?)
    ensures AllStamped(es, start, from, to)
  {
  }

  lemma ReadNow(now: u32, start: nat, from: nat, t: nat)
    requires now == Milliseconds(start, t) && from <= t
    ensures StampOf(now, start, from, t)
  {
  }

  /** The same of all its events in a row. */
  lemma RoundInARow(r: Round, start: nat, from: nat, to: nat)
    requires RoundStamped(r, start, from, to)
    ensures AllStamped(Flat(r), start, from, to) && (SendFailed(Flat(r)) <==> RoundFailed(r))
    ensures r.upkeep != [] ==> Flat(r) != [] && Flat(r)[0] == r.upkeep[0]
  {
    hide AllStamped, SendFailed;
    var a := r.upkeep + r.start;
    var b := a + r.drive;
    var c := b + r.end;
    var d := c + r.beat;
    StampedBoth(r.upkeep, r.start, start, from, to);
    StampedBoth(a, r.drive, start, from, to);
    StampedBoth(b, r.end, start, from, to);
    StampedBoth(c, r.beat, start, from, to);
    StampedBoth(d, r.heard, start, from, to);
    FailedBoth(r.upkeep, r.start);
    FailedBoth(a, r.drive);
    FailedBoth(b, r.end);
    FailedBoth(c, r.beat);
    FailedBoth(d, r.heard);
  }

  lemma Flattened(before: seq<PiEvent>, r: Round)
    ensures before + r.upkeep + r.start + r.drive + r.end + r.beat + r.heard == before + Flat(r)
  {
  }

  ghost predicate Sending(r: Round, now: u32)
  {
    && |r.upkeep| == 2 && r.upkeep[0] == CheckLink(now) && r.upkeep[1].Retry? && r.upkeep[1].now == now
    && (r.start == [] || (|r.start| == 1 && r.start[0].StartSession?))
    && (r.drive == [] || (|r.drive| == 1 && r.drive[0].Drive?))
    && (r.end == [] || (|r.end| == 1 && r.end[0].EndSession?))
  }

  lemma SendingKept(r: Round, r': Round, now: u32)
    requires Sending(r, now) && r' == r.(beat := r'.beat, heard := r'.heard)
    ensures Sending(r', now)
  {
  }

  /** Link check and retry once, at most one start, one wheel frame and one end, one heartbeat opportunity. */
  ghost predicate Orderly(r: Round, now: u32)
  {
    && Sending(r, now)
    && |r.beat| == 1 && r.beat[0].Beat? && r.beat[0].now == now
    && forall i :: 0 <= i < |r.heard| ==> r.heard[i].Hear?
  }

  // ---------- What a round decides ----------

  /** The latest set call was made in this epoch, less than 200 ms ago, and asks for motion. */
  ghost predicate Wants(sets: seq<SetCall>, epoch: nat, t: nat)
  {
    && sets != []
    && var x := sets[|sets| - 1];
       x.epoch == epoch && (x.command.left != 0 || x.command.right != 0) && t < x.at + 200_000_000
  }

  /** No wheel frame of this session was confirmed less than 50 ms ago. */
  ghost predicate WheelDue(log: seq<WheelSent>, session: nat, t: nat)
  {
    || log == []
    || var w := log[|log| - 1];
       w.session != session || (w.confirmedAt.Some? && t >= w.confirmedAt.value + 50_000_000)
  }

  /** An active session is driven if motion is wanted and the period over, and ended if motion is not wanted. */
  ghost predicate DecidesWheels(state: M.SessionState, sets: seq<SetCall>, log: seq<WheelSent>, epoch: nat, session: nat,
                                r: Round, u: nat)
  {
    && (r.drive != [] <==> state == M.Active && Wants(sets, epoch, u) && WheelDue(log, session, u))
    && (r.drive != [] ==> sets != [] && IsDrive(r.drive[0], sets[|sets| - 1].command))
    && (r.end != [] <==> state == M.Active && !Wants(sets, epoch, u))
  }

  predicate IsDrive(e: PiEvent, c: Command)
  {
    e.Drive? && e.left == c.left && e.right == c.right
  }

  /** An inactive session is started if motion is wanted. */
  ghost predicate DecidesStart(state: M.SessionState, sets: seq<SetCall>, epoch: nat, r: Round, t: nat)
  {
    r.start != [] <==> state == M.Inactive && Wants(sets, epoch, t)
  }

  /** The events of a round that has not failed: in order, and with exactly the frames that its two moments of decision
      call for. */
  ghost predicate Serves(state: M.SessionState, sets: seq<SetCall>, log: seq<WheelSent>, epoch: nat, session: nat,
                         es: seq<PiEvent>, from: nat, to: nat)
  {
    exists r, t, u :: es == Flat(r) && ServesAs(state, sets, log, epoch, session, r, t, u, from, to)
  }

  ghost predicate ServesAs(state: M.SessionState, sets: seq<SetCall>, log: seq<WheelSent>, epoch: nat, session: nat,
                           r: Round, t: nat, u: nat, from: nat, to: nat)
  {
    && from <= t <= u <= to && r.upkeep != [] && r.upkeep[0].CheckLink? && Orderly(r, r.upkeep[0].now)
    && DecidesStart(state, sets, epoch, r, t) && DecidesWheels(state, sets, log, epoch, session, r, u)
  }

  lemma DecidesAlike(state: M.SessionState, sets: seq<SetCall>, log: seq<WheelSent>, epoch: nat, session: nat,
                     r: Round, r': Round, t: nat, u: nat)
    requires DecidesStart(state, sets, epoch, r, t) && DecidesWheels(state, sets, log, epoch, session, r, u)
    requires r' == r.(beat := r'.beat, heard := r'.heard)
    ensures DecidesStart(state, sets, epoch, r', t) && DecidesWheels(state, sets, log, epoch, session, r', u)
  {
  }

  /** A session that is being started is neither driven nor ended in the same round. */
  lemma StartOrWheels(state: M.SessionState, state': M.SessionState, sets: seq<SetCall>, log: seq<WheelSent>, epoch: nat,
                      session: nat, so: Round, r: Round, t: nat, u: nat)
    requires DecidesStart(state, sets, epoch, so, t) && r == so.(drive := r.drive, end := r.end)
    requires state' == if so.start == [] then state else M.StartPending
    requires exists n :: (so.start == [] ==> n == session) && DecidesWheels(state', sets, log, epoch, n, r, u)
    ensures DecidesStart(state, sets, epoch, r, t) && DecidesWheels(state, sets, log, epoch, session, r, u)
  {
    hide Wants, WheelDue;
  }

  lemma {:induction false} StartsBoth(es: seq<PiEvent>, fs: seq<PiEvent>)
    requires forall i :: 0 <= i < |fs| ==> !fs[i].StartSession?
    ensures Starts(es + fs) == Starts(es)
  {
    if fs == [] {
      assert es + fs == es;
    } else {
      StartsBoth(es, fs[..|fs| - 1]);
      assert (es + fs)[..|es + fs| - 1] == es + fs[..|fs| - 1];
    }
  }

  class Stm32ClientRunner {
    const link: L.Stm32LinkSession
    const motion: M.Stm32MotionSession
    var state: Phase
    var transportFailed: bool
    var epochStart: nat
    var syncDeadline: nat
    var reconnectDeadline: nat
    var motionSessionId: u32
    var latestCommand: Option<Command>
    var latestCommandTime: nat
    var lastWheelTransmitTime: nat

    /** The steady clock: positive and never running backwards. */
    var clock: nat

    /** Every frame put on the wire. */
    var wire: seq<ToStm>

    /** What the client did, the set calls it got, when its epochs began, the wheel frames it sent and the time of the
        last decision to send one. */
    ghost var events: seq<PiEvent>
    ghost var sets: seq<SetCall>
    ghost var epochs: seq<nat>
    ghost var log: seq<WheelSent>
    ghost var decided: nat

    ghost function View(): Pi
      reads this, link, motion
    {
      Pi(state, link.View(), motion.View())
    }

    /** What holds at every step: the client has done what the protocol party does, and nothing else; its log accounts
        for it; and the command it holds is the last one set, in this epoch. */
    ghost predicate Core()
      reads this, link, motion
    {
      && motion.Valid()
      && PiRun(events) == Some((View(), wire))
      && Accounted(events, wire, log, sets, epochs, decided)
      && Current()
    }

    ghost predicate Current()
      reads this
    {
      && 0 < clock && decided <= clock && epochStart <= clock
      && (epochs != [] ==> epochStart == epochs[|epochs| - 1])
      && (state != Disconnected ==> epochs != [])
      && (sets != [] ==> sets[|sets| - 1].epoch <= |epochs|)
      && (state != Disconnected && latestCommand.None? ==> sets == [] || sets[|sets| - 1].epoch < |epochs|)
      && (latestCommand.Some? ==>
            && sets != [] && sets[|sets| - 1] == SetCall(latestCommand.value, latestCommandTime, |epochs|)
            && epochStart <= latestCommandTime <= clock)
    }

    /** Time alone does not change what is current. */
    twostate lemma StillCurrent()
      requires old(Current()) && old(clock) <= clock && decided == old(decided) && epochStart == old(epochStart)
      requires epochs == old(epochs) && state == old(state) && sets == old(sets)
      requires latestCommand == old(latestCommand) && latestCommandTime == old(latestCommandTime)
      ensures Current()
    {
    }

    /** The remembered id is that of the session being started or driven, and the remembered transmission is the
        last wheel frame of the session being driven. */
    ghost predicate Attuned()
      reads this, motion
    {
      Follows(motion.View(), motionSessionId) && Paced(motion.View().state, lastWheelTransmitTime, Starts(events), log)
    }

    /** The link session is where the phase says. */
    ghost predicate Linked()
      reads this, link
    {
      && (state == Synchronizing ==> link.View().state == L.SyncPending && epochStart + 1_000_000_000 <= syncDeadline)
      && (state == Synchronized ==> link.View().state == L.Synchronized)
    }

    ghost predicate Valid()
      reads this, link, motion
    {
      Core() && Attuned() && Linked()
    }

    constructor (start: nat)
      requires 0 < start
      ensures Valid() && fresh(link) && fresh(motion)
      ensures events == [] && wire == [] && log == [] && sets == [] && epochs == [] && state == Disconnected
      ensures View() == PI_INITIAL && clock == start
    {
      link := new L.Stm32LinkSession();
      motion := new M.Stm32MotionSession();
      state, transportFailed, epochStart, syncDeadline, reconnectDeadline := Disconnected, false, 0, 0, 0;
      motionSessionId, latestCommand, latestCommandTime, lastWheelTransmitTime := 0, None, 0, 0;
      clock, wire := start, [];
      events, sets, epochs, log, decided := [], [], [], [], 0;
      new;
      NothingAccounted(0);
    }

    method Now() returns (t: nat)
      modifies this`clock
      ensures t == clock && old(clock) <= clock
    {
      var passed: int := *;
      if passed > 0 {
        clock := clock + passed;
      }
      t := clock;
    }

    /** What was just done is this event of the protocol party, which drives nothing and opens no epoch. */
    ghost method Record(e: PiEvent, p: Pi, w: seq<ToStm>)
      requires PiRun(events) == Some((p, w)) && PiEnabled(p, e) && !e.Drive? && !e.Open?
      requires View() == PiStep(p, e).0 && wire == w + PiStep(p, e).1
      requires Accounted(events, w, log, sets, epochs, decided) && WheelFrames(wire) == WheelFrames(w)
      modifies this`events
      ensures PiRun(events) == Some((View(), wire)) && events == old(events) + [e]
      ensures Accounted(events, wire, log, sets, epochs, decided)
      ensures Starts(events) == old(Starts(events)) + if e.StartSession? then 1 else 0
    {
      hide PiRun, PiStep, PiEnabled, Accounted, WheelFrames, Starts;
      PiRunMore(events, p, w, e);
      EventsMore(events, e);
      AccountedPlain(events, w, log, sets, epochs, decided, e, wire);
      events := events + [e];
    }

    /** What was just done opened an epoch. */
    ghost method RecordOpen(e: PiEvent, p: Pi, w: seq<ToStm>)
      requires PiRun(events) == Some((p, w)) && PiEnabled(p, e) && e.Open?
      requires View() == PiStep(p, e).0 && wire == w + PiStep(p, e).1
      requires Accounted(events, w, log, sets, epochs, decided) && WheelFrames(wire) == WheelFrames(w)
      modifies this`events, this`epochs
      ensures PiRun(events) == Some((View(), wire)) && events == old(events) + [e]
      ensures epochs == old(epochs) + [epochStart] && Accounted(events, wire, log, sets, epochs, decided)
      ensures Starts(events) == old(Starts(events))
    {
      hide PiRun, PiStep, PiEnabled, Accounted, WheelFrames, Starts;
      PiRunMore(events, p, w, e);
      EventsMore(events, e);
      AccountedOpen(events, w, log, sets, epochs, decided, e, wire, epochStart);
      events, epochs := events + [e], epochs + [epochStart];
    }

    /** What was just done sent a wheel frame. */
    ghost method RecordDrive(e: PiEvent, p: Pi, w: seq<ToStm>, x: WheelSent)
      requires PiRun(events) == Some((p, w)) && PiEnabled(p, e) && e.Drive? && x.command == Command(e.left, e.right)
      requires View() == PiStep(p, e).0 && wire == w + PiStep(p, e).1
      requires Accounted(events, w, log, sets, epochs, decided)
      requires WheelFrames(wire) == WheelFrames(w) + if x.onWire then [x.frame] else []
      requires x.onWire == (e.fate.Sent? || e.fate.delivered) && x.epoch == |epochs| && x.session == Starts(events)
      requires Fresh(x, sets, epochs) && decided <= x.decidedAt && (log != [] ==> Spaced(log[|log| - 1], x))
      modifies this`events, this`log, this`decided
      ensures PiRun(events) == Some((View(), wire)) && events == old(events) + [e]
      ensures log == old(log) + [x] && decided == x.decidedAt && Accounted(events, wire, log, sets, epochs, decided)
      ensures Starts(events) == old(Starts(events))
    {
      hide PiRun, PiStep, PiEnabled, Accounted, WheelFrames, Starts, Fresh, Spaced;
      PiRunMore(events, p, w, e);
      EventsMore(events, e);
      AccountedLater(events, w, log, sets, epochs, decided, x.decidedAt);
      AccountedDrive(events, w, log, sets, epochs, x.decidedAt, e, wire, x);
      events, log, decided := events + [e], log + [x], x.decidedAt;
    }

    /** The fields by which the client decides say what was last asked, and when it last drove. */
    lemma Reads(t: nat)
      requires Valid() && state != Disconnected
      ensures IsFresh(t) && !IsZero(latestCommand.value) <==> Wants(sets, |epochs|, t)
      ensures Wants(sets, |epochs|, t) ==> sets != [] && latestCommand == Some(sets[|sets| - 1].command)
      ensures motion.State() == M.Active ==>
                (lastWheelTransmitTime == 0 || t - lastWheelTransmitTime >= 50_000_000 <==> WheelDue(log, Starts(events), t))
    {
      hide PiRun, Accounted, Starts, M.Stm32MotionSession.Valid, L.Stm32LinkSession.View;
    }

    lemma SessionsSoFar()
      requires Core()
      ensures log != [] ==> log[|log| - 1].session <= Starts(events)
    {
    }

    /** Milliseconds of the epoch, as the sessions see them. */
    function Ms(t: nat): u32
      reads this
    {
      Milliseconds(epochStart, t)
    }

    /** send_frame: a failure may be reported after the frame went out. */
    method Send(f: ToStm) returns (ok: bool, ghost fate: Fate)
      modifies this`wire
      ensures ok == fate.Sent? && wire == old(wire) + OnWire(f, fate)
      ensures WheelFrames(wire) == WheelFrames(old(wire)) + if f.WheelVelocity? then OnWire(f, fate) else []
    {
      ok := *;
      var delivered: bool := *;
      fate := if ok then Sent else Failed(delivered);
      WheelFramesMore(wire, f, fate);
      if ok || delivered {
        wire := wire + [f];
      }
    }

    predicate IsFresh(now: nat)
      reads this
      ensures IsFresh(now) <==> latestCommand.Some? && now < latestCommandTime + 200_000_000
    {
      latestCommand.Some? && now - latestCommandTime < WHEEL_COMMAND_FRESHNESS
    }

    predicate IsZero(c: Command)
    {
      c.left == 0 && c.right == 0
    }

    /** set_wheel_command: the call is the newest one on record. */
    method SetWheelCommand(c: Command)
      requires Valid()
      modifies this`latestCommand, this`latestCommandTime, this`clock, this`sets
      ensures Valid() && old(clock) <= clock
      ensures sets == old(sets) + [SetCall(c, clock, |epochs|)]
      ensures View() == old(View()) && wire == old(wire) && events == old(events)
    {
      hide PiRun, Accounted, Starts;
      latestCommand := Some(c);
      latestCommandTime := Now();
      AccountedSet(events, wire, log, sets, epochs, decided, SetCall(c, clock, |epochs|));
      sets := sets + [SetCall(c, latestCommandTime, |epochs|)];
    }

    /** A lifecycle frame goes out; once it is known to be out, the retry timer starts. */
    method TransmitPending(f: ToStm) returns (ok: bool, ghost fate: Fate, ghost at: u32)
      requires motion.Valid() && f.MotionCommand?
      modifies this`clock, this`wire, this`transportFailed, motion
      ensures motion.Valid() && old(clock) <= clock
      ensures ok == fate.Sent? && wire == old(wire) + OnWire(f, fate)
      ensures WheelFrames(wire) == WheelFrames(old(wire))
      ensures motion.View() == if ok then M.MarkTransmitted(old(motion.View()), at) else old(motion.View())
      ensures ok ==> StampOf(at, epochStart, old(clock), clock)
    {
      hide WheelFrames, M.Coherent, M.MarkTransmitted;
      at := 0;
      ok, fate := Send(f);
      if !ok {
        transportFailed := true;
        return;
      }
      var t := Now();
      at := Ms(t);
      motion.MarkPendingTransmitted(Ms(t));
    }

    /** The link check and the retry of a pending transaction. */
    method LinkAndRetry(now: u32, ghost from: nat) returns (ok: bool, ghost es: seq<PiEvent>)
      requires Valid() && state == Synchronized && from <= clock && StampOf(now, epochStart, from, clock)
      modifies this`clock, this`wire, this`events, this`transportFailed, link, motion
      ensures Core() && state == Synchronized && (ok ==> Valid()) && old(clock) <= clock
      ensures motion.State() == old(motion.State())
      ensures events == old(events) + es && AllStamped(es, epochStart, from, clock)
      ensures if Overdue(old(link.View()), now) || Exhausted(old(motion.View()), now)
              then es == [CheckLink(now)] && !ok
              else |es| == 2 && es[0] == CheckLink(now) && es[1].Retry? && es[1].now == now && ok == es[1].fate.Sent?
    {
      hide PiRun, Accounted, WheelFrames, Starts, Paced, Follows, M.Coherent, StampOf, Overdue, Exhausted;
      hide M.Stm32MotionSession.View, M.Stm32MotionSession.Valid, L.Stm32LinkSession.View, M.RetryExhausted, L.CheckTimeout;
      ghost var p, w, c := View(), wire, clock;
      ChecksDecide(p.link, p.motion, now);
      CheckSteps(p, now);
      link.CheckLinkTimeout(now);
      es := [CheckLink(now)];
      Record(CheckLink(now), p, w);
      if link.State() != L.Synchronized {
        return false, es;
      }
      var exhausted := motion.IsRetryExhausted(now);
      if exhausted {
        return false, es;
      }
      ghost var e;
      ok, e := RetryPending(now, from);
      StampWidens(now, epochStart, from, c, from, clock);
      es := es + [e];
    }

    method RetryPending(now: u32, ghost from: nat) returns (ok: bool, ghost e: PiEvent)
      requires Valid() && state == Synchronized && from <= clock && StampOf(now, epochStart, from, clock)
      modifies this`clock, this`wire, this`events, this`transportFailed, motion
      ensures Core() && state == Synchronized && (ok ==> Valid()) && old(clock) <= clock
      ensures motion.State() == old(motion.State())
      ensures events == old(events) + [e] && e.Retry? && e.now == now && ok == e.fate.Sent?
      ensures Stamped(e, epochStart, from, clock)
    {
      hide PiRun, Accounted, WheelFrames, Starts, M.RetryIfDue, M.MarkTransmitted, StampOf;
      hide M.Stm32MotionSession.View, M.Stm32MotionSession.Valid, L.Stm32LinkSession.View, OnWire;
      ghost var p, w, c := View(), wire, clock;
      ghost var fate, at := Sent, now;
      var frame := motion.TakeRetryIfDue(now);
      RetryKeeps(p.motion, now, at);
      ok := true;
      if frame.Some? {
        ok, fate, at := TransmitPending(frame.value);
        RetryKeeps(p.motion, now, at);
        if ok {
          StampWidens(at, epochStart, c, clock, from, clock);
        }
      }
      StampWidens(now, epochStart, from, c, from, clock);
      e := Retry(now, fate, at);
      Record(e, p, w);
    }

    /** A fresh nonzero command and no session: a new one is started, under an arbitrary nonzero id. The branch
        "Failed to create MOTION_START" cannot be taken. */
    method StartIfWanted() returns (ok: bool, ghost es: seq<PiEvent>, ghost decided: nat)
      requires Valid() && state == Synchronized
      modifies this`clock, this`wire, this`events, this`motionSessionId, this`transportFailed, motion
      ensures Core() && state == Synchronized && (ok ==> Valid()) && old(clock) <= clock
      ensures events == old(events) + es && old(clock) <= decided <= clock && AllStamped(es, epochStart, old(clock), clock)
      ensures if old(motion.State()) == M.Inactive && Wants(sets, |epochs|, decided)
              then |es| == 1 && es[0].StartSession? && es[0].sessionId == motionSessionId != 0 && ok == es[0].fate.Sent?
              else es == [] && ok
      ensures motion.State() == if es == [] then old(motion.State()) else M.StartPending
    {
      hide Core, Attuned, Linked, IsFresh, IsZero, Wants;
      var now := ReadClock();
      Reads(now);
      decided, es := now, [];
      if motion.State() != M.Inactive || !IsFresh(now) || IsZero(latestCommand.value) {
        return true, es, decided;
      }
      var id: u32 :| id != 0;
      ghost var e, c;
      c := clock;
      ok, e := StartSessionAs(id);
      es := [e];
      StampedWidens(es, epochStart, c, clock, old(clock), clock);
    }

    method StartSessionAs(id: u32) returns (ok: bool, ghost e: PiEvent)
      requires Valid() && state == Synchronized && motion.State() == M.Inactive
      modifies this`clock, this`wire, this`events, this`motionSessionId, this`transportFailed, motion
      ensures Core() && state == Synchronized && (ok ==> Valid()) && old(clock) <= clock
      ensures events == old(events) + [e] && e.StartSession? && e.sessionId == motionSessionId == id && ok == e.fate.Sent?
      ensures Stamped(e, epochStart, old(clock), clock)
      ensures motion.State() == M.StartPending
    {
      hide Current, PiRun, Accounted, WheelFrames, Starts, M.BeginStart, M.MarkTransmitted, PiStep, PiEnabled, Follows,
           Paced, M.Coherent, OnWire;
      hide M.Stm32MotionSession.View, M.Stm32MotionSession.Valid, L.Stm32LinkSession.View;
      ghost var p, w := View(), wire;
      SessionsSoFar();
      PacedStarts(log, lastWheelTransmitTime, Starts(events));
      motionSessionId := id;
      motion.IsCoherent();
      StartBegins(p.motion, id, 0);
      var frame := motion.BeginStartSession(id);
      assert frame.Some?;
      ghost var fate, at;
      ok, fate, at := TransmitPending(frame.value);
      StartBegins(p.motion, id, at);
      LifecycleSteps(p, id, fate, at);
      e := StartSession(id, fate, at);
      Record(e, p, w);
      StillCurrent();
    }

    /** A wheel frame goes out if the session is active, the command fresh and nonzero, and the period over. */
    method DriveIfWanted(now: nat) returns (ok: bool, ghost es: seq<PiEvent>)
      requires Valid() && state == Synchronized && now == clock
      modifies this`clock, this`wire, this`events, this`log, this`decided, this`lastWheelTransmitTime
      modifies this`transportFailed, motion
      ensures Core() && state == Synchronized && (ok ==> Valid()) && old(clock) <= clock
      ensures events == old(events) + es && LogGrew(old(log), now)
      ensures if && old(motion.State()) == M.Active && IsFresh(now) && !IsZero(latestCommand.value)
                 && (old(lastWheelTransmitTime) == 0 || now - old(lastWheelTransmitTime) >= 50_000_000)
              then && |es| == 1 && es[0].Drive? && ok == es[0].fate.Sent?
                   && es[0].left == latestCommand.value.left && es[0].right == latestCommand.value.right
              else es == [] && ok
      ensures motion.State() == old(motion.State())
    {
      hide PiRun, Accounted, WheelFrames, Starts, M.Coherent, Paced, Follows;
      hide M.Stm32MotionSession.View, M.Stm32MotionSession.Valid, L.Stm32LinkSession.View;
      if motion.State() == M.Active && IsFresh(now) && !IsZero(latestCommand.value)
         && (lastWheelTransmitTime == 0 || now - lastWheelTransmitTime >= WHEEL_TX_PERIOD) {
        ghost var e;
        ok, e := SendWheels(now, latestCommand.value);
        es := [e];
      } else {
        ok, es := true, [];
      }
    }

    method SendWheels(now: nat, c: Command) returns (ok: bool, ghost e: PiEvent)
      requires Valid() && state == Synchronized && now == clock && motion.State() == M.Active
      requires latestCommand == Some(c) && IsFresh(now) && !IsZero(c)
      requires lastWheelTransmitTime == 0 || now - lastWheelTransmitTime >= WHEEL_TX_PERIOD
      modifies this`clock, this`wire, this`events, this`log, this`decided, this`lastWheelTransmitTime
      modifies this`transportFailed, motion
      ensures Core() && state == Synchronized && (ok ==> Valid()) && old(clock) <= clock
      ensures events == old(events) + [e] && e.Drive? && e.left == c.left && e.right == c.right && ok == e.fate.Sent?
      ensures LogGrew(old(log), now)
      ensures motion.State() == M.Active
    {
      hide PiRun, Accounted, WheelFrames, Starts, OnWire, M.Coherent, Fresh, Paced, Spaced, PiStep, PiEnabled;
      hide M.Stm32MotionSession.View, M.Stm32MotionSession.Valid, L.Stm32LinkSession.View;
      ghost var p, w := View(), wire;
      SessionsSoFar();
      ghost var f;
      ok, f, e := LaunchWheels(c);
      ghost var confirmed := None;
      if ok {
        lastWheelTransmitTime := Now();
        confirmed := Some(lastWheelTransmitTime);
      } else {
        transportFailed := true;
      }
      ghost var x := WheelSent(f, c, |sets| - 1, |epochs|, Starts(events), now, confirmed, e.fate.Sent? || e.fate.delivered);
      EntryIsFresh(x, sets, epochs, epochStart, latestCommandTime);
      EntryFits(x, log, Starts(events), p.motion.state, old(lastWheelTransmitTime));
      PacedNow(log, x, Starts(events));
      RecordDrive(e, p, w, x);
    }

    /** At most one wheel frame more, decided at `from` or later. */
    ghost predicate LogGrew(before: seq<WheelSent>, from: nat)
      reads this
    {
      && before <= log && |log| <= |before| + 1
      && (|log| > |before| ==>
            && from <= log[|log| - 1].decidedAt <= clock
            && (log[|log| - 1].confirmedAt.Some? ==>
                  log[|log| - 1].decidedAt <= log[|log| - 1].confirmedAt.value <= clock))
    }

    /** At most one epoch more, begun at `from` or later. */
    ghost predicate EpochsGrew(before: seq<nat>, from: nat)
      reads this
    {
      && before <= epochs && |epochs| <= |before| + 1
      && (|epochs| > |before| ==> from <= epochs[|epochs| - 1] <= clock)
    }

    /** The branch "Failed to create WHEEL_VELOCITY" cannot be taken; the frame carries the command for the session that
        is active. */
    method LaunchWheels(c: Command) returns (ok: bool, ghost f: ToStm, ghost e: PiEvent)
      requires motion.Valid() && motion.State() == M.Active && state == Synchronized
      modifies this`wire, motion
      ensures motion.Valid() && motion.View().state == M.Active && motion.View().activeId == old(motion.View().activeId)
      ensures e.Drive? && e.left == c.left && e.right == c.right && ok == e.fate.Sent?
      ensures PiEnabled(old(View()), e) && View() == PiStep(old(View()), e).0
      ensures wire == old(wire) + PiStep(old(View()), e).1
      ensures f.WheelVelocity? && f.wheels == Some(Wheels(motion.View().activeId, c.left, c.right))
      ensures WheelFrames(wire) == WheelFrames(old(wire)) + if e.fate.Sent? || e.fate.delivered then [f] else []
    {
      hide WheelFrames, M.BuildWheel, M.Coherent, PiStep, PiEnabled;
      hide M.Stm32MotionSession.View, M.Stm32MotionSession.Valid, L.Stm32LinkSession.View;
      ghost var p := View();
      WheelBuilds(p.motion, c);
      var frame := motion.BuildWheelVelocity(c.left, c.right);
      assert frame.Some?;
      f := frame.value;
      ghost var fate;
      ok, fate := Send(frame.value);
      DriveSteps(p, c, fate);
      e := Drive(c.left, c.right, fate);
    }

    /** A stale or zero command ends an active session. The branch "Failed to create MOTION_END" cannot be taken. */
    method EndIfWanted(now: nat) returns (ok: bool, ghost es: seq<PiEvent>)
      requires Valid() && state == Synchronized
      modifies this`clock, this`wire, this`events, this`lastWheelTransmitTime, this`transportFailed, motion
      ensures Core() && state == Synchronized && (ok ==> Valid()) && old(clock) <= clock
      ensures events == old(events) + es && AllStamped(es, epochStart, old(clock), clock)
      ensures if old(motion.State()) == M.Active && (!IsFresh(now) || IsZero(latestCommand.value))
              then |es| == 1 && es[0].EndSession? && es[0].sessionId == motionSessionId && ok == es[0].fate.Sent?
              else es == [] && ok
    {
      hide Core, Attuned, Linked;
      es := [];
      if motion.State() != M.Active || (IsFresh(now) && !IsZero(latestCommand.value)) {
        return true, es;
      }
      ghost var e;
      ok, e := EndActive();
      es := [e];
    }

    method EndActive() returns (ok: bool, ghost e: PiEvent)
      requires Valid() && state == Synchronized && motion.State() == M.Active
      modifies this`clock, this`wire, this`events, this`lastWheelTransmitTime, this`transportFailed, motion
      ensures Core() && state == Synchronized && (ok ==> Valid()) && old(clock) <= clock
      ensures events == old(events) + [e] && e.EndSession? && e.sessionId == motionSessionId && ok == e.fate.Sent?
      ensures Stamped(e, epochStart, old(clock), clock)
    {
      hide Current, PiRun, Accounted, WheelFrames, Starts, M.BeginEnd, M.MarkTransmitted, PiStep, PiEnabled, M.Coherent;
      hide OnWire, Paced;
      hide M.Stm32MotionSession.View, M.Stm32MotionSession.Valid, L.Stm32LinkSession.View;
      ghost var p, w := View(), wire;
      motion.IsCoherent();
      EndBegins(p.motion, 0);
      var frame := motion.BeginEndSession(motionSessionId);
      assert frame.Some?;
      ghost var fate, at;
      ok, fate, at := TransmitPending(frame.value);
      EndBegins(p.motion, at);
      LifecycleSteps(p, motionSessionId, fate, at);
      e := EndSession(motionSessionId, fate, at);
      Record(e, p, w);
      PacedEnds(log, Starts(events));
      if ok {
        lastWheelTransmitTime := 0;
      }
      StillCurrent();
    }

    method BeatIfDue(now: u32, ghost from: nat) returns (ok: bool, ghost e: PiEvent)
      requires Valid() && state == Synchronized && from <= clock && StampOf(now, epochStart, from, clock)
      modifies this`clock, this`wire, this`events, this`transportFailed, link
      ensures Core() && state == Synchronized && (ok ==> Valid()) && old(clock) <= clock
      ensures events == old(events) + [e] && e.Beat? && e.now == now && ok == e.fate.Sent?
      ensures Stamped(e, epochStart, from, clock)
    {
      hide PiRun, Accounted, WheelFrames, Starts, M.Coherent, Paced, Follows, StampOf, L.HeartbeatIfDue, PiStep, PiEnabled;
      hide M.Stm32MotionSession.View, M.Stm32MotionSession.Valid, L.Stm32LinkSession.View;
      ghost var p, w := View(), wire;
      ghost var fate := Sent;
      ChecksDecide(p.link, p.motion, now);
      var frame := link.TakeHeartbeatIfDue(now);
      BeatSteps(p, now, fate);
      ok := true;
      if frame.Some? {
        ok, fate := Send(frame.value);
        BeatSteps(p, now, fate);
        if !ok {
          transportFailed := true;
        }
      }
      e := Beat(now, fate);
      Record(e, p, w);
    }

    /** One decoded frame, offered to the heartbeat, the ACK and the response handler in turn. */
    method HearFrame(f: ToPi) returns (ok: bool, ghost e: PiEvent)
      requires Valid() && state == Synchronized
      modifies this`clock, this`events, this`motionSessionId, this`lastWheelTransmitTime, link, motion
      ensures Core() && state == Synchronized && (ok ==> Valid()) && old(clock) <= clock
      ensures events == old(events) + [e] && e.Hear? && e.f == f && Stamped(e, epochStart, old(clock), clock)
      ensures !ok <==>
                old(link.View()).heartbeatPending && f == HeartbeatReply(old(link.View()).heartbeatSequence, 0x00)
    {
      hide PiRun, Accounted, WheelFrames, Starts, M.Coherent, M.Receive, Paced, Follows, L.HandleHeartbeat, PiStep, PiEnabled;
      hide M.Stm32MotionSession.View, M.Stm32MotionSession.Valid, L.Stm32LinkSession.View;
      ghost var p, w := View(), wire;
      var t := Now();
      var now := Ms(t);
      e := Hear(f, now);
      RepliesDecide(p.link, f, now);
      HeartbeatHears(p, f, now);
      var accepted := link.OnHeartbeatResponse(f, now);
      if accepted || link.State() == L.Disconnected {
        Record(e, p, w);
        return accepted, e;
      }
      HearMotion(f, now);
      return true, e;
    }

    method HearMotion(f: ToPi, now: u32)
      requires Valid() && state == Synchronized
      requires L.HandleHeartbeat(link.View(), f, now) == (link.View(), false) && link.State() != L.Disconnected
      modifies this`events, this`motionSessionId, this`lastWheelTransmitTime, motion
      ensures Valid() && state == Synchronized && events == old(events) + [Hear(f, now)]
    {
      hide PiRun, Accounted, WheelFrames, Starts, M.Coherent, M.HandleAck, M.HandleResponse, M.AckMatches;
      hide L.HandleHeartbeat, PiStep, PiEnabled;
      hide M.Stm32MotionSession.View, M.Stm32MotionSession.Valid, L.Stm32LinkSession.View;
      ghost var p := View();
      motion.IsCoherent();
      AckKeeps(p.motion, f, now);
      ResponseEnds(p.motion, f, motionSessionId);
      var acked := motion.OnAck(f, now);
      if !acked {
        var previous := motion.State();
        var result := motion.OnResponse(f);
        if result.Some? {
          if previous == M.StartPending {
            if motion.State() != M.Active {
              motionSessionId, lastWheelTransmitTime := 0, 0;
            }
          } else if previous == M.EndPending {
            motionSessionId, lastWheelTransmitTime := 0, 0;
          }
        }
      }
      MotionHears(p, f, now);
      Record(Hear(f, now), p, wire);
    }

    /** Everything the port delivered is heard, in order, unless a reply ends the epoch. */
    method HearAll(reading: Reading) returns (ok: bool, ghost es: seq<PiEvent>)
      requires Valid() && state == Synchronized
      modifies this`clock, this`events, this`motionSessionId, this`lastWheelTransmitTime, this`transportFailed, link, motion
      ensures Core() && state == Synchronized && (ok ==> Valid()) && old(clock) <= clock
      ensures events == old(events) + es && forall i :: 0 <= i < |es| ==> es[i].Hear?
      ensures Heard(es) <= FramesOf(reading) && (ok ==> Heard(es) == FramesOf(reading))
      ensures (reading.Gone? ==> !ok) && (!ok ==> reading.Gone? || ReportsLoss(FramesOf(reading)))
      ensures AllStamped(es, epochStart, old(clock), clock)
    {
      hide Core, Attuned, Linked, L.HandleHeartbeat, Heard, Stamped;
      es := [];
      NoneHeard();
      match reading
      case Gone =>
        MarkGone();
        return false, es;
      case Quiet =>
        return true, es;
      case Frames(frames) =>
        for i := 0 to |frames|
          invariant Valid() && state == Synchronized && old(clock) <= clock
          invariant events == old(events) + es && forall k :: 0 <= k < |es| ==> es[k].Hear?
          invariant Heard(es) == frames[..i] && AllStamped(es, epochStart, old(clock), clock)
        {
          ghost var e, c;
          c := clock;
          ok, e := HearFrame(frames[i]);
          StampedWidens(es, epochStart, old(clock), c, old(clock), clock);
          StampedWidens([e], epochStart, c, clock, old(clock), clock);
          EventsMore(es, e);
          es := es + [e];
          assert frames[..i + 1] == frames[..i] + [frames[i]];
          if !ok {
            return false, es;
          }
        }
        assert frames[..|frames|] == frames;
        return true, es;
    }

    method MarkGone()
      requires Valid()
      modifies this`transportFailed
      ensures Valid()
    {
      hide PiRun, Accounted, Starts, Follows, Paced;
      transportFailed := true;
    }

    method ReadClock() returns (t: nat)
      requires Valid()
      modifies this`clock
      ensures Valid() && t == clock && old(clock) <= clock
    {
      hide PiRun, Accounted, WheelFrames, Starts, Follows, Paced;
      t := Now();
    }

    /** The first half of an iteration: everything about the motion session that may be sent. */
    method Decide(now: u32, ghost from: nat) returns (ok: bool, ghost round: Round, ghost t: nat, ghost u: nat)
      requires Valid() && state == Synchronized && from <= clock && StampOf(now, epochStart, from, clock)
      modifies this`clock, this`wire, this`events, this`log, this`decided, this`lastWheelTransmitTime, this`motionSessionId
      modifies this`transportFailed, link, motion
      ensures Core() && state == Synchronized && (ok ==> Valid()) && old(clock) <= clock
      ensures events == old(events) + round.upkeep + round.start + round.drive + round.end
      ensures Sane(round) && round.beat == round.heard == [] && (ok ==> Sending(round, now))
      ensures LogGrew(old(log), old(clock)) && RoundStamped(round, epochStart, from, clock)
      ensures round.upkeep != [] && round.upkeep[0] == CheckLink(now)
      ensures ok <==> !Overdue(old(link.View()), now) && !Exhausted(old(motion.View()), now) && !RoundFailed(round)
      ensures ok ==>
                && from <= t <= u <= clock && DecidesStart(old(motion.State()), sets, |epochs|, round, t)
                && DecidesWheels(old(motion.State()), sets, old(log), |epochs|, Starts(old(events)), round, u)
    {
      hide Core, Attuned, Linked, Overdue, Exhausted, StampOf, RoundStamped, RoundFailed, Wants, WheelDue, Starts,
           DecidesWheels;
      ghost var before;
      ok, round, t := UpkeepAndStart(now, from);
      u := t;
      if !ok {
        return;
      }
      before := round;
      ghost var was := motion.State();
      ok, round, u := DriveOrEnd(round, from);
      if ok {
        StartOrWheels(old(motion.State()), was, sets, old(log), |epochs|, Starts(old(events)), before, round, t, u);
      }
    }

    /** Its first part: the link check, the retry, and a start. */
    method UpkeepAndStart(now: u32, ghost from: nat) returns (ok: bool, ghost round: Round, ghost t: nat)
      requires Valid() && state == Synchronized && from <= clock && StampOf(now, epochStart, from, clock)
      modifies this`clock, this`wire, this`events, this`motionSessionId, this`transportFailed, link, motion
      ensures Core() && state == Synchronized && (ok ==> Valid()) && old(clock) <= clock
      ensures events == old(events) + round.upkeep + round.start
      ensures Sane(round) && round.drive == round.end == round.beat == round.heard == [] && (ok ==> Sending(round, now))
      ensures RoundStamped(round, epochStart, from, clock)
      ensures round.upkeep != [] && round.upkeep[0] == CheckLink(now)
      ensures ok <==> !Overdue(old(link.View()), now) && !Exhausted(old(motion.View()), now) && !RoundFailed(round)
      ensures ok ==> from <= t <= clock && DecidesStart(old(motion.State()), sets, |epochs|, round, t)
      ensures ok ==> motion.State() == if round.start == [] then old(motion.State()) else M.StartPending
      ensures round.start == [] ==> Starts(events) == Starts(old(events))
    {
      hide Core, Attuned, Linked, Overdue, Exhausted, Stamped, StampOf, AllStamped, RoundStamped, SendFailed, RoundFailed,
           Wants, Starts;
      round, t := NO_ROUND, 0;
      NothingStamped(epochStart, from, from);
      ghost var es, c, r := [], clock, round;
      ok, es := LinkAndRetry(now, from);
      StartsBoth(old(events), es);
      round := round.(upkeep := es);
      PartAdds(r, round, es, epochStart, from, from, from, clock);
      FailedAmong(es);
      if !ok {
        return;
      }
      c, r := clock, round;
      ok, es, t := StartIfWanted();
      assert es == [] ==> events == old(events) + round.upkeep;
      round := round.(start := es);
      PartAdds(r, round, es, epochStart, from, c, c, clock);
      FailedAmong(es);
    }

    /** Its last part: one reading of the clock decides about a wheel frame and about the end of the session. */
    method DriveOrEnd(ghost so: Round, ghost from: nat) returns (ok: bool, ghost round: Round, ghost u: nat)
      requires Valid() && state == Synchronized && from <= clock && RoundStamped(so, epochStart, from, clock)
      requires so.drive == so.end == []
      modifies this`clock, this`wire, this`events, this`log, this`decided, this`lastWheelTransmitTime
      modifies this`transportFailed, motion
      ensures Core() && state == Synchronized && (ok ==> Valid()) && old(clock) <= clock
      ensures events == old(events) + round.drive + round.end && round == so.(drive := round.drive, end := round.end)
      ensures LogGrew(old(log), old(clock)) && RoundStamped(round, epochStart, from, clock)
      ensures round.drive == [] || (|round.drive| == 1 && round.drive[0].Drive?)
      ensures round.end == [] || (|round.end| == 1 && round.end[0].EndSession?)
      ensures RoundFailed(round) <==> RoundFailed(so) || !ok
      ensures old(clock) <= u <= clock
      ensures ok ==> DecidesWheels(old(motion.State()), sets, old(log), |epochs|, Starts(old(events)), round, u)
    {
      hide Wants, WheelDue, Starts;
      hide Core, Attuned, Linked, IsFresh, IsZero, Stamped, AllStamped, RoundStamped, SendFailed, RoundFailed;
      ghost var c, r, es := clock, so, [];
      var decision := ReadClock();
      u := decision;
      Reads(decision);
      ok, es := DriveIfWanted(decision);
      round := so.(drive := es);
      DrivesAreStamped(es, epochStart, c, clock);
      PartAdds(r, round, es, epochStart, from, c, c, clock);
      FailedAmong(es);
      if !ok {
        return;
      }
      c, r := clock, round;
      ok, es := EndIfWanted(decision);
      round := round.(end := es);
      PartAdds(r, round, es, epochStart, from, c, c, clock);
      FailedAmong(es);
    }

    /** run_synchronized_iteration: one round, in order, and complete unless it fails; what is heard is what the port
        delivered. */
    method SynchronizedIteration(reading: Reading) returns (ok: bool, ghost round: Round)
      requires Valid() && state == Synchronized
      modifies this`clock, this`wire, this`events, this`log, this`decided, this`lastWheelTransmitTime, this`motionSessionId
      modifies this`transportFailed, link, motion
      ensures Core() && state == Synchronized && (ok ==> Valid()) && old(clock) <= clock
      ensures events == old(events) + Flat(round) && Sane(round) && Heard(round.heard) <= FramesOf(reading)
      ensures ok ==>
                && Heard(round.heard) == FramesOf(reading)
                && Serves(old(motion.State()), sets, old(log), |epochs|, Starts(old(events)), Flat(round), old(clock), clock)
      ensures LogGrew(old(log), old(clock)) && RoundStamped(round, epochStart, old(clock), clock)
      ensures round.upkeep != [] && round.upkeep[0].CheckLink?
      ensures var now := round.upkeep[0].now;
              && (!ok ==> || Overdue(old(link.View()), now) || Exhausted(old(motion.View()), now) || RoundFailed(round)
                          || reading.Gone? || ReportsLoss(FramesOf(reading)))
              && (ok ==> !Overdue(old(link.View()), now) && !Exhausted(old(motion.View()), now) && !RoundFailed(round)
                         && !reading.Gone?)
    {
      hide Core, Attuned, Linked, Flat, Sending, Heard, Overdue, Exhausted, AllStamped, Stamped, StampOf, ReportsLoss,
           SendFailed, DecidesStart, DecidesWheels, Starts;
      ghost var from := clock;
      var t := ReadClock();
      var now := Ms(t);
      ReadNow(now, epochStart, from, t);
      ghost var es, e, c, decidedAt, u;
      ok, round, decidedAt, u := Decide(now, from);
      Flattened(old(events), round);
      NoneHeard();
      if !ok {
        return;
      }
      ghost var sending, sent := round, round;
      c := clock;
      StampWidens(now, epochStart, from, t, from, clock);
      ok, e := BeatIfDue(now, from);
      FailedAmong([e]);
      round := round.(beat := [e]);
      OnlyOne(e, epochStart, from, clock);
      PartAdds(sent, round, [e], epochStart, from, c, from, clock);
      Flattened(old(events), round);
      if !ok {
        return;
      }
      sent, c := round, clock;
      ok, es := HearAll(reading);
      HearsDoNotFail(es);
      round := round.(heard := es);
      PartAdds(sent, round, es, epochStart, from, c, c, clock);
      Flattened(old(events), round);
      SendingKept(sending, round, now);
      if ok {
        DecidesAlike(old(motion.State()), sets, old(log), |epochs|, Starts(old(events)), sending, round, decidedAt, u);
        assert ServesAs(old(motion.State()), sets, old(log), |epochs|, Starts(old(events)), round, decidedAt, u, from, clock);
      }
    }

    /** run_synchronizing_iteration: false also when the link has just become synchronised. */
    method SynchronizingIteration(reading: Reading) returns (wait: bool, ghost es: seq<PiEvent>)
      requires Valid() && state == Synchronizing
      modifies this`clock, this`events, this`state, this`transportFailed, link
      ensures Valid() && state != Disconnected && (wait ==> state == Synchronizing) && old(clock) <= clock
      ensures events == old(events) + es && Heard(es) <= FramesOf(reading) && Opens(es) == 0
      ensures AllStamped(es, epochStart, old(clock), clock)
      ensures !wait && state != Synchronized ==> reading.Gone? || clock >= syncDeadline
      ensures old(clock) >= syncDeadline ==> !wait && state == Synchronizing
      ensures var answer := LinkSyncOk(old(link.View()).syncSequence, old(link.View()).syncToken);
              && (clock < syncDeadline && answer in FramesOf(reading) ==> state == Synchronized)
              && (state == Synchronized ==> answer in FramesOf(reading))
    {
      hide Core, Attuned, Linked, L.HandleSyncOk, Heard, Opens, Stamped, L.Stm32LinkSession.View;
      es := [];
      NoneHeard();
      var now := ReadClock();
      if now >= syncDeadline {
        return false, es;
      }
      match reading
      case Gone =>
        MarkGone();
        return false, es;
      case Quiet =>
        return true, es;
      case Frames(frames) =>
        for i := 0 to |frames|
          invariant Valid() && state == Synchronizing && old(clock) <= clock
          invariant events == old(events) + es && Heard(es) == frames[..i] && Opens(es) == 0
          invariant AllStamped(es, epochStart, old(clock), clock) && link.View() == old(link.View())
          invariant LinkSyncOk(link.View().syncSequence, link.View().syncToken) !in frames[..i]
        {
          var accepted;
          ghost var e, c;
          c := clock;
          accepted, e := HearSync(frames[i]);
          StampedWidens(es, epochStart, old(clock), c, old(clock), clock);
          StampedWidens([e], epochStart, c, clock, old(clock), clock);
          EventsMore(es, e);
          es := es + [e];
          assert frames[..i + 1] == frames[..i] + [frames[i]];
          if accepted {
            return false, es;
          }
        }
        return true, es;
    }

    method HearSync(f: ToPi) returns (accepted: bool, ghost e: PiEvent)
      requires Valid() && state == Synchronizing
      modifies this`clock, this`events, this`state, link
      ensures Valid() && state == (if accepted then Synchronized else Synchronizing) && old(clock) <= clock
      ensures events == old(events) + [e] && e.Hear? && e.f == f && Stamped(e, epochStart, old(clock), clock)
      ensures accepted <==> f == LinkSyncOk(old(link.View()).syncSequence, old(link.View()).syncToken)
      ensures !accepted ==> link.View() == old(link.View())
    {
      hide PiRun, Accounted, WheelFrames, Starts, M.Coherent, Paced, Follows, PiStep, PiEnabled, L.HandleSyncOk;
      hide M.Stm32MotionSession.View, M.Stm32MotionSession.Valid, L.Stm32LinkSession.View;
      ghost var p := View();
      var t := Now();
      var now := Ms(t);
      SyncDecides(p.link, f, now);
      accepted := link.OnLinkSyncOk(f, now);
      if accepted {
        state := Synchronized;
      }
      SyncHears(p, f, now);
      e := Hear(f, now);
      Record(e, p, wire);
    }

    method ScheduleReconnect()
      requires Valid()
      modifies this`clock, this`reconnectDeadline
      ensures Valid() && old(clock) <= clock && reconnectDeadline == clock + RECONNECT_DELAY
    {
      hide PiRun, Accounted, WheelFrames, Starts;
      var now := Now();
      reconnectDeadline := now + RECONNECT_DELAY;
    }

    /** What both the end and the beginning of an epoch do: no link, no session, no command. */
    method Forget()
      requires motion.Valid()
      modifies this`motionSessionId, this`latestCommand, this`latestCommandTime, this`lastWheelTransmitTime, link, motion
      ensures motion.Valid() && Attuned() && latestCommand == None && motionSessionId == 0 && lastWheelTransmitTime == 0
      ensures link.View() == L.Disconnect(old(link.View())) && motion.View() == M.Reset(old(motion.View()))
    {
      hide M.Coherent, M.Reset, L.Disconnect, Paced, Follows, Starts;
      hide M.Stm32MotionSession.View, M.Stm32MotionSession.Valid, L.Stm32LinkSession.View;
      ResetForgets(motion.View(), Starts(events), log);
      link.DisconnectLink();
      motion.ResetSession();
      motionSessionId, latestCommand, latestCommandTime, lastWheelTransmitTime := 0, None, 0, 0;
    }

    /** disconnect_current_epoch: the command goes with the epoch. */
    method DisconnectEpoch()
      requires Core()
      modifies this`state, this`motionSessionId, this`latestCommand, this`latestCommandTime
      modifies this`lastWheelTransmitTime, this`events, link, motion
      ensures Valid() && state == Disconnected && latestCommand == None && events == old(events) + [Drop]
    {
      hide PiRun, Accounted, WheelFrames, Starts, M.Coherent, PiStep, PiEnabled, M.Reset, L.Disconnect, Paced, Follows;
      hide M.Stm32MotionSession.View, M.Stm32MotionSession.Valid, L.Stm32LinkSession.View;
      ghost var p := View();
      state := Disconnected;
      Forget();
      DropSteps(p);
      Record(Drop, p, wire);
    }

    /** begin_connection_epoch. */
    method BeginEpoch(token: Token) returns (ok: bool, ghost es: seq<PiEvent>)
      requires Valid() && state == Disconnected
      modifies this`clock, this`wire, this`events, this`epochs, this`transportFailed, this`state, this`epochStart
      modifies this`motionSessionId, this`latestCommand, this`latestCommandTime, this`lastWheelTransmitTime
      modifies this`reconnectDeadline, this`syncDeadline, link, motion
      ensures Valid() && old(clock) <= clock && EpochsGrew(old(epochs), old(clock))
      ensures if ok then state == Synchronizing && latestCommand == None else state == Disconnected
      ensures ok ==> epochStart + 1_000_000_000 <= syncDeadline <= clock + 1_000_000_000
      ensures events == old(events) + es && (es == [] || (|es| == 1 && es[0].Open? && es[0].token == token))
    {
      hide Core, Attuned, Linked, L.Stm32LinkSession.View;
      es := [];
      var available: bool := *;
      if !available {
        ScheduleReconnect();
        return false, es;
      }
      ghost var e;
      ok, e := OpenEpoch(token);
      es := [e];
      if ok {
        ScheduleSyncTimeout();
      } else {
        ScheduleReconnect();
      }
    }

    method ScheduleSyncTimeout()
      requires Core() && Attuned() && state == Synchronizing && link.View().state == L.SyncPending
      modifies this`clock, this`syncDeadline
      ensures Valid() && old(clock) <= clock && epochStart + 1_000_000_000 <= syncDeadline == clock + 1_000_000_000
    {
      hide PiRun, Accounted, WheelFrames, Starts, Follows, Paced, M.Coherent;
      hide M.Stm32MotionSession.View, M.Stm32MotionSession.Valid, L.Stm32LinkSession.View;
      var now := Now();
      syncDeadline := now + SYNC_TIMEOUT;
    }

    /** The part of it that follows the opening of the device: everything of the previous epoch is forgotten, then
        LINK_SYNC goes out with the token; one Open event, in an epoch that begins now. */
    method OpenEpoch(token: Token) returns (ok: bool, ghost e: PiEvent)
      requires Valid() && state == Disconnected
      modifies this`clock, this`wire, this`events, this`epochs, this`transportFailed, this`state, this`epochStart
      modifies this`motionSessionId, this`latestCommand, this`latestCommandTime, this`lastWheelTransmitTime, link, motion
      ensures Core() && Attuned() && old(clock) <= epochStart == clock && latestCommand == None
      ensures if ok then state == Synchronizing && link.View().state == L.SyncPending else Valid() && state == Disconnected
      ensures ok ==> link.View().syncToken == token && wire == old(wire) + [LinkSync(link.View().syncSequence, Some(token))]
      ensures events == old(events) + [e] && e.Open? && e.token == token && ok == e.fate.Sent?
      ensures epochs == old(epochs) + [epochStart]
    {
      hide PiRun, Accounted, WheelFrames, Starts, M.Coherent, PiStep, PiEnabled, M.Reset, L.Disconnect,
           L.BeginSynchronization, Paced, Follows, OnWire;
      hide M.Stm32MotionSession.View, M.Stm32MotionSession.Valid, L.Stm32LinkSession.View;
      ghost var p, w := View(), wire;
      Forget();
      epochStart := Now();
      ghost var fate;
      ResetForgets(p.motion, Starts(events), log);
      ok, fate := SendSync(p.link, token);
      OpenSteps(p, token, fate);
      BeginningDecides(p.link, token);
      e := Open(token, fate);
      RecordOpen(e, p, w);
      SentIsOnWire(LinkSync(link.View().syncSequence, Some(token)));
    }

    method SendSync(ghost k: L.Link, token: Token) returns (ok: bool, ghost fate: Fate)
      requires motion.Valid() && Attuned() && state == Disconnected && link.View() == L.Disconnect(k)
      requires motion.View() == M.Reset(motion.View())
      modifies this`wire, this`transportFailed, this`state, link, motion
      ensures motion.Valid() && Attuned() && motion.View() == old(motion.View()) && ok == fate.Sent?
      ensures state == if ok then Synchronizing else Disconnected
      ensures var (d, f) := L.BeginSynchronization(L.Disconnect(k), token);
              && link.View() == (if ok then d else L.Disconnect(d))
              && wire == old(wire) + OnWire(f, fate)
      ensures WheelFrames(wire) == WheelFrames(old(wire))
    {
      hide M.Coherent, M.Reset, L.Disconnect, Paced, Follows, OnWire, WheelFrames, Starts;
      hide M.Stm32MotionSession.View, M.Stm32MotionSession.Valid, L.Stm32LinkSession.View;
      var frame := link.Synchronize(token);
      ok, fate := Send(frame);
      if ok {
        state := Synchronizing;
      } else {
        transportFailed := true;
        motion.ResetSession();
        link.DisconnectLink();
      }
    }

    /** poll: one step of whichever phase the client is in, given what the port would deliver and the next random token.
        A new epoch waits for the reconnect deadline; an epoch that ends sets it 500 ms ahead and takes the command with
        it. No command is set, and what is heard is what the port delivered, in order. */
    method Poll(reading: Reading, token: Token) returns (ghost es: seq<PiEvent>)
      requires Valid()
      modifies this, link, motion
      ensures Valid() && old(clock) <= clock && sets == old(sets)
      ensures events == old(events) + es && Heard(es) <= FramesOf(reading) && OpensWith(es, token)
      ensures LogGrew(old(log), old(clock)) && EpochsGrew(old(epochs), old(clock))
      ensures EpochLaw(old(View()), View(), reading, es, old(epochStart), old(clock), clock)
      ensures AllStamped(es, epochStart, old(clock), clock)
      ensures old(state) == state == Synchronized ==>
                Serves(old(motion.State()), sets, old(log), |old(epochs)|, Starts(old(events)), es, old(clock), clock)
      ensures old(state) != Disconnected ==> epochStart == old(epochStart)
      ensures old(state) == Synchronizing && old(clock) >= old(syncDeadline) ==> state == Disconnected
      ensures old(state) == Disconnected && state != Disconnected ==>
                && state == Synchronizing && latestCommand == None
                && epochStart + 1_000_000_000 <= syncDeadline <= clock + 1_000_000_000
                && (old(reconnectDeadline) == 0 || old(reconnectDeadline) <= clock)
      ensures old(state) != Disconnected && state == Disconnected ==>
                reconnectDeadline == clock + RECONNECT_DELAY && latestCommand == None
    {
      hide Core, Attuned, Linked, Heard, Opens, Serves, Starts;
      match state
      case Synchronized => es := PollSynchronized(reading);
      case Synchronizing => es := PollSynchronizing(reading);
      case Disconnected =>
        es := PollDisconnected(token);
        OneOpen(es, token);
        assert EpochLaw(old(View()), View(), reading, es, old(epochStart), old(clock), clock);
    }

    method PollSynchronized(reading: Reading) returns (ghost es: seq<PiEvent>)
      requires Valid() && state == Synchronized
      modifies this, link, motion
      ensures Valid() && old(clock) <= clock && sets == old(sets) && epochs == old(epochs) && LogGrew(old(log), old(clock))
      ensures events == old(events) + es && Heard(es) <= FramesOf(reading) && Opens(es) == 0
      ensures state == Disconnected ==> reconnectDeadline == clock + RECONNECT_DELAY && latestCommand == None
      ensures state != Synchronizing
      ensures EpochLaw(old(View()), View(), reading, es, epochStart, old(clock), clock) && epochStart == old(epochStart)
      ensures AllStamped(es, epochStart, old(clock), clock)
      ensures state == Synchronized ==>
                Serves(old(motion.State()), sets, old(log), |epochs|, Starts(old(events)), es, old(clock), clock)
    {
      hide Core, Attuned, Linked, Heard, Opens, Flat, Sane, Orderly, Accounted, PiRun, SendFailed, AllStamped, StampOf,
           RoundStamped, RoundFailed, Serves, Starts, Overdue, Exhausted, ReportsLoss;
      ghost var round;
      var ok;
      ghost var from := clock;
      ok, round := SynchronizedIteration(reading);
      ghost var c := clock;
      es := Flat(round);
      SaneHears(round);
      RoundInARow(round, epochStart, from, c);
      FirstIsStamped(es, epochStart, from, c);
      if !ok {
        EndEpoch();
        DropHears(old(events), es);
        StampedWidens(es, epochStart, from, c, from, clock);
        DropAdds(es, epochStart, from, clock);
        es := es + [Drop];
        FirstIsStamped(es, epochStart, from, clock);
      }
    }

    method PollSynchronizing(reading: Reading) returns (ghost es: seq<PiEvent>)
      requires Valid() && state == Synchronizing
      modifies this, link, motion
      ensures Valid() && old(clock) <= clock && sets == old(sets) && epochs == old(epochs) && log == old(log)
      ensures events == old(events) + es && Heard(es) <= FramesOf(reading) && Opens(es) == 0
      ensures state == Disconnected ==> reconnectDeadline == clock + RECONNECT_DELAY && latestCommand == None
      ensures EpochLaw(old(View()), View(), reading, es, epochStart, old(clock), clock) && epochStart == old(epochStart)
      ensures AllStamped(es, epochStart, old(clock), clock)
      ensures old(clock) >= old(syncDeadline) ==> state == Disconnected
    {
      hide Core, Attuned, Heard, Opens, Accounted, PiRun, SendFailed, AllStamped, StampOf;
      var wait;
      ghost var from := clock;
      wait, es := SynchronizingIteration(reading);
      ghost var c := clock;
      if !wait && state != Synchronized {
        EndEpoch();
        DropHears(old(events), es);
        StampedWidens(es, epochStart, from, c, from, clock);
        DropAdds(es, epochStart, from, clock);
        es := es + [Drop];
      }
    }

    /** The end of an epoch, and the wait before the next. */
    method EndEpoch()
      requires Core()
      modifies this`state, this`motionSessionId, this`latestCommand, this`latestCommandTime, this`lastWheelTransmitTime
      modifies this`events, this`clock, this`reconnectDeadline, link, motion
      ensures Valid() && state == Disconnected && latestCommand == None && events == old(events) + [Drop]
      ensures old(clock) <= clock && reconnectDeadline == clock + RECONNECT_DELAY
    {
      hide Core, Attuned, Linked;
      DisconnectEpoch();
      ScheduleReconnect();
    }

    method PollDisconnected(token: Token) returns (ghost es: seq<PiEvent>)
      requires Valid() && state == Disconnected
      modifies this`clock, this`wire, this`events, this`epochs, this`transportFailed, this`state, this`epochStart
      modifies this`motionSessionId, this`latestCommand, this`latestCommandTime, this`lastWheelTransmitTime
      modifies this`reconnectDeadline, this`syncDeadline, link, motion
      ensures Valid() && old(clock) <= clock && EpochsGrew(old(epochs), old(clock))
      ensures events == old(events) + es && (es == [] || (|es| == 1 && es[0].Open? && es[0].token == token))
      ensures state != Disconnected ==>
                && state == Synchronizing && latestCommand == None
                && epochStart + 1_000_000_000 <= syncDeadline <= clock + 1_000_000_000
                && (old(reconnectDeadline) == 0 || old(reconnectDeadline) <= clock)
    {
      hide Core, Attuned, Linked;
      es := [];
      var now := ReadClock();
      if reconnectDeadline != 0 && now < reconnectDeadline {
        return;
      }
      ForgetDeadline();
      var ok;
      ok, es := BeginEpoch(token);
    }

    method ForgetDeadline()
      requires Valid()
      modifies this`reconnectDeadline, this`transportFailed
      ensures Valid()
    {
      hide PiRun, Accounted, WheelFrames, Starts, Paced, Follows;
      reconnectDeadline, transportFailed := 0, false;
    }
  }

  lemma OneOpen(es: seq<PiEvent>, token: Token)
    requires es == [] || (|es| == 1 && es[0].Open? && es[0].token == token)
    ensures Heard(es) == [] && OpensWith(es, token)
  {
    NoneHeard();
    if es != [] {
      EventsMore([], es[0]);
      assert es == [] + [es[0]];
    }
  }

  /** At most one epoch is opened, with this token. */
  ghost predicate OpensWith(es: seq<PiEvent>, token: Token)
  {
    Opens(es) == 0 || (|es| == 1 && es[0].Open? && es[0].token == token)
  }

  // ---------- Whole runs ----------

  /** What the program around the client does: set a wheel command, or poll while the port and the random generator are
      in a certain state. */
  datatype Call = Set(command: Command) | Polled(reading: Reading, token: Token)

  function FramesIn(c: Call): seq<ToPi>
  {
    if c.Polled? then FramesOf(c.reading) else []
  }

  /** The set calls in order, each with the clock when it returned and the number of epochs opened by then. */
  function SetsIn(calls: seq<Call>, times: seq<nat>, rounds: seq<seq<PiEvent>>): seq<SetCall>
    requires |calls| == |times| == |rounds|
  {
    if calls == [] then []
    else
      var n := |calls| - 1;
      SetsIn(calls[..n], times[..n], rounds[..n]) +
        if calls[n].Set? then [SetCall(calls[n].command, times[n], Opens(Joined(rounds[..n])))] else []
  }

  lemma SetsMore(calls: seq<Call>, i: nat, times: seq<nat>, rounds: seq<seq<PiEvent>>, at: nat, es: seq<PiEvent>)
    requires i < |calls| && |times| == |rounds| == i
    ensures SetsIn(calls[..i + 1], times + [at], rounds + [es]) ==
              SetsIn(calls[..i], times, rounds) +
                if calls[i].Set? then [SetCall(calls[i].command, at, Opens(Joined(rounds)))] else []
  {
    hide Opens, Joined;
    assert calls[..i + 1][..i] == calls[..i] && (times + [at])[..i] == times && (rounds + [es])[..i] == rounds;
  }

  /** `t` is a moment of poll `i`: after the call before it returned, and not after it returned itself. */
  predicate DuringPoll(calls: seq<Call>, start: nat, times: seq<nat>, t: nat, i: int)
    requires |times| <= |calls|
  {
    0 <= i < |times| && calls[i].Polled? && (if i == 0 then start else times[i - 1]) <= t <= times[i]
  }

  /** The events of all calls, in order. */
  function Joined(rounds: seq<seq<PiEvent>>): seq<PiEvent>
  {
    if rounds == [] then [] else Joined(rounds[..|rounds| - 1]) + rounds[|rounds| - 1]
  }

  lemma {:induction false} JoinedMore(rounds: seq<seq<PiEvent>>, es: seq<PiEvent>)
    ensures Joined(rounds + [es]) == Joined(rounds) + es
  {
    assert (rounds + [es])[..|rounds|] == rounds;
  }

  /** Epoch `j` was opened in poll `i`, and began then. */
  predicate OpenedIn(calls: seq<Call>, start: nat, times: seq<nat>, rounds: seq<seq<PiEvent>>, epochs: seq<nat>, j: int, i: int)
    requires |times| == |rounds| <= |calls|
  {
    && 0 <= j < |epochs| && DuringPoll(calls, start, times, epochs[j], i)
    && Opens(Joined(rounds[..i])) == j < Opens(Joined(rounds[..i + 1]))
  }

  /** Wheel frame `k` was sent in poll `i`, and decided then. */
  predicate SentIn(calls: seq<Call>, start: nat, times: seq<nat>, rounds: seq<seq<PiEvent>>, log: seq<WheelSent>, k: int,
                   i: int)
    requires |times| == |rounds| <= |calls|
  {
    && 0 <= k < |log| && DuringPoll(calls, start, times, log[k].decidedAt, i)
    && |Occasions(Joined(rounds[..i]))| == k < |Occasions(Joined(rounds[..i + 1]))|
  }

  ghost predicate AllPlaced(calls: seq<Call>, start: nat, times: seq<nat>, rounds: seq<seq<PiEvent>>, epochs: seq<nat>,
                            log: seq<WheelSent>)
    requires |times| == |rounds| <= |calls|
  {
    && (forall j :: 0 <= j < |epochs| ==> Opened(calls, start, times, rounds, epochs, j))
    && (forall k :: 0 <= k < |log| ==> SentOnce(calls, start, times, rounds, log, k))
  }

  ghost predicate Opened(calls: seq<Call>, start: nat, times: seq<nat>, rounds: seq<seq<PiEvent>>, epochs: seq<nat>, j: int)
    requires |times| == |rounds| <= |calls|
  {
    exists i :: OpenedIn(calls, start, times, rounds, epochs, j, i)
  }

  ghost predicate SentOnce(calls: seq<Call>, start: nat, times: seq<nat>, rounds: seq<seq<PiEvent>>, log: seq<WheelSent>,
                           k: int)
    requires |times| == |rounds| <= |calls|
  {
    exists i :: SentIn(calls, start, times, rounds, log, k, i)
  }

  lemma {:induction false} OneOccasionEach(log: seq<WheelSent>)
    ensures |OccasionsOf(log)| == |log|
  {
    if log != [] {
      OneOccasionEach(log[..|log| - 1]);
    }
  }

  lemma EpochsPlaced(calls: seq<Call>, start: nat, times: seq<nat>, rounds: seq<seq<PiEvent>>, clock: nat, es: seq<PiEvent>,
                     epochs: seq<nat>, epochs': seq<nat>, j: int)
    requires |times| == |rounds| < |calls| && epochs <= epochs' && |epochs'| <= |epochs| + 1 && 0 <= j < |epochs'|
    requires j < |epochs| ==> Opened(calls, start, times, rounds, epochs, j)
    requires |epochs'| > |epochs| ==>
               && calls[|times|].Polled? && LastTime(start, times) <= epochs'[|epochs|] <= clock
               && Opens(Joined(rounds)) == |epochs| < Opens(Joined(rounds + [es]))
    ensures Opened(calls, start, times + [clock], rounds + [es], epochs', j)
  {
    hide Opens, Joined;
    if j < |epochs| {
      var i :| OpenedIn(calls, start, times, rounds, epochs, j, i);
      assert (rounds + [es])[..i] == rounds[..i] && (rounds + [es])[..i + 1] == rounds[..i + 1];
      assert OpenedIn(calls, start, times + [clock], rounds + [es], epochs', j, i);
    } else {
      var i := |times|;
      assert (rounds + [es])[..i] == rounds && (rounds + [es])[..i + 1] == rounds + [es];
      assert OpenedIn(calls, start, times + [clock], rounds + [es], epochs', j, i);
    }
  }

  lemma FramesPlaced(calls: seq<Call>, start: nat, times: seq<nat>, rounds: seq<seq<PiEvent>>, clock: nat, es: seq<PiEvent>,
                     log: seq<WheelSent>, log': seq<WheelSent>, k: int)
    requires |times| == |rounds| < |calls| && log <= log' && |log'| <= |log| + 1 && 0 <= k < |log'|
    requires k < |log| ==> SentOnce(calls, start, times, rounds, log, k)
    requires |log'| > |log| ==>
               && calls[|times|].Polled? && LastTime(start, times) <= log'[|log|].decidedAt <= clock
               && |Occasions(Joined(rounds))| == |log| < |Occasions(Joined(rounds + [es]))|
    ensures SentOnce(calls, start, times + [clock], rounds + [es], log', k)
  {
    hide Occasions, Joined;
    if k < |log| {
      var i :| SentIn(calls, start, times, rounds, log, k, i);
      assert (rounds + [es])[..i] == rounds[..i] && (rounds + [es])[..i + 1] == rounds[..i + 1];
      assert SentIn(calls, start, times + [clock], rounds + [es], log', k, i);
    } else {
      var i := |times|;
      assert (rounds + [es])[..i] == rounds && (rounds + [es])[..i + 1] == rounds + [es];
      assert SentIn(calls, start, times + [clock], rounds + [es], log', k, i);
    }
  }

  lemma PlacedMore(calls: seq<Call>, start: nat, times: seq<nat>, rounds: seq<seq<PiEvent>>, clock: nat, es: seq<PiEvent>,
                   epochs: seq<nat>, epochs': seq<nat>, log: seq<WheelSent>, log': seq<WheelSent>)
    requires |times| == |rounds| < |calls| && AllPlaced(calls, start, times, rounds, epochs, log)
    requires epochs <= epochs' && |epochs'| <= |epochs| + 1 && log <= log' && |log'| <= |log| + 1
    requires |epochs| == Opens(Joined(rounds)) && |epochs'| == Opens(Joined(rounds + [es]))
    requires |log| == |Occasions(Joined(rounds))| && |log'| == |Occasions(Joined(rounds + [es]))|
    requires |epochs'| > |epochs| ==> calls[|times|].Polled? && LastTime(start, times) <= epochs'[|epochs|] <= clock
    requires |log'| > |log| ==> calls[|times|].Polled? && LastTime(start, times) <= log'[|log|].decidedAt <= clock
    ensures AllPlaced(calls, start, times + [clock], rounds + [es], epochs', log')
  {
    hide Opens, Occasions, Joined, Opened, SentOnce;
    forall j | 0 <= j < |epochs'|
      ensures Opened(calls, start, times + [clock], rounds + [es], epochs', j)
    {
      EpochsPlaced(calls, start, times, rounds, clock, es, epochs, epochs', j);
    }
    forall k | 0 <= k < |log'|
      ensures SentOnce(calls, start, times + [clock], rounds + [es], log', k)
    {
      FramesPlaced(calls, start, times, rounds, clock, es, log, log', k);
    }
  }

  /** What the client has gone through before a call, as far as the laws of the call speak of it. */
  datatype Past = Past(pi: Pi, sets: seq<SetCall>, log: seq<WheelSent>, epochs: seq<nat>, starts: nat, clock: nat)

  /** What a call does in the epoch it finds: a set call nothing; a poll what the law of epochs says, and if the client
      stays synchronised it sends what it should. Every time its events carry is a moment of this call. */
  ghost predicate Obeys(c: Call, b: Past, q: Pi, es: seq<PiEvent>, to: nat)
  {
    && b.clock <= to && (c.Set? ==> es == [] && q == b.pi)
    && (c.Polled? && b.pi.phase != Disconnected ==>
          && b.epochs != []
          && EpochLaw(b.pi, q, c.reading, es, b.epochs[|b.epochs| - 1], b.clock, to)
          && AllStamped(es, b.epochs[|b.epochs| - 1], b.clock, to))
    && (c.Polled? && b.pi.phase == q.phase == Synchronized ==>
          Serves(b.pi.motion.state, b.sets, b.log, |b.epochs|, b.starts, es, b.clock, to))
  }

  /** The past after the first `i` calls, out of what the whole run leaves behind. */
  ghost function PastOf(calls: seq<Call>, start: nat, times: seq<nat>, rounds: seq<seq<PiEvent>>, epochs: seq<nat>,
                        log: seq<WheelSent>, pi: Pi, i: nat): Past
    requires i <= |times| == |rounds| <= |calls|
    requires Opens(Joined(rounds[..i])) <= |epochs| && |Occasions(Joined(rounds[..i]))| <= |log|
  {
    var es := Joined(rounds[..i]);
    Past(pi, SetsIn(calls[..i], times[..i], rounds[..i]), log[..|Occasions(es)|], epochs[..Opens(es)], Starts(es),
         LastTime(start, times[..i]))
  }

  ghost predicate Lawful(calls: seq<Call>, start: nat, times: seq<nat>, rounds: seq<seq<PiEvent>>, epochs: seq<nat>,
                         log: seq<WheelSent>, i: nat)
    requires i < |times| == |rounds| <= |calls|
  {
    var before, after := PiRun(Joined(rounds[..i])), PiRun(Joined(rounds[..i + 1]));
    && before.Some? && after.Some?
    && Opens(Joined(rounds[..i])) <= |epochs| && |Occasions(Joined(rounds[..i]))| <= |log|
    && Obeys(calls[i], PastOf(calls, start, times, rounds, epochs, log, before.value.0, i), after.value.0, rounds[i], times[i])
  }

  ghost predicate AllLawful(calls: seq<Call>, start: nat, times: seq<nat>, rounds: seq<seq<PiEvent>>, epochs: seq<nat>,
                            log: seq<WheelSent>)
    requires |times| == |rounds| <= |calls|
  {
    forall i :: 0 <= i < |times| ==> Lawful(calls, start, times, rounds, epochs, log, i)
  }

  /** Later calls do not change what an earlier one found and did. */
  lemma LawfulStays(calls: seq<Call>, start: nat, times: seq<nat>, rounds: seq<seq<PiEvent>>, clock: nat, es: seq<PiEvent>,
                    epochs: seq<nat>, epochs': seq<nat>, log: seq<WheelSent>, log': seq<WheelSent>, i: nat)
    requires i < |times| == |rounds| < |calls| && Lawful(calls, start, times, rounds, epochs, log, i)
    requires epochs <= epochs' && log <= log'
    ensures Lawful(calls, start, times + [clock], rounds + [es], epochs', log', i)
  {
    hide PiRun, Joined, Opens, Obeys, Occasions, Starts, SetsIn, LastTime;
    var times', rounds' := times + [clock], rounds + [es];
    assert rounds'[..i] == rounds[..i] && rounds'[..i + 1] == rounds[..i + 1] && times'[..i] == times[..i];
    assert log'[..|Occasions(Joined(rounds[..i]))|] == log[..|Occasions(Joined(rounds[..i]))|];
    assert epochs'[..Opens(Joined(rounds[..i]))] == epochs[..Opens(Joined(rounds[..i]))];
  }

  lemma LawfulNow(calls: seq<Call>, start: nat, times: seq<nat>, rounds: seq<seq<PiEvent>>, clock: nat, es: seq<PiEvent>,
                  epochs: seq<nat>, epochs': seq<nat>, log: seq<WheelSent>, log': seq<WheelSent>, p: Pi, q: Pi,
                  w: seq<ToStm>, w': seq<ToStm>)
    requires |times| == |rounds| < |calls| && epochs <= epochs' && log <= log'
    requires |epochs| == Opens(Joined(rounds)) && |log| == |Occasions(Joined(rounds))|
    requires PiRun(Joined(rounds)) == Some((p, w)) && PiRun(Joined(rounds + [es])) == Some((q, w'))
    requires var i := |times|;
             var past := Past(p, SetsIn(calls[..i], times, rounds), log, epochs, Starts(Joined(rounds)),
                              LastTime(start, times));
             Obeys(calls[i], past, q, es, clock)
    ensures Lawful(calls, start, times + [clock], rounds + [es], epochs', log', |times|)
  {
    hide PiRun, Joined, Opens, Obeys, Occasions, Starts, SetsIn, LastTime;
    var times', rounds', i := times + [clock], rounds + [es], |times|;
    assert rounds'[..i] == rounds && rounds'[..i + 1] == rounds' && times'[..i] == times;
    assert log'[..|log|] == log && epochs'[..|epochs|] == epochs;
  }

  lemma LawfulMore(calls: seq<Call>, start: nat, times: seq<nat>, rounds: seq<seq<PiEvent>>, clock: nat, es: seq<PiEvent>,
                   epochs: seq<nat>, epochs': seq<nat>, log: seq<WheelSent>, log': seq<WheelSent>)
    requires |times| == |rounds| < |calls| && AllLawful(calls, start, times, rounds, epochs, log)
    requires epochs <= epochs' && log <= log'
    requires Lawful(calls, start, times + [clock], rounds + [es], epochs', log', |times|)
    ensures AllLawful(calls, start, times + [clock], rounds + [es], epochs', log')
  {
    hide Lawful;
    forall i | 0 <= i < |times| + 1
      ensures Lawful(calls, start, times + [clock], rounds + [es], epochs', log', i)
    {
      if i < |times| {
        LawfulStays(calls, start, times, rounds, clock, es, epochs, epochs', log, log', i);
      }
    }
  }

  /** From power-up through any calls, whatever the port does. The recorded sets are the set calls, in order. Every wheel
      frame on the wire stands for a Drive event and serves the latest set call then, made in the same epoch less than
      200 ms before, with a nonzero command, at least 50 ms after the previous one of its session. What is heard in a poll
      is what the port delivered in it, in order. State and wire are those of the protocol party. Every epoch ends only for
      one of its reasons, and does not outlive them; and every round that lasts starts, drives and ends a session exactly when
      the calls and the clock ask for it. */
  method RunClient(start: nat, calls: seq<Call>)
      returns (r: Stm32ClientRunner, ghost rounds: seq<seq<PiEvent>>, ghost times: seq<nat>)
    requires 0 < start
    ensures r.Valid() && |rounds| == |times| == |calls|
    ensures PiRun(Joined(rounds)) == Some((r.View(), r.wire))
    ensures forall i :: 0 <= i < |calls| ==> Heard(rounds[i]) <= FramesIn(calls[i])
    ensures r.sets == SetsIn(calls, times, rounds)
    ensures WheelFrames(r.wire) == Carried(r.log) && Occasions(Joined(rounds)) == OccasionsOf(r.log)
    ensures |r.epochs| == Opens(Joined(rounds)) && AllPlaced(calls, start, times, rounds, r.epochs, r.log)
    ensures AllLawful(calls, start, times, rounds, r.epochs, r.log)
    ensures forall k :: 0 <= k < |r.log| ==> Fresh(r.log[k], r.sets, r.epochs)
    ensures forall k :: 0 < k < |r.log| ==> Spaced(r.log[k - 1], r.log[k])
  {
    hide PiRun, WheelFrames, Carried, Occasions, OccasionsOf, Opens, Heard, SetsIn, Joined, Fresh, Spaced, AllPlaced;
    hide AllLawful, Lawful, Obeys, Starts, Stm32ClientRunner.View;
    hide Stm32ClientRunner.Core, Stm32ClientRunner.Attuned, Stm32ClientRunner.Linked;
    r := new Stm32ClientRunner(start);
    rounds, times := [], [];
    NothingSet(calls, start);
    for i := 0 to |calls|
      invariant r.Valid() && fresh(r) && fresh(r.link) && fresh(r.motion)
      invariant |rounds| == |times| == i && r.events == Joined(rounds) && r.clock == LastTime(start, times)
      invariant forall k :: 0 <= k < i ==> Heard(rounds[k]) <= FramesIn(calls[k])
      invariant r.sets == SetsIn(calls[..i], times, rounds)
      invariant AllPlaced(calls, start, times, rounds, r.epochs, r.log)
      invariant AllLawful(calls, start, times, rounds, r.epochs, r.log)
    {
      ghost var es, log, epochs, w := [], r.log, r.epochs, r.wire;
      ghost var past := Remembered(r);
      Accounts(r);
      es := MakeCall(r, calls[i]);
      Accounts(r);
      SetsMore(calls, i, times, rounds, r.clock, es);
      JoinedMore(rounds, es);
      assert r.events == Joined(rounds) + es;
      PlacedMore(calls, start, times, rounds, r.clock, es, epochs, r.epochs, log, r.log);
      LawfulNow(calls, start, times, rounds, r.clock, es, epochs, r.epochs, log, r.log, past.pi, r.View(), w, r.wire);
      LawfulMore(calls, start, times, rounds, r.clock, es, epochs, r.epochs, log, r.log);
      rounds, times := rounds + [es], times + [r.clock];
    }
    assert calls[..|calls|] == calls;
    Accounts(r);
  }

  /** One call, whichever it is. */
  method MakeCall(r: Stm32ClientRunner, c: Call) returns (ghost es: seq<PiEvent>)
    requires r.Valid()
    modifies r, r.link, r.motion
    ensures r.Valid() && r.events == old(r.events) + es && Heard(es) <= FramesIn(c) && old(r.clock) <= r.clock
    ensures r.sets == old(r.sets) + if c.Set? then [SetCall(c.command, r.clock, |old(r.epochs)|)] else []
    ensures if c.Set? then es == [] && r.log == old(r.log) && r.epochs == old(r.epochs)
            else r.LogGrew(old(r.log), old(r.clock)) && r.EpochsGrew(old(r.epochs), old(r.clock))
    ensures Obeys(c, old(Remembered(r)), r.View(), es, r.clock)
  {
    hide PiRun, WheelFrames, Carried, Occasions, OccasionsOf, Opens, Heard, Fresh, Spaced, EpochLaw, AllStamped, Serves, Starts;
    hide Stm32ClientRunner.View, Stm32ClientRunner.Core, Stm32ClientRunner.Attuned, Stm32ClientRunner.Linked;
    hide Stm32ClientRunner.LogGrew, Stm32ClientRunner.EpochsGrew;
    es := [];
    Accounts(r);
    NoneHeard();
    match c {
      case Set(command) => r.SetWheelCommand(command);
      case Polled(reading, token) => es := r.Poll(reading, token);
    }
    Accounts(r);
  }

  ghost function Remembered(r: Stm32ClientRunner): Past
    reads r, r.link, r.motion
  {
    Past(r.View(), r.sets, r.log, r.epochs, Starts(r.events), r.clock)
  }

  function LastTime(start: nat, times: seq<nat>): nat
  {
    if times == [] then start else times[|times| - 1]
  }

  lemma Accounts(r: Stm32ClientRunner)
    requires r.Valid()
    ensures PiRun(r.events) == Some((r.View(), r.wire)) && |r.epochs| == Opens(r.events)
    ensures WheelFrames(r.wire) == Carried(r.log) && Occasions(r.events) == OccasionsOf(r.log)
    ensures Disciplined(r.log, r.sets, r.epochs) && |Occasions(r.events)| == |r.log|
    ensures r.state == r.View().phase && r.motion.State() == r.View().motion.state
    ensures r.state != Disconnected ==> r.epochs != [] && r.epochStart == r.epochs[|r.epochs| - 1]
  {
    hide PiRun, WheelFrames, Carried, Occasions, OccasionsOf, Opens, Disciplined;
    OneOccasionEach(r.log);
  }

  lemma NothingSet(calls: seq<Call>, start: nat)
    ensures SetsIn(calls[..0], [], []) == [] && Joined([]) == [] && AllPlaced(calls, start, [], [], [], [])
    ensures AllLawful(calls, start, [], [], [], [])
  {
  }
}
