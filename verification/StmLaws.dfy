/**
 What the STM32 says on the line and when, event by event and over whole runs: heartbeat replies tell the truth about the
 link, LINK_SYNC is echoed, commands are acknowledged and answered, and every stop that ends is reported
 (firmware/stm32/App/Src/uart_link_manager.c, stm32_motion_protocol_manager.c).
 */
module StmLaws {
  import opened Words
  import opened ReliableReceiver
  import opened Messages
  import opened StmParty
  import C = LifecycleCoordinator
  import R = LifecycleRuns
  import W = LifecycleLaws

  // ---------- The coordinator within the party ----------

  /** What an event of the party means to the coordinator: at most one delivery or completion, and perhaps a reset. */
  lemma StepMeans(v: Stm, e: StmEvent) returns (ms: seq<R.Event>)
    ensures StmStep(v, e).0.coordinator == R.RunFrom(v.coordinator, ms)
  {
    hide C.Deliver, C.Complete, C.Reset;
    var w := StmStep(v, e).0.coordinator;
    var first: seq<R.Event> := match e
      case Finish(success, _) => [R.Completed(v.coordinator.activeOperation, success)]
      case LoseLink => []
      case Take(f, _) =>
        if f.MotionCommand? && v.synced && f.body.Some?
        then [R.Delivered(Transaction(f.sequence, f.body.value.command, f.body.value.sessionId))] else [];
    FromOne(v.coordinator, first);
    ThenReset(v.coordinator, first);
    ms := if w == R.RunFrom(v.coordinator, first) then first else first + [R.WasReset];
  }

  lemma FromOne(c: C.Coordinator, ms: seq<R.Event>)
    requires |ms| <= 1
    ensures R.RunFrom(c, ms) == if ms == [] then c else R.Step(c, ms[0]).0
  {
    hide R.Step;
    if ms != [] {
      assert ms[..0] == [];
    }
  }

  lemma ThenReset(c: C.Coordinator, ms: seq<R.Event>)
    ensures R.RunFrom(c, ms + [R.WasReset]) == C.Reset(R.RunFrom(c, ms))
  {
    assert (ms + [R.WasReset])[..|ms|] == ms;
  }

  lemma {:induction false} RunsOn(a: seq<R.Event>, b: seq<R.Event>)
    ensures R.Run(a + b) == R.RunFrom(R.Run(a), b)
  {
    hide R.Step;
    if b == [] {
      assert a + b == a;
    } else {
      RunsOn(a, b[..|b| - 1]);
      assert (a + b)[..|a + b| - 1] == a + b[..|b| - 1];
    }
  }

  /** The coordinator of every run of the party is that of a run of its own: what is proved of those holds here. */
  lemma {:induction false} PartyRunsCoordinator(es: seq<StmEvent>) returns (ms: seq<R.Event>)
    ensures After(POWER_UP, es).coordinator == R.Run(ms) && C.Consistent(After(POWER_UP, es).coordinator)
  {
    hide StmStep, R.Step, C.Consistent;
    if es == [] {
      ms := [];
    } else {
      var before := PartyRunsCoordinator(es[..|es| - 1]);
      var more := StepMeans(After(POWER_UP, es[..|es| - 1]), es[|es| - 1]);
      ms := before + more;
      RunsOn(before, more);
    }
    R.RunConsistent(ms);
  }

  // ---------- Reports of stops ----------

  /** A stop that ends is reported to its owner, OK exactly if it succeeded; if that answer was reported as sent, a session
      is then active exactly after a START, and it is the owner's; without success or without an answer the link is down
      and there is no session. */
  lemma StopIsReported(v: Stm, e: StmEvent, t: Transaction, success: bool)
    requires C.Consistent(v.coordinator) && Completed(v, e) == [Completion(t, success)]
    ensures e.Finish? && e.success == success
    ensures StmStep(v, e).1 ==
              OnWire(MotionResponse(t.sequence, t.command, t.sessionId, if success then Ok else StopFailed), e.fate)
    ensures var w := StmStep(v, e).0;
            && w.coordinator.activeOperation == 0
            && (if success && e.fate.Sent?
                then && w.synced == v.synced
                     && (if t.command == 0x01 then w.coordinator.state == C.Active && w.coordinator.sessionId == t.sessionId
                         else w.coordinator.state == C.NoSession)
                else !w.synced && w.coordinator.state == C.NoSession)
  {
    W.CompletionAnswers(v.coordinator, success);
  }

  /** In every run, the answer to a stop that ended is on the wire if it was reported as sent. */
  lemma {:induction false} ReportIsOnTheWire(es: seq<StmEvent>, j: nat, t: Transaction, success: bool)
    requires j < |es| && Completed(After(POWER_UP, es[..j]), es[j]) == [Completion(t, success)] && es[j].fate.Sent?
    ensures MotionResponse(t.sequence, t.command, t.sessionId, if success then Ok else StopFailed) in Wired(POWER_UP, es)
  {
    hide StmStep, Completed, C.Consistent;
    var v := After(POWER_UP, es[..j]);
    var _ := PartyRunsCoordinator(es[..j]);
    StopIsReported(v, es[j], t, success);
    assert es == es[..j] + ([es[j]] + es[j + 1..]);
    AfterBoth(POWER_UP, es[..j], [es[j]] + es[j + 1..]);
    AfterBoth(v, [es[j]], es[j + 1..]);
    RunOfOne(v, es[j]);
  }

  /** The event that ended the k-th stop. */
  lemma {:induction false} CompletionIsAt(es: seq<StmEvent>, k: nat) returns (j: nat)
    requires k < |Completions(POWER_UP, es)|
    ensures j < |es| && Completed(After(POWER_UP, es[..j]), es[j]) == [Completions(POWER_UP, es)[k]]
    ensures |Completions(POWER_UP, es[..j])| == k
  {
    hide After, Completed;
    var n := |es| - 1;
    AtMostOne(After(POWER_UP, es[..n]), es[n]);
    if k < |Completions(POWER_UP, es[..n])| {
      j := CompletionIsAt(es[..n], k);
      assert es[..n][..j] == es[..j];
    } else {
      j := n;
    }
  }

  lemma AtMostOne(v: Stm, e: StmEvent)
    ensures |Completed(v, e)| <= 1
  {
  }

  // ---------- Heartbeats and LINK_SYNC ----------

  /** A reply says SYNCHRONIZED only from a synchronised state, and echoes the number. */
  lemma RepliesAreTrue(v: Stm, e: StmEvent, n: u16)
    requires HeartbeatReply(n, 0x01) in StmStep(v, e).1
    ensures v.synced && e.Take? && e.f == Heartbeat(n, Some(0x01))
  {
  }

  /** A well-formed heartbeat is answered, with the state of the link; without the answer, and on a heartbeat of a peer that
      is not synchronised, the link goes down. */
  lemma HeartbeatIsAnswered(v: Stm, n: u16, o: Outcome)
    ensures StmStep(v, Take(Heartbeat(n, Some(0x01)), o)).1 ==
              OnWire(HeartbeatReply(n, if v.synced then 0x01 else 0x00), o.answer)
    ensures StmStep(v, Take(Heartbeat(n, Some(0x01)), o)).0.synced <==> v.synced && o.answer.Sent?
    ensures v.synced && o.answer.Sent? ==> StmStep(v, Take(Heartbeat(n, Some(0x01)), o)).0 == v
    ensures o.motorOk ==> StmStep(v, Take(Heartbeat(n, Some(0x00)), o)).1 == OnWire(HeartbeatReply(n, 0x00), o.answer)
    ensures !StmStep(v, Take(Heartbeat(n, Some(0x00)), o)).0.synced
  {
  }

  /** A well-formed LINK_SYNC whose stop the motors accept is echoed, number and token, and synchronises exactly if the echo
      was reported as sent; whatever happens, the session is over. */
  lemma SyncIsEchoed(v: Stm, n: u16, token: Option<Token>, o: Outcome)
    ensures var (w, out) := StmStep(v, Take(LinkSync(n, token), o));
            && out == (if o.motorOk && token.Some? then OnWire(LinkSyncOk(n, token.value), o.answer) else [])
            && (w.synced <==> o.motorOk && token.Some? && o.answer.Sent?)
            && w.coordinator.state == C.NoSession && w.coordinator.receiver == EMPTY && w.coordinator.activeOperation == 0
  {
  }

  predicate AcceptedSync(e: StmEvent)
  {
    e.Take? && e.f.LinkSync? && e.f.token.Some? && e.o.motorOk && e.o.answer.Sent?
  }

  lemma OnlySyncSynchronises(v: Stm, e: StmEvent)
    requires !v.synced && !AcceptedSync(e)
    ensures !StmStep(v, e).0.synced
    ensures forall n, s :: HeartbeatReply(n, s) in StmStep(v, e).1 ==> s == 0x00
  {
  }

  /** After power-up, a reboot or a loss of the link, every heartbeat reply before the next accepted LINK_SYNC says
      UNSYNCHRONIZED. */
  lemma {:induction false} UnsynchronizedUntilSync(v: Stm, es: seq<StmEvent>)
    requires !v.synced && forall i :: 0 <= i < |es| ==> !AcceptedSync(es[i])
    ensures !After(v, es).synced
    ensures forall n, s :: HeartbeatReply(n, s) in Wired(v, es) ==> s == 0x00
  {
    hide StmStep, AcceptedSync;
    if es != [] {
      UnsynchronizedUntilSync(v, es[..|es| - 1]);
      OnlySyncSynchronises(After(v, es[..|es| - 1]), es[|es| - 1]);
    }
  }

  // ---------- Commands ----------

  /** Without a synchronised link, commands are neither obeyed nor answered. */
  lemma UnsynchronizedIsDeaf(v: Stm, f: ToStm, o: Outcome)
    requires !v.synced && !f.LinkSync? && !f.Heartbeat?
    ensures StmStep(v, Take(f, o)) == (v, [])
  {
  }

  /** A new command is acknowledged under its number, then answered if the coordinator answers at once; nothing else is
      said. */
  lemma CommandIsAcknowledged(v: Stm, t: Transaction, o: Outcome)
    requires C.Consistent(v.coordinator) && v.synced && W.Fresh(v.coordinator, t)
    ensures var a := R.Step(v.coordinator, R.Delivered(t)).1;
            StmStep(v, Take(MotionCommand(t.sequence, Some(CommandBody(t.command, t.sessionId))), o)).1 ==
              OnWire(MotionAck(t.sequence, 0x00), o.ack) +
                if a.response.None? then []
                else var p := a.response.value.transaction;
                     OnWire(MotionResponse(p.sequence, p.command, p.sessionId, a.response.value.result), o.answer)
  {
    W.AnswersMeanWhatTheySay(v.coordinator, t);
  }

  /** A failed answer brings the link down, and the session with it; otherwise a command never touches the link. */
  lemma UnsentAnswerEndsAll(v: Stm, t: Transaction, o: Outcome)
    requires v.synced
    ensures var a, w := R.Step(v.coordinator, R.Delivered(t)).1,
                        StmStep(v, Take(MotionCommand(t.sequence, Some(CommandBody(t.command, t.sessionId))), o)).0;
            if (a.ack.Some? && !o.ack.Sent?) || (a.response.Some? && !o.answer.Sent?)
            then !w.synced && w.coordinator.state == C.NoSession && w.coordinator.activeOperation == 0
            else w.synced && w.coordinator == R.Step(v.coordinator, R.Delivered(t)).0
  {
  }

  /** A wheel command never changes a session, unless the motors refuse the one of the active session. */
  lemma WheelsEndOnlyBy(v: Stm, n: u16, wheels: Option<Wheels>, o: Outcome)
    ensures var (w, out) := StmStep(v, Take(WheelVelocity(n, wheels), o));
            && out == []
            && (w == v || (&& !w.synced && w.coordinator.state == C.NoSession && !o.motorOk
                           && v.synced && wheels.Some? && v.coordinator.state == C.Active
                           && wheels.value.sessionId == v.coordinator.sessionId))
  {
  }
}
