/** The STM32 as a protocol party: what one event does to its protocol state and which frames it puts on the serial
    line. The main loop is proved elsewhere to perform only sequences of these events. */
module StmParty {
  import opened Words
  import opened ReliableReceiver
  import opened Messages
  import C = LifecycleCoordinator

  datatype Stm = Stm(synced: bool, coordinator: C.Coordinator)

  /** Environment of one handled frame: the motor stop or apply outcome and the fate of the answers. */
  datatype Outcome = Outcome(motorOk: bool, ack: Fate, answer: Fate)

  datatype StmEvent =
    | Finish(success: bool, fate: Fate)
    | LoseLink
    | Take(f: ToStm, o: Outcome)

  function Lost(v: Stm): Stm
  {
    Stm(false, C.Reset(v.coordinator))
  }

  function AckWire(a: C.Action, fate: Fate): seq<ToPi>
  {
    if a.ack.Some? then OnWire(MotionAck(a.ack.value.sequence, ACCEPTED), fate) else []
  }

  function AnswerWire(a: C.Action, fate: Fate): seq<ToPi>
  {
    if a.response.Some? then OnWire(ResponseFrame(a.response.value), fate) else []
  }

  /** Every frame the action asks for was reported as sent. */
  predicate Reported(a: C.Action, o: Outcome)
  {
    (a.ack.Some? ==> o.ack.Sent?) && (a.response.Some? ==> o.answer.Sent?)
  }

  function TakeHeartbeat(v: Stm, sequence: u16, linkState: Option<u8>, o: Outcome): (Stm, seq<ToPi>)
  {
    if linkState == Some(UNSYNCHRONIZED) then
      (Lost(v), if o.motorOk then OnWire(HeartbeatReply(sequence, UNSYNCHRONIZED), o.answer) else [])
    else if linkState != Some(SYNCHRONIZED) then (Lost(v), [])
    else if !v.synced then (Lost(v), OnWire(HeartbeatReply(sequence, UNSYNCHRONIZED), o.answer))
    else (if o.answer.Sent? then v else Lost(v), OnWire(HeartbeatReply(sequence, SYNCHRONIZED), o.answer))
  }

  function TakeSync(v: Stm, sequence: u16, token: Option<Token>, o: Outcome): (Stm, seq<ToPi>)
  {
    if !o.motorOk || token.None? then (Lost(v), [])
    else (Stm(o.answer.Sent?, C.Reset(v.coordinator)), OnWire(LinkSyncOk(sequence, token.value), o.answer))
  }

  function TakeCommand(v: Stm, t: Transaction, o: Outcome): (Stm, seq<ToPi>)
  {
    var (c, a) := C.Deliver(v.coordinator, t);
    (if Reported(a, o) then v.(coordinator := c) else Stm(false, C.Reset(c)), AckWire(a, o.ack) + AnswerWire(a, o.answer))
  }

  function StmStep(v: Stm, e: StmEvent): (Stm, seq<ToPi>)
  {
    match e
    case Finish(success, fate) =>
      var (c, a) := C.Complete(v.coordinator, v.coordinator.activeOperation, success);
      (if a == C.NO_ACTION || (success && fate.Sent?) then v.(coordinator := c) else Stm(false, C.Reset(c)),
       AnswerWire(a, fate))
    case LoseLink => (Lost(v), [])
    case Take(f, o) =>
      match f
      case LinkSync(sequence, token) => TakeSync(v, sequence, token, o)
      case Heartbeat(sequence, linkState) => TakeHeartbeat(v, sequence, linkState, o)
      case MotionCommand(sequence, body) =>
        if !v.synced || body.None? then (v, [])
        else TakeCommand(v, Transaction(sequence, body.value.command, body.value.sessionId), o)
      case WheelVelocity(_, wheels) =>
        if v.synced && wheels.Some? && v.coordinator.state == C.Active
           && wheels.value.sessionId == v.coordinator.sessionId && !o.motorOk
        then (Lost(v), []) else (v, [])
      case OtherToStm => (v, [])
  }

  // ---------- Runs ----------

  const POWER_UP := Stm(false, C.INITIAL)

  function After(v: Stm, es: seq<StmEvent>): Stm
  {
    if es == [] then v else StmStep(After(v, es[..|es| - 1]), es[|es| - 1]).0
  }

  /** Everything the events put on the wire. */
  function Wired(v: Stm, es: seq<StmEvent>): seq<ToPi>
  {
    if es == [] then []
    else Wired(v, es[..|es| - 1]) + StmStep(After(v, es[..|es| - 1]), es[|es| - 1]).1
  }

  /** The frames taken, in order. */
  function Taken(es: seq<StmEvent>): seq<ToStm>
  {
    if es == [] then []
    else Taken(es[..|es| - 1]) + if es[|es| - 1].Take? then [es[|es| - 1].f] else []
  }

  /** A stop operation that ended: the transaction that owned it then, and how it ended. */
  datatype Completion = Completion(owner: Transaction, success: bool)

  function Completed(v: Stm, e: StmEvent): seq<Completion>
  {
    if e.Finish? && C.Accepts(v.coordinator, v.coordinator.activeOperation)
    then [Completion(v.coordinator.receiver.pending.value, e.success)]
    else []
  }

  function Completions(v: Stm, es: seq<StmEvent>): seq<Completion>
  {
    if es == [] then []
    else Completions(v, es[..|es| - 1]) + Completed(After(v, es[..|es| - 1]), es[|es| - 1])
  }

  lemma {:induction false} AfterBoth(v: Stm, es: seq<StmEvent>, fs: seq<StmEvent>)
    ensures After(v, es + fs) == After(After(v, es), fs)
    ensures Wired(v, es + fs) == Wired(v, es) + Wired(After(v, es), fs)
  {
    hide StmStep;
    if fs == [] {
      assert es + fs == es;
    } else {
      var before := fs[..|fs| - 1];
      AfterBoth(v, es, before);
      assert (es + fs)[..|es + fs| - 1] == es + before;
    }
  }

  lemma {:induction false} TakenBoth(es: seq<StmEvent>, fs: seq<StmEvent>)
    ensures Taken(es + fs) == Taken(es) + Taken(fs)
  {
    if fs == [] {
      assert es + fs == es;
    } else {
      TakenBoth(es, fs[..|fs| - 1]);
      assert (es + fs)[..|es + fs| - 1] == es + fs[..|fs| - 1];
    }
  }

  lemma {:induction false} CompletionsBoth(v: Stm, es: seq<StmEvent>, fs: seq<StmEvent>)
    ensures Completions(v, es + fs) == Completions(v, es) + Completions(After(v, es), fs)
  {
    hide *;
    if fs == [] {
      assert es + fs == es;
      NoCompletions(After(v, es));
    } else {
      var before, e := fs[..|fs| - 1], fs[|fs| - 1];
      CompletionsBoth(v, es, before);
      AfterBoth(v, es, before);
      assert es + fs == (es + before) + [e] && fs == before + [e];
      CompletionsMore(v, es + before, e);
      CompletionsMore(After(v, es), before, e);
    }
  }

  lemma NoCompletions(v: Stm)
    ensures Completions(v, []) == []
  {
  }

  lemma {:induction false} CompletionsMore(v: Stm, es: seq<StmEvent>, e: StmEvent)
    ensures Completions(v, es + [e]) == Completions(v, es) + Completed(After(v, es), e)
  {
    hide After, Completed;
    assert (es + [e])[..|es|] == es;
  }

  lemma RunOfNone(v: Stm)
    ensures After(v, []) == v && Wired(v, []) == [] && Taken([]) == [] && Completions(v, []) == []
  {
  }

  lemma RunOfOne(v: Stm, e: StmEvent)
    ensures After(v, [e]) == StmStep(v, e).0 && Wired(v, [e]) == StmStep(v, e).1
    ensures Taken([e]) == (if e.Take? then [e.f] else []) && Completions(v, [e]) == Completed(v, e)
  {
    hide StmStep, Completed;
    assert [e][..0] == [];
  }

  // ---------- Where an OK comes from ----------

  predicate Caches(v: Stm, t: Transaction)
  {
    v.coordinator.receiver.terminal == Some(Terminal(t, Ok))
  }

  /** Event `j` is the successful end of a stop that `t` owned. */
  predicate StopOf(es: seq<StmEvent>, j: int, t: Transaction)
  {
    0 <= j < |es| && Completed(After(POWER_UP, es[..j]), es[j]) == [Completion(t, true)]
  }

  /** From just after `j` up to `i` the answer to `t` has been kept for replay. */
  predicate KeptBetween(es: seq<StmEvent>, j: int, i: int, t: Transaction)
  {
    forall k {:trigger es[..k]} :: 0 <= j < k <= i <= |es| ==> Caches(After(POWER_UP, es[..k]), t)
  }

  lemma StepCaches(v: Stm, e: StmEvent, t: Transaction)
    requires Caches(StmStep(v, e).0, t)
    ensures Caches(v, t) || Completed(v, e) == [Completion(t, true)]
  {
  }

  lemma StepAnswers(v: Stm, e: StmEvent, t: Transaction)
    requires ResponseFrame(Terminal(t, Ok)) in StmStep(v, e).1
    ensures Caches(v, t) || Completed(v, e) == [Completion(t, true)]
  {
  }

  lemma {:induction false} CacheOrigin(es: seq<StmEvent>, t: Transaction)
    requires Caches(After(POWER_UP, es), t)
    ensures exists j :: StopOf(es, j, t) && KeptBetween(es, j, |es|, t)
  {
    hide StmStep, Completed, Caches;
    NothingCached(t);
    if es != [] {
      var n := |es| - 1;
      assert es[..|es|] == es;
      StepCaches(After(POWER_UP, es[..n]), es[n], t);
      if Completed(After(POWER_UP, es[..n]), es[n]) == [Completion(t, true)] {
        assert StopOf(es, n, t) && KeptBetween(es, n, |es|, t);
      } else {
        CacheOrigin(es[..n], t);
        var j :| StopOf(es[..n], j, t) && KeptBetween(es[..n], j, n, t);
        assert forall k :: 0 <= k <= n ==> es[..n][..k] == es[..k];
        assert StopOf(es, j, t) && KeptBetween(es, j, |es|, t);
      }
    }
  }

  lemma NothingCached(t: Transaction)
    ensures !Caches(POWER_UP, t)
  {
  }

  /** Every OK ever put on the wire has a stop of its own: the event that sends it ends that stop, or replays the answer
      kept since that stop ended, without a reset in between. */
  lemma {:induction false} OkHasItsStop(es: seq<StmEvent>, i: nat, t: Transaction)
    requires i < |es| && ResponseFrame(Terminal(t, Ok)) in StmStep(After(POWER_UP, es[..i]), es[i]).1
    ensures exists j :: j <= i && StopOf(es, j, t) && KeptBetween(es, j, i, t)
  {
    hide StmStep, Completed, Caches;
    StepAnswers(After(POWER_UP, es[..i]), es[i], t);
    if Completed(After(POWER_UP, es[..i]), es[i]) == [Completion(t, true)] {
      assert StopOf(es, i, t) && KeptBetween(es, i, i, t);
    } else {
      CacheOrigin(es[..i], t);
      var j :| StopOf(es[..i], j, t) && KeptBetween(es[..i], j, i, t);
      assert forall k :: 0 <= k <= i ==> es[..i][..k] == es[..k];
      assert StopOf(es, j, t) && KeptBetween(es, j, i, t);
    }
  }
}
