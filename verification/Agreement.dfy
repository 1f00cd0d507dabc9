/**
 Two-party agreement over a lossy serial line.

 The line is two FIFO channels that may lose any frame. Either party may fail, time out, reconnect or
 reset at any point. Link tokens are fresh for each epoch.
 */
module Agreement {
  import opened Words
  import opened ReliableReceiver
  import opened Messages
  import opened StmParty
  import opened PiParty
  import C = LifecycleCoordinator
  import L = LinkSession
  import M = MotionSession
  import MotionSequence

  datatype Sys = Sys(pi: Pi, stm: Stm, toStm: seq<ToStm>, toPi: seq<ToPi>, used: set<Token>)

  const INITIAL := Sys(PI_INITIAL, Stm(false, C.INITIAL), [], [], {})

  datatype Label =
    | PiDoes(e: PiEvent)
    | PiHears(now: u32)
    | StmTakes(o: Outcome)
    | StmFinishes(success: bool, fate: Fate)
    | StmLosesLink
    | StmReboots
    | LoseToStm(i: nat)
    | LoseToPi(i: nat)

  predicate Enabled(z: Sys, l: Label)
  {
    match l
    case PiDoes(e) => PiEnabled(z.pi, e) && !e.Hear? && (e.Open? ==> e.token !in z.used)
    case PiHears(_) => z.pi.phase != Disconnected && z.toPi != []
    case StmTakes(_) => z.toStm != []
    case LoseToStm(i) => i < |z.toStm|
    case LoseToPi(i) => i < |z.toPi|
    case _ => true
  }

  function Without<T>(s: seq<T>, i: nat): seq<T>
    requires i < |s|
  {
    s[..i] + s[i + 1..]
  }

  function StmActs(z: Sys, e: StmEvent): Sys
  {
    var (v, out) := StmStep(z.stm, e);
    z.(stm := v, toPi := z.toPi + out)
  }

  function Next(z: Sys, l: Label): Sys
    requires Enabled(z, l)
  {
    match l
    case PiDoes(e) =>
      var (p, out) := PiStep(z.pi, e);
      z.(pi := p, toStm := z.toStm + out, used := if e.Open? then z.used + {e.token} else z.used)
    case PiHears(now) => z.(pi := PiStep(z.pi, Hear(z.toPi[0], now)).0, toPi := z.toPi[1..])
    case StmTakes(o) => StmActs(z.(toStm := z.toStm[1..]), Take(z.toStm[0], o))
    case StmFinishes(success, fate) => StmActs(z, Finish(success, fate))
    case StmLosesLink => StmActs(z, LoseLink)
    case StmReboots => z.(stm := Stm(false, C.INITIAL))
    case LoseToStm(i) => z.(toStm := Without(z.toStm, i))
    case LoseToPi(i) => z.(toPi := Without(z.toPi, i))
  }

  /** The state after the labels, if each was enabled when taken. */
  function Run(labels: seq<Label>): Option<Sys>
  {
    if labels == [] then Some(INITIAL)
    else
      var z, l := Run(labels[..|labels| - 1]), labels[|labels| - 1];
      if z.Some? && Enabled(z.value, l) then Some(Next(z.value, l)) else None
  }

  // ---------- The invariant ----------

  /** Lifecycle commands in a stretch of the channel are all copies of `t`. */
  ghost predicate Commands(a: seq<ToStm>, lo: int, hi: int, t: Transaction)
  {
    forall i :: 0 <= i < |a| && lo <= i < hi && a[i].MotionCommand? ==> a[i] == CommandFrame(t)
  }

  ghost predicate NoCommands(a: seq<ToStm>, lo: int, hi: int)
  {
    forall i :: 0 <= i < |a| && lo <= i < hi ==> !a[i].MotionCommand?
  }

  /** Responses before position `m` carry the number `number`. */
  ghost predicate Numbered(b: seq<ToPi>, m: int, number: u16)
  {
    forall i :: 0 <= i < |b| && i < m && b[i].MotionResponse? ==> b[i].sequence == number
  }

  ghost predicate NoResponses(b: seq<ToPi>)
  {
    forall i :: 0 <= i < |b| ==> !b[i].MotionResponse?
  }

  /** The STM32 has settled the transaction before `number`, or none yet in this epoch; up to `n` and in
      all of `b` the channels hold only its copies and answers. */
  ghost predicate Settled(c: C.Coordinator, number: u16, a: seq<ToStm>, n: int, b: seq<ToPi>)
  {
    if c.receiver == EMPTY then c.state == C.NoSession && NoCommands(a, 0, n) && NoResponses(b)
    else
      && c.receiver.pending.None? && c.receiver.terminal.Some?
      && var t := c.receiver.terminal.value.transaction;
      && M.Next16(t.sequence) == number
      && c.receiver.latest == Some(t.sequence)
      && Commands(a, 0, n, t)
      && Numbered(b, |b|, t.sequence)
  }

  /** No transaction outstanding: both sides hold the same session, or none. */
  ghost predicate Idle(s: M.Session, c: C.Coordinator, a: seq<ToStm>, b: seq<ToPi>)
  {
    && s.pending.None?
    && Settled(c, s.next, a, |a|, b)
    && (s.state == M.Active <==> c.state == C.Active)
    && (s.state == M.Active ==> c.sessionId == s.activeId)
  }

  /** A transaction is outstanding that the STM32 has not seen: its copies follow the previous one's. */
  ghost predicate Waiting(s: M.Session, c: C.Coordinator, a: seq<ToStm>, b: seq<ToPi>, n: int)
  {
    && s.pending.Some? && 0 <= n <= |a|
    && Settled(c, s.pending.value.sequence, a, n, b)
    && Commands(a, n, |a|, s.pending.value)
    && (s.pending.value.command == END ==> c.state == C.Active && c.sessionId == s.pending.value.sessionId)
  }

  /** The answer tells the Pi exactly whether, and with which session, the STM32 is now active. */
  ghost predicate AnswerTells(c: C.Coordinator, r: Terminal)
  {
    && (c.state == C.Active <==> r.transaction.command == START && (r.result == Ok || r.result == AlreadyActive))
    && (c.state == C.Active ==> c.sessionId == r.transaction.sessionId)
  }

  /** A transaction is outstanding that the STM32 has accepted: its answers follow the previous one's. */
  ghost predicate Accepted(s: M.Session, c: C.Coordinator, a: seq<ToStm>, b: seq<ToPi>, m: int, before: u16)
  {
    && s.pending.Some? && 0 <= m <= |b|
    && var q := s.pending.value;
    && c.receiver.latest == Some(q.sequence)
    && (if c.receiver.terminal.Some? then c.receiver.terminal.value.transaction == q && c.receiver.pending.None?
        else c.receiver.pending == Some(q))
    && (c.receiver.terminal.Some? ==> AnswerTells(c, c.receiver.terminal.value))
    && Commands(a, 0, |a|, q)
    && before != q.sequence && Numbered(b, m, before)
    && (forall i :: m <= i < |b| && b[i].MotionResponse? ==>
          c.receiver.terminal.Some? && b[i] == ResponseFrame(c.receiver.terminal.value))
  }

  ghost predicate Matched(s: M.Session, c: C.Coordinator, a: seq<ToStm>, b: seq<ToPi>)
  {
    || Idle(s, c, a, b)
    || (exists n :: Waiting(s, c, a, b, n))
    || (exists m, before :: Accepted(s, c, a, b, m, before))
  }

  /** While synchronising, the current token is at the end of one channel or of the other. */
  ghost predicate TokenLast(z: Sys)
  {
    var token := z.pi.link.syncToken;
    && token in z.used
    && (forall i :: 0 <= i < |z.toStm| - 1 && z.toStm[i].LinkSync? ==> z.toStm[i].token != Some(token))
    && (forall i :: 0 <= i < |z.toPi| && z.toPi[i].LinkSyncOk? && z.toPi[i].token == token ==>
          && i == |z.toPi| - 1 && z.toStm == []
          && z.stm.coordinator == C.Reset(z.stm.coordinator))
  }

  ghost predicate TokensKnown(z: Sys)
  {
    && (forall i :: 0 <= i < |z.toStm| && z.toStm[i].LinkSync? && z.toStm[i].token.Some? ==> z.toStm[i].token.value in z.used)
    && (forall i :: 0 <= i < |z.toPi| && z.toPi[i].LinkSyncOk? ==> z.toPi[i].token in z.used)
  }

  ghost predicate NoSync(a: seq<ToStm>)
  {
    forall i :: 0 <= i < |a| ==> !a[i].LinkSync?
  }

  ghost predicate Base(z: Sys)
  {
    && C.Consistent(z.stm.coordinator) && M.Coherent(z.pi.motion)
    && (!z.stm.synced ==> z.stm.coordinator == C.Reset(z.stm.coordinator))
    && TokensKnown(z)
  }

  ghost predicate Inv(z: Sys)
  {
    && Base(z)
    && (z.pi.phase != Synchronized ==> z.pi.motion.state == M.Inactive)
    && (z.pi.phase == Synchronizing ==> TokenLast(z))
    && (z.pi.phase == Synchronized ==>
          && NoSync(z.toStm)
          && (z.stm.synced ==> Matched(z.pi.motion, z.stm.coordinator, z.toStm, z.toPi)))
  }

  // ---------- Preservation ----------

  lemma StmStepBase(v: Stm, e: StmEvent)
    requires C.Consistent(v.coordinator)
    requires !v.synced ==> v.coordinator == C.Reset(v.coordinator)
    ensures var w := StmStep(v, e).0;
            C.Consistent(w.coordinator) && (!w.synced ==> w.coordinator == C.Reset(w.coordinator))
  {
    match e
    case Finish(success, fate) => C.CompleteKeepsConsistent(v.coordinator, v.coordinator.activeOperation, success);
    case LoseLink =>
    case Take(f, o) =>
      if f.MotionCommand? && f.body.Some? {
        C.DeliverKeepsConsistent(v.coordinator, Transaction(f.sequence, f.body.value.command, f.body.value.sessionId));
      }
  }

  /** Frames leaving the Pi while it stays synchronised: a copy of the pending command, or no command. */
  lemma PiSends(z: Sys, s: M.Session, out: seq<ToStm>)
    requires z.stm.synced && Matched(z.pi.motion, z.stm.coordinator, z.toStm, z.toPi)
    requires s == z.pi.motion.(acked := s.acked, timerRunning := s.timerRunning, retries := s.retries,
                               lastTransmit := s.lastTransmit, nextWheel := s.nextWheel)
    requires forall i :: 0 <= i < |out| && out[i].MotionCommand? ==>
               s.pending.Some? && out[i] == CommandFrame(s.pending.value)
    ensures Matched(s, z.stm.coordinator, z.toStm + out, z.toPi)
  {
    var c, a, b := z.stm.coordinator, z.toStm, z.toPi;
    if Idle(z.pi.motion, c, a, b) {
      assert Idle(s, c, a + out, b);
    } else if n :| Waiting(z.pi.motion, c, a, b, n) {
      assert Waiting(s, c, a + out, b, n);
    } else if m, before :| Accepted(z.pi.motion, c, a, b, m, before) {
      assert Accepted(s, c, a + out, b, m, before);
    }
  }

  /** A new transaction starts behind the settled one. */
  lemma PiBegins(z: Sys, s: M.Session, t: Transaction, out: seq<ToStm>)
    requires z.stm.synced && Matched(z.pi.motion, z.stm.coordinator, z.toStm, z.toPi)
    requires M.Coherent(z.pi.motion) && z.pi.motion.pending.None?
    requires s.pending == Some(t) && t.sequence == z.pi.motion.next
    requires t.command == END ==> z.pi.motion.state == M.Active && t.sessionId == z.pi.motion.activeId
    requires out == [] || out == [CommandFrame(t)]
    ensures Matched(s, z.stm.coordinator, z.toStm + out, z.toPi)
  {
    assert Idle(z.pi.motion, z.stm.coordinator, z.toStm, z.toPi);
    assert Waiting(s, z.stm.coordinator, z.toStm + out, z.toPi, |z.toStm|);
  }

  lemma PiDoesKeeps(z: Sys, e: PiEvent)
    requires Inv(z) && Enabled(z, PiDoes(e))
    ensures Inv(Next(z, PiDoes(e)))
  {
    var (p, out) := PiStep(z.pi, e);
    var y := Next(z, PiDoes(e));
    match e
    case Open(token, fate) =>
      assert forall i :: 0 <= i < |z.toStm| ==> y.toStm[i] == z.toStm[i];
    case Drop => assert y.toStm == z.toStm;
    case CheckLink(_) => assert y.toStm == z.toStm;
    case Hear(_, _) =>
    case StartSession(id, fate, at) =>
      if z.pi.motion.pending.None? {
        if z.stm.synced {
          PiBegins(z, p.motion, Transaction(z.pi.motion.next, START, id), out);
        }
      } else {
        assert y.toStm == z.toStm;
      }
    case EndSession(id, fate, at) =>
      if M.BeginEnd(z.pi.motion, id).1.Some? {
        if z.stm.synced {
          PiBegins(z, p.motion, Transaction(z.pi.motion.next, END, id), out);
        }
      } else {
        assert y.toStm == z.toStm;
      }
    case Retry(now, fate, at) =>
      if z.stm.synced {
        PiSends(z, p.motion, out);
      }
    case Beat(now, fate) =>
      if z.stm.synced {
        PiSends(z, p.motion, out);
      }
    case Drive(_, _, fate) =>
      if z.stm.synced {
        PiSends(z, p.motion, out);
      }
  }

  /** The Pi consumes the head of its channel. */
  lemma PiHearsMatched(s: M.Session, c: C.Coordinator, a: seq<ToStm>, b: seq<ToPi>, now: u32)
    requires M.Coherent(s) && b != [] && Matched(s, c, a, b)
    ensures Matched(M.Receive(s, b[0], now), c, a, b[1..])
    ensures Matched(s, c, a, b[1..])
  {
    var s' := M.Receive(s, b[0], now);
    if Idle(s, c, a, b) {
      assert Idle(s, c, a, b[1..]);
      assert s' == s;
    } else if n :| Waiting(s, c, a, b, n) {
      assert !M.ResponseMatches(s, b[0]);
      assert Waiting(s, c, a, b[1..], n);
      assert Waiting(s', c, a, b[1..], n);
    } else if m, before :| Accepted(s, c, a, b, m, before) {
      var m' := if m == 0 then 0 else m - 1;
      assert Accepted(s, c, a, b[1..], m', before);
      if M.ResponseMatches(s, b[0]) {
        assert m == 0 && b[0] == ResponseFrame(c.receiver.terminal.value);
        assert Idle(s', c, a, b[1..]);
      } else {
        assert Accepted(s', c, a, b[1..], m', before);
      }
    }
  }

  lemma PiHearsKeeps(z: Sys, now: u32)
    requires Inv(z) && Enabled(z, PiHears(now))
    ensures Inv(Next(z, PiHears(now)))
  {
    var y := Next(z, PiHears(now));
    assert forall i :: 0 <= i < |y.toPi| ==> y.toPi[i] == z.toPi[i + 1];
    if z.pi.phase == Synchronizing {
      if y.pi.phase == Synchronized {
        assert z.toPi[0] == LinkSyncOk(z.pi.link.syncSequence, z.pi.link.syncToken);
        assert y.toPi == [] && y.toStm == [];
        assert Idle(y.pi.motion, y.stm.coordinator, y.toStm, y.toPi);
      }
    } else if z.stm.synced {
      PiHearsMatched(z.pi.motion, z.stm.coordinator, z.toStm, z.toPi, now);
    }
  }

  /** The STM32 handles a lifecycle command at the head of its channel, all answers reported as sent. */
  lemma StmTakesCommandMatched(s: M.Session, c: C.Coordinator, a: seq<ToStm>, b: seq<ToPi>, t: Transaction, o: Outcome)
    requires M.Coherent(s) && C.Consistent(c) && a != [] && a[0] == CommandFrame(t)
    requires Matched(s, c, a, b)
    requires Reported(C.Deliver(c, t).1, o)
    ensures var (d, action) := C.Deliver(c, t);
            Matched(s, d, a[1..], b + (AckWire(action, o.ack) + AnswerWire(action, o.answer)))
  {
    var (d, action) := C.Deliver(c, t);
    var out := AckWire(action, o.ack) + AnswerWire(action, o.answer);
    assert forall i :: 0 <= i < |out| && out[i].MotionResponse? ==>
        action.response.Some? && out[i] == ResponseFrame(action.response.value);
    if Idle(s, c, a, b) {
      ReplayOfSettled(c, t);
      assert Idle(s, c, a[1..], b + out);
    } else if n :| Waiting(s, c, a, b, n) {
      var q := s.pending.value;
      if n > 0 {
        ReplayOfSettled(c, t);
        assert Waiting(s, c, a[1..], b + out, n - 1);
      } else {
        var before := if c.receiver == EMPTY then M.Next16(q.sequence) else c.receiver.latest.value;
        NextIsNew(c, q);
        assert Accepted(s, d, a[1..], b + out, |b|, before);
      }
    } else if m, before :| Accepted(s, c, a, b, m, before) {
      MotionSequence.ClassifyIsSerialOrder(t.sequence, t.sequence);
      assert d == c;
      assert Accepted(s, c, a[1..], b + out, m, before);
    }
  }

  /** A late copy of the settled transaction is answered from the cache. */
  lemma ReplayOfSettled(c: C.Coordinator, t: Transaction)
    requires c.receiver.pending.None? && c.receiver.terminal.Some?
    requires c.receiver.terminal.value.transaction == t && c.receiver.latest == Some(t.sequence)
    ensures C.Deliver(c, t) == (c, C.Action(Some(t), c.receiver.terminal, 0))
  {
    MotionSequence.ClassifyIsSerialOrder(t.sequence, t.sequence);
  }

  /** The successor of the settled transaction, or the first of an epoch, is accepted as new. */
  lemma NextIsNew(c: C.Coordinator, q: Transaction)
    requires c.receiver.latest.None? || M.Next16(c.receiver.latest.value) == q.sequence
    ensures Classify(c.receiver, q) == New
  {
    if c.receiver.latest.Some? {
      MotionSequence.ClassifyIsSerialOrder(c.receiver.latest.value, q.sequence);
    }
  }

  /** Any other frame at the head leaves the coordinator alone and adds no response. */
  lemma StmTakesOtherMatched(s: M.Session, c: C.Coordinator, a: seq<ToStm>, b: seq<ToPi>, out: seq<ToPi>)
    requires a != [] && !a[0].MotionCommand? && Matched(s, c, a, b)
    requires forall i :: 0 <= i < |out| ==> !out[i].MotionResponse?
    ensures Matched(s, c, a[1..], b + out)
  {
    if Idle(s, c, a, b) {
      assert Idle(s, c, a[1..], b + out);
    } else if n :| Waiting(s, c, a, b, n) {
      assert Waiting(s, c, a[1..], b + out, if n == 0 then 0 else n - 1);
    } else if m, before :| Accepted(s, c, a, b, m, before) {
      assert Accepted(s, c, a[1..], b + out, m, before);
    }
  }

  lemma StmTakesKeeps(z: Sys, o: Outcome)
    requires Inv(z) && Enabled(z, StmTakes(o))
    ensures Inv(Next(z, StmTakes(o)))
  {
    var f := z.toStm[0];
    var y := Next(z, StmTakes(o));
    var (w, out) := StmStep(z.stm, Take(f, o));
    StmStepBase(z.stm, Take(f, o));
    assert forall i :: 0 <= i < |y.toStm| ==> y.toStm[i] == z.toStm[i + 1];
    assert forall i :: 0 <= i < |out| && out[i].LinkSyncOk? ==> f.LinkSync? && f.token == Some(out[i].token);
    if z.pi.phase == Synchronized && w.synced {
      assert !f.LinkSync? && z.stm.synced;
      if f.MotionCommand? && f.body.Some? {
        var t := Transaction(f.sequence, f.body.value.command, f.body.value.sessionId);
        StmTakesCommandMatched(z.pi.motion, z.stm.coordinator, z.toStm, z.toPi, t, o);
      } else if f.MotionCommand? {
        assert false by {
          CommandsHaveBodies(z.pi.motion, z.stm.coordinator, z.toStm, z.toPi);
        }
      } else {
        StmTakesOtherMatched(z.pi.motion, z.stm.coordinator, z.toStm, z.toPi, out);
      }
    }
  }

  lemma CommandsHaveBodies(s: M.Session, c: C.Coordinator, a: seq<ToStm>, b: seq<ToPi>)
    requires a != [] && Matched(s, c, a, b) && a[0].MotionCommand?
    ensures a[0].body.Some?
  {
  }

  lemma StmFinishesKeeps(z: Sys, success: bool, fate: Fate)
    requires Inv(z)
    ensures Inv(Next(z, StmFinishes(success, fate)))
  {
    var e := Finish(success, fate);
    StmStepBase(z.stm, e);
    var (w, out) := StmStep(z.stm, e);
    var s, c, a, b := z.pi.motion, z.stm.coordinator, z.toStm, z.toPi;
    if c.activeOperation == 0 {
      assert b + out == b && w == z.stm;
    } else if z.pi.phase == Synchronized && w.synced {
      if m, before :| Accepted(s, c, a, b, m, before) {
        assert out == [ResponseFrame(w.coordinator.receiver.terminal.value)];
        assert NoLateResponses(b, m);
        assert Accepted(s, w.coordinator, a, b + out, |b|, before);
      }
    }
  }

  ghost predicate NoLateResponses(b: seq<ToPi>, m: int)
  {
    forall i :: 0 <= i < |b| && m <= i ==> !b[i].MotionResponse?
  }

  lemma LossMatched(s: M.Session, c: C.Coordinator, a: seq<ToStm>, b: seq<ToPi>, i: nat)
    requires Matched(s, c, a, b)
    ensures i < |a| ==> Matched(s, c, Without(a, i), b)
    ensures i < |b| ==> Matched(s, c, a, Without(b, i))
  {
    if Idle(s, c, a, b) {
      assert i < |a| ==> Idle(s, c, Without(a, i), b);
      assert i < |b| ==> Idle(s, c, a, Without(b, i));
    } else if n :| Waiting(s, c, a, b, n) {
      assert i < |a| ==> Waiting(s, c, Without(a, i), b, if i < n then n - 1 else n);
      assert i < |b| ==> Waiting(s, c, a, Without(b, i), n);
    } else if m, before :| Accepted(s, c, a, b, m, before) {
      assert i < |a| ==> Accepted(s, c, Without(a, i), b, m, before);
      assert i < |b| ==> Accepted(s, c, a, Without(b, i), if i < m then m - 1 else m, before);
    }
  }

  lemma NextKeeps(z: Sys, l: Label)
    requires Inv(z) && Enabled(z, l)
    ensures Inv(Next(z, l))
  {
    match l
    case PiDoes(e) => PiDoesKeeps(z, e);
    case PiHears(now) => PiHearsKeeps(z, now);
    case StmTakes(o) => StmTakesKeeps(z, o);
    case StmFinishes(success, fate) => StmFinishesKeeps(z, success, fate);
    case StmLosesLink => assert z.toPi + [] == z.toPi;
    case StmReboots =>
    case LoseToStm(i) =>
      if z.pi.phase == Synchronized && z.stm.synced {
        LossMatched(z.pi.motion, z.stm.coordinator, z.toStm, z.toPi, i);
      }
    case LoseToPi(i) =>
      if z.pi.phase == Synchronized && z.stm.synced {
        LossMatched(z.pi.motion, z.stm.coordinator, z.toStm, z.toPi, i);
      }
  }

  lemma {:induction false} RunKeeps(labels: seq<Label>)
    requires Run(labels).Some?
    ensures Inv(Run(labels).value)
  {
    if labels != [] {
      RunKeeps(labels[..|labels| - 1]);
      NextKeeps(Run(labels[..|labels| - 1]).value, labels[|labels| - 1]);
    }
  }

  /** In every run, if the Pi believes a session is active and the STM32 is still synchronised, the
      STM32 coordinator is active with the same session id. */
  lemma TwoPartyAgreement(labels: seq<Label>)
    requires Run(labels).Some?
    ensures var z := Run(labels).value;
            z.pi.motion.state == M.Active && z.stm.synced ==>
              z.stm.coordinator.state == C.Active && z.stm.coordinator.sessionId == z.pi.motion.activeId
  {
    RunKeeps(labels);
  }

  /** And whenever no transaction is outstanding, each side is active exactly when the other is. */
  lemma IdleAgreement(labels: seq<Label>)
    requires Run(labels).Some?
    ensures var z := Run(labels).value;
            z.pi.phase == Synchronized && z.stm.synced && z.pi.motion.pending.None? ==>
              && (z.pi.motion.state == M.Active <==> z.stm.coordinator.state == C.Active)
              && z.stm.coordinator.state in {C.Active, C.NoSession}
  {
    RunKeeps(labels);
  }

  // ---------- A reboot is noticed ----------

  /** The STM32 is out of synchronisation and nothing on its way can bring it back; confirmations of the link are not made
      any more. */
  ghost predicate Lost(z: Sys, y: Sys)
  {
    && !y.stm.synced && NoSync(y.toStm)
    && (forall n :: HeartbeatReply(n, 0x01) in y.toPi ==> HeartbeatReply(n, 0x01) in z.toPi)
  }

  lemma LostStays(z: Sys, y: Sys, l: Label)
    requires Lost(z, y) && Enabled(y, l) && !(l.PiDoes? && l.e.Open?)
    ensures Lost(z, Next(y, l))
  {
    hide L.CheckTimeout, L.HandleHeartbeat, L.HandleSyncOk, M.Receive, M.MarkTransmitted;
    var x := Next(y, l);
    forall n | HeartbeatReply(n, 0x01) in x.toPi
      ensures HeartbeatReply(n, 0x01) in z.toPi
    {
      assert HeartbeatReply(n, 0x01) in y.toPi;
    }
  }

  /** Once the STM32 has lost the synchronisation that the Pi still relies on, it stays lost until the Pi opens a new epoch,
      and it confirms no heartbeat any more. */
  lemma {:induction false} LossLasts(labels: seq<Label>, k: nat)
    requires k <= |labels| && Run(labels[..k]).Some? && Run(labels).Some?
    requires Run(labels[..k]).value.pi.phase == Synchronized && !Run(labels[..k]).value.stm.synced
    requires forall i :: k <= i < |labels| ==> !(labels[i].PiDoes? && labels[i].e.Open?)
    ensures Lost(Run(labels[..k]).value, Run(labels).value)
  {
    hide Next, Enabled, Lost;
    if |labels| == k {
      assert labels[..k] == labels;
      RunKeeps(labels);
      LostNow(Run(labels).value);
    } else {
      var before := labels[..|labels| - 1];
      assert before[..k] == labels[..k];
      LossLasts(before, k);
      LostStays(Run(labels[..k]).value, Run(before).value, labels[|labels| - 1]);
    }
  }

  lemma LostNow(z: Sys)
    requires Inv(z) && z.pi.phase == Synchronized && !z.stm.synced
    ensures Lost(z, z)
  {
  }

  /** Then a heartbeat the Pi sends is answered UNSYNCHRONIZED, nothing renews the link by it, and hearing that answer ends
      the link: a reboot of the STM32 does not go unnoticed. */
  lemma {:induction false} RebootIsNoticed(labels: seq<Label>, k: nat, n: u16, o: Outcome, now: u32)
    requires k <= |labels| && Run(labels[..k]).Some? && Run(labels).Some?
    requires Run(labels[..k]).value.pi.phase == Synchronized && !Run(labels[..k]).value.stm.synced
    requires forall i :: k <= i < |labels| ==> !(labels[i].PiDoes? && labels[i].e.Open?)
    requires HeartbeatReply(n, 0x01) !in Run(labels[..k]).value.toPi
    ensures var y := Run(labels).value;
            && (y.toStm != [] && y.toStm[0] == Heartbeat(n, Some(0x01)) ==>
                  && Next(y, StmTakes(o)).toPi == y.toPi + OnWire(HeartbeatReply(n, 0x00), o.answer)
                  && Next(y, StmTakes(o)).stm == y.stm)
            && (y.toPi != [] && y.pi.phase == Synchronized && y.pi.link.state == L.Synchronized
                && y.pi.link.heartbeatPending && y.pi.link.heartbeatSequence == n ==>
                  var q := Next(y, PiHears(now)).pi;
                  if y.toPi[0] == HeartbeatReply(n, 0x00) then q.link.state == L.Disconnected else q.link == y.pi.link)
  {
    hide Run, M.Receive;
    LossLasts(labels, k);
    RunKeeps(labels);
  }

  // ---------- The agreement is not empty ----------

  lemma {:induction false} RunMore(labels: seq<Label>, z: Sys, l: Label)
    requires Run(labels) == Some(z) && Enabled(z, l)
    ensures Run(labels + [l]) == Some(Next(z, l))
  {
    hide Next, Enabled;
    assert (labels + [l])[..|labels|] == labels;
  }

  const FINE := Outcome(true, Sent, Sent)

  lemma {:induction false} Handshake() returns (labels: seq<Label>, z: Sys)
    ensures Run(labels) == Some(z) && z.stm == Stm(true, C.INITIAL) && z.toStm == [] && z.toPi == []
    ensures z.pi.phase == Synchronized && z.pi.motion == M.INITIAL && z.pi.link.state == L.Synchronized
    ensures !z.pi.link.heartbeatPending
  {
    hide Run;
    NothingRun();
    var open := PiDoes(Open(7, Sent));
    RunMore([], INITIAL, open);
    labels, z := [] + [open], Next(INITIAL, open);
    RunMore(labels, z, StmTakes(FINE));
    labels, z := labels + [StmTakes(FINE)], Next(z, StmTakes(FINE));
    RunMore(labels, z, PiHears(0));
    labels, z := labels + [PiHears(0)], Next(z, PiHears(0));
  }

  lemma {:induction false} Started() returns (labels: seq<Label>, z: Sys)
    ensures Run(labels) == Some(z) && z.toStm == [] && z.toPi == [MotionAck(1, ACCEPTED)] && z.stm.synced
    ensures z.stm.coordinator.state == C.Starting && z.stm.coordinator.activeOperation != 0
    ensures z.stm.coordinator.receiver.pending == Some(Transaction(1, START, 5))
    ensures z.pi.phase == Synchronized && z.pi.link.state == L.Synchronized && !z.pi.link.heartbeatPending
    ensures z.pi.motion.pending == Some(Transaction(1, START, 5))
  {
    hide Run;
    labels, z := Handshake();
    var start := PiDoes(StartSession(5, Sent, 0));
    RunMore(labels, z, start);
    labels, z := labels + [start], Next(z, start);
    assert z.toStm == [CommandFrame(Transaction(1, START, 5))];
    RunMore(labels, z, StmTakes(FINE));
    labels, z := labels + [StmTakes(FINE)], Next(z, StmTakes(FINE));
  }

  /** A handshake, START, the stop confirmation and its answers make both sides active. */
  lemma {:induction false} SessionsAreReached()
    ensures exists labels :: Run(labels).Some? &&
              Run(labels).value.pi.motion.state == M.Active && Run(labels).value.stm.synced
  {
    hide Run;
    var labels, z := Started();
    RunMore(labels, z, StmFinishes(true, Sent));
    labels, z := labels + [StmFinishes(true, Sent)], Next(z, StmFinishes(true, Sent));
    assert z.toPi == [MotionAck(1, ACCEPTED), MotionResponse(1, START, 5, Ok)];
    RunMore(labels, z, PiHears(1));
    labels, z := labels + [PiHears(1)], Next(z, PiHears(1));
    RunMore(labels, z, PiHears(2));
    labels, z := labels + [PiHears(2)], Next(z, PiHears(2));
  }

  lemma NothingRun()
    ensures Run([]) == Some(INITIAL)
  {
  }
}
