/** The Raspberry Pi client as a protocol party: what one event does to its link and motion sessions and which frames
    it puts on the serial line. The client runner is proved elsewhere to perform only sequences of these events. */
module PiParty {
  import opened Words
  import opened Messages
  import L = LinkSession
  import M = MotionSession

  datatype Phase = Disconnected | Synchronizing | Synchronized

  datatype Pi = Pi(phase: Phase, link: L.Link, motion: M.Session)

  const PI_INITIAL := Pi(Disconnected, L.INITIAL, M.INITIAL)

  /** `at` is the clock read after a transmission was reported as sent. */
  datatype PiEvent =
    | Open(token: Token, fate: Fate)
    | Drop
    | CheckLink(now: u32)
    | Hear(f: ToPi, now: u32)
    | StartSession(sessionId: u32, fate: Fate, at: u32)
    | EndSession(sessionId: u32, fate: Fate, at: u32)
    | Retry(now: u32, fate: Fate, at: u32)
    | Beat(now: u32, fate: Fate)
    | Drive(left: i16, right: i16, fate: Fate)

  /** A lifecycle frame handed out by the session is sent and, when so reported, timed. */
  function Transmit(p: Pi, s: M.Session, f: Option<ToStm>, fate: Fate, at: u32): (Pi, seq<ToStm>)
  {
    if f.None? then (p.(motion := s), [])
    else (p.(motion := if fate.Sent? then M.MarkTransmitted(s, at) else s), OnWire(f.value, fate))
  }

  function HearSynchronized(p: Pi, f: ToPi, now: u32): Pi
  {
    var (k, accepted) := L.HandleHeartbeat(p.link, f, now);
    if accepted || k.state == L.Disconnected then p.(link := k)
    else p.(link := k, motion := M.Receive(p.motion, f, now))
  }

  function Dropped(p: Pi): Pi
  {
    Pi(Disconnected, L.Disconnect(p.link), M.Reset(p.motion))
  }

  function PiStep(p: Pi, e: PiEvent): (Pi, seq<ToStm>)
  {
    match e
    case Open(token, fate) =>
      var (k, f) := L.BeginSynchronization(L.Disconnect(p.link), token);
      (if fate.Sent? then Pi(Synchronizing, k, M.Reset(p.motion)) else Pi(Disconnected, L.Disconnect(k), M.Reset(p.motion)),
       OnWire(f, fate))
    case Drop => (Dropped(p), [])
    case CheckLink(now) => (p.(link := L.CheckTimeout(p.link, now)), [])
    case Hear(f, now) =>
      match p.phase {
        case Disconnected => (p, [])
        case Synchronizing =>
          var (k, accepted) := L.HandleSyncOk(p.link, f, now);
          (Pi(if accepted then Synchronized else Synchronizing, k, p.motion), [])
        case Synchronized => (HearSynchronized(p, f, now), [])
      }
    case StartSession(id, fate, at) =>
      var (s, f) := M.BeginStart(p.motion, id);
      Transmit(p, s, f, fate, at)
    case EndSession(id, fate, at) =>
      var (s, f) := M.BeginEnd(p.motion, id);
      Transmit(p, s, f, fate, at)
    case Retry(now, fate, at) =>
      var (s, f) := M.RetryIfDue(p.motion, now);
      Transmit(p, s, f, fate, at)
    case Beat(now, fate) =>
      var (k, f) := L.HeartbeatIfDue(p.link, now);
      (p.(link := k), if f.Some? then OnWire(f.value, fate) else [])
    case Drive(left, right, fate) =>
      var (s, f) := M.BuildWheel(p.motion, left, right);
      (p.(motion := s), if f.Some? then OnWire(f.value, fate) else [])
  }

  /** Epochs are opened from the disconnected phase; lifecycle traffic needs the synchronised one. */
  predicate PiEnabled(p: Pi, e: PiEvent)
  {
    match e
    case Open(_, _) => p.phase == Disconnected
    case Drop => true
    case Hear(_, _) => p.phase != Disconnected
    case _ => p.phase == Synchronized
  }

  /** The Pi and its side of the wire after these events from power-up, if each was enabled. */
  function PiRun(es: seq<PiEvent>): Option<(Pi, seq<ToStm>)>
  {
    if es == [] then Some((PI_INITIAL, []))
    else
      var before, e := PiRun(es[..|es| - 1]), es[|es| - 1];
      if before.Some? && PiEnabled(before.value.0, e)
      then Some((PiStep(before.value.0, e).0, before.value.1 + PiStep(before.value.0, e).1))
      else None
  }

  lemma {:induction false} PiRunMore(es: seq<PiEvent>, p: Pi, wire: seq<ToStm>, e: PiEvent)
    requires PiRun(es) == Some((p, wire)) && PiEnabled(p, e)
    ensures PiRun(es + [e]) == Some((PiStep(p, e).0, wire + PiStep(p, e).1))
  {
    hide PiStep, PiEnabled;
    assert (es + [e])[..|es|] == es;
  }
}
