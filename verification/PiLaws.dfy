/**
 What the Raspberry Pi says on the line and when, event by event, and what the frames it hears do to it
 (software/rpi/src/stm32_client_runner.cpp, stm32_link_session.cpp, stm32_motion_session.cpp).
 */
module PiLaws {
  import opened Words
  import opened ReliableReceiver
  import opened Messages
  import opened PiParty
  import L = LinkSession
  import M = MotionSession

  function Out(p: Pi, e: PiEvent): seq<ToStm>
  {
    PiStep(p, e).1
  }

  function After(p: Pi, e: PiEvent): Pi
  {
    PiStep(p, e).0
  }

  /** An epoch opens with LINK_SYNC under the next number, without a session; it awaits the answer exactly if the send was
      reported as such, and is synchronised by that answer, number and token, and by nothing else. */
  lemma OpeningSays(p: Pi, token: Token, fate: Fate, f: ToPi, now: u32)
    requires p.phase == Disconnected
    ensures Out(p, Open(token, fate)) == OnWire(LinkSync(p.link.next, Some(token)), fate)
    ensures var q := After(p, Open(token, fate));
            && q.motion.state == M.Inactive && q.motion.pending == None
            && (if fate.Sent?
                then q.phase == Synchronizing
                     && var r := After(q, Hear(f, now));
                        if f == LinkSyncOk(p.link.next, token)
                        then r.phase == Synchronized && r.link.state == L.Synchronized && r.link.lastValidResponse == now
                        else r == q
                else q.phase == Disconnected && q.link.state == L.Disconnected)
  {
  }

  /** A due retry repeats the pending command, and a retry that is not due says and changes nothing: due is 100 ms after the
      last confirmed transmission, or 750 ms after the first ACK, for at most three times. */
  lemma RetryRepeats(p: Pi, now: u32, fate: Fate, at: u32)
    ensures var s := p.motion;
            var due := s.pending.Some? && s.timerRunning && s.retries < 3
                       && Elapsed32(now, s.lastTransmit) >= (if s.acked then 750 else 100);
            if due
            then var t, q := s.pending.value, After(p, Retry(now, fate, at)).motion;
                 && Out(p, Retry(now, fate, at)) ==
                      OnWire(MotionCommand(t.sequence, Some(CommandBody(t.command, t.sessionId))), fate)
                 && q.pending == s.pending && q.state == s.state && q.retries == s.retries + 1
                 && (fate.Sent? ==> q.timerRunning && q.lastTransmit == at) && (!fate.Sent? ==> !q.timerRunning)
            else PiStep(p, Retry(now, fate, at)) == (p, [])
  {
  }

  /** A heartbeat goes out 250 ms after the last one, while the link is up; it becomes the outstanding one. */
  lemma BeatSounds(p: Pi, now: u32, fate: Fate)
    ensures if p.link.state == L.Synchronized && Elapsed32(now, p.link.lastHeartbeatTx) >= 250
            then var k := After(p, Beat(now, fate)).link;
                 && Out(p, Beat(now, fate)) == OnWire(Heartbeat(p.link.next, Some(0x01)), fate)
                 && k.heartbeatPending && k.heartbeatSequence == p.link.next && k.lastHeartbeatTx == now
                 && k.next == (p.link.next + 1) % 0x1_0000 && k.lastValidResponse == p.link.lastValidResponse
            else PiStep(p, Beat(now, fate)) == (p, [])
  {
  }

  /** A session is started, ended and driven by frames that carry its id. */
  lemma SessionSays(p: Pi, id: u32, left: i16, right: i16, fate: Fate, at: u32)
    ensures p.motion.pending.None? ==>
              && Out(p, StartSession(id, fate, at)) == OnWire(MotionCommand(p.motion.next, Some(CommandBody(0x01, id))), fate)
              && After(p, StartSession(id, fate, at)).motion.pending == Some(Transaction(p.motion.next, 0x01, id))
    ensures p.motion.pending.None? && p.motion.state == M.Active && p.motion.activeId == id ==>
              && Out(p, EndSession(id, fate, at)) == OnWire(MotionCommand(p.motion.next, Some(CommandBody(0x02, id))), fate)
              && After(p, EndSession(id, fate, at)).motion.pending == Some(Transaction(p.motion.next, 0x02, id))
    ensures Out(p, Drive(left, right, fate)) ==
              if p.motion.state == M.Active
              then OnWire(WheelVelocity(p.motion.nextWheel, Some(Wheels(p.motion.activeId, left, right))), fate) else []
  {
  }

  /** While the link is up, the reply to the outstanding heartbeat renews it or ends it; the answer to the pending command
      settles it; its first ACK starts the longer wait; and nothing else that is heard does anything. */
  lemma HearingMeans(p: Pi, f: ToPi, now: u32)
    requires p.phase == Synchronized && p.link.state == L.Synchronized && M.Coherent(p.motion)
    ensures Out(p, Hear(f, now)) == []
    ensures var q, k, s := After(p, Hear(f, now)), p.link, p.motion;
            if k.heartbeatPending && f == HeartbeatReply(k.heartbeatSequence, 0x01)
            then q == p.(link := k.(heartbeatPending := false, lastValidResponse := now))
            else if k.heartbeatPending && f == HeartbeatReply(k.heartbeatSequence, 0x00)
            then q.link.state == L.Disconnected && q.motion == s
            else if s.pending.Some? && f == MotionAck(s.pending.value.sequence, 0x00)
            then q == p.(motion := if s.acked then s else s.(acked := true, lastTransmit := now))
            else if && s.pending.Some? && f.MotionResponse?
                    && Transaction(f.sequence, f.command, f.sessionId) == s.pending.value
            then && q.link == k && q.motion.pending == None
                 && (if f.command == 0x01 && f.result in {Ok, AlreadyActive}
                     then q.motion.state == M.Active && q.motion.activeId == f.sessionId
                     else q.motion.state == M.Inactive)
            else q == p
  {
  }

  /** A link that has not been confirmed for 1000 ms is down after its check, and nothing else is. */
  lemma CheckMeans(p: Pi, now: u32)
    ensures Out(p, CheckLink(now)) == [] && After(p, CheckLink(now)).motion == p.motion
    ensures p.link.state == L.Synchronized ==>
              if Elapsed32(now, p.link.lastValidResponse) >= 1000
              then After(p, CheckLink(now)).link.state == L.Disconnected
              else After(p, CheckLink(now)) == p
  {
  }
}
