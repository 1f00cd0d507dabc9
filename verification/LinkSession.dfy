/** The Raspberry Pi link session: synchronisation, heartbeat correlation and timeout
    (software/rpi/src/stm32_link_session.cpp). */
module LinkSession {
  import opened Words
  import opened Messages

  datatype LinkState = Disconnected | SyncPending | Synchronized

  const HEARTBEAT_PERIOD_MS := 250
  const LINK_TIMEOUT_MS := 1000

  datatype Link = Link(
    state: LinkState, next: u16, syncSequence: u16, syncToken: Token,
    heartbeatSequence: u16, heartbeatPending: bool, lastHeartbeatTx: u32, lastValidResponse: u32)

  const INITIAL := Link(Disconnected, 1, 0, 0, 0, false, 0, 0)

  function Disconnect(k: Link): Link
  {
    INITIAL.(next := k.next, heartbeatSequence := k.heartbeatSequence)
  }

  function BeginSynchronization(k: Link, token: Token): (Link, ToStm)
  {
    (k.(state := SyncPending, next := (k.next + 1) % TWO16, syncSequence := k.next, syncToken := token,
        heartbeatPending := false),
     LinkSync(k.next, Some(token)))
  }

  function HandleSyncOk(k: Link, f: ToPi, now: u32): (Link, bool)
  {
    if k.state == SyncPending && f == LinkSyncOk(k.syncSequence, k.syncToken)
    then (k.(state := Synchronized, lastHeartbeatTx := now, lastValidResponse := now), true)
    else (k, false)
  }

  function HeartbeatIfDue(k: Link, now: u32): (Link, Option<ToStm>)
  {
    if k.state != Synchronized || Elapsed32(now, k.lastHeartbeatTx) < HEARTBEAT_PERIOD_MS then (k, None)
    else (k.(next := (k.next + 1) % TWO16, heartbeatSequence := k.next, heartbeatPending := true, lastHeartbeatTx := now),
          Some(Heartbeat(k.next, Some(SYNCHRONIZED))))
  }

  /** A reply to the outstanding heartbeat: synchronised keeps the link, unsynchronised drops it. */
  function HandleHeartbeat(k: Link, f: ToPi, now: u32): (Link, bool)
  {
    if !k.heartbeatPending || k.state != Synchronized || !f.HeartbeatReply? || f.sequence != k.heartbeatSequence
    then (k, false)
    else if f.linkState == UNSYNCHRONIZED then (k.(heartbeatPending := false, state := Disconnected), false)
    else if f.linkState != SYNCHRONIZED then (k, false)
    else (k.(heartbeatPending := false, lastValidResponse := now), true)
  }

  function CheckTimeout(k: Link, now: u32): Link
  {
    if k.state == Synchronized && Elapsed32(now, k.lastValidResponse) >= LINK_TIMEOUT_MS
    then k.(heartbeatPending := false, state := Disconnected)
    else k
  }

  class Stm32LinkSession {
    var state: LinkState
    var nextSequence: u16
    var pendingSyncSequence: u16
    var pendingSyncToken: Token
    var pendingHeartbeatSequence: u16
    var heartbeatResponsePending: bool
    var lastHeartbeatTxMs: u32
    var lastValidResponseMs: u32

    function View(): Link
      reads this
    {
      Link(state, nextSequence, pendingSyncSequence, pendingSyncToken, pendingHeartbeatSequence,
           heartbeatResponsePending, lastHeartbeatTxMs, lastValidResponseMs)
    }

    /** The accessor state(). */
    function State(): (r: LinkState)
      reads this
      ensures r == View().state
    {
      state
    }

    constructor ()
      ensures View() == INITIAL
    {
      state, nextSequence := Disconnected, 1;
      pendingSyncSequence, pendingSyncToken, pendingHeartbeatSequence := 0, 0, 0;
      heartbeatResponsePending, lastHeartbeatTxMs, lastValidResponseMs := false, 0, 0;
    }

    method TakeHeartbeatIfDue(now: u32) returns (frame: Option<ToStm>)
      modifies this
      ensures (View(), frame) == HeartbeatIfDue(old(View()), now)
    {
      if state != Synchronized {
        return None;
      }
      if Elapsed32(now, lastHeartbeatTxMs) < HEARTBEAT_PERIOD_MS {
        return None;
      }
      var sequence := nextSequence;
      nextSequence := (nextSequence + 1) % TWO16;
      pendingHeartbeatSequence := sequence;
      heartbeatResponsePending := true;
      lastHeartbeatTxMs := now;
      return Some(Heartbeat(sequence, Some(SYNCHRONIZED)));
    }

    method Synchronize(token: Token) returns (frame: ToStm)
      modifies this
      ensures (View(), frame) == BeginSynchronization(old(View()), token)
    {
      heartbeatResponsePending := false;
      var sequence := nextSequence;
      nextSequence := (nextSequence + 1) % TWO16;
      pendingSyncSequence := sequence;
      pendingSyncToken := token;
      state := SyncPending;
      return LinkSync(sequence, Some(token));
    }

    method OnLinkSyncOk(f: ToPi, now: u32) returns (accepted: bool)
      modifies this
      ensures (View(), accepted) == HandleSyncOk(old(View()), f, now)
    {
      if state != SyncPending {
        return false;
      }
      if !f.LinkSyncOk? {
        return false;
      }
      if f.sequence != pendingSyncSequence {
        return false;
      }
      if f.token != pendingSyncToken {
        return false;
      }
      state := Synchronized;
      lastHeartbeatTxMs := now;
      lastValidResponseMs := now;
      return true;
    }

    method OnHeartbeatResponse(f: ToPi, now: u32) returns (accepted: bool)
      modifies this
      ensures (View(), accepted) == HandleHeartbeat(old(View()), f, now)
    {
      if !heartbeatResponsePending {
        return false;
      }
      if state != Synchronized {
        return false;
      }
      if !f.HeartbeatReply? {
        return false;
      }
      if f.sequence != pendingHeartbeatSequence {
        return false;
      }
      if f.linkState == UNSYNCHRONIZED {
        heartbeatResponsePending := false;
        state := Disconnected;
        return false;
      }
      if f.linkState != SYNCHRONIZED {
        return false;
      }
      heartbeatResponsePending := false;
      lastValidResponseMs := now;
      return true;
    }

    method CheckLinkTimeout(now: u32)
      modifies this
      ensures View() == CheckTimeout(old(View()), now)
    {
      if state != Synchronized {
        return;
      }
      if Elapsed32(now, lastValidResponseMs) >= LINK_TIMEOUT_MS {
        heartbeatResponsePending := false;
        state := Disconnected;
      }
    }

    method DisconnectLink()
      modifies this
      ensures View() == Disconnect(old(View()))
    {
      state := Disconnected;
      heartbeatResponsePending := false;
      pendingSyncSequence := 0;
      pendingSyncToken := 0;
      lastHeartbeatTxMs := 0;
      lastValidResponseMs := 0;
    }
  }
}
