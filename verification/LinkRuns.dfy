/**
 Whole runs of the Raspberry Pi link session against a reference that counts frames and milliseconds without bound: when
 the link comes up, which replies count, when a heartbeat is due and when the link is lost.
 */
module LinkRuns {
  import opened Words
  import opened Messages
  import opened LinkSession

  datatype Event = Began(token: Token) | Answered(f: ToPi) | BeatPoll | Heard(f: ToPi) | Checked | Left

  /** An event and the unbounded millisecond at which it happens. */
  datatype Timed = Timed(at: nat, e: Event)

  function Step(k: Link, x: Timed): (Link, Option<ToStm>)
  {
    match x.e
    case Began(token) => (BeginSynchronization(k, token).0, Some(BeginSynchronization(k, token).1))
    case Answered(f) => (HandleSyncOk(k, f, Clock32(x.at)).0, None)
    case BeatPoll => HeartbeatIfDue(k, Clock32(x.at))
    case Heard(f) => (HandleHeartbeat(k, f, Clock32(x.at)).0, None)
    case Checked => (CheckTimeout(k, Clock32(x.at)), None)
    case Left => (Disconnect(k), None)
  }

  function Run(xs: seq<Timed>): Link
  {
    if xs == [] then INITIAL else Step(Run(xs[..|xs| - 1]), xs[|xs| - 1]).0
  }

  // ---------- The reference ----------

  /** How many frames were numbered, and whether the link is up; while it comes up, the number and token awaited; while it
      is up, when it was last confirmed, when it last sounded, and the number of the unanswered heartbeat. */
  datatype Supervision = Supervision(
    numbered: nat, awaited: Option<(nat, Token)>, up: bool, confirmedAt: nat, soundedAt: nat, unanswered: Option<nat>)

  const START := Supervision(0, None, false, 0, 0, None)

  function Number(n: nat): u16
  {
    n % 0x1_0000
  }

  function Down(r: Supervision): Supervision
  {
    Supervision(r.numbered, None, false, 0, 0, None)
  }

  /** The frame to send, if any, and the supervision after the event. */
  function Supervise(r: Supervision, x: Timed): (Supervision, Option<ToStm>)
  {
    match x.e
    case Began(token) =>
      (Supervision(r.numbered + 1, Some((r.numbered + 1, token)), false, 0, 0, None),
       Some(LinkSync(Number(r.numbered + 1), Some(token))))
    case Answered(f) =>
      if r.awaited.Some? && f == LinkSyncOk(Number(r.awaited.value.0), r.awaited.value.1)
      then (Supervision(r.numbered, None, true, x.at, x.at, None), None)
      else (r, None)
    case BeatPoll =>
      if r.up && x.at - r.soundedAt >= 250
      then (r.(numbered := r.numbered + 1, soundedAt := x.at, unanswered := Some(r.numbered + 1)),
            Some(Heartbeat(Number(r.numbered + 1), Some(0x01))))
      else (r, None)
    case Heard(f) =>
      if !r.up || r.unanswered.None? then (r, None)
      else if f == HeartbeatReply(Number(r.unanswered.value), 0x01) then (r.(confirmedAt := x.at, unanswered := None), None)
      else if f == HeartbeatReply(Number(r.unanswered.value), 0x00) then (Down(r), None)
      else (r, None)
    case Checked => (if r.up && x.at - r.confirmedAt >= 1000 then Down(r) else r, None)
    case Left => (Down(r), None)
  }

  function Supervised(xs: seq<Timed>): Supervision
  {
    if xs == [] then START else Supervise(Supervised(xs[..|xs| - 1]), xs[|xs| - 1]).0
  }

  /** Time does not run backwards, and no full period of the 32-bit clock passes between what matters and its check. */
  predicate Prompt(xs: seq<Timed>)
  {
    if xs == [] then true
    else
      var before, x := xs[..|xs| - 1], xs[|xs| - 1];
      var r := Supervised(before);
      && Prompt(before)
      && (before != [] ==> before[|before| - 1].at <= x.at)
      && (r.up ==> r.confirmedAt <= x.at < r.confirmedAt + TWO32 && r.soundedAt <= x.at < r.soundedAt + TWO32)
  }

  ghost predicate Matches(k: Link, r: Supervision)
  {
    && k.next == Number(r.numbered + 1)
    && k.state == (if r.up then Synchronized else if r.awaited.Some? then SyncPending else Disconnected)
    && (r.awaited.Some? ==> !r.up && k.syncSequence == Number(r.awaited.value.0) && k.syncToken == r.awaited.value.1)
    && (r.up ==>
          && k.lastValidResponse == Clock32(r.confirmedAt) && k.lastHeartbeatTx == Clock32(r.soundedAt)
          && (k.heartbeatPending <==> r.unanswered.Some?)
          && (r.unanswered.Some? ==> k.heartbeatSequence == Number(r.unanswered.value)))
    && (!r.up ==> !k.heartbeatPending)
  }

  lemma NumbersFollow(n: nat)
    ensures (Number(n) + 1) % TWO16 == Number(n + 1)
  {
  }

  lemma StepMatches(k: Link, r: Supervision, x: Timed)
    requires Matches(k, r)
    requires r.up ==> r.confirmedAt <= x.at < r.confirmedAt + TWO32 && r.soundedAt <= x.at < r.soundedAt + TWO32
    ensures Matches(Step(k, x).0, Supervise(r, x).0) && Step(k, x).1 == Supervise(r, x).1
  {
    hide Number, Clock32, Elapsed32;
    NumbersFollow(r.numbered + 1);
    if r.up {
      ElapsedOfClocks(x.at, r.confirmedAt);
      ElapsedOfClocks(x.at, r.soundedAt);
    }
  }

  /** In every run, the link session is up, waits, sends and expects exactly as the reference does. */
  lemma {:induction false} LinkIsSupervised(xs: seq<Timed>)
    requires Prompt(xs)
    ensures Matches(Run(xs), Supervised(xs))
    ensures xs != [] ==>
              Step(Run(xs[..|xs| - 1]), xs[|xs| - 1]).1 == Supervise(Supervised(xs[..|xs| - 1]), xs[|xs| - 1]).1
  {
    hide Step, Supervise;
    if xs != [] {
      LinkIsSupervised(xs[..|xs| - 1]);
      StepMatches(Run(xs[..|xs| - 1]), Supervised(xs[..|xs| - 1]), xs[|xs| - 1]);
    } else {
      NothingMatches();
    }
  }

  lemma NothingMatches()
    ensures Matches(INITIAL, START)
  {
  }

  /** A link that survives its check was confirmed less than 1000 ms ago, by an answered LINK_SYNC or heartbeat. */
  lemma {:induction false} UpMeansConfirmed(xs: seq<Timed>)
    requires Prompt(xs) && xs != [] && xs[|xs| - 1].e.Checked? && Run(xs).state == Synchronized
    ensures xs[|xs| - 1].at - Supervised(xs).confirmedAt < 1000
  {
    LinkIsSupervised(xs);
  }
}
