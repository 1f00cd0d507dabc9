/**
 The wheel frames a client sent, tied to what it was told and what it did: each entry names the set call whose command it
 carries, and stands for one Drive event of the protocol party, in the epoch and the session that the events before it
 count up to.
 */
module WheelLog {
  import opened Words
  import opened Messages
  import opened PiParty

  const NS_PER_MS := 1_000_000
  const WHEEL_TX_PERIOD := 50 * NS_PER_MS
  const WHEEL_COMMAND_FRESHNESS := 200 * NS_PER_MS

  datatype Command = Command(left: i16, right: i16)

  /** A call of set_wheel_command: when, and how many epochs had been opened by then. */
  datatype SetCall = SetCall(command: Command, at: nat, epoch: nat)

  /** A wheel frame given to the port: the set call it serves, when it was decided and when its send was confirmed. */
  datatype WheelSent = WheelSent(
    frame: ToStm, command: Command, serves: nat, epoch: nat, session: nat, decidedAt: nat, confirmedAt: Option<nat>,
    onWire: bool)

  // ---------- What a run of the protocol party counts ----------

  function Opens(es: seq<PiEvent>): nat
  {
    if es == [] then 0 else Opens(es[..|es| - 1]) + if es[|es| - 1].Open? then 1 else 0
  }

  function Starts(es: seq<PiEvent>): nat
  {
    if es == [] then 0 else Starts(es[..|es| - 1]) + if es[|es| - 1].StartSession? then 1 else 0
  }

  /** The frames heard, in order. */
  function Heard(es: seq<PiEvent>): seq<ToPi>
  {
    if es == [] then [] else Heard(es[..|es| - 1]) + if es[|es| - 1].Hear? then [es[|es| - 1].f] else []
  }

  /** A Drive event and the epoch and session in which it happened. */
  datatype Occasion = Occasion(command: Command, onWire: bool, epoch: nat, session: nat)

  function Occasions(es: seq<PiEvent>): seq<Occasion>
  {
    if es == [] then []
    else
      var before, e := es[..|es| - 1], es[|es| - 1];
      Occasions(before) +
        if e.Drive?
        then [Occasion(Command(e.left, e.right), e.fate.Sent? || e.fate.delivered, Opens(before), Starts(before))]
        else []
  }

  lemma {:induction false} EventsMore(es: seq<PiEvent>, e: PiEvent)
    ensures Opens(es + [e]) == Opens(es) + if e.Open? then 1 else 0
    ensures Starts(es + [e]) == Starts(es) + if e.StartSession? then 1 else 0
    ensures Heard(es + [e]) == Heard(es) + if e.Hear? then [e.f] else []
    ensures Occasions(es + [e]) ==
              Occasions(es) +
                if e.Drive?
                then [Occasion(Command(e.left, e.right), e.fate.Sent? || e.fate.delivered, Opens(es), Starts(es))]
                else []
  {
    assert (es + [e])[..|es|] == es;
  }

  // ---------- What the log promises ----------

  /** The frame carries a nonzero command that was the latest one set, in the same epoch, less than 200 ms, in nanoseconds,
      before. */
  ghost predicate Fresh(w: WheelSent, sets: seq<SetCall>, epochs: seq<nat>)
  {
    && w.frame.WheelVelocity? && w.frame.wheels.Some?
    && w.frame.wheels.value.left == w.command.left && w.frame.wheels.value.right == w.command.right
    && (w.command.left != 0 || w.command.right != 0)
    && w.serves < |sets| && sets[w.serves].command == w.command && sets[w.serves].epoch == w.epoch
    && 0 < w.epoch <= |epochs|
    && epochs[w.epoch - 1] <= sets[w.serves].at <= w.decidedAt < sets[w.serves].at + 200_000_000
    && (w.serves + 1 < |sets| ==> w.decidedAt <= sets[w.serves + 1].at)
  }

  /** Sessions follow each other; within one, a frame waits 50 ms after the previous was confirmed. */
  ghost predicate Spaced(v: WheelSent, w: WheelSent)
  {
    && v.session <= w.session
    && (v.session == w.session ==>
          v.confirmedAt.Some? && w.decidedAt >= v.confirmedAt.value + 50_000_000)
  }

  ghost predicate Disciplined(log: seq<WheelSent>, sets: seq<SetCall>, epochs: seq<nat>)
  {
    && (forall i :: 0 <= i < |log| ==> Fresh(log[i], sets, epochs))
    && (forall i :: 0 < i < |log| ==> Spaced(log[i - 1], log[i]))
  }

  /** The wheel frames on the wire, and those the log says were put there. */
  function WheelFrames(wire: seq<ToStm>): seq<ToStm>
  {
    if wire == [] then []
    else
      var n := |wire| - 1;
      WheelFrames(wire[..n]) + if wire[n].WheelVelocity? then [wire[n]] else []
  }

  function Carried(log: seq<WheelSent>): seq<ToStm>
  {
    if log == [] then []
    else
      var n := |log| - 1;
      Carried(log[..n]) + if log[n].onWire then [log[n].frame] else []
  }

  function OccasionsOf(log: seq<WheelSent>): seq<Occasion>
  {
    if log == [] then []
    else
      var n := |log| - 1;
      OccasionsOf(log[..n]) + [Occasion(log[n].command, log[n].onWire, log[n].epoch, log[n].session)]
  }

  lemma WheelFramesMore(wire: seq<ToStm>, f: ToStm, fate: Fate)
    ensures WheelFrames(wire + OnWire(f, fate)) ==
              WheelFrames(wire) + if f.WheelVelocity? then OnWire(f, fate) else []
  {
    var out := OnWire(f, fate);
    if out == [] {
      assert wire + out == wire;
    } else {
      assert (wire + out)[..|wire|] == wire;
    }
  }

  lemma LogMore(log: seq<WheelSent>, w: WheelSent)
    ensures Carried(log + [w]) == Carried(log) + if w.onWire then [w.frame] else []
    ensures OccasionsOf(log + [w]) == OccasionsOf(log) + [Occasion(w.command, w.onWire, w.epoch, w.session)]
  {
    assert (log + [w])[..|log|] == log;
  }

  /** The log accounts for every Drive event and every wheel frame on the wire, and keeps its promises. */
  ghost predicate Accounted(events: seq<PiEvent>, wire: seq<ToStm>, log: seq<WheelSent>, sets: seq<SetCall>,
                            epochs: seq<nat>, now: nat)
  {
    && |epochs| == Opens(events)
    && Occasions(events) == OccasionsOf(log) && WheelFrames(wire) == Carried(log)
    && Disciplined(log, sets, epochs)
    && (forall i :: 0 <= i < |log| ==> log[i].decidedAt <= now)
    && (log != [] ==> log[|log| - 1].session <= Starts(events))
  }

  lemma NothingAccounted(now: nat)
    ensures Accounted([], [], [], [], [], now)
  {
  }

  lemma AccountedLater(events: seq<PiEvent>, wire: seq<ToStm>, log: seq<WheelSent>, sets: seq<SetCall>,
                       epochs: seq<nat>, now: nat, later: nat)
    requires Accounted(events, wire, log, sets, epochs, now) && now <= later
    ensures Accounted(events, wire, log, sets, epochs, later)
  {
    hide Disciplined, Occasions, OccasionsOf, WheelFrames, Carried, Opens, Starts;
  }

  /** An event that drives nothing and opens no epoch. */
  lemma AccountedPlain(events: seq<PiEvent>, wire: seq<ToStm>, log: seq<WheelSent>, sets: seq<SetCall>,
                       epochs: seq<nat>, now: nat, e: PiEvent, wire': seq<ToStm>)
    requires Accounted(events, wire, log, sets, epochs, now) && !e.Drive? && !e.Open?
    requires WheelFrames(wire') == WheelFrames(wire)
    ensures Accounted(events + [e], wire', log, sets, epochs, now)
  {
    hide Disciplined, Occasions, OccasionsOf, WheelFrames, Carried, Opens, Starts;
    EventsMore(events, e);
  }

  lemma AccountedOpen(events: seq<PiEvent>, wire: seq<ToStm>, log: seq<WheelSent>, sets: seq<SetCall>,
                      epochs: seq<nat>, now: nat, e: PiEvent, wire': seq<ToStm>, start: nat)
    requires Accounted(events, wire, log, sets, epochs, now) && e.Open? && WheelFrames(wire') == WheelFrames(wire)
    ensures Accounted(events + [e], wire', log, sets, epochs + [start], now)
  {
    hide Occasions, OccasionsOf, WheelFrames, Carried, Opens, Starts, Spaced;
    EventsMore(events, e);
  }

  lemma AccountedSet(events: seq<PiEvent>, wire: seq<ToStm>, log: seq<WheelSent>, sets: seq<SetCall>,
                     epochs: seq<nat>, now: nat, x: SetCall)
    requires Accounted(events, wire, log, sets, epochs, now) && now <= x.at
    ensures Accounted(events, wire, log, sets + [x], epochs, now)
  {
    hide Occasions, OccasionsOf, WheelFrames, Carried, Opens, Starts, Spaced;
  }

  lemma AccountedDrive(events: seq<PiEvent>, wire: seq<ToStm>, log: seq<WheelSent>, sets: seq<SetCall>,
                       epochs: seq<nat>, now: nat, e: PiEvent, wire': seq<ToStm>, w: WheelSent)
    requires Accounted(events, wire, log, sets, epochs, now) && e.Drive? && w.command == Command(e.left, e.right)
    requires w.onWire == (e.fate.Sent? || e.fate.delivered) && w.epoch == |epochs| && w.session == Starts(events)
    requires WheelFrames(wire') == WheelFrames(wire) + if w.onWire then [w.frame] else []
    requires Fresh(w, sets, epochs) && w.decidedAt <= now && (log != [] ==> Spaced(log[|log| - 1], w))
    ensures Accounted(events + [e], wire', log + [w], sets, epochs, now)
  {
    hide Occasions, OccasionsOf, WheelFrames, Carried, Opens, Starts, Spaced, Fresh;
    EventsMore(events, e);
    LogMore(log, w);
  }
}
