/** The operator's re-arm guard (software/rpi/src/manual_input_guard.cpp), characterised by the history of samples
    since the last reset. Times are nanoseconds of the steady clock, which does not run backwards. */
module ManualInputGuard {
  import opened Words

  const STEERING_CHANNEL := 0
  const FORWARD_CHANNEL := 1
  const ENABLE_CHANNEL := 4
  const STICK_CENTER := 992
  const NEUTRAL_TOLERANCE := 25
  const ENABLE_LOW_MAX := 400
  const ENABLE_HIGH_MIN := 1600
  const CHANNEL_COUNT := 16
  const TIMEOUT := 200 * 1_000_000

  type Channels = s: seq<u16> | |s| == CHANNEL_COUNT witness seq(CHANNEL_COUNT, _ => 0)

  datatype State = NeedsRearm | Ready | Enabled

  datatype Sample = Sample(channels: Channels, at: nat)

  predicate IsNeutral(value: u16): (r: bool)
    ensures r <==> 967 <= value <= 1017
  {
    STICK_CENTER - NEUTRAL_TOLERANCE <= value <= STICK_CENTER + NEUTRAL_TOLERANCE
  }

  predicate AxesNeutral(c: Channels): (r: bool)
    ensures r <==> 967 <= c[0] <= 1017 && 967 <= c[1] <= 1017
  {
    IsNeutral(c[FORWARD_CHANNEL]) && IsNeutral(c[STEERING_CHANNEL])
  }

  predicate SwitchOn(c: Channels): (r: bool)
    ensures r <==> c[4] >= 1600
  {
    c[ENABLE_CHANNEL] >= ENABLE_HIGH_MIN
  }

  predicate SwitchOff(c: Channels): (r: bool)
    ensures r <==> c[4] <= 400
  {
    c[ENABLE_CHANNEL] <= ENABLE_LOW_MAX
  }

  // ---------- Histories ----------

  predicate Ordered(history: seq<Sample>)
  {
    forall i :: 0 < i < |history| ==> history[i - 1].at <= history[i].at
  }

  /** From sample `i` on, no two samples are 200 ms, in nanoseconds, or more apart. */
  predicate Dense(history: seq<Sample>, i: nat)
  {
    forall j :: i < j < |history| ==> history[j].at - history[j - 1].at < 200_000_000
  }

  /** The operator armed at samples `i` and `i + 1`, and has kept the switch on since. */
  predicate ArmedAt(history: seq<Sample>, i: int)
  {
    && 0 <= i < |history| - 1
    && SwitchOff(history[i].channels) && AxesNeutral(history[i].channels)
    && SwitchOn(history[i + 1].channels) && AxesNeutral(history[i + 1].channels)
    && (forall j :: i < j < |history| ==> SwitchOn(history[j].channels))
    && Dense(history, i)
  }

  ghost predicate Armed(history: seq<Sample>)
  {
    exists i :: ArmedAt(history, i)
  }

  predicate RestsOff(history: seq<Sample>)
  {
    history != [] &&
    var c := history[|history| - 1].channels; SwitchOff(c) && AxesNeutral(c)
  }

  ghost function StateOf(history: seq<Sample>): State
  {
    if Armed(history) then Enabled else if RestsOff(history) then Ready else NeedsRearm
  }

  lemma OneSample(history: seq<Sample>)
    requires |history| < 2
    ensures !Armed(history)
  {
  }

  lemma ArmedBefore(history: seq<Sample>, x: Sample, i: int)
    requires ArmedAt(history + [x], i)
    ensures i < |history| && x.at - history[|history| - 1].at < TIMEOUT && SwitchOn(x.channels)
    ensures if i < |history| - 1 then ArmedAt(history, i) else RestsOff(history) && AxesNeutral(x.channels)
  {
    hide SwitchOn, SwitchOff, AxesNeutral;
    var more, n := history + [x], |history|;
    assert SwitchOn(more[n].channels) && more[n].at - more[n - 1].at < TIMEOUT;
    assert forall j :: 0 <= j < n ==> history[j] == more[j];
  }

  lemma ArmedAfter(history: seq<Sample>, x: Sample, i: int)
    requires history != [] && x.at - history[|history| - 1].at < TIMEOUT && SwitchOn(x.channels)
    requires ArmedAt(history, i) || (i == |history| - 1 && RestsOff(history) && AxesNeutral(x.channels))
    ensures ArmedAt(history + [x], i)
  {
    hide SwitchOn, SwitchOff, AxesNeutral;
  }

  /** Arming lasts while samples come in time with the switch on, and begins with an off-on pair of neutral ones. */
  lemma ArmedStep(history: seq<Sample>, x: Sample)
    ensures Armed(history + [x]) <==>
              && history != [] && x.at - history[|history| - 1].at < TIMEOUT && SwitchOn(x.channels)
              && (Armed(history) || (RestsOff(history) && AxesNeutral(x.channels)))
  {
    hide ArmedAt, SwitchOn, SwitchOff, AxesNeutral, RestsOff;
    if Armed(history + [x]) {
      var i :| ArmedAt(history + [x], i);
      assert i >= 0 by { ArmedIndex(history + [x], i); }
      ArmedBefore(history, x, i);
    }
    if history != [] && x.at - history[|history| - 1].at < TIMEOUT && SwitchOn(x.channels) {
      if Armed(history) {
        var i :| ArmedAt(history, i);
        ArmedAfter(history, x, i);
      } else if RestsOff(history) && AxesNeutral(x.channels) {
        ArmedAfter(history, x, |history| - 1);
      }
    }
  }

  lemma ArmedIndex(history: seq<Sample>, i: int)
    requires ArmedAt(history, i)
    ensures 0 <= i < |history| - 1
  {
  }

  class ManualInputGuard {
    var state: State
    var hasChannels: bool
    var lastChannelsAt: nat

    ghost var history: seq<Sample>
    ghost var now: nat

    ghost predicate Valid()
      reads this
    {
      && Ordered(history)
      && (hasChannels <==> history != [])
      && (hasChannels ==> lastChannelsAt == history[|history| - 1].at <= now)
      && (state == StateOf(history) || (state == NeedsRearm && hasChannels && now - lastChannelsAt >= TIMEOUT))
    }

    constructor ()
      ensures Valid() && history == [] && now == 0
    {
      state, hasChannels, lastChannelsAt := NeedsRearm, false, 0;
      history, now := [], 0;
      new;
      OneSample([]);
    }

    method Reset()
      requires Valid()
      modifies this
      ensures Valid() && history == [] && now == old(now)
    {
      state, hasChannels, lastChannelsAt := NeedsRearm, false, 0;
      history := [];
      OneSample([]);
    }

    /** poll: true exactly when the history since the reset is armed and its last sample is still fresh. */
    method Poll(at: nat) returns (enabled: bool)
      requires Valid() && now <= at
      modifies this
      ensures Valid() && now == at && history == old(history)
      ensures enabled <==> Armed(history) && at - history[|history| - 1].at < 200_000_000
      ensures hasChannels ==> state == if at - lastChannelsAt >= 200_000_000 then NeedsRearm else StateOf(history)
      ensures hasChannels == old(hasChannels) && lastChannelsAt == old(lastChannelsAt)
    {
      now := at;
      if !hasChannels {
        OneSample(history);
        return false;
      }
      if at - lastChannelsAt >= TIMEOUT {
        state := NeedsRearm;
      }
      return state == Enabled;
    }

    method OnChannels(channels: Channels, at: nat)
      requires Valid() && now <= at
      modifies this
      ensures Valid() && now == at && history == old(history) + [Sample(channels, at)]
    {
      var _ := Poll(at);
      ArmedStep(history, Sample(channels, at));
      lastChannelsAt := at;
      hasChannels := true;
      var enabled, disabled := SwitchOn(channels), SwitchOff(channels);
      var neutral := AxesNeutral(channels);
      match state {
        case NeedsRearm =>
          if disabled && neutral {
            state := Ready;
          }
        case Ready =>
          if enabled && neutral {
            state := Enabled;
          } else if !(disabled && neutral) {
            state := NeedsRearm;
          }
        case Enabled =>
          if !enabled {
            state := if disabled && neutral then Ready else NeedsRearm;
          }
      }
      history := history + [Sample(channels, at)];
    }
  }
}
