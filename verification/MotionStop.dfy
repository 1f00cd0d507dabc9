/** Encoder-confirmed physical stop (firmware/stm32/App/Src/motion_stop.c). */
module MotionStop {
  import opened Words

  const SETTLE_TIME_MS := 200
  const TIMEOUT_MS := 1000
  /** Longest time between two updates for which the 32-bit clock cannot alias. */
  const MAX_GAP_MS := TWO32 - 1000

  datatype Counts = Counts(left: u32, right: u32)

  /** One encoder reading and the unbounded millisecond at which it was taken. */
  datatype Sample = Sample(at: nat, counts: Counts)

  datatype Completion = Unfinished | Finished(operation: u32, success: bool)

  /** The start of the longest run of equal readings that ends with the last one. */
  function QuietStart(s: seq<Sample>): (q: nat)
    requires s != []
    ensures q < |s|
  {
    if |s| == 1 then 0
    else if s[|s| - 1].counts == s[|s| - 2].counts then QuietStart(s[..|s| - 1])
    else |s| - 1
  }

  /** How long the encoders have been seen not to move. */
  function QuietFor(s: seq<Sample>): int
    requires s != []
  {
    s[|s| - 1].at - s[QuietStart(s)].at
  }

  /** The verdict on a stop, as a function of all readings since its confirmation began: failure at the deadline, else
      success once the encoders have been quiet long enough. */
  function Decision(s: seq<Sample>): Option<bool>
    requires s != []
  {
    if s[|s| - 1].at - s[0].at >= TIMEOUT_MS then Some(false)
    else if QuietFor(s) >= SETTLE_TIME_MS then Some(true)
    else None
  }

  /** From `q` on every reading was the same as the last, which came 200 ms later or more. */
  predicate StillSince(s: seq<Sample>, q: int)
  {
    && 0 <= q < |s| && s[|s| - 1].at - s[q].at >= 200
    && forall i :: q <= i < |s| ==> s[i].counts == s[|s| - 1].counts
  }

  /** Failure means exactly that 1000 ms have passed since the first reading; success, exactly that they have not and that
      for 200 ms or more every reading has been the same. */
  lemma DecisionIff(s: seq<Sample>)
    requires s != [] && forall i, j :: 0 <= i <= j < |s| ==> s[i].at <= s[j].at
    ensures Decision(s) == Some(false) <==> s[|s| - 1].at - s[0].at >= 1000
    ensures Decision(s) == Some(true) <==> s[|s| - 1].at - s[0].at < 1000 && exists q :: StillSince(s, q)
  {
    if exists q :: StillSince(s, q) {
      var q :| StillSince(s, q);
      QuietStartsFirst(s, q);
    }
    if QuietFor(s) >= 200 {
      var q := QuietStart(s);
      forall i | q <= i < |s|
        ensures s[i].counts == s[|s| - 1].counts
      {
        QuietReadingsEqual(s, i);
      }
      assert StillSince(s, q);
    }
  }

  lemma {:induction false} QuietStartsFirst(s: seq<Sample>, q: nat)
    requires q < |s| && forall i :: q <= i < |s| ==> s[i].counts == s[|s| - 1].counts
    ensures QuietStart(s) <= q
  {
    if q < |s| - 1 {
      QuietStartsFirst(s[..|s| - 1], q);
    }
  }

  /** Everything read during the quiet run is the same. */
  lemma {:induction false} QuietReadingsEqual(s: seq<Sample>, i: nat)
    requires s != [] && QuietStart(s) <= i < |s|
    ensures s[i].counts == s[|s| - 1].counts
  {
    if i < |s| - 1 {
      QuietReadingsEqual(s[..|s| - 1], i);
    }
  }

  lemma {:induction false} QuietExtended(s: seq<Sample>, x: Sample)
    requires s != []
    ensures QuietStart(s + [x]) == if x.counts == s[|s| - 1].counts then QuietStart(s) else |s|
  {
    assert (s + [x])[..|s|] == s;
  }

  class MotionStop {
    var active: bool
    var operationId: u32
    var startedAtMs: u32
    var lastMovementAtMs: u32
    var previousCounts: Counts
    /** Every reading since the confirmation began. */
    ghost var samples: seq<Sample>

    ghost predicate Valid()
      reads this
    {
      active ==>
        && operationId != 0 && samples != []
        && startedAtMs == Clock32(samples[0].at)
        && lastMovementAtMs == Clock32(samples[QuietStart(samples)].at)
        && previousCounts == samples[|samples| - 1].counts
        && samples[0].at <= samples[QuietStart(samples)].at <= samples[|samples| - 1].at
        && Decision(samples) == None
    }

    constructor ()
      ensures Valid() && !active
    {
      active, operationId, startedAtMs, lastMovementAtMs, previousCounts := false, 0, 0, 0, Counts(0, 0);
      samples := [];
    }

    method Begin(operation: u32, now: u32, reading: Counts, ghost at: nat) returns (ok: bool)
      requires Valid() && now == Clock32(at)
      modifies this
      ensures Valid() && ok == (operation != 0)
      ensures if ok then active && operationId == operation && samples == [Sample(at, reading)] else unchanged(this)
    {
      if operation == 0 {
        return false;
      }
      operationId := operation;
      startedAtMs := now;
      lastMovementAtMs := now;
      previousCounts := reading;
      active := true;
      samples := [Sample(at, reading)];
      return true;
    }

    /** The verdict is a function of the readings: failure on the first update at or after the deadline,
        otherwise success once the encoders have been quiet long enough. */
    method Update(now: u32, reading: Counts, ghost at: nat) returns (c: Completion)
      requires Valid() && now == Clock32(at)
      requires active ==> samples[|samples| - 1].at <= at <= samples[|samples| - 1].at + MAX_GAP_MS
      modifies this
      ensures Valid()
      ensures !old(active) ==> c == Unfinished && unchanged(this)
      ensures old(active) ==>
                && samples == old(samples) + [Sample(at, reading)]
                && operationId == old(operationId)
                && (c == Unfinished <==> active)
                && c == (match Decision(samples) case None => Unfinished case Some(success) => Finished(operationId, success))
    {
      c := Unfinished;
      if !active {
        return;
      }
      QuietExtended(samples, Sample(at, reading));
      if reading.left != previousCounts.left || reading.right != previousCounts.right {
        previousCounts := reading;
        lastMovementAtMs := now;
      }
      samples := samples + [Sample(at, reading)];
      ElapsedOfClocks(at, samples[0].at);
      ElapsedOfClocks(at, samples[QuietStart(samples)].at);
      if Elapsed32(now, startedAtMs) >= TIMEOUT_MS {
        c := Finished(operationId, false);
        active := false;
        return;
      }
      if Elapsed32(now, lastMovementAtMs) >= SETTLE_TIME_MS {
        c := Finished(operationId, true);
        active := false;
      }
    }

    method Cancel()
      modifies this
      ensures Valid() && !active
    {
      active, operationId, startedAtMs, lastMovementAtMs, previousCounts := false, 0, 0, 0, Counts(0, 0);
    }
  }
}
