/**
 The motion watchdog and the command guard in front of the motor driver
 (firmware/stm32/App/Src/motion_watchdog.c, motion_command_guard.c).
 */
module CommandGuard {
  import opened Words
  import opened MotorDriver

  class MotionWatchdog {
    var initialized: bool
    var armed: bool
    var timeoutMs: u32
    var lastRefreshMs: u32
    /** The unbounded millisecond of the last refresh. */
    ghost var refreshedAt: nat

    ghost predicate Valid()
      reads this
    {
      armed ==> initialized && lastRefreshMs == Clock32(refreshedAt)
    }

    constructor (timeout: u32)
      ensures Valid() && !armed && initialized == (timeout > 0) && timeoutMs == timeout
    {
      armed, initialized, timeoutMs, lastRefreshMs := false, timeout > 0, timeout, 0;
      refreshedAt := 0;
    }

    method Refresh(now: u32, ghost at: nat) returns (ok: bool)
      requires Valid() && now == Clock32(at)
      modifies this`armed, this`lastRefreshMs, this`refreshedAt
      ensures Valid() && ok == initialized
      ensures if ok then armed && refreshedAt == at else armed == old(armed) && refreshedAt == old(refreshedAt)
    {
      if !initialized {
        return false;
      }
      lastRefreshMs := now;
      armed := true;
      refreshedAt := at;
      return true;
    }

    method Disarm()
      modifies this`armed
      ensures Valid() && !armed
    {
      armed := false;
    }

    /** The wrapped comparison is exact while the refresh is less than one clock period old. */
    method Expired(now: u32, ghost at: nat) returns (expired: bool)
      requires Valid() && now == Clock32(at)
      requires armed ==> refreshedAt <= at < refreshedAt + TWO32
      ensures expired <==> armed && at - refreshedAt >= timeoutMs
    {
      if !initialized || !armed {
        return false;
      }
      ElapsedOfClocks(at, refreshedAt);
      return Elapsed32(now, lastRefreshMs) >= timeoutMs;
    }
  }

  /** The last thing asked of the port was a stop, and it was refused. */
  predicate StopRefused(t: Trace)
  {
    && t.left != [] && t.left[|t.left| - 1].Stop? && !t.left[|t.left| - 1].accepted
    && t.offers != [] && t.offers[|t.offers| - 1] == Offer(Accepted(t.left[|t.left| - 1].at, BRAKE, BRAKE), false)
  }

  datatype GuardUpdate = NothingToDo | DidStop | CouldNotStop

  class CommandGuard {
    var initialized: bool
    var stopPending: bool
    const driver: MotorDriver
    const watchdog: MotionWatchdog

    ghost predicate Ready()
      reads this, watchdog, driver
    {
      watchdog.Valid() && watchdog.initialized && initialized && driver.Valid() && driver.initialized
    }

    /** An energised wheel is watched, unless a stop is owed; and a stop is owed only while the last thing asked of the
        port was a stop that it refused. */
    ghost predicate Valid()
      reads this, driver, watchdog
    {
      && Ready()
      && (driver.Energised() ==> stopPending || watchdog.armed)
      && (stopPending ==> StopRefused(driver.trace))
    }

    /** The port was asked for this control first, and refused it. */
    ghost predicate Refused(before: Trace, control: Accepted)
      reads driver
    {
      && |driver.trace.offers| > |before.offers| && driver.trace.offers[|before.offers|] == Offer(control, false)
    }

    lemma History()
      requires Ready()
      ensures Explains(driver.trace, driver.left, driver.right)
    {
    }

    lemma Owed()
      requires Valid() && stopPending
      ensures driver.trace.offers != []
      ensures var x := driver.trace.offers[|driver.trace.offers| - 1]; !x.taken && x.control.at <= driver.CalledAt()
    {
      hide Explains;
    }

    /** The port has accepted nothing since but at this time. */
    ghost predicate Since(before: Trace, at: nat)
      reads driver
    {
      Grown(before, driver.trace, at) && driver.CalledAt() <= at
    }

    /** The state once motion_command_guard_init has succeeded. */
    constructor (timeout: u32)
      requires timeout > 0
      ensures Valid() && fresh(driver) && fresh(watchdog) && watchdog.timeoutMs == timeout
      ensures !stopPending && !watchdog.armed && driver.trace == NO_TRACE && driver.brakedSince == 0
    {
      driver := new MotorDriver(true);
      watchdog := new MotionWatchdog(timeout);
      initialized, stopPending := true, false;
    }

    /** The last refresh is kept apart from everything but an accepted wheel command. */
    method TryStop(ghost at: nat) returns (ok: bool)
      requires Ready() && driver.CalledAt() <= at
      modifies this`stopPending, driver, watchdog`armed
      ensures Valid() && Since(old(driver.trace), at)
      ensures driver.trace.offers == old(driver.trace).offers + [Offer(Accepted(at, BRAKE, BRAKE), ok)]
      ensures stopPending == !ok
      ensures ok ==> !driver.Energised() && !watchdog.armed
      ensures !ok ==> watchdog.armed == old(watchdog.armed) && driver.Energised() == old(driver.Energised())
      ensures driver.RestKept(old(driver.Energised()), old(driver.brakedSince), at)
    {
      hide Explains, RestSince;
      ok := driver.StopMotors(at);
      if ok {
        watchdog.Disarm();
        stopPending := false;
        return true;
      }
      stopPending := true;
      return false;
    }

    method Stop(ghost at: nat) returns (ok: bool)
      requires Valid() && driver.CalledAt() <= at
      modifies this`stopPending, driver, watchdog`armed
      ensures Valid() && Since(old(driver.trace), at)
      ensures driver.trace.offers == old(driver.trace).offers + [Offer(Accepted(at, BRAKE, BRAKE), ok)]
      ensures stopPending == !ok
      ensures ok ==> !driver.Energised() && !watchdog.armed
      ensures !ok ==> watchdog.armed == old(watchdog.armed) && driver.Energised() == old(driver.Energised())
      ensures driver.RestKept(old(driver.Energised()), old(driver.brakedSince), at)
    {
      if !initialized {
        return false;
      }
      ok := TryStop(at);
    }

    /** The watchdog is initialised with the guard, so that refreshing it cannot fail.
        An accepted nonzero command arms the watchdog now; an accepted zero disarms it with the wheels braked;
        a refused command leaves the wheels stopped or a stop owed. `tick` is the driver's own clock reading. */
    method Apply(command: Command, now: u32, ghost at: nat, tick: u32, ghost tickAt: nat) returns (ok: bool)
      requires Valid() && now == Clock32(at) && tick == Clock32(tickAt) && driver.CalledAt() <= tickAt
      modifies this`stopPending, driver, watchdog`armed, watchdog`lastRefreshMs, watchdog`refreshedAt
      ensures Valid() && Since(old(driver.trace), tickAt)
      ensures ok ==> !old(stopPending) && !stopPending
      ensures ok ==>
                && InRange(command.left) && InRange(command.right)
                && driver.trace.left == old(driver.trace).left + [Call.Apply(command.left, tickAt, true)]
                && driver.trace.right == old(driver.trace).right + [Call.Apply(command.right, tickAt, true)]
                && driver.trace.accepted == old(driver.trace).accepted +
                     [Accepted(tickAt, Output(old(driver.left), command.left, tick),
                               Output(old(driver.right), command.right, tick))]
      ensures ok && command == Command(0, 0) ==>
                !watchdog.armed && !driver.Energised() && watchdog.refreshedAt == old(watchdog.refreshedAt)
      ensures ok && command != Command(0, 0) ==> watchdog.armed && watchdog.refreshedAt == at
      ensures !ok && old(stopPending) ==>
                stopPending && watchdog.armed == old(watchdog.armed) && driver.Energised() == old(driver.Energised())
      ensures !ok && !old(stopPending) ==> stopPending || (!watchdog.armed && !driver.Energised())
      ensures !ok && !old(stopPending) && InRange(command.left) && InRange(command.right) ==>
                Refused(old(driver.trace), Accepted(tickAt, Output(old(driver.left), command.left, tick),
                                                    Output(old(driver.right), command.right, tick)))
      ensures !ok ==> watchdog.refreshedAt == old(watchdog.refreshedAt) && (watchdog.armed ==> old(watchdog.armed))
      ensures driver.brakedSince in {old(driver.brakedSince), tickAt}
    {
      hide Explains, RestSince;
      if !initialized || stopPending {
        return false;
      }
      ghost var t0 := driver.trace;
      var applied := driver.ApplyCommand(command, tick, tickAt);
      ghost var t1 := driver.trace;
      if !applied {
        var _ := TryStop(tickAt);
        GrownTwice(t0, t1, driver.trace, tickAt);
        return false;
      }
      if command.left == 0 && command.right == 0 {
        watchdog.Disarm();
        return true;
      }
      var refreshed := watchdog.Refresh(now, at);
      assert refreshed;
      return true;
    }

    method Update(now: u32, ghost at: nat) returns (u: GuardUpdate)
      requires Valid() && now == Clock32(at) && driver.CalledAt() <= at
      requires watchdog.armed && !stopPending ==> watchdog.refreshedAt <= at < watchdog.refreshedAt + TWO32
      modifies this`stopPending, driver, watchdog`armed
      ensures Valid() && Since(old(driver.trace), at)
      ensures u == NothingToDo <==>
                !old(stopPending) && !(old(watchdog.armed) && at - watchdog.refreshedAt >= watchdog.timeoutMs)
      ensures u == NothingToDo ==>
                && !stopPending && watchdog.armed == old(watchdog.armed)
                && driver.Energised() == old(driver.Energised()) && driver.trace == old(driver.trace)
      ensures u == DidStop ==> !stopPending && !watchdog.armed && !driver.Energised()
      ensures u == CouldNotStop ==>
                && stopPending && watchdog.armed == old(watchdog.armed) && driver.Energised() == old(driver.Energised())
                && driver.trace.offers == old(driver.trace).offers + [Offer(Accepted(at, BRAKE, BRAKE), false)]
      ensures driver.RestKept(old(driver.Energised()), old(driver.brakedSince), at)
    {
      if !initialized {
        return NothingToDo;
      }
      if !stopPending {
        var expired := watchdog.Expired(now, at);
        if !expired {
          return NothingToDo;
        }
      }
      var stopped := TryStop(at);
      if stopped {
        return DidStop;
      }
      return CouldNotStop;
    }
  }
}
