/**
 Whole runs of the STM32 main loop (firmware/stm32/Platform/NucleoF446RE/Core/Src/main.c), told by what came in and what
 went out: the clock readings, encoder readings and frames of each pass, the controls the motor port accepted and the
 frames put on the wire.
 */
module MainLoop {
  import opened Words
  import opened ReliableReceiver
  import opened Messages
  import opened StmParty
  import opened MotorDriver
  import opened CommandGuard
  import opened Firmware
  import C = LifecycleCoordinator
  import S = MotionStop
  import W = StmLaws

  /** One pass as the environment sees it: when it starts, when the driver reads the clock, the encoder
      readings and what the receiver delivers. */
  datatype Input = Input(at: nat, tickAt: nat, first: S.Counts, second: S.Counts, rx: Received)

  /** The clock does not run backwards and passes are not a whole clock period apart. */
  predicate Timely(inputs: seq<Input>)
  {
    && (forall i :: 0 <= i < |inputs| ==> inputs[i].at <= inputs[i].tickAt)
    && (inputs != [] ==> inputs[0].at <= S.MAX_GAP_MS)
    && (forall i :: 0 < i < |inputs| ==> inputs[i - 1].tickAt <= inputs[i].at <= inputs[i - 1].at + S.MAX_GAP_MS)
  }

  function FrameOf(rx: Received): seq<ToStm>
  {
    if rx.Frame? then [rx.f] else []
  }

  /** The events of all passes, in order. */
  function Flat(rounds: seq<seq<StmEvent>>): seq<StmEvent>
  {
    if rounds == [] then [] else Flat(rounds[..|rounds| - 1]) + rounds[|rounds| - 1]
  }

  lemma {:induction false} FlatMore(rounds: seq<seq<StmEvent>>, es: seq<StmEvent>)
    ensures Flat(rounds + [es]) == Flat(rounds) + es
  {
    assert (rounds + [es])[..|rounds|] == rounds;
  }

  // ---------- Stops ----------

  /** What the encoders showed from pass `i`, which read them twice, up to pass `j`. */
  function Readings(inputs: seq<Input>, i: nat, j: nat): (r: seq<S.Sample>)
    requires i <= j < |inputs|
    ensures |r| == j - i + 2 && r[0].at == inputs[i].at && r[|r| - 1].at == inputs[j].at
    decreases j
  {
    if i == j then [S.Sample(inputs[i].at, inputs[i].first), S.Sample(inputs[i].at, inputs[i].second)]
    else Readings(inputs, i, j - 1) + [S.Sample(inputs[j].at, inputs[j].second)]
  }

  /** The passes during which a stop was being confirmed. */
  datatype Span = Span(first: nat, last: nat)

  ghost predicate Undecided(inputs: seq<Input>, i: nat, n: nat)
    requires n <= |inputs|
  {
    forall j :: i <= j < n ==> S.Decision(Readings(inputs, i, j)) == None
  }

  /** The stop operation active before pass `j`, 0 for none. */
  function ActiveAt(rounds: seq<seq<StmEvent>>, j: nat): u32
    requires j <= |rounds|
  {
    After(POWER_UP, Flat(rounds[..j])).coordinator.activeOperation
  }

  /** Operation `op` was begun in the pass before `first`, and has been active ever since, up to before pass `n`. */
  ghost predicate HeldSince(rounds: seq<seq<StmEvent>>, first: nat, n: nat, op: u32)
  {
    && 0 < first <= n <= |rounds| && op != 0
    && ActiveAt(rounds, first - 1) != op
    && forall j :: first <= j <= n ==> ActiveAt(rounds, j) == op
  }

  /** A stop operation active before pass `n` has been confirmed since the pass after the one that began it, and its
      readings do not decide yet. */
  ghost predicate UnderWay(inputs: seq<Input>, rounds: seq<seq<StmEvent>>, n: int)
  {
    && 0 <= n <= |rounds| <= |inputs|
    && (ActiveAt(rounds, n) != 0 ==>
          exists first :: HeldSince(rounds, first, n, ActiveAt(rounds, n)) && Undecided(inputs, first, n))
  }

  /** In particular, however many commands came, it is less than 1000 ms since its first reading. */
  lemma DeadlineIsKept(inputs: seq<Input>, rounds: seq<seq<StmEvent>>, n: nat) returns (first: nat)
    requires UnderWay(inputs, rounds, n) && ActiveAt(rounds, n) != 0
    ensures HeldSince(rounds, first, n, ActiveAt(rounds, n))
    ensures first < n ==> inputs[n - 1].at - inputs[first].at < 1000
  {
    first :| HeldSince(rounds, first, n, ActiveAt(rounds, n)) && Undecided(inputs, first, n);
    if first < n {
      assert S.Decision(Readings(inputs, first, n - 1)) == None;
    }
  }

  /** What held of earlier passes holds after one more. */
  lemma EarlierPasses(rounds: seq<seq<StmEvent>>, es: seq<StmEvent>)
    ensures forall j :: 0 <= j <= |rounds| ==> ActiveAt(rounds + [es], j) == ActiveAt(rounds, j)
  {
    hide After, Flat;
    forall j | 0 <= j <= |rounds|
      ensures ActiveAt(rounds + [es], j) == ActiveAt(rounds, j)
    {
      assert (rounds + [es])[..j] == rounds[..j];
    }
  }

  /** The k-th stop ended in the last pass of its span, on the first reading that decides, as it decides; its span
      starts with the pass after the one that began it; and if it succeeded no wheel was energised from its first reading
      on. */
  ghost predicate Confirmed(inputs: seq<Input>, rounds: seq<seq<StmEvent>>, spans: seq<Span>, cs: seq<Completion>,
                            accepted: seq<Accepted>, k: int)
  {
    && 0 <= k < |spans| && k < |cs| && |rounds| <= |inputs|
    && var s := spans[k];
    && s.first <= s.last < |rounds|
    && (k > 0 ==> spans[k - 1].last < s.first)
    && |Completions(POWER_UP, Flat(rounds[..s.last]))| == k < |Completions(POWER_UP, Flat(rounds[..s.last + 1]))|
    && HeldSince(rounds, s.first, s.last, ActiveAt(rounds, s.last))
    && Undecided(inputs, s.first, s.last)
    && S.Decision(Readings(inputs, s.first, s.last)) == Some(cs[k].success)
    && (cs[k].success ==> RestBetween(accepted, inputs[s.first].at, inputs[s.last].at))
  }

  /** Every stop that ended has a span of its own. */
  ghost predicate AllConfirmed(inputs: seq<Input>, rounds: seq<seq<StmEvent>>, spans: seq<Span>, accepted: seq<Accepted>)
  {
    var cs := Completions(POWER_UP, Flat(rounds));
    |spans| == |cs| && forall k :: 0 <= k < |cs| ==> Confirmed(inputs, rounds, spans, cs, accepted, k)
  }

  /** The operation now active began in the pass before `first`; the confirmation runs from `first` on. */
  ghost predicate Running(inputs: seq<Input>, rounds: seq<seq<StmEvent>>, spans: seq<Span>, started: bool,
                          samples: seq<S.Sample>, first: nat)
  {
    var n := |rounds|;
    && n <= |inputs| && HeldSince(rounds, first, n, ActiveAt(rounds, n))
    && (spans != [] ==> spans[|spans| - 1].last < first)
    && Undecided(inputs, first, n) && (started <==> first < n)
    && (first < n ==> samples == Readings(inputs, first, n - 1))
  }

  ghost predicate Ongoing(inputs: seq<Input>, rounds: seq<seq<StmEvent>>, spans: seq<Span>, started: bool,
                          samples: seq<S.Sample>)
  {
    if ActiveAt(rounds, |rounds|) == 0 then !started
    else exists first :: Running(inputs, rounds, spans, started, samples, first)
  }

  lemma EarlierConfirmed(inputs: seq<Input>, rounds: seq<seq<StmEvent>>, es: seq<StmEvent>, spans: seq<Span>,
                         more: seq<Span>, cs: seq<Completion>, cs': seq<Completion>, t: Trace, u: Trace, k: int)
    requires Confirmed(inputs, rounds, spans, cs, t.accepted, k) && cs <= cs' && |rounds| < |inputs| && Timely(inputs)
    requires Grown(t, u, inputs[|rounds|].at)
    ensures Confirmed(inputs, rounds + [es], spans + more, cs', u.accepted, k)
  {
    hide Completions, Flat, RestBetween, S.Decision, Undecided, Grown, ActiveAt;
    var s := spans[k];
    EarlierPasses(rounds, es);
    assert (rounds + [es])[..s.last] == rounds[..s.last] && (rounds + [es])[..s.last + 1] == rounds[..s.last + 1];
    if cs[k].success {
      TimesRise(inputs, s.last, |rounds|);
      GrownEarlier(t, u, inputs[|rounds|].at, inputs[s.last].at);
      RestStays(t, u, inputs[s.first].at, inputs[s.last].at);
    }
  }

  lemma {:induction false} TimesRise(inputs: seq<Input>, i: nat, j: nat)
    requires Timely(inputs) && i <= j < |inputs|
    ensures inputs[i].at <= inputs[j].at
  {
    if i < j {
      TimesRise(inputs, i, j - 1);
    }
  }

  /** One more pass: its readings continue the running confirmation or start one; a stop that ends gets its span; the
      confirmation goes on exactly with the operation. */
  lemma {:induction false} PassConfirms(inputs: seq<Input>, rounds: seq<seq<StmEvent>>, es: seq<StmEvent>, spans: seq<Span>,
                                        started: bool, samples: seq<S.Sample>, t: Trace, u: Trace,
                                        started': bool, samples': seq<S.Sample>)
      returns (spans': seq<Span>)
    requires Timely(inputs) && |rounds| < |inputs| && AllConfirmed(inputs, rounds, spans, t.accepted)
    requires Ongoing(inputs, rounds, spans, started, samples)
    requires Grown(t, u, inputs[|rounds|].at)
    requires var x := inputs[|rounds|];
             var readings := Confirmation(started, samples, x.at, x.first, x.second);
             && Judged(Completions(After(POWER_UP, Flat(rounds)), es), readings, u.accepted)
             && (started' ==> samples' == readings && S.Decision(readings) == None)
    requires Completions(After(POWER_UP, Flat(rounds)), es) != [] ==> ActiveAt(rounds, |rounds|) != 0
    requires started' <==>
               ActiveAt(rounds, |rounds|) != 0 && ActiveAt(rounds + [es], |rounds| + 1) == ActiveAt(rounds, |rounds|)
    ensures AllConfirmed(inputs, rounds + [es], spans', u.accepted)
    ensures Ongoing(inputs, rounds + [es], spans', started', samples')
  {
    hide Completions, Flat, RestBetween, S.Decision, Grown, After, Confirmed, ActiveAt, Undecided;
    var n, x := |rounds|, inputs[|rounds|];
    var op, op' := ActiveAt(rounds, n), ActiveAt(rounds + [es], n + 1);
    var cs, ended := Completions(POWER_UP, Flat(rounds)), Completions(After(POWER_UP, Flat(rounds)), es);
    var readings := Confirmation(started, samples, x.at, x.first, x.second);
    FlatMore(rounds, es);
    CompletionsBoth(POWER_UP, Flat(rounds), es);
    if spans != [] {
      SpanIsPast(inputs, rounds, spans, cs, t.accepted, |spans| - 1);
    }
    var first: nat := n;
    if op != 0 {
      first :| Running(inputs, rounds, spans, started, samples, first);
      assert readings == Readings(inputs, first, n);
    }
    spans' := if ended == [] then spans else spans + [Span(first, n)];
    forall k | 0 <= k < |cs|
      ensures Confirmed(inputs, rounds + [es], spans', cs + ended, u.accepted, k)
    {
      EarlierConfirmed(inputs, rounds, es, spans, if ended == [] then [] else [Span(first, n)], cs, cs + ended, t, u, k);
      assert ended == [] ==> spans + [] == spans;
    }
    if ended != [] {
      assert ended == [ended[0]];
      LastConfirmed(inputs, rounds, es, spans, Span(first, n), cs, ended[0], u.accepted);
    }
    if op' != 0 && op' == op {
      GoesOn(inputs, rounds, es, spans, started, samples, first, readings);
    } else if op' != 0 {
      BeginsAnew(inputs, rounds, es, spans', samples');
    }
  }

  lemma GoesOn(inputs: seq<Input>, rounds: seq<seq<StmEvent>>, es: seq<StmEvent>, spans: seq<Span>, started: bool,
               samples: seq<S.Sample>, first: nat, readings: seq<S.Sample>)
    requires |rounds| < |inputs| && Running(inputs, rounds, spans, started, samples, first)
    requires ActiveAt(rounds + [es], |rounds| + 1) == ActiveAt(rounds, |rounds|)
    requires readings == Readings(inputs, first, |rounds|) && S.Decision(readings) == None
    ensures Running(inputs, rounds + [es], spans, true, readings, first)
  {
    hide S.Decision, ActiveAt;
    EarlierPasses(rounds, es);
  }

  lemma BeginsAnew(inputs: seq<Input>, rounds: seq<seq<StmEvent>>, es: seq<StmEvent>, spans: seq<Span>, samples: seq<S.Sample>)
    requires |rounds| < |inputs| && (spans != [] ==> spans[|spans| - 1].last <= |rounds|)
    requires ActiveAt(rounds + [es], |rounds| + 1) !in {0, ActiveAt(rounds, |rounds|)}
    ensures Running(inputs, rounds + [es], spans, false, samples, |rounds| + 1)
  {
    hide S.Decision, ActiveAt;
    EarlierPasses(rounds, es);
  }

  /** Every pass of a run with one more pass. */
  lemma StillUnderWay(inputs: seq<Input>, rounds: seq<seq<StmEvent>>, es: seq<StmEvent>, spans: seq<Span>,
                      started: bool, samples: seq<S.Sample>)
    requires |rounds| < |inputs| && forall n :: 0 <= n <= |rounds| ==> UnderWay(inputs, rounds, n)
    requires Ongoing(inputs, rounds + [es], spans, started, samples)
    ensures forall n :: 0 <= n <= |rounds| + 1 ==> UnderWay(inputs, rounds + [es], n)
  {
    hide ActiveAt, Undecided;
    EarlierPasses(rounds, es);
    forall n | 0 <= n <= |rounds| + 1
      ensures UnderWay(inputs, rounds + [es], n)
    {
      if n <= |rounds| {
        assert UnderWay(inputs, rounds, n);
        if ActiveAt(rounds, n) != 0 {
          var first :| HeldSince(rounds, first, n, ActiveAt(rounds, n)) && Undecided(inputs, first, n);
          assert HeldSince(rounds + [es], first, n, ActiveAt(rounds + [es], n));
        }
      } else if ActiveAt(rounds + [es], n) != 0 {
        var first :| Running(inputs, rounds + [es], spans, started, samples, first);
      }
    }
  }

  lemma LastConfirmed(inputs: seq<Input>, rounds: seq<seq<StmEvent>>, es: seq<StmEvent>, spans: seq<Span>, s: Span,
                      cs: seq<Completion>, c: Completion, accepted: seq<Accepted>)
    requires s.first <= s.last == |rounds| < |inputs| && |spans| == |cs| && (spans != [] ==> spans[|spans| - 1].last < s.first)
    requires |Completions(POWER_UP, Flat(rounds))| == |cs| < |Completions(POWER_UP, Flat(rounds + [es]))|
    requires HeldSince(rounds, s.first, s.last, ActiveAt(rounds, s.last))
    requires Undecided(inputs, s.first, s.last) && S.Decision(Readings(inputs, s.first, s.last)) == Some(c.success)
    requires c.success ==> RestBetween(accepted, inputs[s.first].at, inputs[s.last].at)
    ensures Confirmed(inputs, rounds + [es], spans + [s], cs + [c], accepted, |cs|)
  {
    hide Completions, Flat, RestBetween, S.Decision, Undecided, ActiveAt;
    EarlierPasses(rounds, es);
    assert (rounds + [es])[..s.last] == rounds && (rounds + [es])[..s.last + 1] == rounds + [es];
  }

  lemma SpanIsPast(inputs: seq<Input>, rounds: seq<seq<StmEvent>>, spans: seq<Span>, cs: seq<Completion>,
                   accepted: seq<Accepted>, k: int)
    requires Confirmed(inputs, rounds, spans, cs, accepted, k)
    ensures 0 <= k < |spans| && spans[k].last < |rounds|
  {
  }

  lemma NothingConfirmed(inputs: seq<Input>)
    ensures AllConfirmed(inputs, [], [], [])
  {
  }

  /** OK means stopped: behind every OK ever put on the wire there is a stop of its own, owned by the transaction answered,
      whose encoder readings are those of consecutive passes and decided for success, with no wheel energised meanwhile. */
  lemma {:induction false} OkMeansStopped(inputs: seq<Input>, rounds: seq<seq<StmEvent>>, spans: seq<Span>,
                                          accepted: seq<Accepted>, i: nat, t: Transaction) returns (k: nat, j: nat)
    requires AllConfirmed(inputs, rounds, spans, accepted) && i < |Flat(rounds)| && |rounds| <= |inputs|
    requires ResponseFrame(Terminal(t, Ok)) in StmStep(After(POWER_UP, Flat(rounds)[..i]), Flat(rounds)[i]).1
    ensures j <= i && StopOf(Flat(rounds), j, t) && KeptBetween(Flat(rounds), j, i, t)
    ensures k == |Completions(POWER_UP, Flat(rounds)[..j])| < |spans|
    ensures spans[k].first <= spans[k].last < |inputs|
    ensures S.Decision(Readings(inputs, spans[k].first, spans[k].last)) == Some(true)
    ensures RestBetween(accepted, inputs[spans[k].first].at, inputs[spans[k].last].at)
  {
    hide StmStep, Completed, Caches, S.Decision, RestBetween, After, Flat;
    var es := Flat(rounds);
    OkHasItsStop(es, i, t);
    j :| j <= i && StopOf(es, j, t) && KeptBetween(es, j, i, t);
    k := |Completions(POWER_UP, es[..j])|;
    assert es == es[..j] + [es[j]] + es[j + 1..];
    CompletionsMore(POWER_UP, es[..j], es[j]);
    CompletionsBoth(POWER_UP, es[..j] + [es[j]], es[j + 1..]);
    assert Confirmed(inputs, rounds, spans, Completions(POWER_UP, es), accepted, k);
  }

  lemma {:induction false} FlatFrom(rounds: seq<seq<StmEvent>>, n: nat) returns (rest: seq<StmEvent>)
    requires n <= |rounds|
    ensures Flat(rounds) == Flat(rounds[..n]) + rest
  {
    if n == |rounds| {
      assert rounds[..n] == rounds;
      rest := [];
    } else {
      var before := FlatFrom(rounds[..|rounds| - 1], n);
      assert rounds[..|rounds| - 1][..n] == rounds[..n];
      rest := before + rounds[|rounds| - 1];
    }
  }

  /** And every stop that ended is answered, in the pass whose reading decided: its owner is told OK exactly if the readings
      of its span decide for success, and STOP_FAILED otherwise; the answer is on the wire if it was reported as sent. */
  lemma {:induction false} StopsAreAnswered(inputs: seq<Input>, rounds: seq<seq<StmEvent>>, spans: seq<Span>,
                                            accepted: seq<Accepted>, k: nat) returns (j: nat, t: Transaction)
    requires AllConfirmed(inputs, rounds, spans, accepted) && k < |spans|
    ensures spans[k].first <= spans[k].last < |inputs| && spans[k].last < |rounds|
    ensures |Flat(rounds[..spans[k].last])| <= j < |Flat(rounds[..spans[k].last + 1])| <= |Flat(rounds)|
    ensures After(POWER_UP, Flat(rounds)[..j]).coordinator.receiver.pending == Some(t)
    ensures var e, ok := Flat(rounds)[j], S.Decision(Readings(inputs, spans[k].first, spans[k].last)) == Some(true);
            var answer := MotionResponse(t.sequence, t.command, t.sessionId, if ok then Ok else StopFailed);
            && e.Finish? && e.success == ok
            && StmStep(After(POWER_UP, Flat(rounds)[..j]), e).1 == OnWire(answer, e.fate)
            && (e.fate.Sent? ==> answer in Wired(POWER_UP, Flat(rounds)))
  {
    hide StmStep, Completed, S.Decision, RestBetween, After, Flat, Completions, C.Consistent;
    var es := Flat(rounds);
    var cs := Completions(POWER_UP, es);
    assert Confirmed(inputs, rounds, spans, cs, accepted, k);
    var n := spans[k].last;
    var before, upTo := Flat(rounds[..n]), Flat(rounds[..n + 1]);
    var rest := FlatFrom(rounds, n + 1);
    assert rounds[..n + 1][..n] == rounds[..n];
    var within := FlatFrom(rounds[..n + 1], n);
    CompletionsBoth(POWER_UP, upTo, rest);
    j := W.CompletionIsAt(upTo, k);
    if j < |before| {
      assert before == (upTo[..j] + [upTo[j]]) + before[j + 1..];
      CompletionsMore(POWER_UP, upTo[..j], upTo[j]);
      CompletionsBoth(POWER_UP, upTo[..j] + [upTo[j]], before[j + 1..]);
      assert false;
    }
    assert es[..j] == upTo[..j] && es[j] == upTo[j];
    t := cs[k].owner;
    OwnerWaits(After(POWER_UP, es[..j]), es[j], cs[k]);
    var _ := W.PartyRunsCoordinator(es[..j]);
    W.StopIsReported(After(POWER_UP, es[..j]), es[j], t, cs[k].success);
    if es[j].fate.Sent? {
      W.ReportIsOnTheWire(es, j, t, cs[k].success);
    }
  }

  lemma OwnerWaits(v: Stm, e: StmEvent, c: Completion)
    requires Completed(v, e) == [c]
    ensures v.coordinator.receiver.pending == Some(c.owner)
  {
  }

  // ---------- The link and the wheels ----------

  /** When the link was last confirmed, by a LINK_SYNC or heartbeat that left it synchronised. */
  function LinkConfirmed(inputs: seq<Input>, rounds: seq<seq<StmEvent>>): nat
    requires |rounds| <= |inputs|
  {
    if rounds == [] then 0
    else
      var n := |rounds| - 1;
      if ConfirmsIn(After(POWER_UP, Flat(rounds[..n])), rounds[n]) then inputs[n].at else LinkConfirmed(inputs, rounds[..n])
  }

  /** Pass `i` put every wheel command for the active session to the motors, called a stop refused only if the port refused
      it, and gave up the link only after an overflow, a refused stop, or 1000 ms without a confirmation. */
  ghost predicate JustifiedIn(inputs: seq<Input>, rounds: seq<seq<StmEvent>>, t: Trace, i: nat)
    requires i < |rounds| <= |inputs|
  {
    AllJustified(After(POWER_UP, Flat(rounds[..i])), rounds[i], t,
                 Moment(inputs[i].rx, inputs[i].at, inputs[i].tickAt, LinkConfirmed(inputs, rounds[..i + 1])))
  }

  ghost predicate RunJustified(inputs: seq<Input>, rounds: seq<seq<StmEvent>>, t: Trace)
    requires |rounds| <= |inputs|
  {
    forall i :: 0 <= i < |rounds| ==> JustifiedIn(inputs, rounds, t, i)
  }

  lemma {:induction false} OneMoreJustified(inputs: seq<Input>, rounds: seq<seq<StmEvent>>, es: seq<StmEvent>, t: Trace,
                                            u: Trace, beatAt: nat)
    requires |rounds| < |inputs| && RunJustified(inputs, rounds, t) && Grown(t, u, inputs[|rounds|].at)
    requires var x := inputs[|rounds|];
             && AllJustified(After(POWER_UP, Flat(rounds)), es, u, Moment(x.rx, x.at, x.tickAt, beatAt))
             && beatAt == if ConfirmsIn(After(POWER_UP, Flat(rounds)), es) then x.at else LinkConfirmed(inputs, rounds)
    ensures LinkConfirmed(inputs, rounds + [es]) == beatAt && RunJustified(inputs, rounds + [es], u)
  {
    hide After, Flat, AllJustified, ConfirmsIn, Grown;
    var rounds', n := rounds + [es], |rounds|;
    assert rounds'[..n] == rounds && rounds'[..n + 1] == rounds';
    forall i | 0 <= i < |rounds'|
      ensures JustifiedIn(inputs, rounds', u, i)
    {
      if i < n {
        assert rounds'[..i] == rounds[..i] && rounds'[..i + 1] == rounds[..i + 1];
        assert JustifiedIn(inputs, rounds, t, i);
        AllJustifiedLater(After(POWER_UP, Flat(rounds[..i])), rounds[i], t, u, inputs[n].at,
                          Moment(inputs[i].rx, inputs[i].at, inputs[i].tickAt, LinkConfirmed(inputs, rounds[..i + 1])));
      }
    }
  }

  lemma NothingJustified(inputs: seq<Input>)
    ensures RunJustified(inputs, [], NO_TRACE) && LinkConfirmed(inputs, []) == 0
  {
  }

  // ---------- Runs ----------

  /** Pass `k` delivered the nonzero wheel command of session `session` that set the wheels in motion: the watchdog was
      armed then, and the control now in force is the one the driver planned for it. */
  ghost predicate Arming(inputs: seq<Input>, k: int, session: u32, at: nat, trace: Trace)
  {
    && 0 <= k < |inputs| && WheelsFor(inputs[k].rx, session) && inputs[k].at == at
    && DrivesAs(trace, inputs[k].rx.f.wheels.value, inputs[k].tickAt)
  }

  /** Wheels that may be in motion were set in motion by one of the first `n` passes. */
  ghost predicate ArmedBefore(inputs: seq<Input>, n: nat, watching: bool, session: u32, at: nat, trace: Trace)
  {
    watching ==> exists k :: k < n && Arming(inputs, k, session, at, trace)
  }

  lemma ArmedOnce(inputs: seq<Input>, i: nat, watching: bool, session: u32, at: nat, trace: Trace, m: Stm32)
    requires i < |inputs| && ArmedBefore(inputs, i, watching, session, at, trace)
    requires m.clock == inputs[i].at && m.ArmedBy(watching, at, session, trace, inputs[i].rx, inputs[i].tickAt)
    ensures ArmedBefore(inputs, i + 1, m.Watching(), m.driveSession, m.guard.watchdog.refreshedAt, m.guard.driver.trace)
  {
    hide DrivesAs;
    if m.Watching() && m.guard.watchdog.refreshedAt == m.clock && WheelsFor(inputs[i].rx, m.driveSession)
       && DrivesAs(m.guard.driver.trace, inputs[i].rx.f.wheels.value, inputs[i].tickAt) {
      assert Arming(inputs, i, m.driveSession, m.guard.watchdog.refreshedAt, m.guard.driver.trace);
    }
  }

  lemma NotArmed(inputs: seq<Input>, session: u32, at: nat, trace: Trace)
    ensures ArmedBefore(inputs, 0, false, session, at, trace)
  {
  }

  /** A wheel is energised only while the port refuses the stop asked last, or on behalf of a nonzero wheel command of
      the session now active on a synchronised link, delivered less than 250 ms before the pass that just ended; the
      control in force is then the one planned for that command. */
  ghost predicate SafeAfter(inputs: seq<Input>, trace: Trace, v: Stm)
  {
    Energises(trace.accepted) ==>
      || StopRefused(trace)
      || (&& inputs != [] && v.synced && v.coordinator.state == C.Active
          && exists k :: && 0 <= k < |inputs| && WheelsFor(inputs[k].rx, v.coordinator.sessionId)
                         && inputs[|inputs| - 1].at - inputs[k].at < 250
                         && DrivesAs(trace, inputs[k].rx.f.wheels.value, inputs[k].tickAt))
  }

  /** From power-up through any number of passes. The motors are safe, and move as commanded. No wheel is ever reversed
      directly. A stop operation is confirmed from the pass after the one that began it, without a break whatever
      commands arrive, until its readings decide; every stop that ended did so as the readings of its own passes decide.
      Each delivered frame is taken once, in its own pass, and state and wire are those of the protocol party. */
  method RunMainLoop(inputs: seq<Input>)
      returns (m: Stm32, ghost rounds: seq<seq<StmEvent>>, ghost spans: seq<Span>)
    requires Timely(inputs)
    ensures m.Inv() && m.View() == After(POWER_UP, Flat(rounds)) && m.line == Wired(POWER_UP, Flat(rounds))
    ensures |rounds| == |inputs| && forall i :: 0 <= i < |inputs| ==> Taken(rounds[i]) == FrameOf(inputs[i].rx)
    ensures AllConfirmed(inputs, rounds, spans, m.guard.driver.trace.accepted)
    ensures forall n :: 0 <= n <= |rounds| ==> UnderWay(inputs, rounds, n)
    ensures SafeAfter(inputs, m.guard.driver.trace, m.View())
    ensures RunJustified(inputs, rounds, m.guard.driver.trace)
    ensures inputs != [] && m.View().synced ==> inputs[|inputs| - 1].at < LinkConfirmed(inputs, rounds) + 1000
    ensures forall i :: 0 <= i < |m.guard.driver.trace.accepted| - 1 ==>
              NotReversed(m.guard.driver.trace.accepted[i], m.guard.driver.trace.accepted[i + 1])
  {
    hide After, Wired, Completions, Taken, AllConfirmed, Ongoing, Judged, Grown, S.Decision, Flat, UnderWay;
    hide Stm32.Inv, Stm32.MotorSafe, Stm32.ArmedBy, ArmedBefore, SafeAfter, NotReversed, Stm32.Watching;
    hide MotionReliableReceiver.View, RunJustified, LinkConfirmed, AllJustified, ConfirmsIn;
    m := new Stm32();
    rounds, spans := [], [];
    RunOfNone(POWER_UP);
    FlatNone();
    NothingConfirmed(inputs);
    NothingJustified(inputs);
    NotArmed(inputs, m.driveSession, m.guard.watchdog.refreshedAt, m.guard.driver.trace);
    NotWatching(m);
    NotOngoing(inputs, m.stop.samples);
    for i := 0 to |inputs|
      invariant m.Inv() && m.MotorSafe()
      invariant fresh(m) && fresh(m.guard) && fresh(m.guard.driver) && fresh(m.guard.watchdog) && fresh(m.stop)
      invariant fresh(m.coordinator) && fresh(m.coordinator.receiver)
      invariant if i == 0 then m.clock == m.tickClock == 0
                else m.clock == inputs[i - 1].at && m.tickClock <= inputs[i - 1].tickAt
      invariant m.View() == After(POWER_UP, Flat(rounds)) && m.line == Wired(POWER_UP, Flat(rounds))
      invariant |rounds| == i && forall k :: 0 <= k < i ==> Taken(rounds[k]) == FrameOf(inputs[k].rx)
      invariant AllConfirmed(inputs, rounds, spans, m.guard.driver.trace.accepted)
      invariant Ongoing(inputs, rounds, spans, m.confirmationStarted, m.stop.samples)
      invariant forall n :: 0 <= n <= i ==> UnderWay(inputs, rounds, n)
      invariant RunJustified(inputs, rounds, m.guard.driver.trace) && m.heartbeatAt == LinkConfirmed(inputs, rounds)
      invariant ArmedBefore(inputs, i, m.Watching(), m.driveSession, m.guard.watchdog.refreshedAt, m.guard.driver.trace)
    {
      ghost var started, samples, t0 := m.confirmationStarted, m.stop.samples, m.guard.driver.trace;
      ghost var watching, session, refreshed := m.Watching(), m.driveSession, m.guard.watchdog.refreshedAt;
      ghost var op := m.coordinator.activeOperationId;
      var x := inputs[i];
      ghost var es := m.Pass(Clock32(x.at), x.at, x.first, x.second, x.rx, Clock32(x.tickAt), x.tickAt);
      FlatMore(rounds, es);
      AfterBoth(POWER_UP, Flat(rounds), es);
      assert rounds[..i] == rounds && (rounds + [es])[..i + 1] == rounds + [es];
      assert ActiveAt(rounds, i) == op && ActiveAt(rounds + [es], i + 1) == m.coordinator.activeOperationId;
      spans := PassConfirms(inputs, rounds, es, spans, started, samples, t0, m.guard.driver.trace,
                            m.confirmationStarted, m.stop.samples);
      StillUnderWay(inputs, rounds, es, spans, m.confirmationStarted, m.stop.samples);
      ArmedOnce(inputs, i, watching, session, refreshed, t0, m);
      OneMoreJustified(inputs, rounds, es, t0, m.guard.driver.trace, m.heartbeatAt);
      rounds := rounds + [es];
    }
    EndsSafely(m, inputs);
    NeverReversed(m);
  }

  lemma NotWatching(m: Stm32)
    requires !m.guard.watchdog.armed
    ensures !m.Watching()
  {
  }

  lemma EndsSafely(m: Stm32, inputs: seq<Input>)
    requires m.Inv() && m.MotorSafe()
    requires inputs != [] ==> m.clock == inputs[|inputs| - 1].at
    requires ArmedBefore(inputs, |inputs|, m.Watching(), m.driveSession, m.guard.watchdog.refreshedAt, m.guard.driver.trace)
    ensures SafeAfter(inputs, m.guard.driver.trace, m.View())
    ensures inputs != [] && m.View().synced ==> inputs[|inputs| - 1].at < m.heartbeatAt + 1000
  {
    hide CommandGuard.Ready, C.Consistent, S.MotionStop.Valid, C.MotionLifecycleCoordinator.Valid, DrivesAs;
  }

  lemma NeverReversed(m: Stm32)
    requires m.Inv()
    ensures forall i :: 0 <= i < |m.guard.driver.trace.accepted| - 1 ==>
              NotReversed(m.guard.driver.trace.accepted[i], m.guard.driver.trace.accepted[i + 1])
  {
    hide Explains;
    var d := m.guard.driver;
    forall i | 0 <= i < |d.trace.accepted| - 1
      ensures NotReversed(d.trace.accepted[i], d.trace.accepted[i + 1])
    {
      NeverReversedDirectly(d.trace, d.left, d.right, i);
    }
  }

  predicate NotReversed(a: Accepted, b: Accepted)
  {
    !Opposite(Driven(a.left), Driven(b.left)) && !Opposite(Driven(a.right), Driven(b.right))
  }

  lemma FlatNone()
    ensures Flat([]) == []
  {
  }

  lemma NotOngoing(inputs: seq<Input>, samples: seq<S.Sample>)
    ensures Ongoing(inputs, [], [], false, samples) && UnderWay(inputs, [], 0)
  {
    var none: seq<seq<StmEvent>> := [];
    assert none[..0] == none && Flat(none) == [] && ActiveAt(none, 0) == 0;
  }
}
