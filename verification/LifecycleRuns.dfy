/** Properties of whole runs of the coordinator: any deliveries, completions and resets, in any order. */
module LifecycleRuns {
  import opened Words
  import opened ReliableReceiver
  import opened LifecycleCoordinator
  import MotionSequence

  datatype Event = Delivered(t: Transaction) | Completed(operation: u32, success: bool) | WasReset

  function Step(c: Coordinator, e: Event): (Coordinator, Action)
  {
    match e
    case Delivered(t) => Deliver(c, t)
    case Completed(operation, success) => Complete(c, operation, success)
    case WasReset => (Reset(c), NO_ACTION)
  }

  function Run(events: seq<Event>): Coordinator
  {
    if events == [] then INITIAL
    else Step(Run(events[..|events| - 1]), events[|events| - 1]).0
  }

  lemma {:induction false} RunConsistent(events: seq<Event>)
    ensures Consistent(Run(events))
  {
    if events != [] {
      RunConsistent(events[..|events| - 1]);
    }
  }

  /** In every run a stop operation, a pending transaction and a transitional state coincide,
      and no delivery is ever classified as invalid. */
  lemma PendingOperationAndStateCoincide(events: seq<Event>, t: Transaction)
    ensures var c := Run(events);
            && (c.receiver.pending.Some? <==> c.activeOperation != 0)
            && (c.receiver.pending.Some? <==> c.state in {Starting, Ending})
            && Classify(c.receiver, t) != Invalid
  {
    RunConsistent(events);
    NeverInvalid(Run(events), t);
  }

  // ---------- Conservation of transactions ----------

  /** Transactions accepted as new, and transactions given a first terminal answer, since the last reset. */
  datatype Ledger = Ledger(accepted: multiset<Transaction>, answered: multiset<Transaction>)

  /** The transaction a step accepts as new. */
  function AcceptedBy(c: Coordinator, e: Event): Option<Transaction>
  {
    if e.Delivered? && Classify(c.receiver, e.t) == New then Some(e.t) else None
  }

  /** The transaction a step answers for the first time: replays of a cached answer do not count. */
  function AnsweredBy(c: Coordinator, e: Event): Option<Transaction>
  {
    var response := Step(c, e).1.response;
    if response.None? || (e.Delivered? && Classify(c.receiver, e.t) == CompletedRetry) then None
    else Some(response.value.transaction)
  }

  function Bag(o: Option<Transaction>): multiset<Transaction>
  {
    if o.Some? then multiset{o.value} else multiset{}
  }

  function Book(l: Ledger, c: Coordinator, e: Event): Ledger
  {
    if e.WasReset? then Ledger(multiset{}, multiset{})
    else Ledger(l.accepted + Bag(AcceptedBy(c, e)), l.answered + Bag(AnsweredBy(c, e)))
  }

  function Books(events: seq<Event>): Ledger
  {
    if events == [] then Ledger(multiset{}, multiset{})
    else
      var before := events[..|events| - 1];
      Book(Books(before), Run(before), events[|events| - 1])
  }

  /** One step answers what it accepts, or trades places between the accepted and the pending one. */
  lemma StepBalances(c: Coordinator, e: Event)
    requires Consistent(c) && !e.WasReset?
    ensures var pending := Step(c, e).0.receiver.pending;
            || (AnsweredBy(c, e) == AcceptedBy(c, e) && pending == c.receiver.pending)
            || (AnsweredBy(c, e) == c.receiver.pending && pending == AcceptedBy(c, e))
  {
    if e.Delivered? && Classify(c.receiver, e.t) == New {
      assert Step(c, e) == DeliverNew(c, e.t);
    }
  }

  /** Every accepted transaction is answered exactly once or is the one pending. */
  lemma {:induction false} Conservation(events: seq<Event>)
    ensures Books(events).accepted == Books(events).answered + Bag(Run(events).receiver.pending)
  {
    if events != [] {
      var before := events[..|events| - 1];
      Conservation(before);
      RunConsistent(before);
      var l, c, e := Books(before), Run(before), events[|events| - 1];
      if !e.WasReset? {
        StepBalances(c, e);
        AddBalanced(l.accepted, l.answered, Bag(c.receiver.pending),
                    Bag(AcceptedBy(c, e)), Bag(AnsweredBy(c, e)), Bag(Run(events).receiver.pending));
      }
    }
  }

  lemma AddBalanced(a: multiset<Transaction>, b: multiset<Transaction>, p: multiset<Transaction>,
                    f: multiset<Transaction>, r: multiset<Transaction>, q: multiset<Transaction>)
    requires a == b + p
    requires (r == f && q == p) || (r == p && q == f)
    ensures a + f == b + r + q
  {
  }

  // ---------- Operation ids and late completions ----------

  const CYCLE := TWO32 - 1

  /** The id of the k-th stop operation of a coordinator's lifetime, counting from 1. */
  function OperationId(k: nat): (r: u32)
    ensures k > 0 <==> r != 0
  {
    if k == 0 then 0 else (k - 1) % CYCLE + 1
  }

  /** How many stop operations a run has requested, across resets. */
  function OperationsBegun(events: seq<Event>): nat
  {
    if events == [] then 0
    else
      var before := events[..|events| - 1];
      OperationsBegun(before) + (if Step(Run(before), events[|events| - 1]).1.operation != 0 then 1 else 0)
  }

  lemma OperationIdSuccessor(k: nat)
    ensures NextOperation(OperationId(k)) == OperationId(k + 1)
  {
    if k > 0 {
      var q, r := (k - 1) / CYCLE, (k - 1) % CYCLE;
      assert k - 1 == q * CYCLE + r;
      if r == CYCLE - 1 {
        assert k == (q + 1) * CYCLE;
        assert k % CYCLE == 0;
      } else {
        assert k == q * CYCLE + (r + 1);
        assert k % CYCLE == r + 1;
      }
    }
  }

  /** The generator follows the formula in every run, and only the latest operation can be active. */
  lemma {:induction false} OperationIdsOfRun(events: seq<Event>)
    ensures Run(events).nextOperation == OperationId(OperationsBegun(events))
    ensures Run(events).activeOperation in {0, OperationId(OperationsBegun(events))}
  {
    if events != [] {
      var before := events[..|events| - 1];
      OperationIdsOfRun(before);
      RunConsistent(before);
      OperationIdSuccessor(OperationsBegun(before));
    }
  }

  lemma SameIdMeansWholeCycles(j: nat, k: nat)
    requires 1 <= j <= k
    ensures OperationId(j) == OperationId(k) <==> (k - j) % CYCLE == 0
  {
    var a, b := (j - 1) / CYCLE, (k - 1) / CYCLE;
    var r, s := (j - 1) % CYCLE, (k - 1) % CYCLE;
    assert k - j == (b - a) * CYCLE + (s - r);
    if r == s {
      assert k - j == (b - a) * CYCLE;
      MultipleOfCycle(b - a);
    } else if (k - j) % CYCLE == 0 {
      var m := (k - j) / CYCLE;
      assert (m - (b - a)) * CYCLE == s - r;
      SmallMultiple(m - (b - a), s - r);
    }
  }

  lemma {:induction false} MultipleOfCycle(m: int)
    requires m >= 0
    ensures (m * CYCLE) % CYCLE == 0
  {
    if m > 0 {
      MultipleOfCycle(m - 1);
      assert m * CYCLE == (m - 1) * CYCLE + CYCLE;
    }
  }

  lemma BelowCycle(d: int)
    requires 0 < d < CYCLE
    ensures d % CYCLE != 0
  {
  }

  lemma SmallMultiple(m: int, d: int)
    requires m * CYCLE == d && -CYCLE < d < CYCLE
    ensures m == 0
  {
  }

  /** A completion reported for the j-th operation takes effect exactly when a stop is active and a
      whole number of id cycles separates j from the latest operation; otherwise nothing happens. */
  lemma LateCompletion(events: seq<Event>, j: nat, success: bool)
    requires 1 <= j <= OperationsBegun(events)
    ensures var c, k := Run(events), OperationsBegun(events);
            if c.activeOperation != 0 && (k - j) % CYCLE == 0
            then Complete(c, OperationId(j), success).1.response.Some?
            else Complete(c, OperationId(j), success) == (c, NO_ACTION)
  {
    hide Run, OperationsBegun, Complete, Consistent;
    OperationIdsOfRun(events);
    RunConsistent(events);
    SameIdMeansWholeCycles(j, OperationsBegun(events));
    CompletionEffect(Run(events), OperationId(j), success);
  }

  lemma CompletionEffect(c: Coordinator, operation: u32, success: bool)
    requires Consistent(c) && operation != 0
    ensures if operation == c.activeOperation then Complete(c, operation, success).1.response.Some?
            else Complete(c, operation, success) == (c, NO_ACTION)
  {
  }

  /** In particular any completion of an earlier operation is ignored within one id cycle. */
  lemma StaleCompletionIgnored(events: seq<Event>, j: nat, success: bool)
    requires 1 <= j < OperationsBegun(events) < j + CYCLE
    ensures Complete(Run(events), OperationId(j), success) == (Run(events), NO_ACTION)
  {
    hide Run, OperationsBegun, OperationId;
    OperationIdsOfRun(events);
    SameIdMeansWholeCycles(j, OperationsBegun(events));
    BelowCycle(OperationsBegun(events) - j);
  }

  // ---------- Retries are idempotent ----------

  /** Redeliveries of one transaction, interleaved with completions. */
  predicate RetriesOf(t: Transaction, events: seq<Event>)
  {
    forall i :: 0 <= i < |events| ==> events[i].Completed? || events[i] == Delivered(t)
  }

  function RunFrom(c: Coordinator, events: seq<Event>): Coordinator
  {
    if events == [] then c
    else Step(RunFrom(c, events[..|events| - 1]), events[|events| - 1]).0
  }

  /** The transaction the frontier stands for: the one accepted last. */
  function LatestAccepted(events: seq<Event>): Option<Transaction>
  {
    if events == [] then None
    else
      var before, e := events[..|events| - 1], events[|events| - 1];
      if e.WasReset? then None
      else if e.Delivered? && Classify(Run(before).receiver, e.t) == New then Some(e.t)
      else LatestAccepted(before)
  }

  /** The frontier has come back to the sequence number of an older transaction that is still pending. */
  predicate WrappedOntoPending(c: Coordinator)
  {
    && c.receiver.pending.Some? && c.receiver.terminal.Some?
    && c.receiver.pending.value.sequence == c.receiver.terminal.value.transaction.sequence
  }

  /** `t` is what a redelivery would be compared with. */
  predicate OwnsFrontier(c: Coordinator, t: Transaction)
  {
    && c.receiver.latest == Some(t.sequence)
    && (if c.receiver.terminal.Some? then c.receiver.terminal.value.transaction == t
        else c.receiver.pending == Some(t))
  }

  /** A redelivery of `t` is acknowledged, changes nothing, and replays the cached answer if there is one. */
  predicate Replays(c: Coordinator, t: Transaction)
  {
    Deliver(c, t) == (c, Action(Some(t), c.receiver.terminal, 0))
  }

  lemma OwnerReplays(c: Coordinator, t: Transaction)
    requires Consistent(c) && OwnsFrontier(c, t)
    ensures Replays(c, t)
  {
    MotionSequence.ClassifyIsSerialOrder(t.sequence, t.sequence);
  }

  /** Along retries, the owner keeps the frontier, the answer never changes once given, and
      only a completion of the active operation moves the lifecycle. */
  lemma {:induction false} RetriesKeepAnswer(c: Coordinator, t: Transaction, events: seq<Event>)
    requires Consistent(c) && OwnsFrontier(c, t) && !WrappedOntoPending(c) && RetriesOf(t, events)
    ensures var d := RunFrom(c, events);
            && Consistent(d) && OwnsFrontier(d, t) && !WrappedOntoPending(d) && Replays(d, t)
            && (c.receiver.terminal.Some? ==> d.receiver.terminal == c.receiver.terminal)
            && d.nextOperation == c.nextOperation
  {
    if events != [] {
      var before := events[..|events| - 1];
      RetriesKeepAnswer(c, t, before);
      CompleteKeepsConsistent(RunFrom(c, before), 0, true);
    }
    OwnerReplays(RunFrom(c, events), t);
  }

  /** Retries are idempotent from `c` on: whatever completions come in between, each redelivery replays. */
  ghost predicate Idempotent(c: Coordinator, t: Transaction)
  {
    forall events: seq<Event> :: RetriesOf(t, events) ==>
      && Replays(RunFrom(c, events), t)
      && (c.receiver.terminal.Some? ==> RunFrom(c, events).receiver.terminal == c.receiver.terminal)
  }

  /** For the transaction that owns the frontier, retries are idempotent if and only if the frontier
      has not wrapped onto the sequence number of a pending transaction. */
  lemma RetriesIdempotentIff(c: Coordinator, t: Transaction)
    requires Consistent(c) && OwnsFrontier(c, t)
    ensures Idempotent(c, t) <==> !WrappedOntoPending(c)
  {
    if !WrappedOntoPending(c) {
      forall events: seq<Event> | RetriesOf(t, events)
        ensures Replays(RunFrom(c, events), t)
        ensures c.receiver.terminal.Some? ==> RunFrom(c, events).receiver.terminal == c.receiver.terminal
      {
        RetriesKeepAnswer(c, t, events);
      }
    } else {
      var e := Completed(c.activeOperation, true);
      var events := [e];
      assert events[..0] == [] && RunFrom(c, events[..0]) == c;
      var d := RunFrom(c, events);
      assert d == Complete(c, c.activeOperation, true).0;
      assert d.receiver.terminal.value.transaction == c.receiver.pending.value != t;
      assert !(Idempotent(c, t)) by {
        assert RetriesOf(t, events);
        assert d.receiver.terminal != c.receiver.terminal;
      }
    }
  }

  /** The length of the run when it last accepted a transaction. */
  function AcceptedAt(events: seq<Event>): (n: nat)
    ensures n <= |events|
  {
    if events == [] then 0
    else
      var before, e := events[..|events| - 1], events[|events| - 1];
      if e.Delivered? && Classify(Run(before).receiver, e.t) == New then |events| else AcceptedAt(before)
  }

  /** The answer to `t` was overwritten: another transaction with its number stands in the cache. */
  predicate Overwritten(c: Coordinator, t: Transaction)
  {
    && c.receiver.pending.None? && c.receiver.latest == Some(t.sequence)
    && c.receiver.terminal.Some? && c.receiver.terminal.value.transaction != t
    && c.receiver.terminal.value.transaction.sequence == t.sequence
  }

  /** From its acceptance on, the latest transaction owns the frontier for good, or was wrapped onto a pending number
      then and stays so until the completion overwrites its answer. */
  lemma {:induction false} SinceAcceptance(events: seq<Event>)
    requires LatestAccepted(events).Some?
    ensures var c, t := Run(events), LatestAccepted(events).value;
            if WrappedOntoPending(Run(events[..AcceptedAt(events)]))
            then (WrappedOntoPending(c) && OwnsFrontier(c, t)) || Overwritten(c, t)
            else OwnsFrontier(c, t) && !WrappedOntoPending(c)
  {
    var before, e := events[..|events| - 1], events[|events| - 1];
    RunConsistent(before);
    if e.Delivered? && Classify(Run(before).receiver, e.t) == New {
      assert events[..|events|] == events;
    } else {
      SinceAcceptance(before);
      assert events[..AcceptedAt(before)] == before[..AcceptedAt(before)];
    }
  }

  lemma OverwrittenIsNotReplayed(c: Coordinator, t: Transaction)
    requires Overwritten(c, t)
    ensures !Idempotent(c, t)
  {
    MotionSequence.ClassifyIsSerialOrder(t.sequence, t.sequence);
    assert RetriesOf(t, []) && RunFrom(c, []) == c;
    assert !Replays(RunFrom(c, []), t);
  }

  /** In every run, the transaction accepted last can be redelivered any number of times with the same answer if and
      only if its number was not, when it was accepted, that of a transaction still pending. */
  lemma LatestIdempotentIff(events: seq<Event>)
    requires LatestAccepted(events).Some?
    ensures Idempotent(Run(events), LatestAccepted(events).value) <==>
              !WrappedOntoPending(Run(events[..AcceptedAt(events)]))
  {
    hide Idempotent, OwnsFrontier, WrappedOntoPending, Overwritten;
    var c, t := Run(events), LatestAccepted(events).value;
    SinceAcceptance(events);
    RunConsistent(events);
    if Overwritten(c, t) {
      OverwrittenIsNotReplayed(c, t);
      OverwrittenIsPast(c, t);
    } else {
      RetriesIdempotentIff(c, t);
    }
  }

  lemma OverwrittenIsPast(c: Coordinator, t: Transaction)
    requires Overwritten(c, t)
    ensures !OwnsFrontier(c, t)
  {
  }

  /** The wrap is reachable: while a START is pending, three unknown commands whose numbers advance by
      0x7FFF, 0x7FFF and 2 bring the frontier back to the pending number. */
  lemma WrapIsReachable() returns (events: seq<Event>)
    ensures WrappedOntoPending(Run(events))
    ensures LatestAccepted(events) == Some(Transaction(0, 9, 0))
    ensures OwnsFrontier(Run(events), Transaction(0, 9, 0))
    ensures !Idempotent(Run(events), Transaction(0, 9, 0))
  {
    var t0, t1 := Transaction(0, START, 7), Transaction(0x7FFF, 9, 0);
    var t2, t3 := Transaction(0xFFFE, 9, 0), Transaction(0, 9, 0);
    var e0, e1, e2, e3 := Delivered(t0), Delivered(t1), Delivered(t2), Delivered(t3);
    var r0, r1, r2 := [e0], [e0, e1], [e0, e1, e2];
    events := [e0, e1, e2, e3];
    assert r0[..0] == [] && r1[..1] == r0 && r2[..2] == r1 && events[..3] == r2;
    assert Run(r0[..0]) == INITIAL;
    var c0 := Run(r0);
    assert c0.state == Starting && c0.receiver == Receiver(Some(0), Some(t0), None);
    assert MotionSequence.Classify(0, 0x7FFF).Newer?;
    var c1 := Run(r1);
    assert c1.receiver == Receiver(Some(0x7FFF), Some(t0), Some(Terminal(t1, InvalidCommand)));
    assert MotionSequence.Classify(0x7FFF, 0xFFFE).Newer?;
    var c2 := Run(r2);
    assert c2.receiver == Receiver(Some(0xFFFE), Some(t0), Some(Terminal(t2, InvalidCommand)));
    assert MotionSequence.Classify(0xFFFE, 0).Newer?;
    var c3 := Run(events);
    assert c3.receiver == Receiver(Some(0), Some(t0), Some(Terminal(t3, InvalidCommand)));
    RunConsistent(events);
    RetriesIdempotentIff(c3, t3);
  }

  // ---------- Refinement of unbounded sequence numbers ----------

  /** A delivery as the sender means it: an unbounded number that travels modulo 65536. */
  datatype Numbered = Numbered(number: nat, command: u8, sessionId: u32) | Other(e: Event)

  function Wire(n: Numbered): Event
  {
    if n.Numbered? then Delivered(Transaction(n.number % TWO16, n.command, n.sessionId)) else n.e
  }

  function WireAll(ns: seq<Numbered>): (r: seq<Event>)
    ensures |r| == |ns|
  {
    if ns == [] then [] else WireAll(ns[..|ns| - 1]) + [Wire(ns[|ns| - 1])]
  }

  /** The highest number delivered since the last reset, by comparison of integers alone. */
  function Highest(ns: seq<Numbered>): Option<nat>
  {
    if ns == [] then None
    else
      var h, n := Highest(ns[..|ns| - 1]), ns[|ns| - 1];
      if n.Numbered? then (if h.Some? && n.number <= h.value then h else Some(n.number))
      else if n.e.WasReset? then None
      else h
  }

  /** Each arrival is within the half-window of the highest number so far. */
  predicate InWindow(ns: seq<Numbered>)
  {
    if ns == [] then true
    else
      var h, n := Highest(ns[..|ns| - 1]), ns[|ns| - 1];
      && InWindow(ns[..|ns| - 1])
      && (n.Other? ==> !n.e.Delivered?)
      && (n.Numbered? && h.Some? ==> h.value - 0x8000 <= n.number <= h.value + 0x7FFF)
  }

  /** The decision the receiver should take on unbounded numbers. */
  predicate DecidesAsIntegers(h: Option<nat>, number: nat, d: Decision)
  {
    && (d == New <==> h.None? || number > h.value)
    && (d == Stale <==> h.Some? && number < h.value)
    && (d in {PendingRetry, CompletedRetry, Collision} <==> h.Some? && number == h.value)
  }

  lemma {:induction false} FrontierIsHighest(ns: seq<Numbered>)
    requires InWindow(ns)
    ensures Run(WireAll(ns)).receiver.latest ==
            (if Highest(ns).Some? then Some(Highest(ns).value % TWO16) else None)
  {
    if ns != [] {
      var before, n := ns[..|ns| - 1], ns[|ns| - 1];
      FrontierIsHighest(before);
      assert WireAll(ns)[..|ns| - 1] == WireAll(before);
      if n.Numbered? && Highest(before).Some? {
        MotionSequence.ClassifyTrueNumbers(Highest(before).value, n.number);
      }
    }
  }

  /** While arrivals stay in the window, the wrapped receiver decides exactly as one that sees integers. */
  lemma ReceiverRefinesIntegers(ns: seq<Numbered>, n: Numbered)
    requires n.Numbered? && InWindow(ns + [n])
    ensures DecidesAsIntegers(Highest(ns), n.number, Classify(Run(WireAll(ns)).receiver, Wire(n).t))
  {
    assert (ns + [n])[..|ns|] == ns;
    FrontierIsHighest(ns);
    PendingOperationAndStateCoincide(WireAll(ns), Wire(n).t);
    if Highest(ns).Some? {
      MotionSequence.ClassifyTrueNumbers(Highest(ns).value, n.number);
    }
  }
}
