/** The queue between the receive interrupt and the main loop (firmware/stm32/App/Src/uart_rx_queue.c). The
    interrupt may run between any two accesses of the main loop to a shared field. */
module UartRxQueue {
  import opened Words
  import opened ByteCodec

  const CAPACITY := 256

  function Slot(count: u32): (i: nat)
    ensures i < CAPACITY
  {
    count % CAPACITY
  }

  /** The counters wrap at a multiple of the capacity, so that slots follow each other across the wrap. */
  lemma SlotOfSum(r: u32, i: nat)
    ensures Slot((r + i) % TWO32) == (r + i) % CAPACITY
  {
    var n := r + i;
    var k := n / TWO32;
    assert n % TWO32 == n - k * TWO32;
    assert k * TWO32 == (k * 0x100_0000) * CAPACITY;
    MultipleDrops(n, k * 0x100_0000);
  }

  lemma {:induction false} MultipleDrops(n: int, m: nat)
    ensures (n - m * CAPACITY) % CAPACITY == n % CAPACITY
  {
    if m > 0 {
      MultipleDrops(n, m - 1);
      var x := n - (m - 1) * CAPACITY;
      assert n - m * CAPACITY == x - CAPACITY;
    }
  }

  /** Where the `i`-th unread byte lies. */
  function Place(r: u32, i: nat): (k: nat)
    ensures k < CAPACITY
  {
    (r + i) % CAPACITY
  }

  /** The ring holds these bytes from the read counter on, and the write counter follows the last. */
  predicate Holds(ring: seq<byte>, r: u32, w: u32, unread: seq<byte>)
  {
    && |ring| == CAPACITY
    && |unread| <= CAPACITY
    && w == (r + |unread|) % TWO32
    && forall i :: 0 <= i < |unread| ==> unread[i] == ring[Place(r, i)]
  }

  /** The counters' wrapped difference is the number of unread bytes. */
  lemma HoldsCount(ring: seq<byte>, r: u32, w: u32, unread: seq<byte>)
    requires Holds(ring, r, w, unread)
    ensures |unread| <= CAPACITY && Elapsed32(w, r) == |unread|
    ensures r == w <==> unread == []
    ensures unread != [] ==> |ring| == CAPACITY && unread[0] == ring[Slot(r)]
  {
    if unread != [] {
      assert Place(r, 0) == Slot(r);
    }
  }

  /** A write goes to a slot that holds no unread byte. */
  lemma HoldsPush(ring: seq<byte>, r: u32, w: u32, unread: seq<byte>, b: byte)
    requires Holds(ring, r, w, unread) && |unread| < CAPACITY
    ensures Holds(ring[Slot(w) := b], r, (w + 1) % TWO32, unread + [b])
  {
    var n := |unread|;
    SlotOfSum(r, n);
    assert Slot(w) == Place(r, n);
  }

  lemma HoldsPop(ring: seq<byte>, r: u32, w: u32, unread: seq<byte>)
    requires Holds(ring, r, w, unread) && unread != []
    ensures Holds(ring, (r + 1) % TWO32, w, unread[1..])
  {
    var next := (r + 1) % TWO32;
    forall i | 0 <= i < |unread| - 1
      ensures unread[1..][i] == ring[Place(next, i)]
    {
      NextPlace(r, i);
      assert unread[1..][i] == unread[i + 1];
    }
  }

  lemma NextPlace(r: u32, i: nat)
    ensures Place((r + 1) % TWO32, i) == Place(r, i + 1)
  {
    SlotOfSum(r, 1);
  }

  lemma HoldsNothing(ring: seq<byte>, w: u32)
    requires |ring| == CAPACITY
    ensures Holds(ring, w, w, [])
  {
  }

  class UartRxQueue {
    const data: array<byte>
    var readCount: u32
    var writeCount: u32
    var overflowed: bool

    /** All the bytes the wire ever brings, and how many of them have come. */
    const wire: seq<byte>
    var arrived: nat

    /** The next byte to be read, the end of those stored, and the positions of those that were refused. */
    ghost var cursor: nat
    ghost var stored: nat
    ghost var lost: set<nat>

    ghost predicate Valid()
      reads this, data
    {
      && data.Length == CAPACITY
      && cursor <= stored <= arrived <= |wire|
      && stored - cursor <= CAPACITY
      && Holds(data[..], readCount, writeCount, wire[cursor..stored])
      && (!overflowed ==> stored == arrived)
      && (forall p :: p in lost ==> p < arrived)
      && (forall p :: cursor <= p < stored ==> p !in lost)
      && (forall p :: stored <= p < arrived ==> p in lost)
    }

    /** The flag never lies: some byte that came was not stored. */
    ghost predicate Honest()
      reads this
    {
      overflowed ==> stored < arrived
    }

    /** Only bytes from `from` on have been refused since. */
    ghost predicate LostSince(before: set<nat>, from: nat)
      reads this
    {
      before <= lost && forall p :: p in lost && p !in before ==> p >= from
    }

    constructor (bytes: seq<byte>)
      ensures Valid() && Honest() && !overflowed && fresh(data)
      ensures wire == bytes && arrived == cursor == 0 && lost == {}
    {
      data := new byte[CAPACITY](_ => 0);
      readCount, writeCount, overflowed := 0, 0, false;
      wire, arrived, cursor, stored, lost := bytes, 0, 0, 0, {};
    }

    /** uart_rx_queue_push, run by the interrupt when the next byte of the wire has come. */
    method Push(b: byte) returns (ok: bool)
      requires Valid() && arrived < |wire| && b == wire[arrived]
      modifies this`writeCount, this`overflowed, this`arrived, this`stored, this`lost, data
      ensures Valid() && arrived == old(arrived) + 1
      ensures ok <==> !old(overflowed) && old(stored) - cursor < CAPACITY
      ensures lost == if ok then old(lost) else old(lost) + {old(arrived)}
      ensures ok ==> stored == old(stored) + 1 && !overflowed
      ensures !ok ==> stored == old(stored) && overflowed && writeCount == old(writeCount)
    {
      hide Holds, Slot;
      HoldsCount(data[..], readCount, writeCount, wire[cursor..stored]);
      arrived := arrived + 1;
      if overflowed {
        lost := lost + {arrived - 1};
        return false;
      }
      var used := Elapsed32(writeCount, readCount);
      if used >= CAPACITY {
        overflowed := true;
        lost := lost + {arrived - 1};
        return false;
      }
      HoldsPush(data[..], readCount, writeCount, wire[cursor..stored], b);
      ghost var ring := data[..];
      var index := Slot(writeCount);
      data[index] := b;
      assert data[..] == ring[index := b];
      writeCount := (writeCount + 1) % TWO32;
      stored := stored + 1;
      assert wire[cursor..stored] == wire[cursor..stored - 1] + [b];
      return true;
    }

    /** Any number of interrupts: what may happen between two accesses of the main loop. A raised flag keeps
        everything stored as it is; the flag is raised only by a byte that finds the ring full. */
    method Interrupts()
      requires Valid()
      modifies this`writeCount, this`overflowed, this`arrived, this`stored, this`lost, data
      ensures Valid()
      ensures old(arrived) <= arrived && old(stored) <= stored && LostSince(old(lost), old(arrived))
      ensures old(overflowed) ==> overflowed && stored == old(stored) && writeCount == old(writeCount)
      ensures overflowed && !old(overflowed) ==> stored == cursor + CAPACITY && stored < arrived
    {
      var more: bool := *;
      while more && arrived < |wire|
        invariant Valid()
        invariant old(arrived) <= arrived && old(stored) <= stored && LostSince(old(lost), old(arrived))
        invariant old(overflowed) ==> overflowed && stored == old(stored) && writeCount == old(writeCount)
        invariant overflowed && !old(overflowed) ==> stored == cursor + CAPACITY && stored < arrived
        decreases |wire| - arrived
      {
        hide Holds;
        var _ := Push(wire[arrived]);
        more := *;
      }
    }

    /** uart_rx_queue_pop: the bytes come out in the order of the wire, each once; a refusal means that the queue
        has overflowed, or that all that had come before the call has been read. */
    method Pop() returns (ok: bool, b: byte)
      requires Valid()
      modifies this`readCount, this`writeCount, this`overflowed, this`arrived, this`cursor, this`stored, this`lost, data
      ensures Valid() && (old(Honest()) ==> Honest()) && old(arrived) <= arrived && LostSince(old(lost), old(cursor))
      ensures old(overflowed) ==> overflowed
      ensures ok ==> old(cursor) < arrived <= |wire| && b == wire[old(cursor)] && cursor == old(cursor) + 1
      ensures ok ==> old(cursor) !in lost
      ensures !ok ==> cursor == old(cursor) && (overflowed || cursor >= old(arrived))
    {
      hide Holds, Slot;
      b := 0;
      Interrupts();
      var blocked := overflowed;
      Interrupts();
      if blocked {
        return false, b;
      }
      var r := readCount;
      Interrupts();
      var w := writeCount;
      HoldsCount(data[..], readCount, writeCount, wire[cursor..stored]);
      if r == w {
        assert stored == cursor;
        Interrupts();
        return false, b;
      }
      assert stored > cursor;
      Interrupts();
      b := Take();
      return true, b;
    }

    /** The second half of a pop that found the queue not empty. */
    method Take() returns (b: byte)
      requires Valid() && cursor < stored
      modifies this`readCount, this`writeCount, this`overflowed, this`arrived, this`cursor, this`stored, this`lost, data
      ensures Valid() && (old(Honest()) ==> Honest()) && old(arrived) <= arrived && LostSince(old(lost), old(cursor))
      ensures old(overflowed) ==> overflowed
      ensures b == wire[old(cursor)] && cursor == old(cursor) + 1 && old(cursor) !in lost
    {
      hide Holds, Slot;
      var index := Slot(readCount);
      Interrupts();
      HoldsCount(data[..], readCount, writeCount, wire[cursor..stored]);
      b := data[index];
      assert b == wire[cursor..stored][0] == wire[cursor];
      Interrupts();
      var r := readCount;
      Interrupts();
      HoldsPop(data[..], readCount, writeCount, wire[cursor..stored]);
      assert wire[cursor..stored][1..] == wire[cursor + 1..stored];
      readCount := (r + 1) % TWO32;
      cursor := cursor + 1;
      Interrupts();
    }

    /** uart_rx_queue_has_overflowed. */
    method HasOverflowed() returns (flag: bool)
      requires Valid()
      modifies this`writeCount, this`overflowed, this`arrived, this`stored, this`lost, data
      ensures Valid() && (old(Honest()) ==> Honest()) && old(arrived) <= arrived && LostSince(old(lost), old(cursor))
      ensures cursor <= stored <= arrived && (flag ==> overflowed)
      ensures old(overflowed) ==> flag
    {
      hide Holds;
      Interrupts();
      flag := overflowed;
      Interrupts();
    }

    /** uart_rx_queue_reset: reading resumes with the first byte that comes after the flag is lowered. */
    method Reset()
      requires Valid()
      modifies this`readCount, this`writeCount, this`overflowed, this`arrived, this`cursor, this`stored, this`lost, data
      ensures Valid() && Honest() && LostSince(old(lost), old(arrived))
      ensures old(arrived) <= cursor <= arrived <= |wire|
      ensures old(stored) < old(arrived) ==> cursor - 1 in lost
    {
      hide Holds, Slot;
      Interrupts();
      overflowed := true;
      Interrupts();
      var w := writeCount;
      Interrupts();
      HoldsNothing(data[..], w);
      readCount := w;
      cursor := stored;
      assert wire[cursor..stored] == [];
      Interrupts();
      HoldsNothing(data[..], w);
      overflowed := false;
      cursor, stored := arrived, arrived;
      assert wire[cursor..stored] == [];
      Interrupts();
    }
  }
}
