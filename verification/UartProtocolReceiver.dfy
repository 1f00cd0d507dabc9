/** From the wire to frames (firmware/stm32/App/Src/uart_protocol_receiver.c): the queue, the decoder and what an
    overflow does to both. */
module UartProtocolReceiver {
  import opened Words
  import opened ByteCodec
  import opened Frames
  import opened FrameScanner
  import FrameDecoder
  import UartRxQueue

  datatype Result = Nothing | Received(frame: Frame) | Overflow

  /** What the decoder has seen: the wire from `start` to `cursor` without a gap. `recent` are the frames returned
      from there, `history` all that were ever returned. */
  ghost predicate Tracked(wire: seq<byte>, start: nat, cursor: nat, pending: seq<byte>,
                          recent: seq<Frame>, history: seq<Frame>)
  {
    && start <= cursor <= |wire|
    && pending == Kept([], wire[start..cursor]) && |pending| <= cursor - start
    && recent == Delivered([], wire[start..cursor])
    && |recent| <= |history| && history[|history| - |recent|..] == recent
    && Blocks(history, wire[..cursor - |pending|])
  }

  lemma {:induction false} SeenStep(wire: seq<byte>, start: nat, cursor: nat)
    requires start <= cursor < |wire|
    ensures Kept([], wire[start..cursor + 1]) == Next(Kept([], wire[start..cursor]), wire[cursor])
    ensures Delivered([], wire[start..cursor + 1]) == Delivered([], wire[start..cursor]) +
              match Found(Kept([], wire[start..cursor]), wire[cursor]) case None => [] case Some(f) => [f]
  {
    hide Next, Found;
    var more := wire[start..cursor + 1];
    assert more[..|more| - 1] == wire[start..cursor] && more[|more| - 1] == wire[cursor];
  }

  lemma PendingIsHere(wire: seq<byte>, start: nat, cursor: nat, pending: seq<byte>)
    requires start <= cursor < |wire| && pending == Kept([], wire[start..cursor])
    ensures |pending| <= cursor - start && wire[..cursor + 1][cursor - |pending|..] == pending + [wire[cursor]]
  {
    hide Kept, Viable;
    var seen := wire[start..cursor];
    KeptIsTail(seen);
    assert wire[cursor - |pending|..cursor] == seen[|seen| - |pending|..];
  }

  /** One more byte of the wire. */
  lemma {:induction false} TrackedStep(wire: seq<byte>, start: nat, cursor: nat, pending: seq<byte>,
                                       recent: seq<Frame>, history: seq<Frame>)
    requires cursor < |wire| && Tracked(wire, start, cursor, pending, recent, history)
    ensures match Found(pending, wire[cursor])
            case None => Tracked(wire, start, cursor + 1, Next(pending, wire[cursor]), recent, history)
            case Some(f) => Tracked(wire, start, cursor + 1, Next(pending, wire[cursor]), recent + [f], history + [f])
  {
    hide Kept, Delivered, Next, Found, Blocks, Encodable, Encoding, Viable;
    var b := wire[cursor];
    SeenStep(wire, start, cursor);
    PendingIsHere(wire, start, cursor, pending);
    KeptIsTail(wire[start..cursor + 1]);
    var m, stream := cursor - |pending|, wire[..cursor + 1];
    assert stream[..m] == wire[..m];
    SoundStep(stream, pending, history, m, b);
    var k := |Next(pending, b)|;
    assert stream[..cursor + 1 - k] == wire[..cursor + 1 - k];
    assert recent + [] == recent;
  }

  /** A frame found lies at the end of what has been seen, byte for byte. */
  lemma FrameIsHere(wire: seq<byte>, start: nat, cursor: nat, pending: seq<byte>, f: Frame)
    requires start <= cursor < |wire| && pending == Kept([], wire[start..cursor])
    requires Found(pending, wire[cursor]) == Some(f)
    ensures Encodable(f) && Suffix(Encoding(f), wire[start..cursor + 1])
  {
    hide Kept, Viable, Found, Encoding, Encodable, Next;
    var seen, b := wire[start..cursor], wire[cursor];
    KeptIsTail(seen);
    FoundStep(pending, b);
    SuffixExtends(pending, seen, b);
    assert seen + [b] == wire[start..cursor + 1];
  }

  lemma {:induction false} TrackedReset(wire: seq<byte>, m: nat, cursor: nat, history: seq<Frame>)
    requires m <= cursor <= |wire| && Blocks(history, wire[..m])
    ensures Tracked(wire, cursor, cursor, [], [], history)
  {
    hide Blocks;
    assert wire[..cursor][..m] == wire[..m];
    BlocksExtend(history, wire[..cursor], m);
    assert wire[cursor..cursor] == [];
    NothingYet([]);
  }

  /** No byte from `from` up to `to` was lost. */
  ghost predicate Gapless(lost: set<nat>, from: nat, to: nat)
  {
    forall p :: from <= p < to ==> p !in lost
  }

  /** Bytes lost later leave no gap in what was read before. */
  lemma GaplessStill(queue: UartRxQueue.UartRxQueue, lost: set<nat>, from: nat, to: nat)
    requires Gapless(lost, from, to) && queue.LostSince(lost, to)
    ensures Gapless(queue.lost, from, to)
    ensures to !in queue.lost ==> Gapless(queue.lost, from, to + 1)
  {
  }

  lemma GaplessFrom(lost: set<nat>, from: nat)
    ensures Gapless(lost, from, from)
  {
  }

  class UartProtocolReceiver {
    const queue: UartRxQueue.UartRxQueue
    const decoder: FrameDecoder.ProtocolFrameDecoder
    ghost var start: nat
    ghost var recent: seq<Frame>
    ghost var history: seq<Frame>

    ghost predicate Parts()
      reads this, queue, queue.data, decoder, decoder.payload
    {
      queue.Valid() && decoder.Valid() && queue.data != decoder.payload
    }

    ghost predicate Valid()
      reads this, queue, queue.data, decoder, decoder.payload
    {
      && Parts() && Gapless(queue.lost, start, queue.cursor)
      && Tracked(queue.wire, start, queue.cursor, decoder.pending, recent, history)
    }

    constructor (q: UartRxQueue.UartRxQueue)
      requires q.Valid()
      ensures Valid() && queue == q && recent == history == [] && start == q.cursor
      ensures fresh(decoder) && fresh(decoder.payload)
    {
      queue := q;
      decoder := new FrameDecoder.ProtocolFrameDecoder();
      start, recent, history := q.cursor, [], [];
      new;
      NoBlocks(q.wire[..q.cursor]);
      TrackedReset(q.wire, q.cursor, q.cursor, []);
    }

    method HandleOverflow(ghost m: nat) returns (lost: bool)
      requires Parts() && queue.Honest()
      requires m <= queue.cursor && Blocks(history, queue.wire[..m])
      modifies this`start, this`recent, queue, queue.data, decoder
      ensures Parts() && queue.Honest() && old(queue.arrived) <= queue.arrived
      ensures queue.LostSince(old(queue.lost), old(queue.cursor))
      ensures lost ==> Valid() && decoder.pending == [] && recent == [] && old(queue.cursor) < start && start - 1 in queue.lost
      ensures !lost ==>
                && !old(queue.overflowed)
                && queue.cursor == old(queue.cursor) && decoder.pending == old(decoder.pending)
                && start == old(start) && recent == old(recent)
      ensures !lost ==> decoder.messageType == old(decoder.messageType) && decoder.sequence == old(decoder.sequence)
                        && decoder.payloadLength == old(decoder.payloadLength)
                        && decoder.payload[..] == old(decoder.payload[..])
    {
      hide Tracked, Blocks, FrameDecoder.ProtocolFrameDecoder.Valid, UartRxQueue.UartRxQueue.Valid;
      lost := queue.HasOverflowed();
      if lost {
        queue.Reset();
        decoder.Reset();
        TrackedReset(queue.wire, m, queue.cursor, history);
        GaplessFrom(queue.lost, queue.cursor);
        start, recent := queue.cursor, [];
      }
    }

    /** Hands the byte just popped to the decoder; a complete frame is copied out of it. */
    method Feed(b: byte) returns (found: Option<Frame>)
      requires Parts() && 0 < queue.cursor <= |queue.wire| && b == queue.wire[queue.cursor - 1]
      requires Tracked(queue.wire, start, queue.cursor - 1, decoder.pending, recent, history)
      modifies decoder, decoder.payload
      ensures Parts()
      ensures found == None ==> Tracked(queue.wire, start, queue.cursor, decoder.pending, recent, history)
      ensures found.Some? ==>
                && Tracked(queue.wire, start, queue.cursor, decoder.pending, recent + [found.value], history + [found.value])
                && Encodable(found.value) && start <= queue.cursor
                && Suffix(Encoding(found.value), queue.wire[start..queue.cursor])
    {
      hide Blocks, FrameDecoder.ProtocolFrameDecoder.Valid, UartRxQueue.UartRxQueue.Valid,
           Next, Found, Encoding, Encodable, Suffix, Kept, Delivered, Count;
      ghost var p := decoder.pending;
      TrackedStep(queue.wire, start, queue.cursor - 1, p, recent, history);
      var ready := decoder.FeedByte(b);
      if !ready {
        return None;
      }
      var f := Frame(decoder.messageType, decoder.sequence, decoder.payload[..Count(decoder.payloadLength)]);
      FrameIsHere(queue.wire, start, queue.cursor - 1, p, f);
      return Some(f);
    }

    /** uart_protocol_receiver_poll. */
    method Poll() returns (result: Result)
      requires Valid() && queue.Honest()
      modifies this, queue, queue.data, decoder, decoder.payload
      ensures Valid() && queue.Honest()
      ensures result.Received? ==>
                && start == old(start) && recent == old(recent) + [result.frame]
                && history == old(history) + [result.frame]
                && Encodable(result.frame) && start <= queue.cursor <= |queue.wire|
                && Suffix(Encoding(result.frame), queue.wire[start..queue.cursor])
      ensures result.Nothing? ==>
                && start == old(start) && recent == old(recent) && history == old(history)
                && old(queue.arrived) <= queue.cursor
      ensures result.Overflow? ==>
                recent == [] && history == old(history) && old(queue.cursor) < start && start - 1 in queue.lost
      ensures old(queue.overflowed) ==> result.Overflow?
    {
      hide Tracked, Blocks, FrameDecoder.ProtocolFrameDecoder.Valid, UartRxQueue.UartRxQueue.Valid,
           Next, Found, Encoding, Encodable, Suffix, Gapless, UartRxQueue.UartRxQueue.LostSince;
      ghost var m := Settled();
      ghost var refused, at := queue.lost, queue.cursor;
      var lost := HandleOverflow(m);
      if lost {
        return Overflow;
      }
      GaplessStill(queue, refused, start, at);
      refused := queue.lost;
      var ok, b := queue.Pop();
      GaplessStill(queue, refused, start, at);
      while ok
        invariant Parts() && queue.Honest()
        invariant start == old(start) && recent == old(recent) && history == old(history)
        invariant !old(queue.overflowed) && old(queue.arrived) <= queue.arrived && old(queue.cursor) <= queue.cursor
        invariant Gapless(queue.lost, start, queue.cursor)
        invariant m <= queue.cursor && Blocks(history, queue.wire[..m])
        invariant ok ==> 0 < queue.cursor <= |queue.wire| && b == queue.wire[queue.cursor - 1]
        invariant Tracked(queue.wire, start, if ok then queue.cursor - 1 else queue.cursor, decoder.pending, recent, history)
        invariant !ok ==> queue.overflowed || old(queue.arrived) <= queue.cursor
        decreases |queue.wire| - queue.cursor + if ok then 1 else 0
      {
        var found := Feed(b);
        refused, at := queue.lost, queue.cursor;
        if found.Some? {
          lost := HandleOverflow(m);
          if lost {
            return Overflow;
          }
          GaplessStill(queue, refused, start, at);
          recent, history := recent + [found.value], history + [found.value];
          return Received(found.value);
        }
        ok, b := queue.Pop();
        GaplessStill(queue, refused, start, at);
      }
      refused, at := queue.lost, queue.cursor;
      lost := HandleOverflow(m);
      if !lost {
        GaplessStill(queue, refused, start, at);
      }
      return if lost then Overflow else Nothing;
    }

    /** A point of the wire before which all frames returned so far lie. */
    ghost method Settled() returns (m: nat)
      requires Valid()
      ensures m <= queue.cursor && queue.cursor <= |queue.wire| && Blocks(history, queue.wire[..m])
    {
      m := queue.cursor - |decoder.pending|;
    }
  }
}
