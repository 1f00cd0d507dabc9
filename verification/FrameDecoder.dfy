/** The streaming decoder (protocol/protocol_frame_decoder.c): eleven states, one byte at a time, in place. Each
    byte does exactly what the scanner does with the candidate `pending`. */
module FrameDecoder {
  import opened Words
  import opened ByteCodec
  import opened Frames
  import opened FrameScanner
  import Crc16

  datatype State =
    | WaitMagic0 | WaitMagic1 | ReadVersion | ReadMessageType | ReadSequenceHigh | ReadSequenceLow
    | ReadLengthHigh | ReadLengthLow | ReadPayload | ReadCrcHigh | ReadCrcLow

  /** The state that belongs to a candidate: its length says it all. */
  function StateOf(p: seq<byte>): State
    requires Viable(p)
  {
    if |p| == 0 then WaitMagic0
    else if |p| == 1 then WaitMagic1
    else if |p| == 2 then ReadVersion
    else if |p| == 3 then ReadMessageType
    else if |p| == 4 then ReadSequenceHigh
    else if |p| == 5 then ReadSequenceLow
    else if |p| == 6 then ReadLengthHigh
    else if |p| == 7 then ReadLengthLow
    else if |p| < HEADER_SIZE + Length(p) then ReadPayload
    else if |p| == HEADER_SIZE + Length(p) then ReadCrcHigh
    else ReadCrcLow
  }

  /** How much of a candidate the CRC has taken in. */
  function Covered(p: seq<byte>): seq<byte>
    requires Viable(p) && |p| >= 2
  {
    if StateOf(p) == ReadCrcLow then p[2..|p| - 1] else p[2..]
  }

  /** A byte that fits extends the candidate, and all but the CRC's own bytes enter the CRC. */
  lemma Grows(p: seq<byte>, b: byte)
    requires Viable(p) && |p| >= 2 && StateOf(p) != ReadCrcLow
    requires |p| == 2 ==> b == VERSION
    requires |p| == 7 ==> Count(Join(p[6], b)) <= MAX_PAYLOAD_SIZE
    ensures Viable(p + [b]) && Next(p, b) == p + [b] && Found(p, b) == None
    ensures Covered(p + [b]) == if StateOf(p) == ReadCrcHigh then Covered(p) else Covered(p) + [b]
  {
    hide Count, Join, Genuine, Restart;
  }

  lemma Misfits(p: seq<byte>, b: byte)
    requires Viable(p) && (|p| == 2 || |p| == 7)
    requires |p| == 2 ==> b != VERSION
    requires |p| == 7 ==> Count(Join(p[6], b)) > MAX_PAYLOAD_SIZE
    ensures Next(p, b) == Restart(p + [b]) && Found(p, b) == None
  {
    hide Count, Join, Genuine, Restart;
  }

  lemma Searching(p: seq<byte>, b: byte)
    requires Viable(p) && |p| < 2
    ensures Found(p, b) == None
    ensures p == [] ==> Next(p, b) == if b == MAGIC_0 then [b] else []
    ensures p != [] ==> Next(p, b) == if b == MAGIC_1 then [MAGIC_0, MAGIC_1] else if b == MAGIC_0 then [b] else []
  {
  }

  /** The last byte decides. */
  lemma Ends(p: seq<byte>, b: byte)
    requires Viable(p) && StateOf(p) == ReadCrcLow
    ensures |p| > HEADER_SIZE
    ensures if Join(p[|p| - 1], b) == Check(Covered(p))
            then Next(p, b) == [] &&
                 Found(p, b) == Some(Frame(p[3], Join(p[4], p[5]), p[HEADER_SIZE..|p| - 1]))
            else Next(p, b) == Restart(p + [b]) && Found(p, b) == None
  {
    hide Count, Join, Check, Restart;
    var q := p + [b];
    assert q[2..|q| - CRC_SIZE] == Covered(p);
    assert q[HEADER_SIZE..|q| - CRC_SIZE] == p[HEADER_SIZE..|p| - 1];
  }

  class ProtocolFrameDecoder {
    var state: State
    var messageType: byte
    var sequence: word
    var payloadLength: word
    const payload: array<byte>
    var payloadIndex: nat
    var receivedCrc: word
    var calculatedCrc: word
    ghost var pending: seq<byte>

    /** The fields hold what has been read of the candidate. */
    ghost predicate FieldsHold(p: seq<byte>)
      requires Viable(p)
      reads this
    {
      && (|p| >= 2 ==> calculatedCrc == Check(Covered(p)))
      && (|p| >= 4 ==> messageType == p[3])
      && (|p| == 5 ==> sequence == Raised(p[4]))
      && (|p| >= 6 ==> sequence == Join(p[4], p[5]))
      && (|p| == 7 ==> payloadLength == Raised(p[6]))
      && (|p| >= 8 ==> payloadLength == Join(p[6], p[7]))
    }

    ghost predicate PayloadHolds(p: seq<byte>)
      requires Viable(p)
      reads this, payload
    {
      && payload.Length == MAX_PAYLOAD_SIZE
      && (StateOf(p) == ReadPayload ==>
            payloadIndex == |p| - HEADER_SIZE && payload[..payloadIndex] == p[HEADER_SIZE..])
      && (StateOf(p) == ReadCrcHigh ==> payload[..Length(p)] == p[HEADER_SIZE..])
      && (StateOf(p) == ReadCrcLow ==>
            payload[..Length(p)] == p[HEADER_SIZE..|p| - 1] && receivedCrc == Raised(p[|p| - 1]))
    }

    ghost predicate Valid()
      reads this, payload
    {
      Viable(pending) && state == StateOf(pending) && FieldsHold(pending) && PayloadHolds(pending)
    }

    constructor ()
      ensures Valid() && pending == [] && fresh(payload)
    {
      state, messageType, sequence, payloadLength := WaitMagic0, 0, 0, 0;
      payload := new byte[MAX_PAYLOAD_SIZE](_ => 0);
      payloadIndex, receivedCrc, calculatedCrc := 0, 0, Crc16.INITIAL;
      pending := [];
    }

    /** protocol_frame_decoder_reset. */
    method Reset()
      requires Valid()
      modifies this
      ensures Valid() && pending == []
    {
      state := WaitMagic0;
      payloadIndex, receivedCrc, calculatedCrc := 0, 0, Crc16.INITIAL;
      pending := [];
    }

    method UpdateCrc(b: byte)
      modifies this`calculatedCrc
      ensures forall data :: old(calculatedCrc) == Check(data) ==> calculatedCrc == Check(data + [b])
    {
      calculatedCrc := Crc16.Update(calculatedCrc, [b]);
      forall data | old(calculatedCrc) == Check(data)
        ensures calculatedCrc == Check(data + [b])
      {
        Crc16.FeedAllConcat(Crc16.INITIAL, data, [b]);
      }
    }

    method BeginFrame()
      requires payload.Length == MAX_PAYLOAD_SIZE
      modifies this
      ensures Valid() && pending == [MAGIC_0, MAGIC_1]
    {
      messageType, sequence, payloadLength := 0, 0, 0;
      payloadIndex, receivedCrc, calculatedCrc := 0, 0, Crc16.INITIAL;
      state := ReadVersion;
      pending := [MAGIC_0, MAGIC_1];
    }

    method ResetSearch(previous: byte, current: byte, ghost q: seq<byte>)
      requires payload.Length == MAX_PAYLOAD_SIZE
      requires |q| >= 2 && q[|q| - 2] == previous && q[|q| - 1] == current
      modifies this
      ensures Valid() && pending == Restart(q)
    {
      payloadIndex, receivedCrc, calculatedCrc := 0, 0, Crc16.INITIAL;
      if previous == MAGIC_0 && current == MAGIC_1 {
        BeginFrame();
      } else if current == MAGIC_0 {
        state := WaitMagic1;
        pending := [MAGIC_0];
      } else {
        state := WaitMagic0;
        pending := [];
      }
    }

    /** protocol_frame_decoder_feed_byte. A frame announced by `ready` stays in the fields until the next call. */
    method FeedByte(b: byte) returns (ready: bool)
      requires Valid()
      modifies this, payload
      ensures Valid() && pending == Next(old(pending), b)
      ensures ready <==> Found(old(pending), b).Some?
      ensures ready ==> Count(payloadLength) <= MAX_PAYLOAD_SIZE == payload.Length &&
                        Found(old(pending), b) == Some(Frame(messageType, sequence, payload[..Count(payloadLength)]))
    {
      hide Crc16.FeedAll, Check, High, Low, Count, Join, Raised, WithLow, Next, Found, Restart, Covered;
      ready := false;
      ghost var p, q := pending, pending + [b];
      match state
      case WaitMagic0 =>
        Searching(p, b);
        if b == MAGIC_0 {
          state, pending := WaitMagic1, q;
        }
      case WaitMagic1 =>
        Searching(p, b);
        if b == MAGIC_1 {
          BeginFrame();
        } else if b != MAGIC_0 {
          state, pending := WaitMagic0, [];
        }
      case ReadVersion =>
        if b != VERSION {
          Misfits(p, b);
          ResetSearch(MAGIC_1, b, q);
        } else {
          Grows(p, b);
          UpdateCrc(b);
          state, pending := ReadMessageType, q;
        }
      case ReadMessageType | ReadSequenceHigh | ReadSequenceLow | ReadLengthHigh => ReadHeaderByte(b);
      case ReadLengthLow => ReadLengthLowByte(b);
      case ReadPayload => ReadPayloadByte(b);
      case ReadCrcHigh =>
        Grows(p, b);
        receivedCrc := Raised(b);
        state, pending := ReadCrcLow, q;
      case ReadCrcLow => ready := ReadCrcLowByte(b);
    }

    method ReadHeaderByte(b: byte)
      requires Valid()
      requires state == ReadMessageType || state == ReadSequenceHigh || state == ReadSequenceLow || state == ReadLengthHigh
      modifies this
      ensures Valid() && pending == Next(old(pending), b) && Found(old(pending), b) == None
    {
      hide Crc16.FeedAll, Check, High, Low, Count, Join, Raised, WithLow, Next, Found, Restart, Covered;
      ghost var p := pending;
      Grows(p, b);
      pending := p + [b];
      UpdateCrc(b);
      match state
      case ReadMessageType =>
        messageType := b;
        state := ReadSequenceHigh;
      case ReadSequenceHigh =>
        sequence := Raised(b);
        state := ReadSequenceLow;
      case ReadSequenceLow =>
        JoinInSteps(p[4], b);
        sequence := WithLow(sequence, b);
        state := ReadLengthHigh;
      case ReadLengthHigh =>
        payloadLength := Raised(b);
        state := ReadLengthLow;
    }

    method ReadLengthLowByte(b: byte)
      requires Valid() && state == ReadLengthLow
      modifies this
      ensures Valid() && pending == Next(old(pending), b) && Found(old(pending), b) == None
    {
      hide Crc16.FeedAll, Check, High, Low, Count, Join, Raised, WithLow, Next, Found, Restart, Covered;
      ghost var p, q := pending, pending + [b];
      JoinInSteps(p[6], b);
      payloadLength := WithLow(payloadLength, b);
      UpdateCrc(b);
      if Count(payloadLength) > MAX_PAYLOAD_SIZE {
        SplitJoins(p[6], b);
        Misfits(p, b);
        var previous := High(payloadLength);
        ResetSearch(previous, b, q);
        return;
      }
      Grows(p, b);
      if Count(payloadLength) == 0 {
        state, pending := ReadCrcHigh, q;
      } else {
        payloadIndex := 0;
        state, pending := ReadPayload, q;
      }
    }

    method ReadPayloadByte(b: byte)
      requires Valid() && state == ReadPayload
      modifies this, payload
      ensures Valid() && pending == Next(old(pending), b) && Found(old(pending), b) == None
    {
      hide Crc16.FeedAll, Check, High, Low, Count, Join, Raised, WithLow, Next, Found, Restart, Covered;
      ghost var p, q := pending, pending + [b];
      Grows(p, b);
      payload[payloadIndex] := b;
      payloadIndex := payloadIndex + 1;
      UpdateCrc(b);
      assert payload[..payloadIndex] == q[HEADER_SIZE..];
      if payloadIndex >= Count(payloadLength) {
        state := ReadCrcHigh;
      }
      pending := q;
    }

    method ReadCrcLowByte(b: byte) returns (ready: bool)
      requires Valid() && state == ReadCrcLow
      modifies this
      ensures Valid() && pending == Next(old(pending), b)
      ensures ready <==> Found(old(pending), b).Some?
      ensures ready ==> Count(payloadLength) <= MAX_PAYLOAD_SIZE == payload.Length &&
                        Found(old(pending), b) == Some(Frame(messageType, sequence, payload[..Count(payloadLength)]))
    {
      hide Crc16.FeedAll, Check, High, Low, Count, Join, Raised, WithLow, Next, Found, Restart, Covered;
      ghost var p, q := pending, pending + [b];
      ghost var high := p[|p| - 1];
      JoinInSteps(high, b);
      SplitJoins(high, b);
      receivedCrc := WithLow(receivedCrc, b);
      Ends(p, b);
      if receivedCrc != calculatedCrc {
        var previous := High(receivedCrc);
        ResetSearch(previous, b, q);
        return false;
      }
      state := WaitMagic0;
      payloadIndex, receivedCrc, calculatedCrc := 0, 0, Crc16.INITIAL;
      pending := [];
      return true;
    }
  }
}
