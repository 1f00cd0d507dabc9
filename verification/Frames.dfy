/** The wire format and its encoder (protocol/protocol_frame_format.h, protocol/protocol_frame_encoder.c). */
module Frames {
  import opened ByteCodec
  import Crc16

  const MAGIC_0: byte := 0xA5
  const MAGIC_1: byte := 0x5A
  const VERSION: byte := 0x01

  const HEADER_SIZE: nat := 8
  const CRC_SIZE: nat := 2
  const MAX_PAYLOAD_SIZE: nat := 64
  const MAX_WIRE_SIZE: nat := HEADER_SIZE + MAX_PAYLOAD_SIZE + CRC_SIZE

  datatype Frame = Frame(messageType: byte, sequence: word, payload: seq<byte>)

  predicate Encodable(f: Frame)
  {
    |f.payload| <= MAX_PAYLOAD_SIZE
  }

  /** What the CRC covers: version to payload. */
  function Header(f: Frame): (h: seq<byte>)
    requires Encodable(f)
    ensures |h| == 6
  {
    var length := AsWord(|f.payload|);
    [VERSION, f.messageType, High(f.sequence), Low(f.sequence), High(length), Low(length)]
  }

  function Body(f: Frame): (b: seq<byte>)
    requires Encodable(f)
    ensures |b| == 6 + |f.payload|
  {
    Header(f) + f.payload
  }

  function Check(body: seq<byte>): word
  {
    Crc16.FeedAll(Crc16.INITIAL, body)
  }

  /** A body followed by its own CRC. */
  function Sealed(body: seq<byte>): (s: seq<byte>)
    ensures |s| == |body| + CRC_SIZE
  {
    body + [High(Check(body)), Low(Check(body))]
  }

  function Encoding(f: Frame): (w: seq<byte>)
    requires Encodable(f)
    ensures |w| == HEADER_SIZE + |f.payload| + CRC_SIZE <= MAX_WIRE_SIZE
  {
    [MAGIC_0, MAGIC_1] + Sealed(Body(f))
  }

  /** The layout, byte by byte: magic 0xA5 0x5A, version 1, type, number and payload length high byte first, the payload,
      and the CRC of everything from the version on, high byte first. */
  lemma Layout(f: Frame)
    requires Encodable(f)
    ensures var w, n := Encoding(f), |f.payload|;
            && |w| == n + 10
            && w[0] == 0xA5 && w[1] == 0x5A && w[2] == 0x01 && w[3] == f.messageType
            && Join(w[4], w[5]) == f.sequence && Count(Join(w[6], w[7])) == n
            && w[8..8 + n] == f.payload
            && Join(w[8 + n], w[9 + n]) == Crc16.FeedAll(0xFFFF, w[2..8 + n])
  {
    hide Crc16.FeedAll, High, Low, Count, AsWord, Join;
    var w, n := Encoding(f), |f.payload|;
    assert w[2..8 + n] == Body(f);
    JoinSplits(f.sequence);
    JoinSplits(AsWord(n));
    AsWordRoundTrip(n);
    JoinSplits(Check(Body(f)));
  }

  /** protocol_frame_encode: fills the front of the output and nothing else; a payload too long is refused before
      anything is written. */
  method Encode(messageType: byte, sequence: word, payloadLength: word, payload: array<byte>, output: array<byte>)
      returns (size: nat)
    requires payload.Length == MAX_PAYLOAD_SIZE && output.Length >= MAX_WIRE_SIZE && payload != output
    modifies output
    ensures Count(payloadLength) > MAX_PAYLOAD_SIZE ==> size == 0 && output[..] == old(output[..])
    ensures Count(payloadLength) <= MAX_PAYLOAD_SIZE ==>
              && size == HEADER_SIZE + Count(payloadLength) + CRC_SIZE
              && output[..] == Encoding(Frame(messageType, sequence, payload[..Count(payloadLength)]))
                             + old(output[size..])
  {
    hide Crc16.FeedAll, High, Low, Count, AsWord, Header;
    var n := Count(payloadLength);
    if n > MAX_PAYLOAD_SIZE {
      return 0;
    }
    ghost var f := Frame(messageType, sequence, payload[..n]);
    size := HEADER_SIZE + n + CRC_SIZE;
    ghost var rest := output[size..];
    WriteHeader(messageType, sequence, payloadLength, payload, output);
    ghost var head := output[..8];
    CopyPayload(payload, n, output);
    assert output[..8] == head;
    assert output[..8 + n] == head + payload[..n] == [MAGIC_0, MAGIC_1] + Body(f);
    assert output[2..8 + n] == Body(f);
    var crc := Crc16.Update(Crc16.INITIAL, output[2..8 + n]);
    ghost var front := output[..8 + n];
    WriteWord(crc, output, 8 + n);
    assert output[..8 + n] == front && output[size..] == rest;
    Assembled(output[..], f, n);
  }

  lemma Assembled(bytes: seq<byte>, f: Frame, n: nat)
    requires Encodable(f) && |bytes| >= n + 10
    requires |f.payload| == n && bytes[..8 + n] == [MAGIC_0, MAGIC_1] + Body(f)
    requires bytes[8 + n] == High(Check(Body(f))) && bytes[9 + n] == Low(Check(Body(f)))
    ensures bytes == Encoding(f) + bytes[n + 10..]
  {
    hide Check, High, Low, Body;
    assert bytes == bytes[..8 + n] + [bytes[8 + n], bytes[9 + n]] + bytes[n + 10..];
  }

  method WriteWord(w: word, output: array<byte>, at: nat)
    requires at + 2 <= output.Length
    modifies output
    ensures output[at] == High(w) && output[at + 1] == Low(w)
    ensures forall i :: 0 <= i < output.Length && i != at && i != at + 1 ==> output[i] == old(output[i])
  {
    hide High, Low;
    output[at] := High(w);
    output[at + 1] := Low(w);
  }

  method WriteHeader(messageType: byte, sequence: word, payloadLength: word, payload: array<byte>,
                     output: array<byte>)
    requires payload.Length == MAX_PAYLOAD_SIZE && output.Length >= MAX_WIRE_SIZE && payload != output
    requires Count(payloadLength) <= MAX_PAYLOAD_SIZE
    modifies output
    ensures output[..8] == [MAGIC_0, MAGIC_1]
                         + Header(Frame(messageType, sequence, payload[..Count(payloadLength)]))
    ensures forall i :: 8 <= i < output.Length ==> output[i] == old(output[i])
  {
    hide High, Low, Count, AsWord;
    output[0] := MAGIC_0;
    output[1] := MAGIC_1;
    output[2] := VERSION;
    output[3] := messageType;
    WriteWord(sequence, output, 4);
    WriteWord(payloadLength, output, 6);
    CountRoundTrip(payloadLength);
  }

  method CopyPayload(payload: array<byte>, n: nat, output: array<byte>)
    requires n <= payload.Length && 8 + n <= output.Length && payload != output
    modifies output
    ensures output[8..8 + n] == payload[..n]
    ensures forall i :: 0 <= i < output.Length && !(8 <= i < 8 + n) ==> output[i] == old(output[i])
  {
    for i := 0 to n
      invariant forall k :: 0 <= k < i ==> output[8 + k] == payload[k]
      invariant forall k :: 0 <= k < output.Length && !(8 <= k < 8 + i) ==> output[k] == old(output[k])
    {
      output[8 + i] := payload[i];
    }
  }
}
