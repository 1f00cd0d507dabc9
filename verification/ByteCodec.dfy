/** Big-endian words on the wire (protocol/byte_codec.c). */
module ByteCodec {
  type byte = bv8
  type word = bv16

  /** The two bytes of a word, high one first (byte_codec_encode_u16_be). */
  function High(w: word): byte
  {
    ((w >> 8) & 0xFF) as byte
  }

  function Low(w: word): byte
  {
    (w & 0xFF) as byte
  }

  /** byte_codec_decode_u16_be. */
  function Join(high: byte, low: byte): word
  {
    ((high as word) << 8) | (low as word)
  }

  /** High byte first: the upper eight bits are the first byte, the lower eight the second. */
  lemma JoinIsBigEndian(high: byte, low: byte)
    ensures Join(high, low) >> 8 == high as word && Join(high, low) & 0x00FF == low as word
  {
  }

  lemma JoinSplits(w: word)
    ensures Join(High(w), Low(w)) == w
  {
  }

  lemma SplitJoins(high: byte, low: byte)
    ensures High(Join(high, low)) == high && Low(Join(high, low)) == low
  {
  }

  /** A word read in two steps, as the decoder does. */
  function Raised(high: byte): word
  {
    (high as word) << 8
  }

  function WithLow(w: word, low: byte): word
  {
    w | (low as word)
  }

  lemma JoinInSteps(high: byte, low: byte)
    ensures WithLow(Raised(high), low) == Join(high, low)
  {
  }

  /** A 16-bit length as a number, and back. */
  function Count(w: word): nat
  {
    w as nat
  }

  function AsWord(n: nat): word
    requires n <= 0xFFFF
  {
    n as word
  }

  lemma CountRoundTrip(w: word)
    ensures Count(w) <= 0xFFFF && AsWord(Count(w)) == w
  {
  }

  lemma AsWordRoundTrip(n: nat)
    requires n <= 64
    ensures Count(AsWord(n)) == n
  {
  }
}
