/** Burst detection: a corruption confined to 16 consecutive bits never leaves the CRC as it was, whether it hits
    the message, the transmitted CRC or both. Bits are numbered in transmission order of the register, most
    significant bit of each byte first. */
module CrcBursts {
  import opened ByteCodec
  import opened Crc16

  function Mask(k: nat): byte
    requires k < 8
  {
    match k
    case 0 => 0x80
    case 1 => 0x40
    case 2 => 0x20
    case 3 => 0x10
    case 4 => 0x08
    case 5 => 0x04
    case 6 => 0x02
    case 7 => 0x01
  }

  predicate ByteBit(b: byte, k: nat)
    requires k < 8
  {
    b & Mask(k) != 0
  }

  /** Bit `i` of a corruption pattern. */
  predicate Bit(e: seq<byte>, i: nat)
    requires i < 8 * |e|
  {
    ByteBit(e[i / 8], i % 8)
  }

  /** Every corrupted bit lies among the 16 bits from `start` on. */
  predicate Within16(e: seq<byte>, start: nat)
  {
    forall i :: 0 <= i < 8 * |e| && Bit(e, i) ==> start <= i < start + 16
  }

  // ---------- From bits to bytes ----------

  /** The first `s` bits of a byte. */
  function Top(s: nat): byte
    requires s < 8
  {
    match s
    case 0 => 0x00
    case 1 => 0x80
    case 2 => 0xC0
    case 3 => 0xE0
    case 4 => 0xF0
    case 5 => 0xF8
    case 6 => 0xFC
    case 7 => 0xFE
  }

  lemma ClearTop(b: byte, s: nat)
    requires s < 8 && forall k :: 0 <= k < s ==> !ByteBit(b, k)
    ensures b & Top(s) == 0
  {
    assert s > 0 ==> !ByteBit(b, 0);
    assert s > 1 ==> !ByteBit(b, 1);
    assert s > 2 ==> !ByteBit(b, 2);
    assert s > 3 ==> !ByteBit(b, 3);
    assert s > 4 ==> !ByteBit(b, 4);
    assert s > 5 ==> !ByteBit(b, 5);
    assert s > 6 ==> !ByteBit(b, 6);
  }

  lemma ClearRest(b: byte, s: nat)
    requires s < 8 && forall k :: s <= k < 8 ==> !ByteBit(b, k)
    ensures b & !Top(s) == 0
  {
    assert s <= 0 ==> !ByteBit(b, 0);
    assert s <= 1 ==> !ByteBit(b, 1);
    assert s <= 2 ==> !ByteBit(b, 2);
    assert s <= 3 ==> !ByteBit(b, 3);
    assert s <= 4 ==> !ByteBit(b, 4);
    assert s <= 5 ==> !ByteBit(b, 5);
    assert s <= 6 ==> !ByteBit(b, 6);
    assert !ByteBit(b, 7);
  }

  lemma ClearByte(b: byte)
    requires forall k :: 0 <= k < 8 ==> !ByteBit(b, k)
    ensures b == 0
  {
    ClearRest(b, 0);
  }

  /** A nonzero pattern of at most 16 bits that starts `s` bits into the first of three bytes is never
      reduced to zero. */
  lemma WindowNonzero(b0: byte, b1: byte, b2: byte, s: nat)
    requires s < 8 && (b0 != 0 || b1 != 0 || b2 != 0)
    requires b0 & Top(s) == 0 && b2 & !Top(s) == 0
    ensures Feed(Feed(Feed(0, b0), b1), b2) != 0
  {
    match s
    case 0 => Window(b0, b1, b2, 0x00);
    case 1 => Window(b0, b1, b2, 0x80);
    case 2 => Window(b0, b1, b2, 0xC0);
    case 3 => Window(b0, b1, b2, 0xE0);
    case 4 => Window(b0, b1, b2, 0xF0);
    case 5 => Window(b0, b1, b2, 0xF8);
    case 6 => Window(b0, b1, b2, 0xFC);
    case 7 => Window(b0, b1, b2, 0xFE);
  }

  lemma Window(b0: byte, b1: byte, b2: byte, t: byte)
    requires b0 != 0 || b1 != 0 || b2 != 0
    requires t == 0x00 || t == 0x80 || t == 0xC0 || t == 0xE0 || t == 0xF0 || t == 0xF8 || t == 0xFC || t == 0xFE
    requires b0 & t == 0 && b2 & !t == 0
    ensures Feed(Feed(Feed(0, b0), b1), b2) != 0
  {
  }

  // ---------- A burst alone ----------

  /** A byte with no corrupted bit is zero, unless it meets the burst. */
  lemma ByteOutside(e: seq<byte>, start: nat, j: nat)
    requires Within16(e, start) && j < |e|
    requires 8 * j + 8 <= start || start + 16 <= 8 * j
    ensures e[j] == 0
  {
    hide ByteBit;
    forall k | 0 <= k < 8
      ensures !ByteBit(e[j], k)
    {
      assert Bit(e, 8 * j + k) == ByteBit(e[j], k);
    }
    ClearByte(e[j]);
  }

  lemma {:induction false} FeedThree(c: word, b0: byte, b1: byte, b2: byte)
    ensures FeedAll(c, [b0, b1, b2]) == Feed(Feed(Feed(c, b0), b1), b2)
  {
    hide Feed;
    FeedAllConcat(c, [b0, b1], [b2]);
    FeedAllConcat(c, [b0], [b1]);
    assert [b0] + [b1] == [b0, b1] && [b0, b1] + [b2] == [b0, b1, b2];
    FeedOne(c, b0);
    FeedOne(Feed(c, b0), b1);
    FeedOne(Feed(Feed(c, b0), b1), b2);
  }

  lemma FeedOne(c: word, b: byte)
    ensures FeedAll(c, [b]) == Feed(c, b)
  {
    hide Feed;
    assert [b][..0] == [];
  }

  /** The three bytes a burst may touch, in a pattern that extends two bytes beyond the burst's first one. */
  lemma {:induction false} BurstInside(e: seq<byte>, start: nat, p: nat)
    requires Within16(e, start) && !Zeroes(e)
    requires p == start / 8 && p + 2 < |e|
    ensures FeedAll(0, e) != 0
  {
    hide Feed, Bit, ByteBit, Top;
    var s := start % 8;
    assert Zeroes(e[..p]) by {
      forall j | 0 <= j < p ensures e[..p][j] == 0 { ByteOutside(e, start, j); }
    }
    assert Zeroes(e[p + 3..]) by {
      forall j | p + 3 <= j < |e| ensures e[j] == 0 { ByteOutside(e, start, j); }
    }
    var b0, b1, b2 := e[p], e[p + 1], e[p + 2];
    FirstByte(e, start, p);
    ThirdByte(e, start, p);
    assert e == e[..p] + [b0, b1, b2] + e[p + 3..];
    WindowNonzero(b0, b1, b2, s);
    ZeroesKeepZero(0, e[..p]);
    FeedThree(0, b0, b1, b2);
    FeedAllConcat(0, e[..p], [b0, b1, b2]);
    FeedAllConcat(0, e[..p] + [b0, b1, b2], e[p + 3..]);
    ZeroesKeepZero(FeedAll(0, e[..p] + [b0, b1, b2]), e[p + 3..]);
  }

  lemma FirstByte(e: seq<byte>, start: nat, p: nat)
    requires Within16(e, start) && p == start / 8 && p < |e|
    ensures e[p] & Top(start % 8) == 0
  {
    hide ByteBit, Top;
    forall k | 0 <= k < start % 8
      ensures !ByteBit(e[p], k)
    {
      assert Bit(e, 8 * p + k) == ByteBit(e[p], k);
    }
    ClearTop(e[p], start % 8);
  }

  lemma ThirdByte(e: seq<byte>, start: nat, p: nat)
    requires Within16(e, start) && p == start / 8 && p + 2 < |e|
    ensures e[p + 2] & !Top(start % 8) == 0
  {
    hide ByteBit, Top;
    var b, s := e[p + 2], start % 8;
    forall k | s <= k < 8
      ensures !ByteBit(b, k)
    {
      assert Bit(e, 8 * (p + 2) + k) == ByteBit(b, k);
    }
    ClearRest(e[p + 2], start % 8);
  }

  /** A burst of at most 16 bits has a nonzero CRC of its own, even when it runs up to the last bit. */
  lemma {:induction false} BurstNonzero(e: seq<byte>, start: nat)
    requires Within16(e, start) && !Zeroes(e)
    ensures FeedAll(0, e) != 0
  {
    hide Feed, ByteBit;
    var padded := e + [0, 0];
    forall i | 0 <= i < 8 * |padded| && Bit(padded, i)
      ensures start <= i < start + 16
    {
      if i < 8 * |e| {
        assert Bit(e, i);
      } else {
        ZeroByte(i % 8);
      }
    }
    var j :| 0 <= j < |e| && e[j] != 0;
    if |e| <= start / 8 {
      ByteOutside(e, start, j);
    }
    assert padded[j] != 0;
    BurstInside(padded, start, start / 8);
    FeedAllConcat(0, e, [0, 0]);
    ZeroesKeepZero(FeedAll(0, e), [0, 0]);
  }

  lemma ZeroByte(k: nat)
    requires k < 8
    ensures !ByteBit(0, k)
  {
  }

  // ---------- A burst over a message and its CRC ----------

  lemma Shift8Small(b: byte)
    ensures Shift8(b as word) == (b as word) << 8
  {
  }

  lemma Shift8Kernel(a: word)
    ensures Shift8(a) == 0 <==> a == 0
  {
  }

  lemma SumIsZero(a: word, b: word)
    ensures Sum(a, b) == 0 <==> a == b
  {
  }

  lemma EnterIsSum(a: word, b: byte)
    ensures Enter(a, b) == Sum(a, (b as word) << 8)
  {
  }

  lemma TwoBytes(crc: word, hi: byte, lo: byte)
    ensures Enter(crc, hi) == lo as word <==> (hi == High(crc) && lo == Low(crc))
  {
  }

  /** A register that takes in two bytes ends at zero exactly when they are its own two bytes. */
  lemma Residue(crc: word, hi: byte, lo: byte)
    ensures Feed(Feed(crc, hi), lo) == 0 <==> (hi == High(crc) && lo == Low(crc))
  {
    hide Shift8, Sum, Enter, High, Low;
    var v, l := Enter(crc, hi), lo as word;
    EnterIsSum(Shift8(v), lo);
    Shift8Small(lo);
    Shift8Linear(v, l);
    Shift8Kernel(Enter(Shift8(v), lo));
    Shift8Kernel(Sum(v, l));
    SumIsZero(v, l);
    TwoBytes(crc, hi, lo);
  }

  lemma {:induction false} ResidueOf(message: seq<byte>, hi: byte, lo: byte)
    ensures FeedAll(INITIAL, message + [hi, lo]) == 0
       <==> (hi == High(FeedAll(INITIAL, message)) && lo == Low(FeedAll(INITIAL, message)))
  {
    hide Feed, High, Low;
    var r := FeedAll(INITIAL, message);
    FeedAllConcat(INITIAL, message, [hi, lo]);
    assert [hi, lo][..1] == [hi];
    assert FeedAll(r, [hi]) == Feed(r, hi);
    Residue(r, hi, lo);
  }

  lemma SumZero(c: word)
    ensures Sum(c, 0) == c && Sum(0, c) == c
  {
  }

  /** crc16_ccitt_false detects every burst: if a message followed by its CRC is changed in some bits, all within
      16 consecutive ones, what arrives is not a message followed by its CRC. */
  lemma {:induction false} BurstDetected(message: seq<byte>, e: seq<byte>, start: nat, arrived: seq<byte>, hi: byte, lo: byte)
    requires |e| == |message| + 2 && Within16(e, start) && !Zeroes(e)
    requires arrived + [hi, lo] ==
             Xor(message + [High(FeedAll(INITIAL, message)), Low(FeedAll(INITIAL, message))], e)
    ensures !(hi == High(FeedAll(INITIAL, arrived)) && lo == Low(FeedAll(INITIAL, arrived)))
  {
    hide Feed, High, Low, Within16, Sum;
    var sent := message + [High(FeedAll(INITIAL, message)), Low(FeedAll(INITIAL, message))];
    ResidueOf(message, High(FeedAll(INITIAL, message)), Low(FeedAll(INITIAL, message)));
    ResidueOf(arrived, hi, lo);
    FeedAllLinear(INITIAL, 0, sent, e);
    SumZero(INITIAL);
    SumZero(FeedAll(0, e));
    BurstNonzero(e, start);
  }
}
