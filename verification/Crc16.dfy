/** CRC-16/CCITT-FALSE, bit by bit (protocol/crc16_ccitt_false.c), and why it catches every short burst. */
module Crc16 {
  import opened ByteCodec

  const INITIAL: word := 0xFFFF

  /** One turn of the inner loop: shift out a bit and reduce by the polynomial 0x1021. */
  function Shift(crc: word): word
  {
    if crc & 0x8000 != 0 then (crc << 1) ^ 0x1021 else crc << 1
  }

  function Shift8(crc: word): word
  {
    Shift(Shift(Shift(Shift(Shift(Shift(Shift(Shift(crc))))))))
  }

  /** One byte enters at the top of the register. */
  function Enter(crc: word, b: byte): word
  {
    crc ^ ((b as word) << 8)
  }

  function Feed(crc: word, b: byte): word
  {
    Shift8(Enter(crc, b))
  }

  function FeedAll(crc: word, data: seq<byte>): word
  {
    if data == [] then crc else Feed(FeedAll(crc, data[..|data| - 1]), data[|data| - 1])
  }

  /** crc16_ccitt_false_update: the nested loops compute the fold over the bytes. */
  method Update(start: word, data: seq<byte>) returns (crc: word)
    ensures crc == FeedAll(start, data)
  {
    hide Feed;
    crc := start;
    for i := 0 to |data|
      invariant crc == FeedAll(start, data[..i])
    {
      assert data[..i + 1][..i] == data[..i];
      crc := UpdateByte(crc, data[i]);
    }
    assert data[..|data|] == data;
  }

  function Turns(crc: word, n: nat): word
  {
    if n == 0 then crc else Shift(Turns(crc, n - 1))
  }

  lemma EightTurns(crc: word)
    ensures Turns(crc, 8) == Shift8(crc)
  {
    hide Shift;
    assert Turns(crc, 1) == Shift(Turns(crc, 0));
    assert Turns(crc, 3) == Shift(Shift(Turns(crc, 1)));
    assert Turns(crc, 5) == Shift(Shift(Turns(crc, 3)));
    assert Turns(crc, 7) == Shift(Shift(Turns(crc, 5)));
  }

  method UpdateByte(start: word, b: byte) returns (crc: word)
    ensures crc == Feed(start, b)
  {
    hide Shift8, Enter, Shift;
    crc := Enter(start, b);
    for bit := 0 to 8
      invariant crc == Turns(Enter(start, b), bit)
    {
      crc := UpdateBit(crc);
    }
    EightTurns(Enter(start, b));
  }

  method UpdateBit(start: word) returns (crc: word)
    ensures crc == Shift(start)
  {
    if start & 0x8000 != 0 {
      crc := (start << 1) ^ 0x1021;
    } else {
      crc := start << 1;
    }
  }

  // ---------- Linearity ----------

  /** The turn without its branch: the outgoing bit selects the polynomial. */
  function Turn(crc: word): word
  {
    (crc << 1) ^ ((crc >> 15) * 0x1021)
  }

  lemma TopBit(a: word)
    ensures a & 0x8000 != 0 ==> a >> 15 == 1
    ensures a & 0x8000 == 0 ==> a >> 15 == 0
  {
  }

  lemma ShiftIsTurn(a: word)
    ensures Shift(a) == Turn(a)
  {
    TopBit(a);
  }

  lemma TurnLinear(a: word, b: word)
    ensures Turn(a ^ b) == Turn(a) ^ Turn(b)
  {
  }

  /** Addition of registers and of bytes, as polynomials over the two-element field. */
  function Sum(a: word, b: word): word
  {
    a ^ b
  }

  function ByteSum(a: byte, b: byte): byte
  {
    a ^ b
  }

  lemma ShiftLinear(a: word, b: word)
    ensures Shift(Sum(a, b)) == Sum(Shift(a), Shift(b))
  {
    ShiftIsTurn(a);
    ShiftIsTurn(b);
    ShiftIsTurn(a ^ b);
    TurnLinear(a, b);
  }

  lemma Shift2Linear(a: word, b: word)
    ensures Shift(Shift(Sum(a, b))) == Sum(Shift(Shift(a)), Shift(Shift(b)))
  {
    hide Shift, Sum;
    ShiftLinear(a, b);
    ShiftLinear(Shift(a), Shift(b));
  }

  lemma Shift8Linear(a: word, b: word)
    ensures Shift8(Sum(a, b)) == Sum(Shift8(a), Shift8(b))
  {
    hide Shift, Sum;
    Shift2Linear(a, b);
    var a2, b2 := Shift(Shift(a)), Shift(Shift(b));
    Shift2Linear(a2, b2);
    var a4, b4 := Shift(Shift(a2)), Shift(Shift(b2));
    Shift2Linear(a4, b4);
    Shift2Linear(Shift(Shift(a4)), Shift(Shift(b4)));
  }

  lemma EnterLinear(c: word, d: word, x: byte, y: byte)
    ensures Enter(Sum(c, d), ByteSum(x, y)) == Sum(Enter(c, x), Enter(d, y))
  {
  }

  lemma FeedLinear(c: word, d: word, x: byte, y: byte)
    ensures Feed(Sum(c, d), ByteSum(x, y)) == Sum(Feed(c, x), Feed(d, y))
  {
    hide Shift8, Sum, Enter, ByteSum;
    EnterLinear(c, d, x, y);
    Shift8Linear(Enter(c, x), Enter(d, y));
  }

  /** Byte-wise exclusive or: what a corruption does to a message. */
  function Xor(a: seq<byte>, e: seq<byte>): (r: seq<byte>)
    requires |a| == |e|
    ensures |r| == |a| && forall i :: 0 <= i < |a| ==> r[i] == ByteSum(a[i], e[i])
  {
    seq(|a|, i requires 0 <= i < |a| => ByteSum(a[i], e[i]))
  }

  /** The CRC of a corrupted message is the CRC of the message plus that of the corruption alone. */
  lemma {:induction false} FeedAllLinear(c: word, d: word, a: seq<byte>, e: seq<byte>)
    requires |a| == |e|
    ensures FeedAll(Sum(c, d), Xor(a, e)) == Sum(FeedAll(c, a), FeedAll(d, e))
  {
    hide Feed, Sum, ByteSum;
    if a != [] {
      var n := |a| - 1;
      FeedAllLinear(c, d, a[..n], e[..n]);
      assert Xor(a, e)[..n] == Xor(a[..n], e[..n]);
      FeedLinear(FeedAll(c, a[..n]), FeedAll(d, e[..n]), a[n], e[n]);
    }
  }

  lemma {:induction false} FeedAllConcat(c: word, a: seq<byte>, b: seq<byte>)
    ensures FeedAll(c, a + b) == FeedAll(FeedAll(c, a), b)
  {
    hide Feed;
    if b == [] {
      assert a + b == a;
    } else {
      FeedAllConcat(c, a, b[..|b| - 1]);
      assert (a + b)[..|a + b| - 1] == a + b[..|b| - 1];
    }
  }

  // ---------- Zeroes and bursts ----------

  predicate Zeroes(e: seq<byte>)
  {
    forall i :: 0 <= i < |e| ==> e[i] == 0
  }

  lemma FeedZeroKeepsZero(c: word)
    ensures Feed(c, 0) == 0 <==> c == 0
  {
  }

  lemma {:induction false} ZeroesKeepZero(c: word, e: seq<byte>)
    requires Zeroes(e)
    ensures FeedAll(c, e) == 0 <==> c == 0
  {
    hide Feed;
    if e != [] {
      ZeroesKeepZero(c, e[..|e| - 1]);
      FeedZeroKeepsZero(FeedAll(c, e[..|e| - 1]));
    }
  }

  /** The published check value of CRC-16/CCITT-FALSE, over the digits 1 to 9. */
  lemma CheckValue()
    ensures FeedAll(0xFFFF, [0x31, 0x32, 0x33, 0x34, 0x35, 0x36, 0x37, 0x38, 0x39]) == 0x29B1
  {
    hide FeedAll, Feed;
    var digits: seq<byte> := [0x31, 0x32, 0x33, 0x34, 0x35, 0x36, 0x37, 0x38, 0x39];
    assert digits[..0] == [] && digits[..9] == digits;
    FeedNothing(0xFFFF);
    CheckSteps();
    FeedNext(0xFFFF, digits, 0);
    FeedNext(0xFFFF, digits, 1);
    FeedNext(0xFFFF, digits, 2);
    FeedNext(0xFFFF, digits, 3);
    FeedNext(0xFFFF, digits, 4);
    FeedNext(0xFFFF, digits, 5);
    FeedNext(0xFFFF, digits, 6);
    FeedNext(0xFFFF, digits, 7);
    FeedNext(0xFFFF, digits, 8);
  }

  lemma CheckSteps()
    ensures Feed(0xFFFF, 0x31) == 0xC782
    ensures Feed(0xC782, 0x32) == 0x3DBA
    ensures Feed(0x3DBA, 0x33) == 0x5BCE
    ensures Feed(0x5BCE, 0x34) == 0x5349
    ensures Feed(0x5349, 0x35) == 0x4560
    ensures Feed(0x4560, 0x36) == 0x2EF4
    ensures Feed(0x2EF4, 0x37) == 0x7718
    ensures Feed(0x7718, 0x38) == 0xA12B
    ensures Feed(0xA12B, 0x39) == 0x29B1
  {
  }

  lemma FeedNothing(c: word)
    ensures FeedAll(c, []) == c
  {
  }

  lemma {:induction false} FeedNext(c: word, data: seq<byte>, i: nat)
    requires i < |data|
    ensures FeedAll(c, data[..i + 1]) == Feed(FeedAll(c, data[..i]), data[i])
  {
    hide Feed;
    assert data[..i + 1][..i] == data[..i];
  }
}
