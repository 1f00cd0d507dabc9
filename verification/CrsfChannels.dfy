/** Sixteen 11-bit channels from 22 bytes (software/rpi/src/crsf_channels.cpp). The accumulator never holds a bit
    where the next byte goes, so that the source's `|=`, `>>` and `&` are sum, quotient and remainder. */
module CrsfChannels {
  import opened Words

  const CHANNELS_TYPE := 0x16
  const CHANNEL_COUNT := 16
  const PACKED_SIZE := 22

  datatype CrsfFrame = CrsfFrame(frameType: u8, payload: seq<u8>, payloadLength: nat)

  // ---------- Positional numbers, least significant digit first ----------

  function Times(a: int, b: int): int
  {
    a * b
  }

  function Quotient(n: int, base: nat): int
    requires base > 0
  {
    n / base
  }

  function Remainder(n: int, base: nat): int
    requires base > 0
  {
    n % base
  }

  predicate AreDigits(base: nat, ds: seq<int>)
  {
    forall i :: 0 <= i < |ds| ==> 0 <= ds[i] < base
  }

  function Number(base: nat, ds: seq<int>): int
  {
    if ds == [] then 0 else ds[0] + Times(base, Number(base, ds[1..]))
  }

  function Digits(base: nat, n: int, k: nat): (ds: seq<int>)
    requires base > 0
    ensures |ds| == k
    decreases k
  {
    if k == 0 then [] else [Remainder(n, base)] + Digits(base, Quotient(n, base), k - 1)
  }

  lemma {:induction false} DigitsInRange(base: nat, n: int, k: nat)
    requires base > 0
    ensures AreDigits(base, Digits(base, n, k))
    decreases k
  {
    hide Times, Quotient, Remainder;
    if k > 0 {
      Split(n, base);
      DigitsInRange(base, Quotient(n, base), k - 1);
    }
  }

  function Pow(base: nat, k: nat): int
  {
    if k == 0 then 1 else Times(base, Pow(base, k - 1))
  }

  lemma Split(n: int, base: nat)
    requires base > 0
    ensures n == Remainder(n, base) + Times(base, Quotient(n, base)) && 0 <= Remainder(n, base) < base
  {
  }

  lemma DivideOff(base: nat, d: int, rest: int)
    requires 0 <= d < base
    ensures Quotient(d + Times(base, rest), base) == rest && Remainder(d + Times(base, rest), base) == d
  {
    var n := d + base * rest;
    assert n == base * (n / base) + n % base;
    var x := n / base - rest;
    assert base * x == d - n % base;
    NoMultiple(base, x);
  }

  lemma Monotone(c: nat, a: int, b: int)
    ensures a <= b ==> c * a <= c * b
  {
    if a <= b {
      assert c * (b - a) >= 0;
    }
  }

  lemma NoMultiple(base: nat, x: int)
    requires 0 < base + base * x < 2 * base
    ensures x == 0
  {
    Monotone(base, 1, x);
    Monotone(base, x, -1);
  }

  lemma QuotientBound(base: nat, n: int, p: int)
    requires base > 0 && 0 <= n < Times(base, p)
    ensures 0 <= Quotient(n, base) < p
  {
    Monotone(base, p, n / base);
    Monotone(base, n / base, -1);
  }

  lemma ProductBound(base: nat, d: int, m: int, p: int)
    requires 0 <= d < base && 0 <= m < p
    ensures 0 <= d + Times(base, m) < Times(base, p)
  {
    Monotone(base, 0, m);
    Monotone(base, m + 1, p);
    assert base * (m + 1) == base * m + base;
  }

  lemma {:induction false} DigitsOfNumber(base: nat, ds: seq<int>)
    requires base > 0 && AreDigits(base, ds)
    ensures Digits(base, Number(base, ds), |ds|) == ds
  {
    hide Times, Quotient, Remainder;
    if ds != [] {
      DivideOff(base, ds[0], Number(base, ds[1..]));
      DigitsOfNumber(base, ds[1..]);
    }
  }

  lemma {:induction false} NumberOfDigits(base: nat, n: int, k: nat)
    requires base > 0 && 0 <= n < Pow(base, k)
    ensures Number(base, Digits(base, n, k)) == n
    decreases k
  {
    hide Times, Quotient, Remainder;
    if k > 0 {
      QuotientBound(base, n, Pow(base, k - 1));
      NumberOfDigits(base, Quotient(n, base), k - 1);
      Split(n, base);
      assert Digits(base, n, k)[1..] == Digits(base, Quotient(n, base), k - 1);
    }
  }

  lemma {:induction false} NumberBound(base: nat, ds: seq<int>)
    requires base > 0 && AreDigits(base, ds)
    ensures 0 <= Number(base, ds) < Pow(base, |ds|)
  {
    hide Times;
    if ds != [] {
      NumberBound(base, ds[1..]);
      ProductBound(base, ds[0], Number(base, ds[1..]), Pow(base, |ds| - 1));
    }
  }

  lemma SamePower()
    ensures Pow(2048, 16) == Pow(256, 22)
  {
    assert Pow(2048, 4) == 0x1000_0000_0000 by {
      assert Pow(2048, 2) == 0x40_0000;
    }
    PowAdds(2048, 4, 4);
    PowAdds(2048, 8, 8);
    assert Pow(256, 5) == 0x100_0000_0000 by {
      assert Pow(256, 3) == 0x100_0000;
    }
    PowAdds(256, 5, 5);
    PowAdds(256, 10, 10);
    PowAdds(256, 20, 2);
    assert Pow(256, 2) == 0x1_0000;
  }

  lemma {:induction false} PowAdds(base: nat, a: nat, b: nat)
    ensures Pow(base, a + b) == Pow(base, a) * Pow(base, b)
  {
    if a > 0 {
      PowAdds(base, a - 1, b);
      assert base * (Pow(base, a - 1) * Pow(base, b)) == base * Pow(base, a - 1) * Pow(base, b);
    }
  }

  // ---------- The packing ----------

  /** Channel i is the i-th base-2048 digit of the payload read as a little-endian number. */
  function Unpacked(payload: seq<int>): (values: seq<int>)
    ensures |values| == CHANNEL_COUNT
  {
    Digits(2048, Number(256, payload), CHANNEL_COUNT)
  }

  function Packed(values: seq<int>): (payload: seq<int>)
    ensures |payload| == PACKED_SIZE
  {
    Digits(256, Number(2048, values), PACKED_SIZE)
  }

  /** Packing and unpacking undo each other, for every payload and all channel values. */
  lemma RepackRestores(payload: seq<int>)
    requires |payload| == PACKED_SIZE && AreDigits(256, payload)
    ensures AreDigits(2048, Unpacked(payload)) && Packed(Unpacked(payload)) == payload
  {
    hide Times, Quotient, Remainder, Pow;
    DigitsInRange(2048, Number(256, payload), CHANNEL_COUNT);
    NumberBound(256, payload);
    SamePower();
    NumberOfDigits(2048, Number(256, payload), CHANNEL_COUNT);
    DigitsOfNumber(256, payload);
  }

  lemma UnpackRestores(values: seq<int>)
    requires |values| == CHANNEL_COUNT && AreDigits(2048, values)
    ensures AreDigits(256, Packed(values)) && Unpacked(Packed(values)) == values
  {
    hide Times, Quotient, Remainder, Pow;
    DigitsInRange(256, Number(2048, values), PACKED_SIZE);
    NumberBound(2048, values);
    SamePower();
    NumberOfDigits(256, Number(2048, values), PACKED_SIZE);
    DigitsOfNumber(2048, values);
  }

  // ---------- The decoder ----------

  /** What is still to be unpacked: the accumulator below the bytes not yet read. */
  function Rest(bits: int, available: nat, unread: seq<int>): int
  {
    bits + Times(Pow(2, available), Number(256, unread))
  }

  lemma TakeByte(bits: nat, available: nat, unread: seq<int>)
    requires unread != [] && 0 <= unread[0] < 256 && bits < Pow(2, available)
    ensures 0 <= bits + Times(unread[0], Pow(2, available)) < Pow(2, available + 8)
    ensures Rest(bits + Times(unread[0], Pow(2, available)), available + 8, unread[1..]) == Rest(bits, available, unread)
  {
    var p, m, b := Pow(2, available), Number(256, unread[1..]), unread[0];
    PowAdds(2, available, 8);
    assert Pow(2, 8) == 256;
    assert b * p <= 255 * p;
    assert b * p >= 0;
    assert p * (b + 256 * m) == b * p + p * 256 * m;
  }

  lemma TakeChannel(bits: nat, available: nat, unread: seq<int>)
    requires available >= 11 && bits < Pow(2, available)
    ensures Remainder(Rest(bits, available, unread), 2048) == bits % 2048
    ensures Quotient(Rest(bits, available, unread), 2048) == Rest(bits / 2048, available - 11, unread)
    ensures bits / 2048 < Pow(2, available - 11)
  {
    var p, n := Pow(2, available - 11), Number(256, unread);
    PowAdds(2, available - 11, 11);
    assert Pow(2, 11) == 2048;
    var d, q := bits % 2048, bits / 2048;
    assert p * 2048 * n == 2048 * (p * n);
    assert bits + 2048 * (p * n) == d + 2048 * (q + p * n);
    DivideOff(2048, d, q + p * n);
    QuotientBound(2048, bits, p);
  }

  /** Eighteen bits are enough. */
  lemma {:induction false} AccumulatorFits(available: nat)
    requires available <= 18
    ensures Pow(2, available) <= 0x4_0000
    decreases 18 - available
  {
    if available < 18 {
      AccumulatorFits(available + 1);
      PowPositive(available);
    } else {
      PowAdds(2, 9, 9);
      assert Pow(2, 5) == 32;
      PowAdds(2, 4, 5);
    }
  }

  lemma {:induction false} PowPositive(k: nat)
    ensures Pow(2, k) >= 1
  {
    if k > 0 {
      PowPositive(k - 1);
    }
  }

  /** crsf_channels_decode: the channels are the digits of the payload, of which exactly 22 bytes are read; the
      accumulator stays within 18 bits; a frame of another type or length changes nothing. */
  method Decode(frame: CrsfFrame, channels: array<int>) returns (ok: bool)
    requires channels.Length == CHANNEL_COUNT && |frame.payload| == 60
    modifies channels
    ensures ok <==> frame.frameType == 0x16 && frame.payloadLength == 22
    ensures ok ==> channels[..] == Unpacked(frame.payload[..22])
    ensures !ok ==> channels[..] == old(channels[..])
  {
    if frame.frameType != CHANNELS_TYPE || frame.payloadLength != PACKED_SIZE {
      return false;
    }
    var values := Unpack(frame.payload);
    forall i | 0 <= i < CHANNEL_COUNT {
      channels[i] := values[i];
    }
    assert channels[..] == values[..];
    return true;
  }

  method Unpack(payload: seq<u8>) returns (values: array<int>)
    requires |payload| >= PACKED_SIZE
    ensures fresh(values) && values.Length == CHANNEL_COUNT && values[..] == Unpacked(payload[..PACKED_SIZE])
  {
    hide Times, Number, Pow, Rest, Quotient, Remainder, Digits, Unpacked;
    ghost var packed: seq<int> := payload[..PACKED_SIZE];
    var bits, available, byteIndex := 0, 0, 0;
    values := new int[CHANNEL_COUNT];
    StartOf(packed);
    assert packed[0..] == packed;
    for i := 0 to CHANNEL_COUNT
      invariant 0 <= bits < Pow(2, available) && 0 <= available < 11
      invariant 8 * byteIndex == 11 * i + available && 0 <= byteIndex <= PACKED_SIZE
      invariant values[..i] + Digits(2048, Rest(bits, available, packed[byteIndex..]), CHANNEL_COUNT - i) == Unpacked(packed)
    {
      ghost var rest := Rest(bits, available, packed[byteIndex..]);
      bits, available, byteIndex := Refill(payload, bits, available, byteIndex);
      TakeChannel(bits, available, packed[byteIndex..]);
      ghost var done := values[..i];
      values[i] := bits % 2048;
      bits := bits / 2048;
      available := available - 11;
      assert values[..i + 1] == done + [Remainder(rest, 2048)];
      DigitsStep(done, rest, CHANNEL_COUNT - i);
    }
    DigitsEnd(values[..CHANNEL_COUNT], Rest(bits, available, packed[byteIndex..]));
    assert values[..] == values[..CHANNEL_COUNT];
  }

  lemma DigitsStep(done: seq<int>, n: int, k: nat)
    requires k > 0
    ensures done + [Remainder(n, 2048)] + Digits(2048, Quotient(n, 2048), k - 1) == done + Digits(2048, n, k)
  {
    hide Remainder, Quotient;
  }

  lemma DigitsEnd(done: seq<int>, n: int)
    ensures done + Digits(2048, n, 0) == done
  {
  }

  lemma StartOf(payload: seq<int>)
    ensures Pow(2, 0) == 1 && Unpacked(payload) == [] + Digits(2048, Rest(0, 0, payload), CHANNEL_COUNT)
  {
  }

  /** The inner loop: bytes enter above the bits at hand until a channel is complete. */
  method Refill(payload: seq<u8>, bits0: nat, available0: nat, byteIndex0: nat)
    returns (bits: nat, available: nat, byteIndex: nat)
    requires |payload| >= PACKED_SIZE
    requires bits0 < Pow(2, available0) && available0 < 11 && byteIndex0 <= PACKED_SIZE
    requires 8 * byteIndex0 - available0 + 11 <= 8 * PACKED_SIZE
    ensures bits < Pow(2, available) && 11 <= available <= 18 && bits < 0x4_0000
    ensures byteIndex <= PACKED_SIZE && 8 * (byteIndex - byteIndex0) == available - available0
    ensures Rest(bits, available, payload[byteIndex..PACKED_SIZE]) == Rest(bits0, available0, payload[byteIndex0..PACKED_SIZE])
  {
    hide Times, Number, Pow, Rest;
    bits, available, byteIndex := bits0, available0, byteIndex0;
    while available < 11
      invariant bits < Pow(2, available) && available <= 18
      invariant byteIndex <= PACKED_SIZE && 8 * (byteIndex - byteIndex0) == available - available0
      invariant
        Rest(bits, available, payload[byteIndex..PACKED_SIZE]) == Rest(bits0, available0, payload[byteIndex0..PACKED_SIZE])
    {
      ghost var unread: seq<int> := payload[byteIndex..PACKED_SIZE];
      TakeByte(bits, available, unread);
      assert unread[1..] == payload[byteIndex + 1..PACKED_SIZE];
      bits := bits + Times(payload[byteIndex], Pow(2, available));
      byteIndex := byteIndex + 1;
      available := available + 8;
    }
    AccumulatorFits(available);
  }
}
