/** What a frame decoder is for, said without its states: keep the bytes that may still become a frame; deliver the
    frame when they do; when they cannot, keep only a trailing start of magic. The streaming decoder refines this
    scanner byte by byte (FrameDecoder.dfy). */
module FrameScanner {
  import opened Words
  import opened ByteCodec
  import opened Frames
  import Crc16
  import opened CrcBursts

  function Length(q: seq<byte>): nat
    requires |q| >= HEADER_SIZE
  {
    Count(Join(q[6], q[7]))
  }

  /** The bytes so far agree with the fixed part of the format. */
  predicate WellFormed(q: seq<byte>)
  {
    && (|q| >= 1 ==> q[0] == MAGIC_0)
    && (|q| >= 2 ==> q[1] == MAGIC_1)
    && (|q| >= 3 ==> q[2] == VERSION)
    && (|q| >= HEADER_SIZE ==> Length(q) <= MAX_PAYLOAD_SIZE)
  }

  /** They may still become a frame. */
  predicate Viable(q: seq<byte>)
  {
    WellFormed(q) && (|q| >= HEADER_SIZE ==> |q| < HEADER_SIZE + Length(q) + CRC_SIZE)
  }

  predicate Complete(q: seq<byte>)
  {
    WellFormed(q) && |q| >= HEADER_SIZE && |q| == HEADER_SIZE + Length(q) + CRC_SIZE
  }

  predicate Genuine(q: seq<byte>)
    requires Complete(q)
  {
    var n := |q| - CRC_SIZE;
    Join(q[n], q[n + 1]) == Check(q[2..n])
  }

  function FrameOf(q: seq<byte>): Frame
    requires Complete(q)
  {
    Frame(q[3], Join(q[4], q[5]), q[HEADER_SIZE..|q| - CRC_SIZE])
  }

  /** What of a failed candidate may start the next one. */
  function Restart(q: seq<byte>): seq<byte>
    requires q != []
  {
    var last := q[|q| - 1];
    if |q| >= 2 && q[|q| - 2] == MAGIC_0 && last == MAGIC_1 then [MAGIC_0, MAGIC_1]
    else if last == MAGIC_0 then [MAGIC_0]
    else []
  }

  function Next(p: seq<byte>, b: byte): seq<byte>
  {
    var q := p + [b];
    if Viable(q) then q
    else if Complete(q) && Genuine(q) then []
    else Restart(q)
  }

  function Found(p: seq<byte>, b: byte): Option<Frame>
  {
    var q := p + [b];
    if Complete(q) && Genuine(q) then Some(FrameOf(q)) else None
  }

  /** Whole streams: the bytes kept at the end, and the frames delivered on the way. */
  function Kept(p: seq<byte>, stream: seq<byte>): seq<byte>
  {
    if stream == [] then p
    else Next(Kept(p, stream[..|stream| - 1]), stream[|stream| - 1])
  }

  function Delivered(p: seq<byte>, stream: seq<byte>): seq<Frame>
  {
    if stream == [] then []
    else
      var n := |stream| - 1;
      Delivered(p, stream[..n]) + match Found(Kept(p, stream[..n]), stream[n]) case None => [] case Some(f) => [f]
  }

  lemma {:induction false} StreamsCompose(p: seq<byte>, a: seq<byte>, b: seq<byte>)
    ensures Kept(p, a + b) == Kept(Kept(p, a), b)
    ensures Delivered(p, a + b) == Delivered(p, a) + Delivered(Kept(p, a), b)
  {
    hide Next, Found;
    if b == [] {
      assert a + b == a;
    } else {
      var n := |b| - 1;
      StreamsCompose(p, a, b[..n]);
      assert (a + b)[..|a + b| - 1] == a + b[..n];
    }
  }

  // ---------- Soundness ----------

  lemma HeaderOfComplete(q: seq<byte>)
    requires Complete(q)
    ensures Encodable(FrameOf(q)) && q[2..HEADER_SIZE] == Header(FrameOf(q))
  {
    hide High, Low, Count, AsWord, Join;
    SplitJoins(q[4], q[5]);
    SplitJoins(q[6], q[7]);
    CountRoundTrip(Join(q[6], q[7]));
  }

  /** A genuine candidate is, byte for byte, the encoding of the frame read from it. */
  lemma GenuineIsEncoding(q: seq<byte>)
    requires Complete(q) && Genuine(q)
    ensures Encodable(FrameOf(q)) && q == Encoding(FrameOf(q))
  {
    hide Crc16.FeedAll, High, Low, Count, AsWord, Join, Header, Length;
    var f, n := FrameOf(q), |q| - CRC_SIZE;
    HeaderOfComplete(q);
    SplitJoins(q[n], q[n + 1]);
    assert q[2..n] == Body(f);
    assert q[n..] == [q[n], q[n + 1]];
  }

  predicate Suffix(s: seq<byte>, stream: seq<byte>)
  {
    |s| <= |stream| && stream[|stream| - |s|..] == s
  }

  lemma KeptStep(p: seq<byte>, b: byte)
    ensures Suffix(Next(p, b), p + [b]) && Viable(Next(p, b))
  {
    hide Genuine, Length;
  }

  /** Whatever came before, what is kept is the tail of the stream and may still become a frame. */
  lemma {:induction false} KeptIsTail(stream: seq<byte>)
    ensures Suffix(Kept([], stream), stream) && Viable(Kept([], stream))
  {
    hide Next, Viable;
    if stream == [] {
      EmptyViable();
    } else {
      var n := |stream| - 1;
      KeptIsTail(stream[..n]);
      KeptStep(Kept([], stream[..n]), stream[n]);
      assert stream[..n] + [stream[n]] == stream;
      SuffixExtends(Kept([], stream[..n]), stream[..n], stream[n]);
      SuffixTrans(Kept([], stream), Kept([], stream[..n]) + [stream[n]], stream);
    }
  }

  lemma EmptyViable()
    ensures Viable([])
  {
  }

  lemma SuffixExtends(s: seq<byte>, stream: seq<byte>, b: byte)
    requires Suffix(s, stream)
    ensures Suffix(s + [b], stream + [b])
  {
  }

  lemma SuffixTrans(a: seq<byte>, b: seq<byte>, c: seq<byte>)
    requires Suffix(a, b) && Suffix(b, c)
    ensures Suffix(a, c)
  {
    assert b[|b| - |a|..] == c[|c| - |b|..][|b| - |a|..];
  }

  /** The encodings of the frames lie in the stream as separate blocks, in that order. */
  ghost predicate Blocks(frames: seq<Frame>, stream: seq<byte>)
  {
    if frames == [] then true
    else
      var f := frames[|frames| - 1];
      Encodable(f) && exists k :: BlockAt(f, stream, k) && Blocks(frames[..|frames| - 1], stream[..k])
  }

  predicate BlockAt(f: Frame, stream: seq<byte>, k: int)
  {
    Encodable(f) && 0 <= k && k + |Encoding(f)| <= |stream| && stream[k..k + |Encoding(f)|] == Encoding(f)
  }

  lemma {:induction false} BlocksExtend(frames: seq<Frame>, stream: seq<byte>, m: nat)
    requires m <= |stream| && Blocks(frames, stream[..m])
    ensures Blocks(frames, stream)
  {
    hide Encoding, Encodable;
    if frames != [] {
      var f := frames[|frames| - 1];
      var k :| BlockAt(f, stream[..m], k) && Blocks(frames[..|frames| - 1], stream[..m][..k]);
      assert stream[..m][..k] == stream[..k];
      assert BlockAt(f, stream, k);
    }
  }

  /** A candidate that became a frame: the frame's block ends where the stream ends. */
  lemma BlocksAppend(frames: seq<Frame>, stream: seq<byte>, f: Frame, m: nat)
    requires m <= |stream| && Blocks(frames, stream[..m])
    requires Encodable(f) && stream[m..] == Encoding(f)
    ensures Blocks(frames + [f], stream)
  {
    hide Encoding, Encodable;
    assert BlockAt(f, stream, m);
    assert (frames + [f])[..|frames|] == frames;
  }

  lemma FoundStep(p: seq<byte>, b: byte)
    ensures match Found(p, b)
            case None => true
            case Some(f) => Encodable(f) && p + [b] == Encoding(f) && Next(p, b) == []
  {
    hide Encoding, Genuine, WellFormed, Encodable, Restart;
    var q := p + [b];
    if Complete(q) && Genuine(q) {
      GenuineIsEncoding(q);
    }
  }

  /** Soundness: every delivered frame, encoded again, is exactly the bytes last received, and frames never share
      a byte or change order. */
  lemma {:induction false} Sound(stream: seq<byte>)
    ensures Suffix(Kept([], stream), stream)
    ensures Blocks(Delivered([], stream), stream[..|stream| - |Kept([], stream)|])
    ensures stream != [] ==>
              match Found(Kept([], stream[..|stream| - 1]), stream[|stream| - 1])
              case None => true
              case Some(f) => Encodable(f) && Suffix(Encoding(f), stream)
  {
    hide Encoding, Encodable, Blocks, Next, Found;
    KeptIsTail(stream);
    if stream == [] {
      assert Blocks([], []) by { NoBlocks([]); }
    } else {
      var n := |stream| - 1;
      var before, b := stream[..n], stream[n];
      Sound(before);
      var p, frames := Kept([], before), Delivered([], before);
      var m := n - |p|;
      assert before[..m] == stream[..m];
      SoundStep(stream, p, frames, m, b);
      assert Kept([], stream) == Next(p, b);
      assert frames + [] == frames && stream[..|stream|] == stream;
    }
  }

  lemma NoBlocks(stream: seq<byte>)
    ensures Blocks([], stream)
  {
  }

  lemma {:induction false} SoundStep(stream: seq<byte>, p: seq<byte>, frames: seq<Frame>, m: nat, b: byte)
    requires m <= |stream| && stream[m..] == p + [b] && Blocks(frames, stream[..m])
    ensures |Next(p, b)| <= |stream|
    ensures match Found(p, b)
            case None => Blocks(frames, stream[..|stream| - |Next(p, b)|])
            case Some(f) =>
              Encodable(f) && Suffix(Encoding(f), stream) && Blocks(frames + [f], stream) && Next(p, b) == []
  {
    hide Encoding, Encodable, Next, Found, Blocks;
    FoundStep(p, b);
    KeptStep(p, b);
    match Found(p, b)
    case None =>
      var later := stream[..|stream| - |Next(p, b)|];
      assert later[..m] == stream[..m];
      BlocksExtend(frames, later, m);
    case Some(f) =>
      BlocksAppend(frames, stream, f, m);
  }

  // ---------- Completeness ----------

  /** Every proper beginning of an encoding may still become a frame, and the whole is a genuine one. */
  lemma EncodingIsGenuine(f: Frame)
    requires Encodable(f)
    ensures Complete(Encoding(f)) && Genuine(Encoding(f)) && FrameOf(Encoding(f)) == f
  {
    hide Crc16.FeedAll, High, Low, Count, AsWord, Join;
    var w := Encoding(f);
    var n := |w| - CRC_SIZE;
    assert w[2..n] == Body(f);
    assert w[6] == High(AsWord(|f.payload|)) && w[7] == Low(AsWord(|f.payload|));
    JoinSplits(AsWord(|f.payload|));
    AsWordRoundTrip(|f.payload|);
    JoinSplits(f.sequence);
    JoinSplits(Check(Body(f)));
    assert w[HEADER_SIZE..n] == f.payload;
  }

  lemma BeginningIsViable(w: seq<byte>, k: nat)
    requires Complete(w) && k < |w|
    ensures Viable(w[..k])
  {
    hide Count, Join;
  }

  /** From a state that waits for magic, a candidate is kept up to any point before its end. */
  lemma {:induction false} Tracks(p: seq<byte>, w: seq<byte>, k: nat)
    requires p == [] || p == [MAGIC_0]
    requires 0 < k <= |w| && forall j {:trigger w[..j]} :: 0 < j <= k ==> Viable(w[..j])
    ensures Kept(p, w[..k]) == w[..k] && Delivered(p, w[..k]) == []
  {
    hide Viable, Complete, Genuine, Restart;
    assert w[..k][..k - 1] == w[..k - 1];
    assert Viable(w[..k]);
    assert w[..k - 1] + [w[k - 1]] == w[..k];
    NotBoth(w[..k]);
    if k > 1 {
      Tracks(p, w, k - 1);
    } else {
      FirstByteKept(p, w[0]);
    }
  }

  lemma NotBoth(q: seq<byte>)
    ensures !(Viable(q) && Complete(q))
  {
  }

  lemma FirstByteKept(p: seq<byte>, b: byte)
    requires p == [] || p == [MAGIC_0]
    requires Viable([b])
    ensures Next(p, b) == [b] && Found(p, b) == None
  {
  }

  lemma {:induction false} OneFrame(p: seq<byte>, f: Frame)
    requires p == [] || p == [MAGIC_0]
    requires Encodable(f)
    ensures Kept(p, Encoding(f)) == [] && Delivered(p, Encoding(f)) == [f]
  {
    hide Viable, Complete, Genuine, Encoding, Encodable;
    var w := Encoding(f);
    EncodingIsGenuine(f);
    var n := |w| - 1;
    forall j | 0 < j <= n
      ensures Viable(w[..j])
    {
      BeginningIsViable(w, j);
    }
    Tracks(p, w, n);
    assert w[..n] + [w[n]] == w;
    NotBoth(w);
  }

  /** Noise without the first magic byte. */
  predicate Quiet(noise: seq<byte>)
  {
    forall i :: 0 <= i < |noise| ==> noise[i] != MAGIC_0
  }

  lemma {:induction false} NoiseIsDropped(p: seq<byte>, noise: seq<byte>)
    requires p == [] && Quiet(noise)
    ensures Kept(p, noise) == [] && Delivered(p, noise) == []
  {
    if noise != [] {
      NoiseIsDropped(p, noise[..|noise| - 1]);
    }
  }

  predicate AllEncodable(frames: seq<Frame>)
  {
    forall i :: 0 <= i < |frames| ==> Encodable(frames[i])
  }

  /** Frames on the wire, each followed by noise. */
  function Wire(frames: seq<Frame>, noise: seq<seq<byte>>): seq<byte>
    requires |noise| == |frames| && AllEncodable(frames)
  {
    if frames == [] then []
    else
      var n := |frames| - 1;
      Wire(frames[..n], noise[..n]) + Encoding(frames[n]) + noise[n]
  }

  /** Completeness: from a state that waits for magic, any run of encodings is delivered exactly, in order, also
      with noise between them as long as no noise byte looks like the start of magic. */
  lemma {:induction false} DeliversAll(p: seq<byte>, frames: seq<Frame>, noise: seq<seq<byte>>)
    requires p == [] || p == [MAGIC_0]
    requires |noise| == |frames| && AllEncodable(frames)
    requires forall i :: 0 <= i < |noise| ==> Quiet(noise[i])
    ensures Delivered(p, Wire(frames, noise)) == frames
    ensures Kept(p, Wire(frames, noise)) == if frames == [] then p else []
  {
    hide Kept, Delivered, Encoding, Quiet, Encodable;
    if frames == [] {
      NothingYet(p);
    } else {
      var n := |frames| - 1;
      var before := Wire(frames[..n], noise[..n]);
      DeliversAll(p, frames[..n], noise[..n]);
      var at := Kept(p, before);
      StreamsCompose(p, before, Encoding(frames[n]));
      StreamsCompose(p, before + Encoding(frames[n]), noise[n]);
      OneFrame(at, frames[n]);
      NoiseIsDropped([], noise[n]);
    }
  }

  lemma NothingYet(p: seq<byte>)
    ensures Kept(p, []) == p && Delivered(p, []) == []
  {
  }

  // ---------- Corruption ----------

  /** The corruption leaves magic, version and length bytes alone. */
  predicate SparesFormat(e: seq<byte>)
  {
    |e| >= HEADER_SIZE && e[0] == 0 && e[1] == 0 && e[2] == 0 && e[6] == 0 && e[7] == 0
  }

  lemma ByteUnchanged(b: byte)
    ensures Crc16.ByteSum(b, 0) == b
  {
  }

  lemma CorruptedIsComplete(w: seq<byte>, e: seq<byte>)
    requires Complete(w) && |e| == |w| && SparesFormat(e)
    ensures Complete(Crc16.Xor(w, e))
  {
    hide Count, Join, Crc16.ByteSum;
    forall i | 0 <= i < |w| && e[i] == 0
      ensures Crc16.Xor(w, e)[i] == w[i]
    {
      ByteUnchanged(w[i]);
    }
  }

  /** The burst seen from the first byte the CRC covers. */
  lemma BurstAfterMagic(e: seq<byte>, start: nat)
    requires Within16(e, start) && SparesFormat(e) && !Crc16.Zeroes(e)
    ensures Within16(e[2..], if start < 16 then 0 else start - 16)
    ensures !Crc16.Zeroes(e[2..])
  {
    hide ByteBit;
    forall i | 0 <= i < 8 * |e[2..]| && Bit(e[2..], i)
      ensures start <= i + 16 < start + 16
    {
      assert Bit(e, i + 16);
    }
    var j :| 0 <= j < |e| && e[j] != 0;
    assert e[2..][j - 2] == e[j];
  }

  lemma {:induction false} CorruptedIsNotGenuine(f: Frame, e: seq<byte>, start: nat)
    requires Encodable(f) && |e| == |Encoding(f)| && SparesFormat(e)
    requires Within16(e, start) && !Crc16.Zeroes(e)
    ensures Complete(Crc16.Xor(Encoding(f), e)) && !Genuine(Crc16.Xor(Encoding(f), e))
  {
    hide Crc16.FeedAll, Crc16.ByteSum, High, Low, Join, Complete, Header, Within16, Crc16.Zeroes, SparesFormat;
    var w := Encoding(f);
    var r := Crc16.Xor(w, e);
    var n := |w| - CRC_SIZE;
    EncodingIsGenuine(f);
    CorruptedIsComplete(w, e);
    BurstAfterMagic(e, start);
    var arrived, hi, lo := r[2..n], r[n], r[n + 1];
    assert w[2..] == Sealed(Body(f));
    CorruptedTail(w, e, arrived, hi, lo, n);
    BurstDetected(Body(f), e[2..], if start < 16 then 0 else start - 16, arrived, hi, lo);
    SplitJoins(hi, lo);
  }

  lemma CorruptedTail(w: seq<byte>, e: seq<byte>, arrived: seq<byte>, hi: byte, lo: byte, n: nat)
    requires |w| == |e| == n + 2 && n >= 2
    requires arrived == Crc16.Xor(w, e)[2..n] && hi == Crc16.Xor(w, e)[n] && lo == Crc16.Xor(w, e)[n + 1]
    ensures arrived + [hi, lo] == Crc16.Xor(w[2..], e[2..])
  {
    hide Crc16.ByteSum;
  }

  /** A frame hit by any burst of up to 16 bits outside the magic, version and length bytes is never delivered, nor
      is anything else made of its bytes. */
  lemma {:induction false} BurstIsRejected(p: seq<byte>, f: Frame, e: seq<byte>, start: nat)
    requires p == [] || p == [MAGIC_0]
    requires Encodable(f) && |e| == |Encoding(f)| && SparesFormat(e)
    requires Within16(e, start) && !Crc16.Zeroes(e)
    ensures Delivered(p, Crc16.Xor(Encoding(f), e)) == []
    ensures Kept(p, Crc16.Xor(Encoding(f), e)) == Restart(Crc16.Xor(Encoding(f), e))
  {
    hide Viable, Complete, Genuine, Encoding, Encodable, SparesFormat, Within16, Crc16.Zeroes, Restart, Crc16.ByteSum;
    CorruptedIsNotGenuine(f, e, start);
    var w := Crc16.Xor(Encoding(f), e);
    var n := |w| - 1;
    forall j | 0 < j <= n
      ensures Viable(w[..j])
    {
      BeginningIsViable(w, j);
    }
    Tracks(p, w, n);
    assert w[..n] + [w[n]] == w;
    NotBoth(w);
  }

  // ---------- Resynchronisation ----------

  /** An upper bound on how many bytes other than the first magic byte can still be held on to. */
  function Rank(p: seq<byte>): int
  {
    if p == [] then 0
    else if p[|p| - 1] == MAGIC_0 then MAX_WIRE_SIZE - 1
    else MAX_WIRE_SIZE - |p|
  }

  lemma RankFalls(p: seq<byte>, b: byte)
    requires Viable(p) && b != MAGIC_0
    ensures Viable(Next(p, b)) && 0 <= Rank(p) <= MAX_WIRE_SIZE - 1
    ensures p == [] ==> Next(p, b) == []
    ensures p != [] ==> 0 <= Rank(Next(p, b)) < Rank(p)
  {
    hide Count, Join, Genuine;
  }

  lemma {:induction false} RankAfter(p: seq<byte>, noise: seq<byte>)
    requires Viable(p) && Quiet(noise)
    ensures Viable(Kept(p, noise))
    ensures 0 <= Rank(Kept(p, noise))
    ensures Kept(p, noise) == [] || Rank(Kept(p, noise)) <= Rank(p) - |noise|
  {
    hide Viable, Next, Rank;
    if noise != [] {
      RankAfter(p, noise[..|noise| - 1]);
      RankFalls(Kept(p, noise[..|noise| - 1]), noise[|noise| - 1]);
    } else {
      RankFalls(p, 0);
    }
  }

  /** Any 73 bytes without the first magic byte bring the scanner back to an empty candidate. */
  lemma {:induction false} Resynchronises(p: seq<byte>, noise: seq<byte>)
    requires Viable(p) && Quiet(noise) && |noise| >= MAX_WIRE_SIZE - 1
    ensures Kept(p, noise) == []
  {
    RankAfter(p, noise);
    if Kept(p, noise) != [] {
      RankFalls(p, 0);
      assert Rank(Kept(p, noise)) == 0;
      RankFalls(Kept(p, noise), 0);
    }
  }

  /** And 72 do not always suffice. */
  lemma {:induction false} ResynchronisationIsTight()
    ensures exists p, noise :: Viable(p) && Quiet(noise) && |noise| == MAX_WIRE_SIZE - 2 && Kept(p, noise) != []
  {
    hide Kept, Delivered;
    var head := [MAGIC_0, MAGIC_1, VERSION, 0, 0, 0, 0, 64];
    var w := head + seq(65, _ => 0 as byte);
    assert Count(Join(0, 64)) == 64 by { SixtyFour(); }
    forall j | 0 < j <= 73
      ensures Viable(w[..j])
    {
    }
    Tracks([], w, 73);
    Tracks([], w, 1);
    assert w[..73] == [MAGIC_0] + w[1..];
    assert w[..1] == [MAGIC_0];
    StreamsCompose([], [MAGIC_0], w[1..]);
    assert Quiet(w[1..]);
    assert Viable([MAGIC_0]) && Kept([MAGIC_0], w[1..]) != [];
  }

  lemma SixtyFour()
    ensures Count(Join(0, 64)) == 64
  {
    AsWordRoundTrip(64);
    assert Join(0, 64) == 64;
  }
}
