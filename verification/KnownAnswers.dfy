/** How the digest of a known message is established: a trace of the compression, four rounds at a
    time, in literals. */
module KnownAnswers {
  import opened Bytes
  import opened Sha256Spec

  /** Four rounds: their schedule words and the working variables after them. */
  datatype Four = Four(w0: word, w1: word, w2: word, w3: word, end: Working)

  /** The words of x follow those of a, b, c and d in the schedule. */
  predicate NextWords(a: Four, b: Four, c: Four, d: Four, x: Four) {
    && x.w0 == ScheduleWord(d.w2, c.w1, a.w1, a.w0)
    && x.w1 == ScheduleWord(d.w3, c.w2, a.w2, a.w1)
    && x.w2 == ScheduleWord(x.w0, c.w3, a.w3, a.w2)
    && x.w3 == ScheduleWord(x.w1, d.w0, b.w0, a.w3)
  }

  /** Rounds t to t + 3 on the words of x lead from v to x.end. */
  predicate NextState(v: Working, x: Four, t: nat)
    requires t < 61
  {
    var n := x.end;
    && Round(v, K(t), x.w0) == Working(n.d, v.a, v.b, v.c, n.h, v.e, v.f, v.g)
    && Round(Working(n.d, v.a, v.b, v.c, n.h, v.e, v.f, v.g), K(t + 1), x.w1)
       == Working(n.c, n.d, v.a, v.b, n.g, n.h, v.e, v.f)
    && Round(Working(n.c, n.d, v.a, v.b, n.g, n.h, v.e, v.f), K(t + 2), x.w2)
       == Working(n.b, n.c, n.d, v.a, n.f, n.g, n.h, v.e)
    && Round(Working(n.b, n.c, n.d, v.a, n.f, n.g, n.h, v.e), K(t + 3), x.w3) == n
  }

  function StateOf(h: HashValue): Working { Working(h[0], h[1], h[2], h[3], h[4], h[5], h[6], h[7]) }

  /** Words t to t + 3 of the schedule are those of x. */
  predicate HoldsWords(block: Block, t: nat, x: Four)
    requires t < 61
  {
    W(block, t) == x.w0 && W(block, t + 1) == x.w1 && W(block, t + 2) == x.w2 && W(block, t + 3) == x.w3
  }

  /** The first sixteen rounds, whose words are loaded from the block. */
  lemma LoadedRounds(h: HashValue, block: Block, t: nat, v: Working, x: Four)
    requires t < 16 && HoldsWords(block, t, x)
    requires Rounds(h, block, t) == v && NextState(v, x, t)
    ensures Rounds(h, block, t + 4) == x.end
  {
    hide K, W, Round;
    assert Rounds(h, block, t + 1) == Round(v, K(t), x.w0);
    assert Rounds(h, block, t + 2) == Round(Rounds(h, block, t + 1), K(t + 1), x.w1);
    assert Rounds(h, block, t + 3) == Round(Rounds(h, block, t + 2), K(t + 2), x.w2);
  }

  /** After t rounds: the last sixteen words, and the working variables. */
  predicate Reached(h: HashValue, block: Block, t: nat, a: Four, b: Four, c: Four, d: Four)
    requires 16 <= t <= 64
  {
    && HoldsWords(block, t - 16, a) && HoldsWords(block, t - 12, b)
    && HoldsWords(block, t - 8, c) && HoldsWords(block, t - 4, d)
    && Rounds(h, block, t) == d.end
  }

  /** Four of the other rounds. */
  lemma ScheduledRounds(h: HashValue, block: Block, t: nat, a: Four, b: Four, c: Four, d: Four, x: Four)
    requires 16 <= t < 61 && Reached(h, block, t, a, b, c, d)
    requires NextWords(a, b, c, d, x) && NextState(d.end, x, t)
    ensures Reached(h, block, t + 4, b, c, d, x)
  {
    ScheduledWords(block, t, a, b, c, d, x);
    hide K, W, Round, NextWords;
    assert Rounds(h, block, t + 1) == Round(d.end, K(t), x.w0);
    assert Rounds(h, block, t + 2) == Round(Rounds(h, block, t + 1), K(t + 1), x.w1);
    assert Rounds(h, block, t + 3) == Round(Rounds(h, block, t + 2), K(t + 2), x.w2);
  }

  lemma ScheduledWords(block: Block, t: nat, a: Four, b: Four, c: Four, d: Four, x: Four)
    requires 16 <= t < 61
    requires HoldsWords(block, t - 16, a) && HoldsWords(block, t - 12, b)
    requires HoldsWords(block, t - 8, c) && HoldsWords(block, t - 4, d)
    requires NextWords(a, b, c, d, x)
    ensures HoldsWords(block, t, x)
  {
    hide ScheduleWord, WordOfBytes;
    assert W(block, t) == x.w0;
    assert W(block, t + 1) == x.w1;
    assert W(block, t + 2) == x.w2;
  }

  lemma NoRounds(h: HashValue, block: Block)
    ensures Rounds(h, block, 0) == StateOf(h)
  {
  }

  /** d is the hash value h plus the working variables v. */
  predicate AddsUpTo(h: HashValue, v: Working, d: HashValue) {
    && d[0] == Sum(h[0], v.a) && d[1] == Sum(h[1], v.b) && d[2] == Sum(h[2], v.c) && d[3] == Sum(h[3], v.d)
    && d[4] == Sum(h[4], v.e) && d[5] == Sum(h[5], v.f) && d[6] == Sum(h[6], v.g) && d[7] == Sum(h[7], v.h)
  }

  lemma LastSums(h: HashValue, block: Block, d: HashValue)
    requires AddsUpTo(h, Rounds(h, block, 64), d)
    ensures Compress(h, block) == d
  {
    hide Rounds, Sum;
  }

  // ----- Messages and digests -----

  lemma OneBlock(p: seq<byte>)
    requires |p| == 64
    ensures Blocks(IV, p) == Compress(IV, p)
  {
    hide Compress;
    assert p[..0] == [] && p[0..] == p;
  }

  lemma TwoBlocks(p: seq<byte>)
    requires |p| == 128
    ensures Blocks(IV, p) == Compress(Compress(IV, p[..64]), p[64..])
  {
    hide Compress;
    OneBlock(p[..64]);
  }

  /** The length field of a message of fewer than 2^13 bytes. */
  lemma ShortLength(l: nat)
    requires l < 0x10000
    ensures LengthField(l) == [0, 0, 0, 0, 0, 0, LowByte(l / 256), LowByte(l)]
  {
    hide LowByte;
    ZeroBytes(6);
    assert l / 256 / 256 == 0;
    assert BytesOfNat(7, l / 256) == BytesOfNat(6, 0) + [LowByte(l / 256)];
    assert BytesOfNat(8, l) == BytesOfNat(7, l / 256) + [LowByte(l)];
  }

  lemma {:induction false} ZeroBytes(n: nat)
    ensures BytesOfNat(n, 0) == seq(n, _ => 0)
  {
    if n > 0 {
      ZeroBytes(n - 1);
      assert LowByte(0) == 0;
    }
  }

  /** Word i of h is bytes 4 * i to 4 * i + 3 of d, big-endian. */
  predicate Spells(h: HashValue, d: Digest, i: nat)
    requires i < 8
  {
    h[i] == WordOfBytes(d[4 * i], d[4 * i + 1], d[4 * i + 2], d[4 * i + 3])
  }

  lemma DigestSpelledOut(h: HashValue, d: Digest)
    requires forall i :: 0 <= i < 8 ==> Spells(h, d, i)
    ensures DigestOf(h) == d
  {
    hide BytesOfWord, WordOfBytes;
    forall i | 0 <= i < 32
      ensures DigestOf(h)[i] == d[i]
    {
      var j := i / 4;
      BytesOfLoadedWord(d[4 * j], d[4 * j + 1], d[4 * j + 2], d[4 * j + 3]);
      assert Spells(h, d, j);
    }
  }

  lemma ShortMessage(m: seq<byte>, h: HashValue, d: Digest)
    requires |Pad(m)| == 64 && Compress(IV, Pad(m)) == h && forall i :: 0 <= i < 8 ==> Spells(h, d, i)
    ensures Sha256(m) == d
  {
    hide Pad, Blocks, Compress, DigestOf, Spells;
    OneBlock(Pad(m));
    DigestSpelledOut(h, d);
  }

  lemma TwoBlockMessage(m: seq<byte>, g: HashValue, h: HashValue, d: Digest)
    requires |Pad(m)| == 128 && Compress(IV, Pad(m)[..64]) == g && Compress(g, Pad(m)[64..]) == h
    requires forall i :: 0 <= i < 8 ==> Spells(h, d, i)
    ensures Sha256(m) == d
  {
    hide Pad, Blocks, Compress, DigestOf, Spells;
    TwoBlocks(Pad(m));
    DigestSpelledOut(h, d);
  }

  /** A message of fewer than four bytes: one block, all zero between the first word and the last. */
  lemma TinyMessage(m: seq<byte>)
    requires |m| < 4
    ensures var p := Pad(m); |p| == 64 && W(p, 0) == WordOfBytes(p[0], p[1], p[2], p[3])
    ensures forall t :: 1 <= t < 15 ==> W(Pad(m), t) == 0
    ensures W(Pad(m), 15) == WordOfBytes(0, 0, 0, LowByte(8 * |m|))
  {
    hide Pad, LengthField, WordOfBytes, LowByte;
    PadBytes(m);
    ShortLength(8 * |m|);
    HighByteOfShort(|m|);
    ZeroWord();
    var p := Pad(m);
    forall t | 1 <= t < 15
      ensures W(p, t) == 0
    {
      assert forall i :: 4 * t <= i < 4 * t + 4 ==> p[i] == 0;
    }
  }

  lemma ZeroWord()
    ensures WordOfBytes(0, 0, 0, 0) == 0
  {
  }

  lemma HighByteOfShort(n: nat)
    requires n < 32
    ensures LowByte(8 * n / 256) == 0
  {
  }

  // ----- The round constants, eight at a time -----

  lemma Constants0()
    ensures K(0) == 0x428a2f98 && K(1) == 0x71374491 && K(2) == 0xb5c0fbcf && K(3) == 0xe9b5dba5
    ensures K(4) == 0x3956c25b && K(5) == 0x59f111f1 && K(6) == 0x923f82a4 && K(7) == 0xab1c5ed5
  {
  }

  lemma Constants8()
    ensures K(8) == 0xd807aa98 && K(9) == 0x12835b01 && K(10) == 0x243185be && K(11) == 0x550c7dc3
    ensures K(12) == 0x72be5d74 && K(13) == 0x80deb1fe && K(14) == 0x9bdc06a7 && K(15) == 0xc19bf174
  {
  }

  lemma Constants16()
    ensures K(16) == 0xe49b69c1 && K(17) == 0xefbe4786 && K(18) == 0x0fc19dc6 && K(19) == 0x240ca1cc
    ensures K(20) == 0x2de92c6f && K(21) == 0x4a7484aa && K(22) == 0x5cb0a9dc && K(23) == 0x76f988da
  {
  }

  lemma Constants24()
    ensures K(24) == 0x983e5152 && K(25) == 0xa831c66d && K(26) == 0xb00327c8 && K(27) == 0xbf597fc7
    ensures K(28) == 0xc6e00bf3 && K(29) == 0xd5a79147 && K(30) == 0x06ca6351 && K(31) == 0x14292967
  {
  }

  lemma Constants32()
    ensures K(32) == 0x27b70a85 && K(33) == 0x2e1b2138 && K(34) == 0x4d2c6dfc && K(35) == 0x53380d13
    ensures K(36) == 0x650a7354 && K(37) == 0x766a0abb && K(38) == 0x81c2c92e && K(39) == 0x92722c85
  {
  }

  lemma Constants40()
    ensures K(40) == 0xa2bfe8a1 && K(41) == 0xa81a664b && K(42) == 0xc24b8b70 && K(43) == 0xc76c51a3
    ensures K(44) == 0xd192e819 && K(45) == 0xd6990624 && K(46) == 0xf40e3585 && K(47) == 0x106aa070
  {
  }

  lemma Constants48()
    ensures K(48) == 0x19a4c116 && K(49) == 0x1e376c08 && K(50) == 0x2748774c && K(51) == 0x34b0bcb5
    ensures K(52) == 0x391c0cb3 && K(53) == 0x4ed8aa4a && K(54) == 0x5b9cca4f && K(55) == 0x682e6ff3
  {
  }

  lemma Constants56()
    ensures K(56) == 0x748f82ee && K(57) == 0x78a5636f && K(58) == 0x84c87814 && K(59) == 0x8cc70208
    ensures K(60) == 0x90befffa && K(61) == 0xa4506ceb && K(62) == 0xbef9a3f7 && K(63) == 0xc67178f2
  {
  }
}
