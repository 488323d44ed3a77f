/** The SHA-256 hash function, transcribed from FIPS 180-4 as a mathematical
    definition on byte sequences.  It is the reference that the buffered
    implementation in module Sha256Impl is proved against, and the function H of the
    Merkle tree modules. */
module Sha256Spec {
  import opened Bytes
  import opened Primes

  type word = bv32
  type Block = b: seq<byte> | |b| == 64 witness seq(64, _ => 0)
  type HashValue = h: seq<word> | |h| == 8 witness seq(8, _ => 0)

  const TWO64: nat := 0x1_00000000_00000000

  // ----- Section 4.1.2: the six logical functions -----

  function Ch(x: word, y: word, z: word): word { (x & y) ^ (!x & z) }

  function Maj(x: word, y: word, z: word): word { (x & y) ^ (x & z) ^ (y & z) }

  /** Ch takes the bits of y where x has ones, and those of z elsewhere. */
  lemma ChSelects(x: word, y: word, z: word)
    ensures Ch(x, y, z) & x == y & x
    ensures Ch(x, y, z) & !x == z & !x
  {
  }

  /** Maj takes the bits of x and y where they agree, and those of z elsewhere. */
  lemma MajDecides(x: word, y: word, z: word)
    ensures Maj(x, y, z) & !(x ^ y) == x & !(x ^ y)
    ensures Maj(x, y, z) & (x ^ y) == z & (x ^ y)
  {
  }

  function BigSigma0(x: word): word { x.RotateRight(2) ^ x.RotateRight(13) ^ x.RotateRight(22) }

  function BigSigma1(x: word): word { x.RotateRight(6) ^ x.RotateRight(11) ^ x.RotateRight(25) }

  function SmallSigma0(x: word): word { x.RotateRight(7) ^ x.RotateRight(18) ^ (x >> 3) }

  function SmallSigma1(x: word): word { x.RotateRight(17) ^ x.RotateRight(19) ^ (x >> 10) }

  // ----- Sections 4.2.2 and 5.3.3: the constants -----

  const K_ROWS: seq<seq<word>> := [
    [0x428a2f98, 0x71374491, 0xb5c0fbcf, 0xe9b5dba5, 0x3956c25b, 0x59f111f1, 0x923f82a4, 0xab1c5ed5],
    [0xd807aa98, 0x12835b01, 0x243185be, 0x550c7dc3, 0x72be5d74, 0x80deb1fe, 0x9bdc06a7, 0xc19bf174],
    [0xe49b69c1, 0xefbe4786, 0x0fc19dc6, 0x240ca1cc, 0x2de92c6f, 0x4a7484aa, 0x5cb0a9dc, 0x76f988da],
    [0x983e5152, 0xa831c66d, 0xb00327c8, 0xbf597fc7, 0xc6e00bf3, 0xd5a79147, 0x06ca6351, 0x14292967],
    [0x27b70a85, 0x2e1b2138, 0x4d2c6dfc, 0x53380d13, 0x650a7354, 0x766a0abb, 0x81c2c92e, 0x92722c85],
    [0xa2bfe8a1, 0xa81a664b, 0xc24b8b70, 0xc76c51a3, 0xd192e819, 0xd6990624, 0xf40e3585, 0x106aa070],
    [0x19a4c116, 0x1e376c08, 0x2748774c, 0x34b0bcb5, 0x391c0cb3, 0x4ed8aa4a, 0x5b9cca4f, 0x682e6ff3],
    [0x748f82ee, 0x78a5636f, 0x84c87814, 0x8cc70208, 0x90befffa, 0xa4506ceb, 0xbef9a3f7, 0xc67178f2]
  ]

  function K(t: nat): word
    requires t < 64
  {
    K_ROWS[t / 8][t % 8]
  }

  const IV: HashValue := [
    0x6a09e667, 0xbb67ae85, 0x3c6ef372, 0xa54ff53a, 0x510e527f, 0x9b05688c, 0x1f83d9ab, 0x5be0cd19
  ]

  /** w holds the first 32 bits of the fractional part of the cube root of p. */
  ghost predicate IsCubeRootFraction(p: nat, w: word) {
    exists q: nat :: IsCubeRootWith(p, q, w)
  }

  ghost predicate IsCubeRootWith(p: nat, q: nat, w: word) {
    var x := q * 0x1_0000_0000 + w as int;
    x * x * x <= p * 0x1_00000000_00000000_00000000 < (x + 1) * (x + 1) * (x + 1)
  }

  /** w holds the first 32 bits of the fractional part of the square root of p. */
  ghost predicate IsSquareRootFraction(p: nat, w: word) {
    exists q: nat :: IsSquareRootWith(p, q, w)
  }

  ghost predicate IsSquareRootWith(p: nat, q: nat, w: word) {
    var x := q * 0x1_0000_0000 + w as int;
    x * x <= p * 0x1_00000000_00000000 < (x + 1) * (x + 1)
  }

  // ----- Section 3.1: big-endian words -----

  function WordOfBytes(b0: byte, b1: byte, b2: byte, b3: byte): word {
    (b0 as word << 24) | (b1 as word << 16) | (b2 as word << 8) | b3 as word
  }

  function BytesOfWord(w: word): (bs: seq<byte>)
    ensures |bs| == 4
    ensures WordOfBytes(bs[0], bs[1], bs[2], bs[3]) == w
  {
    [(w >> 24) as byte, ((w >> 16) & 0xff) as byte, ((w >> 8) & 0xff) as byte, (w & 0xff) as byte]
  }

  lemma BytesOfLoadedWord(b0: byte, b1: byte, b2: byte, b3: byte)
    ensures BytesOfWord(WordOfBytes(b0, b1, b2, b3)) == [b0, b1, b2, b3]
  {
  }

  // ----- Section 6.2.2: the hash computation -----

  /** Addition modulo 2^32. */
  function Sum(x: word, y: word): word { x + y }

  /** Sum drops the carry of the addition in 64 bits. */
  lemma SumDropsCarry(x: word, y: word)
    ensures Sum(x, y) as bv64 == (x as bv64 + y as bv64) & 0xffff_ffff
  {
  }

  function ScheduleWord(w2: word, w7: word, w15: word, w16: word): word {
    Sum(Sum(Sum(SmallSigma1(w2), w7), SmallSigma0(w15)), w16)
  }

  /** Step 1: word t of the message schedule. */
  function W(block: Block, t: nat): word
    requires t < 64
  {
    if t < 16 then
      WordOfBytes(block[4 * t], block[4 * t + 1], block[4 * t + 2], block[4 * t + 3])
    else
      ScheduleWord(W(block, t - 2), W(block, t - 7), W(block, t - 15), W(block, t - 16))
  }

  datatype Working = Working(a: word, b: word, c: word, d: word, e: word, f: word, g: word, h: word)

  function T1(v: Working, k: word, w: word): word {
    Sum(Sum(Sum(Sum(v.h, BigSigma1(v.e)), Ch(v.e, v.f, v.g)), k), w)
  }

  function T2(v: Working): word {
    Sum(BigSigma0(v.a), Maj(v.a, v.b, v.c))
  }

  function Round(v: Working, k: word, w: word): Working {
    Working(Sum(T1(v, k, w), T2(v)), v.a, v.b, v.c, Sum(v.d, T1(v, k, w)), v.e, v.f, v.g)
  }

  /** Steps 2 and 3: the working variables after t rounds. */
  function Rounds(h: HashValue, block: Block, t: nat): Working
    requires t <= 64
  {
    if t == 0 then
      Working(h[0], h[1], h[2], h[3], h[4], h[5], h[6], h[7])
    else
      Round(Rounds(h, block, t - 1), K(t - 1), W(block, t - 1))
  }

  /** Step 4: the next intermediate hash value. */
  function Compress(h: HashValue, block: Block): HashValue {
    var v := Rounds(h, block, 64);
    [Sum(h[0], v.a), Sum(h[1], v.b), Sum(h[2], v.c), Sum(h[3], v.d),
     Sum(h[4], v.e), Sum(h[5], v.f), Sum(h[6], v.g), Sum(h[7], v.h)]
  }

  /** Section 5.2.1 and the outer loop of section 6.2.2: the hash value after all blocks of m. */
  function Blocks(h: HashValue, m: seq<byte>): HashValue
    requires |m| % 64 == 0
  {
    if m == [] then h else Compress(Blocks(h, m[..|m| - 64]), m[|m| - 64..])
  }

  // ----- Section 5.1.1: padding -----

  function Zeros(n: nat): seq<byte> { seq(n, _ => 0) }

  /** z zero bytes after n message bytes and the byte 0x80 leave room for exactly the length field. */
  predicate Aligns(n: nat, z: nat) {
    (n + 1 + z) % 64 == 56
  }

  /** The smallest number of zero bytes that aligns. */
  function ZeroCount(n: nat): (z: nat)
    ensures Aligns(n, z)
    ensures forall y: nat :: Aligns(n, y) ==> z <= y
  {
    (119 - n % 64) % 64
  }

  /** Conversion of an unsigned integer to a byte keeps the low eight bits. */
  function LowByte(x: nat): byte { (x % 256) as byte }

  /** The number x as n bytes, most significant first. */
  function BytesOfNat(n: nat, x: nat): (bs: seq<byte>)
    ensures |bs| == n
  {
    if n == 0 then [] else BytesOfNat(n - 1, x / 256) + [LowByte(x)]
  }

  /** Reduction to an unsigned 64-bit integer. */
  function Wrap64(x: nat): nat { x % TWO64 }

  lemma Wrap64Keeps(x: nat)
    requires x < TWO64
    ensures Wrap64(x) == x
  {
  }

  lemma Wrap64Sum(x: nat, y: nat)
    ensures Wrap64(Wrap64(x) + y) == Wrap64(x + y)
  {
  }

  /** The 64-bit big-endian representation of l, reduced modulo 2^64. */
  function LengthField(l: nat): (f: seq<byte>)
    ensures |f| == 8
  {
    BytesOfNat(8, Wrap64(l))
  }

  lemma PaddedLength(n: nat)
    ensures (n + 1 + ZeroCount(n) + 8) % 64 == 0
  {
    assert Aligns(n, ZeroCount(n));
  }

  function Pad(m: seq<byte>): (p: seq<byte>)
    ensures |p| % 64 == 0
  {
    PaddedLength(|m|);
    m + ([0x80] + Zeros(ZeroCount(|m|)) + LengthField(8 * |m|))
  }

  function ByteValue(b: byte): nat { b as int }

  /** The value of a big-endian byte string. */
  function BigEndian(bs: seq<byte>): nat {
    if bs == [] then 0 else 256 * BigEndian(bs[..|bs| - 1]) + ByteValue(bs[|bs| - 1])
  }

  function Pow256(n: nat): nat { if n == 0 then 1 else 256 * Pow256(n - 1) }

  lemma ByteRoundTrip(x: nat)
    requires x < 256
    ensures ByteValue(x as byte) == x
  {
  }

  lemma {:induction false} BytesOfNatValue(n: nat, x: nat)
    requires x < Pow256(n)
    ensures BigEndian(BytesOfNat(n, x)) == x
  {
    if n > 0 {
      BytesOfNatValue(n - 1, x / 256);
      ByteRoundTrip(x % 256);
      assert BytesOfNat(n, x)[..n - 1] == BytesOfNat(n - 1, x / 256);
    }
  }

  /** For messages below the standard's bound of 2^64 bits the length field holds the length itself. */
  lemma LengthFieldValue(l: nat)
    ensures BigEndian(LengthField(l)) == Wrap64(l)
  {
    assert Pow256(8) == TWO64;
    BytesOfNatValue(8, Wrap64(l));
  }

  // ----- Section 6.2: SHA-256 -----

  /** The bytes of the eight words, in order. */
  function DigestOf(h: HashValue): Digest {
    seq(32, i requires 0 <= i < 32 => BytesOfWord(h[i / 4])[i % 4])
  }

  function Sha256(m: seq<byte>): Digest {
    DigestOf(Blocks(IV, Pad(m)))
  }

  // ----- Properties of the definitions -----

  function CubeRootFloor(p: nat): nat {
    if p < 8 then 1 else if p < 27 then 2 else if p < 64 then 3 else if p < 125 then 4 else if p < 216 then 5 else 6
  }

  function SquareRootFloor(p: nat): nat {
    if p < 4 then 1 else if p < 9 then 2 else if p < 16 then 3 else 4
  }

  ghost predicate CubeRootRow(ps: seq<nat>, ws: seq<word>, i: nat)
    requires i <= |ps| == |ws|
    decreases |ps| - i
  {
    i == |ps| || (IsCubeRootWith(ps[i], CubeRootFloor(ps[i]), ws[i]) && CubeRootRow(ps, ws, i + 1))
  }

  lemma CubeRootRowAt(ps: seq<nat>, ws: seq<word>, i: nat, j: nat)
    requires i <= j < |ps| == |ws| && CubeRootRow(ps, ws, i)
    ensures IsCubeRootFraction(ps[j], ws[j])
    decreases j - i
  {
    if i < j {
      CubeRootRowAt(ps, ws, i + 1, j);
    }
  }

  lemma Row0()
    ensures CubeRootRow(PRIME_ROWS[0], K_ROWS[0], 0)
  {
  }

  lemma Row1()
    ensures CubeRootRow(PRIME_ROWS[1], K_ROWS[1], 0)
  {
  }

  lemma Row2()
    ensures CubeRootRow(PRIME_ROWS[2], K_ROWS[2], 0)
  {
  }

  lemma Row3()
    ensures CubeRootRow(PRIME_ROWS[3], K_ROWS[3], 0)
  {
  }

  lemma Row4()
    ensures CubeRootRow(PRIME_ROWS[4], K_ROWS[4], 0)
  {
  }

  lemma Row5()
    ensures CubeRootRow(PRIME_ROWS[5], K_ROWS[5], 0)
  {
  }

  lemma Row6()
    ensures CubeRootRow(PRIME_ROWS[6], K_ROWS[6], 0)
  {
  }

  lemma Row7()
    ensures CubeRootRow(PRIME_ROWS[7], K_ROWS[7], 0)
  {
  }

  /** Section 4.2.2: the round constants are the cube roots of the first sixty-four primes. */
  lemma RoundConstants(t: nat)
    requires t < 64
    ensures IsCubeRootFraction(Prime(t), K(t))
  {
    var r := t / 8;
    assert CubeRootRow(PRIME_ROWS[r], K_ROWS[r], 0) by {
      hide CubeRootRow;
      match r {
        case 0 => Row0();
        case 1 => Row1();
        case 2 => Row2();
        case 3 => Row3();
        case 4 => Row4();
        case 5 => Row5();
        case 6 => Row6();
        case _ => Row7();
      }
    }
    CubeRootRowAt(PRIME_ROWS[r], K_ROWS[r], 0, t % 8);
  }

  /** Section 5.3.3: the initial hash value holds the square roots of the first eight primes. */
  lemma InitialHashValue(i: nat)
    requires i < 8
    ensures IsSquareRootFraction(Prime(i), IV[i])
  {
    assert i == 0 || i == 1 || i == 2 || i == 3 || i == 4 || i == 5 || i == 6 || i == 7;
    assert IsSquareRootWith(Prime(i), SquareRootFloor(Prime(i)), IV[i]);
  }

  /** Padding loses nothing: within the standard's bound, padded messages are equal only if the messages are. */
  lemma PadInjective(m1: seq<byte>, m2: seq<byte>)
    requires 8 * |m1| < TWO64 && 8 * |m2| < TWO64
    requires Pad(m1) == Pad(m2)
    ensures m1 == m2
  {
    hide Pad, LengthField, Wrap64, BigEndian;
    PadSuffix(m1);
    PadSuffix(m2);
    Wrap64Keeps(8 * |m1|);
    Wrap64Keeps(8 * |m2|);
    LengthFieldValue(8 * |m1|);
    LengthFieldValue(8 * |m2|);
    assert |m1| == |m2|;
    assert m1 == Pad(m1)[..|m1|];
  }

  /** The padded message, byte by byte. */
  lemma PadBytes(m: seq<byte>)
    ensures |Pad(m)| == |m| + 1 + ZeroCount(|m|) + 8
    ensures forall i :: 0 <= i < |m| ==> Pad(m)[i] == m[i]
    ensures forall i :: |m| <= i < |Pad(m)| - 8 ==> Pad(m)[i] == if i == |m| then 0x80 else 0
    ensures forall i :: |Pad(m)| - 8 <= i < |Pad(m)| ==> Pad(m)[i] == LengthField(8 * |m|)[i - (|Pad(m)| - 8)]
  {
    hide LengthField;
  }

  lemma PadLength(m: seq<byte>)
    ensures |Pad(m)| == |m| + 1 + ZeroCount(|m|) + 8
  {
    hide LengthField;
  }

  lemma PadSuffix(m: seq<byte>)
    ensures |Pad(m)| >= |m| + 8
    ensures Pad(m)[..|m|] == m
    ensures Pad(m)[|Pad(m)| - 8..] == LengthField(8 * |m|)
  {
    hide LengthField;
  }
}
