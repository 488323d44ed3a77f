/** sha256.c: the buffered SHA-256 implementation, with the context updated in
    place, proved against the definitions of module Sha256Spec. */
module Sha256Impl {
  import opened Bytes
  import opened Sha256Spec

  // ----- The macros of sha256.c, by shifts as written there -----

  function Ep0(x: word): (r: word)
    ensures r == BigSigma0(x)
  {
    ((x >> 2) | (x << 30)) ^ ((x >> 13) | (x << 19)) ^ ((x >> 22) | (x << 10))
  }

  function Ep1(x: word): (r: word)
    ensures r == BigSigma1(x)
  {
    ((x >> 6) | (x << 26)) ^ ((x >> 11) | (x << 21)) ^ ((x >> 25) | (x << 7))
  }

  function Sig0(x: word): (r: word)
    ensures r == SmallSigma0(x)
  {
    ((x >> 7) | (x << 25)) ^ ((x >> 18) | (x << 14)) ^ (x >> 3)
  }

  function Sig1(x: word): (r: word)
    ensures r == SmallSigma1(x)
  {
    ((x >> 17) | (x << 15)) ^ ((x >> 19) | (x << 13)) ^ (x >> 10)
  }

  /** The first half of sha256_transform: the 64-word schedule array. */
  method MessageSchedule(data: array<byte>, ghost block: Block) returns (m: array<word>)
    requires data[..] == block
    ensures fresh(m) && m.Length == 64
    ensures forall u :: 0 <= u < 64 ==> m[u] == W(block, u)
  {
    hide WordOfBytes, Sig0, Sig1, SmallSigma0, SmallSigma1, Sum;
    m := new word[64];
    var i, j := 0, 0;
    while i < 16
      invariant 0 <= i <= 16 && j == 4 * i
      invariant forall u :: 0 <= u < i ==> m[u] == W(block, u)
    {
      m[i] := WordOfBytes(data[j], data[j + 1], data[j + 2], data[j + 3]);
      i, j := i + 1, j + 4;
    }
    while i < 64
      invariant 16 <= i <= 64
      invariant forall u :: 0 <= u < i ==> m[u] == W(block, u)
    {
      m[i] := Sum(Sum(Sum(Sig1(m[i - 2]), m[i - 7]), Sig0(m[i - 15])), m[i - 16]);
      i := i + 1;
    }
  }

  class SHA256_CTX {
    const data: array<byte>
    var datalen: nat
    var bitlen: nat
    const state: array<word>

    /** The context after init and updates that together supplied msg: the whole blocks of msg
        are compressed and counted, the rest is buffered. */
    ghost predicate Absorbed(msg: seq<byte>)
      reads this, data, state
    {
      && data.Length == 64 && state.Length == 8
      && datalen == |msg| % 64
      && data[..datalen] == msg[|msg| - datalen..]
      && state[..] == Blocks(IV, msg[..|msg| - datalen])
      && bitlen == Wrap64(8 * (|msg| - datalen))
    }

    constructor ()
      ensures fresh(data) && fresh(state)
      ensures data.Length == 64 && state.Length == 8
    {
      data := new byte[64];
      state := new word[8];
    }

    /** The last statements of sha256_transform: the working variables are added to the state. */
    method AddWorking(a: word, b: word, c: word, d: word, e: word, f: word, g: word, h: word)
      requires state.Length == 8
      modifies state
      ensures state[0] == Sum(old(state[0]), a)
      ensures state[1] == Sum(old(state[1]), b)
      ensures state[2] == Sum(old(state[2]), c)
      ensures state[3] == Sum(old(state[3]), d)
      ensures state[4] == Sum(old(state[4]), e)
      ensures state[5] == Sum(old(state[5]), f)
      ensures state[6] == Sum(old(state[6]), g)
      ensures state[7] == Sum(old(state[7]), h)
    {
      hide Sum;
      state[0] := Sum(state[0], a);
      state[1] := Sum(state[1], b);
      state[2] := Sum(state[2], c);
      state[3] := Sum(state[3], d);
      state[4] := Sum(state[4], e);
      state[5] := Sum(state[5], f);
      state[6] := Sum(state[6], g);
      state[7] := Sum(state[7], h);
    }

    /** sha256_transform on the buffered block. */
    method Transform()
      requires data.Length == 64 && state.Length == 8
      modifies state
      ensures state[..] == Compress(old(state[..]), data[..])
    {
      hide Ep0, Ep1, BigSigma0, BigSigma1, Ch, Maj, Sum, K, W;
      ghost var block: Block := data[..];
      ghost var h0: HashValue := state[..];
      var m := MessageSchedule(data, block);
      var a, b, c, d := state[0], state[1], state[2], state[3];
      var e, f, g, h := state[4], state[5], state[6], state[7];
      var i := 0;
      while i < 64
        invariant 0 <= i <= 64
        invariant state[..] == h0
        invariant Working(a, b, c, d, e, f, g, h) == Rounds(h0, block, i)
      {
        var t1 := Sum(Sum(Sum(Sum(h, Ep1(e)), Ch(e, f, g)), K(i)), m[i]);
        var t2 := Sum(Ep0(a), Maj(a, b, c));
        h := g;
        g := f;
        f := e;
        e := Sum(d, t1);
        d := c;
        c := b;
        b := a;
        a := Sum(t1, t2);
        i := i + 1;
      }
      AddWorking(a, b, c, d, e, f, g, h);
    }

    /** sha256_init. */
    method Init()
      requires data.Length == 64 && state.Length == 8
      modifies this, state
      ensures Absorbed([])
    {
      datalen := 0;
      bitlen := 0;
      state[0] := 0x6a09e667;
      state[1] := 0xbb67ae85;
      state[2] := 0x3c6ef372;
      state[3] := 0xa54ff53a;
      state[4] := 0x510e527f;
      state[5] := 0x9b05688c;
      state[6] := 0x1f83d9ab;
      state[7] := 0x5be0cd19;
    }

    /** One iteration of the loop of sha256_update: a byte is buffered, and a full buffer is compressed. */
    method AbsorbByte(b: byte, ghost msg: seq<byte>)
      requires Absorbed(msg)
      modifies this, data, state
      ensures Absorbed(msg + [b])
    {
      hide Compress, Blocks, Wrap64;
      ghost var next := msg + [b];
      AppendByte(msg, b);
      data[datalen] := b;
      datalen := datalen + 1;
      assert data[..datalen] == old(data[..datalen]) + [b];
      if datalen == 64 {
        assert data[..] == next[|next| - 64..];
        Transform();
        Wrap64Sum(8 * (|next| - 64), 512);
        bitlen := Wrap64(bitlen + 512);
        datalen := 0;
        assert next[..|next|] == next;
      }
    }

    /** sha256_update.  The loop counter is a 32-bit unsigned int, so it reaches len only below 2^32. */
    method Update(bytes: seq<byte>, ghost msg: seq<byte>)
      requires Absorbed(msg)
      requires |bytes| < 0x1_0000_0000
      modifies this, data, state
      ensures Absorbed(msg + bytes)
    {
      var i := 0;
      assert msg + bytes[..0] == msg;
      while i < |bytes|
        invariant 0 <= i <= |bytes|
        invariant Absorbed(msg + bytes[..i])
      {
        assert msg + bytes[..i + 1] == msg + bytes[..i] + [bytes[i]];
        AbsorbByte(bytes[i], msg + bytes[..i]);
        i := i + 1;
      }
      assert msg + bytes[..i] == msg + bytes;
    }

    /** The loops and the memset of sha256_final that store zero bytes. */
    method FillZeros(from: nat, to: nat)
      requires from <= to <= data.Length
      modifies data
      ensures data[..to] == old(data[..from]) + Zeros(to - from)
    {
      var i := from;
      while i < to
        invariant from <= i <= to
        invariant data[..i] == old(data[..from]) + Zeros(i - from)
      {
        data[i] := 0x00;
        i := i + 1;
      }
    }

    /** The first part of sha256_final: the buffer is padded and, when the length field does not fit, compressed. */
    method PadBuffer(ghost msg: seq<byte>) returns (ghost done: seq<byte>)
      requires Absorbed(msg)
      modifies data, state
      ensures |done| % 64 == 0 && state[..] == Blocks(IV, done)
      ensures done + (data[..56] + LengthField(8 * |msg|)) == Pad(msg)
    {
      hide Compress, LengthField, Wrap64, Blocks, Pad, Zeros;
      ghost var tail := msg[|msg| - datalen..];
      done := msg[..|msg| - datalen];
      data[datalen] := 0x80;
      assert data[..datalen + 1] == tail + [0x80];
      if datalen < 56 {
        FillZeros(datalen + 1, 56);
        PadShort(msg);
      } else {
        FillZeros(datalen + 1, 64);
        ghost var full := data[..];
        Transform();
        BlocksStep(done, full);
        done := done + full;
        FillZeros(0, 56);
        PadLong(msg);
      }
    }

    /** The second part of sha256_final: the length in bits, most significant byte first. */
    method StoreLength(l: nat)
      requires data.Length == 64 && l < TWO64
      modifies data
      ensures data[..56] == old(data[..56])
      ensures data[56..] == BytesOfNat(8, l)
    {
      hide LowByte, BytesOfNat;
      BytesOfLength(l);
      StoreBytes(LowByte(l / 0x1000000_00000000), LowByte(l / 0x10000_00000000), LowByte(l / 0x100_00000000),
                 LowByte(l / 0x1_00000000), LowByte(l / 0x1000000), LowByte(l / 0x10000), LowByte(l / 0x100),
                 LowByte(l));
    }

    method StoreBytes(b0: byte, b1: byte, b2: byte, b3: byte, b4: byte, b5: byte, b6: byte, b7: byte)
      requires data.Length == 64
      modifies data
      ensures forall i :: 0 <= i < 56 ==> data[i] == old(data[i])
      ensures data[56] == b0
      ensures data[57] == b1
      ensures data[58] == b2
      ensures data[59] == b3
      ensures data[60] == b4
      ensures data[61] == b5
      ensures data[62] == b6
      ensures data[63] == b7
    {
      data[63] := b7;
      data[62] := b6;
      data[61] := b5;
      data[60] := b4;
      data[59] := b3;
      data[58] := b2;
      data[57] := b1;
      data[56] := b0;
    }

    /** Byte u of each of the eight words is in its place. */
    ghost predicate Column(hash: array<byte>, u: nat)
      requires state.Length == 8 && hash.Length >= 32 && u < 4
      reads hash, state
    {
      forall k :: 0 <= k < 8 ==> hash[4 * k + u] == ByteOfWord(state[k], u)
    }

    /** The body of the last loop of sha256_final: byte i of each of the eight words. */
    method StoreColumn(hash: array<byte>, i: nat)
      requires state.Length == 8 && hash.Length >= 32 && i < 4
      modifies hash
      ensures hash[i] == ByteOfWord(state[0], i)
      ensures hash[i + 4] == ByteOfWord(state[1], i)
      ensures hash[i + 8] == ByteOfWord(state[2], i)
      ensures hash[i + 12] == ByteOfWord(state[3], i)
      ensures hash[i + 16] == ByteOfWord(state[4], i)
      ensures hash[i + 20] == ByteOfWord(state[5], i)
      ensures hash[i + 24] == ByteOfWord(state[6], i)
      ensures hash[i + 28] == ByteOfWord(state[7], i)
      ensures forall j :: 0 <= j < hash.Length && j !in {i, i + 4, i + 8, i + 12, i + 16, i + 20, i + 24, i + 28}
                ==> hash[j] == old(hash[j])
    {
      hide ByteOfWord;
      hash[i] := ByteOfWord(state[0], i);
      hash[i + 4] := ByteOfWord(state[1], i);
      hash[i + 8] := ByteOfWord(state[2], i);
      hash[i + 12] := ByteOfWord(state[3], i);
      hash[i + 16] := ByteOfWord(state[4], i);
      hash[i + 20] := ByteOfWord(state[5], i);
      hash[i + 24] := ByteOfWord(state[6], i);
      hash[i + 28] := ByteOfWord(state[7], i);
    }

    /** The third part of sha256_final: the words of the state, most significant byte first. */
    method StoreDigest(hash: array<byte>)
      requires state.Length == 8 && hash.Length >= 32
      modifies hash
      ensures hash[..32] == DigestOf(state[..])
      ensures hash[32..] == old(hash[32..])
    {
      hide ByteOfWord, BytesOfWord;
      var i := 0;
      while i < 4
        invariant 0 <= i <= 4
        invariant forall u :: 0 <= u < i ==> Column(hash, u)
        invariant forall j :: 32 <= j < hash.Length ==> hash[j] == old(hash[j])
      {
        label before:
        StoreColumn(hash, i);
        forall u | 0 <= u <= i
          ensures Column(hash, u)
        {
          assert u < i ==> old@before(Column(hash, u));
        }
        i := i + 1;
      }
      forall j | 0 <= j < 32
        ensures hash[j] == DigestOf(state[..])[j]
      {
        assert Column(hash, j % 4);
        assert hash[4 * (j / 4) + j % 4] == ByteOfWord(state[j / 4], j % 4);
        ByteOfWordIs(state[j / 4], j % 4);
      }
    }

    /** sha256_final. */
    method Final(hash: array<byte>, ghost msg: seq<byte>)
      requires Absorbed(msg)
      requires hash != data && hash.Length >= 32
      modifies this, data, state, hash
      ensures hash[..32] == Sha256(msg)
      ensures hash[32..] == old(hash[32..])
    {
      hide Compress, LengthField, Blocks, Pad, DigestOf, Wrap64;
      ghost var done := PadBuffer(msg);
      ghost var tail := data[..56];
      Wrap64Sum(8 * (|msg| - datalen), 8 * datalen);
      bitlen := Wrap64(bitlen + datalen * 8);
      LengthFieldIs(8 * |msg|);
      StoreLength(bitlen);
      assert data[..] == tail + LengthField(8 * |msg|);
      BlocksStep(done, data[..]);
      Transform();
      StoreDigest(hash);
    }
  }

  /** Byte i of a word, as sha256.c:150-157 extracts it: shifted right by 24 - 8 * i and masked. */
  function ByteOfWord(w: word, i: nat): byte
    requires i < 4
  {
    if i == 0 then ((w >> 24) & 0x0000_00ff) as byte
    else if i == 1 then ((w >> 16) & 0x0000_00ff) as byte
    else if i == 2 then ((w >> 8) & 0x0000_00ff) as byte
    else (w & 0x0000_00ff) as byte
  }

  lemma ByteOfWordIs(w: word, i: nat)
    requires i < 4
    ensures ByteOfWord(w, i) == BytesOfWord(w)[i]
  {
  }

  lemma LengthFieldIs(l: nat)
    ensures LengthField(l) == BytesOfNat(8, Wrap64(l))
    ensures Wrap64(l) < TWO64
  {
  }

  /** The last four bytes of a representation, peeled off one at a time. */
  lemma BytesOfNatPeel(n: nat, x: nat)
    ensures BytesOfNat(n + 4, x) == BytesOfNat(n, x / 0x1_00000000)
                                    + [LowByte(x / 0x1000000), LowByte(x / 0x10000), LowByte(x / 0x100), LowByte(x)]
  {
    hide LowByte;
    assert x / 0x100 / 0x100 == x / 0x10000;
    assert x / 0x10000 / 0x100 == x / 0x1000000;
    assert x / 0x1000000 / 0x100 == x / 0x1_00000000;
    var b := BytesOfNat(n, x / 0x1_00000000);
    assert BytesOfNat(n + 1, x / 0x1000000) == b + [LowByte(x / 0x1000000)];
    assert BytesOfNat(n + 2, x / 0x10000) == b + [LowByte(x / 0x1000000), LowByte(x / 0x10000)];
    assert BytesOfNat(n + 3, x / 0x100) == b + [LowByte(x / 0x1000000), LowByte(x / 0x10000), LowByte(x / 0x100)];
  }

  lemma BytesOfLength(l: nat)
    ensures BytesOfNat(8, l) == [
      LowByte(l / 0x1000000_00000000), LowByte(l / 0x10000_00000000), LowByte(l / 0x100_00000000),
      LowByte(l / 0x1_00000000), LowByte(l / 0x1000000), LowByte(l / 0x10000), LowByte(l / 0x100), LowByte(l)]
  {
    hide LowByte;
    hide BytesOfNat;
    var x := l / 0x1_00000000;
    BytesOfNatPeel(4, l);
    BytesOfNatPeel(0, x);
    assert x / 0x100 == l / 0x100_00000000;
    assert x / 0x10000 == l / 0x10000_00000000;
    assert x / 0x1000000 == l / 0x1000000_00000000;
    assert BytesOfNat(0, x / 0x1_00000000) == [];
  }

  lemma BlocksStep(m: seq<byte>, block: Block)
    requires |m| % 64 == 0
    ensures Blocks(IV, m + block) == Compress(Blocks(IV, m), block)
  {
    assert (m + block)[..|m + block| - 64] == m;
    assert (m + block)[|m + block| - 64..] == block;
  }

  lemma Regroup(a: seq<byte>, b: seq<byte>, c: seq<byte>, z: seq<byte>, y: seq<byte>, l: seq<byte>)
    ensures (a + b) + (c + (z + y) + l) == a + (b + c + z) + (y + l)
    ensures (a + b) + (c + z + l) == a + (b + c + z + l)
  {
  }

  lemma PadShort(msg: seq<byte>)
    requires |msg| % 64 < 56
    ensures var n, d := |msg|, |msg| % 64;
      Pad(msg) == msg[..n - d] + (msg[n - d..] + [0x80] + Zeros(55 - d) + LengthField(8 * n))
  {
    var n, d := |msg|, |msg| % 64;
    assert ZeroCount(n) == 55 - d;
    assert msg == msg[..n - d] + msg[n - d..];
    Regroup(msg[..n - d], msg[n - d..], [0x80], Zeros(55 - d), [], LengthField(8 * n));
  }

  lemma PadLong(msg: seq<byte>)
    requires 56 <= |msg| % 64
    ensures var n, d := |msg|, |msg| % 64;
      Pad(msg) == msg[..n - d] + (msg[n - d..] + [0x80] + Zeros(63 - d)) + (Zeros(56) + LengthField(8 * n))
  {
    var n, d := |msg|, |msg| % 64;
    assert ZeroCount(n) == 119 - d;
    assert Zeros(119 - d) == Zeros(63 - d) + Zeros(56);
    assert msg == msg[..n - d] + msg[n - d..];
    Regroup(msg[..n - d], msg[n - d..], [0x80], Zeros(63 - d), Zeros(56), LengthField(8 * n));
  }

  /** Appending a byte either lengthens the tail or completes a block. */
  lemma AppendByte(m: seq<byte>, b: byte)
    ensures var d := |m| % 64; var n := m + [b];
      if d < 63 then
        && |n| % 64 == d + 1
        && n[..|n| - (d + 1)] == m[..|m| - d]
        && n[|n| - (d + 1)..] == m[|m| - d..] + [b]
      else
        && |n| % 64 == 0
        && n[|n| - 64..] == m[|m| - d..] + [b]
        && n[..|n| - 64] == m[..|m| - d]
        && Blocks(IV, n) == Compress(Blocks(IV, m[..|m| - d]), n[|n| - 64..])
  {
    hide Compress;
    var d, n := |m| % 64, m + [b];
    assert n[..|m| - d] == m[..|m| - d];
    assert n[|m| - d..] == m[|m| - d..] + [b];
    if d == 63 {
      BlocksStep(m[..|m| - d], n[|m| - d..]);
      assert n == m[..|m| - d] + n[|m| - d..];
    }
  }

  function Concat(chunks: seq<seq<byte>>): seq<byte> {
    if chunks == [] then [] else Concat(chunks[..|chunks| - 1]) + chunks[|chunks| - 1]
  }

  /** The calling pattern of every user of the interface: init, any number of updates, final. */
  method HashChunks(chunks: seq<seq<byte>>, hash: array<byte>)
    requires forall c :: c in chunks ==> |c| < 0x1_0000_0000
    requires hash.Length >= 32
    modifies hash
    ensures hash[..32] == Sha256(Concat(chunks))
    ensures hash[32..] == old(hash[32..])
  {
    hide Sha256, SHA256_CTX.Absorbed;
    var ctx := new SHA256_CTX();
    ctx.Init();
    var i := 0;
    while i < |chunks|
      invariant 0 <= i <= |chunks|
      invariant fresh(ctx) && fresh(ctx.data) && fresh(ctx.state)
      invariant ctx.Absorbed(Concat(chunks[..i]))
      invariant hash[..] == old(hash[..])
    {
      assert chunks[..i + 1][..i] == chunks[..i];
      ctx.Update(chunks[i], Concat(chunks[..i]));
      i := i + 1;
    }
    assert chunks[..i] == chunks;
    ctx.Final(hash, Concat(chunks));
  }

  /** A hash of one buffer in one call: init, a single update, final. */
  method HashBuffer(bytes: seq<byte>, hash: array<byte>)
    requires |bytes| < 0x1_0000_0000 && hash.Length >= 32
    modifies hash
    ensures hash[..32] == Sha256(bytes)
    ensures hash[32..] == old(hash[32..])
  {
    hide Sha256;
    var ctx := new SHA256_CTX();
    ctx.Init();
    ctx.Update(bytes, []);
    assert [] + bytes == bytes;
    ctx.Final(hash, bytes);
  }
}
