/** The second case of sha256_test.c: fifty-six bytes, whose padding takes a second block. */
module AnswerTwoBlocks {
  import opened Bytes
  import opened Sha256Spec
  import opened KnownAnswers

  /** The message "abcdbcdecdefdefgefghfghighijhijkijkljklmklmnlmnomnopnopq", by fours. */
  const GROUPS: seq<seq<byte>> := [
    [0x61, 0x62, 0x63, 0x64], [0x62, 0x63, 0x64, 0x65], [0x63, 0x64, 0x65, 0x66], [0x64, 0x65, 0x66, 0x67],
    [0x65, 0x66, 0x67, 0x68], [0x66, 0x67, 0x68, 0x69], [0x67, 0x68, 0x69, 0x6a], [0x68, 0x69, 0x6a, 0x6b],
    [0x69, 0x6a, 0x6b, 0x6c], [0x6a, 0x6b, 0x6c, 0x6d], [0x6b, 0x6c, 0x6d, 0x6e], [0x6c, 0x6d, 0x6e, 0x6f],
    [0x6d, 0x6e, 0x6f, 0x70], [0x6e, 0x6f, 0x70, 0x71]
  ]

  function Message(): (m: seq<byte>)
    ensures |m| == 56
  {
    seq(56, i requires 0 <= i < 56 => GROUPS[i / 4][i % 4])
  }

  const DIGEST: Digest := [
    0x24, 0x8d, 0x6a, 0x61, 0xd2, 0x06, 0x38, 0xb8, 0xe5, 0xc0, 0x26, 0x93, 0x0c, 0x3e, 0x60, 0x39,
    0xa3, 0x3c, 0xe4, 0x59, 0x64, 0xff, 0x21, 0x67, 0xf6, 0xec, 0xed, 0xd4, 0x19, 0xdb, 0x06, 0xc1
  ]

  // ----- The first block -----

  function First0(): Four {
    Four(0x61626364, 0x62636465, 0x63646566, 0x64656667,
         Working(0x4a8d64d5, 0x97651825, 0x2f2d5fcf, 0x5d6aebb1, 0x6494841b, 0x62d5c49e, 0x4eb1cfce, 0xfa2a4606))
  }

  function First1(): Four {
    Four(0x65666768, 0x66676869, 0x6768696a, 0x68696a6b,
         Working(0xd237e6db, 0x485835b7, 0x55c8ef48, 0xf921c212, 0xa401d211, 0x39a5b2ca, 0x7ff91c94, 0x05c4f88a))
  }

  function First2(): Four {
    Four(0x696a6b6c, 0x6a6b6c6d, 0x6b6c6d6e, 0x6c6d6e6f,
         Working(0x1762215c, 0xb8e2b4cb, 0x3a474b2b, 0x359f2bce, 0xee1c97a8, 0x443ed29e, 0x9037b3b8, 0xc09ffec4))
  }

  function First3(): Four {
    Four(0x6d6e6f70, 0x6e6f7071, 0x80000000, 0x00000000,
         Working(0xc3486194, 0xdd16cbb3, 0xd68e6457, 0x101a4861, 0x1496a54f, 0x9162aded, 0x9243f8af, 0x839a0fc9))
  }

  function First4(): Four {
    Four(0xeb8012ad, 0xa7c3ae92, 0x76e93ba2, 0xba42e743,
         Working(0x2139187b, 0xf402f058, 0x046a193e, 0xb9dcacb1, 0x7c304206, 0x6f433549, 0x885370b6, 0xd4f64250))
  }

  function First5(): Four {
    Four(0x92a92204, 0xd847e75e, 0x9e160036, 0xb280a7cb,
         Working(0x59fce6b9, 0xae2e2d4f, 0x1b2b66b8, 0xd70ac17d, 0xa2c7d51d, 0xf074fc95, 0xd560b028, 0x7cc6b262))
  }

  function First6(): Four {
    Four(0xddeb1516, 0xf36586f4, 0x969cd048, 0xe959d99d,
         Working(0x73f858af, 0x128661da, 0x573221da, 0x4a885065, 0xe77c797f, 0x1162d575, 0x36e74eb4, 0x763597fb))
  }

  function First7(): Four {
    Four(0x6accc0ec, 0xf54cb098, 0x2af1b2da, 0xee59c4c9,
         Working(0x5581ab07, 0xeb43f3ed, 0xdf7151a0, 0x74bcf468, 0xdf980085, 0x0635d880, 0x7629c961, 0x72abaecd))
  }

  function First8(): Four {
    Four(0xa835e16a, 0x1dff4429, 0xd6e15959, 0xc397cd6e,
         Working(0x0786dce8, 0x1df8e885, 0x9ce5a62f, 0x9fc905c8, 0xde2a21d1, 0x2a9e048e, 0x6ef3b6bd, 0xa94d2af1))
  }

  function First9(): Four {
    Four(0x6f1801ca, 0x21574205, 0x35ff7a84, 0x9743ee78,
         Working(0x7e4d30b8, 0x91ac9d5d, 0xa985b4be, 0x2c55d3a6, 0x9f5b9b6d, 0x68d8d590, 0xf72bf353, 0xb067c1af))
  }

  function First10(): Four {
    Four(0xe44183e7, 0x0d09f00d, 0x9c89af54, 0x042d5bef,
         Working(0x167361de, 0xb62c7013, 0x508a16ab, 0x7e056794, 0x41dd3844, 0x80a92a00, 0x45459d97, 0x423b26c0))
  }

  function First11(): Four {
    Four(0x71f134d0, 0x0f94f463, 0x7e49dc63, 0x6f65c997,
         Working(0x13d82741, 0x165be9cd, 0x18f0d19d, 0xde71e2f2, 0xa7802a4d, 0xa483f080, 0x6b88472c, 0xff61c636))
  }

  function First12(): Four {
    Four(0x0b706583, 0x179312ca, 0x503054e9, 0xba125c39,
         Working(0x81c1cde0, 0x758ca97a, 0x543c99a1, 0x017b9d99, 0x5c47eb7b, 0x100cf2ea, 0x16f134b6, 0xaeb10b60))
  }

  function First13(): Four {
    Four(0x7e9392c9, 0xd5cbaa1e, 0x78e0585d, 0xf6e7611c,
         Working(0x9e57c4a0, 0xf907b313, 0x1d6de87a, 0xb8d55619, 0xeec13548, 0x61a41711, 0x3443bed4, 0x1c806a61))
  }

  function First14(): Four {
    Four(0x8ac830ce, 0x8b47a303, 0xfd6e627f, 0x8c6e2c6a,
         Working(0xe18f259a, 0x921fccb6, 0x7c015a2c, 0x71629856, 0x51e15869, 0x43d8a034, 0xcb9d3dd0, 0x2f6c8c4e))
  }

  function First15(): Four {
    Four(0x4001adf1, 0x1a3dd097, 0xa9df6f62, 0x6aa60a39,
         Working(0x1bdc6f6f, 0x86126910, 0xf6f443f8, 0xbcfce922, 0x25d2430a, 0x2fc08f85, 0xacc75916, 0x962d8621))
  }

  function Middle(): HashValue {
    [0x85e655d6, 0x417a1795, 0x3363376a, 0x624cde5c, 0x76e09589, 0xcac5f811, 0xcc4b32c1, 0xf20e533a]
  }

  lemma FirstSteps0()
    ensures NextState(StateOf(IV), First0(), 0)
    ensures NextState(First0().end, First1(), 4)
  {
    hide K;
    Constants0();
  }

  lemma FirstSteps8()
    ensures NextState(First1().end, First2(), 8)
    ensures NextState(First2().end, First3(), 12)
  {
    hide K;
    Constants8();
  }

  lemma FirstSteps16()
    ensures NextWords(First0(), First1(), First2(), First3(), First4())
    ensures NextState(First3().end, First4(), 16)
    ensures NextWords(First1(), First2(), First3(), First4(), First5())
    ensures NextState(First4().end, First5(), 20)
  {
    hide K;
    Constants16();
  }

  lemma FirstSteps24()
    ensures NextWords(First2(), First3(), First4(), First5(), First6())
    ensures NextState(First5().end, First6(), 24)
    ensures NextWords(First3(), First4(), First5(), First6(), First7())
    ensures NextState(First6().end, First7(), 28)
  {
    hide K;
    Constants24();
  }

  lemma FirstSteps32()
    ensures NextWords(First4(), First5(), First6(), First7(), First8())
    ensures NextState(First7().end, First8(), 32)
    ensures NextWords(First5(), First6(), First7(), First8(), First9())
    ensures NextState(First8().end, First9(), 36)
  {
    hide K;
    Constants32();
  }

  lemma FirstSteps40()
    ensures NextWords(First6(), First7(), First8(), First9(), First10())
    ensures NextState(First9().end, First10(), 40)
    ensures NextWords(First7(), First8(), First9(), First10(), First11())
    ensures NextState(First10().end, First11(), 44)
  {
    hide K;
    Constants40();
  }

  lemma FirstSteps48()
    ensures NextWords(First8(), First9(), First10(), First11(), First12())
    ensures NextState(First11().end, First12(), 48)
    ensures NextWords(First9(), First10(), First11(), First12(), First13())
    ensures NextState(First12().end, First13(), 52)
  {
    hide K;
    Constants48();
  }

  lemma FirstSteps56()
    ensures NextWords(First10(), First11(), First12(), First13(), First14())
    ensures NextState(First13().end, First14(), 56)
    ensures NextWords(First11(), First12(), First13(), First14(), First15())
    ensures NextState(First14().end, First15(), 60)
  {
    hide K;
    Constants56();
  }

  lemma FirstSums()
    ensures AddsUpTo(IV, First15().end, Middle())
  {
  }

  lemma FirstTo16(p: Block)
    requires HoldsWords(p, 0, First0()) && HoldsWords(p, 4, First1())
    requires HoldsWords(p, 8, First2()) && HoldsWords(p, 12, First3())
    ensures Reached(IV, p, 16, First0(), First1(), First2(), First3())
  {
    hide HoldsWords, NextState, First0, First1, First2, First3, StateOf, Rounds, K;
    NoRounds(IV, p);
    FirstSteps0();
    LoadedRounds(IV, p, 0, StateOf(IV), First0());
    LoadedRounds(IV, p, 4, First0().end, First1());
    FirstSteps8();
    LoadedRounds(IV, p, 8, First1().end, First2());
    LoadedRounds(IV, p, 12, First2().end, First3());
  }

  lemma FirstTo64(p: Block)
    requires Reached(IV, p, 16, First0(), First1(), First2(), First3())
    ensures Reached(IV, p, 64, First12(), First13(), First14(), First15())
  {
    hide *;
    FirstSteps16();
    ScheduledRounds(IV, p, 16, First0(), First1(), First2(), First3(), First4());
    ScheduledRounds(IV, p, 20, First1(), First2(), First3(), First4(), First5());
    FirstSteps24();
    ScheduledRounds(IV, p, 24, First2(), First3(), First4(), First5(), First6());
    ScheduledRounds(IV, p, 28, First3(), First4(), First5(), First6(), First7());
    FirstSteps32();
    ScheduledRounds(IV, p, 32, First4(), First5(), First6(), First7(), First8());
    ScheduledRounds(IV, p, 36, First5(), First6(), First7(), First8(), First9());
    FirstSteps40();
    ScheduledRounds(IV, p, 40, First6(), First7(), First8(), First9(), First10());
    ScheduledRounds(IV, p, 44, First7(), First8(), First9(), First10(), First11());
    FirstSteps48();
    ScheduledRounds(IV, p, 48, First8(), First9(), First10(), First11(), First12());
    ScheduledRounds(IV, p, 52, First9(), First10(), First11(), First12(), First13());
    FirstSteps56();
    ScheduledRounds(IV, p, 56, First10(), First11(), First12(), First13(), First14());
    ScheduledRounds(IV, p, 60, First11(), First12(), First13(), First14(), First15());
  }

  lemma FirstCompressed(p: Block)
    requires HoldsWords(p, 0, First0()) && HoldsWords(p, 4, First1())
    requires HoldsWords(p, 8, First2()) && HoldsWords(p, 12, First3())
    ensures Compress(IV, p) == Middle()
  {
    hide HoldsWords, Rounds, Compress, AddsUpTo, First15, Middle;
    FirstTo16(p);
    FirstTo64(p);
    FirstSums();
    LastSums(IV, p, Middle());
  }

  // ----- The second block -----

  function Second0(): Four {
    Four(0x00000000, 0x00000000, 0x00000000, 0x00000000,
         Working(0xf268faa9, 0xfd1eebdc, 0x7c3c0f86, 0x7c20c838, 0xe20362ef, 0xaf71b9ea, 0x8c51be64, 0x4670ae6e))
  }

  function Second1(): Four {
    Four(0x00000000, 0x00000000, 0x00000000, 0x00000000,
         Working(0xbf9a93a0, 0x89bba3f1, 0x3eeb6c06, 0x185a5d79, 0x059abdd1, 0x0a34df03, 0xfe20cda6, 0x8dff3001))
  }

  function Second2(): Four {
    Four(0x00000000, 0x00000000, 0x00000000, 0x00000000,
         Working(0x5eb4ec40, 0x5b35025b, 0x2d964e86, 0x2c096744, 0xe11b4548, 0x10e77723, 0xaa27ed82, 0xabfa465b))
  }

  function Second3(): Four {
    Four(0x00000000, 0x00000000, 0x00000000, 0x000001c0,
         Working(0x16a8cc79, 0x0cea5cbc, 0xd74080fa, 0x35ee996d, 0x0fcb1f6f, 0x60356548, 0x68aa893f, 0x5c24e2a2))
  }

  function Second4(): Four {
    Four(0x00000000, 0x00d80000, 0x00000000, 0x00003677,
         Working(0x76f1a2bc, 0xdcff40fd, 0x23dcb6c2, 0xf16f634e, 0x0dc84bb1, 0x69bf7b95, 0xca9182d3, 0x8b21cdc1))
  }

  function Second5(): Four {
    Four(0x00000000, 0x1df5600d, 0x000001c0, 0x1c00501c,
         Working(0xa4195b91, 0xf13ae55b, 0xd44dc81a, 0x20aad899, 0xeddbd6ed, 0x966aa287, 0x5bace62d, 0xcc4769f2))
  }

  function Second6(): Four {
    Four(0x01b00000, 0x220a8d94, 0x0000a365, 0x177017e7,
         Working(0x0d936bab, 0x9450fbbc, 0xaa6cb982, 0x4984fa79, 0x6e495d4b, 0x09166dda, 0x0b5eeea4, 0xa530d939))
  }

  function Second7(): Four {
    Four(0x63d38035, 0x090ab713, 0x4c7539ca, 0x0f19a8c9,
         Working(0xb0eab1c5, 0x02ef3a5f, 0x1cfa5eb0, 0xd958b529, 0xf6d93952, 0x5da10665, 0x6c49db9f, 0xc2fa99b1))
  }

  function Second8(): Four {
    Four(0x5df4b0c4, 0xe257036a, 0xc97bb6f1, 0xc5b46f4d,
         Working(0xecde4e0d, 0x9907f1b6, 0x4bd1df96, 0x0bfba73c, 0x5dc119e6, 0x66c3043d, 0x905e44ac, 0x8b99e3a9))
  }

  function Second9(): Four {
    Four(0xf8253c4e, 0xa558d189, 0x78696285, 0xed07117f,
         Working(0x221b8a5a, 0xadca7a96, 0xd949682b, 0x2f11c939, 0x0b82c5eb, 0xc6cce4ff, 0x32d99008, 0xfed4ce1d))
  }

  function Second10(): Four {
    Four(0x107358f6, 0x390ae496, 0x565010a2, 0xc51d7d44,
         Working(0xf2ad6322, 0x8300fca2, 0x2c794876, 0x12d97845, 0xcc48c7f3, 0xe0e3457c, 0xff6759ba, 0xe4213ca2))
  }

  function Second11(): Four {
    Four(0x9e74c972, 0x6614b561, 0x30fc129d, 0x9ac684a8,
         Working(0xd7354d5b, 0x0b3303a7, 0x104a7db4, 0x0f154e11, 0xaad55b6b, 0xbbe1c39a, 0x5348e8f6, 0x6f9517cb))
  }

  function Second12(): Four {
    Four(0x2b658dbd, 0xe290f793, 0x9eebb24c, 0x9713b5de,
         Working(0x1a6bcf6a, 0xd8aabcf9, 0x2748e5ec, 0xb736d7a6, 0xff5e99d0, 0x27844711, 0xd4b58576, 0x68f25260))
  }

  function Second13(): Four {
    Four(0x41061ab7, 0xe022e23b, 0x0772079e, 0x7de22d9c,
         Working(0x92952710, 0xd9f0c115, 0xec02560a, 0x4eca6fa0, 0x226806d6, 0x624150c4, 0x7151df8e, 0x989ed071))
  }

  function Second14(): Four {
    Four(0xc8b83778, 0x75a79849, 0xd93dbddb, 0x0a036c9d,
         Working(0x1c4cddd9, 0x286fe5f0, 0x4348eb1f, 0x20d4d0e4, 0xf487a853, 0x54076664, 0xc21eddf9, 0x4e515a4d))
  }

  function Second15(): Four {
    Four(0xcb4f6ac6, 0x823f97e2, 0xea2f2a7a, 0xb9018b52,
         Working(0x9ea7148b, 0x908c2123, 0xb25cef29, 0xa9f181dd, 0x2c5c4ed0, 0x9a392956, 0x2aa1bb13, 0x27ccb387))
  }

  function Hash(): HashValue {
    [0x248d6a61, 0xd20638b8, 0xe5c02693, 0x0c3e6039, 0xa33ce459, 0x64ff2167, 0xf6ecedd4, 0x19db06c1]
  }

  lemma SecondSteps0()
    ensures NextState(StateOf(Middle()), Second0(), 0)
    ensures NextState(Second0().end, Second1(), 4)
  {
    hide K;
    Constants0();
  }

  lemma SecondSteps8()
    ensures NextState(Second1().end, Second2(), 8)
    ensures NextState(Second2().end, Second3(), 12)
  {
    hide K;
    Constants8();
  }

  lemma SecondSteps16()
    ensures NextWords(Second0(), Second1(), Second2(), Second3(), Second4())
    ensures NextState(Second3().end, Second4(), 16)
    ensures NextWords(Second1(), Second2(), Second3(), Second4(), Second5())
    ensures NextState(Second4().end, Second5(), 20)
  {
    hide K;
    Constants16();
  }

  lemma SecondSteps24()
    ensures NextWords(Second2(), Second3(), Second4(), Second5(), Second6())
    ensures NextState(Second5().end, Second6(), 24)
    ensures NextWords(Second3(), Second4(), Second5(), Second6(), Second7())
    ensures NextState(Second6().end, Second7(), 28)
  {
    hide K;
    Constants24();
  }

  lemma SecondSteps32()
    ensures NextWords(Second4(), Second5(), Second6(), Second7(), Second8())
    ensures NextState(Second7().end, Second8(), 32)
    ensures NextWords(Second5(), Second6(), Second7(), Second8(), Second9())
    ensures NextState(Second8().end, Second9(), 36)
  {
    hide K;
    Constants32();
  }

  lemma SecondSteps40()
    ensures NextWords(Second6(), Second7(), Second8(), Second9(), Second10())
    ensures NextState(Second9().end, Second10(), 40)
    ensures NextWords(Second7(), Second8(), Second9(), Second10(), Second11())
    ensures NextState(Second10().end, Second11(), 44)
  {
    hide K;
    Constants40();
  }

  lemma SecondSteps48()
    ensures NextWords(Second8(), Second9(), Second10(), Second11(), Second12())
    ensures NextState(Second11().end, Second12(), 48)
    ensures NextWords(Second9(), Second10(), Second11(), Second12(), Second13())
    ensures NextState(Second12().end, Second13(), 52)
  {
    hide K;
    Constants48();
  }

  lemma SecondSteps56()
    ensures NextWords(Second10(), Second11(), Second12(), Second13(), Second14())
    ensures NextState(Second13().end, Second14(), 56)
    ensures NextWords(Second11(), Second12(), Second13(), Second14(), Second15())
    ensures NextState(Second14().end, Second15(), 60)
  {
    hide K;
    Constants56();
  }

  lemma SecondSums()
    ensures AddsUpTo(Middle(), Second15().end, Hash())
  {
  }

  lemma SecondTo16(p: Block)
    requires HoldsWords(p, 0, Second0()) && HoldsWords(p, 4, Second1())
    requires HoldsWords(p, 8, Second2()) && HoldsWords(p, 12, Second3())
    ensures Reached(Middle(), p, 16, Second0(), Second1(), Second2(), Second3())
  {
    hide HoldsWords, NextState, Second0, Second1, Second2, Second3, StateOf, Rounds, K;
    NoRounds(Middle(), p);
    SecondSteps0();
    LoadedRounds(Middle(), p, 0, StateOf(Middle()), Second0());
    LoadedRounds(Middle(), p, 4, Second0().end, Second1());
    SecondSteps8();
    LoadedRounds(Middle(), p, 8, Second1().end, Second2());
    LoadedRounds(Middle(), p, 12, Second2().end, Second3());
  }

  lemma SecondTo64(p: Block)
    requires Reached(Middle(), p, 16, Second0(), Second1(), Second2(), Second3())
    ensures Reached(Middle(), p, 64, Second12(), Second13(), Second14(), Second15())
  {
    hide *;
    SecondSteps16();
    ScheduledRounds(Middle(), p, 16, Second0(), Second1(), Second2(), Second3(), Second4());
    ScheduledRounds(Middle(), p, 20, Second1(), Second2(), Second3(), Second4(), Second5());
    SecondSteps24();
    ScheduledRounds(Middle(), p, 24, Second2(), Second3(), Second4(), Second5(), Second6());
    ScheduledRounds(Middle(), p, 28, Second3(), Second4(), Second5(), Second6(), Second7());
    SecondSteps32();
    ScheduledRounds(Middle(), p, 32, Second4(), Second5(), Second6(), Second7(), Second8());
    ScheduledRounds(Middle(), p, 36, Second5(), Second6(), Second7(), Second8(), Second9());
    SecondSteps40();
    ScheduledRounds(Middle(), p, 40, Second6(), Second7(), Second8(), Second9(), Second10());
    ScheduledRounds(Middle(), p, 44, Second7(), Second8(), Second9(), Second10(), Second11());
    SecondSteps48();
    ScheduledRounds(Middle(), p, 48, Second8(), Second9(), Second10(), Second11(), Second12());
    ScheduledRounds(Middle(), p, 52, Second9(), Second10(), Second11(), Second12(), Second13());
    SecondSteps56();
    ScheduledRounds(Middle(), p, 56, Second10(), Second11(), Second12(), Second13(), Second14());
    ScheduledRounds(Middle(), p, 60, Second11(), Second12(), Second13(), Second14(), Second15());
  }

  lemma SecondCompressed(p: Block)
    requires HoldsWords(p, 0, Second0()) && HoldsWords(p, 4, Second1())
    requires HoldsWords(p, 8, Second2()) && HoldsWords(p, 12, Second3())
    ensures Compress(Middle(), p) == Hash()
  {
    hide HoldsWords, Rounds, Compress, AddsUpTo, Second15, Hash;
    SecondTo16(p);
    SecondTo64(p);
    SecondSums();
    LastSums(Middle(), p, Hash());
  }

  // ----- The message -----

  lemma InGroup(t: nat, j: nat)
    requires t < 14 && j < 4
    ensures Message()[4 * t + j] == GROUPS[t][j]
  {
    assert (4 * t + j) / 4 == t && (4 * t + j) % 4 == j;
  }

  lemma CopiesMessage(p: seq<byte>)
    requires |p| == 128 && p[..56] == Message()
    requires forall i :: 56 <= i < 120 ==> p[i] == if i == 56 then 0x80 else 0
    ensures StartsWithMessage(p)
  {
    hide Message;
    forall t, j | 0 <= t < 14 && 0 <= j < 4
      ensures p[4 * t + j] == GROUPS[t][j]
    {
      InGroup(t, j);
      assert p[4 * t + j] == p[..56][4 * t + j];
    }
  }

  lemma PaddedMessage()
    ensures StartsWithMessage(Pad(Message()))
  {
    hide *;
    EndOfMessage();
    PadSuffix(Message());
    PadBytes(Message());
    CopiesMessage(Pad(Message()));
  }

  lemma LengthBytes()
    ensures LowByte(448 / 256) == 1 && LowByte(448) == 0xc0
  {
  }

  lemma ZerosAfter56()
    ensures ZeroCount(56) == 63
  {
    hide Aligns;
  }

  lemma EndOfMessage()
    ensures |Pad(Message())| == 128 && Pad(Message())[120..] == [0, 0, 0, 0, 0, 0, 1, 0xc0]
  {
    hide *;
    ZerosAfter56();
    PadLength(Message());
    PadSuffix(Message());
    ShortLength(448);
    LengthBytes();
  }

  /** The message, the first padding byte and the zero bytes before the length field. */
  predicate StartsWithMessage(p: seq<byte>) {
    && |p| == 128 && (forall t, j :: 0 <= t < 14 && 0 <= j < 4 ==> p[4 * t + j] == GROUPS[t][j])
    && forall i :: 56 <= i < 120 ==> p[i] == if i == 56 then 0x80 else 0
  }

  function GroupWord(t: nat): word
    requires t < 14
  {
    WordOfBytes(GROUPS[t][0], GROUPS[t][1], GROUPS[t][2], GROUPS[t][3])
  }

  lemma GroupIsWord(p: seq<byte>, t: nat)
    requires StartsWithMessage(p) && t < 14
    ensures W(p[..64], t) == GroupWord(t)
  {
    hide WordOfBytes;
    assert p[4 * t + 0] == GROUPS[t][0] && p[4 * t + 1] == GROUPS[t][1];
    assert p[4 * t + 2] == GROUPS[t][2] && p[4 * t + 3] == GROUPS[t][3];
  }

  lemma GroupWords()
    ensures First0() == Four(GroupWord(0), GroupWord(1), GroupWord(2), GroupWord(3), First0().end)
    ensures First1() == Four(GroupWord(4), GroupWord(5), GroupWord(6), GroupWord(7), First1().end)
    ensures First2() == Four(GroupWord(8), GroupWord(9), GroupWord(10), GroupWord(11), First2().end)
    ensures First3().w0 == GroupWord(12) && First3().w1 == GroupWord(13)
  {
  }

  lemma EndOfFirst(p: seq<byte>)
    requires StartsWithMessage(p)
    ensures W(p[..64], 14) == First3().w2 && W(p[..64], 15) == First3().w3
  {
  }

  lemma FirstWords(p: seq<byte>)
    requires StartsWithMessage(p)
    ensures HoldsWords(p[..64], 0, First0()) && HoldsWords(p[..64], 4, First1())
    ensures HoldsWords(p[..64], 8, First2()) && HoldsWords(p[..64], 12, First3())
  {
    hide W, GroupWord, First0, First1, First2, First3;
    forall t | 0 <= t < 14
      ensures W(p[..64], t) == GroupWord(t)
    {
      GroupIsWord(p, t);
    }
    GroupWords();
    EndOfFirst(p);
  }

  lemma SecondWords(p: seq<byte>)
    requires StartsWithMessage(p) && p[120..] == [0, 0, 0, 0, 0, 0, 1, 0xc0]
    ensures HoldsWords(p[64..], 0, Second0()) && HoldsWords(p[64..], 4, Second1())
    ensures HoldsWords(p[64..], 8, Second2()) && HoldsWords(p[64..], 12, Second3())
  {
  }

  lemma Spelling0()
    ensures Spells(Hash(), DIGEST, 0) && Spells(Hash(), DIGEST, 1)
  {
  }

  lemma Spelling1()
    ensures Spells(Hash(), DIGEST, 2) && Spells(Hash(), DIGEST, 3)
  {
  }

  lemma Spelling2()
    ensures Spells(Hash(), DIGEST, 4) && Spells(Hash(), DIGEST, 5)
    ensures Spells(Hash(), DIGEST, 6) && Spells(Hash(), DIGEST, 7)
  {
  }

  /** The known answer. */
  lemma KnownDigest()
    ensures Sha256(Message()) == DIGEST
  {
    hide *;
    var p := Pad(Message());
    PaddedMessage();
    EndOfMessage();
    FirstWords(p);
    SecondWords(p);
    FirstCompressed(p[..64]);
    SecondCompressed(p[64..]);
    Spelling0();
    Spelling1();
    Spelling2();
    TwoBlockMessage(Message(), Middle(), Hash(), DIGEST);
  }
}
