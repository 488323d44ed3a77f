/** The hash of every padding leaf is the digest of the character "0". */
module AnswerZero {
  import opened Bytes
  import opened Sha256Spec
  import opened KnownAnswers
  import opened MhtDefs

  /** The message "0". */
  const MESSAGE: seq<byte> := [0x30]

  // ----- The compression -----

  function Four0(): Four {
    Four(0x30800000, 0x00000000, 0x00000000, 0x00000000,
         Working(0x2ab68016, 0xfb944c8f, 0xb5c2efa6, 0x2c88884d, 0x0b96a97f, 0xae777d84, 0x9cbdc1ee, 0xc947e2a2))
  }

  function Four1(): Four {
    Four(0x00000000, 0x00000000, 0x00000000, 0x00000000,
         Working(0xf74e0173, 0x2be800fe, 0x094334c2, 0xc52d2017, 0xeb92b8e3, 0xf5c19e6b, 0x8ddce5d9, 0xe6022ec3))
  }

  function Four2(): Four {
    Four(0x00000000, 0x00000000, 0x00000000, 0x00000000,
         Working(0x31020f6b, 0x5eff1290, 0xf553536a, 0xf7f9f6fa, 0xb0dd4bbd, 0x283cea7f, 0x18bc5d84, 0xc393202e))
  }

  function Four3(): Four {
    Four(0x00000000, 0x00000000, 0x00000000, 0x00000008,
         Working(0xb07f9dca, 0xefc657cb, 0x4b591406, 0x82d646b6, 0xb8b99230, 0xf4bf5d51, 0x61bb03aa, 0x46588338))
  }

  function Four4(): Four {
    Four(0x30800000, 0x00050000, 0x000c3e50, 0x20000142,
         Working(0xe02997c6, 0x78524442, 0x5ac866d4, 0xcd084bd2, 0x434a945b, 0x8e44ad9e, 0xebd7e98e, 0xa8422e6f))
  }

  function Four5(): Four {
    Four(0x98e20308, 0x00815400, 0x41c367f5, 0xb1002005,
         Working(0xbb3e2f6e, 0x2db03f24, 0x29aa2e6a, 0x75bd8029, 0x3afda60e, 0xf2d68e8f, 0x6a14a8cc, 0x2a1b05f8))
  }

  function Four6(): Four {
    Four(0xdf197800, 0x143a6cf8, 0xb337b373, 0x14c80909,
         Working(0x743e14d6, 0x5d3ce7ae, 0x9498246f, 0xf309247d, 0x00c0b65d, 0x3109eedb, 0x874dfcd3, 0x12048c72))
  }

  function Four7(): Four {
    Four(0x307cb611, 0x476402f4, 0x8ec8c122, 0x66bff686,
         Working(0x77d0aa1a, 0x9a0121ea, 0x52c258e0, 0x889313a3, 0xa4387af3, 0xcbda7755, 0x57a65757, 0x6370961d))
  }

  function Four8(): Four {
    Four(0xfd51bb86, 0x685ca39d, 0x7f71c4ef, 0x991367bf,
         Working(0x6ad3905a, 0x113e54c6, 0x8240c015, 0xcb411979, 0x8437e598, 0x84c27a8d, 0x3c45f400, 0x71840656))
  }

  function Four9(): Four {
    Four(0x104cba2b, 0xa99f4ad5, 0x881bbf7c, 0x3ec90bef,
         Working(0x1019b13d, 0x4a76be34, 0x64e155ee, 0xc689e4fc, 0xfa441f8a, 0x41d6721a, 0x72ae82bb, 0x395152fe))
  }

  function Four10(): Four {
    Four(0x597b2bc6, 0x560e72ab, 0x4fcba88b, 0x2615293f,
         Working(0x4efa2de6, 0x975c472c, 0x67ad25cb, 0x5ad0651e, 0x998860a1, 0x4c1286bc, 0x726b0fce, 0x35be7c1c))
  }

  function Four11(): Four {
    Four(0x5c42975e, 0x65bddf06, 0xe4a0daaf, 0x9166debd,
         Working(0xda6ec9cf, 0xfa5734ed, 0x339f6e50, 0x8093d744, 0xf1a7d906, 0x8b390534, 0x3f14696a, 0x7f2cb0e1))
  }

  function Four12(): Four {
    Four(0xe8d7cc46, 0x0d007418, 0x7b18372c, 0xa486107c,
         Working(0xa1076769, 0xe9ce0573, 0x1343b033, 0xf7f053c9, 0x9dbb1f3a, 0xc539ae39, 0x29704007, 0x7a625fd4))
  }

  function Four13(): Four {
    Four(0x004dcbbb, 0x60256f72, 0x118d0e6e, 0x8f5c52f3,
         Working(0x628fe426, 0xb769e589, 0x387e13b4, 0x19c8e9a8, 0xe42c84f7, 0xfbf8ef58, 0x395f0a34, 0x21e0a099))
  }

  function Four14(): Four {
    Four(0x4e4150c5, 0x696f3cda, 0xa77c9eb3, 0xb3365824,
         Working(0x9fcd0db1, 0xa9b15a81, 0x6280ba6a, 0xedcba9ad, 0x9dd019a2, 0xb57504c7, 0x9a77b4f0, 0x4f2438b5))
  }

  function Four15(): Four {
    Four(0x10cbd877, 0xd47b93a7, 0xe9cff85f, 0xff1529fd,
         Working(0xf5e304ff, 0x4460c0b3, 0x9ce384fa, 0xc819773f, 0x71cd6fba, 0x42492928, 0x47a5fd8f, 0xcc1a8ad0))
  }

  function Hash(): HashValue {
    [0x5feceb66, 0xffc86f38, 0xd952786c, 0x6d696c79, 0xc2dbc239, 0xdd4e91b4, 0x6729d73a, 0x27fb57e9]
  }

  lemma FourSteps0()
    ensures NextState(StateOf(IV), Four0(), 0)
    ensures NextState(Four0().end, Four1(), 4)
  {
    hide K;
    Constants0();
  }

  lemma FourSteps8()
    ensures NextState(Four1().end, Four2(), 8)
    ensures NextState(Four2().end, Four3(), 12)
  {
    hide K;
    Constants8();
  }

  lemma FourSteps16()
    ensures NextWords(Four0(), Four1(), Four2(), Four3(), Four4())
    ensures NextState(Four3().end, Four4(), 16)
    ensures NextWords(Four1(), Four2(), Four3(), Four4(), Four5())
    ensures NextState(Four4().end, Four5(), 20)
  {
    hide K;
    Constants16();
  }

  lemma FourSteps24()
    ensures NextWords(Four2(), Four3(), Four4(), Four5(), Four6())
    ensures NextState(Four5().end, Four6(), 24)
    ensures NextWords(Four3(), Four4(), Four5(), Four6(), Four7())
    ensures NextState(Four6().end, Four7(), 28)
  {
    hide K;
    Constants24();
  }

  lemma FourSteps32()
    ensures NextWords(Four4(), Four5(), Four6(), Four7(), Four8())
    ensures NextState(Four7().end, Four8(), 32)
    ensures NextWords(Four5(), Four6(), Four7(), Four8(), Four9())
    ensures NextState(Four8().end, Four9(), 36)
  {
    hide K;
    Constants32();
  }

  lemma FourSteps40()
    ensures NextWords(Four6(), Four7(), Four8(), Four9(), Four10())
    ensures NextState(Four9().end, Four10(), 40)
    ensures NextWords(Four7(), Four8(), Four9(), Four10(), Four11())
    ensures NextState(Four10().end, Four11(), 44)
  {
    hide K;
    Constants40();
  }

  lemma FourSteps48()
    ensures NextWords(Four8(), Four9(), Four10(), Four11(), Four12())
    ensures NextState(Four11().end, Four12(), 48)
    ensures NextWords(Four9(), Four10(), Four11(), Four12(), Four13())
    ensures NextState(Four12().end, Four13(), 52)
  {
    hide K;
    Constants48();
  }

  lemma FourSteps56()
    ensures NextWords(Four10(), Four11(), Four12(), Four13(), Four14())
    ensures NextState(Four13().end, Four14(), 56)
    ensures NextWords(Four11(), Four12(), Four13(), Four14(), Four15())
    ensures NextState(Four14().end, Four15(), 60)
  {
    hide K;
    Constants56();
  }

  lemma FourSums()
    ensures AddsUpTo(IV, Four15().end, Hash())
  {
  }

  lemma FourTo16(p: Block)
    requires HoldsWords(p, 0, Four0()) && HoldsWords(p, 4, Four1())
    requires HoldsWords(p, 8, Four2()) && HoldsWords(p, 12, Four3())
    ensures Reached(IV, p, 16, Four0(), Four1(), Four2(), Four3())
  {
    hide HoldsWords, NextState, Four0, Four1, Four2, Four3, StateOf, Rounds, K;
    NoRounds(IV, p);
    FourSteps0();
    LoadedRounds(IV, p, 0, StateOf(IV), Four0());
    LoadedRounds(IV, p, 4, Four0().end, Four1());
    FourSteps8();
    LoadedRounds(IV, p, 8, Four1().end, Four2());
    LoadedRounds(IV, p, 12, Four2().end, Four3());
  }

  lemma FourTo64(p: Block)
    requires Reached(IV, p, 16, Four0(), Four1(), Four2(), Four3())
    ensures Reached(IV, p, 64, Four12(), Four13(), Four14(), Four15())
  {
    hide *;
    FourSteps16();
    ScheduledRounds(IV, p, 16, Four0(), Four1(), Four2(), Four3(), Four4());
    ScheduledRounds(IV, p, 20, Four1(), Four2(), Four3(), Four4(), Four5());
    FourSteps24();
    ScheduledRounds(IV, p, 24, Four2(), Four3(), Four4(), Four5(), Four6());
    ScheduledRounds(IV, p, 28, Four3(), Four4(), Four5(), Four6(), Four7());
    FourSteps32();
    ScheduledRounds(IV, p, 32, Four4(), Four5(), Four6(), Four7(), Four8());
    ScheduledRounds(IV, p, 36, Four5(), Four6(), Four7(), Four8(), Four9());
    FourSteps40();
    ScheduledRounds(IV, p, 40, Four6(), Four7(), Four8(), Four9(), Four10());
    ScheduledRounds(IV, p, 44, Four7(), Four8(), Four9(), Four10(), Four11());
    FourSteps48();
    ScheduledRounds(IV, p, 48, Four8(), Four9(), Four10(), Four11(), Four12());
    ScheduledRounds(IV, p, 52, Four9(), Four10(), Four11(), Four12(), Four13());
    FourSteps56();
    ScheduledRounds(IV, p, 56, Four10(), Four11(), Four12(), Four13(), Four14());
    ScheduledRounds(IV, p, 60, Four11(), Four12(), Four13(), Four14(), Four15());
  }

  lemma FourCompressed(p: Block)
    requires HoldsWords(p, 0, Four0()) && HoldsWords(p, 4, Four1())
    requires HoldsWords(p, 8, Four2()) && HoldsWords(p, 12, Four3())
    ensures Compress(IV, p) == Hash()
  {
    hide HoldsWords, Rounds, Compress, AddsUpTo, Four15, Hash;
    FourTo16(p);
    FourTo64(p);
    FourSums();
    LastSums(IV, p, Hash());
  }

  // ----- The message -----

  lemma Words()
    ensures |Pad(MESSAGE)| == 64
    ensures HoldsWords(Pad(MESSAGE), 0, Four0()) && HoldsWords(Pad(MESSAGE), 4, Four1())
    ensures HoldsWords(Pad(MESSAGE), 8, Four2()) && HoldsWords(Pad(MESSAGE), 12, Four3())
  {
    hide Pad, W;
    PadBytes(MESSAGE);
    TinyMessage(MESSAGE);
  }

  lemma Spelling0()
    ensures Spells(Hash(), ZERO_HASH, 0) && Spells(Hash(), ZERO_HASH, 1)
  {
  }

  lemma Spelling1()
    ensures Spells(Hash(), ZERO_HASH, 2) && Spells(Hash(), ZERO_HASH, 3)
  {
  }

  lemma Spelling2()
    ensures Spells(Hash(), ZERO_HASH, 4) && Spells(Hash(), ZERO_HASH, 5)
    ensures Spells(Hash(), ZERO_HASH, 6) && Spells(Hash(), ZERO_HASH, 7)
  {
  }

  /** The known answer. */
  lemma KnownDigest()
    ensures Sha256(MESSAGE) == ZERO_HASH
  {
    hide *;
    Words();
    FourCompressed(Pad(MESSAGE));
    Spelling0();
    Spelling1();
    Spelling2();
    ShortMessage(MESSAGE, Hash(), ZERO_HASH);
  }
}
