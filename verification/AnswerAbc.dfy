/** The first case of sha256_test.c. */
module AnswerAbc {
  import opened Bytes
  import opened Sha256Spec
  import opened KnownAnswers

  /** The message "abc". */
  const MESSAGE: seq<byte> := [0x61, 0x62, 0x63]

  const DIGEST: Digest := [
    0xba, 0x78, 0x16, 0xbf, 0x8f, 0x01, 0xcf, 0xea, 0x41, 0x41, 0x40, 0xde, 0x5d, 0xae, 0x22, 0x23,
    0xb0, 0x03, 0x61, 0xa3, 0x96, 0x17, 0x7a, 0x9c, 0xb4, 0x10, 0xff, 0x61, 0xf2, 0x00, 0x15, 0xad
  ]

  // ----- The compression -----

  function Four0(): Four {
    Four(0x61626380, 0x00000000, 0x00000000, 0x00000000,
         Working(0xd550f666, 0xc8c347a7, 0x5a6ad9ad, 0x5d6aebcd, 0x24e00850, 0xf92939eb, 0x78ce7989, 0xfa2a4622))
  }

  function Four1(): Four {
    Four(0x00000000, 0x00000000, 0x00000000, 0x00000000,
         Working(0x85a07b5f, 0xe5030380, 0x2b4209f5, 0x04409a6a, 0x0c657a79, 0x9b27a401, 0x714260ad, 0x43ada245))
  }

  function Four2(): Four {
    Four(0x00000000, 0x00000000, 0x00000000, 0x00000000,
         Working(0xf71fc5a9, 0x4798a3f4, 0x8c87346b, 0x8e04ecb9, 0x816fd6e9, 0x436b23e8, 0x1cc92596, 0x32ca2d8c))
  }

  function Four3(): Four {
    Four(0x00000000, 0x00000000, 0x00000000, 0x00000018,
         Working(0xb0fa238e, 0xc0645fde, 0xd932eb16, 0x87912990, 0x07590dcd, 0x0b92f20c, 0x745a48de, 0x1e578218))
  }

  function Four4(): Four {
    Four(0x61626380, 0x000f0000, 0x7da86405, 0x600003c6,
         Working(0xe1f20c33, 0xfe777bbf, 0xc2fbd9d1, 0x21da9a9b, 0xb0638179, 0xcc899961, 0x846ee454, 0x8034229c))
  }

  function Four5(): Four {
    Four(0x3e9d7b78, 0x0183fc00, 0x12dcbfdb, 0xe2e2c38e,
         Working(0xc5d53d8d, 0xa7a3623f, 0xc2606d6d, 0x9dc68b63, 0xaa47c347, 0x49f5114a, 0xe1257970, 0x8ada8930))
  }

  function Four6(): Four {
    Four(0xc8215c1a, 0xb73679a2, 0xe5bc3909, 0x32663c5b,
         Working(0x77d37528, 0xb62ec4bc, 0xcde8037d, 0x1c2c2838, 0xedffbff8, 0xc74c6516, 0x14383d8e, 0x2823ef91))
  }

  function Four7(): Four {
    Four(0x9d209d67, 0xec8726cb, 0x702138a4, 0xd3b7973b,
         Working(0x73b33bf5, 0xea992a22, 0xa0060b30, 0x363482c9, 0xba591112, 0x0109ab3a, 0xade79437, 0x6112a3b7))
  }

  function Four8(): Four {
    Four(0x93f5997f, 0x3b68ba73, 0xaff4ffc1, 0xf10a5c62,
         Working(0x65a0cfe4, 0xa9a7738c, 0xfe604df5, 0x98e12507, 0xf4b002d6, 0x085f3833, 0x59249dd3, 0x9cd9f5f6))
  }

  function Four9(): Four {
    Four(0x0a8b3996, 0x72af830a, 0x9409e33e, 0x24641522,
         Working(0x79ea687a, 0x6dc57a8a, 0x34df1604, 0x41a65cb1, 0x1efbc0a0, 0xf0781bc8, 0xa507a53d, 0x0772a26b))
  }

  function Four10(): Four {
    Four(0x9f47bf94, 0xf0a64f5a, 0x3e246a79, 0x27333ba3,
         Working(0x9d4baf93, 0x17aa0dfe, 0xdf46652f, 0xd6670766, 0xfda24c2e, 0xdecd4715, 0x838b2711, 0x26352d63))
  }

  function Four11(): Four {
    Four(0x0c4763f2, 0x840abf27, 0x7a290d5d, 0x065c43da,
         Working(0x4172328d, 0xa14c14b0, 0x72ab4b91, 0x26628815, 0xfecf0bc6, 0xd57b94a9, 0xb7755da1, 0xa80f11f0))
  }

  function Four12(): Four {
    Four(0xfb3e89cb, 0xcc7617db, 0xb9e66c34, 0xa9993667,
         Working(0x886e7a22, 0x7a0508a1, 0xf11bfaa8, 0x05757ceb, 0x49231c1e, 0x52f1ccf7, 0x6e5c390c, 0xbd714038))
  }

  function Four13(): Four {
    Four(0x84badedd, 0xc21462bc, 0x1487472c, 0xb20f7a99,
         Working(0x38cc9913, 0x3ec45cdb, 0xf5702fdb, 0x101fd28f, 0x54cb266b, 0xe50e1b4f, 0x9f4787c3, 0x529e7d00))
  }

  function Four14(): Four {
    Four(0xef57b9cd, 0xebe6b238, 0x9fe3095e, 0x78bc8d4b,
         Working(0xb6ae8fff, 0xffb70472, 0xc062d46f, 0xfcd1887b, 0xb21bad3d, 0x6d83bfc6, 0x7e44008e, 0x9b5e906c))
  }

  function Four15(): Four {
    Four(0xa43fcf15, 0x668b2ff8, 0xeeaba2cc, 0x12b1edeb,
         Working(0x506e3058, 0xd39a2165, 0x04d24d6c, 0xb85e2ce9, 0x5ef50f24, 0xfb121210, 0x948d25b6, 0x961f4894))
  }

  function Hash(): HashValue {
    [0xba7816bf, 0x8f01cfea, 0x414140de, 0x5dae2223, 0xb00361a3, 0x96177a9c, 0xb410ff61, 0xf20015ad]
  }

  lemma FourSteps0()
    ensures NextState(StateOf(IV), Four0(), 0)
    ensures NextState(Four0().end, Four1(), 4)
  {
    hide K;
    Constants0();
  }

  lemma FourSteps8()
    ensures NextState(Four1().end, Four2(), 8)
    ensures NextState(Four2().end, Four3(), 12)
  {
    hide K;
    Constants8();
  }

  lemma FourSteps16()
    ensures NextWords(Four0(), Four1(), Four2(), Four3(), Four4())
    ensures NextState(Four3().end, Four4(), 16)
    ensures NextWords(Four1(), Four2(), Four3(), Four4(), Four5())
    ensures NextState(Four4().end, Four5(), 20)
  {
    hide K;
    Constants16();
  }

  lemma FourSteps24()
    ensures NextWords(Four2(), Four3(), Four4(), Four5(), Four6())
    ensures NextState(Four5().end, Four6(), 24)
    ensures NextWords(Four3(), Four4(), Four5(), Four6(), Four7())
    ensures NextState(Four6().end, Four7(), 28)
  {
    hide K;
    Constants24();
  }

  lemma FourSteps32()
    ensures NextWords(Four4(), Four5(), Four6(), Four7(), Four8())
    ensures NextState(Four7().end, Four8(), 32)
    ensures NextWords(Four5(), Four6(), Four7(), Four8(), Four9())
    ensures NextState(Four8().end, Four9(), 36)
  {
    hide K;
    Constants32();
  }

  lemma FourSteps40()
    ensures NextWords(Four6(), Four7(), Four8(), Four9(), Four10())
    ensures NextState(Four9().end, Four10(), 40)
    ensures NextWords(Four7(), Four8(), Four9(), Four10(), Four11())
    ensures NextState(Four10().end, Four11(), 44)
  {
    hide K;
    Constants40();
  }

  lemma FourSteps48()
    ensures NextWords(Four8(), Four9(), Four10(), Four11(), Four12())
    ensures NextState(Four11().end, Four12(), 48)
    ensures NextWords(Four9(), Four10(), Four11(), Four12(), Four13())
    ensures NextState(Four12().end, Four13(), 52)
  {
    hide K;
    Constants48();
  }

  lemma FourSteps56()
    ensures NextWords(Four10(), Four11(), Four12(), Four13(), Four14())
    ensures NextState(Four13().end, Four14(), 56)
    ensures NextWords(Four11(), Four12(), Four13(), Four14(), Four15())
    ensures NextState(Four14().end, Four15(), 60)
  {
    hide K;
    Constants56();
  }

  lemma FourSums()
    ensures AddsUpTo(IV, Four15().end, Hash())
  {
  }

  lemma FourTo16(p: Block)
    requires HoldsWords(p, 0, Four0()) && HoldsWords(p, 4, Four1())
    requires HoldsWords(p, 8, Four2()) && HoldsWords(p, 12, Four3())
    ensures Reached(IV, p, 16, Four0(), Four1(), Four2(), Four3())
  {
    hide HoldsWords, NextState, Four0, Four1, Four2, Four3, StateOf, Rounds, K;
    NoRounds(IV, p);
    FourSteps0();
    LoadedRounds(IV, p, 0, StateOf(IV), Four0());
    LoadedRounds(IV, p, 4, Four0().end, Four1());
    FourSteps8();
    LoadedRounds(IV, p, 8, Four1().end, Four2());
    LoadedRounds(IV, p, 12, Four2().end, Four3());
  }

  lemma FourTo64(p: Block)
    requires Reached(IV, p, 16, Four0(), Four1(), Four2(), Four3())
    ensures Reached(IV, p, 64, Four12(), Four13(), Four14(), Four15())
  {
    hide *;
    FourSteps16();
    ScheduledRounds(IV, p, 16, Four0(), Four1(), Four2(), Four3(), Four4());
    ScheduledRounds(IV, p, 20, Four1(), Four2(), Four3(), Four4(), Four5());
    FourSteps24();
    ScheduledRounds(IV, p, 24, Four2(), Four3(), Four4(), Four5(), Four6());
    ScheduledRounds(IV, p, 28, Four3(), Four4(), Four5(), Four6(), Four7());
    FourSteps32();
    ScheduledRounds(IV, p, 32, Four4(), Four5(), Four6(), Four7(), Four8());
    ScheduledRounds(IV, p, 36, Four5(), Four6(), Four7(), Four8(), Four9());
    FourSteps40();
    ScheduledRounds(IV, p, 40, Four6(), Four7(), Four8(), Four9(), Four10());
    ScheduledRounds(IV, p, 44, Four7(), Four8(), Four9(), Four10(), Four11());
    FourSteps48();
    ScheduledRounds(IV, p, 48, Four8(), Four9(), Four10(), Four11(), Four12());
    ScheduledRounds(IV, p, 52, Four9(), Four10(), Four11(), Four12(), Four13());
    FourSteps56();
    ScheduledRounds(IV, p, 56, Four10(), Four11(), Four12(), Four13(), Four14());
    ScheduledRounds(IV, p, 60, Four11(), Four12(), Four13(), Four14(), Four15());
  }

  lemma FourCompressed(p: Block)
    requires HoldsWords(p, 0, Four0()) && HoldsWords(p, 4, Four1())
    requires HoldsWords(p, 8, Four2()) && HoldsWords(p, 12, Four3())
    ensures Compress(IV, p) == Hash()
  {
    hide HoldsWords, Rounds, Compress, AddsUpTo, Four15, Hash;
    FourTo16(p);
    FourTo64(p);
    FourSums();
    LastSums(IV, p, Hash());
  }

  // ----- The message -----

  lemma Words()
    ensures |Pad(MESSAGE)| == 64
    ensures HoldsWords(Pad(MESSAGE), 0, Four0()) && HoldsWords(Pad(MESSAGE), 4, Four1())
    ensures HoldsWords(Pad(MESSAGE), 8, Four2()) && HoldsWords(Pad(MESSAGE), 12, Four3())
  {
    hide Pad, W;
    PadBytes(MESSAGE);
    TinyMessage(MESSAGE);
  }

  lemma Spelling0()
    ensures Spells(Hash(), DIGEST, 0) && Spells(Hash(), DIGEST, 1)
  {
  }

  lemma Spelling1()
    ensures Spells(Hash(), DIGEST, 2) && Spells(Hash(), DIGEST, 3)
  {
  }

  lemma Spelling2()
    ensures Spells(Hash(), DIGEST, 4) && Spells(Hash(), DIGEST, 5)
    ensures Spells(Hash(), DIGEST, 6) && Spells(Hash(), DIGEST, 7)
  {
  }

  /** The known answer. */
  lemma KnownDigest()
    ensures Sha256(MESSAGE) == DIGEST
  {
    hide *;
    Words();
    FourCompressed(Pad(MESSAGE));
    Spelling0();
    Spelling1();
    Spelling2();
    ShortMessage(MESSAGE, Hash(), DIGEST);
  }
}
