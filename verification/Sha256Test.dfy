/** sha256_test.c: the cases with one and with two blocks, hashed through the interface. */
module Sha256Test {
  import opened Bytes
  import Sha256Spec
  import Sha256Impl
  import AnswerAbc
  import AnswerTwoBlocks

  method KnownCases() returns (pass: bool)
    ensures pass
  {
    hide Sha256Spec.Sha256;
    var buf := new byte[32];
    pass := true;
    Sha256Impl.HashBuffer(AnswerAbc.MESSAGE, buf);
    AnswerAbc.KnownDigest();
    pass := pass && buf[..32] == AnswerAbc.DIGEST;
    Sha256Impl.HashBuffer(AnswerTwoBlocks.Message(), buf);
    AnswerTwoBlocks.KnownDigest();
    pass := pass && buf[..32] == AnswerTwoBlocks.DIGEST;
  }
}
