/**
 The modes around the block of appendix C.1 of FIPS 197: the operand of every call of the cipher is that block, so
 the whole cipher text is known.
 */
module AesModeExamples {
  import opened AesTables
  import opened AesCipher
  import opened AesKeys
  import opened AesBlocks
  import opened AesModes
  import opened AesExamples

  const CIPHER: Block :=
    [0x69, 0xc4, 0xe0, 0xd8, 0x6a, 0x7b, 0x04, 0x30, 0xd8, 0xcd, 0xb7, 0x80, 0x70, 0xb4, 0xc5, 0x5a]

  /** In chaining mode the example's plain text has to be masked with what comes before it. */
  lemma ExampleCbc(iv: Block, c: Bytes)
    requires Encrypted(Expanded(KEY_128), Cbc(iv), XorBlock(PLAIN, iv) + XorBlock(PLAIN, CIPHER), c)
    ensures c == CIPHER + CIPHER
  {
    hide EncryptBlock, Expanded;
    Example128();
    var p := XorBlock(PLAIN, iv) + XorBlock(PLAIN, CIPHER);
    assert Blk(p, 0) == XorBlock(PLAIN, iv) && Blk(p, 1) == XorBlock(PLAIN, CIPHER);
    XorBlockTwice(PLAIN, iv);
    XorBlockTwice(PLAIN, CIPHER);
    assert Blk(c, 0) == CIPHER && Blk(c, 1) == CIPHER;
    assert c == Blk(c, 0) + Blk(c, 1);
  }

  lemma ExampleEcb(c: Bytes)
    requires Encrypted(Expanded(KEY_128), Ecb, PLAIN + PLAIN, c)
    ensures c == CIPHER + CIPHER
  {
    hide EncryptBlock, Expanded;
    Example128();
    var p: Bytes := PLAIN + PLAIN;
    assert Blk(p, 0) == PLAIN && Blk(p, 1) == PLAIN;
    assert XorBlock(PLAIN, Zero()) == PLAIN;
    assert Blk(c, 0) == CIPHER && Blk(c, 1) == CIPHER;
    assert c == Blk(c, 0) + Blk(c, 1);
  }
}
