/** The example of FIPS 180-4 for SHA-1: the message "abc", word by word and round by round; and the constants. */
module Sha1Example {
  import opened BigEndian
  import opened Sha1

  /** Section 4.2.1: the constants are the integer parts of the square roots of 2, 3, 5 and 10, times 2 to the power 30. */
  lemma ConstantsAreRoots(t: nat)
    requires t < 80
    ensures var k, n := K(t) as nat, [2, 3, 5, 10][t / 20];
            k * k <= n * 0x1000_0000_0000_0000 < (k + 1) * (k + 1)
  {
  }

  const MESSAGE: seq<Byte> := [0x61, 0x62, 0x63]

  /** The only block of the padded message. */
  const BLOCK: Block := [0x61, 0x62, 0x63, 0x80] + Zeros(59) + [24]

  lemma BlockBytes(i: nat)
    requires i < 64
    ensures BLOCK[i] == if i == 0 then 0x61 else if i == 1 then 0x62 else if i == 2 then 0x63
                        else if i == 3 then 0x80 else if i == 63 then 24 else 0
  {
  }

  lemma MessagePadded()
    ensures Padded(MESSAGE) == BLOCK
  {
    hide Digit;
    LengthDigits();
    forall i | 0 <= i < 64 ensures Padded(MESSAGE)[i] == BLOCK[i] {
      BlockBytes(i);
    }
  }

  lemma BlockWords(t: nat)
    requires t < 16
    ensures W(BLOCK, t) == if t == 0 then 0x61626380 else if t == 15 then 24 else 0
  {
    hide W;
    FirstWords(BLOCK, t);
    BlockBytes(4 * t);
    BlockBytes(4 * t + 1);
    BlockBytes(4 * t + 2);
    BlockBytes(4 * t + 3);
    hide BLOCK;
  }

  lemma LengthDigits()
    ensures Digit(24, 7) == Digit(24, 6) == Digit(24, 5) == Digit(24, 4) == Digit(24, 3) == Digit(24, 2) == Digit(24, 1) == 0
    ensures Digit(24, 0) == 24
  {
    HighBytesZero(24);
    FourDigits(0);
    OnlyZero(0, 4);
  }

  lemma Words0()
    ensures W(BLOCK, 0) == 0x61626380 && W(BLOCK, 1) == 0x00000000 && W(BLOCK, 2) == 0x00000000 && W(BLOCK, 3) == 0x00000000
    ensures W(BLOCK, 4) == 0x00000000 && W(BLOCK, 5) == 0x00000000 && W(BLOCK, 6) == 0x00000000 && W(BLOCK, 7) == 0x00000000
  {
    hide W;
    BlockWords(0);
    BlockWords(1);
    BlockWords(2);
    BlockWords(3);
    BlockWords(4);
    BlockWords(5);
    BlockWords(6);
    BlockWords(7);
  }

  lemma Words8()
    ensures W(BLOCK, 8) == 0x00000000 && W(BLOCK, 9) == 0x00000000 && W(BLOCK, 10) == 0x00000000 && W(BLOCK, 11) == 0x00000000
    ensures W(BLOCK, 12) == 0x00000000 && W(BLOCK, 13) == 0x00000000 && W(BLOCK, 14) == 0x00000000 && W(BLOCK, 15) == 0x00000018
  {
    hide W;
    BlockWords(8);
    BlockWords(9);
    BlockWords(10);
    BlockWords(11);
    BlockWords(12);
    BlockWords(13);
    BlockWords(14);
    BlockWords(15);
  }

  lemma Words16()
    ensures W(BLOCK, 16) == 0xC2C4C700 && W(BLOCK, 17) == 0x00000000 && W(BLOCK, 18) == 0x00000030 && W(BLOCK, 19) == 0x85898E01
    ensures W(BLOCK, 20) == 0x00000000 && W(BLOCK, 21) == 0x00000060 && W(BLOCK, 22) == 0x0B131C03 && W(BLOCK, 23) == 0x00000030
  {
    hide W;
    Words0();
    Words8();
    LaterWords(BLOCK, 16);
    LaterWords(BLOCK, 17);
    LaterWords(BLOCK, 18);
    LaterWords(BLOCK, 19);
    LaterWords(BLOCK, 20);
    LaterWords(BLOCK, 21);
    LaterWords(BLOCK, 22);
    LaterWords(BLOCK, 23);
  }

  lemma Words24()
    ensures W(BLOCK, 24) == 0x85898EC1 && W(BLOCK, 25) == 0x16263806 && W(BLOCK, 26) == 0x00000000 && W(BLOCK, 27) == 0x00000180
    ensures W(BLOCK, 28) == 0x2C4C700C && W(BLOCK, 29) == 0x000000F0 && W(BLOCK, 30) == 0x93AFB507 && W(BLOCK, 31) == 0x5898E048
  {
    hide W;
    Words8();
    Words16();
    LaterWords(BLOCK, 24);
    LaterWords(BLOCK, 25);
    LaterWords(BLOCK, 26);
    LaterWords(BLOCK, 27);
    LaterWords(BLOCK, 28);
    LaterWords(BLOCK, 29);
    LaterWords(BLOCK, 30);
    LaterWords(BLOCK, 31);
  }

  lemma Words32()
    ensures W(BLOCK, 32) == 0x8E9A9202 && W(BLOCK, 33) == 0x00000600 && W(BLOCK, 34) == 0xB131C0F0 && W(BLOCK, 35) == 0x16263BC6
    ensures W(BLOCK, 36) == 0x4EBED41E && W(BLOCK, 37) == 0x626380A1 && W(BLOCK, 38) == 0x16263806 && W(BLOCK, 39) == 0x000018C0
  {
    hide W;
    Words16();
    Words24();
    LaterWords(BLOCK, 32);
    LaterWords(BLOCK, 33);
    LaterWords(BLOCK, 34);
    LaterWords(BLOCK, 35);
    LaterWords(BLOCK, 36);
    LaterWords(BLOCK, 37);
    LaterWords(BLOCK, 38);
    LaterWords(BLOCK, 39);
  }

  lemma Words40()
    ensures W(BLOCK, 40) == 0xD2E138C4 && W(BLOCK, 41) == 0x00000F00 && W(BLOCK, 42) == 0x3AFB5079 && W(BLOCK, 43) == 0x898E04E5
    ensures W(BLOCK, 44) == 0xE2BA3C2B && W(BLOCK, 45) == 0x000060C0 && W(BLOCK, 46) == 0x053A37CD && W(BLOCK, 47) == 0x74458547
  {
    hide W;
    Words24();
    Words32();
    LaterWords(BLOCK, 40);
    LaterWords(BLOCK, 41);
    LaterWords(BLOCK, 42);
    LaterWords(BLOCK, 43);
    LaterWords(BLOCK, 44);
    LaterWords(BLOCK, 45);
    LaterWords(BLOCK, 46);
    LaterWords(BLOCK, 47);
  }

  lemma Words48()
    ensures W(BLOCK, 48) == 0xDA9415ED && W(BLOCK, 49) == 0x26380A16 && W(BLOCK, 50) == 0x626383A1 && W(BLOCK, 51) == 0x4EBF54DE
    ensures W(BLOCK, 52) == 0x3835B44B && W(BLOCK, 53) == 0x0000F600 && W(BLOCK, 54) == 0x1E84C7A3 && W(BLOCK, 55) == 0x98E04D98
  {
    hide W;
    Words32();
    Words40();
    LaterWords(BLOCK, 48);
    LaterWords(BLOCK, 49);
    LaterWords(BLOCK, 50);
    LaterWords(BLOCK, 51);
    LaterWords(BLOCK, 52);
    LaterWords(BLOCK, 53);
    LaterWords(BLOCK, 54);
    LaterWords(BLOCK, 55);
  }

  lemma Words56()
    ensures W(BLOCK, 56) == 0x651D16A0 && W(BLOCK, 57) == 0x62658CA1 && W(BLOCK, 58) == 0x458544D6 && W(BLOCK, 59) == 0x44584CB7
    ensures W(BLOCK, 60) == 0x7BA06619 && W(BLOCK, 61) == 0x6380AEA2 && W(BLOCK, 62) == 0x0AE55269 && W(BLOCK, 63) == 0x627B49A1
  {
    hide W;
    Words40();
    Words48();
    LaterWords(BLOCK, 56);
    LaterWords(BLOCK, 57);
    LaterWords(BLOCK, 58);
    LaterWords(BLOCK, 59);
    LaterWords(BLOCK, 60);
    LaterWords(BLOCK, 61);
    LaterWords(BLOCK, 62);
    LaterWords(BLOCK, 63);
  }

  lemma Words64()
    ensures W(BLOCK, 64) == 0x7CD45C9D && W(BLOCK, 65) == 0x000F0000 && W(BLOCK, 66) == 0xFB50753A && W(BLOCK, 67) == 0xEC6765E8
    ensures W(BLOCK, 68) == 0xBA3C2BE2 && W(BLOCK, 69) == 0x0060C000 && W(BLOCK, 70) == 0x3A37CD05 && W(BLOCK, 71) == 0x458546F4
  {
    hide W;
    Words48();
    Words56();
    LaterWords(BLOCK, 64);
    LaterWords(BLOCK, 65);
    LaterWords(BLOCK, 66);
    LaterWords(BLOCK, 67);
    LaterWords(BLOCK, 68);
    LaterWords(BLOCK, 69);
    LaterWords(BLOCK, 70);
    LaterWords(BLOCK, 71);
  }

  lemma Words72()
    ensures W(BLOCK, 72) == 0xB8599DD6 && W(BLOCK, 73) == 0x380A1A26 && W(BLOCK, 74) == 0x01E02203 && W(BLOCK, 75) == 0xE7CC3456
    ensures W(BLOCK, 76) == 0xE6E60B69 && W(BLOCK, 77) == 0x00F60A00 && W(BLOCK, 78) == 0x5795EF4F && W(BLOCK, 79) == 0x822E0879
  {
    hide W;
    Words56();
    Words64();
    LaterWords(BLOCK, 72);
    LaterWords(BLOCK, 73);
    LaterWords(BLOCK, 74);
    LaterWords(BLOCK, 75);
    LaterWords(BLOCK, 76);
    LaterWords(BLOCK, 77);
    LaterWords(BLOCK, 78);
    LaterWords(BLOCK, 79);
  }

  lemma Rounds4()
    ensures Rounds(BLOCK, INITIAL, 4) == Digest(0xCDD8E11B, 0xA1390F08, 0x626414DB, 0xC045BF0C, 0x59D148C0)
  {
    hide Rounds, W;
    NoRounds(BLOCK, INITIAL);
    Words0();
    NextRound(BLOCK, INITIAL, 0);
    assert Rounds(BLOCK, INITIAL, 1) == Digest(0x0116FC33, 0x67452301, 0x7BF36AE2, 0x98BADCFE, 0x10325476);
    NextRound(BLOCK, INITIAL, 1);
    assert Rounds(BLOCK, INITIAL, 2) == Digest(0x8990536D, 0x0116FC33, 0x59D148C0, 0x7BF36AE2, 0x98BADCFE);
    NextRound(BLOCK, INITIAL, 2);
    assert Rounds(BLOCK, INITIAL, 3) == Digest(0xA1390F08, 0x8990536D, 0xC045BF0C, 0x59D148C0, 0x7BF36AE2);
    NextRound(BLOCK, INITIAL, 3);
  }

  lemma Rounds8()
    ensures Rounds(BLOCK, INITIAL, 8) == Digest(0x9E8C07D4, 0x993E30C1, 0x0FF1F290, 0xB3F52677, 0xF3763846)
  {
    hide Rounds, W;
    Rounds4();
    Words0();
    NextRound(BLOCK, INITIAL, 4);
    assert Rounds(BLOCK, INITIAL, 5) == Digest(0xCFD499DE, 0xCDD8E11B, 0x284E43C2, 0x626414DB, 0xC045BF0C);
    NextRound(BLOCK, INITIAL, 5);
    assert Rounds(BLOCK, INITIAL, 6) == Digest(0x3FC7CA40, 0xCFD499DE, 0xF3763846, 0x284E43C2, 0x626414DB);
    NextRound(BLOCK, INITIAL, 6);
    assert Rounds(BLOCK, INITIAL, 7) == Digest(0x993E30C1, 0x3FC7CA40, 0xB3F52677, 0xF3763846, 0x284E43C2);
    NextRound(BLOCK, INITIAL, 7);
  }

  lemma Rounds12()
    ensures Rounds(BLOCK, INITIAL, 12) == Digest(0x63188FE4, 0xFBDA9E89, 0x60D47E4A, 0x12DAB8CA, 0x27A301F5)
  {
    hide Rounds, W;
    Rounds8();
    Words8();
    NextRound(BLOCK, INITIAL, 8);
    assert Rounds(BLOCK, INITIAL, 9) == Digest(0x4B6AE328, 0x9E8C07D4, 0x664F8C30, 0x0FF1F290, 0xB3F52677);
    NextRound(BLOCK, INITIAL, 9);
    assert Rounds(BLOCK, INITIAL, 10) == Digest(0x8351F929, 0x4B6AE328, 0x27A301F5, 0x664F8C30, 0x0FF1F290);
    NextRound(BLOCK, INITIAL, 10);
    assert Rounds(BLOCK, INITIAL, 11) == Digest(0xFBDA9E89, 0x8351F929, 0x12DAB8CA, 0x27A301F5, 0x664F8C30);
    NextRound(BLOCK, INITIAL, 11);
  }

  lemma Rounds16()
    ensures Rounds(BLOCK, INITIAL, 16) == Digest(0x20BDD62F, 0x196BEE77, 0x644A3DA5, 0x1181ED99, 0x18C623F9)
  {
    hide Rounds, W;
    Rounds12();
    Words8();
    NextRound(BLOCK, INITIAL, 12);
    assert Rounds(BLOCK, INITIAL, 13) == Digest(0x4607B664, 0x63188FE4, 0x7EF6A7A2, 0x60D47E4A, 0x12DAB8CA);
    NextRound(BLOCK, INITIAL, 13);
    assert Rounds(BLOCK, INITIAL, 14) == Digest(0x9128F695, 0x4607B664, 0x18C623F9, 0x7EF6A7A2, 0x60D47E4A);
    NextRound(BLOCK, INITIAL, 14);
    assert Rounds(BLOCK, INITIAL, 15) == Digest(0x196BEE77, 0x9128F695, 0x1181ED99, 0x18C623F9, 0x7EF6A7A2);
    NextRound(BLOCK, INITIAL, 15);
  }

  lemma Rounds20()
    ensures Rounds(BLOCK, INITIAL, 20) == Digest(0xFD9E1D7D, 0xDC64901D, 0x20AA99CA, 0xD3A49608, 0xC82F758B)
  {
    hide Rounds, W;
    Rounds16();
    Words16();
    NextRound(BLOCK, INITIAL, 16);
    assert Rounds(BLOCK, INITIAL, 17) == Digest(0x4E925823, 0x20BDD62F, 0xC65AFB9D, 0x644A3DA5, 0x1181ED99);
    NextRound(BLOCK, INITIAL, 17);
    assert Rounds(BLOCK, INITIAL, 18) == Digest(0x82AA6728, 0x4E925823, 0xC82F758B, 0xC65AFB9D, 0x644A3DA5);
    NextRound(BLOCK, INITIAL, 18);
    assert Rounds(BLOCK, INITIAL, 19) == Digest(0xDC64901D, 0x82AA6728, 0xD3A49608, 0xC82F758B, 0xC65AFB9D);
    NextRound(BLOCK, INITIAL, 19);
  }

  lemma Rounds24()
    ensures Rounds(BLOCK, INITIAL, 24) == Digest(0xD541F12D, 0x21283486, 0x0CE88EFF, 0x868DEC32, 0x7F67875F)
  {
    hide Rounds, W;
    Rounds20();
    Words16();
    NextRound(BLOCK, INITIAL, 20);
    assert Rounds(BLOCK, INITIAL, 21) == Digest(0x1A37B0CA, 0xFD9E1D7D, 0x77192407, 0x20AA99CA, 0xD3A49608);
    NextRound(BLOCK, INITIAL, 21);
    assert Rounds(BLOCK, INITIAL, 22) == Digest(0x33A23BFC, 0x1A37B0CA, 0x7F67875F, 0x77192407, 0x20AA99CA);
    NextRound(BLOCK, INITIAL, 22);
    assert Rounds(BLOCK, INITIAL, 23) == Digest(0x21283486, 0x33A23BFC, 0x868DEC32, 0x7F67875F, 0x77192407);
    NextRound(BLOCK, INITIAL, 23);
  }

  lemma Rounds28()
    ensures Rounds(BLOCK, INITIAL, 28) == Digest(0x4AA84D97, 0xBE35FBD5, 0x12104EE9, 0xB1D59F71, 0x75507C4B)
  {
    hide Rounds, W;
    Rounds24();
    Words24();
    NextRound(BLOCK, INITIAL, 24);
    assert Rounds(BLOCK, INITIAL, 25) == Digest(0xC7567DC6, 0xD541F12D, 0x884A0D21, 0x0CE88EFF, 0x868DEC32);
    NextRound(BLOCK, INITIAL, 25);
    assert Rounds(BLOCK, INITIAL, 26) == Digest(0x48413BA4, 0xC7567DC6, 0x75507C4B, 0x884A0D21, 0x0CE88EFF);
    NextRound(BLOCK, INITIAL, 26);
    assert Rounds(BLOCK, INITIAL, 27) == Digest(0xBE35FBD5, 0x48413BA4, 0xB1D59F71, 0x75507C4B, 0x884A0D21);
    NextRound(BLOCK, INITIAL, 27);
  }

  lemma Rounds32()
    ensures Rounds(BLOCK, INITIAL, 32) == Digest(0x3B845D33, 0x1267B407, 0x717EEBD7, 0xA0DC2D4B, 0xD2AA1365)
  {
    hide Rounds, W;
    Rounds28();
    Words24();
    NextRound(BLOCK, INITIAL, 28);
    assert Rounds(BLOCK, INITIAL, 29) == Digest(0x8370B52E, 0x4AA84D97, 0x6F8D7EF5, 0x12104EE9, 0xB1D59F71);
    NextRound(BLOCK, INITIAL, 29);
    assert Rounds(BLOCK, INITIAL, 30) == Digest(0xC5FBAF5D, 0x8370B52E, 0xD2AA1365, 0x6F8D7EF5, 0x12104EE9);
    NextRound(BLOCK, INITIAL, 30);
    assert Rounds(BLOCK, INITIAL, 31) == Digest(0x1267B407, 0xC5FBAF5D, 0xA0DC2D4B, 0xD2AA1365, 0x6F8D7EF5);
    NextRound(BLOCK, INITIAL, 31);
  }

  lemma Rounds36()
    ensures Rounds(BLOCK, INITIAL, 36) == Digest(0xDCBBB0CB, 0x21796AD4, 0x4B03AF04, 0x811BEA82, 0xCEE1174C)
  {
    hide Rounds, W;
    Rounds32();
    Words32();
    NextRound(BLOCK, INITIAL, 32);
    assert Rounds(BLOCK, INITIAL, 33) == Digest(0x046FAA0A, 0x3B845D33, 0xC499ED01, 0x717EEBD7, 0xA0DC2D4B);
    NextRound(BLOCK, INITIAL, 33);
    assert Rounds(BLOCK, INITIAL, 34) == Digest(0x2C0EBC11, 0x046FAA0A, 0xCEE1174C, 0xC499ED01, 0x717EEBD7);
    NextRound(BLOCK, INITIAL, 34);
    assert Rounds(BLOCK, INITIAL, 35) == Digest(0x21796AD4, 0x2C0EBC11, 0x811BEA82, 0xCEE1174C, 0xC499ED01);
    NextRound(BLOCK, INITIAL, 35);
  }

  lemma Rounds40()
    ensures Rounds(BLOCK, INITIAL, 40) == Digest(0x32DE1CBA, 0x4C986405, 0xF718E5CF, 0x03D447F6, 0xF72EEC32)
  {
    hide Rounds, W;
    Rounds36();
    Words32();
    NextRound(BLOCK, INITIAL, 36);
    assert Rounds(BLOCK, INITIAL, 37) == Digest(0x0F511FD8, 0xDCBBB0CB, 0x085E5AB5, 0x4B03AF04, 0x811BEA82);
    NextRound(BLOCK, INITIAL, 37);
    assert Rounds(BLOCK, INITIAL, 38) == Digest(0xDC63973F, 0x0F511FD8, 0xF72EEC32, 0x085E5AB5, 0x4B03AF04);
    NextRound(BLOCK, INITIAL, 38);
    assert Rounds(BLOCK, INITIAL, 39) == Digest(0x4C986405, 0xDC63973F, 0x03D447F6, 0xF72EEC32, 0x085E5AB5);
    NextRound(BLOCK, INITIAL, 39);
  }

  lemma Rounds44()
    ensures Rounds(BLOCK, INITIAL, 44) == Digest(0xEE1B1AAF, 0x7F193DC5, 0x25C28357, 0xFF21F7B7, 0x8CB7872E)
  {
    hide Rounds, W;
    Rounds40();
    Words40();
    NextRound(BLOCK, INITIAL, 40);
    assert Rounds(BLOCK, INITIAL, 41) == Digest(0xFC87DEDF, 0x32DE1CBA, 0x53261901, 0xF718E5CF, 0x03D447F6);
    NextRound(BLOCK, INITIAL, 41);
    assert Rounds(BLOCK, INITIAL, 42) == Digest(0x970A0D5C, 0xFC87DEDF, 0x8CB7872E, 0x53261901, 0xF718E5CF);
    NextRound(BLOCK, INITIAL, 42);
    assert Rounds(BLOCK, INITIAL, 43) == Digest(0x7F193DC5, 0x970A0D5C, 0xFF21F7B7, 0x8CB7872E, 0x53261901);
    NextRound(BLOCK, INITIAL, 43);
  }

  lemma Rounds48()
    ensures Rounds(BLOCK, INITIAL, 48) == Digest(0xBEAD02CA, 0xA01B846C, 0x8714787C, 0x503CA382, 0xFB86C6AB)
  {
    hide Rounds, W;
    Rounds44();
    Words40();
    NextRound(BLOCK, INITIAL, 44);
    assert Rounds(BLOCK, INITIAL, 45) == Digest(0x40F28E09, 0xEE1B1AAF, 0x5FC64F71, 0x25C28357, 0xFF21F7B7);
    NextRound(BLOCK, INITIAL, 45);
    assert Rounds(BLOCK, INITIAL, 46) == Digest(0x1C51E1F2, 0x40F28E09, 0xFB86C6AB, 0x5FC64F71, 0x25C28357);
    NextRound(BLOCK, INITIAL, 46);
    assert Rounds(BLOCK, INITIAL, 47) == Digest(0xA01B846C, 0x1C51E1F2, 0x503CA382, 0xFB86C6AB, 0x5FC64F71);
    NextRound(BLOCK, INITIAL, 47);
  }

  lemma Rounds52()
    ensures Rounds(BLOCK, INITIAL, 52) == Digest(0x3847AD66, 0x641DB2CE, 0x4481CC71, 0xEEBCE4CD, 0xAFAB40B2)
  {
    hide Rounds, W;
    Rounds48();
    Words48();
    NextRound(BLOCK, INITIAL, 48);
    assert Rounds(BLOCK, INITIAL, 49) == Digest(0xBAF39337, 0xBEAD02CA, 0x2806E11B, 0x8714787C, 0x503CA382);
    NextRound(BLOCK, INITIAL, 49);
    assert Rounds(BLOCK, INITIAL, 50) == Digest(0x120731C5, 0xBAF39337, 0xAFAB40B2, 0x2806E11B, 0x8714787C);
    NextRound(BLOCK, INITIAL, 50);
    assert Rounds(BLOCK, INITIAL, 51) == Digest(0x641DB2CE, 0x120731C5, 0xEEBCE4CD, 0xAFAB40B2, 0x2806E11B);
    NextRound(BLOCK, INITIAL, 51);
  }

  lemma Rounds56()
    ensures Rounds(BLOCK, INITIAL, 56) == Digest(0x5E6456AF, 0x7B71F76D, 0x09FA7C76, 0x792410DB, 0x8E11EB59)
  {
    hide Rounds, W;
    Rounds52();
    Words48();
    NextRound(BLOCK, INITIAL, 52);
    assert Rounds(BLOCK, INITIAL, 53) == Digest(0xE490436D, 0x3847AD66, 0x99076CB3, 0x4481CC71, 0xEEBCE4CD);
    NextRound(BLOCK, INITIAL, 53);
    assert Rounds(BLOCK, INITIAL, 54) == Digest(0x27E9F1D8, 0xE490436D, 0x8E11EB59, 0x99076CB3, 0x4481CC71);
    NextRound(BLOCK, INITIAL, 54);
    assert Rounds(BLOCK, INITIAL, 55) == Digest(0x7B71F76D, 0x27E9F1D8, 0x792410DB, 0x8E11EB59, 0x99076CB3);
    NextRound(BLOCK, INITIAL, 55);
  }

  lemma Rounds60()
    ensures Rounds(BLOCK, INITIAL, 60) == Digest(0x3F52DE5A, 0x09D785FD, 0x3498BFD4, 0xF211824F, 0xD79915AB)
  {
    hide Rounds, W;
    Rounds56();
    Words56();
    NextRound(BLOCK, INITIAL, 56);
    assert Rounds(BLOCK, INITIAL, 57) == Digest(0xC846093F, 0x5E6456AF, 0x5EDC7DDB, 0x09FA7C76, 0x792410DB);
    NextRound(BLOCK, INITIAL, 57);
    assert Rounds(BLOCK, INITIAL, 58) == Digest(0xD262FF50, 0xC846093F, 0xD79915AB, 0x5EDC7DDB, 0x09FA7C76);
    NextRound(BLOCK, INITIAL, 58);
    assert Rounds(BLOCK, INITIAL, 59) == Digest(0x09D785FD, 0xD262FF50, 0xF211824F, 0xD79915AB, 0x5EDC7DDB);
    NextRound(BLOCK, INITIAL, 59);
  }

  lemma Rounds64()
    ensures Rounds(BLOCK, INITIAL, 64) == Digest(0x6B61C9E1, 0xB66C020B, 0x9523272C, 0xF5D5B051, 0x8FD4B796)
  {
    hide Rounds, W;
    Rounds60();
    Words56();
    NextRound(BLOCK, INITIAL, 60);
    assert Rounds(BLOCK, INITIAL, 61) == Digest(0xD756C147, 0x3F52DE5A, 0x4275E17F, 0x3498BFD4, 0xF211824F);
    NextRound(BLOCK, INITIAL, 61);
    assert Rounds(BLOCK, INITIAL, 62) == Digest(0x548C9CB2, 0xD756C147, 0x8FD4B796, 0x4275E17F, 0x3498BFD4);
    NextRound(BLOCK, INITIAL, 62);
    assert Rounds(BLOCK, INITIAL, 63) == Digest(0xB66C020B, 0x548C9CB2, 0xF5D5B051, 0x8FD4B796, 0x4275E17F);
    NextRound(BLOCK, INITIAL, 63);
  }

  lemma Rounds68()
    ensures Rounds(BLOCK, INITIAL, 68) == Digest(0x78DD4D2B, 0x0C3DF2B4, 0x4405957E, 0x0677E9EB, 0x5AD87278)
  {
    hide Rounds, W;
    Rounds64();
    Words64();
    NextRound(BLOCK, INITIAL, 64);
    assert Rounds(BLOCK, INITIAL, 65) == Digest(0x19DFA7AC, 0x6B61C9E1, 0xED9B0082, 0x9523272C, 0xF5D5B051);
    NextRound(BLOCK, INITIAL, 65);
    assert Rounds(BLOCK, INITIAL, 66) == Digest(0x101655F9, 0x19DFA7AC, 0x5AD87278, 0xED9B0082, 0x9523272C);
    NextRound(BLOCK, INITIAL, 66);
    assert Rounds(BLOCK, INITIAL, 67) == Digest(0x0C3DF2B4, 0x101655F9, 0x0677E9EB, 0x5AD87278, 0xED9B0082);
    NextRound(BLOCK, INITIAL, 67);
  }

  lemma Rounds72()
    ensures Rounds(BLOCK, INITIAL, 72) == Digest(0x39859DE7, 0xC199F8C7, 0x8FC96230, 0x125C24F0, 0xDE37534A)
  {
    hide Rounds, W;
    Rounds68();
    Words64();
    NextRound(BLOCK, INITIAL, 68);
    assert Rounds(BLOCK, INITIAL, 69) == Digest(0x497093C0, 0x78DD4D2B, 0x030F7CAD, 0x4405957E, 0x0677E9EB);
    NextRound(BLOCK, INITIAL, 69);
    assert Rounds(BLOCK, INITIAL, 70) == Digest(0x3F2588C2, 0x497093C0, 0xDE37534A, 0x030F7CAD, 0x4405957E);
    NextRound(BLOCK, INITIAL, 70);
    assert Rounds(BLOCK, INITIAL, 71) == Digest(0xC199F8C7, 0x3F2588C2, 0x125C24F0, 0xDE37534A, 0x030F7CAD);
    NextRound(BLOCK, INITIAL, 71);
  }

  lemma Rounds76()
    ensures Rounds(BLOCK, INITIAL, 76) == Digest(0x63F7DAB7, 0x5EE76897, 0xC45E4FDB, 0x3B6D0B79, 0xCE616779)
  {
    hide Rounds, W;
    Rounds72();
    Words72();
    NextRound(BLOCK, INITIAL, 72);
    assert Rounds(BLOCK, INITIAL, 73) == Digest(0xEDB42DE4, 0x39859DE7, 0xF0667E31, 0x8FC96230, 0x125C24F0);
    NextRound(BLOCK, INITIAL, 73);
    assert Rounds(BLOCK, INITIAL, 74) == Digest(0x11793F6F, 0xEDB42DE4, 0xCE616779, 0xF0667E31, 0x8FC96230);
    NextRound(BLOCK, INITIAL, 74);
    assert Rounds(BLOCK, INITIAL, 75) == Digest(0x5EE76897, 0x11793F6F, 0x3B6D0B79, 0xCE616779, 0xF0667E31);
    NextRound(BLOCK, INITIAL, 75);
  }

  lemma Rounds80()
    ensures Rounds(BLOCK, INITIAL, 80) == Digest(0x42541B35, 0x5738D5E1, 0x21834873, 0x681E6DF6, 0xD8FDF6AD)
  {
    hide Rounds, W;
    Rounds76();
    Words72();
    NextRound(BLOCK, INITIAL, 76);
    assert Rounds(BLOCK, INITIAL, 77) == Digest(0xA079B7D9, 0x63F7DAB7, 0xD7B9DA25, 0xC45E4FDB, 0x3B6D0B79);
    NextRound(BLOCK, INITIAL, 77);
    assert Rounds(BLOCK, INITIAL, 78) == Digest(0x860D21CC, 0xA079B7D9, 0xD8FDF6AD, 0xD7B9DA25, 0xC45E4FDB);
    NextRound(BLOCK, INITIAL, 78);
    assert Rounds(BLOCK, INITIAL, 79) == Digest(0x5738D5E1, 0x860D21CC, 0x681E6DF6, 0xD8FDF6AD, 0xD7B9DA25);
    NextRound(BLOCK, INITIAL, 79);
  }

  /** The digest of "abc". */
  lemma Abc()
    ensures |Padded(MESSAGE)| == 64
    ensures HashBlocks(Padded(MESSAGE), 1) == Digest(0xA9993E36, 0x4706816A, 0xBA3E2571, 0x7850C26C, 0x9CD0D89D)
  {
    hide Rounds;
    MessagePadded();
    Rounds80();
    assert BLOCK[0..64] == BLOCK;
    assert HashBlocks(BLOCK, 0) == INITIAL;
  }
}
