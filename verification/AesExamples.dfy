/**
 The examples of appendix C of FIPS 197, computed from the key and the plain text alone: every word of the
 three key schedules and the state after every step of every round.
 */
module AesExamples {
  import opened AesTables
  import opened AesCipher
  import opened AesKeys
  import opened AesBlocks

  /** A round before the last, with the states between its steps. */
  lemma Through(key: State, start: State, boxed: State, shifted: State, mixed: State, end: State)
    requires SubBytes(start) == boxed && ShiftRows(boxed) == shifted
    requires MixColumns(shifted) == mixed && AddRoundKey(key, mixed) == end
    ensures AddRoundKey(key, MixColumns(ShiftRows(SubBytes(start)))) == end
  {
  }

  /** The states of an encryption follow each other from the first key to the last round but one. */
  ghost predicate Chain(keys: RoundKeys, s: State, states: seq<State>) {
    && |states| == |keys| - 1 && states[0] == AddRoundKey(keys[0], s)
    && forall i :: 1 <= i < |states| ==> states[i] == AddRoundKey(keys[i], MixColumns(ShiftRows(SubBytes(states[i - 1]))))
  }

  lemma {:induction false} ChainRounds(keys: RoundKeys, s: State, states: seq<State>, i: nat)
    requires Chain(keys, s, states) && i < |states|
    ensures Rounds(keys, s, i) == states[i]
  {
    hide AddRoundKey, MixColumns, ShiftRows, SubBytes;
    if i > 0 { ChainRounds(keys, s, states, i - 1); }
  }

  /** Four words of a schedule after the key itself. */
  lemma FourWords(key: seq<Byte>, i: nat)
    requires ValidKeySize(|key|) && |key| / 4 <= i && i + 3 < 4 * (RoundCount(|key|) + 1)
    ensures var nk := |key| / 4;
            && Scheduled(key, i) == NextWord(nk, i, Scheduled(key, i - 1), Scheduled(key, i - nk))
            && Scheduled(key, i + 1) == NextWord(nk, i + 1, Scheduled(key, i), Scheduled(key, i + 1 - nk))
            && Scheduled(key, i + 2) == NextWord(nk, i + 2, Scheduled(key, i + 1), Scheduled(key, i + 2 - nk))
            && Scheduled(key, i + 3) == NextWord(nk, i + 3, Scheduled(key, i + 2), Scheduled(key, i + 3 - nk))
  {
    hide Scheduled, NextWord;
    ScheduledNext(key, i);
    ScheduledNext(key, i + 1);
    ScheduledNext(key, i + 2);
    ScheduledNext(key, i + 3);
  }

  /** Four words of a schedule together: a round key. */
  ghost predicate Column(key: seq<Byte>, k: nat, c: State) {
    && ValidKeySize(|key|) && k <= RoundCount(|key|)
    && c == State(Scheduled(key, 4 * k), Scheduled(key, 4 * k + 1), Scheduled(key, 4 * k + 2), Scheduled(key, 4 * k + 3))
  }

  const PLAIN: Block := [0x00, 0x11, 0x22, 0x33, 0x44, 0x55, 0x66, 0x77, 0x88, 0x99, 0xaa, 0xbb, 0xcc, 0xdd, 0xee, 0xff]

  lemma PlainState()
    ensures FromBytes(PLAIN) == State(0x33221100, 0x77665544, 0xBBAA9988, 0xFFEEDDCC)
  {
  }

  // ----- AES-128

  const KEY_128: seq<Byte> :=
    [0x00, 0x01, 0x02, 0x03, 0x04, 0x05, 0x06, 0x07, 0x08, 0x09, 0x0a, 0x0b, 0x0c, 0x0d, 0x0e, 0x0f]

  lemma Box128_4()
    ensures SubWord(Rotated(0x0F0E0D0C)) == 0xFE76ABD7
  {
  }

  lemma Box128_8()
    ensures SubWord(Rotated(0xFE76ABD6)) == 0xF6BB3862
  {
  }

  lemma Box128_12()
    ensures SubWord(Rotated(0xFEB33068)) == 0x45BB6D04
  {
  }

  lemma Box128_16()
    ensures SubWord(Rotated(0x41BF6904)) == 0xF28308F9
  {
  }

  lemma Words128_1()
    ensures NextWord(4, 4, 0x0F0E0D0C, 0x03020100) == 0xFD74AAD6
    ensures NextWord(4, 5, 0xFD74AAD6, 0x07060504) == 0xFA72AFD2
    ensures NextWord(4, 6, 0xFA72AFD2, 0x0B0A0908) == 0xF178A6DA
    ensures NextWord(4, 7, 0xF178A6DA, 0x0F0E0D0C) == 0xFE76ABD6
    ensures NextWord(4, 8, 0xFE76ABD6, 0xFD74AAD6) == 0x0BCF92B6
    ensures NextWord(4, 9, 0x0BCF92B6, 0xFA72AFD2) == 0xF1BD3D64
    ensures NextWord(4, 10, 0xF1BD3D64, 0xF178A6DA) == 0x00C59BBE
    ensures NextWord(4, 11, 0x00C59BBE, 0xFE76ABD6) == 0xFEB33068
    ensures NextWord(4, 12, 0xFEB33068, 0x0BCF92B6) == 0x4E74FFB6
    ensures NextWord(4, 13, 0x4E74FFB6, 0xF1BD3D64) == 0xBFC9C2D2
    ensures NextWord(4, 14, 0xBFC9C2D2, 0x00C59BBE) == 0xBF0C596C
    ensures NextWord(4, 15, 0xBF0C596C, 0xFEB33068) == 0x41BF6904
    ensures NextWord(4, 16, 0x41BF6904, 0x4E74FFB6) == 0xBCF7F747
    ensures NextWord(4, 17, 0xBCF7F747, 0xBFC9C2D2) == 0x033E3595
    ensures NextWord(4, 18, 0x033E3595, 0xBF0C596C) == 0xBC326CF9
    ensures NextWord(4, 19, 0xBC326CF9, 0x41BF6904) == 0xFD8D05FD
  {
    hide SubWord, Rotated, RoundConstant;
    Box128_4();
    RconPowers(1);
    Box128_8();
    RconPowers(2);
    Box128_12();
    RconPowers(3);
    Box128_16();
    RconPowers(4);
  }

  lemma Box128_20()
    ensures SubWord(Rotated(0xFD8D05FD)) == 0x54545D6B
  {
  }

  lemma Box128_24()
    ensures SubWord(Rotated(0xAA22F6AD)) == 0x95AC9342
  {
  }

  lemma Box128_28()
    ensures SubWord(Rotated(0x6B1FA30A)) == 0x677FC00A
  {
  }

  lemma Box128_32()
    ensures SubWord(Rotated(0x26C0A94E)) == 0x2FF7BAD3
  {
  }

  lemma Words128_5()
    ensures NextWord(4, 20, 0xFD8D05FD, 0xBCF7F747) == 0xE8A3AA3C
    ensures NextWord(4, 21, 0xE8A3AA3C, 0x033E3595) == 0xEB9D9FA9
    ensures NextWord(4, 22, 0xEB9D9FA9, 0xBC326CF9) == 0x57AFF350
    ensures NextWord(4, 23, 0x57AFF350, 0xFD8D05FD) == 0xAA22F6AD
    ensures NextWord(4, 24, 0xAA22F6AD, 0xE8A3AA3C) == 0x7D0F395E
    ensures NextWord(4, 25, 0x7D0F395E, 0xEB9D9FA9) == 0x9692A6F7
    ensures NextWord(4, 26, 0x9692A6F7, 0x57AFF350) == 0xC13D55A7
    ensures NextWord(4, 27, 0xC13D55A7, 0xAA22F6AD) == 0x6B1FA30A
    ensures NextWord(4, 28, 0x6B1FA30A, 0x7D0F395E) == 0x1A70F914
    ensures NextWord(4, 29, 0x1A70F914, 0x9692A6F7) == 0x8CE25FE3
    ensures NextWord(4, 30, 0x8CE25FE3, 0xC13D55A7) == 0x4DDF0A44
    ensures NextWord(4, 31, 0x4DDF0A44, 0x6B1FA30A) == 0x26C0A94E
    ensures NextWord(4, 32, 0x26C0A94E, 0x1A70F914) == 0x35874347
    ensures NextWord(4, 33, 0x35874347, 0x8CE25FE3) == 0xB9651CA4
    ensures NextWord(4, 34, 0xB9651CA4, 0x4DDF0A44) == 0xF4BA16E0
    ensures NextWord(4, 35, 0xF4BA16E0, 0x26C0A94E) == 0xD27ABFAE
  {
    hide SubWord, Rotated, RoundConstant;
    Box128_20();
    RconPowers(5);
    Box128_24();
    RconPowers(6);
    Box128_28();
    RconPowers(7);
    Box128_32();
    RconPowers(8);
  }

  lemma Box128_36()
    ensures SubWord(Rotated(0xD27ABFAE)) == 0xE4B5DA08
  {
  }

  lemma Box128_40()
    ensures SubWord(Rotated(0x4E972CBE)) == 0xAE2F8871
  {
  }

  lemma Words128_9()
    ensures NextWord(4, 36, 0xD27ABFAE, 0x35874347) == 0xD1329954
    ensures NextWord(4, 37, 0xD1329954, 0xB9651CA4) == 0x685785F0
    ensures NextWord(4, 38, 0x685785F0, 0xF4BA16E0) == 0x9CED9310
    ensures NextWord(4, 39, 0x9CED9310, 0xD27ABFAE) == 0x4E972CBE
    ensures NextWord(4, 40, 0x4E972CBE, 0xD1329954) == 0x7F1D1113
    ensures NextWord(4, 41, 0x7F1D1113, 0x685785F0) == 0x174A94E3
    ensures NextWord(4, 42, 0x174A94E3, 0x9CED9310) == 0x8BA707F3
    ensures NextWord(4, 43, 0x8BA707F3, 0x4E972CBE) == 0xC5302B4D
  {
    hide SubWord, Rotated, RoundConstant;
    Box128_36();
    RconPowers(9);
    Box128_40();
    RconPowers(10);
  }

  lemma Keys128_0()
    ensures Column(KEY_128, 0, State(0x03020100, 0x07060504, 0x0B0A0908, 0x0F0E0D0C))
  {
    hide Scheduled, NextWord;
    ScheduledKey(KEY_128, 0);
    ScheduledKey(KEY_128, 1);
    ScheduledKey(KEY_128, 2);
    ScheduledKey(KEY_128, 3);
  }

  lemma Keys128_1()
    ensures Column(KEY_128, 1, State(0xFD74AAD6, 0xFA72AFD2, 0xF178A6DA, 0xFE76ABD6))
    ensures Column(KEY_128, 2, State(0x0BCF92B6, 0xF1BD3D64, 0x00C59BBE, 0xFEB33068))
    ensures Column(KEY_128, 3, State(0x4E74FFB6, 0xBFC9C2D2, 0xBF0C596C, 0x41BF6904))
    ensures Column(KEY_128, 4, State(0xBCF7F747, 0x033E3595, 0xBC326CF9, 0xFD8D05FD))
  {
    hide Scheduled, NextWord;
    Keys128_0();
    Words128_1();
    FourWords(KEY_128, 4);
    FourWords(KEY_128, 8);
    FourWords(KEY_128, 12);
    FourWords(KEY_128, 16);
  }

  lemma Keys128_5()
    ensures Column(KEY_128, 5, State(0xE8A3AA3C, 0xEB9D9FA9, 0x57AFF350, 0xAA22F6AD))
    ensures Column(KEY_128, 6, State(0x7D0F395E, 0x9692A6F7, 0xC13D55A7, 0x6B1FA30A))
    ensures Column(KEY_128, 7, State(0x1A70F914, 0x8CE25FE3, 0x4DDF0A44, 0x26C0A94E))
    ensures Column(KEY_128, 8, State(0x35874347, 0xB9651CA4, 0xF4BA16E0, 0xD27ABFAE))
  {
    hide Scheduled, NextWord;
    Keys128_1();
    Words128_5();
    FourWords(KEY_128, 20);
    FourWords(KEY_128, 24);
    FourWords(KEY_128, 28);
    FourWords(KEY_128, 32);
  }

  lemma Keys128_9()
    ensures Column(KEY_128, 9, State(0xD1329954, 0x685785F0, 0x9CED9310, 0x4E972CBE))
    ensures Column(KEY_128, 10, State(0x7F1D1113, 0x174A94E3, 0x8BA707F3, 0xC5302B4D))
  {
    hide Scheduled, NextWord;
    Keys128_5();
    Words128_9();
    FourWords(KEY_128, 36);
    FourWords(KEY_128, 40);
  }

  lemma Round128_1()
    ensures AddRoundKey(State(0xFD74AAD6, 0xFA72AFD2, 0xF178A6DA, 0xFE76ABD6),
                        MixColumns(ShiftRows(SubBytes(State(0x30201000, 0x70605040, 0xB0A09080, 0xF0E0D0C0)))))
         == State(0xE810D889, 0x68CE5A85, 0xD843182D, 0xE48F12CB)
  {
    Through(State(0xFD74AAD6, 0xFA72AFD2, 0xF178A6DA, 0xFE76ABD6), State(0x30201000, 0x70605040, 0xB0A09080, 0xF0E0D0C0),
            State(0x04B7CA63, 0x51D05309, 0xE7E060CD, 0x8CE170BA), State(0x8CE05363, 0x04E16009, 0x51B770CD, 0xE7D0CABA),
            State(0x1564725F, 0x92BCF557, 0x293BBEF7, 0x1AF9B91D), State(0xE810D889, 0x68CE5A85, 0xD843182D, 0xE48F12CB));
  }

  lemma Round128_2()
    ensures AddRoundKey(State(0x0BCF92B6, 0xF1BD3D64, 0x00C59BBE, 0xFEB33068),
                        MixColumns(ShiftRows(SubBytes(State(0xE810D889, 0x68CE5A85, 0xD843182D, 0xE48F12CB)))))
         == State(0x8F591549, 0xA0D7E555, 0xFA94CADA, 0xF7630A1F)
  {
    Through(State(0x0BCF92B6, 0xF1BD3D64, 0x00C59BBE, 0xFEB33068), State(0xE810D889, 0x68CE5A85, 0xD843182D, 0xE48F12CB),
            State(0x9BCA61A7, 0x458BBE97, 0x611AADD8, 0x6973C91F), State(0x691ABEA7, 0x9B73AD97, 0x45CAC9D8, 0x618B611F),
            State(0x849687FF, 0x516AD831, 0xFA515164, 0x09D03A77), State(0x8F591549, 0xA0D7E555, 0xFA94CADA, 0xF7630A1F));
  }

  lemma Round128_3()
    ensures AddRoundKey(State(0x4E74FFB6, 0xBFC9C2D2, 0xBF0C596C, 0x41BF6904),
                        MixColumns(ShiftRows(SubBytes(State(0x8F591549, 0xA0D7E555, 0xFA94CADA, 0xF7630A1F)))))
         == State(0x286A63FA, 0xC939B325, 0x318A6640, 0x174D2457)
  {
    Through(State(0x4E74FFB6, 0xBFC9C2D2, 0xBF0C596C, 0x41BF6904), State(0x8F591549, 0xA0D7E555, 0xFA94CADA, 0xF7630A1F),
            State(0x73CB593B, 0xE00ED9FC, 0x2D227457, 0x68FB67C0), State(0x6822D93B, 0x73FB74FC, 0xE0CB6757, 0x2D0E59C0),
            State(0x661E9C4C, 0x76F071F7, 0x8E863F2C, 0x56F24D53), State(0x286A63FA, 0xC939B325, 0x318A6640, 0x174D2457));
  }

  lemma Round128_4()
    ensures AddRoundKey(State(0xBCF7F747, 0x033E3595, 0xBC326CF9, 0xFD8D05FD),
                        MixColumns(ShiftRows(SubBytes(State(0x286A63FA, 0xC939B325, 0x318A6640, 0x174D2457)))))
         == State(0x23407224, 0xFAB36669, 0x3275D26E, 0x6C5B4288)
  {
    Through(State(0xBCF7F747, 0x033E3595, 0xBC326CF9, 0xFD8D05FD), State(0x286A63FA, 0xC939B325, 0x318A6640, 0x174D2457),
            State(0x3402FB2D, 0xDD126D3F, 0xC77E3309, 0xF0E3365B), State(0xF07E6D2D, 0x34E3333F, 0xDD023609, 0xC712FB5B),
            State(0x9FB78563, 0xF98D53FC, 0x8E47BE97, 0x91D64775), State(0x23407224, 0xFAB36669, 0x3275D26E, 0x6C5B4288));
  }

  lemma Round128_5()
    ensures AddRoundKey(State(0xE8A3AA3C, 0xEB9D9FA9, 0x57AFF350, 0xAA22F6AD),
                        MixColumns(ShiftRows(SubBytes(State(0x23407224, 0xFAB36669, 0x3275D26E, 0x6C5B4288)))))
         == State(0xBC7716C8, 0x3BC97A9B, 0x92790225, 0x961926B0)
  {
    Through(State(0xE8A3AA3C, 0xEB9D9FA9, 0x57AFF350, 0xAA22F6AD), State(0x23407224, 0xFAB36669, 0x3275D26E, 0x6C5B4288),
            State(0x26094036, 0x2D6D33F9, 0x239DB59F, 0x50392CC4), State(0x509D3336, 0x2639B5F9, 0x2D092C9F, 0x236D40C4),
            State(0x54D4BCF4, 0xD054E532, 0xC5D6F175, 0x3C3BD01D), State(0xBC7716C8, 0x3BC97A9B, 0x92790225, 0x961926B0));
  }

  lemma Round128_6()
    ensures AddRoundKey(State(0x7D0F395E, 0x9692A6F7, 0xC13D55A7, 0x6B1FA30A),
                        MixColumns(ShiftRows(SubBytes(State(0xBC7716C8, 0x3BC97A9B, 0x92790225, 0x961926B0)))))
         == State(0x09E12FC6, 0xC3ED5EF7, 0x5D3979CC, 0x5DCFF984)
  {
    Through(State(0x7D0F395E, 0x9692A6F7, 0xC13D55A7, 0x6B1FA30A), State(0xBC7716C8, 0x3BC97A9B, 0x92790225, 0x961926B0),
            State(0x65F547E8, 0xE2DDDA14, 0x4FB6773F, 0x90D4F7E7), State(0x90B6DAE8, 0x65D47714, 0xE2F5F73F, 0x4FDD47E7),
            State(0x74EE1698, 0x557FF800, 0x9C042C6B, 0x36D05A8E), State(0x09E12FC6, 0xC3ED5EF7, 0x5D3979CC, 0x5DCFF984));
  }

  lemma Round128_7()
    ensures AddRoundKey(State(0x1A70F914, 0x8CE25FE3, 0x4DDF0A44, 0x26C0A94E),
                        MixColumns(ShiftRows(SubBytes(State(0x09E12FC6, 0xC3ED5EF7, 0x5D3979CC, 0x5DCFF984)))))
         == State(0x0F6C87D1, 0x0A30C479, 0xAD9455B4, 0x1FF46FD6)
  {
    Through(State(0x1A70F914, 0x8CE25FE3, 0x4DDF0A44, 0x26C0A94E), State(0x09E12FC6, 0xC3ED5EF7, 0x5D3979CC, 0x5DCFF984),
            State(0x01F815B4, 0x2E555868, 0x4C12B64B, 0x4C8A995F), State(0x4C1258B4, 0x018AB668, 0x2EF8994B, 0x4C55155F),
            State(0x151C7EC5, 0x86D29B9A, 0xE04B5FF0, 0x3934C698), State(0x0F6C87D1, 0x0A30C479, 0xAD9455B4, 0x1FF46FD6));
  }

  lemma Round128_8()
    ensures AddRoundKey(State(0x35874347, 0xB9651CA4, 0xF4BA16E0, 0xD27ABFAE),
                        MixColumns(ShiftRows(SubBytes(State(0x0F6C87D1, 0x0A30C479, 0xAD9455B4, 0x1FF46FD6)))))
         == State(0xD2BAE3FD, 0xD7D0E505, 0x4E964735, 0xF137FEF1)
  {
    Through(State(0x35874347, 0xB9651CA4, 0xF4BA16E0, 0xD27ABFAE), State(0x0F6C87D1, 0x0A30C479, 0xAD9455B4, 0x1FF46FD6),
            State(0x7650173E, 0x67041CB6, 0x9522FC8D, 0xC0BFA8F6), State(0xC0221C3E, 0x76BFFCB6, 0x6750A88D, 0x950417F6),
            State(0xE73DA0BA, 0x6EB5F9A1, 0xBA2C51D5, 0x234D415F), State(0xD2BAE3FD, 0xD7D0E505, 0x4E964735, 0xF137FEF1));
  }

  lemma Round128_9()
    ensures AddRoundKey(State(0xD1329954, 0x685785F0, 0x9CED9310, 0x4E972CBE),
                        MixColumns(ShiftRows(SubBytes(State(0xD2BAE3FD, 0xD7D0E505, 0x4E964735, 0xF137FEF1)))))
         == State(0x3D7C6EBD, 0x9E77B5F2, 0x6E21610B, 0x89B6108B)
  {
    Through(State(0xD1329954, 0x685785F0, 0x9CED9310, 0x4E972CBE), State(0xD2BAE3FD, 0xD7D0E505, 0x4E964735, 0xF137FEF1),
            State(0xB5F41154, 0x0E70D96B, 0x2F90A096, 0xA19ABBA1), State(0xA190D954, 0xB59AA06B, 0x0EF4BB96, 0x2F7011A1),
            State(0xEC4EF7E9, 0xF6203002, 0xF2CCF21B, 0xC7213C35), State(0x3D7C6EBD, 0x9E77B5F2, 0x6E21610B, 0x89B6108B));
  }

  lemma Round128_10()
    ensures AddRoundKey(State(0x7F1D1113, 0x174A94E3, 0x8BA707F3, 0xC5302B4D),
                        ShiftRows(SubBytes(State(0x3D7C6EBD, 0x9E77B5F2, 0x6E21610B, 0x89B6108B))))
         == State(0xD8E0C469, 0x30047B6A, 0x80B7CDD8, 0x5AC5B470)
  {
    assert SubBytes(State(0x3D7C6EBD, 0x9E77B5F2, 0x6E21610B, 0x89B6108B)) == State(0x27109F7A, 0x0BF5D589, 0x9FFDEF2B, 0xA74ECA3D);
    assert ShiftRows(State(0x27109F7A, 0x0BF5D589, 0x9FFDEF2B, 0xA74ECA3D)) == State(0xA7FDD57A, 0x274EEF89, 0x0B10CA2B, 0x9FF59F3D);
  }

  lemma RoundKeys128()
    ensures Expanded(KEY_128) == [
      State(0x03020100, 0x07060504, 0x0B0A0908, 0x0F0E0D0C),
      State(0xFD74AAD6, 0xFA72AFD2, 0xF178A6DA, 0xFE76ABD6),
      State(0x0BCF92B6, 0xF1BD3D64, 0x00C59BBE, 0xFEB33068),
      State(0x4E74FFB6, 0xBFC9C2D2, 0xBF0C596C, 0x41BF6904),
      State(0xBCF7F747, 0x033E3595, 0xBC326CF9, 0xFD8D05FD),
      State(0xE8A3AA3C, 0xEB9D9FA9, 0x57AFF350, 0xAA22F6AD),
      State(0x7D0F395E, 0x9692A6F7, 0xC13D55A7, 0x6B1FA30A),
      State(0x1A70F914, 0x8CE25FE3, 0x4DDF0A44, 0x26C0A94E),
      State(0x35874347, 0xB9651CA4, 0xF4BA16E0, 0xD27ABFAE),
      State(0xD1329954, 0x685785F0, 0x9CED9310, 0x4E972CBE),
      State(0x7F1D1113, 0x174A94E3, 0x8BA707F3, 0xC5302B4D)]
  {
    hide Scheduled;
    Keys128_0();
    Keys128_1();
    Keys128_5();
    Keys128_9();
  }

  /** Appendix C.1, from the key and the plain text. */
  lemma Example128()
    ensures EncryptBlock(Expanded(KEY_128), PLAIN) ==
      [0x69, 0xc4, 0xe0, 0xd8, 0x6a, 0x7b, 0x04, 0x30, 0xd8, 0xcd, 0xb7, 0x80, 0x70, 0xb4, 0xc5, 0x5a]
  {
    hide Expanded, Scheduled, AddRoundKey, MixColumns, ShiftRows, SubBytes, FromBytes, Rounds;
    PlainState();
    RoundKeys128();
    var keys := Expanded(KEY_128);
    First128();
    Round128_1();
    Round128_2();
    Round128_3();
    Round128_4();
    Round128_5();
    Round128_6();
    Round128_7();
    Round128_8();
    Round128_9();
    Round128_10();
    var states := [
      State(0x30201000, 0x70605040, 0xB0A09080, 0xF0E0D0C0),
      State(0xE810D889, 0x68CE5A85, 0xD843182D, 0xE48F12CB),
      State(0x8F591549, 0xA0D7E555, 0xFA94CADA, 0xF7630A1F),
      State(0x286A63FA, 0xC939B325, 0x318A6640, 0x174D2457),
      State(0x23407224, 0xFAB36669, 0x3275D26E, 0x6C5B4288),
      State(0xBC7716C8, 0x3BC97A9B, 0x92790225, 0x961926B0),
      State(0x09E12FC6, 0xC3ED5EF7, 0x5D3979CC, 0x5DCFF984),
      State(0x0F6C87D1, 0x0A30C479, 0xAD9455B4, 0x1FF46FD6),
      State(0xD2BAE3FD, 0xD7D0E505, 0x4E964735, 0xF137FEF1),
      State(0x3D7C6EBD, 0x9E77B5F2, 0x6E21610B, 0x89B6108B)];
    assert Chain(keys, FromBytes(PLAIN), states);
    ChainRounds(keys, FromBytes(PLAIN), states, 9);
  }

  lemma First128()
    ensures AddRoundKey(State(0x03020100, 0x07060504, 0x0B0A0908, 0x0F0E0D0C), State(0x33221100, 0x77665544, 0xBBAA9988, 0xFFEEDDCC))
         == State(0x30201000, 0x70605040, 0xB0A09080, 0xF0E0D0C0)
  {
  }

  // ----- AES-192

  const KEY_192: seq<Byte> :=
    [0x00, 0x01, 0x02, 0x03, 0x04, 0x05, 0x06, 0x07, 0x08, 0x09, 0x0a, 0x0b, 0x0c, 0x0d, 0x0e, 0x0f,
     0x10, 0x11, 0x12, 0x13, 0x14, 0x15, 0x16, 0x17]

  lemma Box192_6()
    ensures SubWord(Rotated(0x17161514)) == 0xFAF04759
  {
  }

  lemma Words192_1()
    ensures NextWord(6, 6, 0x17161514, 0x03020100) == 0xF9F24658
    ensures NextWord(6, 7, 0xF9F24658, 0x07060504) == 0xFEF4435C
  {
    hide SubWord, Rotated, RoundConstant;
    Box192_6();
    RconPowers(1);
  }

  lemma Box192_12()
    ensures SubWord(Rotated(0xFEF4435C)) == 0x4ABBBF1A
  {
  }

  lemma Box192_18()
    ensures SubWord(Rotated(0x55A5A204)) == 0xF2FC063A
  {
  }

  lemma Words192_2()
    ensures NextWord(6, 8, 0xFEF4435C, 0x0B0A0908) == 0xF5FE4A54
    ensures NextWord(6, 9, 0xF5FE4A54, 0x0F0E0D0C) == 0xFAF04758
    ensures NextWord(6, 10, 0xFAF04758, 0x13121110) == 0xE9E25648
    ensures NextWord(6, 11, 0xE9E25648, 0x17161514) == 0xFEF4435C
    ensures NextWord(6, 12, 0xFEF4435C, 0xF9F24658) == 0xB349F940
    ensures NextWord(6, 13, 0xB349F940, 0xFEF4435C) == 0x4DBDBA1C
    ensures NextWord(6, 14, 0x4DBDBA1C, 0xF5FE4A54) == 0xB843F048
    ensures NextWord(6, 15, 0xB843F048, 0xFAF04758) == 0x42B3B710
    ensures NextWord(6, 16, 0x42B3B710, 0xE9E25648) == 0xAB51E158
    ensures NextWord(6, 17, 0xAB51E158, 0xFEF4435C) == 0x55A5A204
    ensures NextWord(6, 18, 0x55A5A204, 0xB349F940) == 0x41B5FF7E
    ensures NextWord(6, 19, 0x41B5FF7E, 0x4DBDBA1C) == 0x0C084562
    ensures NextWord(6, 20, 0x0C084562, 0xB843F048) == 0xB44BB52A
    ensures NextWord(6, 21, 0xB44BB52A, 0x42B3B710) == 0xF6F8023A
    ensures NextWord(6, 22, 0xF6F8023A, 0xAB51E158) == 0x5DA9E362
    ensures NextWord(6, 23, 0x5DA9E362, 0x55A5A204) == 0x080C4166
  {
    hide SubWord, Rotated, RoundConstant;
    Box192_12();
    RconPowers(2);
    Box192_18();
    RconPowers(3);
  }

  lemma Box192_24()
    ensures SubWord(Rotated(0x080C4166)) == 0x3330FE83
  {
  }

  lemma Box192_30()
    ensures SubWord(Rotated(0x699B5183)) == 0xECF914D1
  {
  }

  lemma Box192_36()
    ensures SubWord(Rotated(0x1E0512FF)) == 0x16726BC9
  {
  }

  lemma Words192_6()
    ensures NextWord(6, 24, 0x080C4166, 0x41B5FF7E) == 0x728501F5
    ensures NextWord(6, 25, 0x728501F5, 0x0C084562) == 0x7E8D4497
    ensures NextWord(6, 26, 0x7E8D4497, 0xB44BB52A) == 0xCAC6F1BD
    ensures NextWord(6, 27, 0xCAC6F1BD, 0xF6F8023A) == 0x3C3EF387
    ensures NextWord(6, 28, 0x3C3EF387, 0x5DA9E362) == 0x619710E5
    ensures NextWord(6, 29, 0x619710E5, 0x080C4166) == 0x699B5183
    ensures NextWord(6, 30, 0x699B5183, 0x728501F5) == 0x9E7C1534
    ensures NextWord(6, 31, 0x9E7C1534, 0x7E8D4497) == 0xE0F151A3
    ensures NextWord(6, 32, 0xE0F151A3, 0xCAC6F1BD) == 0x2A37A01E
    ensures NextWord(6, 33, 0x2A37A01E, 0x3C3EF387) == 0x16095399
    ensures NextWord(6, 34, 0x16095399, 0x619710E5) == 0x779E437C
    ensures NextWord(6, 35, 0x779E437C, 0x699B5183) == 0x1E0512FF
    ensures NextWord(6, 36, 0x1E0512FF, 0x9E7C1534) == 0x880E7EDD
    ensures NextWord(6, 37, 0x880E7EDD, 0xE0F151A3) == 0x68FF2F7E
    ensures NextWord(6, 38, 0x68FF2F7E, 0x2A37A01E) == 0x42C88F60
    ensures NextWord(6, 39, 0x42C88F60, 0x16095399) == 0x54C1DCF9
  {
    hide SubWord, Rotated, RoundConstant;
    Box192_24();
    RconPowers(4);
    Box192_30();
    RconPowers(5);
    Box192_36();
    RconPowers(6);
  }

  lemma Box192_42()
    ensures SubWord(Rotated(0x3D5A8D7A)) == 0xDA27BE5D
  {
  }

  lemma Box192_48()
    ensures SubWord(Rotated(0x32DAAED8)) == 0x612357E4
  {
  }

  lemma Words192_10()
    ensures NextWord(6, 40, 0x54C1DCF9, 0x779E437C) == 0x235F9F85
    ensures NextWord(6, 41, 0x235F9F85, 0x1E0512FF) == 0x3D5A8D7A
    ensures NextWord(6, 42, 0x3D5A8D7A, 0x880E7EDD) == 0x5229C0C0
    ensures NextWord(6, 43, 0x5229C0C0, 0x68FF2F7E) == 0x3AD6EFBE
    ensures NextWord(6, 44, 0x3AD6EFBE, 0x42C88F60) == 0x781E60DE
    ensures NextWord(6, 45, 0x781E60DE, 0x54C1DCF9) == 0x2CDFBC27
    ensures NextWord(6, 46, 0x2CDFBC27, 0x235F9F85) == 0x0F8023A2
    ensures NextWord(6, 47, 0x0F8023A2, 0x3D5A8D7A) == 0x32DAAED8
    ensures NextWord(6, 48, 0x32DAAED8, 0x5229C0C0) == 0x330A97A4
    ensures NextWord(6, 49, 0x330A97A4, 0x3AD6EFBE) == 0x09DC781A
    ensures NextWord(6, 50, 0x09DC781A, 0x781E60DE) == 0x71C218C4
    ensures NextWord(6, 51, 0x71C218C4, 0x2CDFBC27) == 0x5D1DA4E3
  {
    hide SubWord, Rotated, RoundConstant;
    Box192_42();
    RconPowers(7);
    Box192_48();
    RconPowers(8);
  }

  lemma Keys192_0()
    ensures Column(KEY_192, 0, State(0x03020100, 0x07060504, 0x0B0A0908, 0x0F0E0D0C))
  {
    hide Scheduled, NextWord;
    ScheduledKey(KEY_192, 0);
    ScheduledKey(KEY_192, 1);
    ScheduledKey(KEY_192, 2);
    ScheduledKey(KEY_192, 3);
  }

  lemma Keys192_1()
    ensures Column(KEY_192, 1, State(0x13121110, 0x17161514, 0xF9F24658, 0xFEF4435C))
  {
    hide Scheduled, NextWord;
    Keys192_0();
    Words192_1();
    ScheduledKey(KEY_192, 4);
    ScheduledKey(KEY_192, 5);
    ScheduledNext(KEY_192, 6);
    ScheduledNext(KEY_192, 7);
  }

  lemma Keys192_2()
    ensures Column(KEY_192, 2, State(0xF5FE4A54, 0xFAF04758, 0xE9E25648, 0xFEF4435C))
    ensures Column(KEY_192, 3, State(0xB349F940, 0x4DBDBA1C, 0xB843F048, 0x42B3B710))
    ensures Column(KEY_192, 4, State(0xAB51E158, 0x55A5A204, 0x41B5FF7E, 0x0C084562))
    ensures Column(KEY_192, 5, State(0xB44BB52A, 0xF6F8023A, 0x5DA9E362, 0x080C4166))
  {
    hide Scheduled, NextWord;
    Keys192_0();
    Keys192_1();
    Words192_2();
    FourWords(KEY_192, 8);
    FourWords(KEY_192, 12);
    FourWords(KEY_192, 16);
    FourWords(KEY_192, 20);
  }

  lemma Keys192_6()
    ensures Column(KEY_192, 6, State(0x728501F5, 0x7E8D4497, 0xCAC6F1BD, 0x3C3EF387))
    ensures Column(KEY_192, 7, State(0x619710E5, 0x699B5183, 0x9E7C1534, 0xE0F151A3))
    ensures Column(KEY_192, 8, State(0x2A37A01E, 0x16095399, 0x779E437C, 0x1E0512FF))
    ensures Column(KEY_192, 9, State(0x880E7EDD, 0x68FF2F7E, 0x42C88F60, 0x54C1DCF9))
  {
    hide Scheduled, NextWord;
    Keys192_2();
    Words192_6();
    FourWords(KEY_192, 24);
    FourWords(KEY_192, 28);
    FourWords(KEY_192, 32);
    FourWords(KEY_192, 36);
  }

  lemma Keys192_10()
    ensures Column(KEY_192, 10, State(0x235F9F85, 0x3D5A8D7A, 0x5229C0C0, 0x3AD6EFBE))
    ensures Column(KEY_192, 11, State(0x781E60DE, 0x2CDFBC27, 0x0F8023A2, 0x32DAAED8))
    ensures Column(KEY_192, 12, State(0x330A97A4, 0x09DC781A, 0x71C218C4, 0x5D1DA4E3))
  {
    hide Scheduled, NextWord;
    Keys192_6();
    Words192_10();
    FourWords(KEY_192, 40);
    FourWords(KEY_192, 44);
    FourWords(KEY_192, 48);
  }

  lemma Round192_1()
    ensures AddRoundKey(State(0x13121110, 0x17161514, 0xF9F24658, 0xFEF4435C),
                        MixColumns(ShiftRows(SubBytes(State(0x30201000, 0x70605040, 0xB0A09080, 0xF0E0D0C0)))))
         == State(0x0676634F, 0x85AAE043, 0xD0C9F8AF, 0xE40DFA41)
  {
    Through(State(0x13121110, 0x17161514, 0xF9F24658, 0xFEF4435C), State(0x30201000, 0x70605040, 0xB0A09080, 0xF0E0D0C0),
            State(0x04B7CA63, 0x51D05309, 0xE7E060CD, 0x8CE170BA), State(0x8CE05363, 0x04E16009, 0x51B770CD, 0xE7D0CABA),
            State(0x1564725F, 0x92BCF557, 0x293BBEF7, 0x1AF9B91D), State(0x0676634F, 0x85AAE043, 0xD0C9F8AF, 0xE40DFA41));
  }

  lemma Round192_2()
    ensures AddRoundKey(State(0xF5FE4A54, 0xFAF04758, 0xE9E25648, 0xFEF4435C),
                        MixColumns(ShiftRows(SubBytes(State(0x0676634F, 0x85AAE043, 0xD0C9F8AF, 0xE40DFA41)))))
         == State(0x8C8102CB, 0x9CAFD217, 0x4264AA62, 0xD75FB28B)
  {
    Through(State(0xF5FE4A54, 0xFAF04758, 0xE9E25648, 0xFEF4435C), State(0x0676634F, 0x85AAE043, 0xD0C9F8AF, 0xE40DFA41),
            State(0x6F38FB84, 0x97ACE11A, 0x70DD4179, 0x69D72D83), State(0x69DDE184, 0x6FD7411A, 0x97382D79, 0x70ACFB83),
            State(0x797F489F, 0x665F954F, 0xAB86FC2A, 0x29ABF1D7), State(0x8C8102CB, 0x9CAFD217, 0x4264AA62, 0xD75FB28B));
  }

  lemma Round192_3()
    ensures AddRoundKey(State(0xB349F940, 0x4DBDBA1C, 0xB843F048, 0x42B3B710),
                        MixColumns(ShiftRows(SubBytes(State(0x8C8102CB, 0x9CAFD217, 0x4264AA62, 0xD75FB28B)))))
         == State(0x78775CF7, 0xEDC827A3, 0xC1BFFE8C, 0x537FC3A6)
  {
    Through(State(0xB349F940, 0x4DBDBA1C, 0xB843F048, 0x42B3B710), State(0x8C8102CB, 0x9CAFD217, 0x4264AA62, 0xD75FB28B),
            State(0x640C771F, 0xDE79B5F0, 0x2C43ACAA, 0x0ECF373D), State(0x0E43B51F, 0x64CFACF0, 0xDE0C37AA, 0x2C79773D),
            State(0xCB3EA5B7, 0xA0759DBF, 0x79FC0EC4, 0x11CC74B6), State(0x78775CF7, 0xEDC827A3, 0xC1BFFE8C, 0x537FC3A6));
  }

  lemma Round192_4()
    ensures AddRoundKey(State(0xAB51E158, 0x55A5A204, 0x41B5FF7E, 0x0C084562),
                        MixColumns(ShiftRows(SubBytes(State(0x78775CF7, 0xEDC827A3, 0xC1BFFE8C, 0x537FC3A6)))))
         == State(0x16C9FF22, 0x417414A8, 0x9CF19664, 0x3225AE64)
  {
    Through(State(0xAB51E158, 0x55A5A204, 0x41B5FF7E, 0x0C084562), State(0x78775CF7, 0xEDC827A3, 0xC1BFFE8C, 0x537FC3A6),
            State(0xBCF54A68, 0x55E8CC0A, 0x7808BB64, 0xEDD22E24), State(0xED08CC68, 0xBCD2BB0A, 0x55F52E64, 0x78E84A24),
            State(0xBD981E7A, 0x14D1B6AC, 0xDD44691A, 0x3E2DEB06), State(0x16C9FF22, 0x417414A8, 0x9CF19664, 0x3225AE64));
  }

  lemma Round192_5()
    ensures AddRoundKey(State(0xB44BB52A, 0xF6F8023A, 0x5DA9E362, 0x080C4166),
                        MixColumns(ShiftRows(SubBytes(State(0x16C9FF22, 0x417414A8, 0x9CF19664, 0x3225AE64)))))
         == State(0x071E1280, 0x8A1DFD76, 0xBC318C8D, 0xEE1F5D96)
  {
    Through(State(0xB44BB52A, 0xF6F8023A, 0x5DA9E362, 0x080C4166), State(0x16C9FF22, 0x417414A8, 0x9CF19664, 0x3225AE64),
            State(0x47DD1693, 0x8392FAC2, 0xDEA19043, 0x233FE443), State(0x23A1FA93, 0x473F90C2, 0x83DDE443, 0xDE921643),
            State(0xB355A7AA, 0x7CE5FF4C, 0xE1986FEF, 0xE6131CF0), State(0x071E1280, 0x8A1DFD76, 0xBC318C8D, 0xEE1F5D96));
  }

  lemma Round192_6()
    ensures AddRoundKey(State(0x728501F5, 0x7E8D4497, 0xCAC6F1BD, 0x3C3EF387),
                        MixColumns(ShiftRows(SubBytes(State(0x071E1280, 0x8A1DFD76, 0xBC318C8D, 0xEE1F5D96)))))
         == State(0xFDF11E67, 0x031E2A4E, 0xEFB1DCDF, 0x309B783D)
  {
    Through(State(0x728501F5, 0x7E8D4497, 0xCAC6F1BD, 0x3C3EF387), State(0x071E1280, 0x8A1DFD76, 0xBC318C8D, 0xEE1F5D96),
            State(0xC572C9CD, 0x7EA45438, 0x65C7645D, 0x28C04C90), State(0x28C754CD, 0xC5C06438, 0x7E724C5D, 0x65A4C990),
            State(0x8F741F92, 0x7D936ED9, 0x25772D62, 0x0CA58BBA), State(0xFDF11E67, 0x031E2A4E, 0xEFB1DCDF, 0x309B783D));
  }

  lemma Round192_7()
    ensures AddRoundKey(State(0x619710E5, 0x699B5183, 0x9E7C1534, 0xE0F151A3),
                        MixColumns(ShiftRows(SubBytes(State(0xFDF11E67, 0x031E2A4E, 0xEFB1DCDF, 0x309B783D)))))
         == State(0xD070030C, 0x22E6010C, 0xCC8A6B16, 0x2C3ADBD6)
  {
    Through(State(0x619710E5, 0x699B5183, 0x9E7C1534, 0xE0F151A3), State(0xFDF11E67, 0x031E2A4E, 0xEFB1DCDF, 0x309B783D),
            State(0x54A17285, 0x7B72E52F, 0xDFC8869E, 0x0414BC27), State(0x04C8E585, 0x5414862F, 0x7BA1BC9E, 0xDF727227),
            State(0xB1E713E9, 0x4B7D508F, 0x52F67E22, 0xCCCB8A75), State(0xD070030C, 0x22E6010C, 0xCC8A6B16, 0x2C3ADBD6));
  }

  lemma Round192_8()
    ensures AddRoundKey(State(0x2A37A01E, 0x16095399, 0x779E437C, 0x1E0512FF),
                        MixColumns(ShiftRows(SubBytes(State(0xD070030C, 0x22E6010C, 0xCC8A6B16, 0x2C3ADBD6)))))
         == State(0xD3DA5572, 0x1003B80F, 0x6B6C0DE0, 0x7C52D040)
  {
    Through(State(0x2A37A01E, 0x16095399, 0x779E437C, 0x1E0512FF), State(0xD070030C, 0x22E6010C, 0xCC8A6B16, 0x2C3ADBD6),
            State(0x70517BFE, 0x938E7CFE, 0x4B7E7F47, 0x7180B9F6), State(0x717E7CFE, 0x70807FFE, 0x9351B947, 0x4B8E7BF6),
            State(0xF9EDF56C, 0x060AEB96, 0x1CF24E9C, 0x6257C2BF), State(0xD3DA5572, 0x1003B80F, 0x6B6C0DE0, 0x7C52D040));
  }

  lemma Round192_9()
    ensures AddRoundKey(State(0x880E7EDD, 0x68FF2F7E, 0x42C88F60, 0x54C1DCF9),
                        MixColumns(ShiftRows(SubBytes(State(0xD3DA5572, 0x1003B80F, 0x6B6C0DE0, 0x7C52D040)))))
         == State(0x54B206A9, 0xE9F48A96, 0xD2B2BDB4, 0x3643C4F0)
  {
    Through(State(0x880E7EDD, 0x68FF2F7E, 0x42C88F60, 0x54C1DCF9), State(0xD3DA5572, 0x1003B80F, 0x6B6C0DE0, 0x7C52D040),
            State(0x6657FC40, 0xCA7B6C76, 0x7F50D7E1, 0x10007009), State(0x10506C40, 0x6600D776, 0xCA5770E1, 0x7F7BFC09),
            State(0xDCBC7874, 0x810BA5E8, 0x907A32D4, 0x62821809), State(0x54B206A9, 0xE9F48A96, 0xD2B2BDB4, 0x3643C4F0));
  }

  lemma Round192_10()
    ensures AddRoundKey(State(0x235F9F85, 0x3D5A8D7A, 0x5229C0C0, 0x3AD6EFBE),
                        MixColumns(ShiftRows(SubBytes(State(0x54B206A9, 0xE9F48A96, 0xD2B2BDB4, 0x3643C4F0)))))
         == State(0x0E93EC88, 0xB6E4E7F5, 0xC9F432CC, 0x1494D206)
  {
    Through(State(0x235F9F85, 0x3D5A8D7A, 0x5229C0C0, 0x3AD6EFBE), State(0x54B206A9, 0xE9F48A96, 0xD2B2BDB4, 0x3643C4F0),
            State(0x20376FD3, 0x1EBF7E90, 0xB5377A8D, 0x051A1C8C), State(0x05377ED3, 0x201A7A90, 0x1E371C8D, 0xB5BF6F8C),
            State(0x2DCC730D, 0x8BBE6A8F, 0x9BDDF20C, 0x2E423DB8), State(0x0E93EC88, 0xB6E4E7F5, 0xC9F432CC, 0x1494D206));
  }

  lemma Round192_11()
    ensures AddRoundKey(State(0x781E60DE, 0x2CDFBC27, 0x0F8023A2, 0x32DAAED8),
                        MixColumns(ShiftRows(SubBytes(State(0x0E93EC88, 0xB6E4E7F5, 0xC9F432CC, 0x1494D206)))))
         == State(0xEB3EB7AF, 0x51B8D11C, 0x270F2862, 0x85D520FB)
  {
    Through(State(0x781E60DE, 0x2CDFBC27, 0x0F8023A2, 0x32DAAED8), State(0x0E93EC88, 0xB6E4E7F5, 0xC9F432CC, 0x1494D206),
            State(0xABDCCEC4, 0x4E6994E6, 0xDDBF234B, 0xFA22B56F), State(0xFABF94C4, 0xAB2223E6, 0x4EDCB54B, 0xDD69CE6F),
            State(0x9320D771, 0x7D676D3B, 0x288F0BC0, 0xB70F8E23), State(0xEB3EB7AF, 0x51B8D11C, 0x270F2862, 0x85D520FB));
  }

  lemma Round192_12()
    ensures AddRoundKey(State(0x330A97A4, 0x09DC781A, 0x71C218C4, 0x5D1DA4E3),
                        ShiftRows(SubBytes(State(0xEB3EB7AF, 0x51B8D11C, 0x270F2862, 0x85D520FB))))
         == State(0xA47CA9DD, 0xE0DF4C86, 0xA070AF6E, 0x91710DEC)
  {
    assert SubBytes(State(0xEB3EB7AF, 0x51B8D11C, 0x270F2862, 0x85D520FB)) == State(0xE9B2A979, 0xD16C3E9C, 0xCC7634AA, 0x9703B70F);
    assert ShiftRows(State(0xE9B2A979, 0xD16C3E9C, 0xCC7634AA, 0x9703B70F)) == State(0x97763E79, 0xE903349C, 0xD1B2B7AA, 0xCC6CA90F);
  }

  lemma RoundKeys192()
    ensures Expanded(KEY_192) == [
      State(0x03020100, 0x07060504, 0x0B0A0908, 0x0F0E0D0C),
      State(0x13121110, 0x17161514, 0xF9F24658, 0xFEF4435C),
      State(0xF5FE4A54, 0xFAF04758, 0xE9E25648, 0xFEF4435C),
      State(0xB349F940, 0x4DBDBA1C, 0xB843F048, 0x42B3B710),
      State(0xAB51E158, 0x55A5A204, 0x41B5FF7E, 0x0C084562),
      State(0xB44BB52A, 0xF6F8023A, 0x5DA9E362, 0x080C4166),
      State(0x728501F5, 0x7E8D4497, 0xCAC6F1BD, 0x3C3EF387),
      State(0x619710E5, 0x699B5183, 0x9E7C1534, 0xE0F151A3),
      State(0x2A37A01E, 0x16095399, 0x779E437C, 0x1E0512FF),
      State(0x880E7EDD, 0x68FF2F7E, 0x42C88F60, 0x54C1DCF9),
      State(0x235F9F85, 0x3D5A8D7A, 0x5229C0C0, 0x3AD6EFBE),
      State(0x781E60DE, 0x2CDFBC27, 0x0F8023A2, 0x32DAAED8),
      State(0x330A97A4, 0x09DC781A, 0x71C218C4, 0x5D1DA4E3)]
  {
    hide Scheduled;
    Keys192_0();
    Keys192_1();
    Keys192_2();
    Keys192_6();
    Keys192_10();
  }

  /** Appendix C.2, from the key and the plain text. */
  lemma Example192()
    ensures EncryptBlock(Expanded(KEY_192), PLAIN) ==
      [0xdd, 0xa9, 0x7c, 0xa4, 0x86, 0x4c, 0xdf, 0xe0, 0x6e, 0xaf, 0x70, 0xa0, 0xec, 0x0d, 0x71, 0x91]
  {
    hide Expanded, Scheduled, AddRoundKey, MixColumns, ShiftRows, SubBytes, FromBytes, Rounds;
    PlainState();
    RoundKeys192();
    var keys := Expanded(KEY_192);
    First192();
    Round192_1();
    Round192_2();
    Round192_3();
    Round192_4();
    Round192_5();
    Round192_6();
    Round192_7();
    Round192_8();
    Round192_9();
    Round192_10();
    Round192_11();
    Round192_12();
    var states := [
      State(0x30201000, 0x70605040, 0xB0A09080, 0xF0E0D0C0),
      State(0x0676634F, 0x85AAE043, 0xD0C9F8AF, 0xE40DFA41),
      State(0x8C8102CB, 0x9CAFD217, 0x4264AA62, 0xD75FB28B),
      State(0x78775CF7, 0xEDC827A3, 0xC1BFFE8C, 0x537FC3A6),
      State(0x16C9FF22, 0x417414A8, 0x9CF19664, 0x3225AE64),
      State(0x071E1280, 0x8A1DFD76, 0xBC318C8D, 0xEE1F5D96),
      State(0xFDF11E67, 0x031E2A4E, 0xEFB1DCDF, 0x309B783D),
      State(0xD070030C, 0x22E6010C, 0xCC8A6B16, 0x2C3ADBD6),
      State(0xD3DA5572, 0x1003B80F, 0x6B6C0DE0, 0x7C52D040),
      State(0x54B206A9, 0xE9F48A96, 0xD2B2BDB4, 0x3643C4F0),
      State(0x0E93EC88, 0xB6E4E7F5, 0xC9F432CC, 0x1494D206),
      State(0xEB3EB7AF, 0x51B8D11C, 0x270F2862, 0x85D520FB)];
    assert Chain(keys, FromBytes(PLAIN), states);
    ChainRounds(keys, FromBytes(PLAIN), states, 11);
  }

  lemma First192()
    ensures AddRoundKey(State(0x03020100, 0x07060504, 0x0B0A0908, 0x0F0E0D0C), State(0x33221100, 0x77665544, 0xBBAA9988, 0xFFEEDDCC))
         == State(0x30201000, 0x70605040, 0xB0A09080, 0xF0E0D0C0)
  {
  }

  // ----- AES-256

  const KEY_256: seq<Byte> :=
    [0x00, 0x01, 0x02, 0x03, 0x04, 0x05, 0x06, 0x07, 0x08, 0x09, 0x0a, 0x0b, 0x0c, 0x0d, 0x0e, 0x0f,
     0x10, 0x11, 0x12, 0x13, 0x14, 0x15, 0x16, 0x17, 0x18, 0x19, 0x1a, 0x1b, 0x1c, 0x1d, 0x1e, 0x1f]

  lemma Box256_8()
    ensures SubWord(Rotated(0x1F1E1D1C)) == 0x9CC072A4
  {
  }

  lemma Box256_12()
    ensures SubWord(0x9CC072A5) == 0xDEBA4006
  {
  }

  lemma Box256_16()
    ensures SubWord(Rotated(0xDEBA4006)) == 0x6F1DF409
  {
  }

  lemma Box256_20()
    ensures SubWord(0x6715FC03) == 0x8559B07B
  {
  }

  lemma Words256_2()
    ensures NextWord(8, 8, 0x1F1E1D1C, 0x03020100) == 0x9FC273A5
    ensures NextWord(8, 9, 0x9FC273A5, 0x07060504) == 0x98C476A1
    ensures NextWord(8, 10, 0x98C476A1, 0x0B0A0908) == 0x93CE7FA9
    ensures NextWord(8, 11, 0x93CE7FA9, 0x0F0E0D0C) == 0x9CC072A5
    ensures NextWord(8, 12, 0x9CC072A5, 0x13121110) == 0xCDA85116
    ensures NextWord(8, 13, 0xCDA85116, 0x17161514) == 0xDABE4402
    ensures NextWord(8, 14, 0xDABE4402, 0x1B1A1918) == 0xC1A45D1A
    ensures NextWord(8, 15, 0xC1A45D1A, 0x1F1E1D1C) == 0xDEBA4006
    ensures NextWord(8, 16, 0xDEBA4006, 0x9FC273A5) == 0xF0DF87AE
    ensures NextWord(8, 17, 0xF0DF87AE, 0x98C476A1) == 0x681BF10F
    ensures NextWord(8, 18, 0x681BF10F, 0x93CE7FA9) == 0xFBD58EA6
    ensures NextWord(8, 19, 0xFBD58EA6, 0x9CC072A5) == 0x6715FC03
    ensures NextWord(8, 20, 0x6715FC03, 0xCDA85116) == 0x48F1E16D
    ensures NextWord(8, 21, 0x48F1E16D, 0xDABE4402) == 0x924FA56F
    ensures NextWord(8, 22, 0x924FA56F, 0xC1A45D1A) == 0x53EBF875
    ensures NextWord(8, 23, 0x53EBF875, 0xDEBA4006) == 0x8D51B873
  {
    hide SubWord, Rotated, RoundConstant;
    Box256_8();
    RconPowers(1);
    Box256_12();
    Box256_16();
    RconPowers(2);
    Box256_20();
  }

  lemma Box256_24()
    ensures SubWord(Rotated(0x8D51B873)) == 0x8F5DD16C
  {
  }

  lemma Box256_28()
    ensures SubWord(0x8B59D56C) == 0x3DCB0350
  {
  }

  lemma Box256_32()
    ensures SubWord(Rotated(0x39CF0754)) == 0x20128AC5
  {
  }

  lemma Box256_36()
    ensures SubWord(0x2F1C87C1) == 0x159C1778
  {
  }

  lemma Words256_6()
    ensures NextWord(8, 24, 0x8D51B873, 0xF0DF87AE) == 0x7F8256C6
    ensures NextWord(8, 25, 0x7F8256C6, 0x681BF10F) == 0x1799A7C9
    ensures NextWord(8, 26, 0x1799A7C9, 0xFBD58EA6) == 0xEC4C296F
    ensures NextWord(8, 27, 0xEC4C296F, 0x6715FC03) == 0x8B59D56C
    ensures NextWord(8, 28, 0x8B59D56C, 0x48F1E16D) == 0x753AE23D
    ensures NextWord(8, 29, 0x753AE23D, 0x924FA56F) == 0xE7754752
    ensures NextWord(8, 30, 0xE7754752, 0x53EBF875) == 0xB49EBF27
    ensures NextWord(8, 31, 0xB49EBF27, 0x8D51B873) == 0x39CF0754
    ensures NextWord(8, 32, 0x39CF0754, 0x7F8256C6) == 0x5F90DC0B
    ensures NextWord(8, 33, 0x5F90DC0B, 0x1799A7C9) == 0x48097BC2
    ensures NextWord(8, 34, 0x48097BC2, 0xEC4C296F) == 0xA44552AD
    ensures NextWord(8, 35, 0xA44552AD, 0x8B59D56C) == 0x2F1C87C1
    ensures NextWord(8, 36, 0x2F1C87C1, 0x753AE23D) == 0x60A6F545
    ensures NextWord(8, 37, 0x60A6F545, 0xE7754752) == 0x87D3B217
    ensures NextWord(8, 38, 0x87D3B217, 0xB49EBF27) == 0x334D0D30
    ensures NextWord(8, 39, 0x334D0D30, 0x39CF0754) == 0x0A820A64
  {
    hide SubWord, Rotated, RoundConstant;
    Box256_24();
    RconPowers(3);
    Box256_28();
    Box256_32();
    RconPowers(4);
    Box256_36();
  }

  lemma Box256_40()
    ensures SubWord(Rotated(0x0A820A64)) == 0x43671367
  {
  }

  lemma Box256_44()
    ensures SubWord(0xDFA761D2) == 0x9E5CEFB5
  {
  }

  lemma Box256_48()
    ensures SubWord(Rotated(0x40E6AFB3)) == 0x6D098E79
  {
  }

  lemma Box256_52()
    ensures SubWord(0x0A1C725A) == 0x679C40BE
  {
  }

  lemma Words256_10()
    ensures NextWord(8, 40, 0x0A820A64, 0x5F90DC0B) == 0x1CF7CF7C
    ensures NextWord(8, 41, 0x1CF7CF7C, 0x48097BC2) == 0x54FEB4BE
    ensures NextWord(8, 42, 0x54FEB4BE, 0xA44552AD) == 0xF0BBE613
    ensures NextWord(8, 43, 0xF0BBE613, 0x2F1C87C1) == 0xDFA761D2
    ensures NextWord(8, 44, 0xDFA761D2, 0x60A6F545) == 0xFEFA1AF0
    ensures NextWord(8, 45, 0xFEFA1AF0, 0x87D3B217) == 0x7929A8E7
    ensures NextWord(8, 46, 0x7929A8E7, 0x334D0D30) == 0x4A64A5D7
    ensures NextWord(8, 47, 0x4A64A5D7, 0x0A820A64) == 0x40E6AFB3
    ensures NextWord(8, 48, 0x40E6AFB3, 0x1CF7CF7C) == 0x71FE4125
    ensures NextWord(8, 49, 0x71FE4125, 0x54FEB4BE) == 0x2500F59B
    ensures NextWord(8, 50, 0x2500F59B, 0xF0BBE613) == 0xD5BB1388
    ensures NextWord(8, 51, 0xD5BB1388, 0xDFA761D2) == 0x0A1C725A
    ensures NextWord(8, 52, 0x0A1C725A, 0xFEFA1AF0) == 0x99665A4E
    ensures NextWord(8, 53, 0x99665A4E, 0x7929A8E7) == 0xE04FF2A9
    ensures NextWord(8, 54, 0xE04FF2A9, 0x4A64A5D7) == 0xAA2B577E
    ensures NextWord(8, 55, 0xAA2B577E, 0x40E6AFB3) == 0xEACDF8CD
  {
    hide SubWord, Rotated, RoundConstant;
    Box256_40();
    RconPowers(5);
    Box256_44();
    Box256_48();
    RconPowers(6);
    Box256_52();
  }

  lemma Box256_56()
    ensures SubWord(Rotated(0xEACDF8CD)) == 0xBD87BD41
  {
  }

  lemma Words256_14()
    ensures NextWord(8, 56, 0xEACDF8CD, 0x71FE4125) == 0xCC79FC24
    ensures NextWord(8, 57, 0xCC79FC24, 0x2500F59B) == 0xE97909BF
    ensures NextWord(8, 58, 0xE97909BF, 0xD5BB1388) == 0x3CC21A37
    ensures NextWord(8, 59, 0x3CC21A37, 0x0A1C725A) == 0x36DE686D
  {
    hide SubWord, Rotated, RoundConstant;
    Box256_56();
    RconPowers(7);
  }

  lemma Keys256_0()
    ensures Column(KEY_256, 0, State(0x03020100, 0x07060504, 0x0B0A0908, 0x0F0E0D0C))
  {
    hide Scheduled, NextWord;
    ScheduledKey(KEY_256, 0);
    ScheduledKey(KEY_256, 1);
    ScheduledKey(KEY_256, 2);
    ScheduledKey(KEY_256, 3);
  }

  lemma Keys256_1()
    ensures Column(KEY_256, 1, State(0x13121110, 0x17161514, 0x1B1A1918, 0x1F1E1D1C))
  {
    hide Scheduled, NextWord;
    ScheduledKey(KEY_256, 4);
    ScheduledKey(KEY_256, 5);
    ScheduledKey(KEY_256, 6);
    ScheduledKey(KEY_256, 7);
  }

  lemma Keys256_2()
    ensures Column(KEY_256, 2, State(0x9FC273A5, 0x98C476A1, 0x93CE7FA9, 0x9CC072A5))
    ensures Column(KEY_256, 3, State(0xCDA85116, 0xDABE4402, 0xC1A45D1A, 0xDEBA4006))
    ensures Column(KEY_256, 4, State(0xF0DF87AE, 0x681BF10F, 0xFBD58EA6, 0x6715FC03))
    ensures Column(KEY_256, 5, State(0x48F1E16D, 0x924FA56F, 0x53EBF875, 0x8D51B873))
  {
    hide Scheduled, NextWord;
    Keys256_0();
    Keys256_1();
    Words256_2();
    FourWords(KEY_256, 8);
    FourWords(KEY_256, 12);
    FourWords(KEY_256, 16);
    FourWords(KEY_256, 20);
  }

  lemma Keys256_6()
    ensures Column(KEY_256, 6, State(0x7F8256C6, 0x1799A7C9, 0xEC4C296F, 0x8B59D56C))
    ensures Column(KEY_256, 7, State(0x753AE23D, 0xE7754752, 0xB49EBF27, 0x39CF0754))
    ensures Column(KEY_256, 8, State(0x5F90DC0B, 0x48097BC2, 0xA44552AD, 0x2F1C87C1))
    ensures Column(KEY_256, 9, State(0x60A6F545, 0x87D3B217, 0x334D0D30, 0x0A820A64))
  {
    hide Scheduled, NextWord;
    Keys256_2();
    Words256_6();
    FourWords(KEY_256, 24);
    FourWords(KEY_256, 28);
    FourWords(KEY_256, 32);
    FourWords(KEY_256, 36);
  }

  lemma Keys256_10()
    ensures Column(KEY_256, 10, State(0x1CF7CF7C, 0x54FEB4BE, 0xF0BBE613, 0xDFA761D2))
    ensures Column(KEY_256, 11, State(0xFEFA1AF0, 0x7929A8E7, 0x4A64A5D7, 0x40E6AFB3))
    ensures Column(KEY_256, 12, State(0x71FE4125, 0x2500F59B, 0xD5BB1388, 0x0A1C725A))
    ensures Column(KEY_256, 13, State(0x99665A4E, 0xE04FF2A9, 0xAA2B577E, 0xEACDF8CD))
  {
    hide Scheduled, NextWord;
    Keys256_6();
    Words256_10();
    FourWords(KEY_256, 40);
    FourWords(KEY_256, 44);
    FourWords(KEY_256, 48);
    FourWords(KEY_256, 52);
  }

  lemma Keys256_14()
    ensures Column(KEY_256, 14, State(0xCC79FC24, 0xE97909BF, 0x3CC21A37, 0x36DE686D))
  {
    hide Scheduled, NextWord;
    Keys256_10();
    Words256_14();
    FourWords(KEY_256, 56);
  }

  lemma Round256_1()
    ensures AddRoundKey(State(0x13121110, 0x17161514, 0x1B1A1918, 0x1F1E1D1C),
                        MixColumns(ShiftRows(SubBytes(State(0x30201000, 0x70605040, 0xB0A09080, 0xF0E0D0C0)))))
         == State(0x0676634F, 0x85AAE043, 0x3221A7EF, 0x05E7A401)
  {
    Through(State(0x13121110, 0x17161514, 0x1B1A1918, 0x1F1E1D1C), State(0x30201000, 0x70605040, 0xB0A09080, 0xF0E0D0C0),
            State(0x04B7CA63, 0x51D05309, 0xE7E060CD, 0x8CE170BA), State(0x8CE05363, 0x04E16009, 0x51B770CD, 0xE7D0CABA),
            State(0x1564725F, 0x92BCF557, 0x293BBEF7, 0x1AF9B91D), State(0x0676634F, 0x85AAE043, 0x3221A7EF, 0x05E7A401));
  }

  lemma Round256_2()
    ensures AddRoundKey(State(0x9FC273A5, 0x98C476A1, 0x93CE7FA9, 0x9CC072A5),
                        MixColumns(ShiftRows(SubBytes(State(0x0676634F, 0x85AAE043, 0x3221A7EF, 0x05E7A401)))))
         == State(0xC2FB5918, 0xA0001C8A, 0xAD8AED78, 0x09612FC4)
  {
    Through(State(0x9FC273A5, 0x98C476A1, 0x93CE7FA9, 0x9CC072A5), State(0x0676634F, 0x85AAE043, 0x3221A7EF, 0x05E7A401),
            State(0x6F38FB84, 0x97ACE11A, 0x23FD5CDF, 0x6B94497C), State(0x6BFDE184, 0x6F945C1A, 0x973849DF, 0x23ACFB7C),
            State(0x5D392ABD, 0x38C46A2B, 0x3E4492D1, 0x95A15D61), State(0xC2FB5918, 0xA0001C8A, 0xAD8AED78, 0x09612FC4));
  }

  lemma Round256_3()
    ensures AddRoundKey(State(0xCDA85116, 0xDABE4402, 0xC1A45D1A, 0xDEBA4006),
                        MixColumns(ShiftRows(SubBytes(State(0xC2FB5918, 0xA0001C8A, 0xAD8AED78, 0x09612FC4)))))
         == State(0xC1665C97, 0xA83F9FCB, 0xDF283AA9, 0x630FE18E)
  {
    Through(State(0xCDA85116, 0xDABE4402, 0xC1A45D1A, 0xDEBA4006), State(0xC2FB5918, 0xA0001C8A, 0xAD8AED78, 0x09612FC4),
            State(0x250FCBAD, 0xE0639C7E, 0x957E55BC, 0x01EF151C), State(0x017E9CAD, 0x25EF557E, 0xE00F15BC, 0x9563CB1C),
            State(0x0CCE0D81, 0x7281DBC9, 0x1E8C67B3, 0xBDB5A188), State(0xC1665C97, 0xA83F9FCB, 0xDF283AA9, 0x630FE18E));
  }

  lemma Round256_4()
    ensures AddRoundKey(State(0xF0DF87AE, 0x681BF10F, 0xFBD58EA6, 0x6715FC03),
                        MixColumns(ShiftRows(SubBytes(State(0xC1665C97, 0xA83F9FCB, 0xDF283AA9, 0x630FE18E)))))
         == State(0x71F2051C, 0x4FE017A4, 0xC1C521F9, 0x54157004)
  {
    Through(State(0xF0DF87AE, 0x681BF10F, 0xFBD58EA6, 0x6715FC03), State(0xC1665C97, 0xA83F9FCB, 0xDF283AA9, 0x630FE18E),
            State(0x78334A88, 0xC275DB1F, 0x9E3480D3, 0xFB76F819), State(0xFB34DB88, 0x7876801F, 0xC233F8D3, 0x9E754A19),
            State(0x812D82B2, 0x27FBE6AB, 0x3A10AF5F, 0x33008C07), State(0x71F2051C, 0x4FE017A4, 0xC1C521F9, 0x54157004));
  }

  lemma Round256_5()
    ensures AddRoundKey(State(0x48F1E16D, 0x924FA56F, 0x53EBF875, 0x8D51B873),
                        MixColumns(ShiftRows(SubBytes(State(0x71F2051C, 0x4FE017A4, 0xC1C521F9, 0x54157004)))))
         == State(0xE1AA57C3, 0xB0B7451B, 0x28BDC7A2, 0xFA99DCA8)
  {
    Through(State(0x48F1E16D, 0x924FA56F, 0x53EBF875, 0x8D51B873), State(0x71F2051C, 0x4FE017A4, 0xC1C521F9, 0x54157004),
            State(0xA3896B9C, 0x84E1F049, 0x78A6FD99, 0x205951F2), State(0x20A6F09C, 0xA359FD49, 0x84895199, 0x78E16BF2),
            State(0xA95BB6AE, 0x22F8E074, 0x7B563FD7, 0x77C864DB), State(0xE1AA57C3, 0xB0B7451B, 0x28BDC7A2, 0xFA99DCA8));
  }

  lemma Round256_6()
    ensures AddRoundKey(State(0x7F8256C6, 0x1799A7C9, 0xEC4C296F, 0x8B59D56C),
                        MixColumns(ShiftRows(SubBytes(State(0xE1AA57C3, 0xB0B7451B, 0x28BDC7A2, 0xFA99DCA8)))))
         == State(0x4341077F, 0x3E244ECB, 0x5D810CC1, 0x4CD57583)
  {
    Through(State(0x7F8256C6, 0x1799A7C9, 0xEC4C296F, 0x8B59D56C), State(0xE1AA57C3, 0xB0B7451B, 0x28BDC7A2, 0xFA99DCA8),
            State(0xF8AC5B2E, 0xE7A96EAF, 0x347AC63A, 0x2DEE86C2), State(0x2D7A6E2E, 0xF8EEC6AF, 0xE7AC863A, 0x34A95BC2),
            State(0x3CC351B9, 0x29BDE902, 0xB1CD25AE, 0xC78CA0EF), State(0x4341077F, 0x3E244ECB, 0x5D810CC1, 0x4CD57583));
  }

  lemma Round256_7()
    ensures AddRoundKey(State(0x753AE23D, 0xE7754752, 0xB49EBF27, 0x39CF0754),
                        MixColumns(ShiftRows(SubBytes(State(0x4341077F, 0x3E244ECB, 0x5D810CC1, 0x4CD57583)))))
         == State(0x69A453D6, 0x0FBCA06C, 0x5DABCA5A, 0x7D5E6CB9)
  {
    Through(State(0x753AE23D, 0xE7754752, 0xB49EBF27, 0x39CF0754), State(0x4341077F, 0x3E244ECB, 0x5D810CC1, 0x4CD57583),
            State(0x1A83C5D2, 0xB2362F1F, 0x4C0CFE78, 0x29039DEC), State(0x290C2FD2, 0x1A03FE1F, 0xB2839D78, 0x4C36C5EC),
            State(0x1C9EB1EB, 0xE8C9E73E, 0xE935757D, 0x44916BED), State(0x69A453D6, 0x0FBCA06C, 0x5DABCA5A, 0x7D5E6CB9));
  }

  lemma Round256_8()
    ensures AddRoundKey(State(0x5F90DC0B, 0x48097BC2, 0xA44552AD, 0x2F1C87C1),
                        MixColumns(ShiftRows(SubBytes(State(0x69A453D6, 0x0FBCA06C, 0x5DABCA5A, 0x7D5E6CB9)))))
         == State(0x3958A85A, 0x7D8DD25F, 0x88A3E105, 0xC5B9F368)
  {
    Through(State(0x5F90DC0B, 0x48097BC2, 0xA44552AD, 0x2F1C87C1), State(0x69A453D6, 0x0FBCA06C, 0x5DABCA5A, 0x7D5E6CB9),
            State(0xF949EDF6, 0x7665E050, 0x4C6274BE, 0xFF585056), State(0xFF62E0F6, 0xF9587450, 0x764950BE, 0x4C65ED56),
            State(0x66C87451, 0x3584A99D, 0x2CE6B3A8, 0xEAA574A9), State(0x3958A85A, 0x7D8DD25F, 0x88A3E105, 0xC5B9F368));
  }

  lemma Round256_9()
    ensures AddRoundKey(State(0x60A6F545, 0x87D3B217, 0x334D0D30, 0x0A820A64),
                        MixColumns(ShiftRows(SubBytes(State(0x3958A85A, 0x7D8DD25F, 0x88A3E105, 0xC5B9F368)))))
         == State(0x5148824A, 0x477E7EC5, 0x0CE53D64, 0xC9E8F32A)
  {
    Through(State(0x60A6F545, 0x87D3B217, 0x334D0D30, 0x0A820A64), State(0x3958A85A, 0x7D8DD25F, 0x88A3E105, 0xC5B9F368),
            State(0x126AC2BE, 0xFF5DB5CF, 0xC40AF86B, 0xA6560D45), State(0xA60AB5BE, 0x1256F8CF, 0xFF6A0D6B, 0xC45DC245),
            State(0x31EE770F, 0xC0ADCCD2, 0x3FA83054, 0xC36AF94E), State(0x5148824A, 0x477E7EC5, 0x0CE53D64, 0xC9E8F32A));
  }

  lemma Round256_10()
    ensures AddRoundKey(State(0x1CF7CF7C, 0x54FEB4BE, 0xF0BBE613, 0xDFA761D2),
                        MixColumns(ShiftRows(SubBytes(State(0x5148824A, 0x477E7EC5, 0x0CE53D64, 0xC9E8F32A)))))
         == State(0xF60749C1, 0xA03A3BCA, 0x31AAE970, 0xECB5523B)
  {
    Through(State(0x1CF7CF7C, 0x54FEB4BE, 0xF0BBE613, 0xDFA761D2), State(0x5148824A, 0x477E7EC5, 0x0CE53D64, 0xC9E8F32A),
            State(0xD15213D6, 0xA0F3F3A6, 0xFED92743, 0xDD9B0DE5), State(0xDDD9F3D6, 0xD19B27A6, 0xA0520D43, 0xFEF313E5),
            State(0xEAF086BD, 0xF4C48F74, 0xC1110F63, 0x331233E9), State(0xF60749C1, 0xA03A3BCA, 0x31AAE970, 0xECB5523B));
  }

  lemma Round256_11()
    ensures AddRoundKey(State(0xFEFA1AF0, 0x7929A8E7, 0x4A64A5D7, 0x40E6AFB3),
                        MixColumns(ShiftRows(SubBytes(State(0xF60749C1, 0xA03A3BCA, 0x31AAE970, 0xECB5523B)))))
         == State(0xBF6A9C5F, 0xAA34C6BA, 0xA79F4050, 0x53766766)
  {
    Through(State(0xFEFA1AF0, 0x7929A8E7, 0x4A64A5D7, 0x40E6AFB3), State(0xF60749C1, 0xA03A3BCA, 0x31AAE970, 0xECB5523B),
            State(0x42C53B78, 0xE080E274, 0xC7AC1E51, 0xCED500E2), State(0xCEACE278, 0x42D51E74, 0xE0C50051, 0xC7803BE2),
            State(0x419086AF, 0xD31D6E5D, 0xEDFBE587, 0x1390C8D5), State(0xBF6A9C5F, 0xAA34C6BA, 0xA79F4050, 0x53766766));
  }

  lemma Round256_12()
    ensures AddRoundKey(State(0x71FE4125, 0x2500F59B, 0xD5BB1388, 0x0A1C725A),
                        MixColumns(ShiftRows(SubBytes(State(0xBF6A9C5F, 0xAA34C6BA, 0xA79F4050, 0x53766766)))))
         == State(0x95046651, 0x03955343, 0xE486FB14, 0x21259201)
  {
    Through(State(0x71FE4125, 0x2500F59B, 0xD5BB1388, 0x0A1C725A), State(0xBF6A9C5F, 0xAA34C6BA, 0xA79F4050, 0x53766766),
            State(0x0802DECF, 0xAC18B4F4, 0x5CDB0953, 0xED388533), State(0xEDDBB4CF, 0x083809F4, 0xAC028553, 0x5C18DE33),
            State(0xE4FA2774, 0x2695A6D8, 0x313DE89C, 0x2B39E05B), State(0x95046651, 0x03955343, 0xE486FB14, 0x21259201));
  }

  lemma Round256_13()
    ensures AddRoundKey(State(0x99665A4E, 0xE04FF2A9, 0xAA2B577E, 0xEACDF8CD),
                        MixColumns(ShiftRows(SubBytes(State(0x95046651, 0x03955343, 0xE486FB14, 0x21259201)))))
         == State(0xB9CE7B62, 0xAA5A9D99, 0xF4EC45C9, 0xA56DF523)
  {
    Through(State(0x99665A4E, 0xE04FF2A9, 0xAA2B577E, 0xEACDF8CD), State(0x95046651, 0x03955343, 0xE486FB14, 0x21259201),
            State(0x2AF233D1, 0x7B2AED1A, 0x69440FFA, 0xFD3F4F7C), State(0xFD44EDD1, 0x2A3F0F1A, 0x7BF24FFA, 0x692A337C),
            State(0x20A8212C, 0x4A156F30, 0x5EC712B7, 0x4FA00DEE), State(0xB9CE7B62, 0xAA5A9D99, 0xF4EC45C9, 0xA56DF523));
  }

  lemma Round256_14()
    ensures AddRoundKey(State(0xCC79FC24, 0xE97909BF, 0x3CC21A37, 0x36DE686D),
                        ShiftRows(SubBytes(State(0xB9CE7B62, 0xAA5A9D99, 0xF4EC45C9, 0xA56DF523))))
         == State(0xCAB7A28E, 0xBF456751, 0x9049FCEA, 0x8960494B)
  {
    assert SubBytes(State(0xB9CE7B62, 0xAA5A9D99, 0xF4EC45C9, 0xA56DF523)) == State(0x568B21AA, 0xACBE5EEE, 0xBFCE6EDD, 0x063CE626);
    assert ShiftRows(State(0x568B21AA, 0xACBE5EEE, 0xBFCE6EDD, 0x063CE626)) == State(0x06CE5EAA, 0x563C6EEE, 0xAC8BE6DD, 0xBFBE2126);
  }

  lemma RoundKeys256()
    ensures Expanded(KEY_256) == [
      State(0x03020100, 0x07060504, 0x0B0A0908, 0x0F0E0D0C),
      State(0x13121110, 0x17161514, 0x1B1A1918, 0x1F1E1D1C),
      State(0x9FC273A5, 0x98C476A1, 0x93CE7FA9, 0x9CC072A5),
      State(0xCDA85116, 0xDABE4402, 0xC1A45D1A, 0xDEBA4006),
      State(0xF0DF87AE, 0x681BF10F, 0xFBD58EA6, 0x6715FC03),
      State(0x48F1E16D, 0x924FA56F, 0x53EBF875, 0x8D51B873),
      State(0x7F8256C6, 0x1799A7C9, 0xEC4C296F, 0x8B59D56C),
      State(0x753AE23D, 0xE7754752, 0xB49EBF27, 0x39CF0754),
      State(0x5F90DC0B, 0x48097BC2, 0xA44552AD, 0x2F1C87C1),
      State(0x60A6F545, 0x87D3B217, 0x334D0D30, 0x0A820A64),
      State(0x1CF7CF7C, 0x54FEB4BE, 0xF0BBE613, 0xDFA761D2),
      State(0xFEFA1AF0, 0x7929A8E7, 0x4A64A5D7, 0x40E6AFB3),
      State(0x71FE4125, 0x2500F59B, 0xD5BB1388, 0x0A1C725A),
      State(0x99665A4E, 0xE04FF2A9, 0xAA2B577E, 0xEACDF8CD),
      State(0xCC79FC24, 0xE97909BF, 0x3CC21A37, 0x36DE686D)]
  {
    hide Scheduled;
    Keys256_0();
    Keys256_1();
    Keys256_2();
    Keys256_6();
    Keys256_10();
    Keys256_14();
  }

  /** Appendix C.3, from the key and the plain text. */
  lemma Example256()
    ensures EncryptBlock(Expanded(KEY_256), PLAIN) ==
      [0x8e, 0xa2, 0xb7, 0xca, 0x51, 0x67, 0x45, 0xbf, 0xea, 0xfc, 0x49, 0x90, 0x4b, 0x49, 0x60, 0x89]
  {
    hide Expanded, Scheduled, AddRoundKey, MixColumns, ShiftRows, SubBytes, FromBytes, Rounds;
    PlainState();
    RoundKeys256();
    var keys := Expanded(KEY_256);
    First256();
    Round256_1();
    Round256_2();
    Round256_3();
    Round256_4();
    Round256_5();
    Round256_6();
    Round256_7();
    Round256_8();
    Round256_9();
    Round256_10();
    Round256_11();
    Round256_12();
    Round256_13();
    Round256_14();
    var states := [
      State(0x30201000, 0x70605040, 0xB0A09080, 0xF0E0D0C0),
      State(0x0676634F, 0x85AAE043, 0x3221A7EF, 0x05E7A401),
      State(0xC2FB5918, 0xA0001C8A, 0xAD8AED78, 0x09612FC4),
      State(0xC1665C97, 0xA83F9FCB, 0xDF283AA9, 0x630FE18E),
      State(0x71F2051C, 0x4FE017A4, 0xC1C521F9, 0x54157004),
      State(0xE1AA57C3, 0xB0B7451B, 0x28BDC7A2, 0xFA99DCA8),
      State(0x4341077F, 0x3E244ECB, 0x5D810CC1, 0x4CD57583),
      State(0x69A453D6, 0x0FBCA06C, 0x5DABCA5A, 0x7D5E6CB9),
      State(0x3958A85A, 0x7D8DD25F, 0x88A3E105, 0xC5B9F368),
      State(0x5148824A, 0x477E7EC5, 0x0CE53D64, 0xC9E8F32A),
      State(0xF60749C1, 0xA03A3BCA, 0x31AAE970, 0xECB5523B),
      State(0xBF6A9C5F, 0xAA34C6BA, 0xA79F4050, 0x53766766),
      State(0x95046651, 0x03955343, 0xE486FB14, 0x21259201),
      State(0xB9CE7B62, 0xAA5A9D99, 0xF4EC45C9, 0xA56DF523)];
    assert Chain(keys, FromBytes(PLAIN), states);
    ChainRounds(keys, FromBytes(PLAIN), states, 13);
  }

  lemma First256()
    ensures AddRoundKey(State(0x03020100, 0x07060504, 0x0B0A0908, 0x0F0E0D0C), State(0x33221100, 0x77665544, 0xBBAA9988, 0xFFEEDDCC))
         == State(0x30201000, 0x70605040, 0xB0A09080, 0xF0E0D0C0)
  {
  }
}
