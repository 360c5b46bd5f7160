/**
  The known answer of Appendix A of FIPS PUB 180-1: the digest of the message "abc", word by word and step by step.
  It fixes the schedule, the rotations, the functions, the constants and the start value together.
 */
module Sha1Abc {
  import opened Sha1

  // ----- one word and one step

  lemma {:induction false} ScheduleAt(block: seq<Octet>, n: nat, t: nat)
    requires |block| == 64 && t < n
    ensures Schedule(block, n)[t] == NextWord(block, Schedule(block, t))
    ensures Schedule(block, n)[..t] == Schedule(block, t)
    decreases n
  {
    if t < n - 1 {
      ScheduleAt(block, n - 1, t);
    }
  }

  /** One of the first sixteen words by the four bytes that it consists of. */
  lemma InputIs(block: seq<Octet>, w: seq<Word>, t: nat, x: Octet, x': Octet, y: Octet, y': Octet, v: Word)
    requires |block| == 64 && t < 16 && w == Schedule(block, 80)
    requires block[4 * t] == x && block[4 * t + 1] == x' && block[4 * t + 2] == y && block[4 * t + 3] == y'
    requires v == (x as Word << 24) | (x' as Word << 16) | (y as Word << 8) | y' as Word
    ensures w[t] == v
  {
    ScheduleAt(block, 80, t);
  }

  /** A later word by the four that it depends on. */
  lemma WordIs(block: seq<Octet>, w: seq<Word>, t: nat, w3: Word, w8: Word, w14: Word, w16: Word, v: Word)
    requires |block| == 64 && 16 <= t < 80 && w == Schedule(block, 80)
    requires w[t - 3] == w3 && w[t - 8] == w8 && w[t - 14] == w14 && w[t - 16] == w16
    requires v == Rotl(w3 ^ w8 ^ w14 ^ w16, 1)
    ensures w[t] == v
  {
    ScheduleAt(block, 80, t);
    var front := Schedule(block, t);
    assert front[t - 3] == w3 && front[t - 8] == w8 && front[t - 14] == w14 && front[t - 16] == w16;
  }

  /** The five words by the last five values that A has had; the older ones have been rotated since. */
  function After(a0: Word, a1: Word, a2: Word, a3: Word, a4: Word): Five {
    Five(a4, a3, Rotl(a2, 30), Rotl(a1, 30), Rotl(a0, 30))
  }

  /** Step `t` gives A its next value. */
  lemma StepIs(h: Five, w: seq<Word>, t: nat, a0: Word, a1: Word, a2: Word, a3: Word, a4: Word, v: Word, a5: Word)
    requires t < |w| && Rounds(h, w, t) == After(a0, a1, a2, a3, a4) && w[t] == v
    requires a5 == Total(Rotl(a4, 5), F(t, a3, Rotl(a2, 30), Rotl(a1, 30)), Rotl(a0, 30), v, K(t))
    ensures Rounds(h, w, t + 1) == After(a1, a2, a3, a4, a5)
  {
    var s := After(a0, a1, a2, a3, a4);
    RoundOn(h, w, t, s, F(t, s.b, s.c, s.d), K(t));
  }

  // ----- the message "abc"

  const ABC: seq<Octet> := [0x61, 0x62, 0x63]

  /** The padded message. */
  function AbcBlock(): (r: seq<Octet>)
    ensures |r| == 64
  {
    [0x61, 0x62, 0x63, 0x80] + Zeros(59) + [0x18]
  }

  lemma AbcInput(block: seq<Octet>, w: seq<Word>)
    requires block == AbcBlock() && w == Schedule(block, 80)
    ensures w[0] == 0x61626380 && w[15] == 0x00000018 && forall t: nat {:trigger w[t]} :: 0 < t < 15 ==> w[t] == 0
  {
    forall t: nat {:trigger w[t]} | 0 < t < 15 ensures w[t] == 0 {
      assert block[4 * t] == block[4 * t + 1] == block[4 * t + 2] == block[4 * t + 3] == 0;
      InputIs(block, w, t, 0, 0, 0, 0, 0);
    }
    InputIs(block, w, 0, 0x61, 0x62, 0x63, 0x80, 0x61626380);
    InputIs(block, w, 15, 0, 0, 0, 0x18, 0x00000018);
  }

  lemma AbcFirstTwenty(block: seq<Octet>, w: seq<Word>)
    requires block == AbcBlock() && w == Schedule(block, 80)
    ensures Rounds(INITIAL, w, 20) == After(0x20BDD62F, 0x4E925823, 0x82AA6728, 0xDC64901D, 0xFD9E1D7D)
    ensures w[4] == 0x00000000 && w[5] == 0x00000000 && w[6] == 0x00000000 && w[7] == 0x00000000
    ensures w[8] == 0x00000000 && w[9] == 0x00000000 && w[10] == 0x00000000 && w[11] == 0x00000000
    ensures w[12] == 0x00000000 && w[13] == 0x00000000 && w[14] == 0x00000000 && w[15] == 0x00000018
    ensures w[16] == 0xC2C4C700 && w[17] == 0x00000000 && w[18] == 0x00000030 && w[19] == 0x85898E01
  {
    AbcInput(block, w);
    assert INITIAL == After(0x0F4B87C3, 0x40C951D8, 0x62EB73FA, 0xEFCDAB89, 0x67452301);
    WordIs(block, w, 16, 0x00000000, 0x00000000, 0x00000000, 0x61626380, 0xC2C4C700);
    WordIs(block, w, 17, 0x00000000, 0x00000000, 0x00000000, 0x00000000, 0x00000000);
    WordIs(block, w, 18, 0x00000018, 0x00000000, 0x00000000, 0x00000000, 0x00000030);
    WordIs(block, w, 19, 0xC2C4C700, 0x00000000, 0x00000000, 0x00000000, 0x85898E01);
    StepIs(INITIAL, w, 0, 0x0F4B87C3, 0x40C951D8, 0x62EB73FA, 0xEFCDAB89, 0x67452301, 0x61626380, 0x0116FC33);
    StepIs(INITIAL, w, 1, 0x40C951D8, 0x62EB73FA, 0xEFCDAB89, 0x67452301, 0x0116FC33, 0x00000000, 0x8990536D);
    StepIs(INITIAL, w, 2, 0x62EB73FA, 0xEFCDAB89, 0x67452301, 0x0116FC33, 0x8990536D, 0x00000000, 0xA1390F08);
    StepIs(INITIAL, w, 3, 0xEFCDAB89, 0x67452301, 0x0116FC33, 0x8990536D, 0xA1390F08, 0x00000000, 0xCDD8E11B);
    StepIs(INITIAL, w, 4, 0x67452301, 0x0116FC33, 0x8990536D, 0xA1390F08, 0xCDD8E11B, 0x00000000, 0xCFD499DE);
    StepIs(INITIAL, w, 5, 0x0116FC33, 0x8990536D, 0xA1390F08, 0xCDD8E11B, 0xCFD499DE, 0x00000000, 0x3FC7CA40);
    StepIs(INITIAL, w, 6, 0x8990536D, 0xA1390F08, 0xCDD8E11B, 0xCFD499DE, 0x3FC7CA40, 0x00000000, 0x993E30C1);
    StepIs(INITIAL, w, 7, 0xA1390F08, 0xCDD8E11B, 0xCFD499DE, 0x3FC7CA40, 0x993E30C1, 0x00000000, 0x9E8C07D4);
    StepIs(INITIAL, w, 8, 0xCDD8E11B, 0xCFD499DE, 0x3FC7CA40, 0x993E30C1, 0x9E8C07D4, 0x00000000, 0x4B6AE328);
    StepIs(INITIAL, w, 9, 0xCFD499DE, 0x3FC7CA40, 0x993E30C1, 0x9E8C07D4, 0x4B6AE328, 0x00000000, 0x8351F929);
    StepIs(INITIAL, w, 10, 0x3FC7CA40, 0x993E30C1, 0x9E8C07D4, 0x4B6AE328, 0x8351F929, 0x00000000, 0xFBDA9E89);
    StepIs(INITIAL, w, 11, 0x993E30C1, 0x9E8C07D4, 0x4B6AE328, 0x8351F929, 0xFBDA9E89, 0x00000000, 0x63188FE4);
    StepIs(INITIAL, w, 12, 0x9E8C07D4, 0x4B6AE328, 0x8351F929, 0xFBDA9E89, 0x63188FE4, 0x00000000, 0x4607B664);
    StepIs(INITIAL, w, 13, 0x4B6AE328, 0x8351F929, 0xFBDA9E89, 0x63188FE4, 0x4607B664, 0x00000000, 0x9128F695);
    StepIs(INITIAL, w, 14, 0x8351F929, 0xFBDA9E89, 0x63188FE4, 0x4607B664, 0x9128F695, 0x00000000, 0x196BEE77);
    StepIs(INITIAL, w, 15, 0xFBDA9E89, 0x63188FE4, 0x4607B664, 0x9128F695, 0x196BEE77, 0x00000018, 0x20BDD62F);
    StepIs(INITIAL, w, 16, 0x63188FE4, 0x4607B664, 0x9128F695, 0x196BEE77, 0x20BDD62F, 0xC2C4C700, 0x4E925823);
    StepIs(INITIAL, w, 17, 0x4607B664, 0x9128F695, 0x196BEE77, 0x20BDD62F, 0x4E925823, 0x00000000, 0x82AA6728);
    StepIs(INITIAL, w, 18, 0x9128F695, 0x196BEE77, 0x20BDD62F, 0x4E925823, 0x82AA6728, 0x00000030, 0xDC64901D);
    StepIs(INITIAL, w, 19, 0x196BEE77, 0x20BDD62F, 0x4E925823, 0x82AA6728, 0xDC64901D, 0x85898E01, 0xFD9E1D7D);
  }

  lemma AbcSecondTwenty(block: seq<Octet>, w: seq<Word>)
    requires |block| == 64 && w == Schedule(block, 80)
    requires Rounds(INITIAL, w, 20) == After(0x20BDD62F, 0x4E925823, 0x82AA6728, 0xDC64901D, 0xFD9E1D7D)
    requires w[4] == 0x00000000 && w[5] == 0x00000000 && w[6] == 0x00000000 && w[7] == 0x00000000
    requires w[8] == 0x00000000 && w[9] == 0x00000000 && w[10] == 0x00000000 && w[11] == 0x00000000
    requires w[12] == 0x00000000 && w[13] == 0x00000000 && w[14] == 0x00000000 && w[15] == 0x00000018
    requires w[16] == 0xC2C4C700 && w[17] == 0x00000000 && w[18] == 0x00000030 && w[19] == 0x85898E01
    ensures Rounds(INITIAL, w, 40) == After(0xDCBBB0CB, 0x0F511FD8, 0xDC63973F, 0x4C986405, 0x32DE1CBA)
    ensures w[24] == 0x85898EC1 && w[25] == 0x16263806 && w[26] == 0x00000000 && w[27] == 0x00000180
    ensures w[28] == 0x2C4C700C && w[29] == 0x000000F0 && w[30] == 0x93AFB507 && w[31] == 0x5898E048
    ensures w[32] == 0x8E9A9202 && w[33] == 0x00000600 && w[34] == 0xB131C0F0 && w[35] == 0x16263BC6
    ensures w[36] == 0x4EBED41E && w[37] == 0x626380A1 && w[38] == 0x16263806 && w[39] == 0x000018C0
  {
    WordIs(block, w, 20, 0x00000000, 0x00000000, 0x00000000, 0x00000000, 0x00000000);
    WordIs(block, w, 21, 0x00000030, 0x00000000, 0x00000000, 0x00000000, 0x00000060);
    WordIs(block, w, 22, 0x85898E01, 0x00000000, 0x00000000, 0x00000000, 0x0B131C03);
    WordIs(block, w, 23, 0x00000000, 0x00000018, 0x00000000, 0x00000000, 0x00000030);
    WordIs(block, w, 24, 0x00000060, 0xC2C4C700, 0x00000000, 0x00000000, 0x85898EC1);
    WordIs(block, w, 25, 0x0B131C03, 0x00000000, 0x00000000, 0x00000000, 0x16263806);
    WordIs(block, w, 26, 0x00000030, 0x00000030, 0x00000000, 0x00000000, 0x00000000);
    WordIs(block, w, 27, 0x85898EC1, 0x85898E01, 0x00000000, 0x00000000, 0x00000180);
    WordIs(block, w, 28, 0x16263806, 0x00000000, 0x00000000, 0x00000000, 0x2C4C700C);
    WordIs(block, w, 29, 0x00000000, 0x00000060, 0x00000018, 0x00000000, 0x000000F0);
    WordIs(block, w, 30, 0x00000180, 0x0B131C03, 0xC2C4C700, 0x00000000, 0x93AFB507);
    WordIs(block, w, 31, 0x2C4C700C, 0x00000030, 0x00000000, 0x00000018, 0x5898E048);
    WordIs(block, w, 32, 0x000000F0, 0x85898EC1, 0x00000030, 0xC2C4C700, 0x8E9A9202);
    WordIs(block, w, 33, 0x93AFB507, 0x16263806, 0x85898E01, 0x00000000, 0x00000600);
    WordIs(block, w, 34, 0x5898E048, 0x00000000, 0x00000000, 0x00000030, 0xB131C0F0);
    WordIs(block, w, 35, 0x8E9A9202, 0x00000180, 0x00000060, 0x85898E01, 0x16263BC6);
    WordIs(block, w, 36, 0x00000600, 0x2C4C700C, 0x0B131C03, 0x00000000, 0x4EBED41E);
    WordIs(block, w, 37, 0xB131C0F0, 0x000000F0, 0x00000030, 0x00000060, 0x626380A1);
    WordIs(block, w, 38, 0x16263BC6, 0x93AFB507, 0x85898EC1, 0x0B131C03, 0x16263806);
    WordIs(block, w, 39, 0x4EBED41E, 0x5898E048, 0x16263806, 0x00000030, 0x000018C0);
    StepIs(INITIAL, w, 20, 0x20BDD62F, 0x4E925823, 0x82AA6728, 0xDC64901D, 0xFD9E1D7D, 0x00000000, 0x1A37B0CA);
    StepIs(INITIAL, w, 21, 0x4E925823, 0x82AA6728, 0xDC64901D, 0xFD9E1D7D, 0x1A37B0CA, 0x00000060, 0x33A23BFC);
    StepIs(INITIAL, w, 22, 0x82AA6728, 0xDC64901D, 0xFD9E1D7D, 0x1A37B0CA, 0x33A23BFC, 0x0B131C03, 0x21283486);
    StepIs(INITIAL, w, 23, 0xDC64901D, 0xFD9E1D7D, 0x1A37B0CA, 0x33A23BFC, 0x21283486, 0x00000030, 0xD541F12D);
    StepIs(INITIAL, w, 24, 0xFD9E1D7D, 0x1A37B0CA, 0x33A23BFC, 0x21283486, 0xD541F12D, 0x85898EC1, 0xC7567DC6);
    StepIs(INITIAL, w, 25, 0x1A37B0CA, 0x33A23BFC, 0x21283486, 0xD541F12D, 0xC7567DC6, 0x16263806, 0x48413BA4);
    StepIs(INITIAL, w, 26, 0x33A23BFC, 0x21283486, 0xD541F12D, 0xC7567DC6, 0x48413BA4, 0x00000000, 0xBE35FBD5);
    StepIs(INITIAL, w, 27, 0x21283486, 0xD541F12D, 0xC7567DC6, 0x48413BA4, 0xBE35FBD5, 0x00000180, 0x4AA84D97);
    StepIs(INITIAL, w, 28, 0xD541F12D, 0xC7567DC6, 0x48413BA4, 0xBE35FBD5, 0x4AA84D97, 0x2C4C700C, 0x8370B52E);
    StepIs(INITIAL, w, 29, 0xC7567DC6, 0x48413BA4, 0xBE35FBD5, 0x4AA84D97, 0x8370B52E, 0x000000F0, 0xC5FBAF5D);
    StepIs(INITIAL, w, 30, 0x48413BA4, 0xBE35FBD5, 0x4AA84D97, 0x8370B52E, 0xC5FBAF5D, 0x93AFB507, 0x1267B407);
    StepIs(INITIAL, w, 31, 0xBE35FBD5, 0x4AA84D97, 0x8370B52E, 0xC5FBAF5D, 0x1267B407, 0x5898E048, 0x3B845D33);
    StepIs(INITIAL, w, 32, 0x4AA84D97, 0x8370B52E, 0xC5FBAF5D, 0x1267B407, 0x3B845D33, 0x8E9A9202, 0x046FAA0A);
    StepIs(INITIAL, w, 33, 0x8370B52E, 0xC5FBAF5D, 0x1267B407, 0x3B845D33, 0x046FAA0A, 0x00000600, 0x2C0EBC11);
    StepIs(INITIAL, w, 34, 0xC5FBAF5D, 0x1267B407, 0x3B845D33, 0x046FAA0A, 0x2C0EBC11, 0xB131C0F0, 0x21796AD4);
    StepIs(INITIAL, w, 35, 0x1267B407, 0x3B845D33, 0x046FAA0A, 0x2C0EBC11, 0x21796AD4, 0x16263BC6, 0xDCBBB0CB);
    StepIs(INITIAL, w, 36, 0x3B845D33, 0x046FAA0A, 0x2C0EBC11, 0x21796AD4, 0xDCBBB0CB, 0x4EBED41E, 0x0F511FD8);
    StepIs(INITIAL, w, 37, 0x046FAA0A, 0x2C0EBC11, 0x21796AD4, 0xDCBBB0CB, 0x0F511FD8, 0x626380A1, 0xDC63973F);
    StepIs(INITIAL, w, 38, 0x2C0EBC11, 0x21796AD4, 0xDCBBB0CB, 0x0F511FD8, 0xDC63973F, 0x16263806, 0x4C986405);
    StepIs(INITIAL, w, 39, 0x21796AD4, 0xDCBBB0CB, 0x0F511FD8, 0xDC63973F, 0x4C986405, 0x000018C0, 0x32DE1CBA);
  }

  lemma AbcThirdTwenty(block: seq<Octet>, w: seq<Word>)
    requires |block| == 64 && w == Schedule(block, 80)
    requires Rounds(INITIAL, w, 40) == After(0xDCBBB0CB, 0x0F511FD8, 0xDC63973F, 0x4C986405, 0x32DE1CBA)
    requires w[24] == 0x85898EC1 && w[25] == 0x16263806 && w[26] == 0x00000000 && w[27] == 0x00000180
    requires w[28] == 0x2C4C700C && w[29] == 0x000000F0 && w[30] == 0x93AFB507 && w[31] == 0x5898E048
    requires w[32] == 0x8E9A9202 && w[33] == 0x00000600 && w[34] == 0xB131C0F0 && w[35] == 0x16263BC6
    requires w[36] == 0x4EBED41E && w[37] == 0x626380A1 && w[38] == 0x16263806 && w[39] == 0x000018C0
    ensures Rounds(INITIAL, w, 60) == After(0x5E6456AF, 0xC846093F, 0xD262FF50, 0x09D785FD, 0x3F52DE5A)
    ensures w[44] == 0xE2BA3C2B && w[45] == 0x000060C0 && w[46] == 0x053A37CD && w[47] == 0x74458547
    ensures w[48] == 0xDA9415ED && w[49] == 0x26380A16 && w[50] == 0x626383A1 && w[51] == 0x4EBF54DE
    ensures w[52] == 0x3835B44B && w[53] == 0x0000F600 && w[54] == 0x1E84C7A3 && w[55] == 0x98E04D98
    ensures w[56] == 0x651D16A0 && w[57] == 0x62658CA1 && w[58] == 0x458544D6 && w[59] == 0x44584CB7
  {
    WordIs(block, w, 40, 0x626380A1, 0x8E9A9202, 0x00000000, 0x85898EC1, 0xD2E138C4);
    WordIs(block, w, 41, 0x16263806, 0x00000600, 0x00000180, 0x16263806, 0x00000F00);
    WordIs(block, w, 42, 0x000018C0, 0xB131C0F0, 0x2C4C700C, 0x00000000, 0x3AFB5079);
    WordIs(block, w, 43, 0xD2E138C4, 0x16263BC6, 0x000000F0, 0x00000180, 0x898E04E5);
    WordIs(block, w, 44, 0x00000F00, 0x4EBED41E, 0x93AFB507, 0x2C4C700C, 0xE2BA3C2B);
    WordIs(block, w, 45, 0x3AFB5079, 0x626380A1, 0x5898E048, 0x000000F0, 0x000060C0);
    WordIs(block, w, 46, 0x898E04E5, 0x16263806, 0x8E9A9202, 0x93AFB507, 0x053A37CD);
    WordIs(block, w, 47, 0xE2BA3C2B, 0x000018C0, 0x00000600, 0x5898E048, 0x74458547);
    WordIs(block, w, 48, 0x000060C0, 0xD2E138C4, 0xB131C0F0, 0x8E9A9202, 0xDA9415ED);
    WordIs(block, w, 49, 0x053A37CD, 0x00000F00, 0x16263BC6, 0x00000600, 0x26380A16);
    WordIs(block, w, 50, 0x74458547, 0x3AFB5079, 0x4EBED41E, 0xB131C0F0, 0x626383A1);
    WordIs(block, w, 51, 0xDA9415ED, 0x898E04E5, 0x626380A1, 0x16263BC6, 0x4EBF54DE);
    WordIs(block, w, 52, 0x26380A16, 0xE2BA3C2B, 0x16263806, 0x4EBED41E, 0x3835B44B);
    WordIs(block, w, 53, 0x626383A1, 0x000060C0, 0x000018C0, 0x626380A1, 0x0000F600);
    WordIs(block, w, 54, 0x4EBF54DE, 0x053A37CD, 0xD2E138C4, 0x16263806, 0x1E84C7A3);
    WordIs(block, w, 55, 0x3835B44B, 0x74458547, 0x00000F00, 0x000018C0, 0x98E04D98);
    WordIs(block, w, 56, 0x0000F600, 0xDA9415ED, 0x3AFB5079, 0xD2E138C4, 0x651D16A0);
    WordIs(block, w, 57, 0x1E84C7A3, 0x26380A16, 0x898E04E5, 0x00000F00, 0x62658CA1);
    WordIs(block, w, 58, 0x98E04D98, 0x626383A1, 0xE2BA3C2B, 0x3AFB5079, 0x458544D6);
    WordIs(block, w, 59, 0x651D16A0, 0x4EBF54DE, 0x000060C0, 0x898E04E5, 0x44584CB7);
    StepIs(INITIAL, w, 40, 0xDCBBB0CB, 0x0F511FD8, 0xDC63973F, 0x4C986405, 0x32DE1CBA, 0xD2E138C4, 0xFC87DEDF);
    StepIs(INITIAL, w, 41, 0x0F511FD8, 0xDC63973F, 0x4C986405, 0x32DE1CBA, 0xFC87DEDF, 0x00000F00, 0x970A0D5C);
    StepIs(INITIAL, w, 42, 0xDC63973F, 0x4C986405, 0x32DE1CBA, 0xFC87DEDF, 0x970A0D5C, 0x3AFB5079, 0x7F193DC5);
    StepIs(INITIAL, w, 43, 0x4C986405, 0x32DE1CBA, 0xFC87DEDF, 0x970A0D5C, 0x7F193DC5, 0x898E04E5, 0xEE1B1AAF);
    StepIs(INITIAL, w, 44, 0x32DE1CBA, 0xFC87DEDF, 0x970A0D5C, 0x7F193DC5, 0xEE1B1AAF, 0xE2BA3C2B, 0x40F28E09);
    StepIs(INITIAL, w, 45, 0xFC87DEDF, 0x970A0D5C, 0x7F193DC5, 0xEE1B1AAF, 0x40F28E09, 0x000060C0, 0x1C51E1F2);
    StepIs(INITIAL, w, 46, 0x970A0D5C, 0x7F193DC5, 0xEE1B1AAF, 0x40F28E09, 0x1C51E1F2, 0x053A37CD, 0xA01B846C);
    StepIs(INITIAL, w, 47, 0x7F193DC5, 0xEE1B1AAF, 0x40F28E09, 0x1C51E1F2, 0xA01B846C, 0x74458547, 0xBEAD02CA);
    StepIs(INITIAL, w, 48, 0xEE1B1AAF, 0x40F28E09, 0x1C51E1F2, 0xA01B846C, 0xBEAD02CA, 0xDA9415ED, 0xBAF39337);
    StepIs(INITIAL, w, 49, 0x40F28E09, 0x1C51E1F2, 0xA01B846C, 0xBEAD02CA, 0xBAF39337, 0x26380A16, 0x120731C5);
    StepIs(INITIAL, w, 50, 0x1C51E1F2, 0xA01B846C, 0xBEAD02CA, 0xBAF39337, 0x120731C5, 0x626383A1, 0x641DB2CE);
    StepIs(INITIAL, w, 51, 0xA01B846C, 0xBEAD02CA, 0xBAF39337, 0x120731C5, 0x641DB2CE, 0x4EBF54DE, 0x3847AD66);
    StepIs(INITIAL, w, 52, 0xBEAD02CA, 0xBAF39337, 0x120731C5, 0x641DB2CE, 0x3847AD66, 0x3835B44B, 0xE490436D);
    StepIs(INITIAL, w, 53, 0xBAF39337, 0x120731C5, 0x641DB2CE, 0x3847AD66, 0xE490436D, 0x0000F600, 0x27E9F1D8);
    StepIs(INITIAL, w, 54, 0x120731C5, 0x641DB2CE, 0x3847AD66, 0xE490436D, 0x27E9F1D8, 0x1E84C7A3, 0x7B71F76D);
    StepIs(INITIAL, w, 55, 0x641DB2CE, 0x3847AD66, 0xE490436D, 0x27E9F1D8, 0x7B71F76D, 0x98E04D98, 0x5E6456AF);
    StepIs(INITIAL, w, 56, 0x3847AD66, 0xE490436D, 0x27E9F1D8, 0x7B71F76D, 0x5E6456AF, 0x651D16A0, 0xC846093F);
    StepIs(INITIAL, w, 57, 0xE490436D, 0x27E9F1D8, 0x7B71F76D, 0x5E6456AF, 0xC846093F, 0x62658CA1, 0xD262FF50);
    StepIs(INITIAL, w, 58, 0x27E9F1D8, 0x7B71F76D, 0x5E6456AF, 0xC846093F, 0xD262FF50, 0x458544D6, 0x09D785FD);
    StepIs(INITIAL, w, 59, 0x7B71F76D, 0x5E6456AF, 0xC846093F, 0xD262FF50, 0x09D785FD, 0x44584CB7, 0x3F52DE5A);
  }

  lemma AbcFourthTwenty(block: seq<Octet>, w: seq<Word>)
    requires |block| == 64 && w == Schedule(block, 80)
    requires Rounds(INITIAL, w, 60) == After(0x5E6456AF, 0xC846093F, 0xD262FF50, 0x09D785FD, 0x3F52DE5A)
    requires w[44] == 0xE2BA3C2B && w[45] == 0x000060C0 && w[46] == 0x053A37CD && w[47] == 0x74458547
    requires w[48] == 0xDA9415ED && w[49] == 0x26380A16 && w[50] == 0x626383A1 && w[51] == 0x4EBF54DE
    requires w[52] == 0x3835B44B && w[53] == 0x0000F600 && w[54] == 0x1E84C7A3 && w[55] == 0x98E04D98
    requires w[56] == 0x651D16A0 && w[57] == 0x62658CA1 && w[58] == 0x458544D6 && w[59] == 0x44584CB7
    ensures Rounds(INITIAL, w, 80) == After(0x63F7DAB7, 0xA079B7D9, 0x860D21CC, 0x5738D5E1, 0x42541B35)
  {
    WordIs(block, w, 60, 0x62658CA1, 0x3835B44B, 0x053A37CD, 0xE2BA3C2B, 0x7BA06619);
    WordIs(block, w, 61, 0x458544D6, 0x0000F600, 0x74458547, 0x000060C0, 0x6380AEA2);
    WordIs(block, w, 62, 0x44584CB7, 0x1E84C7A3, 0xDA9415ED, 0x053A37CD, 0x0AE55269);
    WordIs(block, w, 63, 0x7BA06619, 0x98E04D98, 0x26380A16, 0x74458547, 0x627B49A1);
    WordIs(block, w, 64, 0x6380AEA2, 0x651D16A0, 0x626383A1, 0xDA9415ED, 0x7CD45C9D);
    WordIs(block, w, 65, 0x0AE55269, 0x62658CA1, 0x4EBF54DE, 0x26380A16, 0x000F0000);
    WordIs(block, w, 66, 0x627B49A1, 0x458544D6, 0x3835B44B, 0x626383A1, 0xFB50753A);
    WordIs(block, w, 67, 0x7CD45C9D, 0x44584CB7, 0x0000F600, 0x4EBF54DE, 0xEC6765E8);
    WordIs(block, w, 68, 0x000F0000, 0x7BA06619, 0x1E84C7A3, 0x3835B44B, 0xBA3C2BE2);
    WordIs(block, w, 69, 0xFB50753A, 0x6380AEA2, 0x98E04D98, 0x0000F600, 0x0060C000);
    WordIs(block, w, 70, 0xEC6765E8, 0x0AE55269, 0x651D16A0, 0x1E84C7A3, 0x3A37CD05);
    WordIs(block, w, 71, 0xBA3C2BE2, 0x627B49A1, 0x62658CA1, 0x98E04D98, 0x458546F4);
    WordIs(block, w, 72, 0x0060C000, 0x7CD45C9D, 0x458544D6, 0x651D16A0, 0xB8599DD6);
    WordIs(block, w, 73, 0x3A37CD05, 0x000F0000, 0x44584CB7, 0x62658CA1, 0x380A1A26);
    WordIs(block, w, 74, 0x458546F4, 0xFB50753A, 0x7BA06619, 0x458544D6, 0x01E02203);
    WordIs(block, w, 75, 0xB8599DD6, 0xEC6765E8, 0x6380AEA2, 0x44584CB7, 0xE7CC3456);
    WordIs(block, w, 76, 0x380A1A26, 0xBA3C2BE2, 0x0AE55269, 0x7BA06619, 0xE6E60B69);
    WordIs(block, w, 77, 0x01E02203, 0x0060C000, 0x627B49A1, 0x6380AEA2, 0x00F60A00);
    WordIs(block, w, 78, 0xE7CC3456, 0x3A37CD05, 0x7CD45C9D, 0x0AE55269, 0x5795EF4F);
    WordIs(block, w, 79, 0xE6E60B69, 0x458546F4, 0x000F0000, 0x627B49A1, 0x822E0879);
    StepIs(INITIAL, w, 60, 0x5E6456AF, 0xC846093F, 0xD262FF50, 0x09D785FD, 0x3F52DE5A, 0x7BA06619, 0xD756C147);
    StepIs(INITIAL, w, 61, 0xC846093F, 0xD262FF50, 0x09D785FD, 0x3F52DE5A, 0xD756C147, 0x6380AEA2, 0x548C9CB2);
    StepIs(INITIAL, w, 62, 0xD262FF50, 0x09D785FD, 0x3F52DE5A, 0xD756C147, 0x548C9CB2, 0x0AE55269, 0xB66C020B);
    StepIs(INITIAL, w, 63, 0x09D785FD, 0x3F52DE5A, 0xD756C147, 0x548C9CB2, 0xB66C020B, 0x627B49A1, 0x6B61C9E1);
    StepIs(INITIAL, w, 64, 0x3F52DE5A, 0xD756C147, 0x548C9CB2, 0xB66C020B, 0x6B61C9E1, 0x7CD45C9D, 0x19DFA7AC);
    StepIs(INITIAL, w, 65, 0xD756C147, 0x548C9CB2, 0xB66C020B, 0x6B61C9E1, 0x19DFA7AC, 0x000F0000, 0x101655F9);
    StepIs(INITIAL, w, 66, 0x548C9CB2, 0xB66C020B, 0x6B61C9E1, 0x19DFA7AC, 0x101655F9, 0xFB50753A, 0x0C3DF2B4);
    StepIs(INITIAL, w, 67, 0xB66C020B, 0x6B61C9E1, 0x19DFA7AC, 0x101655F9, 0x0C3DF2B4, 0xEC6765E8, 0x78DD4D2B);
    StepIs(INITIAL, w, 68, 0x6B61C9E1, 0x19DFA7AC, 0x101655F9, 0x0C3DF2B4, 0x78DD4D2B, 0xBA3C2BE2, 0x497093C0);
    StepIs(INITIAL, w, 69, 0x19DFA7AC, 0x101655F9, 0x0C3DF2B4, 0x78DD4D2B, 0x497093C0, 0x0060C000, 0x3F2588C2);
    StepIs(INITIAL, w, 70, 0x101655F9, 0x0C3DF2B4, 0x78DD4D2B, 0x497093C0, 0x3F2588C2, 0x3A37CD05, 0xC199F8C7);
    StepIs(INITIAL, w, 71, 0x0C3DF2B4, 0x78DD4D2B, 0x497093C0, 0x3F2588C2, 0xC199F8C7, 0x458546F4, 0x39859DE7);
    StepIs(INITIAL, w, 72, 0x78DD4D2B, 0x497093C0, 0x3F2588C2, 0xC199F8C7, 0x39859DE7, 0xB8599DD6, 0xEDB42DE4);
    StepIs(INITIAL, w, 73, 0x497093C0, 0x3F2588C2, 0xC199F8C7, 0x39859DE7, 0xEDB42DE4, 0x380A1A26, 0x11793F6F);
    StepIs(INITIAL, w, 74, 0x3F2588C2, 0xC199F8C7, 0x39859DE7, 0xEDB42DE4, 0x11793F6F, 0x01E02203, 0x5EE76897);
    StepIs(INITIAL, w, 75, 0xC199F8C7, 0x39859DE7, 0xEDB42DE4, 0x11793F6F, 0x5EE76897, 0xE7CC3456, 0x63F7DAB7);
    StepIs(INITIAL, w, 76, 0x39859DE7, 0xEDB42DE4, 0x11793F6F, 0x5EE76897, 0x63F7DAB7, 0xE6E60B69, 0xA079B7D9);
    StepIs(INITIAL, w, 77, 0xEDB42DE4, 0x11793F6F, 0x5EE76897, 0x63F7DAB7, 0xA079B7D9, 0x00F60A00, 0x860D21CC);
    StepIs(INITIAL, w, 78, 0x11793F6F, 0x5EE76897, 0x63F7DAB7, 0xA079B7D9, 0x860D21CC, 0x5795EF4F, 0x5738D5E1);
    StepIs(INITIAL, w, 79, 0x5EE76897, 0x63F7DAB7, 0xA079B7D9, 0x860D21CC, 0x5738D5E1, 0x822E0879, 0x42541B35);
  }

  lemma AbcCompressed()
    ensures Compress(INITIAL, AbcBlock()) == Five(0xA9993E36, 0x4706816A, 0xBA3E2571, 0x7850C26C, 0x9CD0D89D)
  {
    var w := Schedule(AbcBlock(), 80);
    AbcFirstTwenty(AbcBlock(), w);
    AbcSecondTwenty(AbcBlock(), w);
    AbcThirdTwenty(AbcBlock(), w);
    AbcFourthTwenty(AbcBlock(), w);
  }

  /** The hash state at the end of "abc". */
  lemma AbcFinal()
    ensures Final(ABC) == Five(0xA9993E36, 0x4706816A, 0xBA3E2571, 0x7850C26C, 0x9CD0D89D)
  {
    var padded := ABC + Padding(3);
    assert padded == AbcBlock();
    AbcCompressed();
    assert padded[..0] == [] && padded[0..] == padded;
    assert Blocks(padded, 1) == Compress(Blocks(padded[..0], 0), padded[0..]);
  }

  lemma AbcDigest()
    ensures Digest(ABC) == [
              0xA9, 0x99, 0x3E, 0x36, 0x47, 0x06, 0x81, 0x6A, 0xBA, 0x3E,
              0x25, 0x71, 0x78, 0x50, 0xC2, 0x6C, 0x9C, 0xD0, 0xD8, 0x9D]
  {
    AbcFinal();
  }
}
