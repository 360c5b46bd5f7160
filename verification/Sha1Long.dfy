/**
  The known answer of Appendix B of FIPS PUB 180-1: a message of 56 bytes, whose padding goes over the end of a block,
  so that the second compression starts from the result of the first.
 */
module Sha1Long {
  import opened Sha1
  import opened Sha1Abc

  /** "abcdbcdecdefdefgefghfghighijhijkijkljklmklmnlmnomnopnopq" */
  function LongMessage(): (r: seq<Octet>)
    ensures |r| == 56
  {
    (([0x61, 0x62, 0x63, 0x64, 0x62, 0x63, 0x64, 0x65] + [0x63, 0x64, 0x65, 0x66, 0x64, 0x65, 0x66, 0x67]) +
     ([0x65, 0x66, 0x67, 0x68, 0x66, 0x67, 0x68, 0x69] + [0x67, 0x68, 0x69, 0x6A, 0x68, 0x69, 0x6A, 0x6B])) +
    (([0x69, 0x6A, 0x6B, 0x6C, 0x6A, 0x6B, 0x6C, 0x6D] + [0x6B, 0x6C, 0x6D, 0x6E, 0x6C, 0x6D, 0x6E, 0x6F]) +
     [0x6D, 0x6E, 0x6F, 0x70, 0x6E, 0x6F, 0x70, 0x71])
  }

  function OneBlock(): (r: seq<Octet>)
    ensures |r| == 64
  {
    LongMessage() + [0x80, 0, 0, 0, 0, 0, 0, 0]
  }

  function TwoBlock(): (r: seq<Octet>)
    ensures |r| == 64
  {
    Zeros(62) + [0x01, 0xC0]
  }

  /** The hash state between the blocks. */
  const MIDDLE: Five := Five(0xF4286818, 0xC37B27AE, 0x0408F581, 0x84677148, 0x4A566572)

  lemma OneInputFirst(block: seq<Octet>, w: seq<Word>)
    requires block == OneBlock() && w == Schedule(block, 80)
    ensures w[0] == 0x61626364 && w[1] == 0x62636465 && w[2] == 0x63646566 && w[3] == 0x64656667
  {
    InputIs(block, w, 0, 0x61, 0x62, 0x63, 0x64, 0x61626364);
    InputIs(block, w, 1, 0x62, 0x63, 0x64, 0x65, 0x62636465);
    InputIs(block, w, 2, 0x63, 0x64, 0x65, 0x66, 0x63646566);
    InputIs(block, w, 3, 0x64, 0x65, 0x66, 0x67, 0x64656667);
  }

  lemma OneInputSecond(block: seq<Octet>, w: seq<Word>)
    requires block == OneBlock() && w == Schedule(block, 80)
    ensures w[4] == 0x65666768 && w[5] == 0x66676869 && w[6] == 0x6768696A && w[7] == 0x68696A6B
  {
    InputIs(block, w, 4, 0x65, 0x66, 0x67, 0x68, 0x65666768);
    InputIs(block, w, 5, 0x66, 0x67, 0x68, 0x69, 0x66676869);
    InputIs(block, w, 6, 0x67, 0x68, 0x69, 0x6A, 0x6768696A);
    InputIs(block, w, 7, 0x68, 0x69, 0x6A, 0x6B, 0x68696A6B);
  }

  lemma OneInputThird(block: seq<Octet>, w: seq<Word>)
    requires block == OneBlock() && w == Schedule(block, 80)
    ensures w[8] == 0x696A6B6C && w[9] == 0x6A6B6C6D && w[10] == 0x6B6C6D6E && w[11] == 0x6C6D6E6F
  {
    InputIs(block, w, 8, 0x69, 0x6A, 0x6B, 0x6C, 0x696A6B6C);
    InputIs(block, w, 9, 0x6A, 0x6B, 0x6C, 0x6D, 0x6A6B6C6D);
    InputIs(block, w, 10, 0x6B, 0x6C, 0x6D, 0x6E, 0x6B6C6D6E);
    InputIs(block, w, 11, 0x6C, 0x6D, 0x6E, 0x6F, 0x6C6D6E6F);
  }

  lemma OneInputFourth(block: seq<Octet>, w: seq<Word>)
    requires block == OneBlock() && w == Schedule(block, 80)
    ensures w[12] == 0x6D6E6F70 && w[13] == 0x6E6F7071 && w[14] == 0x80000000 && w[15] == 0x00000000
  {
    InputIs(block, w, 12, 0x6D, 0x6E, 0x6F, 0x70, 0x6D6E6F70);
    InputIs(block, w, 13, 0x6E, 0x6F, 0x70, 0x71, 0x6E6F7071);
    InputIs(block, w, 14, 0x80, 0x00, 0x00, 0x00, 0x80000000);
    InputIs(block, w, 15, 0x00, 0x00, 0x00, 0x00, 0x00000000);
  }

  lemma OneInput(block: seq<Octet>, w: seq<Word>)
    requires block == OneBlock() && w == Schedule(block, 80)
    ensures w[0] == 0x61626364 && w[1] == 0x62636465 && w[2] == 0x63646566 && w[3] == 0x64656667
    ensures w[4] == 0x65666768 && w[5] == 0x66676869 && w[6] == 0x6768696A && w[7] == 0x68696A6B
    ensures w[8] == 0x696A6B6C && w[9] == 0x6A6B6C6D && w[10] == 0x6B6C6D6E && w[11] == 0x6C6D6E6F
    ensures w[12] == 0x6D6E6F70 && w[13] == 0x6E6F7071 && w[14] == 0x80000000 && w[15] == 0x00000000
  {
    OneInputFirst(block, w);
    OneInputSecond(block, w);
    OneInputThird(block, w);
    OneInputFourth(block, w);
  }

  lemma TwoInput(block: seq<Octet>, w: seq<Word>)
    requires block == TwoBlock() && w == Schedule(block, 80)
    ensures w[15] == 0x000001C0 && forall t: nat {:trigger w[t]} :: t < 15 ==> w[t] == 0
  {
    forall t: nat {:trigger w[t]} | t < 15 ensures w[t] == 0 {
      assert block[4 * t] == block[4 * t + 1] == block[4 * t + 2] == block[4 * t + 3] == 0;
      InputIs(block, w, t, 0, 0, 0, 0, 0);
    }
    InputIs(block, w, 15, 0, 0, 0x01, 0xC0, 0x000001C0);
  }

  lemma OneFirstTwenty(block: seq<Octet>, w: seq<Word>)
    requires block == OneBlock() && w == Schedule(block, 80)
    ensures Rounds(INITIAL, w, 20) == After(0x42637E39, 0x6B068048, 0x426B9C35, 0x944B1BD1, 0x6C445652)
    ensures w[4] == 0x65666768 && w[5] == 0x66676869 && w[6] == 0x6768696A && w[7] == 0x68696A6B
    ensures w[8] == 0x696A6B6C && w[9] == 0x6A6B6C6D && w[10] == 0x6B6C6D6E && w[11] == 0x6C6D6E6F
    ensures w[12] == 0x6D6E6F70 && w[13] == 0x6E6F7071 && w[14] == 0x80000000 && w[15] == 0x00000000
    ensures w[16] == 0x0A063A3E && w[17] == 0xD8DADCDF && w[18] == 0xDADCDEC0 && w[19] == 0xC8D2B4BE
  {
    OneInput(block, w);
    assert INITIAL == After(0x0F4B87C3, 0x40C951D8, 0x62EB73FA, 0xEFCDAB89, 0x67452301);
    WordIs(block, w, 16, 0x6E6F7071, 0x696A6B6C, 0x63646566, 0x61626364, 0x0A063A3E);
    WordIs(block, w, 17, 0x80000000, 0x6A6B6C6D, 0x64656667, 0x62636465, 0xD8DADCDF);
    WordIs(block, w, 18, 0x00000000, 0x6B6C6D6E, 0x65666768, 0x63646566, 0xDADCDEC0);
    WordIs(block, w, 19, 0x0A063A3E, 0x6C6D6E6F, 0x66676869, 0x64656667, 0xC8D2B4BE);
    StepIs(INITIAL, w, 0, 0x0F4B87C3, 0x40C951D8, 0x62EB73FA, 0xEFCDAB89, 0x67452301, 0x61626364, 0x0116FC17);
    StepIs(INITIAL, w, 1, 0x40C951D8, 0x62EB73FA, 0xEFCDAB89, 0x67452301, 0x0116FC17, 0x62636465, 0xEBF3B452);
    StepIs(INITIAL, w, 2, 0x62EB73FA, 0xEFCDAB89, 0x67452301, 0x0116FC17, 0xEBF3B452, 0x63646566, 0x5109913A);
    StepIs(INITIAL, w, 3, 0xEFCDAB89, 0x67452301, 0x0116FC17, 0xEBF3B452, 0x5109913A, 0x64656667, 0x2C4F6EAC);
    StepIs(INITIAL, w, 4, 0x67452301, 0x0116FC17, 0xEBF3B452, 0x5109913A, 0x2C4F6EAC, 0x65666768, 0x33F4AE5B);
    StepIs(INITIAL, w, 5, 0x0116FC17, 0xEBF3B452, 0x5109913A, 0x2C4F6EAC, 0x33F4AE5B, 0x66676869, 0x96B85189);
    StepIs(INITIAL, w, 6, 0xEBF3B452, 0x5109913A, 0x2C4F6EAC, 0x33F4AE5B, 0x96B85189, 0x6768696A, 0xDB04CB58);
    StepIs(INITIAL, w, 7, 0x5109913A, 0x2C4F6EAC, 0x33F4AE5B, 0x96B85189, 0xDB04CB58, 0x68696A6B, 0x45833F0F);
    StepIs(INITIAL, w, 8, 0x2C4F6EAC, 0x33F4AE5B, 0x96B85189, 0xDB04CB58, 0x45833F0F, 0x696A6B6C, 0xC565C35E);
    StepIs(INITIAL, w, 9, 0x33F4AE5B, 0x96B85189, 0xDB04CB58, 0x45833F0F, 0xC565C35E, 0x6A6B6C6D, 0x6350AFDA);
    StepIs(INITIAL, w, 10, 0x96B85189, 0xDB04CB58, 0x45833F0F, 0xC565C35E, 0x6350AFDA, 0x6B6C6D6E, 0x8993EA77);
    StepIs(INITIAL, w, 11, 0xDB04CB58, 0x45833F0F, 0xC565C35E, 0x6350AFDA, 0x8993EA77, 0x6C6D6E6F, 0xE19ECAA2);
    StepIs(INITIAL, w, 12, 0x45833F0F, 0xC565C35E, 0x6350AFDA, 0x8993EA77, 0xE19ECAA2, 0x6D6E6F70, 0x8603481E);
    StepIs(INITIAL, w, 13, 0xC565C35E, 0x6350AFDA, 0x8993EA77, 0xE19ECAA2, 0x8603481E, 0x6E6F7071, 0x32F94A85);
    StepIs(INITIAL, w, 14, 0x6350AFDA, 0x8993EA77, 0xE19ECAA2, 0x8603481E, 0x32F94A85, 0x80000000, 0xB2E7A8BE);
    StepIs(INITIAL, w, 15, 0x8993EA77, 0xE19ECAA2, 0x8603481E, 0x32F94A85, 0xB2E7A8BE, 0x00000000, 0x42637E39);
    StepIs(INITIAL, w, 16, 0xE19ECAA2, 0x8603481E, 0x32F94A85, 0xB2E7A8BE, 0x42637E39, 0x0A063A3E, 0x6B068048);
    StepIs(INITIAL, w, 17, 0x8603481E, 0x32F94A85, 0xB2E7A8BE, 0x42637E39, 0x6B068048, 0xD8DADCDF, 0x426B9C35);
    StepIs(INITIAL, w, 18, 0x32F94A85, 0xB2E7A8BE, 0x42637E39, 0x6B068048, 0x426B9C35, 0xDADCDEC0, 0x944B1BD1);
    StepIs(INITIAL, w, 19, 0xB2E7A8BE, 0x42637E39, 0x6B068048, 0x426B9C35, 0x944B1BD1, 0xC8D2B4BE, 0x6C445652);
  }

  lemma OneSecondTwenty(block: seq<Octet>, w: seq<Word>)
    requires |block| == 64 && w == Schedule(block, 80)
    requires Rounds(INITIAL, w, 20) == After(0x42637E39, 0x6B068048, 0x426B9C35, 0x944B1BD1, 0x6C445652)
    requires w[4] == 0x65666768 && w[5] == 0x66676869 && w[6] == 0x6768696A && w[7] == 0x68696A6B
    requires w[8] == 0x696A6B6C && w[9] == 0x6A6B6C6D && w[10] == 0x6B6C6D6E && w[11] == 0x6C6D6E6F
    requires w[12] == 0x6D6E6F70 && w[13] == 0x6E6F7071 && w[14] == 0x80000000 && w[15] == 0x00000000
    requires w[16] == 0x0A063A3E && w[17] == 0xD8DADCDF && w[18] == 0xDADCDEC0 && w[19] == 0xC8D2B4BE
    ensures Rounds(INITIAL, w, 40) == After(0xAB7C32EE, 0x5933FC99, 0x43F87AE9, 0x24957F22, 0xADEB7478)
    ensures w[24] == 0xFAF6CAB6 && w[25] == 0xA6FB675A && w[26] == 0x0C604CC8 && w[27] == 0x604CC02C
    ensures w[28] == 0x49C0E6E2 && w[29] == 0x2EE8CBBC && w[30] == 0xCFD72EC4 && w[31] == 0x97E9810E
    ensures w[32] == 0x0989CBE8 && w[33] == 0xF24843FE && w[34] == 0x5C40D0BA && w[35] == 0xA8D9CC3B
    ensures w[36] == 0xB2B9666E && w[37] == 0xBA7B71B7 && w[38] == 0x20B28A72 && w[39] == 0xB28AF500
  {
    WordIs(block, w, 20, 0xD8DADCDF, 0x6D6E6F70, 0x6768696A, 0x65666768, 0x6F757B5B);
    WordIs(block, w, 21, 0xDADCDEC0, 0x6E6F7071, 0x68696A6B, 0x66676869, 0x757B5967);
    WordIs(block, w, 22, 0xC8D2B4BE, 0x80000000, 0x696A6B6C, 0x6768696A, 0x8DA16D70);
    WordIs(block, w, 23, 0x6F757B5B, 0x00000000, 0x6A6B6C6D, 0x68696A6B, 0xDAEEFABA);
    WordIs(block, w, 24, 0x757B5967, 0x0A063A3E, 0x6B6C6D6E, 0x696A6B6C, 0xFAF6CAB6);
    WordIs(block, w, 25, 0x8DA16D70, 0xD8DADCDF, 0x6C6D6E6F, 0x6A6B6C6D, 0xA6FB675A);
    WordIs(block, w, 26, 0xDAEEFABA, 0xDADCDEC0, 0x6D6E6F70, 0x6B6C6D6E, 0x0C604CC8);
    WordIs(block, w, 27, 0xFAF6CAB6, 0xC8D2B4BE, 0x6E6F7071, 0x6C6D6E6F, 0x604CC02C);
    WordIs(block, w, 28, 0xA6FB675A, 0x6F757B5B, 0x80000000, 0x6D6E6F70, 0x49C0E6E2);
    WordIs(block, w, 29, 0x0C604CC8, 0x757B5967, 0x00000000, 0x6E6F7071, 0x2EE8CBBC);
    WordIs(block, w, 30, 0x604CC02C, 0x8DA16D70, 0x0A063A3E, 0x80000000, 0xCFD72EC4);
    WordIs(block, w, 31, 0x49C0E6E2, 0xDAEEFABA, 0xD8DADCDF, 0x00000000, 0x97E9810E);
    WordIs(block, w, 32, 0x2EE8CBBC, 0xFAF6CAB6, 0xDADCDEC0, 0x0A063A3E, 0x0989CBE8);
    WordIs(block, w, 33, 0xCFD72EC4, 0xA6FB675A, 0xC8D2B4BE, 0xD8DADCDF, 0xF24843FE);
    WordIs(block, w, 34, 0x97E9810E, 0x0C604CC8, 0x6F757B5B, 0xDADCDEC0, 0x5C40D0BA);
    WordIs(block, w, 35, 0x0989CBE8, 0x604CC02C, 0x757B5967, 0xC8D2B4BE, 0xA8D9CC3B);
    WordIs(block, w, 36, 0xF24843FE, 0x49C0E6E2, 0x8DA16D70, 0x6F757B5B, 0xB2B9666E);
    WordIs(block, w, 37, 0x5C40D0BA, 0x2EE8CBBC, 0xDAEEFABA, 0x757B5967, 0xBA7B71B7);
    WordIs(block, w, 38, 0xA8D9CC3B, 0xCFD72EC4, 0xFAF6CAB6, 0x8DA16D70, 0x20B28A72);
    WordIs(block, w, 39, 0xB2B9666E, 0x97E9810E, 0xA6FB675A, 0xDAEEFABA, 0xB28AF500);
    StepIs(INITIAL, w, 20, 0x42637E39, 0x6B068048, 0x426B9C35, 0x944B1BD1, 0x6C445652, 0x6F757B5B, 0x95836DA5);
    StepIs(INITIAL, w, 21, 0x6B068048, 0x426B9C35, 0x944B1BD1, 0x6C445652, 0x95836DA5, 0x757B5967, 0x09511177);
    StepIs(INITIAL, w, 22, 0x426B9C35, 0x944B1BD1, 0x6C445652, 0x95836DA5, 0x09511177, 0x8DA16D70, 0xE2B92DC4);
    StepIs(INITIAL, w, 23, 0x944B1BD1, 0x6C445652, 0x95836DA5, 0x09511177, 0xE2B92DC4, 0xDAEEFABA, 0xFD224575);
    StepIs(INITIAL, w, 24, 0x6C445652, 0x95836DA5, 0x09511177, 0xE2B92DC4, 0xFD224575, 0xFAF6CAB6, 0xEEB82D9A);
    StepIs(INITIAL, w, 25, 0x95836DA5, 0x09511177, 0xE2B92DC4, 0xFD224575, 0xEEB82D9A, 0xA6FB675A, 0x5A142C1A);
    StepIs(INITIAL, w, 26, 0x09511177, 0xE2B92DC4, 0xFD224575, 0xEEB82D9A, 0x5A142C1A, 0x0C604CC8, 0x2972F7C7);
    StepIs(INITIAL, w, 27, 0xE2B92DC4, 0xFD224575, 0xEEB82D9A, 0x5A142C1A, 0x2972F7C7, 0x604CC02C, 0xD526A644);
    StepIs(INITIAL, w, 28, 0xFD224575, 0xEEB82D9A, 0x5A142C1A, 0x2972F7C7, 0xD526A644, 0x49C0E6E2, 0xE1122421);
    StepIs(INITIAL, w, 29, 0xEEB82D9A, 0x5A142C1A, 0x2972F7C7, 0xD526A644, 0xE1122421, 0x2EE8CBBC, 0x05B457B2);
    StepIs(INITIAL, w, 30, 0x5A142C1A, 0x2972F7C7, 0xD526A644, 0xE1122421, 0x05B457B2, 0xCFD72EC4, 0xA9C84BEC);
    StepIs(INITIAL, w, 31, 0x2972F7C7, 0xD526A644, 0xE1122421, 0x05B457B2, 0xA9C84BEC, 0x97E9810E, 0x52E31F60);
    StepIs(INITIAL, w, 32, 0xD526A644, 0xE1122421, 0x05B457B2, 0xA9C84BEC, 0x52E31F60, 0x0989CBE8, 0x5AF3242C);
    StepIs(INITIAL, w, 33, 0xE1122421, 0x05B457B2, 0xA9C84BEC, 0x52E31F60, 0x5AF3242C, 0xF24843FE, 0x31C756A9);
    StepIs(INITIAL, w, 34, 0x05B457B2, 0xA9C84BEC, 0x52E31F60, 0x5AF3242C, 0x31C756A9, 0x5C40D0BA, 0xE9AC987C);
    StepIs(INITIAL, w, 35, 0xA9C84BEC, 0x52E31F60, 0x5AF3242C, 0x31C756A9, 0xE9AC987C, 0xA8D9CC3B, 0xAB7C32EE);
    StepIs(INITIAL, w, 36, 0x52E31F60, 0x5AF3242C, 0x31C756A9, 0xE9AC987C, 0xAB7C32EE, 0xB2B9666E, 0x5933FC99);
    StepIs(INITIAL, w, 37, 0x5AF3242C, 0x31C756A9, 0xE9AC987C, 0xAB7C32EE, 0x5933FC99, 0xBA7B71B7, 0x43F87AE9);
    StepIs(INITIAL, w, 38, 0x31C756A9, 0xE9AC987C, 0xAB7C32EE, 0x5933FC99, 0x43F87AE9, 0x20B28A72, 0x24957F22);
    StepIs(INITIAL, w, 39, 0xE9AC987C, 0xAB7C32EE, 0x5933FC99, 0x43F87AE9, 0x24957F22, 0xB28AF500, 0xADEB7478);
  }

  lemma OneThirdTwenty(block: seq<Octet>, w: seq<Word>)
    requires |block| == 64 && w == Schedule(block, 80)
    requires Rounds(INITIAL, w, 40) == After(0xAB7C32EE, 0x5933FC99, 0x43F87AE9, 0x24957F22, 0xADEB7478)
    requires w[24] == 0xFAF6CAB6 && w[25] == 0xA6FB675A && w[26] == 0x0C604CC8 && w[27] == 0x604CC02C
    requires w[28] == 0x49C0E6E2 && w[29] == 0x2EE8CBBC && w[30] == 0xCFD72EC4 && w[31] == 0x97E9810E
    requires w[32] == 0x0989CBE8 && w[33] == 0xF24843FE && w[34] == 0x5C40D0BA && w[35] == 0xA8D9CC3B
    requires w[36] == 0xB2B9666E && w[37] == 0xBA7B71B7 && w[38] == 0x20B28A72 && w[39] == 0xB28AF500
    ensures Rounds(INITIAL, w, 60) == After(0x776C3910, 0xA681B723, 0xAC0A794F, 0xF03D3782, 0x9EF775C3)
    ensures w[44] == 0x3868E778 && w[45] == 0xAB5E4848 && w[46] == 0x7F0E2118 && w[47] == 0xDE87A111
    ensures w[48] == 0xE8BE56B0 && w[49] == 0x1A0AE652 && w[50] == 0xCD5611C8 && w[51] == 0x46EF29DC
    ensures w[52] == 0x60D3DA6D && w[53] == 0xDDF3BA6E && w[54] == 0x2737F5E9 && w[55] == 0x4888A710
    ensures w[56] == 0xD2A1177B && w[57] == 0x9999633B && w[58] == 0xD6C69D03 && w[59] == 0xCCF6127B
  {
    WordIs(block, w, 40, 0xBA7B71B7, 0x0989CBE8, 0x0C604CC8, 0xFAF6CAB6, 0x8AC87842);
    WordIs(block, w, 41, 0x20B28A72, 0xF24843FE, 0x604CC02C, 0xA6FB675A, 0x289ADDF4);
    WordIs(block, w, 42, 0xB28AF500, 0x5C40D0BA, 0x49C0E6E2, 0x0C604CC8, 0x56D51F21);
    WordIs(block, w, 43, 0x8AC87842, 0xA8D9CC3B, 0x2EE8CBBC, 0x604CC02C, 0xD96B7FD2);
    WordIs(block, w, 44, 0x289ADDF4, 0xB2B9666E, 0xCFD72EC4, 0x49C0E6E2, 0x3868E778);
    WordIs(block, w, 45, 0x56D51F21, 0xBA7B71B7, 0x97E9810E, 0x2EE8CBBC, 0xAB5E4848);
    WordIs(block, w, 46, 0xD96B7FD2, 0x20B28A72, 0x0989CBE8, 0xCFD72EC4, 0x7F0E2118);
    WordIs(block, w, 47, 0x3868E778, 0xB28AF500, 0xF24843FE, 0x97E9810E, 0xDE87A111);
    WordIs(block, w, 48, 0xAB5E4848, 0x8AC87842, 0x5C40D0BA, 0x0989CBE8, 0xE8BE56B0);
    WordIs(block, w, 49, 0x7F0E2118, 0x289ADDF4, 0xA8D9CC3B, 0xF24843FE, 0x1A0AE652);
    WordIs(block, w, 50, 0xDE87A111, 0x56D51F21, 0xB2B9666E, 0x5C40D0BA, 0xCD5611C8);
    WordIs(block, w, 51, 0xE8BE56B0, 0xD96B7FD2, 0xBA7B71B7, 0xA8D9CC3B, 0x46EF29DC);
    WordIs(block, w, 52, 0x1A0AE652, 0x3868E778, 0x20B28A72, 0xB2B9666E, 0x60D3DA6D);
    WordIs(block, w, 53, 0xCD5611C8, 0xAB5E4848, 0xB28AF500, 0xBA7B71B7, 0xDDF3BA6E);
    WordIs(block, w, 54, 0x46EF29DC, 0x7F0E2118, 0x8AC87842, 0x20B28A72, 0x2737F5E9);
    WordIs(block, w, 55, 0x60D3DA6D, 0xDE87A111, 0x289ADDF4, 0xB28AF500, 0x4888A710);
    WordIs(block, w, 56, 0xDDF3BA6E, 0xE8BE56B0, 0x56D51F21, 0x8AC87842, 0xD2A1177B);
    WordIs(block, w, 57, 0x2737F5E9, 0x1A0AE652, 0xD96B7FD2, 0x289ADDF4, 0x9999633B);
    WordIs(block, w, 58, 0x4888A710, 0xCD5611C8, 0x3868E778, 0x56D51F21, 0xD6C69D03);
    WordIs(block, w, 59, 0xD2A1177B, 0x46EF29DC, 0xAB5E4848, 0xD96B7FD2, 0xCCF6127B);
    StepIs(INITIAL, w, 40, 0xAB7C32EE, 0x5933FC99, 0x43F87AE9, 0x24957F22, 0xADEB7478, 0x8AC87842, 0xD70E5010);
    StepIs(INITIAL, w, 41, 0x5933FC99, 0x43F87AE9, 0x24957F22, 0xADEB7478, 0xD70E5010, 0x289ADDF4, 0x79BCFB08);
    StepIs(INITIAL, w, 42, 0x43F87AE9, 0x24957F22, 0xADEB7478, 0xD70E5010, 0x79BCFB08, 0x56D51F21, 0xF9BCB8DE);
    StepIs(INITIAL, w, 43, 0x24957F22, 0xADEB7478, 0xD70E5010, 0x79BCFB08, 0xF9BCB8DE, 0xD96B7FD2, 0x633E9561);
    StepIs(INITIAL, w, 44, 0xADEB7478, 0xD70E5010, 0x79BCFB08, 0xF9BCB8DE, 0x633E9561, 0x3868E778, 0x98C1EA64);
    StepIs(INITIAL, w, 45, 0xD70E5010, 0x79BCFB08, 0xF9BCB8DE, 0x633E9561, 0x98C1EA64, 0xAB5E4848, 0xC6EA241E);
    StepIs(INITIAL, w, 46, 0x79BCFB08, 0xF9BCB8DE, 0x633E9561, 0x98C1EA64, 0xC6EA241E, 0x7F0E2118, 0xA2AD4F02);
    StepIs(INITIAL, w, 47, 0xF9BCB8DE, 0x633E9561, 0x98C1EA64, 0xC6EA241E, 0xA2AD4F02, 0xDE87A111, 0xC8A69090);
    StepIs(INITIAL, w, 48, 0x633E9561, 0x98C1EA64, 0xC6EA241E, 0xA2AD4F02, 0xC8A69090, 0xE8BE56B0, 0x88341600);
    StepIs(INITIAL, w, 49, 0x98C1EA64, 0xC6EA241E, 0xA2AD4F02, 0xC8A69090, 0x88341600, 0x1A0AE652, 0x7E846F58);
    StepIs(INITIAL, w, 50, 0xC6EA241E, 0xA2AD4F02, 0xC8A69090, 0x88341600, 0x7E846F58, 0xCD5611C8, 0x86E358BA);
    StepIs(INITIAL, w, 51, 0xA2AD4F02, 0xC8A69090, 0x88341600, 0x7E846F58, 0x86E358BA, 0x46EF29DC, 0x8D2E76C8);
    StepIs(INITIAL, w, 52, 0xC8A69090, 0x88341600, 0x7E846F58, 0x86E358BA, 0x8D2E76C8, 0x60D3DA6D, 0xCE892E10);
    StepIs(INITIAL, w, 53, 0x88341600, 0x7E846F58, 0x86E358BA, 0x8D2E76C8, 0xCE892E10, 0xDDF3BA6E, 0xEDEA95B1);
    StepIs(INITIAL, w, 54, 0x7E846F58, 0x86E358BA, 0x8D2E76C8, 0xCE892E10, 0xEDEA95B1, 0x2737F5E9, 0x36D1230A);
    StepIs(INITIAL, w, 55, 0x86E358BA, 0x8D2E76C8, 0xCE892E10, 0xEDEA95B1, 0x36D1230A, 0x4888A710, 0x776C3910);
    StepIs(INITIAL, w, 56, 0x8D2E76C8, 0xCE892E10, 0xEDEA95B1, 0x36D1230A, 0x776C3910, 0xD2A1177B, 0xA681B723);
    StepIs(INITIAL, w, 57, 0xCE892E10, 0xEDEA95B1, 0x36D1230A, 0x776C3910, 0xA681B723, 0x9999633B, 0xAC0A794F);
    StepIs(INITIAL, w, 58, 0xEDEA95B1, 0x36D1230A, 0x776C3910, 0xA681B723, 0xAC0A794F, 0xD6C69D03, 0xF03D3782);
    StepIs(INITIAL, w, 59, 0x36D1230A, 0x776C3910, 0xA681B723, 0xAC0A794F, 0xF03D3782, 0xCCF6127B, 0x9EF775C3);
  }

  lemma OneFourthTwenty(block: seq<Octet>, w: seq<Word>)
    requires |block| == 64 && w == Schedule(block, 80)
    requires Rounds(INITIAL, w, 60) == After(0x776C3910, 0xA681B723, 0xAC0A794F, 0xF03D3782, 0x9EF775C3)
    requires w[44] == 0x3868E778 && w[45] == 0xAB5E4848 && w[46] == 0x7F0E2118 && w[47] == 0xDE87A111
    requires w[48] == 0xE8BE56B0 && w[49] == 0x1A0AE652 && w[50] == 0xCD5611C8 && w[51] == 0x46EF29DC
    requires w[52] == 0x60D3DA6D && w[53] == 0xDDF3BA6E && w[54] == 0x2737F5E9 && w[55] == 0x4888A710
    requires w[56] == 0xD2A1177B && w[57] == 0x9999633B && w[58] == 0xD6C69D03 && w[59] == 0xCCF6127B
    ensures Rounds(INITIAL, w, 80) == After(0x1A0E0E0A, 0xD0D47349, 0xAD38620D, 0xD3AD7C25, 0x8CE34517)
  {
    WordIs(block, w, 60, 0x9999633B, 0x60D3DA6D, 0x7F0E2118, 0x3868E778, 0x7C58FE6D);
    WordIs(block, w, 61, 0xD6C69D03, 0xDDF3BA6E, 0xDE87A111, 0xAB5E4848, 0xFDD99C68);
    WordIs(block, w, 62, 0xCCF6127B, 0x2737F5E9, 0xE8BE56B0, 0x7F0E2118, 0xF8E32074);
    WordIs(block, w, 63, 0x7C58FE6D, 0x4888A710, 0x1A0AE652, 0xDE87A111, 0xE0BA3C7D);
    WordIs(block, w, 64, 0xFDD99C68, 0xD2A1177B, 0xCD5611C8, 0xE8BE56B0, 0x152198D6);
    WordIs(block, w, 65, 0xF8E32074, 0x9999633B, 0x46EF29DC, 0x1A0AE652, 0x7B3F1982);
    WordIs(block, w, 66, 0xE0BA3C7D, 0xD6C69D03, 0x60D3DA6D, 0xCD5611C8, 0x37F2D5B7);
    WordIs(block, w, 67, 0x152198D6, 0xCCF6127B, 0xDDF3BA6E, 0x46EF29DC, 0x8596323E);
    WordIs(block, w, 68, 0x7B3F1982, 0x7C58FE6D, 0x2737F5E9, 0x60D3DA6D, 0x810790D6);
    WordIs(block, w, 69, 0x37F2D5B7, 0xFDD99C68, 0x4888A710, 0xDDF3BA6E, 0xBEA0A942);
    WordIs(block, w, 70, 0x8596323E, 0xF8E32074, 0xD2A1177B, 0x2737F5E9, 0x11C7E1B1);
    WordIs(block, w, 71, 0x810790D6, 0xE0BA3C7D, 0x9999633B, 0x4888A710, 0x6158D101);
    WordIs(block, w, 72, 0xBEA0A942, 0x152198D6, 0xD6C69D03, 0xD2A1177B, 0x5FCD77D9);
    WordIs(block, w, 73, 0x11C7E1B1, 0x7B3F1982, 0xCCF6127B, 0x9999633B, 0x7F2F12E6);
    WordIs(block, w, 74, 0x6158D101, 0x37F2D5B7, 0x7C58FE6D, 0xD6C69D03, 0xF868CFB1);
    WordIs(block, w, 75, 0x5FCD77D9, 0x8596323E, 0xFDD99C68, 0xCCF6127B, 0xD6E997E9);
    WordIs(block, w, 76, 0x7F2F12E6, 0x810790D6, 0xF8E32074, 0x7C58FE6D, 0xF526B852);
    WordIs(block, w, 77, 0xF868CFB1, 0xBEA0A942, 0xE0BA3C7D, 0xFDD99C68, 0xB7578DCC);
    WordIs(block, w, 78, 0xD6E997E9, 0x11C7E1B1, 0x152198D6, 0xF8E32074, 0x55D99DF4);
    WordIs(block, w, 79, 0xF526B852, 0x6158D101, 0x7B3F1982, 0xE0BA3C7D, 0x1FF69958);
    StepIs(INITIAL, w, 60, 0x776C3910, 0xA681B723, 0xAC0A794F, 0xF03D3782, 0x9EF775C3, 0x7C58FE6D, 0x36254B13);
    StepIs(INITIAL, w, 61, 0xA681B723, 0xAC0A794F, 0xF03D3782, 0x9EF775C3, 0x36254B13, 0xFDD99C68, 0x4080D4DC);
    StepIs(INITIAL, w, 62, 0xAC0A794F, 0xF03D3782, 0x9EF775C3, 0x36254B13, 0x4080D4DC, 0xF8E32074, 0x2BFAF7A8);
    StepIs(INITIAL, w, 63, 0xF03D3782, 0x9EF775C3, 0x36254B13, 0x4080D4DC, 0x2BFAF7A8, 0xE0BA3C7D, 0x513F9CA0);
    StepIs(INITIAL, w, 64, 0x9EF775C3, 0x36254B13, 0x4080D4DC, 0x2BFAF7A8, 0x513F9CA0, 0x152198D6, 0xE5895C81);
    StepIs(INITIAL, w, 65, 0x36254B13, 0x4080D4DC, 0x2BFAF7A8, 0x513F9CA0, 0xE5895C81, 0x7B3F1982, 0x1037D2D5);
    StepIs(INITIAL, w, 66, 0x4080D4DC, 0x2BFAF7A8, 0x513F9CA0, 0xE5895C81, 0x1037D2D5, 0x37F2D5B7, 0x14A82DA9);
    StepIs(INITIAL, w, 67, 0x2BFAF7A8, 0x513F9CA0, 0xE5895C81, 0x1037D2D5, 0x14A82DA9, 0x8596323E, 0x6D17C9FD);
    StepIs(INITIAL, w, 68, 0x513F9CA0, 0xE5895C81, 0x1037D2D5, 0x14A82DA9, 0x6D17C9FD, 0x810790D6, 0x2C7B07BD);
    StepIs(INITIAL, w, 69, 0xE5895C81, 0x1037D2D5, 0x14A82DA9, 0x6D17C9FD, 0x2C7B07BD, 0xBEA0A942, 0xFDF6EFFF);
    StepIs(INITIAL, w, 70, 0x1037D2D5, 0x14A82DA9, 0x6D17C9FD, 0x2C7B07BD, 0xFDF6EFFF, 0x11C7E1B1, 0x112B96E3);
    StepIs(INITIAL, w, 71, 0x14A82DA9, 0x6D17C9FD, 0x2C7B07BD, 0xFDF6EFFF, 0x112B96E3, 0x6158D101, 0x84065712);
    StepIs(INITIAL, w, 72, 0x6D17C9FD, 0x2C7B07BD, 0xFDF6EFFF, 0x112B96E3, 0x84065712, 0x5FCD77D9, 0xAB89FB71);
    StepIs(INITIAL, w, 73, 0x2C7B07BD, 0xFDF6EFFF, 0x112B96E3, 0x84065712, 0xAB89FB71, 0x7F2F12E6, 0xC5210E35);
    StepIs(INITIAL, w, 74, 0xFDF6EFFF, 0x112B96E3, 0x84065712, 0xAB89FB71, 0xC5210E35, 0xF868CFB1, 0x352D9F4B);
    StepIs(INITIAL, w, 75, 0x112B96E3, 0x84065712, 0xAB89FB71, 0xC5210E35, 0x352D9F4B, 0xD6E997E9, 0x1A0E0E0A);
    StepIs(INITIAL, w, 76, 0x84065712, 0xAB89FB71, 0xC5210E35, 0x352D9F4B, 0x1A0E0E0A, 0xF526B852, 0xD0D47349);
    StepIs(INITIAL, w, 77, 0xAB89FB71, 0xC5210E35, 0x352D9F4B, 0x1A0E0E0A, 0xD0D47349, 0xB7578DCC, 0xAD38620D);
    StepIs(INITIAL, w, 78, 0xC5210E35, 0x352D9F4B, 0x1A0E0E0A, 0xD0D47349, 0xAD38620D, 0x55D99DF4, 0xD3AD7C25);
    StepIs(INITIAL, w, 79, 0x352D9F4B, 0x1A0E0E0A, 0xD0D47349, 0xAD38620D, 0xD3AD7C25, 0x1FF69958, 0x8CE34517);
  }

  lemma TwoFirstTwenty(block: seq<Octet>, w: seq<Word>)
    requires block == TwoBlock() && w == Schedule(block, 80)
    ensures Rounds(MIDDLE, w, 20) == After(0xD9772360, 0x5507DB6E, 0xA51B58BC, 0xC2EB709F, 0xD8992153)
    ensures w[4] == 0x00000000 && w[5] == 0x00000000 && w[6] == 0x00000000 && w[7] == 0x00000000
    ensures w[8] == 0x00000000 && w[9] == 0x00000000 && w[10] == 0x00000000 && w[11] == 0x00000000
    ensures w[12] == 0x00000000 && w[13] == 0x00000000 && w[14] == 0x00000000 && w[15] == 0x000001C0
    ensures w[16] == 0x00000000 && w[17] == 0x00000000 && w[18] == 0x00000380 && w[19] == 0x00000000
  {
    TwoInput(block, w);
    assert MIDDLE == After(0x295995C9, 0x119DC522, 0x1023D604, 0xC37B27AE, 0xF4286818);
    WordIs(block, w, 16, 0x00000000, 0x00000000, 0x00000000, 0x00000000, 0x00000000);
    WordIs(block, w, 17, 0x00000000, 0x00000000, 0x00000000, 0x00000000, 0x00000000);
    WordIs(block, w, 18, 0x000001C0, 0x00000000, 0x00000000, 0x00000000, 0x00000380);
    WordIs(block, w, 19, 0x00000000, 0x00000000, 0x00000000, 0x00000000, 0x00000000);
    StepIs(MIDDLE, w, 0, 0x295995C9, 0x119DC522, 0x1023D604, 0xC37B27AE, 0xF4286818, 0x00000000, 0x2DF257E9);
    StepIs(MIDDLE, w, 1, 0x119DC522, 0x1023D604, 0xC37B27AE, 0xF4286818, 0x2DF257E9, 0x00000000, 0x4D3DC58F);
    StepIs(MIDDLE, w, 2, 0x1023D604, 0xC37B27AE, 0xF4286818, 0x2DF257E9, 0x4D3DC58F, 0x00000000, 0xC352BB05);
    StepIs(MIDDLE, w, 3, 0xC37B27AE, 0xF4286818, 0x2DF257E9, 0x4D3DC58F, 0xC352BB05, 0x00000000, 0xEEF743C6);
    StepIs(MIDDLE, w, 4, 0xF4286818, 0x2DF257E9, 0x4D3DC58F, 0xC352BB05, 0xEEF743C6, 0x00000000, 0x41E34277);
    StepIs(MIDDLE, w, 5, 0x2DF257E9, 0x4D3DC58F, 0xC352BB05, 0xEEF743C6, 0x41E34277, 0x00000000, 0x5443915C);
    StepIs(MIDDLE, w, 6, 0x4D3DC58F, 0xC352BB05, 0xEEF743C6, 0x41E34277, 0x5443915C, 0x00000000, 0xE7FA0377);
    StepIs(MIDDLE, w, 7, 0xC352BB05, 0xEEF743C6, 0x41E34277, 0x5443915C, 0xE7FA0377, 0x00000000, 0xC6946813);
    StepIs(MIDDLE, w, 8, 0xEEF743C6, 0x41E34277, 0x5443915C, 0xE7FA0377, 0xC6946813, 0x00000000, 0xFDDE1DE1);
    StepIs(MIDDLE, w, 9, 0x41E34277, 0x5443915C, 0xE7FA0377, 0xC6946813, 0xFDDE1DE1, 0x00000000, 0xB8538ACA);
    StepIs(MIDDLE, w, 10, 0x5443915C, 0xE7FA0377, 0xC6946813, 0xFDDE1DE1, 0xB8538ACA, 0x00000000, 0x6BA94F63);
    StepIs(MIDDLE, w, 11, 0xE7FA0377, 0xC6946813, 0xFDDE1DE1, 0xB8538ACA, 0x6BA94F63, 0x00000000, 0x43A2792F);
    StepIs(MIDDLE, w, 12, 0xC6946813, 0xFDDE1DE1, 0xB8538ACA, 0x6BA94F63, 0x43A2792F, 0x00000000, 0xFECD7BBF);
    StepIs(MIDDLE, w, 13, 0xFDDE1DE1, 0xB8538ACA, 0x6BA94F63, 0x43A2792F, 0xFECD7BBF, 0x00000000, 0xA2604CA8);
    StepIs(MIDDLE, w, 14, 0xB8538ACA, 0x6BA94F63, 0x43A2792F, 0xFECD7BBF, 0xA2604CA8, 0x00000000, 0x258B0BAA);
    StepIs(MIDDLE, w, 15, 0x6BA94F63, 0x43A2792F, 0xFECD7BBF, 0xA2604CA8, 0x258B0BAA, 0x000001C0, 0xD9772360);
    StepIs(MIDDLE, w, 16, 0x43A2792F, 0xFECD7BBF, 0xA2604CA8, 0x258B0BAA, 0xD9772360, 0x00000000, 0x5507DB6E);
    StepIs(MIDDLE, w, 17, 0xFECD7BBF, 0xA2604CA8, 0x258B0BAA, 0xD9772360, 0x5507DB6E, 0x00000000, 0xA51B58BC);
    StepIs(MIDDLE, w, 18, 0xA2604CA8, 0x258B0BAA, 0xD9772360, 0x5507DB6E, 0xA51B58BC, 0x00000380, 0xC2EB709F);
    StepIs(MIDDLE, w, 19, 0x258B0BAA, 0xD9772360, 0x5507DB6E, 0xA51B58BC, 0xC2EB709F, 0x00000000, 0xD8992153);
  }

  lemma TwoSecondTwenty(block: seq<Octet>, w: seq<Word>)
    requires |block| == 64 && w == Schedule(block, 80)
    requires Rounds(MIDDLE, w, 20) == After(0xD9772360, 0x5507DB6E, 0xA51B58BC, 0xC2EB709F, 0xD8992153)
    requires w[4] == 0x00000000 && w[5] == 0x00000000 && w[6] == 0x00000000 && w[7] == 0x00000000
    requires w[8] == 0x00000000 && w[9] == 0x00000000 && w[10] == 0x00000000 && w[11] == 0x00000000
    requires w[12] == 0x00000000 && w[13] == 0x00000000 && w[14] == 0x00000000 && w[15] == 0x000001C0
    requires w[16] == 0x00000000 && w[17] == 0x00000000 && w[18] == 0x00000380 && w[19] == 0x00000000
    ensures Rounds(MIDDLE, w, 40) == After(0x696DA404, 0xCEF5AE12, 0x87D5B80C, 0x84E2A5F2, 0x03BB6310)
    ensures w[24] == 0x00000E00 && w[25] == 0x00000000 && w[26] == 0x00000000 && w[27] == 0x00001C00
    ensures w[28] == 0x00000000 && w[29] == 0x00000D80 && w[30] == 0x00003800 && w[31] == 0x00000480
    ensures w[32] == 0x00000000 && w[33] == 0x00007000 && w[34] == 0x00000E00 && w[35] == 0x00003600
    ensures w[36] == 0x0000E000 && w[37] == 0x00000E00 && w[38] == 0x00000000 && w[39] == 0x0001CE00
  {
    WordIs(block, w, 20, 0x00000000, 0x00000000, 0x00000000, 0x00000000, 0x00000000);
    WordIs(block, w, 21, 0x00000380, 0x00000000, 0x00000000, 0x00000000, 0x00000700);
    WordIs(block, w, 22, 0x00000000, 0x00000000, 0x00000000, 0x00000000, 0x00000000);
    WordIs(block, w, 23, 0x00000000, 0x000001C0, 0x00000000, 0x00000000, 0x00000380);
    WordIs(block, w, 24, 0x00000700, 0x00000000, 0x00000000, 0x00000000, 0x00000E00);
    WordIs(block, w, 25, 0x00000000, 0x00000000, 0x00000000, 0x00000000, 0x00000000);
    WordIs(block, w, 26, 0x00000380, 0x00000380, 0x00000000, 0x00000000, 0x00000000);
    WordIs(block, w, 27, 0x00000E00, 0x00000000, 0x00000000, 0x00000000, 0x00001C00);
    WordIs(block, w, 28, 0x00000000, 0x00000000, 0x00000000, 0x00000000, 0x00000000);
    WordIs(block, w, 29, 0x00000000, 0x00000700, 0x000001C0, 0x00000000, 0x00000D80);
    WordIs(block, w, 30, 0x00001C00, 0x00000000, 0x00000000, 0x00000000, 0x00003800);
    WordIs(block, w, 31, 0x00000000, 0x00000380, 0x00000000, 0x000001C0, 0x00000480);
    WordIs(block, w, 32, 0x00000D80, 0x00000E00, 0x00000380, 0x00000000, 0x00000000);
    WordIs(block, w, 33, 0x00003800, 0x00000000, 0x00000000, 0x00000000, 0x00007000);
    WordIs(block, w, 34, 0x00000480, 0x00000000, 0x00000000, 0x00000380, 0x00000E00);
    WordIs(block, w, 35, 0x00000000, 0x00001C00, 0x00000700, 0x00000000, 0x00003600);
    WordIs(block, w, 36, 0x00007000, 0x00000000, 0x00000000, 0x00000000, 0x0000E000);
    WordIs(block, w, 37, 0x00000E00, 0x00000D80, 0x00000380, 0x00000700, 0x00000E00);
    WordIs(block, w, 38, 0x00003600, 0x00003800, 0x00000E00, 0x00000000, 0x00000000);
    WordIs(block, w, 39, 0x0000E000, 0x00000480, 0x00000000, 0x00000380, 0x0001CE00);
    StepIs(MIDDLE, w, 20, 0xD9772360, 0x5507DB6E, 0xA51B58BC, 0xC2EB709F, 0xD8992153, 0x00000000, 0x37482F5F);
    StepIs(MIDDLE, w, 21, 0x5507DB6E, 0xA51B58BC, 0xC2EB709F, 0xD8992153, 0x37482F5F, 0x00000700, 0xEE8700BD);
    StepIs(MIDDLE, w, 22, 0xA51B58BC, 0xC2EB709F, 0xD8992153, 0x37482F5F, 0xEE8700BD, 0x00000000, 0x9AD594B9);
    StepIs(MIDDLE, w, 23, 0xC2EB709F, 0xD8992153, 0x37482F5F, 0xEE8700BD, 0x9AD594B9, 0x00000380, 0x8FBAA5B9);
    StepIs(MIDDLE, w, 24, 0xD8992153, 0x37482F5F, 0xEE8700BD, 0x9AD594B9, 0x8FBAA5B9, 0x00000E00, 0x88FB5867);
    StepIs(MIDDLE, w, 25, 0x37482F5F, 0xEE8700BD, 0x9AD594B9, 0x8FBAA5B9, 0x88FB5867, 0x00000000, 0xEEC50521);
    StepIs(MIDDLE, w, 26, 0xEE8700BD, 0x9AD594B9, 0x8FBAA5B9, 0x88FB5867, 0xEEC50521, 0x00000000, 0x50BCE434);
    StepIs(MIDDLE, w, 27, 0x9AD594B9, 0x8FBAA5B9, 0x88FB5867, 0xEEC50521, 0x50BCE434, 0x00001C00, 0x5C416DAF);
    StepIs(MIDDLE, w, 28, 0x8FBAA5B9, 0x88FB5867, 0xEEC50521, 0x50BCE434, 0x5C416DAF, 0x00000000, 0x2429BE5F);
    StepIs(MIDDLE, w, 29, 0x88FB5867, 0xEEC50521, 0x50BCE434, 0x5C416DAF, 0x2429BE5F, 0x00000D80, 0x0A2FB108);
    StepIs(MIDDLE, w, 30, 0xEEC50521, 0x50BCE434, 0x5C416DAF, 0x2429BE5F, 0x0A2FB108, 0x00003800, 0x17986223);
    StepIs(MIDDLE, w, 31, 0x50BCE434, 0x5C416DAF, 0x2429BE5F, 0x0A2FB108, 0x17986223, 0x00000480, 0x8A4AF384);
    StepIs(MIDDLE, w, 32, 0x5C416DAF, 0x2429BE5F, 0x0A2FB108, 0x17986223, 0x8A4AF384, 0x00000000, 0x6B629993);
    StepIs(MIDDLE, w, 33, 0x2429BE5F, 0x0A2FB108, 0x17986223, 0x8A4AF384, 0x6B629993, 0x00007000, 0xF15F04F3);
    StepIs(MIDDLE, w, 34, 0x0A2FB108, 0x17986223, 0x8A4AF384, 0x6B629993, 0xF15F04F3, 0x00000E00, 0x295CC25B);
    StepIs(MIDDLE, w, 35, 0x17986223, 0x8A4AF384, 0x6B629993, 0xF15F04F3, 0x295CC25B, 0x00003600, 0x696DA404);
    StepIs(MIDDLE, w, 36, 0x8A4AF384, 0x6B629993, 0xF15F04F3, 0x295CC25B, 0x696DA404, 0x0000E000, 0xCEF5AE12);
    StepIs(MIDDLE, w, 37, 0x6B629993, 0xF15F04F3, 0x295CC25B, 0x696DA404, 0xCEF5AE12, 0x00000E00, 0x87D5B80C);
    StepIs(MIDDLE, w, 38, 0xF15F04F3, 0x295CC25B, 0x696DA404, 0xCEF5AE12, 0x87D5B80C, 0x00000000, 0x84E2A5F2);
    StepIs(MIDDLE, w, 39, 0x295CC25B, 0x696DA404, 0xCEF5AE12, 0x87D5B80C, 0x84E2A5F2, 0x0001CE00, 0x03BB6310);
  }

  lemma TwoThirdTwenty(block: seq<Octet>, w: seq<Word>)
    requires |block| == 64 && w == Schedule(block, 80)
    requires Rounds(MIDDLE, w, 40) == After(0x696DA404, 0xCEF5AE12, 0x87D5B80C, 0x84E2A5F2, 0x03BB6310)
    requires w[24] == 0x00000E00 && w[25] == 0x00000000 && w[26] == 0x00000000 && w[27] == 0x00001C00
    requires w[28] == 0x00000000 && w[29] == 0x00000D80 && w[30] == 0x00003800 && w[31] == 0x00000480
    requires w[32] == 0x00000000 && w[33] == 0x00007000 && w[34] == 0x00000E00 && w[35] == 0x00003600
    requires w[36] == 0x0000E000 && w[37] == 0x00000E00 && w[38] == 0x00000000 && w[39] == 0x0001CE00
    ensures Rounds(MIDDLE, w, 60) == After(0x6DA72E7F, 0xA8495A9B, 0xE785655A, 0x5B086C42, 0xA65818F7)
    ensures w[44] == 0x00000000 && w[45] == 0x00070E00 && w[46] == 0x0000EE00 && w[47] == 0x00037500
    ensures w[48] == 0x000E0000 && w[49] == 0x0000E000 && w[50] == 0x00003600 && w[51] == 0x001CEE00
    ensures w[52] == 0x00000000 && w[53] == 0x000DF000 && w[54] == 0x00380000 && w[55] == 0x0004C600
    ensures w[56] == 0x0000E000 && w[57] == 0x0070EE00 && w[58] == 0x000EE000 && w[59] == 0x00369E00
  {
    WordIs(block, w, 40, 0x00000E00, 0x00000000, 0x00000000, 0x00000E00, 0x00000000);
    WordIs(block, w, 41, 0x00000000, 0x00007000, 0x00001C00, 0x00000000, 0x0000D800);
    WordIs(block, w, 42, 0x0001CE00, 0x00000E00, 0x00000000, 0x00000000, 0x00038000);
    WordIs(block, w, 43, 0x00000000, 0x00003600, 0x00000D80, 0x00001C00, 0x00004F00);
    WordIs(block, w, 44, 0x0000D800, 0x0000E000, 0x00003800, 0x00000000, 0x00000000);
    WordIs(block, w, 45, 0x00038000, 0x00000E00, 0x00000480, 0x00000D80, 0x00070E00);
    WordIs(block, w, 46, 0x00004F00, 0x00000000, 0x00000000, 0x00003800, 0x0000EE00);
    WordIs(block, w, 47, 0x00000000, 0x0001CE00, 0x00007000, 0x00000480, 0x00037500);
    WordIs(block, w, 48, 0x00070E00, 0x00000000, 0x00000E00, 0x00000000, 0x000E0000);
    WordIs(block, w, 49, 0x0000EE00, 0x0000D800, 0x00003600, 0x00007000, 0x0000E000);
    WordIs(block, w, 50, 0x00037500, 0x00038000, 0x0000E000, 0x00000E00, 0x00003600);
    WordIs(block, w, 51, 0x000E0000, 0x00004F00, 0x00000E00, 0x00003600, 0x001CEE00);
    WordIs(block, w, 52, 0x0000E000, 0x00000000, 0x00000000, 0x0000E000, 0x00000000);
    WordIs(block, w, 53, 0x00003600, 0x00070E00, 0x0001CE00, 0x00000E00, 0x000DF000);
    WordIs(block, w, 54, 0x001CEE00, 0x0000EE00, 0x00000000, 0x00000000, 0x00380000);
    WordIs(block, w, 55, 0x00000000, 0x00037500, 0x0000D800, 0x0001CE00, 0x0004C600);
    WordIs(block, w, 56, 0x000DF000, 0x000E0000, 0x00038000, 0x00000000, 0x0000E000);
    WordIs(block, w, 57, 0x00380000, 0x0000E000, 0x00004F00, 0x0000D800, 0x0070EE00);
    WordIs(block, w, 58, 0x0004C600, 0x00003600, 0x00000000, 0x00038000, 0x000EE000);
    WordIs(block, w, 59, 0x0000E000, 0x001CEE00, 0x00070E00, 0x00004F00, 0x00369E00);
    StepIs(MIDDLE, w, 40, 0x696DA404, 0xCEF5AE12, 0x87D5B80C, 0x84E2A5F2, 0x03BB6310, 0x00000000, 0xC2D8F75F);
    StepIs(MIDDLE, w, 41, 0xCEF5AE12, 0x87D5B80C, 0x84E2A5F2, 0x03BB6310, 0xC2D8F75F, 0x0000D800, 0xBFB25768);
    StepIs(MIDDLE, w, 42, 0x87D5B80C, 0x84E2A5F2, 0x03BB6310, 0xC2D8F75F, 0xBFB25768, 0x00038000, 0x28589152);
    StepIs(MIDDLE, w, 43, 0x84E2A5F2, 0x03BB6310, 0xC2D8F75F, 0xBFB25768, 0x28589152, 0x00004F00, 0xEC1D3D61);
    StepIs(MIDDLE, w, 44, 0x03BB6310, 0xC2D8F75F, 0xBFB25768, 0x28589152, 0xEC1D3D61, 0x00000000, 0x3CAED7AF);
    StepIs(MIDDLE, w, 45, 0xC2D8F75F, 0xBFB25768, 0x28589152, 0xEC1D3D61, 0x3CAED7AF, 0x00070E00, 0xC3D033EA);
    StepIs(MIDDLE, w, 46, 0xBFB25768, 0x28589152, 0xEC1D3D61, 0x3CAED7AF, 0xC3D033EA, 0x0000EE00, 0x7316056A);
    StepIs(MIDDLE, w, 47, 0x28589152, 0xEC1D3D61, 0x3CAED7AF, 0xC3D033EA, 0x7316056A, 0x00037500, 0x46F93B68);
    StepIs(MIDDLE, w, 48, 0xEC1D3D61, 0x3CAED7AF, 0xC3D033EA, 0x7316056A, 0x46F93B68, 0x000E0000, 0xDC8E7F26);
    StepIs(MIDDLE, w, 49, 0x3CAED7AF, 0xC3D033EA, 0x7316056A, 0x46F93B68, 0xDC8E7F26, 0x0000E000, 0x850D411C);
    StepIs(MIDDLE, w, 50, 0xC3D033EA, 0x7316056A, 0x46F93B68, 0xDC8E7F26, 0x850D411C, 0x00003600, 0x7E4672C0);
    StepIs(MIDDLE, w, 51, 0x7316056A, 0x46F93B68, 0xDC8E7F26, 0x850D411C, 0x7E4672C0, 0x001CEE00, 0x89FBD41D);
    StepIs(MIDDLE, w, 52, 0x46F93B68, 0xDC8E7F26, 0x850D411C, 0x7E4672C0, 0x89FBD41D, 0x00000000, 0x1797E228);
    StepIs(MIDDLE, w, 53, 0xDC8E7F26, 0x850D411C, 0x7E4672C0, 0x89FBD41D, 0x1797E228, 0x000DF000, 0x431D65BC);
    StepIs(MIDDLE, w, 54, 0x850D411C, 0x7E4672C0, 0x89FBD41D, 0x1797E228, 0x431D65BC, 0x00380000, 0x2BDBB8CB);
    StepIs(MIDDLE, w, 55, 0x7E4672C0, 0x89FBD41D, 0x1797E228, 0x431D65BC, 0x2BDBB8CB, 0x0004C600, 0x6DA72E7F);
    StepIs(MIDDLE, w, 56, 0x89FBD41D, 0x1797E228, 0x431D65BC, 0x2BDBB8CB, 0x6DA72E7F, 0x0000E000, 0xA8495A9B);
    StepIs(MIDDLE, w, 57, 0x1797E228, 0x431D65BC, 0x2BDBB8CB, 0x6DA72E7F, 0xA8495A9B, 0x0070EE00, 0xE785655A);
    StepIs(MIDDLE, w, 58, 0x431D65BC, 0x2BDBB8CB, 0x6DA72E7F, 0xA8495A9B, 0xE785655A, 0x000EE000, 0x5B086C42);
    StepIs(MIDDLE, w, 59, 0x2BDBB8CB, 0x6DA72E7F, 0xA8495A9B, 0xE785655A, 0x5B086C42, 0x00369E00, 0xA65818F7);
  }

  lemma TwoFourthTwenty(block: seq<Octet>, w: seq<Word>)
    requires |block| == 64 && w == Schedule(block, 80)
    requires Rounds(MIDDLE, w, 60) == After(0x6DA72E7F, 0xA8495A9B, 0xE785655A, 0x5B086C42, 0xA65818F7)
    requires w[44] == 0x00000000 && w[45] == 0x00070E00 && w[46] == 0x0000EE00 && w[47] == 0x00037500
    requires w[48] == 0x000E0000 && w[49] == 0x0000E000 && w[50] == 0x00003600 && w[51] == 0x001CEE00
    requires w[52] == 0x00000000 && w[53] == 0x000DF000 && w[54] == 0x00380000 && w[55] == 0x0004C600
    requires w[56] == 0x0000E000 && w[57] == 0x0070EE00 && w[58] == 0x000EE000 && w[59] == 0x00369E00
    ensures Rounds(MIDDLE, w, 80) == After(0x6BC02DFE, 0xD3A6E275, 0xDA955482, 0x58C0AAC0, 0x906FD62C)
  {
    WordIs(block, w, 60, 0x0070EE00, 0x00000000, 0x0000EE00, 0x00000000, 0x00E00000);
    WordIs(block, w, 61, 0x000EE000, 0x000DF000, 0x00037500, 0x00070E00, 0x000ED600);
    WordIs(block, w, 62, 0x00369E00, 0x00380000, 0x000E0000, 0x0000EE00, 0x0000E000);
    WordIs(block, w, 63, 0x00E00000, 0x0004C600, 0x0000E000, 0x00037500, 0x01CEA600);
    WordIs(block, w, 64, 0x000ED600, 0x0000E000, 0x00003600, 0x000E0000, 0x00000000);
    WordIs(block, w, 65, 0x0000E000, 0x0070EE00, 0x001CEE00, 0x0000E000, 0x00D80000);
    WordIs(block, w, 66, 0x01CEA600, 0x000EE000, 0x00000000, 0x00003600, 0x0380E000);
    WordIs(block, w, 67, 0x00000000, 0x00369E00, 0x000DF000, 0x001CEE00, 0x004F0000);
    WordIs(block, w, 68, 0x00D80000, 0x00E00000, 0x00380000, 0x00000000, 0x00000000);
    WordIs(block, w, 69, 0x0380E000, 0x000ED600, 0x0004C600, 0x000DF000, 0x070E0000);
    WordIs(block, w, 70, 0x004F0000, 0x0000E000, 0x0000E000, 0x00380000, 0x00EE0000);
    WordIs(block, w, 71, 0x00000000, 0x01CEA600, 0x0070EE00, 0x0004C600, 0x03751C00);
    WordIs(block, w, 72, 0x070E0000, 0x00000000, 0x000EE000, 0x0000E000, 0x0E000000);
    WordIs(block, w, 73, 0x00EE0000, 0x00D80000, 0x00369E00, 0x0070EE00, 0x00E0E000);
    WordIs(block, w, 74, 0x03751C00, 0x0380E000, 0x00E00000, 0x000EE000, 0x00363800);
    WordIs(block, w, 75, 0x0E000000, 0x004F0000, 0x000ED600, 0x00369E00, 0x1CEE9000);
    WordIs(block, w, 76, 0x00E0E000, 0x00000000, 0x0000E000, 0x00E00000, 0x00000000);
    WordIs(block, w, 77, 0x00363800, 0x070E0000, 0x01CEA600, 0x000ED600, 0x0DF09000);
    WordIs(block, w, 78, 0x1CEE9000, 0x00EE0000, 0x00000000, 0x0000E000, 0x3800E000);
    WordIs(block, w, 79, 0x00000000, 0x03751C00, 0x00D80000, 0x01CEA600, 0x04C77400);
    StepIs(MIDDLE, w, 60, 0x6DA72E7F, 0xA8495A9B, 0xE785655A, 0x5B086C42, 0xA65818F7, 0x00E00000, 0x7AAB101B);
    StepIs(MIDDLE, w, 61, 0xA8495A9B, 0xE785655A, 0x5B086C42, 0xA65818F7, 0x7AAB101B, 0x000ED600, 0x93614C9C);
    StepIs(MIDDLE, w, 62, 0xE785655A, 0x5B086C42, 0xA65818F7, 0x7AAB101B, 0x93614C9C, 0x0000E000, 0xF66D9BF4);
    StepIs(MIDDLE, w, 63, 0x5B086C42, 0xA65818F7, 0x7AAB101B, 0x93614C9C, 0xF66D9BF4, 0x01CEA600, 0xD504902B);
    StepIs(MIDDLE, w, 64, 0xA65818F7, 0x7AAB101B, 0x93614C9C, 0xF66D9BF4, 0xD504902B, 0x00000000, 0x60A9DA62);
    StepIs(MIDDLE, w, 65, 0x7AAB101B, 0x93614C9C, 0xF66D9BF4, 0xD504902B, 0x60A9DA62, 0x00D80000, 0x8B687819);
    StepIs(MIDDLE, w, 66, 0x93614C9C, 0xF66D9BF4, 0xD504902B, 0x60A9DA62, 0x8B687819, 0x0380E000, 0x083E90C3);
    StepIs(MIDDLE, w, 67, 0xF66D9BF4, 0xD504902B, 0x60A9DA62, 0x8B687819, 0x083E90C3, 0x004F0000, 0xF6226BBF);
    StepIs(MIDDLE, w, 68, 0xD504902B, 0x60A9DA62, 0x8B687819, 0x083E90C3, 0xF6226BBF, 0x00000000, 0x76C0563B);
    StepIs(MIDDLE, w, 69, 0x60A9DA62, 0x8B687819, 0x083E90C3, 0xF6226BBF, 0x76C0563B, 0x070E0000, 0x989DD165);
    StepIs(MIDDLE, w, 70, 0x8B687819, 0x083E90C3, 0xF6226BBF, 0x76C0563B, 0x989DD165, 0x00EE0000, 0x8B2C7573);
    StepIs(MIDDLE, w, 71, 0x083E90C3, 0xF6226BBF, 0x76C0563B, 0x989DD165, 0x8B2C7573, 0x03751C00, 0xAE1B8E7B);
    StepIs(MIDDLE, w, 72, 0xF6226BBF, 0x76C0563B, 0x989DD165, 0x8B2C7573, 0xAE1B8E7B, 0x0E000000, 0xCA1840DE);
    StepIs(MIDDLE, w, 73, 0x76C0563B, 0x989DD165, 0x8B2C7573, 0xAE1B8E7B, 0xCA1840DE, 0x00E0E000, 0x16F3BABB);
    StepIs(MIDDLE, w, 74, 0x989DD165, 0x8B2C7573, 0xAE1B8E7B, 0xCA1840DE, 0x16F3BABB, 0x00363800, 0xD28D83AD);
    StepIs(MIDDLE, w, 75, 0x8B2C7573, 0xAE1B8E7B, 0xCA1840DE, 0x16F3BABB, 0xD28D83AD, 0x1CEE9000, 0x6BC02DFE);
    StepIs(MIDDLE, w, 76, 0xAE1B8E7B, 0xCA1840DE, 0x16F3BABB, 0xD28D83AD, 0x6BC02DFE, 0x00000000, 0xD3A6E275);
    StepIs(MIDDLE, w, 77, 0xCA1840DE, 0x16F3BABB, 0xD28D83AD, 0x6BC02DFE, 0xD3A6E275, 0x0DF09000, 0xDA955482);
    StepIs(MIDDLE, w, 78, 0x16F3BABB, 0xD28D83AD, 0x6BC02DFE, 0xD3A6E275, 0xDA955482, 0x3800E000, 0x58C0AAC0);
    StepIs(MIDDLE, w, 79, 0xD28D83AD, 0x6BC02DFE, 0xD3A6E275, 0xDA955482, 0x58C0AAC0, 0x04C77400, 0x906FD62C);
  }

  lemma OneCompressed()
    ensures Compress(INITIAL, OneBlock()) == MIDDLE
  {
    var w := Schedule(OneBlock(), 80);
    OneFirstTwenty(OneBlock(), w);
    OneSecondTwenty(OneBlock(), w);
    OneThirdTwenty(OneBlock(), w);
    OneFourthTwenty(OneBlock(), w);
  }

  lemma TwoCompressed()
    ensures Compress(MIDDLE, TwoBlock()) == Five(0x84983E44, 0x1C3BD26E, 0xBAAE4AA1, 0xF95129E5, 0xE54670F1)
  {
    var w := Schedule(TwoBlock(), 80);
    TwoFirstTwenty(TwoBlock(), w);
    TwoSecondTwenty(TwoBlock(), w);
    TwoThirdTwenty(TwoBlock(), w);
    TwoFourthTwenty(TwoBlock(), w);
  }

  /** The hash state at the end of the message. */
  lemma LongFinal()
    ensures Final(LongMessage()) == Five(0x84983E44, 0x1C3BD26E, 0xBAAE4AA1, 0xF95129E5, 0xE54670F1)
  {
    var padded := LongMessage() + Padding(56);
    assert padded == OneBlock() + TwoBlock();
    OneCompressed();
    TwoCompressed();
    assert padded[..64] == OneBlock() && padded[64..] == TwoBlock();
    assert OneBlock()[..0] == [] && OneBlock()[0..] == OneBlock();
    assert Blocks(OneBlock(), 1) == Compress(Blocks(OneBlock()[..0], 0), OneBlock()[0..]);
    assert Blocks(padded, 2) == Compress(Blocks(padded[..64], 1), padded[64..]);
  }

  lemma LongDigest()
    ensures Digest(LongMessage()) == [
              0x84, 0x98, 0x3E, 0x44, 0x1C, 0x3B, 0xD2, 0x6E, 0xBA, 0xAE,
              0x4A, 0xA1, 0xF9, 0x51, 0x29, 0xE5, 0xE5, 0x46, 0x70, 0xF1]
  {
    LongFinal();
  }
}
