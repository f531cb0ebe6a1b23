/** The digest of "abc", as section A.5 of RFC 1321 gives it, through all sixty-four steps. */
module Md5Vector {
  import opened Basics
  import opened Md5Spec
  import opened Md5

  /** The words of the one block that "abc" is padded to. */
  const ABC: seq<word> := [0x8063_6261, 0, 0, 0, 0, 0, 0, 0,
                           0, 0, 0, 0, 0, 0, 0x0000_0018, 0]

  lemma AbcWords()
    ensures |ABC| == 16 && ABC[0] == 0x8063_6261 && ABC[14] == 0x0000_0018
    ensures forall k :: 1 <= k < 16 && k != 14 ==> ABC[k] == 0
  {
  }

  lemma Start()
    ensures Steps(INIT, ABC, 0) == Regs(0x6745_2301, 0xefcd_ab89, 0x98ba_dcfe, 0x1032_5476)
  {
  }

  lemma Next(i: nat, r: Regs, k: nat, s: nat, t: word)
    requires Steps(INIT, ABC, i) == r && Uses(i, k, s, t)
    ensures k < 16 && 0 < s < 32
    ensures Steps(INIT, ABC, i + 1) == Regs(r.d, Operate(r.a, r.b, Mix(i, r.b, r.c, r.d), ABC[k], s, t), r.b, r.c)
  {
    hide Operate;
    hide Mix;
    hide Pick;
    hide Shift;
    hide T;
  }

  lemma Sums0()
    ensures Operate(0x6745_2301, 0xefcd_ab89, Mix(0, 0xefcd_ab89, 0x98ba_dcfe, 0x1032_5476),
                    0x8063_6261, 7, 0xd76a_a478) == 0xd6d1_17b4
    ensures Operate(0x1032_5476, 0xd6d1_17b4, Mix(1, 0xd6d1_17b4, 0xefcd_ab89, 0x98ba_dcfe),
                    0, 12, 0xe8c7_b756) == 0x344a_8432
    ensures Operate(0x98ba_dcfe, 0x344a_8432, Mix(2, 0x344a_8432, 0xd6d1_17b4, 0xefcd_ab89),
                    0, 17, 0x2420_70db) == 0x2f6f_bd72
    ensures Operate(0xefcd_ab89, 0x2f6f_bd72, Mix(3, 0x2f6f_bd72, 0x344a_8432, 0xd6d1_17b4),
                    0, 22, 0xc1bd_ceee) == 0x7ad9_56f2
  {
  }

  lemma After4()
    ensures Steps(INIT, ABC, 4) == Regs(0xd6d1_17b4, 0x7ad9_56f2, 0x2f6f_bd72, 0x344a_8432)
  {
    hide *;
    Start();
    Sums0();
    AbcWords();
    ScheduleOneA();
    Next(0, Regs(0x6745_2301, 0xefcd_ab89, 0x98ba_dcfe, 0x1032_5476), 0, 7, 0xd76a_a478);
    Next(1, Regs(0x1032_5476, 0xd6d1_17b4, 0xefcd_ab89, 0x98ba_dcfe), 1, 12, 0xe8c7_b756);
    Next(2, Regs(0x98ba_dcfe, 0x344a_8432, 0xd6d1_17b4, 0xefcd_ab89), 2, 17, 0x2420_70db);
    Next(3, Regs(0xefcd_ab89, 0x2f6f_bd72, 0x344a_8432, 0xd6d1_17b4), 3, 22, 0xc1bd_ceee);
  }

  lemma Sums4()
    ensures Operate(0xd6d1_17b4, 0x7ad9_56f2, Mix(4, 0x7ad9_56f2, 0x2f6f_bd72, 0x344a_8432),
                    0, 7, 0xf57c_0faf) == 0xc737_41ef
    ensures Operate(0x344a_8432, 0xc737_41ef, Mix(5, 0xc737_41ef, 0x7ad9_56f2, 0x2f6f_bd72),
                    0, 12, 0x4787_c62a) == 0x8bac_3051
    ensures Operate(0x2f6f_bd72, 0x8bac_3051, Mix(6, 0x8bac_3051, 0xc737_41ef, 0x7ad9_56f2),
                    0, 17, 0xa830_4613) == 0x207d_c67b
    ensures Operate(0x7ad9_56f2, 0x207d_c67b, Mix(7, 0x207d_c67b, 0x8bac_3051, 0xc737_41ef),
                    0, 22, 0xfd46_9501) == 0x928d_99f6
  {
  }

  lemma After8()
    ensures Steps(INIT, ABC, 8) == Regs(0xc737_41ef, 0x928d_99f6, 0x207d_c67b, 0x8bac_3051)
  {
    hide *;
    After4();
    Sums4();
    AbcWords();
    ScheduleOneB();
    Next(4, Regs(0xd6d1_17b4, 0x7ad9_56f2, 0x2f6f_bd72, 0x344a_8432), 4, 7, 0xf57c_0faf);
    Next(5, Regs(0x344a_8432, 0xc737_41ef, 0x7ad9_56f2, 0x2f6f_bd72), 5, 12, 0x4787_c62a);
    Next(6, Regs(0x2f6f_bd72, 0x8bac_3051, 0xc737_41ef, 0x7ad9_56f2), 6, 17, 0xa830_4613);
    Next(7, Regs(0x7ad9_56f2, 0x207d_c67b, 0x8bac_3051, 0xc737_41ef), 7, 22, 0xfd46_9501);
  }

  lemma Sums8()
    ensures Operate(0xc737_41ef, 0x928d_99f6, Mix(8, 0x928d_99f6, 0x207d_c67b, 0x8bac_3051),
                    0, 7, 0x6980_98d8) == 0x854b_3712
    ensures Operate(0x8bac_3051, 0x854b_3712, Mix(9, 0x854b_3712, 0x928d_99f6, 0x207d_c67b),
                    0, 12, 0x8b44_f7af) == 0x74e2_f284
    ensures Operate(0x207d_c67b, 0x74e2_f284, Mix(10, 0x74e2_f284, 0x854b_3712, 0x928d_99f6),
                    0, 17, 0xffff_5bb1) == 0x3020_401c
    ensures Operate(0x928d_99f6, 0x3020_401c, Mix(11, 0x3020_401c, 0x74e2_f284, 0x854b_3712),
                    0, 22, 0x895c_d7be) == 0x5ed4_9596
  {
  }

  lemma After12()
    ensures Steps(INIT, ABC, 12) == Regs(0x854b_3712, 0x5ed4_9596, 0x3020_401c, 0x74e2_f284)
  {
    hide *;
    After8();
    Sums8();
    AbcWords();
    ScheduleOneC();
    Next(8, Regs(0xc737_41ef, 0x928d_99f6, 0x207d_c67b, 0x8bac_3051), 8, 7, 0x6980_98d8);
    Next(9, Regs(0x8bac_3051, 0x854b_3712, 0x928d_99f6, 0x207d_c67b), 9, 12, 0x8b44_f7af);
    Next(10, Regs(0x207d_c67b, 0x74e2_f284, 0x854b_3712, 0x928d_99f6), 10, 17, 0xffff_5bb1);
    Next(11, Regs(0x928d_99f6, 0x3020_401c, 0x74e2_f284, 0x854b_3712), 11, 22, 0x895c_d7be);
  }

  lemma Sums12()
    ensures Operate(0x854b_3712, 0x5ed4_9596, Mix(12, 0x5ed4_9596, 0x3020_401c, 0x74e2_f284),
                    0, 7, 0x6b90_1122) == 0xdda9_b9a6
    ensures Operate(0x74e2_f284, 0xdda9_b9a6, Mix(13, 0xdda9_b9a6, 0x5ed4_9596, 0x3020_401c),
                    0, 12, 0xfd98_7193) == 0xa105_1895
    ensures Operate(0x3020_401c, 0xa105_1895, Mix(14, 0xa105_1895, 0xdda9_b9a6, 0x5ed4_9596),
                    0x0000_0018, 17, 0xa679_438e) == 0xe396_856b
    ensures Operate(0x5ed4_9596, 0xe396_856b, Mix(15, 0xe396_856b, 0xa105_1895, 0xdda9_b9a6),
                    0, 22, 0x49b4_0821) == 0x72af_f2e0
  {
  }

  lemma After16()
    ensures Steps(INIT, ABC, 16) == Regs(0xdda9_b9a6, 0x72af_f2e0, 0xe396_856b, 0xa105_1895)
  {
    hide *;
    After12();
    Sums12();
    AbcWords();
    ScheduleOneD();
    Next(12, Regs(0x854b_3712, 0x5ed4_9596, 0x3020_401c, 0x74e2_f284), 12, 7, 0x6b90_1122);
    Next(13, Regs(0x74e2_f284, 0xdda9_b9a6, 0x5ed4_9596, 0x3020_401c), 13, 12, 0xfd98_7193);
    Next(14, Regs(0x3020_401c, 0xa105_1895, 0xdda9_b9a6, 0x5ed4_9596), 14, 17, 0xa679_438e);
    Next(15, Regs(0x5ed4_9596, 0xe396_856b, 0xa105_1895, 0xdda9_b9a6), 15, 22, 0x49b4_0821);
  }

  lemma Sums16()
    ensures Operate(0xdda9_b9a6, 0x72af_f2e0, Mix(16, 0x72af_f2e0, 0xe396_856b, 0xa105_1895),
                    0, 5, 0xf61e_2562) == 0x3e9e_9126
    ensures Operate(0xa105_1895, 0x3e9e_9126, Mix(17, 0x3e9e_9126, 0x72af_f2e0, 0xe396_856b),
                    0, 9, 0xc040_b340) == 0x4a1d_804e
    ensures Operate(0xe396_856b, 0x4a1d_804e, Mix(18, 0x4a1d_804e, 0x3e9e_9126, 0x72af_f2e0),
                    0, 14, 0x265e_5a51) == 0xe25e_1652
    ensures Operate(0x72af_f2e0, 0xe25e_1652, Mix(19, 0xe25e_1652, 0x4a1d_804e, 0x3e9e_9126),
                    0x8063_6261, 20, 0xe9b6_c7aa) == 0xb5b2_04e4
  {
  }

  lemma After20()
    ensures Steps(INIT, ABC, 20) == Regs(0x3e9e_9126, 0xb5b2_04e4, 0xe25e_1652, 0x4a1d_804e)
  {
    hide *;
    After16();
    Sums16();
    AbcWords();
    ScheduleTwoA();
    Next(16, Regs(0xdda9_b9a6, 0x72af_f2e0, 0xe396_856b, 0xa105_1895), 1, 5, 0xf61e_2562);
    Next(17, Regs(0xa105_1895, 0x3e9e_9126, 0x72af_f2e0, 0xe396_856b), 6, 9, 0xc040_b340);
    Next(18, Regs(0xe396_856b, 0x4a1d_804e, 0x3e9e_9126, 0x72af_f2e0), 11, 14, 0x265e_5a51);
    Next(19, Regs(0x72af_f2e0, 0xe25e_1652, 0x4a1d_804e, 0x3e9e_9126), 0, 20, 0xe9b6_c7aa);
  }

  lemma Sums20()
    ensures Operate(0x3e9e_9126, 0xb5b2_04e4, Mix(20, 0xb5b2_04e4, 0xe25e_1652, 0x4a1d_804e),
                    0, 5, 0xd62f_105d) == 0x59a8_ffda
    ensures Operate(0x4a1d_804e, 0x59a8_ffda, Mix(21, 0x59a8_ffda, 0xb5b2_04e4, 0xe25e_1652),
                    0, 9, 0x0244_1453) == 0x6d00_2f1e
    ensures Operate(0xe25e_1652, 0x6d00_2f1e, Mix(22, 0x6d00_2f1e, 0x59a8_ffda, 0xb5b2_04e4),
                    0, 14, 0xd8a1_e681) == 0xabfc_7920
    ensures Operate(0xb5b2_04e4, 0xabfc_7920, Mix(23, 0xabfc_7920, 0x6d00_2f1e, 0x59a8_ffda),
                    0, 20, 0xe7d3_fbc8) == 0x4709_2c07
  {
  }

  lemma After24()
    ensures Steps(INIT, ABC, 24) == Regs(0x59a8_ffda, 0x4709_2c07, 0xabfc_7920, 0x6d00_2f1e)
  {
    hide *;
    After20();
    Sums20();
    AbcWords();
    ScheduleTwoB();
    Next(20, Regs(0x3e9e_9126, 0xb5b2_04e4, 0xe25e_1652, 0x4a1d_804e), 5, 5, 0xd62f_105d);
    Next(21, Regs(0x4a1d_804e, 0x59a8_ffda, 0xb5b2_04e4, 0xe25e_1652), 10, 9, 0x0244_1453);
    Next(22, Regs(0xe25e_1652, 0x6d00_2f1e, 0x59a8_ffda, 0xb5b2_04e4), 15, 14, 0xd8a1_e681);
    Next(23, Regs(0xb5b2_04e4, 0xabfc_7920, 0x6d00_2f1e, 0x59a8_ffda), 4, 20, 0xe7d3_fbc8);
  }

  lemma Sums24()
    ensures Operate(0x59a8_ffda, 0x4709_2c07, Mix(24, 0x4709_2c07, 0xabfc_7920, 0x6d00_2f1e),
                    0, 5, 0x21e1_cde6) == 0xb7f2_68cf
    ensures Operate(0x6d00_2f1e, 0xb7f2_68cf, Mix(25, 0xb7f2_68cf, 0x4709_2c07, 0xabfc_7920),
                    0x0000_0018, 9, 0xc337_07d6) == 0x0938_8eff
    ensures Operate(0xabfc_7920, 0x0938_8eff, Mix(26, 0x0938_8eff, 0xb7f2_68cf, 0x4709_2c07),
                    0, 14, 0xf4d5_0d87) == 0xfe16_23b1
    ensures Operate(0x4709_2c07, 0xfe16_23b1, Mix(27, 0xfe16_23b1, 0x0938_8eff, 0xb7f2_68cf),
                    0, 20, 0x455a_14ed) == 0x786a_cb8f
  {
  }

  lemma After28()
    ensures Steps(INIT, ABC, 28) == Regs(0xb7f2_68cf, 0x786a_cb8f, 0xfe16_23b1, 0x0938_8eff)
  {
    hide *;
    After24();
    Sums24();
    AbcWords();
    ScheduleTwoC();
    Next(24, Regs(0x59a8_ffda, 0x4709_2c07, 0xabfc_7920, 0x6d00_2f1e), 9, 5, 0x21e1_cde6);
    Next(25, Regs(0x6d00_2f1e, 0xb7f2_68cf, 0x4709_2c07, 0xabfc_7920), 14, 9, 0xc337_07d6);
    Next(26, Regs(0xabfc_7920, 0x0938_8eff, 0xb7f2_68cf, 0x4709_2c07), 3, 14, 0xf4d5_0d87);
    Next(27, Regs(0x4709_2c07, 0xfe16_23b1, 0x0938_8eff, 0xb7f2_68cf), 8, 20, 0x455a_14ed);
  }

  lemma Sums28()
    ensures Operate(0xb7f2_68cf, 0x786a_cb8f, Mix(28, 0x786a_cb8f, 0xfe16_23b1, 0x0938_8eff),
                    0, 5, 0xa9e3_e905) == 0x790a_77fb
    ensures Operate(0x0938_8eff, 0x790a_77fb, Mix(29, 0x790a_77fb, 0x786a_cb8f, 0xfe16_23b1),
                    0, 9, 0xfcef_a3f8) == 0x9f47_e4f8
    ensures Operate(0xfe16_23b1, 0x9f47_e4f8, Mix(30, 0x9f47_e4f8, 0x790a_77fb, 0x786a_cb8f),
                    0, 14, 0x676f_02d9) == 0xa628_84aa
    ensures Operate(0x786a_cb8f, 0xa628_84aa, Mix(31, 0xa628_84aa, 0x9f47_e4f8, 0x790a_77fb),
                    0, 20, 0x8d2a_4c8a) == 0x7263_42d3
  {
  }

  lemma After32()
    ensures Steps(INIT, ABC, 32) == Regs(0x790a_77fb, 0x7263_42d3, 0xa628_84aa, 0x9f47_e4f8)
  {
    hide *;
    After28();
    Sums28();
    AbcWords();
    ScheduleTwoD();
    Next(28, Regs(0xb7f2_68cf, 0x786a_cb8f, 0xfe16_23b1, 0x0938_8eff), 13, 5, 0xa9e3_e905);
    Next(29, Regs(0x0938_8eff, 0x790a_77fb, 0x786a_cb8f, 0xfe16_23b1), 2, 9, 0xfcef_a3f8);
    Next(30, Regs(0xfe16_23b1, 0x9f47_e4f8, 0x790a_77fb, 0x786a_cb8f), 7, 14, 0x676f_02d9);
    Next(31, Regs(0x786a_cb8f, 0xa628_84aa, 0x9f47_e4f8, 0x790a_77fb), 12, 20, 0x8d2a_4c8a);
  }

  lemma Sums32()
    ensures Operate(0x790a_77fb, 0x7263_42d3, Mix(32, 0x7263_42d3, 0xa628_84aa, 0x9f47_e4f8),
                    0, 4, 0xfffa_3942) == 0xb370_7ebf
    ensures Operate(0x9f47_e4f8, 0xb370_7ebf, Mix(33, 0xb370_7ebf, 0x7263_42d3, 0xa628_84aa),
                    0, 11, 0x8771_f681) == 0x6012_7b2e
    ensures Operate(0xa628_84aa, 0x6012_7b2e, Mix(34, 0x6012_7b2e, 0xb370_7ebf, 0x7263_42d3),
                    0, 16, 0x6d9d_6122) == 0x8d21_2ff5
    ensures Operate(0x7263_42d3, 0x8d21_2ff5, Mix(35, 0x8d21_2ff5, 0x6012_7b2e, 0xb370_7ebf),
                    0x0000_0018, 23, 0xfde5_380c) == 0x3b08_75c7
  {
  }

  lemma After36()
    ensures Steps(INIT, ABC, 36) == Regs(0xb370_7ebf, 0x3b08_75c7, 0x8d21_2ff5, 0x6012_7b2e)
  {
    hide *;
    After32();
    Sums32();
    AbcWords();
    ScheduleThreeA();
    Next(32, Regs(0x790a_77fb, 0x7263_42d3, 0xa628_84aa, 0x9f47_e4f8), 5, 4, 0xfffa_3942);
    Next(33, Regs(0x9f47_e4f8, 0xb370_7ebf, 0x7263_42d3, 0xa628_84aa), 8, 11, 0x8771_f681);
    Next(34, Regs(0xa628_84aa, 0x6012_7b2e, 0xb370_7ebf, 0x7263_42d3), 11, 16, 0x6d9d_6122);
    Next(35, Regs(0x7263_42d3, 0x8d21_2ff5, 0x6012_7b2e, 0xb370_7ebf), 14, 23, 0xfde5_380c);
  }

  lemma Sums36()
    ensures Operate(0xb370_7ebf, 0x3b08_75c7, Mix(36, 0x3b08_75c7, 0x8d21_2ff5, 0x6012_7b2e),
                    0, 4, 0xa4be_ea44) == 0x21b1_17b9
    ensures Operate(0x6012_7b2e, 0x21b1_17b9, Mix(37, 0x21b1_17b9, 0x3b08_75c7, 0x8d21_2ff5),
                    0, 11, 0x4bde_cfa9) == 0x6e74_29d5
    ensures Operate(0x8d21_2ff5, 0x6e74_29d5, Mix(38, 0x6e74_29d5, 0x21b1_17b9, 0x3b08_75c7),
                    0, 16, 0xf6bb_4b60) == 0x3575_227e
    ensures Operate(0x3b08_75c7, 0x3575_227e, Mix(39, 0x3575_227e, 0x6e74_29d5, 0x21b1_17b9),
                    0, 23, 0xbebf_bc70) == 0x5a2f_5ea5
  {
  }

  lemma After40()
    ensures Steps(INIT, ABC, 40) == Regs(0x21b1_17b9, 0x5a2f_5ea5, 0x3575_227e, 0x6e74_29d5)
  {
    hide *;
    After36();
    Sums36();
    AbcWords();
    ScheduleThreeB();
    Next(36, Regs(0xb370_7ebf, 0x3b08_75c7, 0x8d21_2ff5, 0x6012_7b2e), 1, 4, 0xa4be_ea44);
    Next(37, Regs(0x6012_7b2e, 0x21b1_17b9, 0x3b08_75c7, 0x8d21_2ff5), 4, 11, 0x4bde_cfa9);
    Next(38, Regs(0x8d21_2ff5, 0x6e74_29d5, 0x21b1_17b9, 0x3b08_75c7), 7, 16, 0xf6bb_4b60);
    Next(39, Regs(0x3b08_75c7, 0x3575_227e, 0x6e74_29d5, 0x21b1_17b9), 10, 23, 0xbebf_bc70);
  }

  lemma Sums40()
    ensures Operate(0x21b1_17b9, 0x5a2f_5ea5, Mix(40, 0x5a2f_5ea5, 0x3575_227e, 0x6e74_29d5),
                    0, 4, 0x289b_7ec6) == 0x11de_1779
    ensures Operate(0x6e74_29d5, 0x11de_1779, Mix(41, 0x11de_1779, 0x5a2f_5ea5, 0x3575_227e),
                    0x8063_6261, 11, 0xeaa1_27fa) == 0xfadc_aa38
    ensures Operate(0x3575_227e, 0xfadc_aa38, Mix(42, 0xfadc_aa38, 0x11de_1779, 0x5a2f_5ea5),
                    0, 16, 0xd4ef_3085) == 0x31c4_65ca
    ensures Operate(0x5a2f_5ea5, 0x31c4_65ca, Mix(43, 0x31c4_65ca, 0xfadc_aa38, 0x11de_1779),
                    0, 23, 0x0488_1d05) == 0x4c61_24f4
  {
  }

  lemma After44()
    ensures Steps(INIT, ABC, 44) == Regs(0x11de_1779, 0x4c61_24f4, 0x31c4_65ca, 0xfadc_aa38)
  {
    hide *;
    After40();
    Sums40();
    AbcWords();
    ScheduleThreeC();
    Next(40, Regs(0x21b1_17b9, 0x5a2f_5ea5, 0x3575_227e, 0x6e74_29d5), 13, 4, 0x289b_7ec6);
    Next(41, Regs(0x6e74_29d5, 0x11de_1779, 0x5a2f_5ea5, 0x3575_227e), 0, 11, 0xeaa1_27fa);
    Next(42, Regs(0x3575_227e, 0xfadc_aa38, 0x11de_1779, 0x5a2f_5ea5), 3, 16, 0xd4ef_3085);
    Next(43, Regs(0x5a2f_5ea5, 0x31c4_65ca, 0xfadc_aa38, 0x11de_1779), 6, 23, 0x0488_1d05);
  }

  lemma Sums44()
    ensures Operate(0x11de_1779, 0x4c61_24f4, Mix(44, 0x4c61_24f4, 0x31c4_65ca, 0xfadc_aa38),
                    0, 4, 0xd9d4_d039) == 0x7f2e_507b
    ensures Operate(0xfadc_aa38, 0x7f2e_507b, Mix(45, 0x7f2e_507b, 0x4c61_24f4, 0x31c4_65ca),
                    0, 11, 0xe6db_99e5) == 0x99d9_679d
    ensures Operate(0x31c4_65ca, 0x99d9_679d, Mix(46, 0x99d9_679d, 0x7f2e_507b, 0x4c61_24f4),
                    0, 16, 0x1fa2_7cf8) == 0x8fae_6399
    ensures Operate(0x4c61_24f4, 0x8fae_6399, Mix(47, 0x8fae_6399, 0x99d9_679d, 0x7f2e_507b),
                    0, 23, 0xc4ac_5665) == 0x7beb_9700
  {
  }

  lemma After48()
    ensures Steps(INIT, ABC, 48) == Regs(0x7f2e_507b, 0x7beb_9700, 0x8fae_6399, 0x99d9_679d)
  {
    hide *;
    After44();
    Sums44();
    AbcWords();
    ScheduleThreeD();
    Next(44, Regs(0x11de_1779, 0x4c61_24f4, 0x31c4_65ca, 0xfadc_aa38), 9, 4, 0xd9d4_d039);
    Next(45, Regs(0xfadc_aa38, 0x7f2e_507b, 0x4c61_24f4, 0x31c4_65ca), 12, 11, 0xe6db_99e5);
    Next(46, Regs(0x31c4_65ca, 0x99d9_679d, 0x7f2e_507b, 0x4c61_24f4), 15, 16, 0x1fa2_7cf8);
    Next(47, Regs(0x4c61_24f4, 0x8fae_6399, 0x99d9_679d, 0x7f2e_507b), 2, 23, 0xc4ac_5665);
  }

  lemma Sums48()
    ensures Operate(0x7f2e_507b, 0x7beb_9700, Mix(48, 0x7beb_9700, 0x8fae_6399, 0x99d9_679d),
                    0x8063_6261, 6, 0xf429_2244) == 0x7b20_1df8
    ensures Operate(0x99d9_679d, 0x7b20_1df8, Mix(49, 0x7b20_1df8, 0x7beb_9700, 0x8fae_6399),
                    0, 10, 0x432a_ff97) == 0xf4e8_e96e
    ensures Operate(0x8fae_6399, 0xf4e8_e96e, Mix(50, 0xf4e8_e96e, 0x7b20_1df8, 0x7beb_9700),
                    0x0000_0018, 15, 0xab94_23a7) == 0xb298_cefd
    ensures Operate(0x7beb_9700, 0xb298_cefd, Mix(51, 0xb298_cefd, 0xf4e8_e96e, 0x7b20_1df8),
                    0, 21, 0xfc93_a039) == 0x8bf0_25c4
  {
  }

  lemma After52()
    ensures Steps(INIT, ABC, 52) == Regs(0x7b20_1df8, 0x8bf0_25c4, 0xb298_cefd, 0xf4e8_e96e)
  {
    hide *;
    After48();
    Sums48();
    AbcWords();
    ScheduleFourA();
    Next(48, Regs(0x7f2e_507b, 0x7beb_9700, 0x8fae_6399, 0x99d9_679d), 0, 6, 0xf429_2244);
    Next(49, Regs(0x99d9_679d, 0x7b20_1df8, 0x7beb_9700, 0x8fae_6399), 7, 10, 0x432a_ff97);
    Next(50, Regs(0x8fae_6399, 0xf4e8_e96e, 0x7b20_1df8, 0x7beb_9700), 14, 15, 0xab94_23a7);
    Next(51, Regs(0x7beb_9700, 0xb298_cefd, 0xf4e8_e96e, 0x7b20_1df8), 5, 21, 0xfc93_a039);
  }

  lemma Sums52()
    ensures Operate(0x7b20_1df8, 0x8bf0_25c4, Mix(52, 0x8bf0_25c4, 0xb298_cefd, 0xf4e8_e96e),
                    0, 6, 0x655b_59c3) == 0x06cc_5e8a
    ensures Operate(0xf4e8_e96e, 0x06cc_5e8a, Mix(53, 0x06cc_5e8a, 0x8bf0_25c4, 0xb298_cefd),
                    0, 10, 0x8f0c_cc92) == 0x5b0d_97aa
    ensures Operate(0xb298_cefd, 0x5b0d_97aa, Mix(54, 0x5b0d_97aa, 0x06cc_5e8a, 0x8bf0_25c4),
                    0, 15, 0xffef_f47d) == 0x7d63_2dd0
    ensures Operate(0x8bf0_25c4, 0x7d63_2dd0, Mix(55, 0x7d63_2dd0, 0x5b0d_97aa, 0x06cc_5e8a),
                    0, 21, 0x8584_5dd1) == 0x3bfa_2c27
  {
  }

  lemma After56()
    ensures Steps(INIT, ABC, 56) == Regs(0x06cc_5e8a, 0x3bfa_2c27, 0x7d63_2dd0, 0x5b0d_97aa)
  {
    hide *;
    After52();
    Sums52();
    AbcWords();
    ScheduleFourB();
    Next(52, Regs(0x7b20_1df8, 0x8bf0_25c4, 0xb298_cefd, 0xf4e8_e96e), 12, 6, 0x655b_59c3);
    Next(53, Regs(0xf4e8_e96e, 0x06cc_5e8a, 0x8bf0_25c4, 0xb298_cefd), 3, 10, 0x8f0c_cc92);
    Next(54, Regs(0xb298_cefd, 0x5b0d_97aa, 0x06cc_5e8a, 0x8bf0_25c4), 10, 15, 0xffef_f47d);
    Next(55, Regs(0x8bf0_25c4, 0x7d63_2dd0, 0x5b0d_97aa, 0x06cc_5e8a), 1, 21, 0x8584_5dd1);
  }

  lemma Sums56()
    ensures Operate(0x06cc_5e8a, 0x3bfa_2c27, Mix(56, 0x3bfa_2c27, 0x7d63_2dd0, 0x5b0d_97aa),
                    0, 6, 0x6fa8_7e4f) == 0x7f81_cc35
    ensures Operate(0x5b0d_97aa, 0x7f81_cc35, Mix(57, 0x7f81_cc35, 0x3bfa_2c27, 0x7d63_2dd0),
                    0, 10, 0xfe2c_e6e0) == 0x0944_54ab
    ensures Operate(0x7d63_2dd0, 0x0944_54ab, Mix(58, 0x0944_54ab, 0x7f81_cc35, 0x3bfa_2c27),
                    0, 15, 0xa301_4314) == 0x4f9d_be3f
    ensures Operate(0x3bfa_2c27, 0x4f9d_be3f, Mix(59, 0x4f9d_be3f, 0x0944_54ab, 0x7f81_cc35),
                    0, 21, 0x4e08_11a1) == 0x7327_d604
  {
  }

  lemma After60()
    ensures Steps(INIT, ABC, 60) == Regs(0x7f81_cc35, 0x7327_d604, 0x4f9d_be3f, 0x0944_54ab)
  {
    hide *;
    After56();
    Sums56();
    AbcWords();
    ScheduleFourC();
    Next(56, Regs(0x06cc_5e8a, 0x3bfa_2c27, 0x7d63_2dd0, 0x5b0d_97aa), 8, 6, 0x6fa8_7e4f);
    Next(57, Regs(0x5b0d_97aa, 0x7f81_cc35, 0x3bfa_2c27, 0x7d63_2dd0), 15, 10, 0xfe2c_e6e0);
    Next(58, Regs(0x7d63_2dd0, 0x0944_54ab, 0x7f81_cc35, 0x3bfa_2c27), 6, 15, 0xa301_4314);
    Next(59, Regs(0x3bfa_2c27, 0x4f9d_be3f, 0x0944_54ab, 0x7f81_cc35), 13, 21, 0x4e08_11a1);
  }

  lemma Sums60()
    ensures Operate(0x7f81_cc35, 0x7327_d604, Mix(60, 0x7327_d604, 0x4f9d_be3f, 0x0944_54ab),
                    0, 6, 0xf753_7e82) == 0x310a_de8f
    ensures Operate(0x0944_54ab, 0x310a_de8f, Mix(61, 0x310a_de8f, 0x7327_d604, 0x4f9d_be3f),
                    0, 10, 0xbd3a_f235) == 0x624d_8cb2
    ensures Operate(0x4f9d_be3f, 0x624d_8cb2, Mix(62, 0x624d_8cb2, 0x310a_de8f, 0x7327_d604),
                    0, 15, 0x2ad7_d2bb) == 0xe484_b9d8
    ensures Operate(0x7327_d604, 0xe484_b9d8, Mix(63, 0xe484_b9d8, 0x624d_8cb2, 0x310a_de8f),
                    0, 21, 0xeb86_d391) == 0xc082_26b3
  {
  }

  lemma After64()
    ensures Steps(INIT, ABC, 64) == Regs(0x310a_de8f, 0xc082_26b3, 0xe484_b9d8, 0x624d_8cb2)
  {
    hide *;
    After60();
    Sums60();
    AbcWords();
    ScheduleFourD();
    Next(60, Regs(0x7f81_cc35, 0x7327_d604, 0x4f9d_be3f, 0x0944_54ab), 4, 6, 0xf753_7e82);
    Next(61, Regs(0x0944_54ab, 0x310a_de8f, 0x7327_d604, 0x4f9d_be3f), 11, 10, 0xbd3a_f235);
    Next(62, Regs(0x4f9d_be3f, 0x624d_8cb2, 0x310a_de8f, 0x7327_d604), 2, 15, 0x2ad7_d2bb);
    Next(63, Regs(0x7327_d604, 0xe484_b9d8, 0x624d_8cb2, 0x310a_de8f), 9, 21, 0xeb86_d391);
  }

  const MESSAGE: seq<bv8> := [0x61, 0x62, 0x63]

  lemma PaddedMessage()
    ensures Padded(MESSAGE) == MESSAGE + [0x80] + Zeros(52) + [24, 0, 0, 0, 0, 0, 0, 0]
  {
    hide ByteOf;
    TwoBytes();
    assert Padding(3) == [0x80] + Zeros(52);
    assert LengthField(3) == [24, 0, 0, 0, 0, 0, 0, 0];
  }

  lemma TwoBytes()
    ensures ByteOf(24) == 24 && ByteOf(0) == 0
  {
  }

  lemma MessageWords()
    ensures |Padded(MESSAGE)| == BLOCK && Words(Padded(MESSAGE)) == ABC
  {
    hide Padded;
    PaddedMessage();
    AbcWords();
    var p := Padded(MESSAGE);
    assert Word(0x61, 0x62, 0x63, 0x80) == 0x8063_6261 && Word(24, 0, 0, 0) == 0x0000_0018 && Word(0, 0, 0, 0) == 0;
    hide Word;
    forall k | 0 <= k < 16 ensures Words(p)[k] == ABC[k] {
      if k == 0 {
      } else if k == 14 {
      } else {
        assert p[4 * k] == 0 && p[4 * k + 1] == 0 && p[4 * k + 2] == 0 && p[4 * k + 3] == 0;
      }
    }
  }

  lemma OneBlockOnly(p: seq<bv8>)
    requires |p| == BLOCK
    ensures Blocks(INIT, p) == Sum(Steps(INIT, Words(p), 64), INIT)
  {
    hide Steps;
    hide Words;
    assert p[..BLOCK] == p && p[BLOCK..] == [];
    assert Blocks(Block(INIT, p), []) == Block(INIT, p);
  }

  lemma Registers()
    ensures Sum(Regs(0x310a_de8f, 0xc082_26b3, 0xe484_b9d8, 0x624d_8cb2), INIT)
      == Regs(0x9850_0190, 0xb04f_d23c, 0x7d3f_96d6, 0x727f_e128)
  {
  }

  lemma Bytes()
    ensures Output(Regs(0x9850_0190, 0xb04f_d23c, 0x7d3f_96d6, 0x727f_e128))
      == [0x90, 0x01, 0x50, 0x98, 0x3c, 0xd2, 0x4f, 0xb0,
          0xd6, 0x96, 0x3f, 0x7d, 0x28, 0xe1, 0x7f, 0x72]
  {
  }

  /** "abc" */
  lemma Digested()
    ensures Digest(MESSAGE) == [0x90, 0x01, 0x50, 0x98, 0x3c, 0xd2, 0x4f, 0xb0,
                                0xd6, 0x96, 0x3f, 0x7d, 0x28, 0xe1, 0x7f, 0x72]
  {
    hide Padded;
    hide Steps;
    hide Words;
    hide Output;
    hide Sum;
    hide Blocks;
    MessageWords();
    OneBlockOnly(Padded(MESSAGE));
    After64();
    Registers();
    Bytes();
  }
}
