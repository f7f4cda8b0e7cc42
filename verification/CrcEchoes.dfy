/** The echoes of an inverted byte over the length of a payload, evaluated. */
module CrcEchoes {
  import opened Basics
  import opened Crc32
  import opened CrcErrors

  /** The step without a branch, which is cheaper to evaluate. */
  function MaskStep(c: bv32): bv32 { (c >> 1) ^ (0xEDB8_8320 & (0 - (c & 1))) }

  lemma MaskStepOdd(c: bv32)
    requires c & 1 == 1
    ensures MaskStep(c) == BitStep(c)
  {}

  lemma MaskStepEven(c: bv32)
    requires c & 1 == 0
    ensures MaskStep(c) == BitStep(c)
  {}

  lemma MaskStepIsBitStep(c: bv32)
    ensures MaskStep(c) == BitStep(c)
  {
    LowBit(c);
    if c & 1 == 1 {
      MaskStepOdd(c);
    } else {
      MaskStepEven(c);
    }
  }

  function EightSteps(c: bv32): bv32 {
    MaskStep(MaskStep(MaskStep(MaskStep(MaskStep(MaskStep(MaskStep(MaskStep(c))))))))
  }

  lemma {:induction false} IterateSame<T(!new)>(f: T -> T, g: T -> T, c: T, n: nat)
    requires forall x :: f(x) == g(x)
    ensures Iterate(f, c, n) == Iterate(g, c, n)
    decreases n
  {
    if n > 0 {
      IterateSame(f, g, f(c), n - 1);
    }
  }

  lemma IterateEight<T>(f: T -> T, c: T)
    ensures Iterate(f, c, 8) == f(f(f(f(f(f(f(f(c))))))))
  {
    assert Iterate(f, c, 8) == Iterate(f, f(f(c)), 6);
    assert Iterate(f, f(f(c)), 6) == Iterate(f, f(f(f(f(c)))), 4);
    assert Iterate(f, f(f(f(f(c)))), 4) == Iterate(f, f(f(f(f(f(f(c)))))), 2);
    assert Iterate(f, f(f(f(f(f(f(c)))))), 2) == Iterate(f, f(f(f(f(f(f(f(f(c)))))))), 0);
  }

  lemma CarryIsEightSteps(c: bv32)
    ensures Carry(c) == EightSteps(c)
  {
    forall x ensures BitStep(x) == MaskStep(x) {
      MaskStepIsBitStep(x);
    }
    IterateSame(BitStep, MaskStep, c, 8);
    IterateEight(MaskStep, c);
  }

  /** The n bytes of `data` from index k on bring the register from c to d. */
  predicate Leads(c: bv32, data: seq<byte>, k: nat, n: nat, d: bv32)
    requires k + n <= |data|
    decreases n
  {
    if n == 0 then c == d else Leads(EightSteps(Mix(c, data[k])), data, k + 1, n - 1, d)
  }

  lemma {:induction false} LeadsUpdates(c: bv32, data: seq<byte>, k: nat, n: nat, d: bv32)
    requires k + n <= |data| && Leads(c, data, k, n, d)
    ensures Update(c, data[k..k + n]) == d
    decreases n
  {
    if n > 0 {
      var s, tail := data[k..k + n], data[k + 1..k + 1 + (n - 1)];
      assert s[0] == data[k] && s[1..] == tail;
      CarryIsEightSteps(Mix(c, data[k]));
      LeadsUpdates(EightSteps(Mix(c, data[k])), data, k + 1, n - 1, d);
    }
  }

  /** A top byte that is not 0. */
  predicate Big(c: bv32) { c >= 0x100_0000 }

  /** Six steps lead from a to g over these values, up to the last all big. */
  predicate Six<T(==)>(step: T -> T, big: T -> bool, a: T, b: T, c: T, d: T, e: T, f: T, g: T) {
    && step(a) == b && step(b) == c && step(c) == d && step(d) == e && step(e) == f && step(f) == g
    && big(a) && big(b) && big(c) && big(d) && big(e) && big(f)
  }

  /** `echo` goes on by steps. */
  ghost predicate Follows<T>(echo: nat -> T, step: T -> T) {
    forall k: nat :: echo(k + 1) == step(echo(k))
  }

  /** It has come to d at place n, and from place `from` up to there it was big. */
  ghost predicate Came<T>(echo: nat -> T, big: T -> bool, from: nat, n: nat, d: T) {
    echo(n) == d && forall k: nat :: from <= k < n ==> big(echo(k))
  }

  lemma OneOn<T>(echo: nat -> T, step: T -> T, big: T -> bool, from: nat, n: nat, c: T, d: T)
    requires Follows(echo, step) && Came(echo, big, from, n, c) && step(c) == d && big(c)
    ensures Came(echo, big, from, n + 1, d)
  {
    assert echo(n + 1) == step(echo(n));
  }

  lemma SixCome<T>(echo: nat -> T, step: T -> T, big: T -> bool, from: nat, n: nat,
                   a: T, b: T, c: T, d: T, e: T, f: T, g: T)
    requires Follows(echo, step) && Came(echo, big, from, n, a) && Six(step, big, a, b, c, d, e, f, g)
    ensures Came(echo, big, from, n + 6, g)
  {
    OneOn(echo, step, big, from, n, a, b);
    OneOn(echo, step, big, from, n + 1, b, c);
    OneOn(echo, step, big, from, n + 2, c, d);
    OneOn(echo, step, big, from, n + 3, d, e);
    OneOn(echo, step, big, from, n + 4, e, f);
    OneOn(echo, step, big, from, n + 5, f, g);
  }

  /** The echo is d at place n, and from place `from` up to there its top byte is not 0. */
  ghost predicate Reached(from: nat, n: nat, d: bv32) { Came(Echo, Big, from, n, d) }

  lemma EchoNext(n: nat)
    ensures Echo(n + 1) == Carry(Echo(n))
  {
    IterateNext(Carry, Carry(0xFF), n);
  }

  lemma {:induction false} IterateNext<T>(step: T -> T, c: T, n: nat)
    ensures Iterate(step, c, n + 1) == step(Iterate(step, c, n))
    decreases n
  {
    if n > 0 {
      IterateNext(step, step(c), n - 1);
    }
  }

  lemma EchoFollows()
    ensures Follows(Echo, EightSteps)
  {
    forall k: nat ensures Echo(k + 1) == EightSteps(Echo(k)) {
      EchoNext(k);
      CarryIsEightSteps(Echo(k));
    }
  }

  lemma SixOn(from: nat, n: nat, a: bv32, b: bv32, c: bv32, d: bv32, e: bv32, f: bv32, g: bv32)
    requires Reached(from, n, a) && Six(EightSteps, Big, a, b, c, d, e, f, g)
    ensures Reached(from, n + 6, g)
  {
    EchoFollows();
    SixCome(Echo, EightSteps, Big, from, n, a, b, c, d, e, f, g);
  }

  lemma EchoTo0()
    ensures Reached(0, 0, 0x2D02_EF8D)
  {
    FirstEchoes();
    CarryIsEightSteps(0xFF);
  }

  lemma FirstEchoes()
    ensures EightSteps(0xFF) == 0x2D02_EF8D && EightSteps(0x00CC_7718) == 0x136C_5421
  {}

  lemma WalkTo18()
    ensures Six(EightSteps, Big, 0x2D02_EF8D, 0x9324_FD72, 0xBE98_34ED, 0xDE05_06F1, 0xCA64_C78C, 0xE4C4_ABCC,
                0x9236_4A30)
    ensures Six(EightSteps, Big, 0x9236_4A30, 0x264B_06E6, 0x494F_0C4B, 0xE147_D714, 0x1A3B_93AA, 0x3619_7165,
                0x3DEE_8CA6)
    ensures Six(EightSteps, Big, 0x3DEE_8CA6, 0x3F88_E851, 0x1C53_E98A, 0x0D71_39D7, 0x18BA_364E, 0x917C_D6A1,
                0xA140_EFA8)
  {}

  lemma WalkTo30()
    ensures Six(EightSteps, Big, 0xA140_EFA8, 0xD8AC_6B35, 0x566B_6848, 0x7851_A2CA, 0x7BC9_7A0C, 0x09CD_8551,
                0x1C65_ACE7)
    ensures Six(EightSteps, Big, 0x1C65_ACE7, 0x3E72_1277, 0xCE5F_968D, 0x93C7_A00B, 0x9741_1E28, 0x3522_E9E4,
                0xA752_0488)
  {}

  lemma EchoTo30()
    ensures Reached(0, 30, 0xA752_0488)
  {
    EchoTo0();
    WalkTo18();
    WalkTo30();
    SixOn(0, 0, 0x2D02_EF8D, 0x9324_FD72, 0xBE98_34ED, 0xDE05_06F1, 0xCA64_C78C, 0xE4C4_ABCC, 0x9236_4A30);
    SixOn(0, 6, 0x9236_4A30, 0x264B_06E6, 0x494F_0C4B, 0xE147_D714, 0x1A3B_93AA, 0x3619_7165, 0x3DEE_8CA6);
    SixOn(0, 12, 0x3DEE_8CA6, 0x3F88_E851, 0x1C53_E98A, 0x0D71_39D7, 0x18BA_364E, 0x917C_D6A1, 0xA140_EFA8);
    SixOn(0, 18, 0xA140_EFA8, 0xD8AC_6B35, 0x566B_6848, 0x7851_A2CA, 0x7BC9_7A0C, 0x09CD_8551, 0x1C65_ACE7);
    SixOn(0, 24, 0x1C65_ACE7, 0x3E72_1277, 0xCE5F_968D, 0x93C7_A00B, 0x9741_1E28, 0x3522_E9E4, 0xA752_0488);
  }

  lemma WalkTo48()
    ensures Six(EightSteps, Big, 0xA752_0488, 0xE3C4_5916, 0xF437_7108, 0x0E2F_BF43, 0xEFDB_3F95, 0x808A_BCF4,
                0xBA50_BCB9)
    ensures Six(EightSteps, Big, 0xBA50_BCB9, 0xB207_5B94, 0xF7D0_5006, 0xE994_7565, 0x3D31_01A2, 0x38E5_F3C5,
                0xEB36_D3CC)
    ensures Six(EightSteps, Big, 0xEB36_D3CC, 0x9239_B848, 0x7895_F01A, 0xFD1A_6C8A, 0x0D90_7052, 0x8568_A0A8,
                0xD888_437A)
  {}

  lemma WalkTo60()
    ensures Six(EightSteps, Big, 0xD888_437A, 0xB008_1061, 0x3A05_59DE, 0x6151_FA8A, 0x0D0C_3BC4, 0x9C04_0A92,
                0x1E9D_F662)
    ensures Six(EightSteps, Big, 0x1E9D_F662, 0xA3A2_9D82, 0x0315_4091, 0x870B_B692, 0x1E86_F9DE, 0x6175_792A,
                0xDBDA_BCAF)
  {}

  lemma EchoTo60()
    ensures Reached(0, 60, 0xDBDA_BCAF)
  {
    EchoTo30();
    WalkTo48();
    WalkTo60();
    SixOn(0, 30, 0xA752_0488, 0xE3C4_5916, 0xF437_7108, 0x0E2F_BF43, 0xEFDB_3F95, 0x808A_BCF4, 0xBA50_BCB9);
    SixOn(0, 36, 0xBA50_BCB9, 0xB207_5B94, 0xF7D0_5006, 0xE994_7565, 0x3D31_01A2, 0x38E5_F3C5, 0xEB36_D3CC);
    SixOn(0, 42, 0xEB36_D3CC, 0x9239_B848, 0x7895_F01A, 0xFD1A_6C8A, 0x0D90_7052, 0x8568_A0A8, 0xD888_437A);
    SixOn(0, 48, 0xD888_437A, 0xB008_1061, 0x3A05_59DE, 0x6151_FA8A, 0x0D0C_3BC4, 0x9C04_0A92, 0x1E9D_F662);
    SixOn(0, 54, 0x1E9D_F662, 0xA3A2_9D82, 0x0315_4091, 0x870B_B692, 0x1E86_F9DE, 0x6175_792A, 0xDBDA_BCAF);
  }

  lemma WalkTo78()
    ensures Six(EightSteps, Big, 0xDBDA_BCAF, 0x46B2_64C5, 0xEB48_845B, 0xFC52_C0F8, 0xB39A_28EE, 0x4701_5557,
                0xF548_C502)
    ensures Six(EightSteps, Big, 0xF548_C502, 0xEEFB_29E9, 0xD938_A1F5, 0xCD0E_3E32, 0xC81A_5FBE, 0x2C11_84D4,
                0x8192_0749)
    ensures Six(EightSteps, Big, 0x8192_0749, 0x0F81_6B33, 0xBFDF_E07D, 0x2E0B_D261, 0x3A9B_5A1C, 0x143B_C715,
                0x6DC9_DF2C)
  {}

  lemma WalkTo90()
    ensures Six(EightSteps, Big, 0x6DC9_DF2C, 0x32B5_A53C, 0x2F5D_C922, 0xD54F_1C2D, 0x450A_1369, 0x342B_D3EF,
                0x3081_D43A)
    ensures Six(EightSteps, Big, 0x3081_D43A, 0xC63C_5866, 0xA417_F835, 0x5617_D3DB, 0x1157_1C8F, 0x7D16_C9AD,
                0xA81A_C99C)
  {}

  lemma EchoTo90()
    ensures Reached(0, 90, 0xA81A_C99C)
  {
    EchoTo60();
    WalkTo78();
    WalkTo90();
    SixOn(0, 60, 0xDBDA_BCAF, 0x46B2_64C5, 0xEB48_845B, 0xFC52_C0F8, 0xB39A_28EE, 0x4701_5557, 0xF548_C502);
    SixOn(0, 66, 0xF548_C502, 0xEEFB_29E9, 0xD938_A1F5, 0xCD0E_3E32, 0xC81A_5FBE, 0x2C11_84D4, 0x8192_0749);
    SixOn(0, 72, 0x8192_0749, 0x0F81_6B33, 0xBFDF_E07D, 0x2E0B_D261, 0x3A9B_5A1C, 0x143B_C715, 0x6DC9_DF2C);
    SixOn(0, 78, 0x6DC9_DF2C, 0x32B5_A53C, 0x2F5D_C922, 0xD54F_1C2D, 0x450A_1369, 0x342B_D3EF, 0x3081_D43A);
    SixOn(0, 84, 0x3081_D43A, 0xC63C_5866, 0xA417_F835, 0x5617_D3DB, 0x1157_1C8F, 0x7D16_C9AD, 0xA81A_C99C);
  }

  lemma WalkTo108()
    ensures Six(EightSteps, Big, 0xA81A_C99C, 0xF911_C5A6, 0x3F4C_1718, 0x1353_D441, 0x01C8_22D2, 0x68DC_7BDA,
                0x666E_E7B1)
    ensures Six(EightSteps, Big, 0x666E_E7B1, 0xBC00_EDFD, 0xC3B0_8E4C, 0x7FA9_BD35, 0x56CC_6D9E, 0x17E1_722E,
                0xDCC1_ECBD)
    ensures Six(EightSteps, Big, 0xDCC1_ECBD, 0xB50C_0EDD, 0xF8D7_A267, 0xD32E_2359, 0x1264_C773, 0xC91E_4441,
                0x0112_6F42)
  {}

  lemma WalkTo120()
    ensures Six(EightSteps, Big, 0x0112_6F42, 0x98D3_32D3, 0x1F42_505C, 0x62C2_5F8F, 0x7D65_5CEE, 0x47CF_AA23,
                0xA220_BED8)
    ensures Six(EightSteps, Big, 0xA220_BED8, 0x88AA_7A58, 0x6538_73BC, 0xC2B2_C7D4, 0x817C_A40A, 0xE054_95BA,
                0x2B54_0E07)
  {}

  lemma EchoTo120()
    ensures Reached(0, 120, 0x2B54_0E07)
  {
    EchoTo90();
    WalkTo108();
    WalkTo120();
    SixOn(0, 90, 0xA81A_C99C, 0xF911_C5A6, 0x3F4C_1718, 0x1353_D441, 0x01C8_22D2, 0x68DC_7BDA, 0x666E_E7B1);
    SixOn(0, 96, 0x666E_E7B1, 0xBC00_EDFD, 0xC3B0_8E4C, 0x7FA9_BD35, 0x56CC_6D9E, 0x17E1_722E, 0xDCC1_ECBD);
    SixOn(0, 102, 0xDCC1_ECBD, 0xB50C_0EDD, 0xF8D7_A267, 0xD32E_2359, 0x1264_C773, 0xC91E_4441, 0x0112_6F42);
    SixOn(0, 108, 0x0112_6F42, 0x98D3_32D3, 0x1F42_505C, 0x62C2_5F8F, 0x7D65_5CEE, 0x47CF_AA23, 0xA220_BED8);
    SixOn(0, 114, 0xA220_BED8, 0x88AA_7A58, 0x6538_73BC, 0xC2B2_C7D4, 0x817C_A40A, 0xE054_95BA, 0x2B54_0E07);
  }

  lemma WalkTo138()
    ensures Six(EightSteps, Big, 0x2B54_0E07, 0x9E4F_C1AD, 0xA8F9_9094, 0xF7CA_AECD, 0xE522_74A3, 0x4F3A_D026,
                0xD242_BF2D)
    ensures Six(EightSteps, Big, 0xD242_BF2D, 0x450D_1ECA, 0x7BF4_26B0, 0xCB1A_47AA, 0x36C8_50B1, 0xBC50_4B4A,
                0x96B5_F8C5)
    ensures Six(EightSteps, Big, 0x96B5_F8C5, 0xEB98_83C7, 0x05EB_CF90, 0xF00A_788B, 0x7A9A_50D0, 0x86A9_4884,
                0xEA53_EE71)
  {}

  lemma WalkTo150()
    ensures Six(EightSteps, Big, 0xEA53_EE71, 0x27E8_1244, 0x7196_6D9B, 0x67AC_DCA1, 0xA1B6_3FA2, 0x3879_74FB,
                0x2A57_52E0)
    ensures Six(EightSteps, Big, 0x2A57_52E0, 0xA020_B52A, 0xDB1B_E963, 0xD460_2B0B, 0x9706_B9A3, 0x4F48_F4EB,
                0x3797_7304)
  {}

  lemma EchoTo150()
    ensures Reached(0, 150, 0x3797_7304)
  {
    EchoTo120();
    WalkTo138();
    WalkTo150();
    SixOn(0, 120, 0x2B54_0E07, 0x9E4F_C1AD, 0xA8F9_9094, 0xF7CA_AECD, 0xE522_74A3, 0x4F3A_D026, 0xD242_BF2D);
    SixOn(0, 126, 0xD242_BF2D, 0x450D_1ECA, 0x7BF4_26B0, 0xCB1A_47AA, 0x36C8_50B1, 0xBC50_4B4A, 0x96B5_F8C5);
    SixOn(0, 132, 0x96B5_F8C5, 0xEB98_83C7, 0x05EB_CF90, 0xF00A_788B, 0x7A9A_50D0, 0x86A9_4884, 0xEA53_EE71);
    SixOn(0, 138, 0xEA53_EE71, 0x27E8_1244, 0x7196_6D9B, 0x67AC_DCA1, 0xA1B6_3FA2, 0x3879_74FB, 0x2A57_52E0);
    SixOn(0, 144, 0x2A57_52E0, 0xA020_B52A, 0xDB1B_E963, 0xD460_2B0B, 0x9706_B9A3, 0x4F48_F4EB, 0x3797_7304);
  }

  lemma WalkTo168()
    ensures Six(EightSteps, Big, 0x3797_7304, 0x075A_536A, 0xAD60_D215, 0x6D70_8439, 0x5F68_F88C, 0xE451_A7F3,
                0x2450_F201)
    ensures Six(EightSteps, Big, 0x2450_F201, 0x7723_6064, 0x4AA8_8621, 0x4C23_B8D8, 0x8844_795E, 0x8C5B_388A,
                0x0DE1_3106)
    ensures Six(EightSteps, Big, 0x0DE1_3106, 0xE96E_4404, 0x0784_AA5D, 0x15DD_A9E3, 0x3916_6E6B, 0xDA59_AEBE,
                0x2C03_C725)
  {}

  lemma WalkTo180()
    ensures Six(EightSteps, Big, 0x2C03_C725, 0x4B28_D780, 0xEDF3_ABF7, 0x2334_9414, 0x1AF9_E0E9, 0xD9CC_A33C,
                0x2FB6_B024)
    ensures Six(EightSteps, Big, 0x2FB6_B024, 0x3C2C_5261, 0x3A89_7D9C, 0xF983_5612, 0xF340_F21E, 0xFAFC_7D91,
                0x87F2_5FAF)
  {}

  lemma EchoTo180()
    ensures Reached(0, 180, 0x87F2_5FAF)
  {
    EchoTo150();
    WalkTo168();
    WalkTo180();
    SixOn(0, 150, 0x3797_7304, 0x075A_536A, 0xAD60_D215, 0x6D70_8439, 0x5F68_F88C, 0xE451_A7F3, 0x2450_F201);
    SixOn(0, 156, 0x2450_F201, 0x7723_6064, 0x4AA8_8621, 0x4C23_B8D8, 0x8844_795E, 0x8C5B_388A, 0x0DE1_3106);
    SixOn(0, 162, 0x0DE1_3106, 0xE96E_4404, 0x0784_AA5D, 0x15DD_A9E3, 0x3916_6E6B, 0xDA59_AEBE, 0x2C03_C725);
    SixOn(0, 168, 0x2C03_C725, 0x4B28_D780, 0xEDF3_ABF7, 0x2334_9414, 0x1AF9_E0E9, 0xD9CC_A33C, 0x2FB6_B024);
    SixOn(0, 174, 0x2FB6_B024, 0x3C2C_5261, 0x3A89_7D9C, 0xF983_5612, 0xF340_F21E, 0xFAFC_7D91, 0x87F2_5FAF);
  }

  lemma WalkTo198()
    ensures Six(EightSteps, Big, 0x87F2_5FAF, 0x46EE_4C26, 0xD24B_6BB1, 0xBCB4_C871, 0x27BE_F562, 0xA39B_BE81,
                0x9A1C_2808)
    ensures Six(EightSteps, Big, 0x9A1C_2808, 0x0E41_941A, 0xFD6C_B8EE, 0x474F_A3C7, 0x0547_18B0, 0xCB64_F494,
                0xF7A9_33A9)
    ensures Six(EightSteps, Big, 0xF7A9_33A9, 0xAFFD_B27F, 0xC015_911F, 0x8DC8_1864, 0x4A52_6D59, 0x12FD_BB3D,
                0x587A_B1AA)
  {}

  lemma WalkTo210()
    ensures Six(EightSteps, Big, 0x587A_B1AA, 0x365B_3047, 0xE88E_8F03, 0x99E1_DF35, 0x562A_25FC, 0xB45D_9412,
                0xF30D_2CDC)
    ensures Six(EightSteps, Big, 0xF30D_2CDC, 0x8F96_93D3, 0x1F55_15FD, 0xC313_DBB4, 0xCCCF_644E, 0x91A8_A3F3,
                0x2425_0B05)
  {}

  lemma EchoTo210()
    ensures Reached(0, 210, 0x2425_0B05)
  {
    EchoTo180();
    WalkTo198();
    WalkTo210();
    SixOn(0, 180, 0x87F2_5FAF, 0x46EE_4C26, 0xD24B_6BB1, 0xBCB4_C871, 0x27BE_F562, 0xA39B_BE81, 0x9A1C_2808);
    SixOn(0, 186, 0x9A1C_2808, 0x0E41_941A, 0xFD6C_B8EE, 0x474F_A3C7, 0x0547_18B0, 0xCB64_F494, 0xF7A9_33A9);
    SixOn(0, 192, 0xF7A9_33A9, 0xAFFD_B27F, 0xC015_911F, 0x8DC8_1864, 0x4A52_6D59, 0x12FD_BB3D, 0x587A_B1AA);
    SixOn(0, 198, 0x587A_B1AA, 0x365B_3047, 0xE88E_8F03, 0x99E1_DF35, 0x562A_25FC, 0xB45D_9412, 0xF30D_2CDC);
    SixOn(0, 204, 0xF30D_2CDC, 0x8F96_93D3, 0x1F55_15FD, 0xC313_DBB4, 0xCCCF_644E, 0x91A8_A3F3, 0x2425_0B05);
  }

  lemma WalkTo228()
    ensures Six(EightSteps, Big, 0x2425_0B05, 0x704E_D184, 0xEAA5_09E8, 0xAE3B_CF43, 0xEF7B_2BE5, 0xD08F_6DDC,
                0x8FB5_1192)
    ensures Six(EightSteps, Big, 0x8FB5_1192, 0x1E8E_4779, 0x29C7_47DF, 0x1645_0802, 0xEE18_2424, 0x3CED_FCF5,
                0xCDEB_EB6F)
    ensures Six(EightSteps, Big, 0xCDEB_EB6F, 0xDDC0_9722, 0xD5BD_8173, 0xC9D9_9D07, 0x9EAD_4C3E, 0xC1FF_B0E7,
                0x3EAF_886B)
  {}

  lemma WalkTo240()
    ensures Six(EightSteps, Big, 0x3EAF_886B, 0xDA5E_1758, 0x656A_87D1, 0xF1B1_88C5, 0xEBFF_87B7, 0x55EE_D9A8,
                0xD858_C503)
    ensures Six(EightSteps, Big, 0xD858_C503, 0x99D1_097F, 0xC023_BDA4, 0xD17B_444C, 0x7FBB_76FF, 0x2D7D_54FB,
                0x2A42_56C0)
  {}

  lemma EchoTo240()
    ensures Reached(0, 240, 0x2A42_56C0)
  {
    EchoTo210();
    WalkTo228();
    WalkTo240();
    SixOn(0, 210, 0x2425_0B05, 0x704E_D184, 0xEAA5_09E8, 0xAE3B_CF43, 0xEF7B_2BE5, 0xD08F_6DDC, 0x8FB5_1192);
    SixOn(0, 216, 0x8FB5_1192, 0x1E8E_4779, 0x29C7_47DF, 0x1645_0802, 0xEE18_2424, 0x3CED_FCF5, 0xCDEB_EB6F);
    SixOn(0, 222, 0xCDEB_EB6F, 0xDDC0_9722, 0xD5BD_8173, 0xC9D9_9D07, 0x9EAD_4C3E, 0xC1FF_B0E7, 0x3EAF_886B);
    SixOn(0, 228, 0x3EAF_886B, 0xDA5E_1758, 0x656A_87D1, 0xF1B1_88C5, 0xEBFF_87B7, 0x55EE_D9A8, 0xD858_C503);
    SixOn(0, 234, 0xD858_C503, 0x99D1_097F, 0xC023_BDA4, 0xD17B_444C, 0x7FBB_76FF, 0x2D7D_54FB, 0x2A42_56C0);
  }

  lemma WalkTo258()
    ensures Six(EightSteps, Big, 0x2A42_56C0, 0x9B4E_80E6, 0x49F2_09CD, 0xE59C_4C04, 0x0788_5855, 0x1B06_2D23,
                0xA27C_775F)
    ensures Six(EightSteps, Big, 0xA27C_775F, 0xFB76_3012, 0xF342_0778, 0x5E2D_BB09, 0x7982_951F, 0x8D71_8F60,
                0x4D3F_10D7)
    ensures Six(EightSteps, Big, 0x4D3F_10D7, 0x18FA_7867, 0xD3CE_0E83, 0x7462_1C94, 0xF716_3541, 0x012C_6733,
                0xBFD1_4D71)
  {}

  lemma WalkTo270()
    ensures Six(EightSteps, Big, 0xBFD1_4D71, 0x27BD_90E7, 0x3E49_CA4B, 0xE130_D1D2, 0x683C_8329, 0x42DA_A4EF,
                0x30F7_254D)
    ensures Six(EightSteps, Big, 0x30F7_254D, 0x085D_CA08, 0x0ED3_D5F8, 0xB368_A9FB, 0x2ADC_433D, 0x5842_9052,
                0x853D_7248)
  {}

  lemma EchoTo270()
    ensures Reached(0, 270, 0x853D_7248)
  {
    EchoTo240();
    WalkTo258();
    WalkTo270();
    SixOn(0, 240, 0x2A42_56C0, 0x9B4E_80E6, 0x49F2_09CD, 0xE59C_4C04, 0x0788_5855, 0x1B06_2D23, 0xA27C_775F);
    SixOn(0, 246, 0xA27C_775F, 0xFB76_3012, 0xF342_0778, 0x5E2D_BB09, 0x7982_951F, 0x8D71_8F60, 0x4D3F_10D7);
    SixOn(0, 252, 0x4D3F_10D7, 0x18FA_7867, 0xD3CE_0E83, 0x7462_1C94, 0xF716_3541, 0x012C_6733, 0xBFD1_4D71);
    SixOn(0, 258, 0xBFD1_4D71, 0x27BD_90E7, 0x3E49_CA4B, 0xE130_D1D2, 0x683C_8329, 0x42DA_A4EF, 0x30F7_254D);
    SixOn(0, 264, 0x30F7_254D, 0x085D_CA08, 0x0ED3_D5F8, 0xB368_A9FB, 0x2ADC_433D, 0x5842_9052, 0x853D_7248);
  }

  lemma WalkTo288()
    ensures Six(EightSteps, Big, 0x853D_7248, 0x7882_F4D0, 0x86AB_5020, 0x3BE8_8B98, 0xFEEF_F3FD, 0xC3F2_6152,
                0x85A6_C2B9)
    ensures Six(EightSteps, Big, 0x85A6_C2B9, 0xB238_ADEA, 0x406D_33CB, 0x0CF6_760B, 0x97DE_2FFE, 0x5A92_0134,
                0x21EE_66B4)
    ensures Six(EightSteps, Big, 0x21EE_66B4, 0xCC2D_99F3, 0x2478_8E3F, 0xB642_55B3, 0x52DE_A063, 0xD4E9_EE42,
                0x9806_C952)
  {}

  lemma WalkTo300()
    ensures Six(EightSteps, Big, 0x9806_C952, 0x85FD_3611, 0x6A35_DDC4, 0x9C63_3374, 0x57F4_D616, 0xF483_4187,
                0x7328_95C2)
    ensures Six(EightSteps, Big, 0x7328_95C2, 0x7519_8B09, 0x79A9_A12F, 0xABA8_94F8, 0xB3CD_D2BA, 0x2B07_9740,
                0x76F7_4607)
  {}

  lemma EchoTo300()
    ensures Reached(0, 300, 0x76F7_4607)
  {
    EchoTo270();
    WalkTo288();
    WalkTo300();
    SixOn(0, 270, 0x853D_7248, 0x7882_F4D0, 0x86AB_5020, 0x3BE8_8B98, 0xFEEF_F3FD, 0xC3F2_6152, 0x85A6_C2B9);
    SixOn(0, 276, 0x85A6_C2B9, 0xB238_ADEA, 0x406D_33CB, 0x0CF6_760B, 0x97DE_2FFE, 0x5A92_0134, 0x21EE_66B4);
    SixOn(0, 282, 0x21EE_66B4, 0xCC2D_99F3, 0x2478_8E3F, 0xB642_55B3, 0x52DE_A063, 0xD4E9_EE42, 0x9806_C952);
    SixOn(0, 288, 0x9806_C952, 0x85FD_3611, 0x6A35_DDC4, 0x9C63_3374, 0x57F4_D616, 0xF483_4187, 0x7328_95C2);
    SixOn(0, 294, 0x7328_95C2, 0x7519_8B09, 0x79A9_A12F, 0xABA8_94F8, 0xB3CD_D2BA, 0x2B07_9740, 0x76F7_4607);
  }

  lemma WalkTo318()
    ensures Six(EightSteps, Big, 0x76F7_4607, 0x9E12_62E5, 0xD0FE_0495, 0x80B5_99CF, 0x0B5B_6AB8, 0xC5B1_60D4,
                0x817B_A7AD)
    ensures Six(EightSteps, Big, 0x817B_A7AD, 0xA8E6_A4F2, 0x531B_7594, 0xF731_4C28, 0x3542_99B6, 0x2237_5420,
                0x3B4C_179C)
    ensures Six(EightSteps, Big, 0x3B4C_179C, 0xF982_9378, 0x5E27_7B9D, 0x8EE0_C882, 0x0338_02C4, 0x9C0A_3EAB,
                0x4198_705E)
  {}

  lemma WalkTo330()
    ensures Six(EightSteps, Big, 0x4198_705E, 0x8C92_E483, 0x743D_407E, 0xB7C9_617B, 0xC760_61D5, 0xF67E_463A,
                0xC6FA_A7F4)
    ensures Six(EightSteps, Big, 0xC6FA_A7F4, 0xBA16_CCA2, 0x3862_D408, 0x0EE3_EAE6, 0x4967_A4A7, 0x48FB_51EF,
                0x30FD_04B8)
  {}

  lemma EchoTo330()
    ensures Reached(0, 330, 0x30FD_04B8)
  {
    EchoTo300();
    WalkTo318();
    WalkTo330();
    SixOn(0, 300, 0x76F7_4607, 0x9E12_62E5, 0xD0FE_0495, 0x80B5_99CF, 0x0B5B_6AB8, 0xC5B1_60D4, 0x817B_A7AD);
    SixOn(0, 306, 0x817B_A7AD, 0xA8E6_A4F2, 0x531B_7594, 0xF731_4C28, 0x3542_99B6, 0x2237_5420, 0x3B4C_179C);
    SixOn(0, 312, 0x3B4C_179C, 0xF982_9378, 0x5E27_7B9D, 0x8EE0_C882, 0x0338_02C4, 0x9C0A_3EAB, 0x4198_705E);
    SixOn(0, 318, 0x4198_705E, 0x8C92_E483, 0x743D_407E, 0xB7C9_617B, 0xC760_61D5, 0xF67E_463A, 0xC6FA_A7F4);
    SixOn(0, 324, 0xC6FA_A7F4, 0xBA16_CCA2, 0x3862_D408, 0x0EE3_EAE6, 0x4967_A4A7, 0x48FB_51EF, 0x30FD_04B8);
  }

  lemma WalkTo348()
    ensures Six(EightSteps, Big, 0x30FD_04B8, 0xC58A_C6BA, 0x2B71_D054, 0x6C2D_E43D, 0x5804_61F5, 0xCD8F_02F2,
                0x537E_1C32)
    ensures Six(EightSteps, Big, 0x537E_1C32, 0xC884_2F9C, 0xF971_5B40, 0x7625_30CB, 0x0CC0_3E08, 0x0ED7_480C,
                0x09B8_9B63)
    ensures Six(EightSteps, Big, 0x09B8_9B63, 0xD4B2_8879, 0x290D_7B10, 0x1D9E_1D1F, 0x8D15_93E8, 0xAE5C_7FD9,
                0xFFA1_360F)
  {}

  lemma WalkTo360()
    ensures Six(EightSteps, Big, 0xFFA1_360F, 0x9040_BCA7, 0x4822_76F7, 0x2391_45C9, 0xE29B_EB51, 0x1C8E_FA89,
                0x9478_B57E)
    ensures Six(EightSteps, Big, 0x9478_B57E, 0xB729_248E, 0x0AB7_8703, 0x9903_E63D, 0x58F1_4FF7, 0x2381_96F0,
                0xBD9E_738A)
  {}

  lemma EchoTo360()
    ensures Reached(0, 360, 0xBD9E_738A)
  {
    EchoTo330();
    WalkTo348();
    WalkTo360();
    SixOn(0, 330, 0x30FD_04B8, 0xC58A_C6BA, 0x2B71_D054, 0x6C2D_E43D, 0x5804_61F5, 0xCD8F_02F2, 0x537E_1C32);
    SixOn(0, 336, 0x537E_1C32, 0xC884_2F9C, 0xF971_5B40, 0x7625_30CB, 0x0CC0_3E08, 0x0ED7_480C, 0x09B8_9B63);
    SixOn(0, 342, 0x09B8_9B63, 0xD4B2_8879, 0x290D_7B10, 0x1D9E_1D1F, 0x8D15_93E8, 0xAE5C_7FD9, 0xFFA1_360F);
    SixOn(0, 348, 0xFFA1_360F, 0x9040_BCA7, 0x4822_76F7, 0x2391_45C9, 0xE29B_EB51, 0x1C8E_FA89, 0x9478_B57E);
    SixOn(0, 354, 0x9478_B57E, 0xB729_248E, 0x0AB7_8703, 0x9903_E63D, 0x58F1_4FF7, 0x2381_96F0, 0xBD9E_738A);
  }

  lemma WalkTo378()
    ensures Six(EightSteps, Big, 0xBD9E_738A, 0x0DD0_F44D, 0x0860_EDD9, 0xFF07_0A9D, 0x8E41_E8F3, 0x243A_E24E,
                0x9140_5675)
    ensures Six(EightSteps, Big, 0x9140_5675, 0x20FE_C5E5, 0xD040_E832, 0xC807_1168, 0x43A1_EE7B, 0xC794_095A,
                0x8B79_2CE3)
    ensures Six(EightSteps, Big, 0x8B79_2CE3, 0x3988_CAEE, 0x478B_47B5, 0xBB4C_CC44, 0x710A_C945, 0x06C7_BFD6,
                0x6FB6_B05E)
  {}

  lemma WalkTo390()
    ensures Six(EightSteps, Big, 0x6FB6_B05E, 0x8CBC_CA43, 0xEF59_ACE0, 0xA0E5_BBD4, 0x811E_F376, 0xB9E7_CAFA,
                0x5DD1_FCC8)
    ensures Six(EightSteps, Big, 0x5DD1_FCC8, 0x95E2_9B7E, 0xB728_BEA0, 0xD661_8B56, 0x82DE_954A, 0x968B_761B,
                0x8AF3_429A)
  {}

  lemma EchoTo390()
    ensures Reached(0, 390, 0x8AF3_429A)
  {
    EchoTo360();
    WalkTo378();
    WalkTo390();
    SixOn(0, 360, 0xBD9E_738A, 0x0DD0_F44D, 0x0860_EDD9, 0xFF07_0A9D, 0x8E41_E8F3, 0x243A_E24E, 0x9140_5675);
    SixOn(0, 366, 0x9140_5675, 0x20FE_C5E5, 0xD040_E832, 0xC807_1168, 0x43A1_EE7B, 0xC794_095A, 0x8B79_2CE3);
    SixOn(0, 372, 0x8B79_2CE3, 0x3988_CAEE, 0x478B_47B5, 0xBB4C_CC44, 0x710A_C945, 0x06C7_BFD6, 0x6FB6_B05E);
    SixOn(0, 378, 0x6FB6_B05E, 0x8CBC_CA43, 0xEF59_ACE0, 0xA0E5_BBD4, 0x811E_F376, 0xB9E7_CAFA, 0x5DD1_FCC8);
    SixOn(0, 384, 0x5DD1_FCC8, 0x95E2_9B7E, 0xB728_BEA0, 0xD661_8B56, 0x82DE_954A, 0x968B_761B, 0x8AF3_429A);
  }

  lemma WalkTo402()
    ensures Six(EightSteps, Big, 0x8AF3_429A, 0x1050_8918, 0x137C_C8DF, 0x167F_B38D, 0x931F_802E, 0xDC45_124F,
                0xE6BF_1913)
    ensures Six(EightSteps, Big, 0xE6BF_1913, 0x8458_FEC7, 0x0584_0FED, 0xDEBE_1ACA, 0x7B6F_95B4, 0xCC77_1800,
                0x00CC_7718)
  {}

  lemma EchoTo402()
    ensures Reached(0, 402, 0x00CC_7718)
  {
    EchoTo390();
    WalkTo402();
    SixOn(0, 390, 0x8AF3_429A, 0x1050_8918, 0x137C_C8DF, 0x167F_B38D, 0x931F_802E, 0xDC45_124F, 0xE6BF_1913);
    SixOn(0, 396, 0xE6BF_1913, 0x8458_FEC7, 0x0584_0FED, 0xDEBE_1ACA, 0x7B6F_95B4, 0xCC77_1800, 0x00CC_7718);
  }

  lemma EchoTo403()
    ensures Reached(403, 403, 0x136C_5421)
  {
    EchoTo402();
    EchoNext(402);
    FirstEchoes();
    CarryIsEightSteps(0x00CC_7718);
  }

  lemma WalkTo421()
    ensures Six(EightSteps, Big, 0x136C_5421, 0x4C7A_7C0A, 0xE099_9362, 0xA35C_99E7, 0x3ECD_2B42, 0x98EC_ED97,
                0x6EF3_EA0A)
    ensures Six(EightSteps, Big, 0x6EF3_EA0A, 0xE0BB_1AF4, 0xBA30_8D1F, 0x8DB2_3D78, 0x5E53_4B33, 0xBF8E_325D,
                0x1565_A37B)
    ensures Six(EightSteps, Big, 0x1565_A37B, 0xC7C2_CD17, 0x8314_470A, 0xE056_FD59, 0x1257_BFAD, 0xA875_88EA,
                0x4077_7EEE)
  {}

  lemma WalkTo433()
    ensures Six(EightSteps, Big, 0x4077_7EEE, 0x47F2_B801, 0x7740_C22E, 0xDCA1_4D0D, 0x7E6D_DDF0, 0xBDC3_9FC1,
                0xECDE_31B9)
    ensures Six(EightSteps, Big, 0xECDE_31B9, 0xB251_D519, 0x64D9_F915, 0x6DB9_3D12, 0xF3D4_C875, 0x209C_517B,
                0xC7F7_34E5)
  {}

  lemma EchoTo433()
    ensures Reached(403, 433, 0xC7F7_34E5)
  {
    EchoTo403();
    WalkTo421();
    WalkTo433();
    SixOn(403, 403, 0x136C_5421, 0x4C7A_7C0A, 0xE099_9362, 0xA35C_99E7, 0x3ECD_2B42, 0x98EC_ED97, 0x6EF3_EA0A);
    SixOn(403, 409, 0x6EF3_EA0A, 0xE0BB_1AF4, 0xBA30_8D1F, 0x8DB2_3D78, 0x5E53_4B33, 0xBF8E_325D, 0x1565_A37B);
    SixOn(403, 415, 0x1565_A37B, 0xC7C2_CD17, 0x8314_470A, 0xE056_FD59, 0x1257_BFAD, 0xA875_88EA, 0x4077_7EEE);
    SixOn(403, 421, 0x4077_7EEE, 0x47F2_B801, 0x7740_C22E, 0xDCA1_4D0D, 0x7E6D_DDF0, 0xBDC3_9FC1, 0xECDE_31B9);
    SixOn(403, 427, 0xECDE_31B9, 0xB251_D519, 0x64D9_F915, 0x6DB9_3D12, 0xF3D4_C875, 0x209C_517B, 0xC7F7_34E5);
  }

  lemma WalkTo451()
    ensures Six(EightSteps, Big, 0xC7F7_34E5, 0xD0A7_E1C3, 0x02BD_34EB, 0x37DA_86C4, 0x9C3E_DC2F, 0xAB4D_0385,
                0x9D79_3AAC)
    ensures Six(EightSteps, Big, 0x9D79_3AAC, 0xDFFD_96F9, 0xC4BE_B72E, 0xDC12_B378, 0x5E02_EBBD, 0xB58E_CDDA,
                0x66B3_B507)
    ensures Six(EightSteps, Big, 0x66B3_B507, 0x9E02_2616, 0xF44A_B777, 0xCE95_AE28, 0x357B_3D54, 0x6C33_EED0,
                0x86BF_E13A)
  {}

  lemma WalkTo463()
    ensures Six(EightSteps, Big, 0x86BF_E13A, 0xC68A_6653, 0xF2A4_8A28, 0x3547_0C70, 0x5030_3630, 0x2689_009A,
                0x10FC_F35A)
    ensures Six(EightSteps, Big, 0x10FC_F35A, 0x8BAE_4419, 0x64E0_0684, 0xEAB1_A73F, 0xB68C_9C9A, 0x106C_F6C6,
                0x7217_0B73)
  {}

  lemma EchoTo463()
    ensures Reached(403, 463, 0x7217_0B73)
  {
    EchoTo433();
    WalkTo451();
    WalkTo463();
    SixOn(403, 433, 0xC7F7_34E5, 0xD0A7_E1C3, 0x02BD_34EB, 0x37DA_86C4, 0x9C3E_DC2F, 0xAB4D_0385, 0x9D79_3AAC);
    SixOn(403, 439, 0x9D79_3AAC, 0xDFFD_96F9, 0xC4BE_B72E, 0xDC12_B378, 0x5E02_EBBD, 0xB58E_CDDA, 0x66B3_B507);
    SixOn(403, 445, 0x66B3_B507, 0x9E02_2616, 0xF44A_B777, 0xCE95_AE28, 0x357B_3D54, 0x6C33_EED0, 0x86BF_E13A);
    SixOn(403, 451, 0x86BF_E13A, 0xC68A_6653, 0xF2A4_8A28, 0x3547_0C70, 0x5030_3630, 0x2689_009A, 0x10FC_F35A);
    SixOn(403, 457, 0x10FC_F35A, 0x8BAE_4419, 0x64E0_0684, 0xEAB1_A73F, 0xB68C_9C9A, 0x106C_F6C6, 0x7217_0B73);
  }

  lemma WalkTo481()
    ensures Six(EightSteps, Big, 0x7217_0B73, 0xC97E_378D, 0x93C0_81AA, 0x3690_8A77, 0xCE57_7415, 0x6D13_B39F,
                0x60DD_9D66)
    ensures Six(EightSteps, Big, 0x60DD_9D66, 0xA4B1_19F0, 0xBD19_4305, 0x70D7_EDCC, 0x92A2_5976, 0xB9F4_7650,
                0x6BD2_A582)
    ensures Six(EightSteps, Big, 0x6BD2_A582, 0x03DD_30A9, 0xAF09_C67C, 0x591C_34D1, 0xF18D_FE76, 0xB997_59F7,
                0x2360_F0E6)
  {}

  lemma WalkTo493()
    ensures Six(EightSteps, Big, 0x2360_F0E6, 0x494A_27BD, 0xB599_8516, 0xF461_2CD4, 0x814A_77E1, 0xD78C_9899,
                0x8904_A778)
    ensures Six(EightSteps, Big, 0x8904_A778, 0x5E57_FDA9, 0xAF54_4CB1, 0xBCC9_D756, 0x82B4_3D16, 0xF456_016C,
                0x44F0_7B72)
  {}

  lemma EchoTo493()
    ensures Reached(403, 493, 0x44F0_7B72)
  {
    EchoTo463();
    WalkTo481();
    WalkTo493();
    SixOn(403, 463, 0x7217_0B73, 0xC97E_378D, 0x93C0_81AA, 0x3690_8A77, 0xCE57_7415, 0x6D13_B39F, 0x60DD_9D66);
    SixOn(403, 469, 0x60DD_9D66, 0xA4B1_19F0, 0xBD19_4305, 0x70D7_EDCC, 0x92A2_5976, 0xB9F4_7650, 0x6BD2_A582);
    SixOn(403, 475, 0x6BD2_A582, 0x03DD_30A9, 0xAF09_C67C, 0x591C_34D1, 0xF18D_FE76, 0xB997_59F7, 0x2360_F0E6);
    SixOn(403, 481, 0x2360_F0E6, 0x494A_27BD, 0xB599_8516, 0xF461_2CD4, 0x814A_77E1, 0xD78C_9899, 0x8904_A778);
    SixOn(403, 487, 0x8904_A778, 0x5E57_FDA9, 0xAF54_4CB1, 0xBCC9_D756, 0x82B4_3D16, 0xF456_016C, 0x44F0_7B72);
  }

  lemma WalkTo511()
    ensures Six(EightSteps, Big, 0x44F0_7B72, 0xBE4F_E06B, 0xDADE_F730, 0x2603_EE5B, 0xFC9F_8B92, 0x1EFD_6DE3,
                0x391D_4EAF)
    ensures Six(EightSteps, Big, 0x391D_4EAF, 0x4650_A337, 0xB8FB_F5AC, 0xDFD8_1436, 0xCF65_4D8D, 0x93C6_9AD0,
                0x8640_144E)
    ensures Six(EightSteps, Big, 0x8640_144E, 0x91E2_2C83, 0x7420_30B6, 0x2276_3689, 0x9446_4DB2, 0x25FB_94ED,
                0xDE9E_6551)
  {}

  lemma EchoTo511()
    ensures Reached(403, 511, 0xDE9E_6551)
  {
    EchoTo493();
    WalkTo511();
    SixOn(403, 493, 0x44F0_7B72, 0xBE4F_E06B, 0xDADE_F730, 0x2603_EE5B, 0xFC9F_8B92, 0x1EFD_6DE3, 0x391D_4EAF);
    SixOn(403, 499, 0x391D_4EAF, 0x4650_A337, 0xB8FB_F5AC, 0xDFD8_1436, 0xCF65_4D8D, 0x93C6_9AD0, 0x8640_144E);
    SixOn(403, 505, 0x8640_144E, 0x91E2_2C83, 0x7420_30B6, 0x2276_3689, 0x9446_4DB2, 0x25FB_94ED, 0xDE9E_6551);
  }

  /** Over 511 places the echo has a top byte of 0 at one place only. */
  lemma EchoTopByte(n: nat)
    requires n < 511
    ensures Echo(n) >= 0x100_0000 <==> n != 402
    ensures Echo(402) == 0x00CC_7718
  {
    EchoTo402();
    EchoTo511();
  }

  /** And its top two bytes are never both 0, over 512 places. */
  lemma EchoTopBytes(n: nat)
    requires n < 512
    ensures Echo(n) >= 0x1_0000
  {
    if n < 511 {
      EchoTopByte(n);
    } else {
      EchoTo511();
    }
  }
}
