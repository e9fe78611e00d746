/** lfsr32 has one cycle as well: every nonzero seed has least period exactly 2^32 - 1. */
module Lfsr32Period {
  import opened Factors
  import opened Galois
  import opened Lfsr

  /** x^32 + x^31 + x^29 + x + 1, the polynomial in the comment of lfsr32, annihilates every state. */
  lemma CommentPolynomial32(s: bv32)
    ensures Xor(Xor(Xor(Xor(s, BackIter(Lfsr32, 1, s)), BackIter(Lfsr32, 29, s)), BackIter(Lfsr32, 31, s)),
                BackIter(Lfsr32, 32, s)) == 0
  {
    hide *;
    AllFit(s);
    Bits32();
    Parts32(s);
    FeedbackRule(Lfsr32, s);
    MulBit(Lfsr32, 31, 0x8000_0000, s);
    MulBit(Lfsr32, 29, 0x2000_0000, s);
    MulBit(Lfsr32, 1, 2, s);
    MulOne(Lfsr32, s);
    MulLinear(Lfsr32, 1, 2, s);
    MulLinear(Lfsr32, Xor(1, 2), 0x2000_0000, s);
    MulLinear(Lfsr32, Xor(Xor(1, 2), 0x2000_0000), 0x8000_0000, s);
    XorZero(BackIter(Lfsr32, 32, s));
  }

  lemma Parts32(s: bv32)
    ensures Top(Lfsr32) == 0x8000_0000 && Feedback(Lfsr32) == Xor(Xor(Xor(1, 2), 0x2000_0000), 0x8000_0000)
    ensures BackIter(Lfsr32, 32, s) == Back(Lfsr32, BackIter(Lfsr32, 31, s))
  {
  }

  lemma Bits32()
    ensures IsBit(1, 2) && IsBit(29, 0x2000_0000) && IsBit(31, 0x8000_0000)
  {
    assert IsBit(10, 0x400);
    assert IsBit(20, 0x10_0000);
  }

  // ----- powers of the step

  lemma OneStep()
    ensures IsPower(Lfsr32, 1, 0xD000_0001)
  {
    assert Back(Lfsr32, 0xD000_0001) == 1;
    StepIsPower(Lfsr32, 0xD000_0001);
  }

  lemma Squares0()
    ensures IsPower(Lfsr32, 2, 0xB800_0001) && IsPower(Lfsr32, 4, 0x9600_0001) && IsPower(Lfsr32, 8, 0x9F60_0001)
  {
    OneStep();
    hide Iter, IsPower;
    assert IsPower(Lfsr32, 2, 0xB800_0001) by { Product(Lfsr32, 1, 0xD000_0001, 1, 0xD000_0001, 0xB800_0001); }
    assert IsPower(Lfsr32, 4, 0x9600_0001) by { Product(Lfsr32, 2, 0xB800_0001, 2, 0xB800_0001, 0x9600_0001); }
    assert IsPower(Lfsr32, 8, 0x9F60_0001) by { Product(Lfsr32, 4, 0x9600_0001, 4, 0x9600_0001, 0x9F60_0001); }
  }

  lemma Squares3()
    ensures IsPower(Lfsr32, 16, 0x9FFF_6001) && IsPower(Lfsr32, 32, 0xABFF_FFFE) && IsPower(Lfsr32, 64, 0xE12A_AAAB)
  {
    Squares0();
    hide Iter, IsPower;
    assert IsPower(Lfsr32, 16, 0x9FFF_6001) by { Product(Lfsr32, 8, 0x9F60_0001, 8, 0x9F60_0001, 0x9FFF_6001); }
    assert IsPower(Lfsr32, 32, 0xABFF_FFFE) by { Product(Lfsr32, 16, 0x9FFF_6001, 16, 0x9FFF_6001, 0xABFF_FFFE); }
    assert IsPower(Lfsr32, 64, 0xE12A_AAAB) by { Product(Lfsr32, 32, 0xABFF_FFFE, 32, 0xABFF_FFFE, 0xE12A_AAAB); }
  }

  lemma Squares6()
    ensures IsPower(Lfsr32, 128, 0x37E1_7777)
    ensures IsPower(Lfsr32, 256, 0xDE9E_01FF)
    ensures IsPower(Lfsr32, 512, 0x78B2_6DE7)
  {
    Squares3();
    hide Iter, IsPower;
    assert IsPower(Lfsr32, 128, 0x37E1_7777) by { Product(Lfsr32, 64, 0xE12A_AAAB, 64, 0xE12A_AAAB, 0x37E1_7777); }
    assert IsPower(Lfsr32, 256, 0xDE9E_01FF) by { Product(Lfsr32, 128, 0x37E1_7777, 128, 0x37E1_7777, 0xDE9E_01FF); }
    assert IsPower(Lfsr32, 512, 0x78B2_6DE7) by { Product(Lfsr32, 256, 0xDE9E_01FF, 256, 0xDE9E_01FF, 0x78B2_6DE7); }
  }

  lemma Squares9()
    ensures IsPower(Lfsr32, 1024, 0x1825_2B52)
    ensures IsPower(Lfsr32, 2048, 0x66AC_CB55)
    ensures IsPower(Lfsr32, 4096, 0xFEF6_220D)
  {
    Squares6();
    hide Iter, IsPower;
    assert IsPower(Lfsr32, 1024, 0x1825_2B52) by { Product(Lfsr32, 512, 0x78B2_6DE7, 512, 0x78B2_6DE7, 0x1825_2B52); }
    assert IsPower(Lfsr32, 2048, 0x66AC_CB55) by {
      Product(Lfsr32, 1024, 0x1825_2B52, 1024, 0x1825_2B52, 0x66AC_CB55);
    }
    assert IsPower(Lfsr32, 4096, 0xFEF6_220D) by {
      Product(Lfsr32, 2048, 0x66AC_CB55, 2048, 0x66AC_CB55, 0xFEF6_220D);
    }
  }

  lemma Squares12()
    ensures IsPower(Lfsr32, 8192, 0x3564_B1AD)
    ensures IsPower(Lfsr32, 16384, 0x8E83_1E03)
    ensures IsPower(Lfsr32, 32768, 0xDCDD_4E93)
  {
    Squares9();
    hide Iter, IsPower;
    assert IsPower(Lfsr32, 8192, 0x3564_B1AD) by {
      Product(Lfsr32, 4096, 0xFEF6_220D, 4096, 0xFEF6_220D, 0x3564_B1AD);
    }
    assert IsPower(Lfsr32, 16384, 0x8E83_1E03) by {
      Product(Lfsr32, 8192, 0x3564_B1AD, 8192, 0x3564_B1AD, 0x8E83_1E03);
    }
    assert IsPower(Lfsr32, 32768, 0xDCDD_4E93) by {
      Product(Lfsr32, 16384, 0x8E83_1E03, 16384, 0x8E83_1E03, 0xDCDD_4E93);
    }
  }

  lemma Squares15()
    ensures IsPower(Lfsr32, 65536, 0xC8EE_8D54)
    ensures IsPower(Lfsr32, 131072, 0x3AB8_71A2)
    ensures IsPower(Lfsr32, 262144, 0x5E32_754A)
  {
    Squares12();
    hide Iter, IsPower;
    assert IsPower(Lfsr32, 65536, 0xC8EE_8D54) by {
      Product(Lfsr32, 32768, 0xDCDD_4E93, 32768, 0xDCDD_4E93, 0xC8EE_8D54);
    }
    assert IsPower(Lfsr32, 131072, 0x3AB8_71A2) by {
      Product(Lfsr32, 65536, 0xC8EE_8D54, 65536, 0xC8EE_8D54, 0x3AB8_71A2);
    }
    assert IsPower(Lfsr32, 262144, 0x5E32_754A) by {
      Product(Lfsr32, 131072, 0x3AB8_71A2, 131072, 0x3AB8_71A2, 0x5E32_754A);
    }
  }

  lemma Squares18()
    ensures IsPower(Lfsr32, 524288, 0x5098_C84D)
    ensures IsPower(Lfsr32, 1048576, 0xD57A_FB6A)
    ensures IsPower(Lfsr32, 2097152, 0x8D60_024D)
  {
    Squares15();
    hide Iter, IsPower;
    assert IsPower(Lfsr32, 524288, 0x5098_C84D) by {
      Product(Lfsr32, 262144, 0x5E32_754A, 262144, 0x5E32_754A, 0x5098_C84D);
    }
    assert IsPower(Lfsr32, 1048576, 0xD57A_FB6A) by {
      Product(Lfsr32, 524288, 0x5098_C84D, 524288, 0x5098_C84D, 0xD57A_FB6A);
    }
    assert IsPower(Lfsr32, 2097152, 0x8D60_024D) by {
      Product(Lfsr32, 1048576, 0xD57A_FB6A, 1048576, 0xD57A_FB6A, 0x8D60_024D);
    }
  }

  lemma Squares21()
    ensures IsPower(Lfsr32, 4194304, 0x7D86_4A24)
    ensures IsPower(Lfsr32, 8388608, 0xFC15_4AA2)
    ensures IsPower(Lfsr32, 16777216, 0xE12D_95F2)
  {
    Squares18();
    hide Iter, IsPower;
    assert IsPower(Lfsr32, 4194304, 0x7D86_4A24) by {
      Product(Lfsr32, 2097152, 0x8D60_024D, 2097152, 0x8D60_024D, 0x7D86_4A24);
    }
    assert IsPower(Lfsr32, 8388608, 0xFC15_4AA2) by {
      Product(Lfsr32, 4194304, 0x7D86_4A24, 4194304, 0x7D86_4A24, 0xFC15_4AA2);
    }
    assert IsPower(Lfsr32, 16777216, 0xE12D_95F2) by {
      Product(Lfsr32, 8388608, 0xFC15_4AA2, 8388608, 0xFC15_4AA2, 0xE12D_95F2);
    }
  }

  lemma Squares24()
    ensures IsPower(Lfsr32, 33554432, 0xD2B4_661B)
    ensures IsPower(Lfsr32, 67108864, 0x2C1D_4459)
    ensures IsPower(Lfsr32, 134217728, 0xD979_C02B)
  {
    Squares21();
    hide Iter, IsPower;
    assert IsPower(Lfsr32, 33554432, 0xD2B4_661B) by {
      Product(Lfsr32, 16777216, 0xE12D_95F2, 16777216, 0xE12D_95F2, 0xD2B4_661B);
    }
    assert IsPower(Lfsr32, 67108864, 0x2C1D_4459) by {
      Product(Lfsr32, 33554432, 0xD2B4_661B, 33554432, 0xD2B4_661B, 0x2C1D_4459);
    }
    assert IsPower(Lfsr32, 134217728, 0xD979_C02B) by {
      Product(Lfsr32, 67108864, 0x2C1D_4459, 67108864, 0x2C1D_4459, 0xD979_C02B);
    }
  }

  lemma Squares27()
    ensures IsPower(Lfsr32, 268435456, 0x289F_66AF)
    ensures IsPower(Lfsr32, 536870912, 0x9D5A_4691)
    ensures IsPower(Lfsr32, 1073741824, 0x6FE2_F994)
  {
    Squares24();
    hide Iter, IsPower;
    assert IsPower(Lfsr32, 268435456, 0x289F_66AF) by {
      Product(Lfsr32, 134217728, 0xD979_C02B, 134217728, 0xD979_C02B, 0x289F_66AF);
    }
    assert IsPower(Lfsr32, 536870912, 0x9D5A_4691) by {
      Product(Lfsr32, 268435456, 0x289F_66AF, 268435456, 0x289F_66AF, 0x9D5A_4691);
    }
    assert IsPower(Lfsr32, 1073741824, 0x6FE2_F994) by {
      Product(Lfsr32, 536870912, 0x9D5A_4691, 536870912, 0x9D5A_4691, 0x6FE2_F994);
    }
  }

  lemma Squares30()
    ensures IsPower(Lfsr32, 2147483648, 0xFB6D_1B6C) && IsPower(Lfsr32, 4294967296, 0xD000_0001)
  {
    Squares27();
    hide Iter, IsPower;
    assert IsPower(Lfsr32, 2147483648, 0xFB6D_1B6C) by {
      Product(Lfsr32, 1073741824, 0x6FE2_F994, 1073741824, 0x6FE2_F994, 0xFB6D_1B6C);
    }
    assert IsPower(Lfsr32, 4294967296, 0xD000_0001) by {
      Product(Lfsr32, 2147483648, 0xFB6D_1B6C, 2147483648, 0xFB6D_1B6C, 0xD000_0001);
    }
  }

  lemma Spread()
    ensures IsPower(Lfsr32, 65537, 0x6477_46AA)
    ensures IsPower(Lfsr32, 16777472, 0xFA1D_4A9F)
    ensures IsPower(Lfsr32, 16843009, 0x2ABD_DD73)
  {
    OneStep();
    Squares15();
    Squares6();
    Squares21();
    hide Iter, IsPower;
    assert IsPower(Lfsr32, 65537, 0x6477_46AA) by {
      Product(Lfsr32, 65536, 0xC8EE_8D54, 1, 0xD000_0001, 0x6477_46AA);
    }
    assert IsPower(Lfsr32, 16777472, 0xFA1D_4A9F) by {
      Product(Lfsr32, 16777216, 0xE12D_95F2, 256, 0xDE9E_01FF, 0xFA1D_4A9F);
    }
    assert IsPower(Lfsr32, 16843009, 0x2ABD_DD73) by {
      Product(Lfsr32, 65537, 0x6477_46AA, 16777472, 0xFA1D_4A9F, 0x2ABD_DD73);
    }
  }

  lemma Spread16()
    ensures IsPower(Lfsr32, 269488144, 0x8CA2_ADA2)
  {
    Spread();
    hide Iter, IsPower;
    assert IsPower(Lfsr32, 33686018, 0x5816_CDBD) by {
      Product(Lfsr32, 16843009, 0x2ABD_DD73, 16843009, 0x2ABD_DD73, 0x5816_CDBD);
    }
    assert IsPower(Lfsr32, 67372036, 0x55F6_0996) by {
      Product(Lfsr32, 33686018, 0x5816_CDBD, 33686018, 0x5816_CDBD, 0x55F6_0996);
    }
    assert IsPower(Lfsr32, 134744072, 0x255E_BE74) by {
      Product(Lfsr32, 67372036, 0x55F6_0996, 67372036, 0x55F6_0996, 0x255E_BE74);
    }
    assert IsPower(Lfsr32, 269488144, 0x8CA2_ADA2) by {
      Product(Lfsr32, 134744072, 0x255E_BE74, 134744072, 0x255E_BE74, 0x8CA2_ADA2);
    }
  }

  lemma Ones()
    ensures IsPower(Lfsr32, 286331153, 0xBBB1_C690)
  {
    Spread();
    Spread16();
    hide Iter, IsPower;
    assert IsPower(Lfsr32, 286331153, 0xBBB1_C690) by {
      Product(Lfsr32, 269488144, 0x8CA2_ADA2, 16843009, 0x2ABD_DD73, 0xBBB1_C690);
    }
  }

  lemma Threes()
    ensures IsPower(Lfsr32, 858993459, 0x81C7_1D58)
  {
    Ones();
    hide Iter, IsPower;
    assert IsPower(Lfsr32, 572662306, 0xA61F_70D1) by {
      Product(Lfsr32, 286331153, 0xBBB1_C690, 286331153, 0xBBB1_C690, 0xA61F_70D1);
    }
    assert IsPower(Lfsr32, 858993459, 0x81C7_1D58) by {
      Product(Lfsr32, 572662306, 0xA61F_70D1, 286331153, 0xBBB1_C690, 0x81C7_1D58);
    }
  }

  lemma Fives()
    ensures IsPower(Lfsr32, 1431655765, 0x3A76_DBC9)
  {
    Ones();
    Threes();
    hide Iter, IsPower;
    assert IsPower(Lfsr32, 572662306, 0xA61F_70D1) by {
      Product(Lfsr32, 286331153, 0xBBB1_C690, 286331153, 0xBBB1_C690, 0xA61F_70D1);
    }
    assert IsPower(Lfsr32, 1431655765, 0x3A76_DBC9) by {
      Product(Lfsr32, 858993459, 0x81C7_1D58, 572662306, 0xA61F_70D1, 0x3A76_DBC9);
    }
  }

  // ----- the cycle

  lemma FixedByPeriod32(s: bv32)
    ensures Iter(Lfsr32, PERIOD32, s) == s
  {
    assert Fits(Lfsr32, s);
    hide IsPower, Mul, Iter, Fits;
    OneStep();
    Squares30();
    PowerAt(Lfsr32, 4294967296, 0xD000_0001, s);
    PowerAt(Lfsr32, 1, 0xD000_0001, s);
    FixedDifference(Lfsr32, 4294967296, 1, s);
  }

  lemma Inverse65537()
    ensures Eval(Lfsr32, 11, 0xE4F3_0AFC, Xor(0xC8EE_8D54, 0xD000_0001), 0) == 1
    ensures Fits(Lfsr32, Xor(0xC8EE_8D54, 0xD000_0001))
  {
  }

  lemma NotFixed65537(s: bv32)
    requires s != 0
    ensures Iter(Lfsr32, 65535, s) != s
  {
    hide Iter, IsPower, Eval, Fits, Xor, Mul, Back, Half, Select;
    AllFit(s);
    OneStep();
    Squares15();
    Inverse65537();
    NotFixed(Lfsr32, 65535, 1, 0xC8EE_8D54, 0xD000_0001, 0xE4F3_0AFC, s);
  }

  lemma Inverse257()
    ensures Eval(Lfsr32, 11, 0x8142_6989, Xor(0xFA1D_4A9F, 0x6477_46AA), 0) == 1
    ensures Fits(Lfsr32, Xor(0xFA1D_4A9F, 0x6477_46AA))
  {
  }

  lemma NotFixed257(s: bv32)
    requires s != 0
    ensures Iter(Lfsr32, 16711935, s) != s
  {
    hide Iter, IsPower, Eval, Fits, Xor, Mul, Back, Half, Select;
    AllFit(s);
    Spread();
    Inverse257();
    NotFixed(Lfsr32, 16711935, 65537, 0xFA1D_4A9F, 0x6477_46AA, 0x8142_6989, s);
  }

  lemma Inverse17()
    ensures Eval(Lfsr32, 11, 0x1DAE_B641, Xor(0x8CA2_ADA2, 0x2ABD_DD73), 0) == 1
    ensures Fits(Lfsr32, Xor(0x8CA2_ADA2, 0x2ABD_DD73))
  {
  }

  lemma NotFixed17(s: bv32)
    requires s != 0
    ensures Iter(Lfsr32, 252645135, s) != s
  {
    hide Iter, IsPower, Eval, Fits, Xor, Mul, Back, Half, Select;
    AllFit(s);
    Spread();
    Spread16();
    Inverse17();
    NotFixed(Lfsr32, 252645135, 16843009, 0x8CA2_ADA2, 0x2ABD_DD73, 0x1DAE_B641, s);
  }

  lemma Inverse5()
    ensures Eval(Lfsr32, 11, 0x27D8_6D88, Xor(0x81C7_1D58, 1), 0) == 1
    ensures Fits(Lfsr32, Xor(0x81C7_1D58, 1))
  {
  }

  lemma NotFixed5(s: bv32)
    requires s != 0
    ensures Iter(Lfsr32, 858993459, s) != s
  {
    hide Iter, IsPower, Eval, Fits, Xor, Mul, Back, Half, Select;
    AllFit(s);
    Threes();
    NoSteps(Lfsr32);
    Inverse5();
    NotFixed(Lfsr32, 858993459, 0, 0x81C7_1D58, 1, 0x27D8_6D88, s);
  }

  lemma Inverse3()
    ensures Eval(Lfsr32, 11, 0x3A76_DBC9, Xor(0x3A76_DBC9, 1), 0) == 1
    ensures Fits(Lfsr32, Xor(0x3A76_DBC9, 1))
  {
  }

  lemma NotFixed3(s: bv32)
    requires s != 0
    ensures Iter(Lfsr32, 1431655765, s) != s
  {
    hide Iter, IsPower, Eval, Fits, Xor, Mul, Back, Half, Select;
    AllFit(s);
    Fives();
    NoSteps(Lfsr32);
    Inverse3();
    NotFixed(Lfsr32, 1431655765, 0, 0x3A76_DBC9, 1, 0x3A76_DBC9, s);
  }

  // What e leaves out of the period cannot be a multiple of any of its prime factors.
  lemma NotDivided(p: nat, n: nat, g: nat, e: nat, s: bv32)
    requires p > 0 && p * n == PERIOD32 && g * e == PERIOD32 && Iter(Lfsr32, g, s) == s
    requires Iter(Lfsr32, n, s) != s
    ensures e % p != 0
  {
    hide Iter;
    if e % p == 0 {
      var f := e / p;
      assert e == p * f;
      SameCofactor(p, n, g, f);
      FixedMultiple(Lfsr32, g, f, s);
    }
  }

  // A proper divisor of the period would fix s after a prime cofactor of steps.
  lemma NoShorterPeriod32(g: nat, e: nat, s: bv32)
    requires s != 0 && Fixes(Lfsr32, g, s) && g * e == PERIOD32
    ensures e == 1
  {
    hide Iter;
    NotFixed3(s);
    NotDivided(3, 1431655765, g, e, s);
    NotFixed5(s);
    NotDivided(5, 858993459, g, e, s);
    NotFixed17(s);
    NotDivided(17, 252645135, g, e, s);
    NotFixed257(s);
    NotDivided(257, 16711935, g, e, s);
    NotFixed65537(s);
    NotDivided(65537, 65535, g, e, s);
    OnlyOne(g, e);
  }

  /** Every nonzero seed returns after k steps exactly when k is a multiple of 2^32 - 1. */
  lemma LeastPeriod32(s: bv32, k: nat)
    requires s != 0
    ensures Iter(Lfsr32, k, s) == s <==> k % PERIOD32 == 0
  {
    hide Iter;
    FixedByPeriod32(s);
    forall g: nat | Fixes(Lfsr32, g, s) && PERIOD32 % g == 0 ensures g == PERIOD32 {
      assert g * (PERIOD32 / g) == PERIOD32;
      NoShorterPeriod32(g, PERIOD32 / g, s);
    }
    LeastPeriod(Lfsr32, PERIOD32, s, k);
  }
}
