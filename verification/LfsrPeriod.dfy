/** lfsr23 has one cycle: every nonzero 23-bit seed has least period exactly 2^23 - 1. */
module LfsrPeriod {
  import opened Factors
  import opened Galois
  import opened Lfsr

  /** x^23 + x^5 + 1, the polynomial in the comment of lfsr23, annihilates every state. */
  lemma CommentPolynomial23(s: bv32)
    requires s < LIMIT
    ensures Xor(Xor(s, BackIter(Lfsr23, 5, s)), BackIter(Lfsr23, 23, s)) == 0
  {
    hide *;
    FitsBelow(s);
    Bits23();
    Parts23(s);
    FeedbackRule(Lfsr23, s);
    MulBit(Lfsr23, 22, 0x40_0000, s);
    MulLinear(Lfsr23, 1, 0x20, s);
    MulOne(Lfsr23, s);
    MulBit(Lfsr23, 5, 0x20, s);
    XorZero(BackIter(Lfsr23, 23, s));
  }

  lemma Parts23(s: bv32)
    ensures Top(Lfsr23) == 0x40_0000 && Feedback(Lfsr23) == Xor(1, 0x20)
    ensures BackIter(Lfsr23, 23, s) == Back(Lfsr23, BackIter(Lfsr23, 22, s))
  {
  }

  lemma Bits23()
    ensures IsBit(5, 0x20) && IsBit(22, 0x40_0000)
  {
    assert IsBit(10, 0x400);
    assert IsBit(16, 0x1_0000);
  }

  // ----- powers of the step

  lemma OneStep()
    ensures IsPower(Lfsr23, 1, 0x40_0010)
  {
    assert Back(Lfsr23, 0x40_0010) == 1;
    StepIsPower(Lfsr23, 0x40_0010);
  }

  lemma Squares0()
    ensures IsPower(Lfsr23, 2, 0x20_0008) && IsPower(Lfsr23, 4, 0x8_0002) && IsPower(Lfsr23, 8, 0x10_8004)
  {
    OneStep();
    hide Iter, IsPower;
    assert IsPower(Lfsr23, 2, 0x20_0008) by { Product(Lfsr23, 1, 0x40_0010, 1, 0x40_0010, 0x20_0008); }
    assert IsPower(Lfsr23, 4, 0x8_0002) by { Product(Lfsr23, 2, 0x20_0008, 2, 0x20_0008, 0x8_0002); }
    assert IsPower(Lfsr23, 8, 0x10_8004) by { Product(Lfsr23, 4, 0x8_0002, 4, 0x8_0002, 0x10_8004); }
  }

  lemma Squares3()
    ensures IsPower(Lfsr23, 16, 0x42_1090) && IsPower(Lfsr23, 32, 0x21_484A) && IsPower(Lfsr23, 64, 0x48_5626)
  {
    Squares0();
    hide Iter, IsPower;
    assert IsPower(Lfsr23, 16, 0x42_1090) by { Product(Lfsr23, 8, 0x10_8004, 8, 0x10_8004, 0x42_1090); }
    assert IsPower(Lfsr23, 32, 0x21_484A) by { Product(Lfsr23, 16, 0x42_1090, 16, 0x42_1090, 0x21_484A); }
    assert IsPower(Lfsr23, 64, 0x48_5626) by { Product(Lfsr23, 32, 0x21_484A, 32, 0x21_484A, 0x48_5626); }
  }

  lemma Squares6()
    ensures IsPower(Lfsr23, 128, 0x24_817E) && IsPower(Lfsr23, 256, 0xD_2596) && IsPower(Lfsr23, 512, 0x5_A21C)
  {
    Squares3();
    hide Iter, IsPower;
    assert IsPower(Lfsr23, 128, 0x24_817E) by { Product(Lfsr23, 64, 0x48_5626, 64, 0x48_5626, 0x24_817E); }
    assert IsPower(Lfsr23, 256, 0xD_2596) by { Product(Lfsr23, 128, 0x24_817E, 128, 0x24_817E, 0xD_2596); }
    assert IsPower(Lfsr23, 512, 0x5_A21C) by { Product(Lfsr23, 256, 0xD_2596, 256, 0xD_2596, 0x5_A21C); }
  }

  lemma Squares9()
    ensures IsPower(Lfsr23, 1024, 0x72D8) && IsPower(Lfsr23, 2048, 0x4_542A) && IsPower(Lfsr23, 4096, 0x14_2026)
  {
    Squares6();
    hide Iter, IsPower;
    assert IsPower(Lfsr23, 1024, 0x72D8) by { Product(Lfsr23, 512, 0x5_A21C, 512, 0x5_A21C, 0x72D8); }
    assert IsPower(Lfsr23, 2048, 0x4_542A) by { Product(Lfsr23, 1024, 0x72D8, 1024, 0x72D8, 0x4_542A); }
    assert IsPower(Lfsr23, 4096, 0x14_2026) by { Product(Lfsr23, 2048, 0x4_542A, 2048, 0x4_542A, 0x14_2026); }
  }

  lemma Squares12()
    ensures IsPower(Lfsr23, 8192, 0x46_251C) && IsPower(Lfsr23, 16384, 0x34_2950) && IsPower(Lfsr23, 32768, 0xF_304A)
  {
    Squares9();
    hide Iter, IsPower;
    assert IsPower(Lfsr23, 8192, 0x46_251C) by { Product(Lfsr23, 4096, 0x14_2026, 4096, 0x14_2026, 0x46_251C); }
    assert IsPower(Lfsr23, 16384, 0x34_2950) by { Product(Lfsr23, 8192, 0x46_251C, 8192, 0x46_251C, 0x34_2950); }
    assert IsPower(Lfsr23, 32768, 0xF_304A) by { Product(Lfsr23, 16384, 0x34_2950, 16384, 0x34_2950, 0xF_304A); }
  }

  lemma Squares15()
    ensures IsPower(Lfsr23, 65536, 0x15_FB0E)
    ensures IsPower(Lfsr23, 131072, 0x3_77BE)
    ensures IsPower(Lfsr23, 262144, 0x14_0A3E)
  {
    Squares12();
    hide Iter, IsPower;
    assert IsPower(Lfsr23, 65536, 0x15_FB0E) by { Product(Lfsr23, 32768, 0xF_304A, 32768, 0xF_304A, 0x15_FB0E); }
    assert IsPower(Lfsr23, 131072, 0x3_77BE) by { Product(Lfsr23, 65536, 0x15_FB0E, 65536, 0x15_FB0E, 0x3_77BE); }
    assert IsPower(Lfsr23, 262144, 0x14_0A3E) by { Product(Lfsr23, 131072, 0x3_77BE, 131072, 0x3_77BE, 0x14_0A3E); }
  }

  lemma Squares18()
    ensures IsPower(Lfsr23, 524288, 0x2_2554)
    ensures IsPower(Lfsr23, 1048576, 0x10_1818)
    ensures IsPower(Lfsr23, 2097152, 0x2_0102)
  {
    Squares15();
    hide Iter, IsPower;
    assert IsPower(Lfsr23, 524288, 0x2_2554) by { Product(Lfsr23, 262144, 0x14_0A3E, 262144, 0x14_0A3E, 0x2_2554); }
    assert IsPower(Lfsr23, 1048576, 0x10_1818) by { Product(Lfsr23, 524288, 0x2_2554, 524288, 0x2_2554, 0x10_1818); }
    assert IsPower(Lfsr23, 2097152, 0x2_0102) by {
      Product(Lfsr23, 1048576, 0x10_1818, 1048576, 0x10_1818, 0x2_0102);
    }
  }

  lemma Squares21()
    ensures IsPower(Lfsr23, 4194304, 0x804) && IsPower(Lfsr23, 8388608, 0x40_0010)
  {
    Squares18();
    hide Iter, IsPower;
    assert IsPower(Lfsr23, 4194304, 0x804) by { Product(Lfsr23, 2097152, 0x2_0102, 2097152, 0x2_0102, 0x804); }
    assert IsPower(Lfsr23, 8388608, 0x40_0010) by { Product(Lfsr23, 4194304, 0x804, 4194304, 0x804, 0x40_0010); }
  }

  lemma Power47()
    ensures IsPower(Lfsr23, 47, 0x69_0A58)
  {
    OneStep();
    Squares0();
    Squares3();
    hide Iter, IsPower;
    assert IsPower(Lfsr23, 3, 0x10_0004) by { Product(Lfsr23, 1, 0x40_0010, 2, 0x20_0008, 0x10_0004); }
    assert IsPower(Lfsr23, 7, 0x21_0008) by { Product(Lfsr23, 3, 0x10_0004, 4, 0x8_0002, 0x21_0008); }
    assert IsPower(Lfsr23, 15, 0x4_2101) by { Product(Lfsr23, 7, 0x21_0008, 8, 0x10_8004, 0x4_2101); }
    assert IsPower(Lfsr23, 47, 0x69_0A58) by { Product(Lfsr23, 15, 0x4_2101, 32, 0x21_484A, 0x69_0A58); }
  }

  lemma FactorLow()
    ensures IsPower(Lfsr23, 305, 0x15_3D23)
  {
    OneStep();
    Squares3();
    Squares6();
    hide Iter, IsPower;
    assert IsPower(Lfsr23, 17, 0x21_0848) by { Product(Lfsr23, 1, 0x40_0010, 16, 0x42_1090, 0x21_0848); }
    assert IsPower(Lfsr23, 49, 0x1A_4296) by { Product(Lfsr23, 17, 0x21_0848, 32, 0x21_484A, 0x1A_4296); }
    assert IsPower(Lfsr23, 305, 0x15_3D23) by { Product(Lfsr23, 49, 0x1A_4296, 256, 0xD_2596, 0x15_3D23); }
  }

  lemma FactorMid()
    ensures IsPower(Lfsr23, 14641, 0x62_5257)
  {
    FactorLow();
    Squares9();
    Squares12();
    hide Iter, IsPower;
    assert IsPower(Lfsr23, 2353, 0x52_C5E3) by { Product(Lfsr23, 305, 0x15_3D23, 2048, 0x4_542A, 0x52_C5E3); }
    assert IsPower(Lfsr23, 6449, 0x25_DCFD) by { Product(Lfsr23, 2353, 0x52_C5E3, 4096, 0x14_2026, 0x25_DCFD); }
    assert IsPower(Lfsr23, 14641, 0x62_5257) by { Product(Lfsr23, 6449, 0x25_DCFD, 8192, 0x46_251C, 0x62_5257); }
  }

  lemma PowerFactor()
    ensures IsPower(Lfsr23, FACTOR, 0xA_2261)
  {
    FactorMid();
    Squares12();
    Squares15();
    hide Iter, IsPower;
    assert IsPower(Lfsr23, 47409, 0x39_8B05) by { Product(Lfsr23, 14641, 0x62_5257, 32768, 0xF_304A, 0x39_8B05); }
    assert IsPower(Lfsr23, 178481, 0xA_2261) by { Product(Lfsr23, 47409, 0x39_8B05, 131072, 0x3_77BE, 0xA_2261); }
  }

  // ----- the cycle

  lemma FixedByPeriod(s: bv32)
    requires s < LIMIT
    ensures Iter(Lfsr23, PERIOD, s) == s
  {
    assert Fits(Lfsr23, s);
    hide IsPower, Mul, Iter, Fits;
    OneStep();
    Squares21();
    PowerAt(Lfsr23, 8388608, 0x40_0010, s);
    PowerAt(Lfsr23, 1, 0x40_0010, s);
    FixedDifference(Lfsr23, 8388608, 1, s);
  }

  lemma Inverse47()
    ensures Eval(Lfsr23, 11, 0x1B_8596, Xor(0x69_0A58, 1), 0) == 1 && Fits(Lfsr23, Xor(0x69_0A58, 1))
  {
  }

  lemma NotFixed47(s: bv32)
    requires 0 < s < LIMIT
    ensures Iter(Lfsr23, 47, s) != s
  {
    hide Iter, IsPower, Eval, Fits, Xor, Mul, Back, Half, Select;
    FitsBelow(s);
    Power47();
    NoSteps(Lfsr23);
    Inverse47();
    NotFixed(Lfsr23, 47, 0, 0x69_0A58, 1, 0x1B_8596, s);
  }

  lemma InverseFactor()
    ensures Eval(Lfsr23, 11, 0x19_1239, Xor(0xA_2261, 1), 0) == 1 && Fits(Lfsr23, Xor(0xA_2261, 1))
  {
  }

  lemma NotFixedFactor(s: bv32)
    requires 0 < s < LIMIT
    ensures Iter(Lfsr23, FACTOR, s) != s
  {
    hide Iter, IsPower, Eval, Fits, Xor, Mul, Back, Half, Select;
    FitsBelow(s);
    PowerFactor();
    NoSteps(Lfsr23);
    InverseFactor();
    NotFixed(Lfsr23, FACTOR, 0, 0xA_2261, 1, 0x19_1239, s);
  }

  // A proper divisor of the period would fix s after 47 or after 178481 steps.
  lemma NoShorterPeriod(g: nat, e: nat, s: bv32)
    requires 0 < s < LIMIT && Fixes(Lfsr23, g, s) && g * e == PERIOD
    ensures e == 1
  {
    hide Iter;
    Prime47();
    Euclid(47, g, e, FACTOR);
    if e % 47 == 0 {
      var f := e / 47;
      assert 47 * (f * g) == 47 * FACTOR;
      FixedMultiple(Lfsr23, g, f, s);
        NotFixedFactor(s);
    } else {
      var h := g / 47;
      assert 47 * (h * e) == 47 * FACTOR;
      FactorPrime(h, e);
      if e != 1 {
            NotFixed47(s);
      }
    }
  }

  /** Every nonzero 23-bit seed returns after k steps exactly when k is a multiple of 2^23 - 1:
      the register is maximal, whatever seed lfsrset is given. */
  lemma LeastPeriod23(s: bv32, k: nat)
    requires 0 < s < LIMIT
    ensures Iter(Lfsr23, k, s) == s <==> k % PERIOD == 0
  {
    hide Iter;
    FixedByPeriod(s);
    forall g: nat | Fixes(Lfsr23, g, s) && PERIOD % g == 0 ensures g == PERIOD {
      assert g * (PERIOD / g) == PERIOD;
      NoShorterPeriod(g, PERIOD / g, s);
    }
    LeastPeriod(Lfsr23, PERIOD, s, k);
  }
}
