/** The algebra of a Galois shift register, for both registers of src/netpipe.c: its steps are
    multiplications by a fixed element in a ring of polynomials over GF(2). */
module Galois {
  import opened Lfsr

  // Bit-vector operations under names of their own, so that proofs can hide their bodies and
  // reason with the laws below only.
  function Xor(x: bv32, y: bv32): bv32 { x ^ y }

  predicate Odd(c: bv32) { c & 1 == 1 }

  function Half(c: bv32): bv32 { c >> 1 }

  function Double(c: bv32): bv32 { c << 1 }

  // s if c is odd, otherwise 0
  function Select(c: bv32, s: bv32): bv32 { (0 - (c & 1)) & s }

  // The highest bit of a state, and what it turns into when it is shifted out.
  function Top(v: Variant): bv32 { if v.Lfsr23? then 0x40_0000 else 0x8000_0000 }

  function Feedback(v: Variant): bv32 { if v.Lfsr23? then 0x21 else 0xA000_0003 }

  /** The bits of c taken as a polynomial in the backwards map, applied to s. */
  function Mul(v: Variant, c: bv32, s: bv32): bv32
    decreases c
  {
    if c == 0 then 0 else Xor(Select(c, s), Mul(v, Half(c), Back(v, s)))
  }

  function Bits(c: bv32): nat
    decreases c
  {
    if c == 0 then 0 else 1 + Bits(Half(c))
  }

  function BackIter(v: Variant, k: nat, s: bv32): bv32
    decreases k
  {
    if k == 0 then s else Back(v, BackIter(v, k - 1, s))
  }

  // ----- laws of the bit operations

  lemma XorZero(s: bv32)
    ensures Xor(0, s) == s && Xor(s, 0) == s && Xor(s, s) == 0
  {
  }

  lemma XorAssoc(a: bv32, b: bv32, c: bv32)
    ensures Xor(Xor(a, b), c) == Xor(a, Xor(b, c))
  {
  }

  lemma XorComm(a: bv32, b: bv32)
    ensures Xor(a, b) == Xor(b, a)
  {
  }

  lemma XorShuffle(a: bv32, b: bv32, c: bv32, d: bv32)
    ensures Xor(Xor(a, b), Xor(c, d)) == Xor(Xor(a, c), Xor(b, d))
  {
    hide *;
    XorAssoc(a, b, Xor(c, d));
    XorAssoc(b, c, d);
    XorComm(b, c);
    XorAssoc(c, b, d);
    XorAssoc(a, c, Xor(b, d));
  }

  lemma OddXor(c: bv32, d: bv32)
    ensures Odd(Xor(c, d)) <==> Odd(c) != Odd(d)
  {
  }

  lemma HalfXor(c: bv32, d: bv32)
    ensures Half(Xor(c, d)) == Xor(Half(c), Half(d))
  {
  }

  lemma SelectCases(c: bv32, s: bv32)
    ensures Select(c, s) == if Odd(c) then s else 0
  {
    assert c & 1 == 1 ==> 0 - (c & 1) == 0xFFFF_FFFF;
    assert c & 1 != 1 ==> 0 - (c & 1) == 0;
  }

  lemma SelectXor(c: bv32, d: bv32, s: bv32)
    ensures Select(Xor(c, d), s) == Xor(Select(c, s), Select(d, s))
  {
    hide *;
    SelectCases(Xor(c, d), s);
    SelectCases(c, s);
    SelectCases(d, s);
    OddXor(c, d);
    XorZero(s);
    XorZero(0);
  }

  lemma HalfLess(v: Variant, c: bv32)
    ensures c != 0 ==> Bits(Half(c)) < Bits(c)
    ensures Fits(v, c) ==> Fits(v, Half(c))
  {
  }

  lemma BackXor23(x: bv32, y: bv32)
    ensures Back23(Xor(x, y)) == Xor(Back23(x), Back23(y))
  {
  }

  // What lfsr32's backwards map feeds back.
  function Fed32(y: bv32): bv32 { if y >= 0x8000_0000 then 0xA000_0003 else 0 }

  lemma Back32Fed(y: bv32)
    ensures Back32(y) == Xor(Double(y), Fed32(y))
  {
    assert y >> 31 == if y >= 0x8000_0000 then 1 else 0;
  }

  lemma Fed32Xor(x: bv32, y: bv32)
    ensures Fed32(Xor(x, y)) == Xor(Fed32(x), Fed32(y))
  {
    assert Xor(x, y) >= 0x8000_0000 <==> (x >= 0x8000_0000) != (y >= 0x8000_0000);
  }

  lemma DoubleXor(x: bv32, y: bv32)
    ensures Double(Xor(x, y)) == Xor(Double(x), Double(y))
  {
  }

  lemma BackXor32(x: bv32, y: bv32)
    ensures Back32(Xor(x, y)) == Xor(Back32(x), Back32(y))
  {
    hide *;
    Back32Fed(x);
    Back32Fed(y);
    Back32Fed(Xor(x, y));
    Fed32Xor(x, y);
    DoubleXor(x, y);
    XorShuffle(Double(x), Double(y), Fed32(x), Fed32(y));
  }

  lemma BackXor(v: Variant, x: bv32, y: bv32)
    ensures Back(v, Xor(x, y)) == Xor(Back(v, x), Back(v, y))
  {
    hide Back23, Back32, Xor;
    BackXor23(x, y);
    BackXor32(x, y);
  }

  lemma BackZero(v: Variant)
    ensures Back(v, 0) == 0
  {
  }

  lemma BackSelect(v: Variant, c: bv32, s: bv32)
    ensures Back(v, Select(c, s)) == Select(c, Back(v, s))
  {
    hide *;
    SelectCases(c, s);
    SelectCases(c, Back(v, s));
    BackZero(v);
  }

  // A state is its lowest bit plus x times the rest, with nothing fed back.
  lemma SplitLow(v: Variant, s: bv32)
    requires Fits(v, s)
    ensures s == Xor(if Odd(s) then 1 else 0, Back(v, Half(s))) && Fits(v, Half(s))
  {
    hide *;
    HalfLess(v, s);
    HalfTopless(v, s);
    BackDoubles(v, Half(s));
    LowBit(s);
  }

  // Without the top bit the backwards map only shifts.
  predicate Topless(v: Variant, c: bv32) { c & Top(v) == 0 }

  lemma LowBit(s: bv32)
    ensures s == Xor(if Odd(s) then 1 else 0, Double(Half(s)))
  {
  }

  lemma HalfTopless(v: Variant, s: bv32)
    requires Fits(v, s)
    ensures Topless(v, Half(s))
  {
  }

  lemma Doubles23(c: bv32)
    requires c & 0x40_0000 == 0 && c < LIMIT
    ensures Back23(c) == Double(c) && !Odd(Double(c)) && Half(Double(c)) == c
  {
  }

  lemma NothingFed32(c: bv32)
    requires c & 0x8000_0000 == 0
    ensures Fed32(c) == 0
  {
  }

  lemma HalfOfDouble(c: bv32)
    requires c & 0x8000_0000 == 0
    ensures !Odd(Double(c)) && Half(Double(c)) == c
  {
  }

  lemma Doubles32(c: bv32)
    requires c & 0x8000_0000 == 0
    ensures Back32(c) == Double(c) && !Odd(Double(c)) && Half(Double(c)) == c
  {
    hide *;
    Back32Fed(c);
    NothingFed32(c);
    HalfOfDouble(c);
    XorZero(Double(c));
  }

  lemma BackDoubles(v: Variant, c: bv32)
    requires Fits(v, c) && Topless(v, c)
    ensures Back(v, c) == Double(c) && !Odd(Double(c)) && Half(Double(c)) == c
  {
    hide Back23, Back32, Double, Half, Odd;
    if v.Lfsr23? {
      Doubles23(c);
    } else {
      Doubles32(c);
    }
  }

  lemma SplitTop(v: Variant, c: bv32)
    requires Fits(v, c) && !Topless(v, c)
    ensures Fits(v, Xor(c, Top(v))) && Topless(v, Xor(c, Top(v))) && c == Xor(Xor(c, Top(v)), Top(v))
    ensures Back(v, Top(v)) == Feedback(v) && Fits(v, Feedback(v))
  {
  }

  lemma FitsBelow(s: bv32)
    requires s < LIMIT
    ensures Fits(Lfsr23, s)
  {
  }

  lemma AllFit(s: bv32)
    ensures Fits(Lfsr32, s)
  {
  }

  // ----- the backwards map is linear and satisfies its characteristic polynomial

  lemma {:induction false} BackIterXor(v: Variant, k: nat, x: bv32, y: bv32)
    ensures BackIter(v, k, Xor(x, y)) == Xor(BackIter(v, k, x), BackIter(v, k, y))
  {
    hide Xor, Back;
    if k > 0 {
      BackIterXor(v, k - 1, x, y);
      BackXor(v, BackIter(v, k - 1, x), BackIter(v, k - 1, y));
    }
  }

  lemma {:induction false} BackIterShift(v: Variant, k: nat, x: bv32)
    ensures BackIter(v, k, Back(v, x)) == Back(v, BackIter(v, k, x))
  {
    hide Back;
    if k > 0 {
      BackIterShift(v, k - 1, x);
    }
  }

  // ----- polynomials in the backwards map form a commutative ring

  lemma MulOfZero(v: Variant, s: bv32)
    ensures Mul(v, 0, s) == 0
  {
  }

  // Mul unfolds the same way at zero.
  lemma MulUnfold(v: Variant, c: bv32, s: bv32)
    ensures Mul(v, c, s) == Xor(Select(c, s), Mul(v, Half(c), Back(v, s)))
  {
  }

  lemma {:induction false} MulFits(v: Variant, c: bv32, s: bv32)
    requires Fits(v, s)
    ensures Fits(v, Mul(v, c, s))
    decreases Bits(c)
  {
    if c != 0 {
      StepBijective(v, s);
      HalfLess(v, c);
      MulFits(v, Half(c), Back(v, s));
    }
  }

  lemma {:induction false} MulZero(v: Variant, c: bv32)
    ensures Mul(v, c, 0) == 0
    decreases Bits(c)
  {
    if c != 0 {
      HalfLess(v, c);
      MulZero(v, Half(c));
    }
  }

  lemma {:induction false} MulLinear(v: Variant, c: bv32, d: bv32, s: bv32)
    ensures Mul(v, Xor(c, d), s) == Xor(Mul(v, c, s), Mul(v, d, s))
    decreases Bits(c)
  {
    hide *;
    if c == 0 {
      MulOfZero(v, s);
      XorZero(d);
      XorZero(Mul(v, d, s));
    } else {
      HalfLess(v, c);
      MulLinear(v, Half(c), Half(d), Back(v, s));
      MulUnfold(v, Xor(c, d), s);
      MulUnfold(v, c, s);
      MulUnfold(v, d, s);
      SelectXor(c, d, s);
      HalfXor(c, d);
      XorShuffle(Select(c, s), Select(d, s), Mul(v, Half(c), Back(v, s)), Mul(v, Half(d), Back(v, s)));
    }
  }

  lemma {:induction false} MulBack(v: Variant, c: bv32, s: bv32)
    ensures Mul(v, c, Back(v, s)) == Back(v, Mul(v, c, s))
    decreases Bits(c)
  {
    hide *;
    if c == 0 {
      MulOfZero(v, s);
      MulOfZero(v, Back(v, s));
      BackZero(v);
    } else {
      HalfLess(v, c);
      MulUnfold(v, c, s);
      MulUnfold(v, c, Back(v, s));
      MulBack(v, Half(c), Back(v, s));
      BackSelect(v, c, s);
      BackXor(v, Select(c, s), Mul(v, Half(c), Back(v, s)));
    }
  }

  // c is the single bit k
  predicate IsBit(k: nat, c: bv32) {
    if k == 0 then c == 1 else c != 0 && !Odd(c) && IsBit(k - 1, Half(c))
  }

  lemma {:induction false} MulBit(v: Variant, k: nat, c: bv32, s: bv32)
    requires IsBit(k, c)
    ensures Mul(v, c, s) == BackIter(v, k, s)
  {
    hide Mul, Xor, Back, Odd, Half, Select;
    if k == 0 {
      MulOne(v, s);
    } else {
      MulUnfold(v, c, s);
      SelectEven(c, s);
      MulBit(v, k - 1, Half(c), Back(v, s));
      BackIterShift(v, k - 1, s);
      XorZero(Mul(v, Half(c), Back(v, s)));
    }
  }

  lemma MulOne(v: Variant, s: bv32)
    ensures Mul(v, 1, s) == s
  {
  }

  // Any c is c times one.
  lemma {:induction false} MulUnit(v: Variant, c: bv32)
    requires Fits(v, c)
    ensures Mul(v, c, 1) == c
    decreases Bits(c)
  {
    hide *;
    if c == 0 {
      MulOfZero(v, 1);
    } else {
      assert Mul(v, Half(c), 1) == Half(c) by {
        HalfLess(v, c);
        MulUnit(v, Half(c));
      }
      MulUnfold(v, c, 1);
      MulBack(v, Half(c), 1);
      SelectCases(c, 1);
      SplitLow(v, c);
    }
  }

  lemma {:induction false} MulXor(v: Variant, c: bv32, x: bv32, y: bv32)
    ensures Mul(v, c, Xor(x, y)) == Xor(Mul(v, c, x), Mul(v, c, y))
    decreases Bits(c)
  {
    hide *;
    if c == 0 {
      MulOfZero(v, x);
      MulOfZero(v, y);
      MulOfZero(v, Xor(x, y));
      XorZero(0);
    } else {
      HalfLess(v, c);
      MulXor(v, Half(c), Back(v, x), Back(v, y));
      MulUnfold(v, c, x);
      MulUnfold(v, c, y);
      MulUnfold(v, c, Xor(x, y));
      BackXor(v, x, y);
      SelectOfXor(c, x, y);
      XorShuffle(Select(c, x), Select(c, y), Mul(v, Half(c), Back(v, x)), Mul(v, Half(c), Back(v, y)));
    }
  }

  lemma SelectOfXor(c: bv32, x: bv32, y: bv32)
    ensures Select(c, Xor(x, y)) == Xor(Select(c, x), Select(c, y))
  {
    hide *;
    SelectCases(c, Xor(x, y));
    SelectCases(c, x);
    SelectCases(c, y);
    XorZero(0);
  }

  // ----- the characteristic polynomial

  // The feedback and the shifted top bit, which cancel.
  function Residue(v: Variant, s: bv32): bv32 {
    Xor(Mul(v, Feedback(v), s), Back(v, Mul(v, Top(v), s)))
  }

  lemma ResidueXor(v: Variant, x: bv32, y: bv32)
    ensures Residue(v, Xor(x, y)) == Xor(Residue(v, x), Residue(v, y))
  {
    hide Xor, Mul, Back, Top, Feedback;
    MulXor(v, Feedback(v), x, y);
    MulXor(v, Top(v), x, y);
    BackXor(v, Mul(v, Top(v), x), Mul(v, Top(v), y));
    XorShuffle(Mul(v, Feedback(v), x), Mul(v, Feedback(v), y), Back(v, Mul(v, Top(v), x)), Back(v, Mul(v, Top(v), y)));
  }

  lemma ResidueBack(v: Variant, s: bv32)
    ensures Residue(v, Back(v, s)) == Back(v, Residue(v, s))
  {
    hide Xor, Mul, Back, Top, Feedback;
    MulBack(v, Feedback(v), s);
    MulBack(v, Top(v), s);
    BackXor(v, Mul(v, Feedback(v), s), Back(v, Mul(v, Top(v), s)));
  }

  lemma ResidueOfBit(v: Variant)
    ensures Residue(v, 0) == 0 && Residue(v, 1) == 0
  {
    assert Back(v, Top(v)) == Feedback(v) && Fits(v, Top(v)) && Fits(v, Feedback(v));
    hide Xor, Mul, Back, Top, Feedback, Fits;
    MulZero(v, Feedback(v));
    MulZero(v, Top(v));
    BackZero(v);
    MulUnit(v, Feedback(v));
    MulUnit(v, Top(v));
    XorZero(0);
    XorZero(Feedback(v));
  }

  /** The characteristic polynomial of the register annihilates every state. */
  lemma {:induction false} Annihilate(v: Variant, s: bv32)
    requires Fits(v, s)
    ensures Residue(v, s) == 0
    decreases Bits(s)
  {
    hide *;
    if s == 0 {
      ResidueOfBit(v);
    } else {
      assert Residue(v, Half(s)) == 0 by {
        HalfLess(v, s);
        Annihilate(v, Half(s));
      }
      AnnihilateStep(v, s);
    }
  }

  lemma AnnihilateStep(v: Variant, s: bv32)
    requires Fits(v, s) && Residue(v, Half(s)) == 0
    ensures Residue(v, s) == 0
  {
    hide *;
    SplitLow(v, s);
    ResidueOfBit(v);
    ResidueXor(v, if Odd(s) then 1 else 0, Back(v, Half(s)));
    ResidueBack(v, Half(s));
    BackZero(v);
    XorZero(0);
  }

  lemma XorCancels(x: bv32, y: bv32)
    requires Xor(x, y) == 0
    ensures x == y
  {
  }

  lemma FeedbackRule(v: Variant, s: bv32)
    requires Fits(v, s)
    ensures Mul(v, Feedback(v), s) == Back(v, Mul(v, Top(v), s))
  {
    Annihilate(v, s);
    hide Xor, Mul, Back;
    XorCancels(Mul(v, Feedback(v), s), Back(v, Mul(v, Top(v), s)));
  }

  // ----- the product of two polynomials

  lemma MulByDouble(v: Variant, c: bv32, s: bv32)
    requires Fits(v, c) && Topless(v, c)
    ensures Mul(v, Back(v, c), s) == Back(v, Mul(v, c, s))
  {
    hide *;
    BackDoubles(v, c);
    MulUnfold(v, Double(c), s);
    SelectEven(Double(c), s);
    XorZero(Mul(v, c, Back(v, s)));
    MulBack(v, c, s);
  }

  lemma MulByX(v: Variant, c: bv32, s: bv32)
    requires Fits(v, c) && Fits(v, s)
    ensures Mul(v, Back(v, c), s) == Back(v, Mul(v, c, s))
  {
    hide *;
    if Topless(v, c) {
      MulByDouble(v, c, s);
    } else {
      var rest := Xor(c, Top(v));
      SplitTop(v, c);
      BackXor(v, rest, Top(v));
      MulLinear(v, Back(v, rest), Feedback(v), s);
      MulByDouble(v, rest, s);
      FeedbackRule(v, s);
      BackXor(v, Mul(v, rest, s), Mul(v, Top(v), s));
      MulLinear(v, rest, Top(v), s);
    }
  }

  lemma SelectEven(c: bv32, s: bv32)
    requires !Odd(c)
    ensures Select(c, s) == 0
  {
    SelectCases(c, s);
  }

  /** Applying two polynomials in turn is applying their product. */
  lemma {:induction false} MulAssoc(v: Variant, c: bv32, d: bv32, s: bv32)
    requires Fits(v, d) && Fits(v, s)
    ensures Mul(v, c, Mul(v, d, s)) == Mul(v, Mul(v, c, d), s)
    decreases Bits(c)
  {
    hide *;
    if c == 0 {
      MulOfZero(v, Mul(v, d, s));
      MulOfZero(v, d);
      MulOfZero(v, s);
    } else {
      assert Mul(v, Half(c), Mul(v, Back(v, d), s)) == Mul(v, Mul(v, Half(c), Back(v, d)), s) by {
        HalfLess(v, c);
        StepBijective(v, d);
        MulAssoc(v, Half(c), Back(v, d), s);
      }
      MulAssocStep(v, c, d, s);
    }
  }

  lemma MulAssocStep(v: Variant, c: bv32, d: bv32, s: bv32)
    requires Fits(v, d) && Fits(v, s)
    requires Mul(v, Half(c), Mul(v, Back(v, d), s)) == Mul(v, Mul(v, Half(c), Back(v, d)), s)
    ensures Mul(v, c, Mul(v, d, s)) == Mul(v, Mul(v, c, d), s)
  {
    hide *;
    MulUnfold(v, c, Mul(v, d, s));
    MulUnfold(v, c, d);
    MulByX(v, d, s);
    MulLinear(v, Select(c, d), Mul(v, Half(c), Back(v, d)), s);
    SelectMul(v, c, d, s);
  }

  lemma SelectMul(v: Variant, c: bv32, d: bv32, s: bv32)
    ensures Mul(v, Select(c, d), s) == Select(c, Mul(v, d, s))
  {
    hide *;
    SelectCases(c, d);
    SelectCases(c, Mul(v, d, s));
    MulOfZero(v, s);
  }

  // ----- powers of the step

  lemma {:induction false} IterAdd(v: Variant, m: nat, n: nat, x: bv32)
    ensures Iter(v, m + n, x) == Iter(v, m, Iter(v, n, x))
  {
    hide Step;
    if m > 0 {
      IterAdd(v, m - 1, n, x);
    }
  }

  /** Every state makes n steps by one multiplication with c. */
  ghost predicate IsPower(v: Variant, n: nat, c: bv32) {
    Fits(v, c) && forall s: bv32 | Fits(v, s) :: Iter(v, n, s) == Mul(v, c, s)
  }

  lemma PowerAt(v: Variant, n: nat, c: bv32, s: bv32)
    requires IsPower(v, n, c) && Fits(v, s)
    ensures Iter(v, n, s) == Mul(v, c, s)
  {
  }

  lemma ProductAt(v: Variant, m: nat, c: bv32, n: nat, d: bv32, s: bv32)
    requires IsPower(v, m, c) && IsPower(v, n, d) && Fits(v, s)
    requires Fits(v, c) && Fits(v, d)
    ensures Iter(v, m + n, s) == Mul(v, Mul(v, c, d), s)
  {
    hide *;
    IterAdd(v, m, n, s);
    IterFits(v, n, s);
    PowerAt(v, m, c, Iter(v, n, s));
    PowerAt(v, n, d, s);
    MulAssoc(v, c, d, s);
  }

  // Mul computed three bits of c at a time, for products of constants.
  function Eval(v: Variant, k: nat, c: bv32, s: bv32, sum: bv32): bv32
    decreases k
  {
    if k == 0 then Xor(sum, Mul(v, c, s))
    else
      var c1, s1 := Half(c), Back(v, s);
      var c2, s2 := Half(c1), Back(v, s1);
      Eval(v, k - 1, Half(c2), Back(v, s2), Xor(Xor(Xor(sum, Select(c, s)), Select(c1, s1)), Select(c2, s2)))
  }

  lemma EvalOne(v: Variant, c: bv32, s: bv32, sum: bv32)
    ensures Xor(Xor(sum, Select(c, s)), Mul(v, Half(c), Back(v, s))) == Xor(sum, Mul(v, c, s))
  {
    hide Mul, Select, Half, Back, Xor;
    MulUnfold(v, c, s);
    XorAssoc(sum, Select(c, s), Mul(v, Half(c), Back(v, s)));
  }

  lemma {:induction false} EvalIsMul(v: Variant, k: nat, c: bv32, s: bv32, sum: bv32)
    ensures Eval(v, k, c, s, sum) == Xor(sum, Mul(v, c, s))
    decreases k
  {
    hide Mul, Select, Half, Back, Xor;
    if k > 0 {
      var c1, s1 := Half(c), Back(v, s);
      var c2, s2 := Half(c1), Back(v, s1);
      var sum1 := Xor(sum, Select(c, s));
      var sum2 := Xor(sum1, Select(c1, s1));
      EvalOne(v, c, s, sum);
      EvalOne(v, c1, s1, sum1);
      EvalOne(v, c2, s2, sum2);
      EvalIsMul(v, k - 1, Half(c2), Back(v, s2), Xor(sum2, Select(c2, s2)));
    }
  }

  lemma Product(v: Variant, m: nat, c: bv32, n: nat, d: bv32, e: bv32)
    requires IsPower(v, m, c) && IsPower(v, n, d) && Eval(v, 11, c, d, 0) == e
    ensures IsPower(v, m + n, e)
  {
    hide Mul, Iter, Eval, Xor, Fits;
    EvalIsMul(v, 11, c, d, 0);
    XorZero(Mul(v, c, d));
    MulFits(v, c, d);
    forall s: bv32 | Fits(v, s) ensures Iter(v, m + n, s) == Mul(v, e, s) {
      ProductAt(v, m, c, n, d, s);
    }
  }

  // One step is the inverse of x.
  lemma StepIsPower(v: Variant, c: bv32)
    requires Fits(v, c) && Back(v, c) == 1
    ensures IsPower(v, 1, c)
  {
    forall s: bv32 | Fits(v, s) ensures Iter(v, 1, s) == Mul(v, c, s) {
      hide Mul, Back;
      assert Iter(v, 1, s) == Step(v, s);
      hide Step, Fits;
      MulByX(v, c, s);
      MulOne(v, s);
      MulFits(v, c, s);
      StepBijective(v, Mul(v, c, s));
    }
  }

  lemma NoSteps(v: Variant)
    ensures IsPower(v, 0, 1)
  {
    forall s: bv32 | Fits(v, s) ensures Iter(v, 0, s) == Mul(v, 1, s) {
      MulOne(v, s);
    }
  }

  // If two powers of the step agree on a state their difference kills it; an inverse of the
  // difference then leaves only zero.
  lemma AgreeOnlyOnZero(v: Variant, m: nat, c: bv32, n: nat, d: bv32, inverse: bv32, s: bv32)
    requires IsPower(v, m, c) && IsPower(v, n, d) && Fits(v, s) && Iter(v, m, s) == Iter(v, n, s)
    requires Eval(v, 11, inverse, Xor(c, d), 0) == 1 && Fits(v, Xor(c, d))
    ensures s == 0
  {
    assert Mul(v, c, s) == Mul(v, d, s) by {
      hide Mul, Eval, Xor;
      PowerAt(v, m, c, s);
      PowerAt(v, n, d, s);
    }
    hide *;
    EvalIsMul(v, 11, inverse, Xor(c, d), 0);
    XorZero(Mul(v, inverse, Xor(c, d)));
    MulLinear(v, c, d, s);
    XorZero(Mul(v, c, s));
    MulOne(v, s);
    MulAssoc(v, inverse, Xor(c, d), s);
    MulZero(v, inverse);
  }

  lemma NotFixed(v: Variant, n: nat, m: nat, c: bv32, d: bv32, inverse: bv32, s: bv32)
    requires IsPower(v, m + n, c) && IsPower(v, m, d) && Fits(v, s) && s != 0
    requires Eval(v, 11, inverse, Xor(c, d), 0) == 1 && Fits(v, Xor(c, d))
    ensures Iter(v, n, s) != s
  {
    hide IsPower, Eval, Iter, Fits, Xor;
    if Iter(v, n, s) == s {
      IterAdd(v, m, n, s);
      AgreeOnlyOnZero(v, m + n, c, m, d, inverse, s);
    }
  }

  // ----- cycles

  // A state fixed by n steps is fixed by every multiple of n.
  lemma {:induction false} FixedMultiple(v: Variant, n: nat, q: nat, s: bv32)
    requires Iter(v, n, s) == s
    ensures Iter(v, q * n, s) == s
  {
    hide Step;
    if q > 0 {
      FixedMultiple(v, n, q - 1, s);
      IterAdd(v, n, (q - 1) * n, s);
      assert q * n == n + (q - 1) * n;
    }
  }

  lemma FixedDifference(v: Variant, m: nat, n: nat, s: bv32)
    requires Fits(v, s) && n <= m && Iter(v, m, s) == Iter(v, n, s)
    ensures Iter(v, m - n, s) == s
  {
    hide Step, Fits, Iter;
    IterAdd(v, n, m - n, s);
    IterFits(v, m - n, s);
    IterInjective(v, n, Iter(v, m - n, s), s);
  }

  ghost predicate Fixes(v: Variant, k: nat, s: bv32) {
    k > 0 && Iter(v, k, s) == s
  }

  // The smallest positive number of steps that fixes s, searched upwards.
  lemma Least(v: Variant, low: nat, high: nat, s: bv32) returns (g: nat)
    requires 0 < low <= high && Fixes(v, high, s)
    requires forall k | 0 < k < low :: !Fixes(v, k, s)
    ensures Fixes(v, g, s) && g <= high
    ensures forall k | 0 < k < g :: !Fixes(v, k, s)
    decreases high - low
  {
    if Fixes(v, low, s) {
      g := low;
    } else {
      g := Least(v, low + 1, high, s);
    }
  }

  // The least positive fixing number divides every other.
  lemma LeastDivides(v: Variant, g: nat, k: nat, s: bv32)
    requires Fits(v, s) && Fixes(v, g, s) && Iter(v, k, s) == s
    requires forall i | 0 < i < g :: !Fixes(v, i, s)
    ensures k % g == 0
  {
    hide Step;
    var q, r := k / g, k % g;
    assert k == q * g + r;
    FixedMultiple(v, g, q, s);
    FixedDifference(v, k, q * g, s);
    assert !Fixes(v, r, s) || r == 0;
  }

  /** If the period fixes a state and no proper divisor of it does, then exactly its multiples do. */
  lemma LeastPeriod(v: Variant, period: nat, s: bv32, k: nat)
    requires Fits(v, s) && Fixes(v, period, s)
    requires forall g | Fixes(v, g, s) && period % g == 0 :: g == period
    ensures Iter(v, k, s) == s <==> k % period == 0
  {
    hide Step, Iter;
    if k % period == 0 {
      FixedMultiple(v, period, k / period, s);
    }
    if Iter(v, k, s) == s {
      var g := Least(v, 1, period, s);
      LeastDivides(v, g, period, s);
      LeastDivides(v, g, k, s);
    }
  }
}
