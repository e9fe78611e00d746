/** The Galois shift registers behind the test pattern (src/netpipe.c). */
module Lfsr {
  /** What the macro LFSR can name: lfsr23 unless the build selects lfsr32. */
  datatype Variant = Lfsr23 | Lfsr32

  const LIMIT: bv32 := 0x80_0000

  /** The states of a register: the mask of lfsr23 has no bit above 22, so 23-bit states are closed
      under its steps. */
  predicate Fits(v: Variant, x: bv32) { v.Lfsr23? ==> x < LIMIT }

  function Step23(x: bv32): bv32 {
    (x >> 1) ^ ((0 - (x & 1)) & 0x40_0010)
  }

  function Step32(x: bv32): bv32 {
    (x >> 1) ^ ((0 - (x & 1)) & 0xD000_0001)
  }

  /** One call: the new state, which is also the value returned. */
  function Step(v: Variant, x: bv32): bv32 { if v.Lfsr23? then Step23(x) else Step32(x) }

  function Back23(y: bv32): bv32 {
    (y << 1) ^ ((0 - ((y >> 22) & 1)) & 0x80_0021)
  }

  function Back32(y: bv32): bv32 {
    (y << 1) ^ ((0 - (y >> 31)) & 0xA000_0003)
  }

  /** The register run backwards. */
  function Back(v: Variant, y: bv32): bv32 { if v.Lfsr23? then Back23(y) else Back32(y) }

  /** The state after k calls. */
  function Iter(v: Variant, k: nat, x: bv32): bv32
    decreases k
  {
    if k == 0 then x else Step(v, Iter(v, k - 1, x))
  }

  lemma StepRange23(x: bv32)
    requires x < LIMIT
    ensures Step23(x) < LIMIT && Back23(x) < LIMIT
  {
  }

  lemma Back23OfStep23(x: bv32)
    requires x < LIMIT
    ensures Back23(Step23(x)) == x
  {
  }

  lemma Step23OfBack23(x: bv32)
    requires x < LIMIT
    ensures Step23(Back23(x)) == x
  {
  }

  lemma Back32OfStep32(x: bv32)
    ensures Back32(Step32(x)) == x
  {
  }

  lemma Step32OfBack32(x: bv32)
    ensures Step32(Back32(x)) == x
  {
  }

  lemma ZeroStays(v: Variant)
    ensures Step(v, 0) == 0 && Back(v, 0) == 0
  {
  }

  /** Each register is a bijection of its states, and zero is alone on its own cycle. */
  lemma StepBijective(v: Variant, x: bv32)
    requires Fits(v, x)
    ensures Fits(v, Step(v, x)) && Fits(v, Back(v, x))
    ensures Back(v, Step(v, x)) == x && Step(v, Back(v, x)) == x
    ensures Step(v, x) == 0 <==> x == 0
  {
    hide Step23, Back23, Step32, Back32;
    ZeroStays(v);
    if v.Lfsr23? {
      StepRange23(x);
      Back23OfStep23(x);
      Step23OfBack23(x);
    } else {
      Back32OfStep32(x);
      Step32OfBack32(x);
    }
  }

  lemma StepLinear23(x: bv32, y: bv32)
    ensures Step23(x ^ y) == Step23(x) ^ Step23(y)
  {
  }

  lemma StepLinear32(x: bv32, y: bv32)
    ensures Step32(x ^ y) == Step32(x) ^ Step32(y)
  {
  }

  lemma StepLinear(v: Variant, x: bv32, y: bv32)
    ensures Step(v, x ^ y) == Step(v, x) ^ Step(v, y)
  {
    hide Step23, Step32;
    StepLinear23(x, y);
    StepLinear32(x, y);
  }

  lemma {:induction false} IterFits(v: Variant, k: nat, x: bv32)
    requires Fits(v, x)
    ensures Fits(v, Iter(v, k, x))
  {
    hide Step, Fits;
    if k > 0 {
      IterFits(v, k - 1, x);
      StepBijective(v, Iter(v, k - 1, x));
    }
  }

  /** The register never produces zero unless it was seeded with it. */
  lemma {:induction false} IterZero(v: Variant, k: nat, x: bv32)
    requires Fits(v, x)
    ensures Iter(v, k, x) == 0 <==> x == 0
  {
    hide Step, Fits;
    if k > 0 {
      IterZero(v, k - 1, x);
      IterFits(v, k - 1, x);
      StepBijective(v, Iter(v, k - 1, x));
    }
  }

  /** Two runs of the register that meet once were together from the start. */
  lemma {:induction false} IterInjective(v: Variant, k: nat, x: bv32, y: bv32)
    requires Fits(v, x) && Fits(v, y)
    ensures Iter(v, k, x) == Iter(v, k, y) <==> x == y
  {
    hide Step, Fits;
    if k > 0 {
      IterFits(v, k - 1, x);
      IterFits(v, k - 1, y);
      StepBijective(v, Iter(v, k - 1, x));
      StepBijective(v, Iter(v, k - 1, y));
      IterInjective(v, k - 1, x, y);
    }
  }
}
