/** The factors of the two periods, 2^23 - 1 = 47 * 178481 and 2^32 - 1 = 3 * 5 * 17 * 257 * 65537, all
    prime. */
module Factors {
  // ----- the factors of 2^23 - 1

  const PERIOD: nat := 8_388_607
  const FACTOR: nat := 178_481

  // Trial division by the odd numbers up to the square root of 178481, in six stretches.
  lemma Trial3(h: nat)
    requires 3 <= h < 73 && h % 2 == 1
    ensures FACTOR % h != 0
  {
  }

  lemma Trial73(h: nat)
    requires 73 <= h < 143 && h % 2 == 1
    ensures FACTOR % h != 0
  {
  }

  lemma Trial143(h: nat)
    requires 143 <= h < 213 && h % 2 == 1
    ensures FACTOR % h != 0
  {
  }

  lemma Trial213(h: nat)
    requires 213 <= h < 283 && h % 2 == 1
    ensures FACTOR % h != 0
  {
  }

  lemma Trial283(h: nat)
    requires 283 <= h < 353 && h % 2 == 1
    ensures FACTOR % h != 0
  {
  }

  lemma Trial353(h: nat)
    requires 353 <= h < 423 && h % 2 == 1
    ensures FACTOR % h != 0
  {
  }

  lemma OddTrial(h: nat)
    requires 3 <= h < 423 && h % 2 == 1
    ensures FACTOR % h != 0
  {
    if h < 73 {
      Trial3(h);
    } else if h < 143 {
      Trial73(h);
    } else if h < 213 {
      Trial143(h);
    } else if h < 283 {
      Trial213(h);
    } else if h < 353 {
      Trial283(h);
    } else {
      Trial353(h);
    }
  }

  lemma {:induction false} Larger(h: nat, a: nat, b: nat)
    requires a < b
    ensures h * a + h <= h * b
    decreases b
  {
    assert h * b == h * (b - 1) + h;
    if a < b - 1 {
      Larger(h, a, b - 1);
    }
  }

  // n = h * e leaves no remainder
  lemma NoRemainder(h: nat, e: nat, n: nat)
    requires h > 0 && h * e == n
    ensures n % h == 0
  {
    var quotient, rest := n / h, n % h;
    assert n == h * quotient + rest && 0 <= rest < h;
    if quotient < e {
      Larger(h, quotient, e);
    } else if e < quotient {
      Larger(h, e, quotient);
    }
  }

  lemma EvenTimes(h: nat, e: nat)
    requires h % 2 == 0
    ensures h * e % 2 == 0
  {
    assert h * e == 2 * (h / 2 * e);
  }

  lemma OddFactor(h: nat, e: nat)
    requires h * e % 2 == 1
    ensures h % 2 == 1
  {
    if h % 2 == 0 {
      EvenTimes(h, e);
    }
  }

  lemma SmallFactor(h: nat, e: nat)
    requires h * e == FACTOR && h < 423
    ensures h == 1
  {
    OddFactor(h, e);
    if h >= 3 {
      OddTrial(h);
      NoRemainder(h, e, FACTOR);
    }
  }

  lemma TooLarge(h: nat, e: nat)
    requires h >= 423 && e >= 423
    ensures h * e > FACTOR
  {
    assert h * e == 423 * 423 + 423 * (e - 423) + (h - 423) * e;
  }

  /** 178481 is prime. */
  lemma FactorPrime(h: nat, e: nat)
    requires h * e == FACTOR
    ensures h == 1 || e == 1
  {
    if h < 423 {
      SmallFactor(h, e);
    } else if e < 423 {
      SmallFactor(e, h);
    } else {
      TooLarge(h, e);
    }
  }

  // ----- primes

  predicate Prime(p: nat) {
    p > 1 && forall r | 1 < r < p :: p % r != 0
  }

  lemma DescendStep(p: nat, r: nat, t: int, q: int, k: nat, m: nat)
    requires r * t == p * q && p == r * k + m
    ensures m * t == p * (t - k * q)
  {
    calc {
      m * t;
      (p - r * k) * t;
      p * t - r * k * t;
      { assert r * k * t == k * (r * t); }
      p * t - k * (p * q);
      { assert k * (p * q) == p * (k * q); }
      p * (t - k * q);
    }
  }

  // p divides r * t and 0 < r < p: Euclid's descent on r reaches 1.
  lemma {:induction false} Descend(p: nat, r: nat, t: int, q: int)
    requires Prime(p) && 0 < r < p && r * t == p * q
    ensures t % p == 0
    decreases r
  {
    if r > 1 {
      var k, m := p / r, p % r;
      DescendStep(p, r, t, q, k, m);
      Descend(p, m, t, t - k * q);
    } else {
      IsMultiple(p, t, q);
    }
  }

  lemma IsMultiple(p: nat, t: int, q: int)
    requires p > 0 && t == p * q
    ensures t % p == 0
  {
    var x := q - t / p;
    assert p * x == t % p by {
      assert t == p * (t / p) + t % p;
      assert p * x == p * q - p * (t / p);
    }
    assert p * -x == -(p * x);
    if x != 0 {
      AtLeastOnce(p, if x > 0 then x else -x);
    }
  }

  lemma AtLeastOnce(p: nat, x: nat)
    requires x > 0
    ensures p * x >= p
  {
    assert p * x == p * (x - 1) + p;
  }

  /** A prime that divides a product divides one of the factors. */
  lemma Euclid(p: nat, g: nat, e: nat, q: nat)
    requires Prime(p) && g * e == p * q
    ensures g % p == 0 || e % p == 0
  {
    var u, r := g / p, g % p;
    if r > 0 {
      assert r * e == p * (q - u * e) by {
        assert g * e == (p * u + r) * e == p * (u * e) + r * e;
      }
      Descend(p, r, e, q - u * e);
    }
  }

  lemma Prime47()
    ensures Prime(47)
  {
  }

  // ----- the factors of 2^32 - 1 = 3 * 5 * 17 * 257 * 65537

  const PERIOD32: nat := 4_294_967_295
  const FERMAT: nat := 65_537

  lemma SmallPrimes()
    ensures Prime(3) && Prime(5) && Prime(17)
  {
  }

  lemma Prime257()
    ensures Prime(257)
  {
  }

  // Trial division by the odd numbers up to the square root of 65537.
  lemma FermatTrial3(h: nat)
    requires 3 <= h < 73 && h % 2 == 1
    ensures FERMAT % h != 0
  {
  }

  lemma FermatTrial73(h: nat)
    requires 73 <= h < 143 && h % 2 == 1
    ensures FERMAT % h != 0
  {
  }

  lemma FermatTrial143(h: nat)
    requires 143 <= h < 213 && h % 2 == 1
    ensures FERMAT % h != 0
  {
  }

  lemma FermatTrial213(h: nat)
    requires 213 <= h < 257 && h % 2 == 1
    ensures FERMAT % h != 0
  {
  }

  lemma SmallFermatFactor(h: nat, e: nat)
    requires h * e == FERMAT && h < 257
    ensures h == 1
  {
    OddFactor(h, e);
    if h >= 3 {
      NoRemainder(h, e, FERMAT);
      if h < 73 {
        FermatTrial3(h);
      } else if h < 143 {
        FermatTrial73(h);
      } else if h < 213 {
        FermatTrial143(h);
      } else {
        FermatTrial213(h);
      }
    }
  }

  lemma FermatTooLarge(h: nat, e: nat)
    requires h >= 257 && e >= 257
    ensures h * e > FERMAT
  {
    assert h * e == 257 * 257 + 257 * (e - 257) + (h - 257) * e;
  }

  lemma FermatFactor(h: nat, e: nat)
    requires h * e == FERMAT
    ensures h == 1 || e == 1
  {
    if h < 257 {
      SmallFermatFactor(h, e);
    } else if e < 257 {
      SmallFermatFactor(e, h);
    } else {
      FermatTooLarge(h, e);
    }
  }

  /** 65537 is prime. */
  lemma FermatPrime()
    ensures Prime(FERMAT)
  {
    forall r | 1 < r < FERMAT ensures FERMAT % r != 0 {
      var e := FERMAT / r;
      assert FERMAT == r * e + FERMAT % r;
      if FERMAT % r == 0 {
        FermatFactor(r, e);
      }
    }
  }

  // A prime factor of the whole that the cofactor lacks is in the other factor.
  lemma Peel(p: nat, g: nat, e: nat, n: nat) returns (h: nat)
    requires Prime(p) && g * e == p * n && e % p != 0
    ensures h * e == n
  {
    Euclid(p, g, e, n);
    h := g / p;
    assert g == p * h;
    assert p * (h * e) == p * n;
    Cancel(p, h * e, n);
  }

  lemma Cancel(p: nat, a: int, b: int)
    requires p > 0 && p * a == p * b
    ensures a == b
  {
    if a != b {
      AtLeastOnce(p, if a > b then a - b else b - a);
    }
  }

  /** A cofactor of the period that no prime factor of it divides is one. */
  lemma OnlyOne(g: nat, e: nat)
    requires g * e == PERIOD32
    requires e % 3 != 0 && e % 5 != 0 && e % 17 != 0 && e % 257 != 0 && e % FERMAT != 0
    ensures e == 1
  {
    SmallPrimes();
    Prime257();
    FermatPrime();
    hide Prime;
    var a := Peel(3, g, e, 1_431_655_765);
    var b := Peel(5, a, e, 286_331_153);
    var c := Peel(17, b, e, 16_843_009);
    var d := Peel(257, c, e, FERMAT);
    var h := Peel(FERMAT, d, e, 1);
    if e > 1 {
      AtLeastOnce(e, h);
    }
  }

  // g * (p * f) and p * n have the same cofactor of p.
  lemma SameCofactor(p: nat, n: nat, g: nat, f: nat)
    requires p > 0 && g * (p * f) == p * n
    ensures f * g == n
  {
    assert g * (p * f) == p * (f * g);
    Cancel(p, f * g, n);
  }
}
