/** The message sizes: the stateful loop of NPtcp-local (and of NPmpi_atoa, which repeats it)
    against the nested NetPIPE 3 loop it quotes and claims to replace. */
module Schedule {
  import opened Numbers

  // ----- NPtcp-local

  /** The variables that survive a trip of the outer loop; pert0 is pertList[0]. */
  datatype Loop = Loop(n: nat, inc: int, permSize: int, pert0: int, count: nat)

  // Python 2 floors an integer division, as Dafny does for a positive divisor.
  function IncFunc(n: nat, inc: int): int {
    var eighth := inc / 8;
    (if n <= 2 then 2
     else if n <= 5 then 4
     else if n <= 8 then 7
     else if n <= 14 then 8
     else if n % 2 != 0 then eighth + eighth
     else eighth) * 8
  }

  function PertFunc(n: nat, firstPert: int): (pert: seq<int>)
    ensures |pert| == 3
  {
    if n <= 2 then [-8, 0, 8]
    else if n <= 5 then [-16, 0, 16]
    else if n <= 8 then [-8, 0, 24]
    else if n <= 14 then [-16, 0, 24]
    else [firstPert, 0, 24]
  }

  const START: Loop := Loop(0, 0, 0, -1, 1)

  // The counter after the three increments of n that start from n.
  function CountAfter(n: nat, count: nat): nat {
    count + (if n + 1 >= 11 then 1 else 0) + (if n + 2 >= 11 then 1 else 0) + (if n + 3 >= 11 then 1 else 0)
  }

  /** pertList[0] as pertFunc is given it: the two names of the list are one object, so the running
      sum is in place before the new list is made. */
  function FirstPert(s: Loop): int {
    if s.count % 6 == 0 then -s.inc + s.pert0 else s.pert0
  }

  function Trip(s: Loop): Loop {
    var inc := IncFunc(s.n, s.inc);
    Loop(s.n + 3, inc, s.permSize + inc, PertFunc(s.n, FirstPert(s))[0], CountAfter(s.n, s.count))
  }

  function Triple(s: Loop): (sizes: seq<int>)
    ensures |sizes| == 3
  {
    var base := s.permSize + IncFunc(s.n, s.inc);
    var pert := PertFunc(s.n, FirstPert(s));
    [base + pert[0], base + pert[1], base + pert[2]]
  }

  function After(trips: nat): Loop {
    if trips == 0 then START else Trip(After(trips - 1))
  }

  /** The sizes in bits of the first trips of the outer loop. */
  function Sizes(trips: nat): (s: seq<int>)
    ensures |s| == 3 * trips
  {
    if trips == 0 then [] else Sizes(trips - 1) + Triple(After(trips - 1))
  }

  // ----- NetPIPE 3, with len = 1, inc = 1, nq = 0 and the outer step len += inc, nq++

  const PERTURBATION := 3

  datatype Reference = Reference(len: int, inc: int, nq: nat)

  function Grown(r: Reference): int {
    if r.nq > 2 && r.nq % 2 != 0 then r.inc + r.inc else r.inc
  }

  predicate Perturbs(inc: int) { PERTURBATION > 0 && inc > PERTURBATION + 1 }

  /** The inner loop from a value of pert on. */
  function InnerFrom(len: int, inc: int, pert: int): seq<int>
    decreases PERTURBATION - pert + 1
  {
    if pert <= PERTURBATION then
      [len + pert] + InnerFrom(len, inc, pert + if Perturbs(inc) then PERTURBATION else PERTURBATION + 1)
    else []
  }

  function Inner(r: Reference): seq<int> {
    InnerFrom(r.len, Grown(r), if Perturbs(Grown(r)) then -PERTURBATION else 0)
  }

  function ReferenceTrip(r: Reference): Reference {
    Reference(r.len + Grown(r), Grown(r), r.nq + 1)
  }

  function ReferenceAfter(trips: nat): Reference {
    if trips == 0 then Reference(1, 1, 0) else ReferenceTrip(ReferenceAfter(trips - 1))
  }

  /** The sizes in bytes of the first trips of the outer loop. */
  function ReferenceSizes(trips: nat): seq<int> {
    if trips == 0 then [] else ReferenceSizes(trips - 1) + Inner(ReferenceAfter(trips - 1))
  }

  // ----- closed forms

  lemma Early()
    ensures After(3) == Loop(9, 56, 104, -8, 1)
    ensures After(4) == Loop(12, 64, 168, -16, 3)
    ensures After(5) == Loop(15, 64, 232, -16, 6)
  {
    assert After(1) == Loop(3, 16, 16, -8, 1);
    assert After(2) == Loop(6, 32, 48, -16, 1);
  }

  // Powers of two as multiples of one of them.
  lemma Powers(t: nat)
    ensures var p := Pow2(t + 3);
            p == 4 * Pow2(t + 1) && p == 2 * Pow2(t + 2) &&
            Pow2(t + 4) == 2 * p && Pow2(t + 5) == 4 * p && Pow2(t + 6) == 8 * p &&
            Pow2(t + 7) == 16 * p && Pow2(t + 8) == 32 * p && Pow2(t + 9) == 64 * p
  {
    assert Pow2(t + 2) == 2 * Pow2(t + 1);
    assert Pow2(t + 3) == 2 * Pow2(t + 2);
    assert Pow2(t + 4) == 2 * Pow2(t + 3);
    assert Pow2(t + 5) == 2 * Pow2(t + 4);
    assert Pow2(t + 6) == 2 * Pow2(t + 5);
    assert Pow2(t + 7) == 2 * Pow2(t + 6);
    assert Pow2(t + 8) == 2 * Pow2(t + 7);
  }

  // The trip that doubles inc and extends the running perturbation.
  lemma OddTrip(s: Loop, t: nat, p: nat)
    requires s == Loop(15 + 6 * t, 8 * p, 32 * p - 24, 48 - 8 * p, 6 + 6 * t)
    ensures Trip(s) == Loop(18 + 6 * t, 16 * p, 48 * p - 24, 48 - 16 * p, 9 + 6 * t)
    ensures Triple(s) == [32 * p + 24, 48 * p - 24, 48 * p]
  {
    assert s.n % 2 == 1 && s.inc / 8 == p && s.count % 6 == 0;
  }

  lemma EvenParts(s: Loop, t: nat, p: nat)
    requires s == Loop(18 + 6 * t, 16 * p, 48 * p - 24, 48 - 16 * p, 9 + 6 * t)
    ensures IncFunc(s.n, s.inc) == 16 * p && FirstPert(s) == 48 - 16 * p
  {
    Even(9 + 3 * t);
    ThreeBeyond(t + 1);
    Eighth(p);
  }

  lemma Even(x: nat)
    ensures 2 * x % 2 == 0
  {
  }

  lemma ThreeBeyond(x: nat)
    ensures (6 * x + 3) % 6 == 3
  {
  }

  lemma Eighth(p: nat)
    ensures 16 * p / 8 == 2 * p
  {
  }

  // The trip that leaves both alone.
  lemma EvenTrip(s: Loop, t: nat, p: nat)
    requires s == Loop(18 + 6 * t, 16 * p, 48 * p - 24, 48 - 16 * p, 9 + 6 * t)
    ensures Trip(s) == Loop(21 + 6 * t, 16 * p, 64 * p - 24, 48 - 16 * p, 12 + 6 * t)
    ensures Triple(s) == [48 * p + 24, 64 * p - 24, 64 * p]
  {
    hide IncFunc, FirstPert;
    EvenParts(s, t, p);
  }

  lemma AfterNext(k: nat)
    ensures After(k + 1) == Trip(After(k))
  {
  }

  lemma ClosedStart()
    ensures After(5) == Loop(15, Pow2(6), Pow2(8) - 24, 48 - Pow2(6), 6)
  {
    assert Pow2(3) == 8;
    Early();
    Powers(0);
  }

  /** The state of the loop after 5 + 2t trips and after 6 + 2t trips. */
  lemma {:induction false} ClosedForm(t: nat)
    ensures After(5 + 2 * t) == Loop(15 + 6 * t, Pow2(t + 6), Pow2(t + 8) - 24, 48 - Pow2(t + 6), 6 + 6 * t)
    ensures After(6 + 2 * t) == Loop(18 + 6 * t, Pow2(t + 7), 3 * Pow2(t + 7) - 24, 48 - Pow2(t + 7), 9 + 6 * t)
  {
    hide After, Trip, Triple, Pow2;
    Powers(t);
    if t == 0 {
      ClosedStart();
    } else {
      ClosedForm(t - 1);
      Powers(t - 1);
      AfterNext(6 + 2 * (t - 1));
      EvenTrip(After(6 + 2 * (t - 1)), t - 1, Pow2(t - 1 + 3));
    }
    AfterNext(5 + 2 * t);
    OddTrip(After(5 + 2 * t), t, Pow2(t + 3));
  }

  /** Sizes in bits of trips 5 + 2t and 6 + 2t, counted from zero. */
  lemma ClosedTriples(t: nat)
    ensures Triple(After(5 + 2 * t)) == [Pow2(t + 8) + 24, 3 * Pow2(t + 7) - 24, 3 * Pow2(t + 7)]
    ensures Triple(After(6 + 2 * t)) == [3 * Pow2(t + 7) + 24, Pow2(t + 9) - 24, Pow2(t + 9)]
  {
    hide After, Trip, Triple, Pow2;
    Powers(t);
    ClosedForm(t);
    OddTrip(After(5 + 2 * t), t, Pow2(t + 3));
    EvenTrip(After(6 + 2 * t), t, Pow2(t + 3));
  }

  // ----- the reference loop

  lemma ReferenceNext(k: nat)
    ensures ReferenceAfter(k + 1) == ReferenceTrip(ReferenceAfter(k))
  {
  }

  lemma ReferenceEarly()
    ensures ReferenceAfter(1) == Reference(2, 1, 1) && ReferenceAfter(2) == Reference(3, 1, 2)
    ensures ReferenceAfter(3) == Reference(4, 1, 3) && ReferenceAfter(4) == Reference(6, 2, 4)
    ensures ReferenceAfter(5) == Reference(8, 2, 5) && ReferenceAfter(6) == Reference(12, 4, 6)
    ensures ReferenceAfter(7) == Reference(16, 4, 7)
  {
    assert ReferenceAfter(0) == Reference(1, 1, 0);
    hide ReferenceAfter;
    ReferenceNext(0);
    ReferenceNext(1);
    ReferenceNext(2);
    ReferenceNext(3);
    ReferenceNext(4);
    ReferenceNext(5);
    ReferenceNext(6);
  }

  lemma InnerOne(r: Reference)
    requires !Perturbs(Grown(r))
    ensures Inner(r) == [r.len]
  {
    assert InnerFrom(r.len, Grown(r), 4) == [];
  }

  lemma InnerThree(r: Reference)
    requires Perturbs(Grown(r))
    ensures Inner(r) == [r.len - 3, r.len, r.len + 3]
  {
    assert InnerFrom(r.len, Grown(r), 6) == [];
    assert InnerFrom(r.len, Grown(r), 3) == [r.len + 3];
    assert InnerFrom(r.len, Grown(r), 0) == [r.len, r.len + 3];
  }

  // A trip before any perturbation adds one size.
  lemma ReferenceOne(k: nat, before: seq<int>, len: int)
    requires ReferenceSizes(k) == before && Inner(ReferenceAfter(k)) == [len]
    ensures ReferenceSizes(k + 1) == before + [len]
  {
    hide ReferenceAfter, Inner;
    SizesNext(k);
  }

  lemma EarlyInner()
    ensures Inner(ReferenceAfter(0)) == [1] && Inner(ReferenceAfter(1)) == [2] && Inner(ReferenceAfter(2)) == [3]
    ensures Inner(ReferenceAfter(3)) == [4] && Inner(ReferenceAfter(4)) == [6] && Inner(ReferenceAfter(5)) == [8]
    ensures Inner(ReferenceAfter(6)) == [12]
  {
    ReferenceZero();
    hide ReferenceAfter, Inner;
    ReferenceEarly();
    InnerOne(ReferenceAfter(0));
    InnerOne(ReferenceAfter(1));
    InnerOne(ReferenceAfter(2));
    InnerOne(ReferenceAfter(3));
    InnerOne(ReferenceAfter(4));
    InnerOne(ReferenceAfter(5));
    InnerOne(ReferenceAfter(6));
  }

  lemma ReferenceZero()
    ensures ReferenceAfter(0) == Reference(1, 1, 0) && ReferenceSizes(0) == []
  {
  }

  lemma ReferenceStart()
    ensures ReferenceSizes(7) == [1, 2, 3, 4, 6, 8, 12]
  {
    hide ReferenceAfter, ReferenceSizes, Inner;
    ReferenceZero();
    EarlyInner();
    ReferenceOne(0, [], 1);
    ReferenceOne(1, [1], 2);
    ReferenceOne(2, [1, 2], 3);
    ReferenceOne(3, [1, 2, 3], 4);
    ReferenceOne(4, [1, 2, 3, 4], 6);
    ReferenceOne(5, [1, 2, 3, 4, 6], 8);
    ReferenceOne(6, [1, 2, 3, 4, 6, 8], 12);
  }

  lemma ReferencePair(r: Reference, u: nat, p: nat)
    requires r == Reference(16 * p, 4 * p, 7 + 2 * u)
    ensures ReferenceTrip(r) == Reference(24 * p, 8 * p, 8 + 2 * u)
    ensures ReferenceTrip(ReferenceTrip(r)) == Reference(32 * p, 8 * p, 9 + 2 * u)
    ensures Grown(r) == Grown(ReferenceTrip(r)) == 8 * p
  {
  }

  /** From trip 7 on: the block size doubles every two trips, by way of three halves. */
  lemma {:induction false} ReferenceClosed(u: nat)
    ensures ReferenceAfter(7 + 2 * u) == Reference(16 * Pow2(u), 4 * Pow2(u), 7 + 2 * u)
  {
    if u == 0 {
      ReferenceEarly();
    } else {
      assert Pow2(u) == 2 * Pow2(u - 1);
      hide ReferenceAfter, ReferenceTrip, Pow2;
      ReferenceClosed(u - 1);
      ReferenceNext(7 + 2 * (u - 1));
      ReferenceNext(8 + 2 * (u - 1));
      ReferencePair(ReferenceAfter(7 + 2 * (u - 1)), u - 1, Pow2(u - 1));
    }
  }

  lemma ReferenceBoth(u: nat)
    ensures ReferenceAfter(7 + 2 * u) == Reference(16 * Pow2(u), 4 * Pow2(u), 7 + 2 * u)
    ensures ReferenceAfter(8 + 2 * u) == Reference(24 * Pow2(u), 8 * Pow2(u), 8 + 2 * u)
    ensures Grown(ReferenceAfter(7 + 2 * u)) == Grown(ReferenceAfter(8 + 2 * u)) == 8 * Pow2(u)
  {
    hide ReferenceAfter, ReferenceTrip, Pow2;
    ReferenceClosed(u);
    ReferenceNext(7 + 2 * u);
    ReferencePair(ReferenceAfter(7 + 2 * u), u, Pow2(u));
  }

  lemma ReferencePerturbs(q: nat)
    requires q >= 7
    ensures var r := ReferenceAfter(q);
            r.len >= 16 && Grown(r) >= 8 && Inner(r) == [r.len - 3, r.len, r.len + 3]
  {
    hide ReferenceAfter, Pow2, Inner;
    var u := (q - 7) / 2;
    ReferenceBoth(u);
    assert q == 7 + 2 * u || q == 8 + 2 * u;
    InnerThree(ReferenceAfter(q));
  }

  // ----- the two sequences agree

  function Bits(bytes: seq<int>): (s: seq<int>)
    ensures |s| == |bytes|
  {
    seq(|bytes|, i requires 0 <= i < |bytes| => 8 * bytes[i])
  }

  // The groups of three are one place out of step: trip 3 + u of the new loop straddles trips
  // 7 + u and 8 + u of the old one.
  ghost predicate Straddles(u: nat) {
    var a, b := ReferenceAfter(7 + u).len, ReferenceAfter(8 + u).len;
    Triple(After(3 + u)) == [8 * (a + 3), 8 * (b - 3), 8 * b]
  }

  lemma FirstStraddles()
    ensures Straddles(0) && Straddles(1)
  {
    EarlyTriples();
    ReferenceEarly();
    hide ReferenceAfter, After, Triple;
    ReferenceNext(7);
    ReferenceNext(8);
  }

  lemma EvenStraddles(t: nat)
    ensures Straddles(2 + 2 * t)
  {
    hide After, Triple, ReferenceAfter, Pow2;
    ClosedTriples(t);
    ReferenceBoth(t + 1);
    Powers(t);
    assert 7 + 2 * (t + 1) == 7 + (2 + 2 * t) && 3 + (2 + 2 * t) == 5 + 2 * t;
  }

  lemma OddStraddles(t: nat)
    ensures Straddles(3 + 2 * t)
  {
    hide After, Triple, ReferenceAfter, Pow2;
    ClosedTriples(t);
    ReferenceBoth(t + 1);
    ReferenceClosed(t + 2);
    Powers(t);
    assert 8 + 2 * (t + 1) == 7 + (3 + 2 * t) && 7 + 2 * (t + 2) == 8 + (3 + 2 * t) && 3 + (3 + 2 * t) == 6 + 2 * t;
  }

  lemma TripleStraddles(u: nat)
    ensures Straddles(u)
  {
    hide Straddles;
    if u < 2 {
      FirstStraddles();
    } else {
      var t := (u - 2) / 2;
      EvenStraddles(t);
      OddStraddles(t);
      assert u == 2 + 2 * t || u == 3 + 2 * t;
    }
  }

  lemma SizesNext(k: nat)
    ensures Sizes(k + 1) == Sizes(k) + Triple(After(k))
    ensures ReferenceSizes(k + 1) == ReferenceSizes(k) + Inner(ReferenceAfter(k))
  {
  }

  lemma FirstSizes()
    ensures Sizes(3) == [8, 16, 24, 32, 48, 64, 96, 104, 128]
  {
    hide Sizes, After, Triple;
    NoSizes();
    EarlyTriples();
    SizesNext(0);
    SizesNext(1);
    SizesNext(2);
  }

  // All but the first two elements of a reference group, in place behind the groups before it.
  ghost predicate Aligned(u: nat) {
    var len := ReferenceAfter(7 + u).len;
    Sizes(3 + u) == Bits(ReferenceSizes(7 + u)) + [8 * (len - 3), 8 * len]
  }

  lemma AlignedStart()
    ensures Aligned(0)
  {
    hide Sizes, ReferenceSizes, ReferenceAfter;
    FirstSizes();
    ReferenceStart();
    ReferenceEarly();
    assert Bits([1, 2, 3, 4, 6, 8, 12]) == [8, 16, 24, 32, 48, 64, 96];
  }

  lemma AlignedStep(u: nat)
    requires Aligned(u)
    ensures Aligned(u + 1)
  {
    hide After, Triple, ReferenceAfter, Sizes, ReferenceSizes, Inner, Bits;
    TripleStraddles(u);
    ReferencePerturbs(7 + u);
    SizesNext(3 + u);
    SizesNext(7 + u);
    var a, b := ReferenceAfter(7 + u).len, ReferenceAfter(8 + u).len;
    BitsAppend(ReferenceSizes(7 + u), a);
    ThreeAndTwo(Bits(ReferenceSizes(7 + u)), 8 * (a - 3), 8 * a, 8 * (a + 3), 8 * (b - 3), 8 * b);
  }

  lemma {:induction false} Alignment(u: nat)
    ensures Aligned(u)
  {
    hide Aligned;
    if u == 0 {
      AlignedStart();
    } else {
      Alignment(u - 1);
      AlignedStep(u - 1);
    }
  }

  lemma BitsAppend(s: seq<int>, a: int)
    ensures Bits(s + [a - 3, a, a + 3]) == Bits(s) + [8 * (a - 3), 8 * a, 8 * (a + 3)]
  {
  }

  lemma ThreeAndTwo(s: seq<int>, a: int, b: int, c: int, d: int, e: int)
    ensures (s + [a, b]) + [c, d, e] == (s + [a, b, c]) + [d, e]
  {
  }

  lemma InnerSome(r: Reference)
    ensures Inner(r) != []
  {
  }

  lemma {:induction false} SizesPrefix(k: nat, m: nat)
    requires k <= m
    ensures Sizes(k) <= Sizes(m) && ReferenceSizes(k) <= ReferenceSizes(m)
    ensures |ReferenceSizes(m)| >= |ReferenceSizes(k)| + m - k
  {
    hide Triple, After, ReferenceAfter, Inner;
    if k < m {
      SizesPrefix(k, m - 1);
      InnerSome(ReferenceAfter(m - 1));
    }
  }

  /** The m-th size is the same in both programs, for every m, and both go on for ever: the rewritten
      loop is a refinement of the nested one it quotes. */
  lemma SameSizes(trips: nat, reference: nat, m: nat)
    ensures m < |Sizes(trips)| && m < |ReferenceSizes(reference)| ==>
              Sizes(trips)[m] == 8 * ReferenceSizes(reference)[m]
    ensures |Sizes(trips)| == 3 * trips && |ReferenceSizes(reference)| >= reference
  {
    hide Sizes, ReferenceSizes, ReferenceAfter;
    var u := trips + reference;
    SizesPrefix(trips, 3 + u);
    SizesPrefix(reference, 7 + u);
    SizesPrefix(0, reference);
    Alignment(u);
    if m < |Sizes(trips)| && m < |ReferenceSizes(reference)| {
      assert Bits(ReferenceSizes(7 + u))[m] == 8 * ReferenceSizes(7 + u)[m];
    }
  }

  // ----- order

  ghost predicate Rising(s: seq<int>) {
    forall i | 0 <= i < |s| - 1 :: s[i] < s[i + 1]
  }

  // The last size of a trip is below the first of the next, and each trip rises.
  lemma TripRises(k: nat)
    ensures var a, b := Triple(After(k)), Triple(After(k + 1));
            8 <= a[0] < a[1] < a[2] < b[0] && a[0] % 8 == a[1] % 8 == a[2] % 8 == 0
  {
    hide After, Triple, ReferenceAfter, Inner;
    if k < 3 {
      EarlyTriples();
    } else {
      var u := k - 3;
      TripleStraddles(u);
      TripleStraddles(u + 1);
      ReferencePerturbs(7 + u);
      ReferencePerturbs(8 + u);
      ReferenceNext(7 + u);
      ReferenceNext(8 + u);
    }
  }

  lemma EarlyTriples()
    ensures Triple(After(0)) == [8, 16, 24] && Triple(After(1)) == [32, 48, 64]
    ensures Triple(After(2)) == [96, 104, 128] && Triple(After(3)) == [152, 168, 192]
    ensures Triple(After(4)) == [216, 232, 256]
  {
    assert After(0) == START;
    assert After(1) == Loop(3, 16, 16, -8, 1);
    assert After(2) == Loop(6, 32, 48, -16, 1);
    Early();
    hide After;
  }

  // The listing of a run in the user's guide begins with these sizes in bytes.
  lemma ListedSizes()
    ensures Sizes(4)[..10] == Bits([1, 2, 3, 4, 6, 8, 12, 13, 16, 19])
  {
    hide Sizes, After, Triple;
    FirstSizes();
    EarlyTriples();
    SizesNext(3);
    assert Sizes(4) == [8, 16, 24, 32, 48, 64, 96, 104, 128, 152, 168, 192];
  }

  ghost predicate WholeBytes(s: seq<int>) {
    forall i | 0 <= i < |s| :: s[i] >= 8 && s[i] % 8 == 0
  }

  lemma AppendRising(s: seq<int>, t: seq<int>)
    requires Rising(s) && Rising(t) && WholeBytes(s) && WholeBytes(t) && t != []
    requires s != [] ==> s[|s| - 1] < t[0]
    ensures Rising(s + t) && WholeBytes(s + t)
  {
    forall i | 0 <= i < |s + t| - 1 ensures (s + t)[i] < (s + t)[i + 1] {
      if i >= |s| {
        assert t[i - |s|] < t[i - |s| + 1];
      }
    }
  }

  lemma LastOfSizes(trips: nat)
    requires trips > 0
    ensures Sizes(trips)[3 * trips - 1] == Triple(After(trips - 1))[2]
  {
    hide After, Triple;
  }

  /** The sizes are positive whole numbers of bytes and never repeat or fall. */
  lemma {:induction false} SizesRise(trips: nat)
    ensures Rising(Sizes(trips)) && WholeBytes(Sizes(trips))
  {
    hide Sizes, After, Triple;
    if trips == 0 {
      NoSizes();
    } else {
      SizesRise(trips - 1);
      TripRises(trips - 1);
      SizesNext(trips - 1);
      if trips > 1 {
        TripRises(trips - 2);
        LastOfSizes(trips - 1);
      }
      AppendRising(Sizes(trips - 1), Triple(After(trips - 1)));
    }
  }

  lemma NoSizes()
    ensures Sizes(0) == []
  {
  }
}
