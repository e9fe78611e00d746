/** The two programs that produce the schedule: the transmitter's main loop of NPtcp-local with its
    measured times, and the nested loop of NetPIPE 3. */
module MainLoop {
  import opened Options
  import opened Numbers
  import opened Schedule

  // STOPTM is a parameter, stop: 0.5 in NPtcp-local, the same as RUNTM in NPmpi_atoa.
  const RUNTM: real := 0.10
  const TRIALS: nat := 3

  /** iterFunc; None is Python's division by zero. */
  function IterFunc(tlast: real, oldSize: int, newSize: int): Option<int> {
    var divisor := Cost(tlast, newSize);
    if divisor == 0.0 then None
    else
      var iters := Quotient(Cost(RUNTM, oldSize), divisor);
      Some(if iters < TRIALS then TRIALS else iters)
  }

  function Cost(time: real, size: int): real { time * size as real }

  // int() of a quotient of positive numbers
  function Quotient(budget: real, one: real): int
    requires one != 0.0
  {
    (budget / one).Floor
  }

  lemma Positive(a: real, b: real)
    requires a > 0.0 && b > 0.0
    ensures a * b > 0.0
  {
  }

  lemma NonNegative(a: real, b: real)
    requires a >= 0.0 && b > 0.0
    ensures a * b >= 0.0
  {
  }

  lemma Sums(budget: real, product: real, floored: real, below: real, above: real, one: real)
    requires product == budget && below == product - floored && above == one - below
    requires below >= 0.0 && above > 0.0
    ensures floored <= budget < floored + one
  {
  }

  lemma QuotientExact(budget: real, one: real)
    requires one > 0.0
    ensures var f := Quotient(budget, one) as real; f * one <= budget < f * one + one
  {
    var q := budget / one;
    var f := q.Floor as real;
    var d := q - f;
    var e := 1.0 - d;
    assert q * one == budget;
    NonNegative(d, one);
    Positive(e, one);
    assert d * one == q * one - f * one;
    assert e * one == one - d * one;
    Sums(budget, q * one, f * one, d * one, e * one, one);
  }

  lemma Ordered(a: real, b: real, one: real)
    requires a <= b && one > 0.0
    ensures a * one <= b * one
  {
    NonNegative(b - a, one);
    assert (b - a) * one == b * one - a * one;
  }

  lemma Clamped(budget: real, one: real, r: int)
    requires one > 0.0 && r == (var f := Quotient(budget, one); if f < TRIALS then TRIALS else f)
    ensures r == TRIALS || r as real * one <= budget
    ensures budget < r as real * one + one
  {
    hide Quotient;
    QuotientExact(budget, one);
    var f := Quotient(budget, one);
    if f < TRIALS {
      Ordered(f as real, TRIALS as real, one);
    }
  }

  lemma CostPositive(time: real, size: int)
    requires time > 0.0 && size > 0
    ensures Cost(time, size) > 0.0
  {
    Positive(time, size as real);
  }

  /** The count is the largest one whose predicted time stays within RUNTM, but never below TRIALS. */
  lemma IterFuncExact(tlast: real, oldSize: int, newSize: int)
    requires tlast > 0.0 && oldSize > 0 && newSize > 0
    ensures IterFunc(tlast, oldSize, newSize).Some?
    ensures var r, one := IterFunc(tlast, oldSize, newSize).value, Cost(tlast, newSize);
            r >= TRIALS && (r == TRIALS || r as real * one <= Cost(RUNTM, oldSize)) &&
            Cost(RUNTM, oldSize) < r as real * one + one
  {
    hide Quotient, Cost;
    CostPositive(tlast, newSize);
    Clamped(Cost(RUNTM, oldSize), Cost(tlast, newSize), IterFunc(tlast, oldSize, newSize).value);
  }

  /** One line of the output: the size in bits, the repetitions, and the best time of the trials. */
  datatype Run = Run(size: int, iters: int, time: real)

  function Last(log: seq<Run>, start: real): Run {
    if log == [] then Run(8, 1000, start) else log[|log| - 1]
  }

  // Each count follows from the line before it.
  ghost predicate Counted(log: seq<Run>, start: real) {
    forall i | 0 <= i < |log| ::
      var p := Last(log[..i], start);
      IterFunc(p.time, p.size, log[i].size) == Some(log[i].iters)
  }

  ghost predicate HasSizes(log: seq<Run>, sizes: seq<int>) {
    |log| == |sizes| && forall i | 0 <= i < |log| :: log[i].size == sizes[i]
  }

  // No measured time beats a fixed rate in bits per second.
  ghost predicate Limited(measure: (int, int, nat) -> real, rate: real) {
    rate > 0.0 && forall size: int, iters: int, k: nat | size > 0 :: measure(size, iters, k) * rate >= size as real
  }

  predicate Possible(time: real, size: int, rate: real) { time > 0.0 && time * rate >= size as real }

  /** The best of TRIALS measurements. */
  method Trials(measure: (int, int, nat) -> real, size: int, iters: int, first: nat, ghost rate: real)
    returns (best: real)
    requires size > 0 && Limited(measure, rate)
    ensures Possible(best, size, rate)
    ensures exists k | first <= k < first + TRIALS :: best == measure(size, iters, k)
    ensures forall k | first <= k < first + TRIALS :: best <= measure(size, iters, k)
  {
    best := measure(size, iters, first);
    for i := 1 to TRIALS
      invariant exists k | first <= k < first + i :: best == measure(size, iters, k)
      invariant forall k | first <= k < first + i :: best <= measure(size, iters, k)
    {
      var time := measure(size, iters, first + i);
      if time < best {
        best := time;
      }
    }
    assert best > 0.0 by {
      if best <= 0.0 {
        Ordered(best, 0.0, rate);
      }
    }
  }

  /** The time of a line is one of the three measurements made for it and the least of them. */
  ghost predicate BestOf(measure: (int, int, nat) -> real, r: Run, first: nat) {
    (exists k | first <= k < first + 3 :: r.time == measure(r.size, r.iters, k)) &&
    (forall k | first <= k < first + 3 :: r.time <= measure(r.size, r.iters, k))
  }

  /** Each line was measured with its own size and count, three times and in turn. */
  ghost predicate Timed(log: seq<Run>, measure: (int, int, nat) -> real) {
    forall i | 0 <= i < |log| :: BestOf(measure, log[i], 3 * i)
  }

  lemma TimedAppend(log: seq<Run>, r: Run, measure: (int, int, nat) -> real)
    requires Timed(log, measure) && BestOf(measure, r, 3 * |log|)
    ensures Timed(log + [r], measure)
  {
    hide BestOf;
  }

  /** Every pass of the outer loop but the last ended below STOPTM. */
  ghost predicate KeptGoing(log: seq<Run>, trips: nat, stop: real)
    requires |log| == 3 * trips
  {
    forall k | 0 < k < trips :: log[3 * k - 1].time < stop
  }

  ghost predicate Measured(log: seq<Run>, rate: real) {
    forall i | 0 <= i < |log| :: Possible(log[i].time, log[i].size, rate)
  }

  ghost predicate GoodLog(log: seq<Run>, measure: (int, int, nat) -> real, start: real, rate: real) {
    Timed(log, measure) && Measured(log, rate) && Counted(log, start) && (log != [] ==> start > 0.0)
  }

  lemma ZeroAtStart(log: seq<Run>, measure: (int, int, nat) -> real, start: real, rate: real)
    requires start >= 0.0 && GoodLog(log, measure, start, rate)
    ensures Last(log, start).time >= 0.0 && (Last(log, start).time == 0.0 <==> start == 0.0)
  {
  }

  /** One size: iterFunc from the line before, then the trials. It fails only on a first time of zero. */
  method Point(measure: (int, int, nat) -> real, size: int, before: seq<Run>, start: real, ghost rate: real)
    returns (log: seq<Run>, failed: bool)
    requires size > 0 && Limited(measure, rate) && start >= 0.0 && GoodLog(before, measure, start, rate)
    ensures failed <==> start == 0.0
    ensures failed ==> log == before
    ensures !failed ==> |log| == |before| + 1 && before <= log && log[|before|].size == size
    ensures !failed ==> GoodLog(log, measure, start, rate)
  {
    hide IterFunc, Limited, Possible, Counted, Timed;
    ZeroAtStart(before, measure, start, rate);
    var last := Last(before, start);
    var iters := IterFunc(last.time, last.size, size);
    DivisionByZero(last.time, last.size, size);
    if iters.None? {
      return before, true;
    }
    var best := Trials(measure, size, iters.value, 3 * |before|, rate);
    CountedAppend(before, Run(size, iters.value, best), start);
    TimedAppend(before, Run(size, iters.value, best), measure);
    log, failed := before + [Run(size, iters.value, best)], false;
  }

  /** The loop over the three sizes of a trip. */
  method Pass(measure: (int, int, nat) -> real, sizes: seq<int>, before: seq<Run>, start: real, ghost rate: real)
    returns (log: seq<Run>, failed: bool)
    requires |sizes| == 3 && (forall i | 0 <= i < 3 :: sizes[i] > 0) && Limited(measure, rate)
    requires start >= 0.0 && GoodLog(before, measure, start, rate)
    ensures failed <==> start == 0.0
    ensures failed ==> log == before
    ensures !failed ==> |log| == |before| + 3 && before <= log && GoodLog(log, measure, start, rate)
    ensures !failed ==> forall i | 0 <= i < 3 :: log[|before| + i].size == sizes[i]
  {
    hide GoodLog, Limited;
    log, failed := before, false;
    for k := 0 to 3
      invariant !failed && |log| == |before| + k && before <= log && GoodLog(log, measure, start, rate)
      invariant k > 0 ==> start > 0.0
      invariant forall i | 0 <= i < k :: log[|before| + i].size == sizes[i]
    {
      ghost var sofar := log;
      log, failed := Point(measure, sizes[k], log, start, rate);
      if failed {
        return;
      }
      forall i | 0 <= i < k ensures log[|before| + i].size == sizes[i] {
        assert log[|before| + i] == sofar[|before| + i];
      }
    }
  }

  lemma DivisionByZero(time: real, oldSize: int, newSize: int)
    requires time >= 0.0 && newSize > 0
    ensures IterFunc(time, oldSize, newSize).None? <==> time == 0.0
  {
    if time > 0.0 {
      CostPositive(time, newSize);
    }
  }

  lemma CountedAppend(log: seq<Run>, r: Run, start: real)
    requires Counted(log, start)
    requires IterFunc(Last(log, start).time, Last(log, start).size, r.size) == Some(r.iters)
    ensures Counted(log + [r], start)
  {
    hide IterFunc, Last;
    var all := log + [r];
    assert all[..|log|] == log;
    forall i | 0 <= i < |log| ensures all[..i] == log[..i] {
    }
  }

  // How often the counter grows in the first i increments of n.
  function Increments(n: nat, i: nat): nat {
    if i == 0 then 0 else Increments(n, i - 1) + if n + i >= 11 then 1 else 0
  }

  lemma StartOfLoop()
    ensures After(0) == START && Sizes(0) == []
  {
  }

  lemma TripOfLoop(k: nat)
    ensures var s := After(k);
            var inc, pert := IncFunc(s.n, s.inc), PertFunc(s.n, FirstPert(s));
            After(k + 1) == Loop(s.n + 3, inc, s.permSize + inc, pert[0], s.count + Increments(s.n, 3)) &&
            Triple(s) == [s.permSize + inc + pert[0], s.permSize + inc + pert[1], s.permSize + inc + pert[2]]
  {
    hide IncFunc, PertFunc, FirstPert;
    ThreeIncrements(After(k).n);
  }

  lemma ThreeIncrements(n: nat)
    ensures CountAfter(n, 0) == Increments(n, 3)
  {
    assert Increments(n, 1) == if n + 1 >= 11 then 1 else 0;
    assert Increments(n, 2) == Increments(n, 1) + if n + 2 >= 11 then 1 else 0;
  }

  // The last size so far fits into what the rate allows before STOPTM.
  lemma WithinBudget(time: real, stop: real, rate: real, size: int)
    requires rate > 0.0 && time < stop && time * rate >= size as real
    ensures size <= (stop * rate).Floor
  {
    Ordered(time, stop, rate);
  }

  lemma NothingMeasured(measure: (int, int, nat) -> real, start: real, stop: real, rate: real)
    ensures KeptGoing([], 0, stop) && GoodLog([], measure, start, rate)
  {
  }

  lemma NoLines()
    ensures HasSizes([], Sizes(0))
  {
    NoSizes();
  }

  lemma GoodLogParts(log: seq<Run>, measure: (int, int, nat) -> real, start: real, rate: real)
    requires GoodLog(log, measure, start, rate)
    ensures Timed(log, measure) && Measured(log, rate) && Counted(log, start) && (log != [] ==> start > 0.0)
  {
  }

  lemma LastPossible(log: seq<Run>, rate: real)
    requires log != [] && Measured(log, rate)
    ensures Possible(log[|log| - 1].time, log[|log| - 1].size, rate)
  {
  }

  lemma LastSize(log: seq<Run>, measure: (int, int, nat) -> real, start: real, stop: real, rate: real)
    requires rate > 0.0
    ensures log != [] && GoodLog(log, measure, start, rate) && log[|log| - 1].time < stop ==>
            log[|log| - 1].size <= (stop * rate).Floor
  {
    hide Timed, Counted, Measured, Last;
    if log != [] && GoodLog(log, measure, start, rate) && log[|log| - 1].time < stop {
      LastPossible(log, rate);
      WithinBudget(log[|log| - 1].time, stop, rate, log[|log| - 1].size);
    }
  }

  lemma NonNegativeFloor(stop: real, rate: real)
    requires stop > 0.0 && rate > 0.0
    ensures (stop * rate).Floor >= 0
  {
    NonNegative(stop, rate);
  }

  // A trip is only begun after one that ended below STOPTM.
  lemma StillGoing(before: seq<Run>, log: seq<Run>, k: nat, stop: real)
    requires |before| == 3 * k && KeptGoing(before, k, stop) && |log| == 3 * k + 3 && before <= log
    requires k > 0 ==> before[|before| - 1].time < stop
    ensures KeptGoing(log, k + 1, stop)
  {
    forall i | 0 < i < k + 1 ensures log[3 * i - 1].time < stop {
      assert log[3 * i - 1] == before[3 * i - 1];
    }
  }

  // A measured trip extends the schedule.
  lemma TripEnds(before: seq<Run>, log: seq<Run>, k: nat)
    requires |before| == 3 * k && HasSizes(before, Sizes(k)) && |log| == 3 * k + 3 && before <= log
    requires forall i | 0 <= i < 3 :: log[|before| + i].size == Triple(After(k))[i]
    ensures HasSizes(log, Sizes(k + 1))
    ensures k > 0 ==> before[3 * k - 1].size < log[3 * k + 2].size
  {
    hide Sizes, After, Triple;
    SizesNext(k);
    if k > 0 {
      TripRises(k - 1);
      TripRises(k);
      LastOfSizes(k);
    }
  }

  /** The transmitter's main loop from a first time estimate: it ends, its sizes are the schedule's,
      every count comes from iterFunc, and it stops after the first trip that ends at STOPTM or
      later. It fails, with nothing measured, exactly when it is entered with an estimate of zero. */
  method Transmit(start: real, stop: real, measure: (int, int, nat) -> real, ghost rate: real)
    returns (log: seq<Run>, trips: nat, failed: bool)
    requires start >= 0.0 && stop > 0.0 && Limited(measure, rate)
    ensures failed <==> start == 0.0
    ensures |log| == 3 * trips && HasSizes(log, Sizes(trips)) && Counted(log, start)
    ensures KeptGoing(log, trips, stop)
    ensures !failed ==> Last(log, start).time >= stop
    ensures Measured(log, rate) && Timed(log, measure)
    ensures trips > 0 ==> log[0].size == 8 && IterFunc(start, 8, 8) == Some(log[0].iters)
    ensures trips > 0 <==> 0.0 < start < stop
  {
    hide IterFunc, IncFunc, PertFunc, Sizes, After, Triple, Trip, Limited;
    hide KeptGoing, GoodLog, HasSizes, Measured, Counted, Timed;
    var n, inc, permSize, count := 0, 0, 0, 1;
    var pertList := [-1, 0, 1];
    var iterationTime := start;
    log, trips, failed := [], 0, false;
    StartOfLoop();
    NothingMeasured(measure, start, stop, rate);
    NoLines();
    ghost var last := 0;
    while iterationTime < stop
      invariant !failed && |log| == 3 * trips
      invariant |pertList| == 3 && After(trips) == Loop(n, inc, permSize, pertList[0], count)
      invariant HasSizes(log, Sizes(trips)) && GoodLog(log, measure, start, rate)
      invariant iterationTime == Last(log, start).time
      invariant last == if log == [] then 0 else log[|log| - 1].size
      invariant KeptGoing(log, trips, stop)
      invariant trips > 0 ==> 0.0 < start < stop
      decreases (stop * rate).Floor - last
    {
      Rate(measure, rate);
      NonNegativeFloor(stop, rate);
      if log != [] {
        LastSize(log, measure, start, stop, rate);
      }
      TripOfLoop(trips);
      TripRises(trips);
      ghost var s := After(trips);
      if count % 6 == 0 {
        pertList := [-inc + pertList[0], pertList[1], pertList[2]];
      }
      assert pertList[0] == FirstPert(s);
      inc := IncFunc(n, inc);
      permSize := permSize + inc;
      var pert := PertFunc(n, pertList[0]);
      pertList := pert;
      var sizes := [permSize + pert[0], permSize + pert[1], permSize + pert[2]];
      ghost var before := log;
      log, failed := Pass(measure, sizes, log, start, rate);
      if failed {
        GoodLogParts(log, measure, start, rate);
        return;
      }
      TripEnds(before, log, trips);
      StillGoing(before, log, trips, stop);
      iterationTime := log[|log| - 1].time;
      for i := 0 to 3
        invariant n == s.n + i && count == s.count + Increments(s.n, i)
      {
        n := n + 1;
        if n >= 11 {
          count := count + 1;
        }
      }
      trips := trips + 1;
      last := log[|log| - 1].size;
      GoodLogParts(log, measure, start, rate);
    }
    GoodLogParts(log, measure, start, rate);
    FirstLine(log, trips, start);
  }

  // The first line is for 8 bits, its count from the initial size of 8.
  lemma FirstLine(log: seq<Run>, trips: nat, start: real)
    requires HasSizes(log, Sizes(trips)) && Counted(log, start)
    ensures trips > 0 ==> log != [] && log[0].size == 8 && IterFunc(start, 8, 8) == Some(log[0].iters)
  {
    hide IterFunc, Sizes, Triple, After;
    if trips > 0 {
      NoSizes();
      EarlyTriples();
      SizesNext(0);
      SizesPrefix(1, trips);
      assert log[..0] == [];
      assert Sizes(trips)[0] == Sizes(1)[0];
    }
  }

  // The estimate of NPtcp-local for the first message, and a message too slow for more than TRIALS.
  lemma SampleCounts()
    ensures IterFunc(0.000025, 8, 8) == Some(4000) && IterFunc(1.0, 8, 16) == Some(3)
  {
  }

  lemma Rate(measure: (int, int, nat) -> real, rate: real)
    requires Limited(measure, rate)
    ensures rate > 0.0
  {
  }

  lemma BeforeLast(log: seq<Run>, trips: nat, stop: real, rate: real, k: nat)
    requires rate > 0.0 && |log| == 3 * trips && 0 < k < trips
    requires KeptGoing(log, trips, stop) && Measured(log, rate)
    ensures log[3 * k - 1].size as real < stop * rate
  {
    OrderedStrictly(log[3 * k - 1].time, stop, rate);
  }

  /** Termination in the schedule's own terms: once 2^(t+9) bits take STOPTM at the limiting rate,
      there is no trip after the one of that size. */
  lemma StopsBy(log: seq<Run>, trips: nat, stop: real, rate: real, t: nat)
    requires |log| == 3 * trips && HasSizes(log, Sizes(trips)) && KeptGoing(log, trips, stop)
    requires rate > 0.0 && Measured(log, rate)
    requires Pow2(t + 9) as real >= stop * rate
    ensures trips <= 7 + 2 * t
  {
    hide Sizes, After, Triple, Pow2, KeptGoing, Measured;
    if trips > 7 + 2 * t {
      var k := 7 + 2 * t;
      ClosedTriples(t);
      LastOfSizes(k);
      SizesPrefix(k, trips);
      BeforeLast(log, trips, stop, rate, k);
    }
  }

  lemma OrderedStrictly(a: real, b: real, one: real)
    requires a < b && one > 0.0
    ensures a * one < b * one
  {
    Positive(b - a, one);
    assert (b - a) * one == b * one - a * one;
  }

  /** The perturbation loop of NetPIPE 3, appending to the sizes so far. */
  method PerturbationLoop(before: seq<int>, len: int, inc: int) returns (sizes: seq<int>)
    ensures sizes == before + InnerFrom(len, inc, if Perturbs(inc) then -PERTURBATION else 0)
  {
    hide InnerFrom;
    sizes := before;
    var pert := if PERTURBATION > 0 && inc > PERTURBATION + 1 then -PERTURBATION else 0;
    ghost var all := before + InnerFrom(len, inc, pert);
    while pert <= PERTURBATION
      invariant all == sizes + InnerFrom(len, inc, pert)
      decreases PERTURBATION - pert + 1
    {
      InnerNext(len, inc, pert);
      sizes := sizes + [len + pert];
      pert := pert + if PERTURBATION > 0 && inc > PERTURBATION + 1 then PERTURBATION else PERTURBATION + 1;
    }
    InnerNext(len, inc, pert);
  }

  /** The nested loop of NetPIPE 3, for a number of outer trips. */
  method NestedLoop(trips: nat) returns (sizes: seq<int>)
    ensures sizes == ReferenceSizes(trips)
  {
    hide ReferenceSizes, ReferenceAfter, Inner, InnerFrom;
    var len, inc, nq := 1, 1, 0;
    sizes := [];
    NestedStart();
    while nq < trips
      invariant nq <= trips && ReferenceAfter(nq) == Reference(len, inc, nq)
      invariant sizes == ReferenceSizes(nq)
    {
      SizesNext(nq);
      ReferenceNext(nq);
      InnerStart(Reference(len, inc, nq));
      if nq > 2 {
        inc := if nq % 2 != 0 then inc + inc else inc;
      }
      sizes := PerturbationLoop(sizes, len, inc);
      len := len + inc;
      nq := nq + 1;
    }
  }

  lemma NestedStart()
    ensures ReferenceSizes(0) == [] && ReferenceAfter(0) == Reference(1, 1, 0)
  {
  }

  lemma InnerStart(r: Reference)
    ensures Inner(r) == InnerFrom(r.len, Grown(r), if Perturbs(Grown(r)) then -PERTURBATION else 0)
  {
  }

  lemma InnerNext(len: int, inc: int, pert: int)
    ensures InnerFrom(len, inc, pert) ==
      if pert <= PERTURBATION then
        [len + pert] + InnerFrom(len, inc, pert + if Perturbs(inc) then PERTURBATION else PERTURBATION + 1)
      else []
  {
  }
}
