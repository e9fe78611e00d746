/** Event completion in src/ib.c: the handler that polls the completion queue passes each completion
    to RecvData through the flag receive_complete. A run_iters call prepares once, synchronizes with
    its peer, and then calls RecvData once a repetition. */
module Handoff {
  /** preburst: RecvData clears the flag. reps: the repetitions of each run_iters call, on both sides. */
  datatype Config = Config(preburst: bool, reps: seq<nat>)

  /** All repetitions of the first n calls. */
  function Total(g: Config, n: nat): nat
    requires n <= |g.reps|
  {
    if n == 0 then 0 else Total(g, n - 1) + g.reps[n - 1]
  }

  // In the handler: about to poll, about to test the flag, spinning on it, about to set it.
  datatype Handler = Polling | Testing | Waiting | Setting

  // Before PrepareToReceive of a call; in RecvData spinning on the flag, or about to clear it.
  datatype Receiver = Preparing | Spinning | Clearing

  /** arrived, polled and consumed count completions from the start. call and done: the run_iters call
      and its repetitions so far. */
  datatype State = State(arrived: nat, polled: nat, consumed: nat, flag: bool, handler: Handler,
                         receiver: Receiver, call: nat, done: nat)

  datatype Move = Arrive | Poll | Test | Release | Set | Prepare | See | Clear | Leave

  const INIT := State(0, 0, 0, false, Polling, Preparing, 0, 0)

  /** How many messages the peer can have sent: it does not pass Sync of a call before this side has
      prepared for it. */
  function Sendable(g: Config, s: State): nat
    requires s.call <= |g.reps|
  {
    if s.receiver.Preparing? || s.call == |g.reps| then Total(g, s.call) else Total(g, s.call + 1)
  }

  predicate Enabled(g: Config, s: State, m: Move) {
    s.call <= |g.reps| &&
    match m
    case Arrive => s.arrived < Sendable(g, s)
    case Poll => s.handler.Polling? && s.polled < s.arrived
    case Test => s.handler.Testing?
    case Release => s.handler.Waiting? && !s.flag
    case Set => s.handler.Setting?
    case Prepare => s.receiver.Preparing? && s.call < |g.reps|
    case See => s.receiver.Spinning? && s.call < |g.reps| && s.done < g.reps[s.call] && s.flag
    case Clear => s.receiver.Clearing?
    case Leave => s.receiver.Spinning? && s.call < |g.reps| && s.done == g.reps[s.call]
  }

  function Taken(s: State): State { s.(consumed := s.consumed + 1, done := s.done + 1, receiver := Spinning) }

  function Step(g: Config, s: State, m: Move): State {
    match m
    case Arrive => s.(arrived := s.arrived + 1)
    case Poll => s.(polled := s.polled + 1, handler := Testing)
    case Test => s.(handler := if s.flag then Waiting else Setting)
    case Release => s.(handler := Setting)
    case Set => s.(flag := true, handler := Polling)
    case Prepare => s.(flag := false, receiver := Spinning)
    case See => if g.preburst then s.(receiver := Clearing) else Taken(s)
    case Clear => Taken(s).(flag := false)
    case Leave => s.(receiver := Preparing, call := s.call + 1, done := 0)
  }

  ghost predicate Reaches(g: Config, moves: seq<Move>, s: State) {
    if moves == [] then s == INIT
    else
      var m := moves[|moves| - 1];
      exists r :: Reaches(g, moves[..|moves| - 1], r) && Enabled(g, r, m) && s == Step(g, r, m)
  }

  function Holding(s: State): nat { if s.handler.Polling? then 0 else 1 }

  function Raised(s: State): nat { if s.flag then 1 else 0 }

  // Where each side is, whatever the mode.
  ghost predicate Placed(g: Config, s: State) {
    s.call <= |g.reps| && s.polled <= s.arrived <= Sendable(g, s) && s.consumed == Total(g, s.call) + s.done &&
    (s.handler.Setting? ==> !s.flag) &&
    (s.receiver.Preparing? ==> s.done == 0) &&
    (!s.receiver.Preparing? ==> s.call < |g.reps| && s.done <= g.reps[s.call]) &&
    (s.receiver.Clearing? ==> g.preburst && s.flag && s.done < g.reps[s.call])
  }

  predicate Conserved(s: State) {
    s.polled == s.consumed + Raised(s) + Holding(s)
  }

  lemma PlacedStep(g: Config, s: State, m: Move)
    requires Placed(g, s) && Enabled(g, s, m)
    ensures Placed(g, Step(g, s, m))
  {
  }

  lemma ConservedStep(g: Config, s: State, m: Move)
    requires g.preburst && Placed(g, s) && Conserved(s) && Enabled(g, s, m)
    ensures Conserved(Step(g, s, m))
  {
  }

  lemma {:induction false} ReachableInv(g: Config, moves: seq<Move>, s: State)
    requires g.preburst && Reaches(g, moves, s)
    ensures Placed(g, s) && Conserved(s)
  {
    if moves != [] {
      hide Placed, Conserved, Step, Enabled;
      var before, m := moves[..|moves| - 1], moves[|moves| - 1];
      var r :| Reaches(g, before, r) && Enabled(g, r, m) && s == Step(g, r, m);
      ReachableInv(g, before, r);
      PlacedStep(g, r, m);
      ConservedStep(g, r, m);
    }
  }

  /** In preburst mode, over any number of calls, every completion polled is in exactly one place:
      consumed, in the flag, or in the handler's hands. */
  lemma Conservation(g: Config, moves: seq<Move>, s: State)
    requires g.preburst && Reaches(g, moves, s)
    ensures s.polled == s.consumed + Raised(s) + Holding(s)
  {
    hide Reaches, Placed;
    ReachableInv(g, moves, s);
  }

  /** In preburst mode PrepareToReceive never drops anything: when it resets the flag, all that was
      sent has been consumed, the flag is down and the handler holds nothing. */
  lemma PrepareDropsNothing(g: Config, moves: seq<Move>, s: State)
    requires g.preburst && Reaches(g, moves, s) && Enabled(g, s, Prepare)
    ensures s.arrived == s.polled == s.consumed == Total(g, s.call) && !s.flag && s.handler.Polling?
  {
    hide Reaches, Placed, Conserved;
    ReachableInv(g, moves, s);
    AllConsumed(g, s);
  }

  lemma AllConsumed(g: Config, s: State)
    requires Placed(g, s) && Conserved(s) && s.receiver.Preparing?
    ensures s.arrived == s.polled == s.consumed == Total(g, s.call) && !s.flag && s.handler.Polling?
  {
  }

  // Something can still happen until all is over.
  lemma NextMove(g: Config, s: State) returns (m: Move)
    requires g.preburst && Placed(g, s) && Conserved(s)
    ensures Enabled(g, s, m) ||
            (s.call == |g.reps| && s.arrived == s.consumed == Total(g, |g.reps|) && !s.flag && s.handler.Polling?)
  {
    m := if s.receiver.Clearing? then Clear
         else if s.receiver.Preparing? && s.call < |g.reps| then Prepare
         else if s.receiver.Spinning? && s.done == g.reps[s.call] then Leave
         else if s.receiver.Spinning? && s.flag then See
         else if s.handler.Testing? then Test
         else if s.handler.Waiting? then Release
         else if s.handler.Setting? then Set
         else if s.polled < s.arrived then Poll
         else Arrive;
  }

  /** In preburst mode none is lost: a run stops only when every call is over and every completion has
      been consumed. */
  lemma StuckIsDone(g: Config, moves: seq<Move>, s: State)
    requires g.preburst && Reaches(g, moves, s)
    requires forall m :: !Enabled(g, s, m)
    ensures s.call == |g.reps| && s.arrived == s.consumed == Total(g, |g.reps|) && !s.flag && s.handler.Polling?
  {
    ReachableInv(g, moves, s);
    var m := NextMove(g, s);
    hide Placed, Conserved;
  }

  // ----- without preburst mode

  ghost predicate NoneTwice(g: Config) {
    forall moves, s | Reaches(g, moves, s) :: s.consumed <= s.polled
  }

  // With one repetition a call at most, the flag that is left up belongs to the call just ending.
  ghost predicate OneEach(g: Config, s: State) {
    if s.receiver.Preparing? then s.polled == s.consumed && s.handler.Polling?
    else s.polled + s.done == s.consumed + Raised(s) + Holding(s) && (s.done > 0 ==> s.flag)
  }

  lemma OneEachStep(g: Config, s: State, m: Move)
    requires !g.preburst && (forall i | 0 <= i < |g.reps| :: g.reps[i] <= 1)
    requires Placed(g, s) && OneEach(g, s) && Enabled(g, s, m)
    ensures OneEach(g, Step(g, s, m))
  {
  }

  lemma {:induction false} ReachableOneEach(g: Config, moves: seq<Move>, s: State)
    requires !g.preburst && (forall i | 0 <= i < |g.reps| :: g.reps[i] <= 1) && Reaches(g, moves, s)
    ensures Placed(g, s) && OneEach(g, s)
  {
    if moves != [] {
      hide Placed, OneEach, Step, Enabled;
      var before, m := moves[..|moves| - 1], moves[|moves| - 1];
      var r :| Reaches(g, before, r) && Enabled(g, r, m) && s == Step(g, r, m);
      ReachableOneEach(g, before, r);
      PlacedStep(g, r, m);
      OneEachStep(g, r, m);
    }
  }

  lemma Start(g: Config)
    ensures Reaches(g, [], INIT)
  {
  }

  lemma Go(g: Config, moves: seq<Move>, s: State, m: Move) returns (more: seq<Move>, s': State)
    requires Reaches(g, moves, s) && Enabled(g, s, m)
    ensures Reaches(g, more, s') && s' == Step(g, s, m)
  {
    more, s' := moves + [m], Step(g, s, m);
    assert more[..|more| - 1] == moves && more[|more| - 1] == m;
  }

  // A completion on its way into the flag.
  lemma Flagged(g: Config, moves: seq<Move>, s: State) returns (more: seq<Move>, s': State)
    requires Reaches(g, moves, s) && s.call <= |g.reps| && s.arrived < Sendable(g, s)
    requires s.polled == s.arrived && s.handler.Polling? && !s.flag
    ensures Reaches(g, more, s') && s' == s.(arrived := s.arrived + 1, polled := s.polled + 1, flag := true)
  {
    hide Reaches, Sendable;
    var m1, s1 := Go(g, moves, s, Arrive);
    var m2, s2 := Go(g, m1, s1, Poll);
    var m3, s3 := Go(g, m2, s2, Test);
    more, s' := Go(g, m3, s3, Set);
  }

  // The state between calls when nothing has gone wrong so far.
  predicate Between(g: Config, n: nat, s: State)
    requires n <= |g.reps|
  {
    s.arrived == s.polled == s.consumed == Total(g, n) && s.handler.Polling? &&
    s.receiver.Preparing? && s.call == n && s.done == 0
  }

  lemma {:induction false} GoTo(g: Config, n: nat) returns (moves: seq<Move>, s: State)
    requires !g.preburst && n <= |g.reps| && forall i | 0 <= i < n :: g.reps[i] <= 1
    ensures Reaches(g, moves, s) && Between(g, n, s)
  {
    hide Reaches;
    if n == 0 {
      Start(g);
      moves, s := [], INIT;
    } else {
      var m0, s0 := GoTo(g, n - 1);
      var m1, s1 := Go(g, m0, s0, Prepare);
      if g.reps[n - 1] == 0 {
        moves, s := Go(g, m1, s1, Leave);
      } else {
        var m2, s2 := Flagged(g, m1, s1);
        var m3, s3 := Go(g, m2, s2, See);
        moves, s := Go(g, m3, s3, Leave);
      }
    }
  }

  // The first call with repetitions to confuse.
  ghost predicate FirstLong(g: Config, n: nat) {
    n < |g.reps| && g.reps[n] > 1 && forall i | 0 <= i < n :: g.reps[i] <= 1
  }

  lemma FindLong(g: Config, n: nat) returns (r: nat)
    requires n <= |g.reps| && (forall i | 0 <= i < n :: g.reps[i] <= 1) && exists i | n <= i < |g.reps| :: g.reps[i] > 1
    ensures FirstLong(g, r)
    decreases |g.reps| - n
  {
    if g.reps[n] > 1 {
      r := n;
    } else {
      r := FindLong(g, n + 1);
    }
  }

  // One completion of call n in the flag, its RecvData calls yet to come.
  lemma OneArrived(g: Config, n: nat) returns (moves: seq<Move>, s: State)
    requires !g.preburst && FirstLong(g, n)
    ensures Reaches(g, moves, s)
    ensures s == State(Total(g, n) + 1, Total(g, n) + 1, Total(g, n), true, Polling, Spinning, n, 0)
  {
    hide Reaches;
    var m0, s0 := GoTo(g, n);
    var m1, s1 := Go(g, m0, s0, Prepare);
    moves, s := Flagged(g, m1, s1);
  }

  // The flag stays up, so RecvData returns as often as it is called.
  lemma {:induction false} SeeAgain(g: Config, moves: seq<Move>, s: State, k: nat) returns (more: seq<Move>, s': State)
    requires !g.preburst && Reaches(g, moves, s)
    requires s.flag && s.receiver.Spinning? && s.call < |g.reps| && s.done + k <= g.reps[s.call]
    ensures Reaches(g, more, s') && s' == s.(consumed := s.consumed + k, done := s.done + k)
    decreases k
  {
    hide Reaches;
    if k == 0 {
      more, s' := moves, s;
    } else {
      var m1, s1 := Go(g, moves, s, See);
      more, s' := SeeAgain(g, m1, s1, k - 1);
    }
  }

  /** No completion is ever consumed twice, over any number of calls, exactly when RecvData clears the
      flag itself or no call repeats more than once. */
  lemma NoneTwiceExact(g: Config)
    ensures NoneTwice(g) <==> g.preburst || forall i | 0 <= i < |g.reps| :: g.reps[i] <= 1
  {
    if g.preburst {
      forall moves, s | Reaches(g, moves, s) ensures s.consumed <= s.polled {
        ReachableInv(g, moves, s);
      }
    } else if forall i | 0 <= i < |g.reps| :: g.reps[i] <= 1 {
      forall moves, s | Reaches(g, moves, s) ensures s.consumed <= s.polled {
        ReachableOneEach(g, moves, s);
      }
    } else {
      hide Reaches;
      var n := FindLong(g, 0);
      var moves, s := OneArrived(g, n);
      var more, s' := SeeAgain(g, moves, s, 2);
    }
  }

  /** Nor does the reset in PrepareToReceive repair it: it releases a handler still waiting with a
      completion of the call before, and the first RecvData of the next call returns with that one
      while nothing of its own call has arrived. */
  lemma StaleReleased(g: Config, n: nat)
    requires !g.preburst && FirstLong(g, n) && n + 1 < |g.reps| && g.reps[n + 1] > 0
    ensures exists moves, s ::
              Reaches(g, moves, s) && s.call == n + 1 && s.done == 1 && s.arrived <= Total(g, n + 1)
  {
    hide Reaches;
    var m0, s0 := OneArrived(g, n);
    var m1, s1 := SeeAgain(g, m0, s0, g.reps[n]);
    var m2, s2 := Go(g, m1, s1, Arrive);
    var m3, s3 := Go(g, m2, s2, Poll);
    var m4, s4 := Go(g, m3, s3, Test);
    var m5, s5 := Go(g, m4, s4, Leave);
    var m6, s6 := Go(g, m5, s5, Prepare);
    var m7, s7 := Go(g, m6, s6, Release);
    var m8, s8 := Go(g, m7, s7, Set);
    var m9, s9 := Go(g, m8, s8, See);
  }
}
