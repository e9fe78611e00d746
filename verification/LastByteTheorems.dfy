/** What the last-byte protocol guarantees over every run, and the exact condition on the bytes the
    buffers hold at the start. */
module LastByteTheorems {
  import opened Bytes
  import opened Roles
  import opened LastByte

  lemma StepKeeps(g: Config, s: State, m: Move)
    requires Sound(g.p) && Inv(g, s) && Enabled(g, s, m)
    ensures Inv(g, Step(g, s, m))
  {
    hide *;
    match m
    case Send(r) => SendKeeps(g, s, r);
    case Deliver(r) => DeliverKeeps(g, s, r);
    case Exit(r) => ExitKeeps(g, s, r);
  }

  lemma {:induction false} ReachableInv(g: Config, s0: State, moves: seq<Move>, s: State)
    requires Sound(g.p) && Initial(g, s0) && Armed(g, s0) && Reaches(g, s0, moves, s)
    ensures Inv(g, s)
  {
    hide Inv, Sound, Armed, Step, Enabled, Initial;
    if moves == [] {
      InitialInv(g, s);
    } else {
      var before, m := moves[..|moves| - 1], moves[|moves| - 1];
      var r :| Reaches(g, s0, before, r) && Enabled(g, r, m) && s == Step(g, r, m);
      ReachableInv(g, s0, before, r);
      StepKeeps(g, r, m);
    }
  }

  // ----- safety and progress, stated on single states

  /** What r consumed is, in order, what its peer sent. r's spin can only exit on the whole of the
      next message, and r can only begin a put when all its earlier ones have been consumed. */
  ghost predicate Safe(g: Config, s: State, r: Role)
    requires Sized(g, s)
  {
    var me, peer := At(s, r), At(s, r.Peer());
    me.received <= peer.sent &&
    |PutsTo(s, r)| <= 1 &&
    (Enabled(g, s, Exit(r)) ==>
      PutsTo(s, r) == [] && |me.received| < |peer.sent| &&
      Memory(me, RecvBlock(g.p, r)) == peer.sent[|me.received|]) &&
    (Enabled(g, s, Send(r)) ==> me.sent == peer.received && PutsTo(s, r.Peer()) == [])
  }

  ghost predicate Stuck(g: Config, s: State)
    requires Sized(g, s)
  {
    forall m :: !Enabled(g, s, m)
  }

  predicate Completed(g: Config, s: State) {
    |s.tx.sent| == |s.tx.received| == |s.rx.sent| == |s.rx.received| == g.reps &&
    s.putsToTx == [] && s.putsToRx == []
  }

  ghost predicate Correct(g: Config, s0: State)
    requires Initial(g, s0)
  {
    forall moves, s | Reaches(g, s0, moves, s) ::
      Safe(g, s, Tx) && Safe(g, s, Rx) && (Stuck(g, s) <==> Completed(g, s))
  }

  lemma InvSafe(g: Config, s: State, r: Role)
    requires Inv(g, s)
    ensures Safe(g, s, r)
  {
    var me, peer := At(s, r), At(s, r.Peer());
    assert me.received == peer.sent[..|me.received|];
    if Enabled(g, s, Send(r)) {
      SendWhenConsumed(g, s, r);
      assert peer.received == me.sent[..|peer.received|];
    }
  }

  // Some side is computing, has a put in flight, or finds the byte it spins for.
  lemma InvProgress(g: Config, s: State)
    requires Inv(g, s)
    ensures Stuck(g, s) <==> Completed(g, s)
  {
    if Stuck(g, s) {
      assert !Enabled(g, s, Deliver(Tx)) && !Enabled(g, s, Deliver(Rx));
      assert !Enabled(g, s, Exit(Tx)) && !Enabled(g, s, Exit(Rx));
      assert !Enabled(g, s, Send(Tx)) && !Enabled(g, s, Send(Rx));
    }
  }

  lemma ArmedCorrect(g: Config, s0: State)
    requires Sound(g.p) && Initial(g, s0) && Armed(g, s0)
    ensures Correct(g, s0)
  {
    forall moves, s | Reaches(g, s0, moves, s)
      ensures Safe(g, s, Tx) && Safe(g, s, Rx) && (Stuck(g, s) <==> Completed(g, s))
    {
      hide Inv, Safe, Stuck, Completed, Sound, Initial, Armed;
      ReachableInv(g, s0, moves, s);
      InvSafe(g, s, Tx);
      InvSafe(g, s, Rx);
      InvProgress(g, s);
    }
  }

  // ----- every run ends

  function BytesLeft(n: nat, q: seq<Put>): (r: nat)
    requires forall i | 0 <= i < |q| :: q[i].k < |q[i].data| == n
  {
    if q == [] then 0 else n - q[0].k + BytesLeft(n, q[1..])
  }

  lemma {:induction false} BytesLeftAppend(n: nat, q: seq<Put>, put: Put)
    requires forall i | 0 <= i < |q| :: q[i].k < |q[i].data| == n
    requires put.k < |put.data| == n
    ensures BytesLeft(n, q + [put]) == BytesLeft(n, q) + n - put.k
  {
    if q == [] {
      assert (q + [put])[1..] == [];
    } else {
      assert (q + [put])[1..] == q[1..] + [put];
      BytesLeftAppend(n, q[1..], put);
    }
  }

  // Neither side begins more than reps of either operation.
  predicate Bounded(g: Config, s: State) {
    |s.tx.received| <= |s.tx.sent| <= g.reps && |s.rx.sent| <= |s.rx.received| <= g.reps
  }

  function Pending(g: Config, sent: nat, received: nat): int {
    (g.n + 1) * (g.reps - sent) + g.reps - received
  }

  /** Sends and exits still to come, and bytes still to be delivered now or later. */
  function Measure(g: Config, s: State): int
    requires Sized(g, s)
  {
    Pending(g, |s.tx.sent|, |s.tx.received|) + Pending(g, |s.rx.sent|, |s.rx.received|) +
    BytesLeft(g.n, s.putsToTx) + BytesLeft(g.n, s.putsToRx)
  }

  lemma PendingDrops(g: Config, sent: nat, received: nat)
    ensures Pending(g, sent + 1, received) == Pending(g, sent, received) - g.n - 1
    ensures Pending(g, sent, received + 1) == Pending(g, sent, received) - 1
  {
  }

  lemma AdvancedDrops(n: nat, q: seq<Put>)
    requires q != [] && forall i | 0 <= i < |q| :: q[i].k < |q[i].data| == n
    ensures var q' := Advanced(n, q);
            (forall i | 0 <= i < |q'| :: q'[i].k < |q'[i].data| == n) && BytesLeft(n, q') == BytesLeft(n, q) - 1
  {
    var q' := Advanced(n, q);
    if q[0].k + 1 == n {
      assert q' == q[1..];
    } else {
      assert q'[1..] == q[1..];
    }
  }

  lemma SendDrops(g: Config, s: State, r: Role)
    requires Sized(g, s) && Bounded(g, s) && Enabled(g, s, Send(r))
    ensures Bounded(g, Step(g, s, Send(r))) && Measure(g, Step(g, s, Send(r))) == Measure(g, s) - 1
  {
    hide Step, Pending, BytesLeft;
    SendEffect(g, s, r);
    PendingDrops(g, |At(s, r).sent|, |At(s, r).received|);
    var data := Memory(At(s, r), SendBlock(g.p, r));
    BytesLeftAppend(g.n, PutsTo(s, r.Peer()), Put(SendBlock(g.p, r), data, 0));
  }

  lemma DeliverDrops(g: Config, s: State, r: Role)
    requires Sized(g, s) && Bounded(g, s) && Enabled(g, s, Deliver(r))
    ensures Bounded(g, Step(g, s, Deliver(r))) && Measure(g, Step(g, s, Deliver(r))) == Measure(g, s) - 1
  {
    hide Step, Pending, BytesLeft, Advanced;
    DeliverFrame(g, s, r);
    AdvancedDrops(g.n, PutsTo(s, r));
  }

  lemma ExitDrops(g: Config, s: State, r: Role)
    requires Sized(g, s) && Bounded(g, s) && Enabled(g, s, Exit(r))
    ensures Bounded(g, Step(g, s, Exit(r))) && Measure(g, Step(g, s, Exit(r))) == Measure(g, s) - 1
  {
    hide Step, Pending, BytesLeft, Stored;
    ExitEffect(g, s, r);
    StoredKeeps(g, s, r);
    PendingDrops(g, |At(s, r).sent|, |At(s, r).received|);
  }

  // The reset byte changes memory only.
  lemma StoredKeeps(g: Config, s: State, r: Role)
    requires Sized(g, s)
    ensures var me, b := At(s, r), RecvBlock(g.p, r);
            var m' := Stored(me.(received := me.received + [Memory(me, b)]), b, g.n - 1, Reset(g.p, r));
            m'.sent == me.sent && m'.received == me.received + [Memory(me, b)]
  {
  }

  lemma MeasureDrops(g: Config, s: State, m: Move)
    requires Sized(g, s) && Bounded(g, s) && Enabled(g, s, m)
    ensures Bounded(g, Step(g, s, m)) && Measure(g, Step(g, s, m)) == Measure(g, s) - 1
  {
    hide *;
    match m
    case Send(r) => SendDrops(g, s, r);
    case Deliver(r) => DeliverDrops(g, s, r);
    case Exit(r) => ExitDrops(g, s, r);
  }

  lemma PendingNonNegative(g: Config, sent: nat, received: nat)
    requires sent <= g.reps && received <= g.reps
    ensures Pending(g, sent, received) >= 0
  {
    Product(g.n + 1, g.reps - sent);
  }

  lemma Product(a: nat, b: nat)
    ensures a * b >= 0
  {
  }

  lemma MeasureNonNegative(g: Config, s: State)
    requires Sized(g, s) && Bounded(g, s)
    ensures Measure(g, s) >= 0
  {
    hide Pending, BytesLeft;
    PendingNonNegative(g, |s.tx.sent|, |s.tx.received|);
    PendingNonNegative(g, |s.rx.sent|, |s.rx.received|);
  }

  lemma PendingAtStart(g: Config)
    ensures 2 * Pending(g, 0, 0) == 2 * g.reps * (g.n + 2)
  {
  }

  /** Whatever the initial bytes, a run takes at most 2 * reps * (n + 2) moves. */
  lemma {:induction false} RunsEnd(g: Config, s0: State, moves: seq<Move>, s: State)
    requires Initial(g, s0) && Reaches(g, s0, moves, s)
    ensures Bounded(g, s) && Measure(g, s) == 2 * g.reps * (g.n + 2) - |moves|
    ensures |moves| <= 2 * g.reps * (g.n + 2)
  {
    if moves == [] {
      PendingAtStart(g);
    } else {
      hide Step, Enabled, Measure, Bounded, Initial;
      var before, m := moves[..|moves| - 1], moves[|moves| - 1];
      var r :| Reaches(g, s0, before, r) && Enabled(g, r, m) && s == Step(g, r, m);
      RunsEnd(g, s0, before, r);
      MeasureDrops(g, r, m);
    }
    MeasureNonNegative(g, s);
  }

  lemma Extend(g: Config, s0: State, moves: seq<Move>, s: State, m: Move)
    requires Initial(g, s0) && Reaches(g, s0, moves, s) && Enabled(g, s, m)
    ensures Reaches(g, s0, moves + [m], Step(g, s, m))
  {
    hide Step, Enabled, Initial;
    var all := moves + [m];
    assert all[..|all| - 1] == moves && all[|all| - 1] == m;
    assert Reaches(g, s0, all[..|all| - 1], s) && Enabled(g, s, all[|all| - 1]);
  }

  // Any run can be continued until nothing can move.
  lemma {:induction false} RunToTheEnd(g: Config, s0: State, moves: seq<Move>, s: State)
      returns (all: seq<Move>, end: State)
    requires Initial(g, s0) && Reaches(g, s0, moves, s)
    ensures Reaches(g, s0, all, end) && Stuck(g, end)
    decreases 2 * g.reps * (g.n + 2) - |moves|
  {
    hide Step, Enabled, Initial, Measure, Bounded;
    if Stuck(g, s) {
      all, end := moves, s;
    } else {
      var m :| Enabled(g, s, m);
      Extend(g, s0, moves, s, m);
      RunsEnd(g, s0, moves + [m], Step(g, s, m));
      all, end := RunToTheEnd(g, s0, moves + [m], Step(g, s, m));
    }
  }

  // ----- the initial bytes that work are exactly the armed ones

  predicate Aimed(q: seq<Put>, b: Block) {
    forall i | 0 <= i < |q| :: q[i].block == b
  }

  // No put ends in v.
  predicate Without(n: nat, q: seq<Put>, v: byte)
    requires n > 0 && forall i | 0 <= i < |q| :: |q[i].data| == n
  {
    forall i | 0 <= i < |q| :: q[i].data[n - 1] != v
  }

  // Nothing that can reach r ends in the byte r waits for.
  ghost predicate Deaf(g: Config, s: State, r: Role)
    requires Sized(g, s)
  {
    var me, peer := At(s, r), At(s, r.Peer());
    me.received == [] &&
    Last(g, me, RecvBlock(g.p, r)) != Await(g.p, r) &&
    Last(g, peer, SendBlock(g.p, r.Peer())) != Await(g.p, r) &&
    Aimed(PutsTo(s, r), RecvBlock(g.p, r)) && Without(g.n, PutsTo(s, r), Await(g.p, r)) &&
    Aimed(PutsTo(s, r.Peer()), RecvBlock(g.p, r.Peer())) &&
    (g.p.shared ==>
      r.Rx? && me.sent == [] && peer.received == [] && PutsTo(s, Tx) == [] &&
      Last(g, peer, RecvBlock(g.p, Tx)) != g.p.awaitTx)
  }

  lemma DeafSend(g: Config, s: State, r: Role, q: Role)
    requires Sized(g, s) && Deaf(g, s, r) && Enabled(g, s, Send(q))
    ensures Deaf(g, Step(g, s, Send(q)), r)
  {
    hide Step;
    SendEffect(g, s, q);
    FlipFlop(g.p, q);
  }

  lemma AdvancedAims(n: nat, q: seq<Put>, b: Block, v: byte)
    requires q != [] && n > 0 && (forall i | 0 <= i < |q| :: |q[i].data| == n) && Aimed(q, b)
    ensures var q' := Advanced(n, q);
            Aimed(q', b) && (forall i | 0 <= i < |q'| :: |q'[i].data| == n) && (Without(n, q, v) ==> Without(n, q', v))
  {
    var q' := Advanced(n, q);
    var d := |q| - |q'|;
    assert forall i | 0 <= i < |q'| :: q'[i].block == q[i + d].block && q'[i].data == q[i + d].data;
  }

  lemma DeafDeliver(g: Config, s: State, r: Role, q: Role)
    requires Sized(g, s) && Deaf(g, s, r) && Enabled(g, s, Deliver(q))
    ensures Deaf(g, Step(g, s, Deliver(q)), r)
  {
    hide Step, Advanced;
    assert q == r || q == r.Peer();
    FlipFlop(g.p, q);
    DeliverFrame(g, s, q);
    DeliverEffect(g, s, q);
    AdvancedAims(g.n, PutsTo(s, q), RecvBlock(g.p, q), Await(g.p, r));
  }

  lemma DeafExit(g: Config, s: State, r: Role, q: Role)
    requires Sized(g, s) && Deaf(g, s, r) && Enabled(g, s, Exit(q))
    ensures Deaf(g, Step(g, s, Exit(q)), r)
  {
    hide Step;
    ExitEffect(g, s, q);
    FlipFlop(g.p, q);
  }

  lemma DeafKeeps(g: Config, s: State, r: Role, m: Move)
    requires Sized(g, s) && Deaf(g, s, r) && Enabled(g, s, m)
    ensures Deaf(g, Step(g, s, m), r)
  {
    hide *;
    match m
    case Send(q) => DeafSend(g, s, r, q);
    case Deliver(q) => DeafDeliver(g, s, r, q);
    case Exit(q) => DeafExit(g, s, r, q);
  }

  lemma {:induction false} DeafForever(g: Config, s0: State, r: Role, moves: seq<Move>, s: State)
    requires Initial(g, s0) && Reaches(g, s0, moves, s) && Deaf(g, s0, r)
    ensures Deaf(g, s, r)
  {
    if moves != [] {
      hide Step, Enabled, Initial, Deaf;
      var before, m := moves[..|moves| - 1], moves[|moves| - 1];
      var q :| Reaches(g, s0, before, q) && Enabled(g, q, m) && s == Step(g, q, m);
      DeafForever(g, s0, r, before, q);
      DeafKeeps(g, q, r, m);
    }
  }

  // A side that is deaf at the start stops a session before its first message is consumed.
  lemma DeafStuck(g: Config, s0: State, r: Role)
    requires Initial(g, s0) && Deaf(g, s0, r) && g.reps > 0
    ensures !Correct(g, s0)
  {
    var moves, s := RunToTheEnd(g, s0, [], s0);
    DeafForever(g, s0, r, moves, s);
    assert !Completed(g, s);
  }

  // A side whose polled byte is right before anything was sent takes an unwritten buffer.
  lemma EarlyUnsafe(g: Config, s0: State, r: Role)
    requires Initial(g, s0) && g.reps > 0
    requires Last(g, At(s0, r), RecvBlock(g.p, r)) == Await(g.p, r)
    ensures !Correct(g, s0)
  {
    if r.Rx? {
      assert Reaches(g, s0, [], s0) && Enabled(g, s0, Exit(Rx)) && !Safe(g, s0, Rx);
    } else {
      assert Reaches(g, s0, [], s0) && Enabled(g, s0, Send(Tx));
      Extend(g, s0, [], s0, Send(Tx));
      var s := Step(g, s0, Send(Tx));
      assert Enabled(g, s, Exit(Tx)) && !Safe(g, s, Tx);
    }
  }

  /** With protocol constants that fit together, every run is safe and every stopped run complete
      exactly when the two sides' buffers start out armed. */
  lemma ArmedIsExact(g: Config, s0: State)
    requires Sound(g.p) && Initial(g, s0) && g.reps > 0
    ensures Correct(g, s0) <==> Armed(g, s0)
  {
    if Armed(g, s0) {
      ArmedCorrect(g, s0);
    } else {
      hide Correct;
      FlipFlop(g.p, Tx);
      FlipFlop(g.p, Rx);
      if Last(g, s0.rx, RecvBlock(g.p, Rx)) == g.p.awaitRx {
        EarlyUnsafe(g, s0, Rx);
      } else if Last(g, s0.tx, RecvBlock(g.p, Tx)) == g.p.awaitTx {
        EarlyUnsafe(g, s0, Tx);
      } else if Last(g, s0.tx, SendBlock(g.p, Tx)) != g.p.awaitRx {
        DeafStuck(g, s0, Rx);
      } else {
        DeafStuck(g, s0, Tx);
      }
    }
  }

  // ----- where a round leaves the last bytes

  /** What the modules' documentation has the buffers hold: polled buffers the byte their own side
      resets to, send buffers the byte the peer waits for. */
  predicate Rested(g: Config, s: State)
    requires Sized(g, s)
  {
    Last(g, s.tx, RecvBlock(g.p, Tx)) == g.p.resetTx && Last(g, s.tx, SendBlock(g.p, Tx)) == g.p.awaitRx &&
    Last(g, s.rx, RecvBlock(g.p, Rx)) == g.p.resetRx &&
    (!g.p.shared ==> Last(g, s.rx, SendBlock(g.p, Rx)) == g.p.awaitTx)
  }

  lemma RestedArmed(g: Config, s: State)
    requires Sound(g.p) && Sized(g, s) && Rested(g, s)
    ensures Armed(g, s)
  {
  }

  /** From any start that works, each full round trip leaves every last byte where the documented
      start has it, so the next round, or the next call, can begin. */
  lemma RoundRestores(g: Config, s0: State, moves: seq<Move>, s: State)
    requires Sound(g.p) && Initial(g, s0) && Armed(g, s0) && Reaches(g, s0, moves, s)
    requires |s.tx.sent| == |s.tx.received| > 0
    ensures Rested(g, s) && s.putsToTx == [] && s.putsToRx == []
    ensures Armed(g, s)
    ensures s.tx.received == s.rx.sent && s.rx.received == s.tx.sent
  {
    hide Armed;
    ReachableInv(g, s0, moves, s);
    RestedArmed(g, s);
  }

  // ----- what the messages hold

  /** Every message r sends: its send buffer as it started, and with one shared buffer always the
      transmitter's, save for the last byte that the receiver has reset. */
  function Message(g: Config, s0: State, r: Role): seq<byte>
    requires Sized(g, s0)
  {
    if g.p.shared && r.Rx? then s0.tx.buff1[g.n - 1 := g.p.awaitTx] else Memory(At(s0, r), SendBlock(g.p, r))
  }

  predicate AllAre(q: seq<seq<byte>>, v: seq<byte>) {
    forall i | 0 <= i < |q| :: q[i] == v
  }

  ghost predicate Carries(g: Config, s0: State, s: State, r: Role)
    requires Sized(g, s0) && Sized(g, s)
  {
    var me := At(s, r);
    AllAre(me.sent, Message(g, s0, r)) &&
    (!g.p.shared || (if r.Tx? then |me.sent| == |me.received| else |me.sent| < |me.received|) ==>
      Memory(me, SendBlock(g.p, r)) == Message(g, s0, r))
  }

  lemma SendCarries(g: Config, s0: State, s: State, r: Role)
    requires Sized(g, s0) && Inv(g, s) && Enabled(g, s, Send(r))
    requires Carries(g, s0, s, Tx) && Carries(g, s0, s, Rx)
    ensures Carries(g, s0, Step(g, s, Send(r)), Tx) && Carries(g, s0, Step(g, s, Send(r)), Rx)
  {
    hide Channel, Turns, Ready, Step;
    SendEffect(g, s, r);
    FlipFlop(g.p, r);
  }

  lemma DeliverCarries(g: Config, s0: State, s: State, r: Role)
    requires Sized(g, s0) && Inv(g, s) && Enabled(g, s, Deliver(r))
    requires Carries(g, s0, s, Tx) && Carries(g, s0, s, Rx)
    ensures Carries(g, s0, Step(g, s, Deliver(r)), Tx) && Carries(g, s0, Step(g, s, Deliver(r)), Rx)
  {
    hide Message, Step, Ready, Advanced;
    DeliverFrame(g, s, r);
    DeliverEffect(g, s, r);
  }

  lemma ExitCarries(g: Config, s0: State, s: State, r: Role)
    requires Sound(g.p) && Inv(g, s) && Enabled(g, s, Exit(r))
    requires Sized(g, s0) && Last(g, s0.tx, SendBlock(g.p, Tx)) == g.p.awaitRx
    requires Carries(g, s0, s, Tx) && Carries(g, s0, s, Rx)
    ensures Carries(g, s0, Step(g, s, Exit(r)), Tx) && Carries(g, s0, Step(g, s, Exit(r)), Rx)
  {
    hide Step, Channel, Turns, Ready;
    ExitEffect(g, s, r);
    InvSafe(g, s, r);
    FlipFlop(g.p, r);
    var base := s0.tx.buff1;
    assert base[g.n - 1 := g.p.awaitTx][g.n - 1 := base[g.n - 1]] == base;
  }

  lemma {:induction false} ReachableCarries(g: Config, s0: State, moves: seq<Move>, s: State)
    requires Sound(g.p) && Initial(g, s0) && Armed(g, s0) && Reaches(g, s0, moves, s)
    ensures Inv(g, s) && Carries(g, s0, s, Tx) && Carries(g, s0, s, Rx)
  {
    ReachableInv(g, s0, moves, s);
    if moves != [] {
      var before, m := moves[..|moves| - 1], moves[|moves| - 1];
      var q :| Reaches(g, s0, before, q) && Enabled(g, q, m) && s == Step(g, q, m);
      hide Inv, Sound, Step, Enabled, Initial, Carries, Reaches, SendBlock, RecvBlock, Message;
      ReachableCarries(g, s0, before, q);
      match m
      case Send(r) => SendCarries(g, s0, q, r);
      case Deliver(r) => DeliverCarries(g, s0, q, r);
      case Exit(r) => ExitCarries(g, s0, q, r);
    }
  }

  /** Every message either side takes is its peer's one message, in every run from an armed start;
      and with a shared buffer the transmitter's memory returns to its first contents each round. */
  lemma MessagesFixed(g: Config, s0: State, moves: seq<Move>, s: State)
    requires Sound(g.p) && Initial(g, s0) && Armed(g, s0) && Reaches(g, s0, moves, s)
    ensures AllAre(s.tx.received, Message(g, s0, Rx)) && AllAre(s.rx.received, Message(g, s0, Tx))
    ensures g.p.shared && |s.tx.sent| == |s.tx.received| ==> s.tx.buff1 == s0.tx.buff1
    ensures !g.p.shared ==> s.tx.buff2 == s0.tx.buff2 && s.rx.buff1 == s0.rx.buff1
  {
    ReachableCarries(g, s0, moves, s);
    InvSafe(g, s, Tx);
    InvSafe(g, s, Rx);
  }
}
