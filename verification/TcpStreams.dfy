/** Each side's run_iters, run alone against the stream its peer is supposed to produce, produces
    its own side of the session: the sequential code and the state machine agree on every byte. */
module TcpStreams {
  import opened Bytes
  import opened Roles
  import opened Pattern
  import opened Session
  import opened SessionProof
  import opened EndToEnd
  import opened Options
  import opened Tcp

  // Index of data message j in a direction: behind size, count and Sync one way, Sync the other.
  function DataIndex(dir: Direction, j: nat): nat { (if dir.Forward? then 3 else 1) + j }

  function OutOf(tr: bool): Direction { if tr then Forward else Backward }

  function InTo(tr: bool): Direction { if tr then Backward else Forward }

  // The process after j repetitions of call i, its streams at data message j.
  ghost predicate AtRepetition(g: Config, tr: bool, i: nat, j: nat, l: Local, base: seq<byte>)
    requires ValidConfig(g) && i < |g.calls|
  {
    var f := FillAt(g, if tr then Tx else Rx, i);
    l.incoming == From(g, InTo(tr), i, DataIndex(InTo(tr), j)) &&
    l.outgoing + From(g, OutOf(tr), i, DataIndex(OutOf(tr), j)) == base &&
    l.rBuff == (if j == 0 then f.recv else Data(g, InTo(tr), i)) &&
    l.sBuff == (if g.cache then l.rBuff else f.send)
  }

  lemma SendMatches(g: Config, tr: bool, i: nat, j: nat, l: Local, base: seq<byte>)
    requires ValidConfig(g) && i < |g.calls| && g.calls[i].size != 0 && j < Reps(g.calls[i])
    requires l.sBuff == Data(g, OutOf(tr), i)
    requires l.outgoing + From(g, OutOf(tr), i, DataIndex(OutOf(tr), j)) == base
    ensures Sent(l).outgoing + From(g, OutOf(tr), i, DataIndex(OutOf(tr), j + 1)) == base
  {
    NextMsg(g, OutOf(tr), i, DataIndex(OutOf(tr), j));
    DataMsg(g, OutOf(tr), i, j);
    Regroup(l.outgoing, l.sBuff, From(g, OutOf(tr), i, DataIndex(OutOf(tr), j + 1)));
    hide From, Msg, Data, Reps;
  }

  lemma DataMsg(g: Config, dir: Direction, i: nat, j: nat)
    requires ValidConfig(g) && i < |g.calls| && g.calls[i].size != 0 && j < Reps(g.calls[i])
    ensures DataIndex(dir, j) < Count(g, dir, i) && Msg(g, dir, i, DataIndex(dir, j)) == Data(g, dir, i)
  {
    hide Data, Reps;
  }

  lemma Regroup(a: seq<byte>, b: seq<byte>, c: seq<byte>)
    ensures a + (b + c) == (a + b) + c
  {
  }

  lemma ReceiveMatches(g: Config, tr: bool, i: nat, j: nat, l: Local)
    requires ValidConfig(g) && i < |g.calls| && g.calls[i].size != 0 && j < Reps(g.calls[i])
    requires |l.rBuff| == Bufflen(g.calls[i].size)
    requires l.incoming == From(g, InTo(tr), i, DataIndex(InTo(tr), j))
    ensures var q := Received(g.cache, l);
            q.rBuff == Data(g, InTo(tr), i) && q.sBuff == (if g.cache then q.rBuff else l.sBuff) &&
            q.incoming == From(g, InTo(tr), i, DataIndex(InTo(tr), j + 1)) && q.outgoing == l.outgoing
  {
    var next := From(g, InTo(tr), i, DataIndex(InTo(tr), j + 1));
    assert l.incoming == Data(g, InTo(tr), i) + next by {
      NextMsg(g, InTo(tr), i, DataIndex(InTo(tr), j));
      DataMsg(g, InTo(tr), i, j);
      hide From, Msg, Data, Reps, Bufflen;
    }
    hide *;
    FullMessage(g.cache, l, Data(g, InTo(tr), i), next);
  }

  // A whole message that fills the buffer is at the front of the stream.
  lemma FullMessage(cache: bool, l: Local, msg: seq<byte>, later: seq<byte>)
    requires l.incoming == msg + later && |msg| == |l.rBuff|
    ensures Received(cache, l) == l.(rBuff := msg, sBuff := if cache then msg else l.sBuff, incoming := later,
                                     readAt := l.readAt + Copies(|l.outgoing|, |msg|))
  {
    assert l.rBuff[|l.rBuff|..] == [];
  }

  // One trip of the loop.
  function Trip(cache: bool, tr: bool, l: Local): Local {
    if tr then Received(cache, Sent(l)) else Sent(Received(cache, l))
  }

  lemma TripMatches(g: Config, tr: bool, i: nat, j: nat, l: Local, base: seq<byte>)
    requires ValidConfig(g) && i < |g.calls| && g.calls[i].size != 0 && j < Reps(g.calls[i])
    requires AtRepetition(g, tr, i, j, l, base)
    ensures AtRepetition(g, tr, i, j + 1, Trip(g.cache, tr, l), base)
  {
    hide From, Reps, Bufflen, Received, Sent;
    if tr {
      SendMatches(g, tr, i, j, l, base);
      SentOnly(l);
      ReceiveMatches(g, tr, i, j, Sent(l));
    } else {
      ReceiveMatches(g, tr, i, j, l);
      SendMatches(g, tr, i, j, Received(g.cache, l), base);
      SentOnly(Received(g.cache, l));
    }
  }

  lemma {:induction false} LoopMatches(g: Config, tr: bool, i: nat, l: Local, j: nat, base: seq<byte>)
    requires ValidConfig(g) && i < |g.calls| && g.calls[i].size != 0 && j <= Reps(g.calls[i])
    requires AtRepetition(g, tr, i, 0, l, base)
    ensures AtRepetition(g, tr, i, j, PingPong(g.cache, tr, l, j), base)
  {
    hide From, AtRepetition, Reps, Received, Sent;
    if j == 0 {
      NoTrips(g.cache, tr, l);
    } else {
      LoopMatches(g, tr, i, l, j - 1, base);
      TripMatches(g, tr, i, j - 1, PingPong(g.cache, tr, l, j - 1), base);
    }
  }

  lemma NoTrips(cache: bool, tr: bool, l: Local)
    ensures PingPong(cache, tr, l, 0) == l
  {
  }

  lemma SentOnly(l: Local)
    ensures Sent(l) == l.(outgoing := Sent(l).outgoing)
  {
  }

  /** The receive buffer call i leaves to the check on one side. */
  function FinalBuffer(g: Config, tr: bool, i: nat): seq<byte>
    requires ValidConfig(g) && i < |g.calls|
  {
    if Reps(g.calls[i]) == 0 then FillAt(g, if tr then Tx else Rx, i).recv else Data(g, InTo(tr), i)
  }

  /** How call i ends on one side. With a size of zero the receiver takes the signal to exit, so the
      transmitter finds the connection closed where it expects the answer to its "SyncMe". */
  function Expected(g: Config, tr: bool, i: nat): Outcome
    requires ValidConfig(g) && i < |g.calls|
  {
    var c := g.calls[i];
    if c.size != 0 then Done(c.size, c.nrepeat, CheckReports(FinalBuffer(g, tr, i)))
    else if tr then Died
    else ExitSignal
  }

  lemma MeasuredMatches(cache: bool, calls: seq<Call>, cap: nat, tr: bool, i: nat, w: Wires, base: seq<byte>)
    requires cap >= 6 && i < |calls| && calls[i].size != 0
    requires ValidConfig(Program(cache, calls, cap))
    requires var g := Program(cache, calls, cap);
             w.incoming == From(g, InTo(tr), i, if tr then 0 else 2) &&
             w.outgoing + From(g, OutOf(tr), i, 0) == base
    ensures var g := Program(cache, calls, cap);
            var (outcome, w') := Measured(cache, tr, calls[i].size, calls[i].nrepeat, w);
            outcome == Expected(g, tr, i) && w'.incoming == From(g, InTo(tr), i + 1, 0) &&
            w'.outgoing + From(g, OutOf(tr), i + 1, 0) == base
  {
    var g := Program(cache, calls, cap);
    var c := calls[i];
    var f := InitFill(cache, Bufflen(c.size));
    var out := w.outgoing + (if tr then Htonl(c.size) + Htonl(c.nrepeat) else []) + SYNC;
    SyncMatches(g, tr, i, w, base);
    var l := Local(f.recv, f.send, w.incoming[6..], out, w.readAt + Copies(|out|, 6));
    StartOfLoop(g, tr, i, l, base);
    hide From, AtRepetition, Bufflen, Htonl, PingPong, InitFill, CheckReports;
    LoopMatches(g, tr, i, l, Reps(c), base);
    var end := PingPong(cache, tr, l, Reps(c));
    EndOfLoop(g, tr, i, end, base);
    EndBuffer(g, tr, i, end, base);
  }

  lemma StartOfLoop(g: Config, tr: bool, i: nat, l: Local, base: seq<byte>)
    requires ValidConfig(g) && i < |g.calls| && g == Program(g.cache, g.calls, g.cap)
    requires l.rBuff == InitFill(g.cache, Bufflen(g.calls[i].size)).recv
    requires l.sBuff == InitFill(g.cache, Bufflen(g.calls[i].size)).send
    requires l.incoming == From(g, InTo(tr), i, DataIndex(InTo(tr), 0))
    requires l.outgoing + From(g, OutOf(tr), i, DataIndex(OutOf(tr), 0)) == base
    ensures AtRepetition(g, tr, i, 0, l, base)
  {
    hide From, Bufflen;
  }

  lemma EndOfLoop(g: Config, tr: bool, i: nat, l: Local, base: seq<byte>)
    requires ValidConfig(g) && i < |g.calls| && g.calls[i].size != 0
    requires AtRepetition(g, tr, i, Reps(g.calls[i]), l, base)
    ensures l.incoming == From(g, InTo(tr), i + 1, 0) && l.outgoing + From(g, OutOf(tr), i + 1, 0) == base
  {
    CallEnd(g, Forward, i, DataIndex(Forward, Reps(g.calls[i])));
    CallEnd(g, Backward, i, DataIndex(Backward, Reps(g.calls[i])));
    hide From;
  }

  lemma EndBuffer(g: Config, tr: bool, i: nat, l: Local, base: seq<byte>)
    requires ValidConfig(g) && i < |g.calls| && AtRepetition(g, tr, i, Reps(g.calls[i]), l, base)
    ensures l.rBuff == FinalBuffer(g, tr, i)
  {
    hide From, Reps, Data;
  }

  // Header and Sync at the front of the two streams.
  lemma SyncMatches(g: Config, tr: bool, i: nat, w: Wires, base: seq<byte>)
    requires ValidConfig(g) && i < |g.calls| && g.calls[i].size != 0
    requires w.incoming == From(g, InTo(tr), i, if tr then 0 else 2)
    requires w.outgoing + From(g, OutOf(tr), i, 0) == base
    ensures |w.incoming| >= 6 && SYNC <= w.incoming
    ensures w.incoming[6..] == From(g, InTo(tr), i, DataIndex(InTo(tr), 0))
    ensures var c := g.calls[i];
            var out := w.outgoing + (if tr then Htonl(c.size) + Htonl(c.nrepeat) else []) + SYNC;
            out + From(g, OutOf(tr), i, DataIndex(OutOf(tr), 0)) == base
  {
    hide From, Htonl;
    NextMsg(g, InTo(tr), i, if tr then 0 else 2);
    NextMsg(g, OutOf(tr), i, 0);
    if tr {
      NextMsg(g, Forward, i, 1);
      NextMsg(g, Forward, i, 2);
    }
  }

  /** What a direction still carries after call i; after a size of zero, nothing. */
  function Later(g: Config, dir: Direction, i: nat): seq<byte>
    requires ValidConfig(g) && i < |g.calls|
  {
    if g.calls[i].size == 0 then [] else From(g, dir, i + 1, 0)
  }

  /** The transmitter's call i, given its arguments, consumes exactly the bytes the receiver sends in
      call i, writes exactly the transmitter's bytes of call i, and ends as expected. */
  lemma TransmitterCall(cache: bool, calls: seq<Call>, cap: nat, i: nat, w: Wires)
    requires cap >= 6 && i < |calls| && ValidConfig(Program(cache, calls, cap))
    requires w.incoming == From(Program(cache, calls, cap), Backward, i, 0)
    ensures var g := Program(cache, calls, cap);
            var (outcome, w') := RunIters(cache, true, Some((calls[i].size, calls[i].nrepeat)), w);
            outcome == Expected(g, true, i) && w'.incoming == Later(g, Backward, i) &&
            w'.outgoing + Later(g, Forward, i) == w.outgoing + From(g, Forward, i, 0)
  {
    var g := Program(cache, calls, cap);
    hide Measured, From;
    if calls[i].size == 0 {
      ZeroTransmitted(cache, calls, cap, i, w);
    } else {
      MeasuredMatches(cache, calls, cap, true, i, w, w.outgoing + From(g, Forward, i, 0));
    }
  }

  lemma ZeroTransmitted(cache: bool, calls: seq<Call>, cap: nat, i: nat, w: Wires)
    requires i < |calls| && calls[i].size == 0 && ValidConfig(Program(cache, calls, cap))
    requires w.incoming == From(Program(cache, calls, cap), Backward, i, 0)
    ensures Measured(cache, true, calls[i].size, calls[i].nrepeat, w)
         == (Died, Wires([], w.outgoing + From(Program(cache, calls, cap), Forward, i, 0), w.readAt))
  {
    var g := Program(cache, calls, cap);
    ZeroCall(g, i);
    hide From, Htonl;
    Regroup(w.outgoing, Htonl(calls[i].size) + Htonl(calls[i].nrepeat), SYNC);
    NoCopies(w.readAt, |w.outgoing + (Htonl(calls[i].size) + Htonl(calls[i].nrepeat)) + SYNC|);
  }

  // All that a call of size zero puts on the wires.
  lemma ZeroCall(g: Config, i: nat)
    requires ValidConfig(g) && i < |g.calls| && g.calls[i].size == 0
    ensures From(g, Forward, i, 0) == Htonl(g.calls[i].size) + Htonl(g.calls[i].nrepeat) + SYNC
    ensures From(g, Forward, i, 2) == SYNC && From(g, Backward, i, 0) == []
  {
    NextMsg(g, Forward, i, 0);
    NextMsg(g, Forward, i, 1);
    NextMsg(g, Forward, i, 2);
    hide Htonl;
    assert From(g, Forward, i, 3) == [];
  }

  /** The receiver's call, without arguments, learns size and count from the stream. A size of zero
      makes it leave with the transmitter's "SyncMe" unread. */
  lemma ReceiverCall(cache: bool, calls: seq<Call>, cap: nat, i: nat, w: Wires)
    requires cap >= 6 && i < |calls| && ValidConfig(Program(cache, calls, cap))
    requires w.incoming == From(Program(cache, calls, cap), Forward, i, 0)
    ensures var g := Program(cache, calls, cap);
            var (outcome, w') := RunIters(cache, false, None, w);
            outcome == Expected(g, false, i) &&
            w'.incoming == (if calls[i].size == 0 then SYNC else From(g, Forward, i + 1, 0)) &&
            w'.outgoing + Later(g, Backward, i) == w.outgoing + From(g, Backward, i, 0)
  {
    var g := Program(cache, calls, cap);
    HeaderMatches(g, i, w.incoming);
    hide Measured, From, Htonl, Ntohl;
    if calls[i].size == 0 {
      ZeroCall(g, i);
    } else {
      var w' := AfterHeader(w);
      MeasuredMatches(cache, calls, cap, false, i, w', w.outgoing + From(g, Backward, i, 0));
    }
  }

  lemma HeaderMatches(g: Config, i: nat, incoming: seq<byte>)
    requires ValidConfig(g) && i < |g.calls| && incoming == From(g, Forward, i, 0)
    ensures |incoming| >= 8 && incoming[8..] == From(g, Forward, i, 2)
    ensures Ntohl(incoming[..4]) == g.calls[i].size && Ntohl(incoming[4..8]) == g.calls[i].nrepeat
  {
    hide From, Htonl, Ntohl;
    var c := g.calls[i];
    NextMsg(g, Forward, i, 0);
    NextMsg(g, Forward, i, 1);
    NtohlHtonl(c.size);
    NtohlHtonl(c.nrepeat);
    TwoFours(Htonl(c.size), Htonl(c.nrepeat), From(g, Forward, i, 2));
  }

  lemma TwoFours(a: seq<byte>, b: seq<byte>, rest: seq<byte>)
    requires |a| == |b| == 4
    ensures var s := a + (b + rest);
            s[..4] == a && s[4..8] == b && s[8..] == rest
  {
  }

  // ----- both programs from beginning to end

  /** The transmitter: call after call while they succeed. */
  function TransmitterRun(cache: bool, calls: seq<Call>, i: nat, w: Wires): (seq<Outcome>, Wires)
    requires i <= |calls|
    decreases |calls| - i
  {
    if i == |calls| then ([], w)
    else
      var (outcome, w') := RunIters(cache, true, Some((calls[i].size, calls[i].nrepeat)), w);
      if !outcome.Done? then ([outcome], w')
      else
        var (later, end) := TransmitterRun(cache, calls, i + 1, w');
        ([outcome] + later, end)
  }

  lemma {:induction false} PingPongReads(cache: bool, tr: bool, l: Local, k: nat)
    ensures |PingPong(cache, tr, l, k).incoming| <= |l.incoming|
  {
    if k > 0 {
      PingPongReads(cache, tr, l, k - 1);
    }
  }

  lemma MeasuredReads(cache: bool, size: bv32, nrepeat: bv32, w: Wires)
    ensures |Measured(cache, false, size, nrepeat, w).1.incoming| <= |w.incoming|
  {
    hide PingPong, InitFill, Bufflen, CheckReports;
    var f := InitFill(cache, Bufflen(size));
    var rest := w.incoming[Min(6, |w.incoming|)..];
    var out := w.outgoing + [] + SYNC;
    var readAt := w.readAt + Copies(|out|, Min(6, |w.incoming|));
    PingPongReads(cache, false, Local(f.recv, f.send, rest, out, readAt), nrepeat as nat);
  }

  lemma ReceiverReads(cache: bool, w: Wires)
    ensures var (outcome, w') := RunIters(cache, false, None, w);
            outcome.Done? ==> |w'.incoming| < |w.incoming|
  {
    hide Measured, Ntohl;
    if |w.incoming| >= 8 {
      var size, nrepeat := Ntohl(w.incoming[..4]), Ntohl(w.incoming[4..8]);
      MeasuredReads(cache, size, nrepeat, AfterHeader(w));
    }
  }

  /** The receiver: calls without arguments until one does not succeed. */
  function ReceiverRun(cache: bool, w: Wires): (seq<Outcome>, Wires)
    decreases |w.incoming|
  {
    var (outcome, w') := RunIters(cache, false, None, w);
    ReceiverReads(cache, w);
    if !outcome.Done? then ([outcome], w')
    else
      var (later, end) := ReceiverRun(cache, w');
      ([outcome] + later, end)
  }

  /** How the calls from i on end. After the last of them the receiver meets the end of the stream
      where it expects a header. */
  function ExpectedRun(g: Config, tr: bool, i: nat): seq<Outcome>
    requires ValidConfig(g) && i <= |g.calls|
    decreases |g.calls| - i
  {
    if i == |g.calls| then if tr then [] else [Died]
    else if g.calls[i].size == 0 then [Expected(g, tr, i)]
    else [Expected(g, tr, i)] + ExpectedRun(g, tr, i + 1)
  }

  // What the receiver leaves unread: the "SyncMe" behind the first size of zero.
  function Unread(g: Config, i: nat): seq<byte>
    requires i <= |g.calls|
    decreases |g.calls| - i
  {
    if i == |g.calls| then [] else if g.calls[i].size == 0 then SYNC else Unread(g, i + 1)
  }

  lemma NothingAfter(g: Config)
    requires ValidConfig(g)
    ensures From(g, Forward, |g.calls|, 0) == From(g, Backward, |g.calls|, 0) == []
  {
  }

  lemma ReceiverAtEnd(cache: bool, w: Wires)
    requires w.incoming == []
    ensures RunIters(cache, false, None, w) == (Died, w)
  {
    NoCopies(w.readAt, |w.outgoing|);
  }

  lemma ExpectedKind(g: Config, tr: bool, i: nat)
    requires ValidConfig(g) && i < |g.calls|
    ensures Expected(g, tr, i).Done? <==> g.calls[i].size != 0
  {
  }

  lemma {:induction false} TransmitterFrom(cache: bool, calls: seq<Call>, cap: nat, i: nat, w: Wires)
    requires cap >= 6 && i <= |calls| && ValidConfig(Program(cache, calls, cap))
    requires w.incoming == From(Program(cache, calls, cap), Backward, i, 0)
    ensures var g := Program(cache, calls, cap);
            var (outcomes, end) := TransmitterRun(cache, calls, i, w);
            outcomes == ExpectedRun(g, true, i) &&
            end.incoming == [] && end.outgoing == w.outgoing + From(g, Forward, i, 0)
    decreases |calls| - i
  {
    hide From, RunIters, Expected;
    var g := Program(cache, calls, cap);
    NothingAfter(g);
    if i < |calls| {
      ExpectedKind(g, true, i);
      TransmitterCall(cache, calls, cap, i, w);
      var (outcome, w') := RunIters(cache, true, Some((calls[i].size, calls[i].nrepeat)), w);
      if calls[i].size != 0 {
        TransmitterFrom(cache, calls, cap, i + 1, w');
      } else {
        assert w'.outgoing + [] == w'.outgoing;
      }
    }
  }

  lemma {:induction false} ReceiverFrom(cache: bool, calls: seq<Call>, cap: nat, i: nat, w: Wires)
    requires cap >= 6 && i <= |calls| && ValidConfig(Program(cache, calls, cap))
    requires w.incoming == From(Program(cache, calls, cap), Forward, i, 0)
    ensures var g := Program(cache, calls, cap);
            var (outcomes, end) := ReceiverRun(cache, w);
            outcomes == ExpectedRun(g, false, i) &&
            end.incoming == Unread(g, i) && end.outgoing == w.outgoing + From(g, Backward, i, 0)
    decreases |calls| - i
  {
    hide From, RunIters, Expected;
    var g := Program(cache, calls, cap);
    NothingAfter(g);
    if i == |calls| {
      ReceiverAtEnd(cache, w);
    } else {
      ExpectedKind(g, false, i);
      ReceiverCall(cache, calls, cap, i, w);
      var (outcome, w') := RunIters(cache, false, None, w);
      if calls[i].size != 0 {
        ReceiverFrom(cache, calls, cap, i + 1, w');
      } else {
        assert w'.outgoing + [] == w'.outgoing;
      }
    }
  }

  /** The whole session of the two sequential programs, for any calls: the transmitter's code fed the
      receiver's output writes the very stream which, fed to the receiver's code, yields that output,
      and every call on both sides ends as expected. */
  lemma WholeSession(cache: bool, calls: seq<Call>, cap: nat)
    requires cap >= 6
    ensures ValidConfig(Program(cache, calls, cap))
    ensures var g := Program(cache, calls, cap);
            var forward, backward := From(g, Forward, 0, 0), From(g, Backward, 0, 0);
            var (txOutcomes, tx) := TransmitterRun(cache, calls, 0, Wires(backward, [], []));
            var (rxOutcomes, rx) := ReceiverRun(cache, Wires(forward, [], []));
            txOutcomes == ExpectedRun(g, true, 0) && tx.incoming == [] && tx.outgoing == forward &&
            rxOutcomes == ExpectedRun(g, false, 0) && rx.incoming == Unread(g, 0) && rx.outgoing == backward
  {
    ProgramValid(cache, calls, cap);
    var g := Program(cache, calls, cap);
    var forward, backward := From(g, Forward, 0, 0), From(g, Backward, 0, 0);
    hide From, TransmitterRun, ReceiverRun, ExpectedRun, Unread;
    TransmitterFrom(cache, calls, cap, 0, Wires(backward, [], []));
    ReceiverFrom(cache, calls, cap, 0, Wires(forward, [], []));
    assert [] + forward == forward && [] + backward == backward;
  }

  /** In default mode a call of positive size reports nothing on either side if and only if it
      repeats at least once; in cache mode it always reports. */
  lemma ExpectedReports(cache: bool, calls: seq<Call>, cap: nat, tr: bool, i: nat)
    requires i < |calls| && calls[i].size != 0 && ValidConfig(Program(cache, calls, cap))
    ensures var outcome := Expected(Program(cache, calls, cap), tr, i);
            outcome.Done? && (outcome.reports == [] <==> !cache && Reps(calls[i]) > 0)
  {
    hide Stream, Reps, Reports;
    var n := Bufflen(calls[i].size);
    BufflenZero(calls[i].size);
    FirstByteDiffers(n);
    SilentIffEqual(Stream(SEED_B, n), Stream(SEED_B, n));
    if cache {
      CacheBufferReported(n);
    }
  }
}
