/** What follows for whole runs: no deadlock, how every run ends, and what the buffers hold then. */
module SessionTheorems {
  import opened Bytes
  import opened Roles
  import opened Session
  import opened SessionProof

  ghost predicate AllPositive(g: Config) {
    forall i | 0 <= i < |g.calls| :: g.calls[i].size != 0
  }

  /** Both sides are done with every call, nothing is in flight, the receiver waits for a header. */
  ghost predicate Completed(g: Config, s: State) {
    s.tx.phase.Finished? && s.rx.phase.SizeField? && s.rx.got == [] &&
    |s.tx.log| == |s.rx.log| == |g.calls| && s.t2r == [] && s.r2t == []
  }

  /** The receiver took a size of zero for the signal to exit; the transmitter, which treats zero
      like any other size, waits in Sync for an answer, its own "SyncMe" left unread. */
  ghost predicate Abandoned(g: Config, s: State) {
    s.tx.phase.SyncIn? && s.rx.phase.Exited? && |s.tx.log| == |s.rx.log| < |g.calls| &&
    g.calls[|s.tx.log|].size == 0 && s.t2r == SYNC && s.r2t == []
  }

  ghost predicate Stuck(g: Config, s: State) {
    forall m: Move :: !Enabled(g, s, m)
  }

  // ----- positions in a stream, compared by what is still to come

  lemma {:induction false} FromMonotone(g: Config, dir: Direction, i: nat, f: nat, i': nat, f': nat)
    requires ValidConfig(g) && i' <= |g.calls|
    requires (i == i' && f <= f') || (i < i' && forall c | i <= c < i' :: g.calls[c].size != 0)
    ensures |From(g, dir, i', f')| <= |From(g, dir, i, f)|
    decreases |g.calls| - i, if i < |g.calls| then Count(g, dir, i) - f else 0
  {
    hide Count, Msg;
    if i < |g.calls| {
      if f < Count(g, dir, i) {
        if i < i' || f < f' {
          FromMonotone(g, dir, i, f + 1, i', f');
        }
      } else if i < i' {
        FromMonotone(g, dir, i + 1, 0, i', f');
      }
    }
  }

  // q cannot be past the message p is in if more remains of the stream at q than after that message.
  lemma NotLater(g: Config, p: Node, q: Node, dir: Direction)
    requires ValidConfig(g) && GoodLog(g, p) && GoodLog(g, q)
    requires |p.log| < |g.calls| && Position(p, dir) < Count(g, dir, |p.log|)
    requires |Rest(g, q, dir)| > |Rest(g, p, dir)| - |Msg(g, dir, |p.log|, Position(p, dir))|
    ensures |q.log| < |p.log| || (|q.log| == |p.log| && Position(q, dir) <= Position(p, dir))
  {
    hide Position, Msg, Count;
    NextMsg(g, dir, |p.log|, Position(p, dir));
    if |q.log| > |p.log| || (|q.log| == |p.log| && Position(q, dir) > Position(p, dir)) {
      FromMonotone(g, dir, |p.log|, Position(p, dir) + 1, |q.log|, Position(q, dir));
    }
  }

  // While p writes a message its peer is not past reading it.
  lemma ReaderNotAhead(g: Config, p: Node, q: Node, queue: seq<byte>)
    requires ValidConfig(g) && Good(g, p) && Good(g, q) && Sends(p) && In(q) == Out(p)
    requires FutureIn(g, q) == queue + FutureOut(g, p)
    ensures |q.log| < |p.log| || (|q.log| == |p.log| && Position(q, Out(p)) <= Position(p, Out(p)))
  {
    OutgoingIsMsg(g, p);
    NextMsg(g, Out(p), |p.log|, Position(p, Out(p)));
    hide Position, Msg, Count, From, Outgoing;
    NotLater(g, p, q, Out(p));
  }

  // With nothing in flight, the writer is not past the message its peer is reading.
  lemma WriterNotAhead(g: Config, p: Node, q: Node)
    requires ValidConfig(g) && Good(g, p) && Good(g, q) && Receives(p) && Out(q) == In(p)
    requires FutureIn(g, p) == FutureOut(g, q) && Rest(g, p, In(p)) != []
    ensures |q.log| < |p.log| || (|q.log| == |p.log| && Position(q, In(p)) <= Position(p, In(p)))
  {
    WantedIsMsg(g, p);
    NextMsg(g, In(p), |p.log|, Position(p, In(p)));
    hide Position, Msg, Count, From, Wanted;
    NotLater(g, p, q, In(p));
  }

  // ----- stuck states

  lemma StuckWriter(g: Config, s: State)
    requires ValidConfig(g) && Inv(g, s) && Stuck(g, s)
    ensures Sends(s.tx) ==> s.t2r != []
    ensures Sends(s.rx) ==> s.r2t != []
  {
    hide From, Position, Msg, Count;
    if Sends(s.tx) {
      var n := |Outgoing(g, s.tx)|;
      assert !Enabled(g, s, TxWrite(if Unsplit(s.tx) then n else 1));
    }
    if Sends(s.rx) {
      var n := |Outgoing(g, s.rx)|;
      assert !Enabled(g, s, RxWrite(if Unsplit(s.rx) then n else 1));
    }
  }

  lemma StuckReader(g: Config, s: State)
    requires ValidConfig(g) && Inv(g, s) && Stuck(g, s)
    ensures Receives(s.tx) ==> s.r2t == []
    ensures Receives(s.rx) ==> s.t2r == []
  {
    hide From, Position, Msg, Count;
    assert !Enabled(g, s, TxRead(1));
    assert !Enabled(g, s, RxRead(1));
  }

  lemma NotBothWriting(g: Config, s: State)
    requires ValidConfig(g) && Inv(g, s) && Stuck(g, s)
    ensures !(Sends(s.tx) && Sends(s.rx))
  {
    hide From, Msg, Count;
    if Sends(s.tx) && Sends(s.rx) {
      StuckWriter(g, s);
      ReaderNotAhead(g, s.tx, s.rx, s.t2r);
      ReaderNotAhead(g, s.rx, s.tx, s.r2t);
    }
  }

  lemma NotBothReading(g: Config, s: State)
    requires ValidConfig(g) && Inv(g, s) && Stuck(g, s)
    requires Receives(s.tx) && Receives(s.rx)
    ensures Rest(g, s.tx, Backward) == [] || Rest(g, s.rx, Forward) == []
  {
    hide From, Msg, Count;
    StuckReader(g, s);
    if Rest(g, s.tx, Backward) != [] && Rest(g, s.rx, Forward) != [] {
      WriterNotAhead(g, s.tx, s.rx);
      WriterNotAhead(g, s.rx, s.tx);
    }
  }

  // A reader with nothing to come has read nothing of a message, and no message is left.
  lemma NothingToRead(g: Config, p: Node)
    requires ValidConfig(g) && Good(g, p) && Receives(p) && FutureIn(g, p) == []
    ensures Rest(g, p, In(p)) == [] && p.got == []
    ensures p.role.Rx? ==> p.phase.SizeField? && |p.log| == |g.calls|
    ensures p.role.Tx? ==> p.phase.SyncIn? && g.calls[|p.log|].size == 0 && Rest(g, p, Forward) == []
  {
    if Rest(g, p, In(p)) != [] {
      SomethingToRead(g, p);
    }
  }

  lemma SomethingToRead(g: Config, p: Node)
    requires ValidConfig(g) && Good(g, p) && Receives(p) && Rest(g, p, In(p)) != []
    ensures FutureIn(g, p) != []
  {
    WantedIsMsg(g, p);
    NextMsg(g, In(p), |p.log|, Position(p, In(p)));
    hide From, Msg, Count, Position, Wanted;
  }

  lemma SomethingToWrite(g: Config, p: Node)
    requires ValidConfig(g) && Good(g, p) && Sends(p)
    ensures FutureOut(g, p) != []
  {
    OutgoingIsMsg(g, p);
    NextMsg(g, Out(p), |p.log|, Position(p, Out(p)));
    hide From, Msg, Count, Position, Outgoing;
  }

  lemma ExitedFuture(g: Config, p: Node)
    requires ValidConfig(g) && Good(g, p) && p.role.Rx? && p.phase.Exited?
    ensures FutureOut(g, p) == [] && FutureIn(g, p) == SYNC && Position(p, Forward) == 2
    ensures FutureIn(g, p) == From(g, Forward, |p.log|, 2)
  {
    assert From(g, Forward, |p.log|, 3) == [];
  }

  // The first call of size zero is where both sides stop counting.
  lemma SameZeroCall(g: Config, p: Node, q: Node)
    requires ValidConfig(g) && GoodLog(g, p) && GoodLog(g, q)
    requires |p.log| < |g.calls| && |q.log| < |g.calls|
    requires g.calls[|p.log|].size == 0 && g.calls[|q.log|].size == 0
    ensures |p.log| == |q.log|
  {
  }

  lemma StuckSender(g: Config, s: State)
    requires ValidConfig(g) && Inv(g, s) && Stuck(g, s)
    ensures !Sends(s.tx)
  {
    if Sends(s.tx) {
      StuckWriter(g, s);
      StuckReader(g, s);
      NotBothWriting(g, s);
      assert s.rx.phase.Exited?;
      ExitedFuture(g, s.rx);
      ReaderNotAhead(g, s.tx, s.rx, s.t2r);
      OutgoingIsMsg(g, s.tx);
      hide From, Msg, Count, Outgoing;
    }
  }

  lemma StuckReceiver(g: Config, s: State)
    requires ValidConfig(g) && Inv(g, s) && Stuck(g, s) && Receives(s.tx)
    ensures Abandoned(g, s)
  {
    StuckReader(g, s);
    StuckWriter(g, s);
    if Receives(s.rx) {
      NotBothReading(g, s);
      hide From, Msg, Count, Position;
      if Rest(g, s.tx, Backward) == [] {
        NothingToRead(g, s.tx);
        NothingToRead(g, s.rx);
      } else {
        ReaderAtEnd(g, s.rx);
        NothingToRead(g, s.tx);
      }
    } else {
      ExitedFuture(g, s.rx);
      hide From, Msg, Count, Position;
      NothingToRead(g, s.tx);
      SameZeroCall(g, s.tx, s.rx);
    }
  }

  lemma ReaderAtEnd(g: Config, p: Node)
    requires ValidConfig(g) && Good(g, p) && p.role.Rx? && Receives(p) && Rest(g, p, Forward) == []
    ensures |p.log| == |g.calls| && FutureOut(g, p) == []
  {
  }

  lemma StuckFinished(g: Config, s: State)
    requires ValidConfig(g) && Inv(g, s) && Stuck(g, s) && s.tx.phase.Finished?
    ensures Completed(g, s)
  {
    assert FutureIn(g, s.tx) == [] && FutureOut(g, s.tx) == [];
    hide From, Msg, Count, Position;
    if Sends(s.rx) {
      SomethingToWrite(g, s.rx);
    } else if Receives(s.rx) {
      StuckReader(g, s);
      NothingToRead(g, s.rx);
    }
  }

  /** No deadlock: a reachable state from which nothing can move is one in which every call is
      done, or the one in which a size of zero has left the transmitter alone in Sync. Which of the
      two is decided by the calls: the session completes if and only if no size is zero. */
  lemma StuckIsFinal(g: Config, moves: seq<Move>, s: State)
    requires ValidConfig(g) && Reaches(g, moves, s) && Stuck(g, s)
    ensures if AllPositive(g) then Completed(g, s) else Abandoned(g, s)
  {
    ReachableInv(g, moves, s);
    StuckSender(g, s);
    hide From, Msg, Count, Position;
    if Receives(s.tx) {
      StuckReceiver(g, s);
    } else {
      StuckFinished(g, s);
    }
  }

  // One more move of a run.
  lemma Extend(g: Config, moves: seq<Move>, s: State, m: Move)
    requires Reaches(g, moves, s) && Enabled(g, s, m)
    ensures Reaches(g, moves + [m], Step(g, s, m))
  {
    var all := moves + [m];
    assert all[|all| - 1] == m && all[..|all| - 1] == moves;
    hide Step, Enabled;
    assert Reaches(g, all[..|all| - 1], s);
  }

  /** However the streams have fragmented the bytes so far, every run can be continued to the end,
      and no continuation is longer than the bytes still to be moved. */
  lemma RunsEnd(g: Config, moves: seq<Move>, s: State) returns (all: seq<Move>, end: State)
    requires ValidConfig(g) && Reaches(g, moves, s)
    ensures moves <= all && Reaches(g, all, end) && Stuck(g, end)
    ensures |all| <= |moves| + Remaining(g, s)
    decreases Remaining(g, s)
  {
    if Stuck(g, s) {
      all, end := moves, s;
    } else {
      var m: Move :| Enabled(g, s, m);
      ReachableInv(g, moves, s);
      StepKeeps(g, s, m);
      Extend(g, moves, s, m);
      hide Step, Reaches, Inv, Remaining;
      all, end := RunsEnd(g, moves + [m], Step(g, s, m));
    }
  }

  // ----- framing

  /** Histories: what was written is what was read followed by what is in flight, and each side's
      bytes so far followed by its bytes to come are the one stream laid down by the calls. */
  ghost predicate Framed(g: Config, s: State)
    requires ValidConfig(g)
  {
    s.txWrote == s.rxTook + s.t2r && s.rxWrote == s.txTook + s.r2t &&
    s.txWrote + FutureOut(g, s.tx) == s.rxTook + FutureIn(g, s.rx) == From(g, Forward, 0, 0) &&
    s.rxWrote + FutureOut(g, s.rx) == s.txTook + FutureIn(g, s.tx) == From(g, Backward, 0, 0)
  }

  // A chunk moves from the bytes to be written into the stream.
  lemma ChunkWritten(wrote: seq<byte>, took: seq<byte>, queue: seq<byte>,
                     out: seq<byte>, chunk: seq<byte>, later: seq<byte>)
    requires wrote == took + queue && out == chunk + later
    ensures wrote + chunk == took + (queue + chunk)
    ensures (wrote + chunk) + later == wrote + out
  {
  }

  // A chunk moves from the stream into the bytes that were read.
  lemma ChunkRead(wrote: seq<byte>, took: seq<byte>, queue: seq<byte>, k: nat, rest: seq<byte>, later: seq<byte>)
    requires k <= |queue| && wrote == took + queue && rest == queue[..k] + later
    ensures wrote == (took + queue[..k]) + queue[k..]
    ensures (took + queue[..k]) + later == took + rest
  {
    assert queue == queue[..k] + queue[k..];
  }

  lemma FramedWrite(g: Config, s: State, m: Move)
    requires ValidConfig(g) && Inv(g, s) && Enabled(g, s, m) && Framed(g, s) && (m.TxWrite? || m.RxWrite?)
    ensures Framed(g, Step(g, s, m))
  {
    hide Good, Rest, Write, Outgoing, From, FutureOut, FutureIn;
    if m.TxWrite? {
      WriteKeeps(g, s.tx, s.t2r, m.k);
      var chunk := Outgoing(g, s.tx)[s.tx.done..s.tx.done + m.k];
      ChunkWritten(s.txWrote, s.rxTook, s.t2r, FutureOut(g, s.tx), chunk, FutureOut(g, Write(g, s.tx, m.k)));
    } else {
      WriteKeeps(g, s.rx, s.r2t, m.k);
      var chunk := Outgoing(g, s.rx)[s.rx.done..s.rx.done + m.k];
      ChunkWritten(s.rxWrote, s.txTook, s.r2t, FutureOut(g, s.rx), chunk, FutureOut(g, Write(g, s.rx, m.k)));
    }
  }

  lemma FramedRead(g: Config, s: State, m: Move)
    requires ValidConfig(g) && Inv(g, s) && Enabled(g, s, m) && Framed(g, s) && (m.TxRead? || m.RxRead?)
    ensures Framed(g, Step(g, s, m))
  {
    hide Good, Rest, Read, Wanted, From, FutureOut, FutureIn;
    if m.TxRead? {
      ReadFront(g, s.tx, s.r2t, m.k, FutureOut(g, s.rx));
      ChunkRead(s.rxWrote, s.txTook, s.r2t, m.k, FutureIn(g, s.tx), FutureIn(g, Read(g, s.tx, s.r2t[..m.k])));
    } else {
      ReadFront(g, s.rx, s.t2r, m.k, FutureOut(g, s.tx));
      ChunkRead(s.txWrote, s.rxTook, s.t2r, m.k, FutureIn(g, s.rx), FutureIn(g, Read(g, s.rx, s.t2r[..m.k])));
    }
  }

  // ReadKeeps for the front of a queue.
  lemma ReadFront(g: Config, p: Node, queue: seq<byte>, k: nat, out: seq<byte>)
    requires ValidConfig(g) && Good(g, p) && CanRead(p, queue, k) && FutureIn(g, p) == queue + out
    ensures var p' := Read(g, p, queue[..k]);
            FutureIn(g, p) == queue[..k] + FutureIn(g, p') && FutureOut(g, p') == FutureOut(g, p)
  {
    assert queue + out == queue[..k] + (queue[k..] + out);
    ReadKeeps(g, p, queue[..k]);
  }

  lemma FramedStep(g: Config, s: State, m: Move)
    requires ValidConfig(g) && Inv(g, s) && Enabled(g, s, m) && Framed(g, s)
    ensures Framed(g, Step(g, s, m))
  {
    hide *;
    if m.TxWrite? || m.RxWrite? {
      FramedWrite(g, s, m);
    } else {
      FramedRead(g, s, m);
    }
  }

  /** In every reachable state, over any number of calls and any fragmentation: no byte is lost,
      duplicated or reordered, both streams are prefixes of what the calls lay down, and Sync has
      never seen a wrong string. */
  lemma {:induction false} Framing(g: Config, moves: seq<Move>, s: State)
    requires ValidConfig(g) && Reaches(g, moves, s)
    ensures Framed(g, s)
    ensures !s.tx.phase.SyncFailed? && !s.rx.phase.SyncFailed?
  {
    ReachableInv(g, moves, s);
    if moves != [] {
      var m := moves[|moves| - 1];
      var r :| Reaches(g, moves[..|moves| - 1], r) && Enabled(g, r, m) && s == Step(g, r, m);
      Framing(g, moves[..|moves| - 1], r);
      ReachableInv(g, moves[..|moves| - 1], r);
      hide Inv, Step, Framed, Reaches;
      FramedStep(g, r, m);
    } else {
      FramedInitial(g);
    }
  }

  lemma FramedInitial(g: Config)
    requires ValidConfig(g)
    ensures Framed(g, Initial(g))
  {
    hide Count, Msg;
  }

  /** Six other bytes than "SyncMe" in answer make a process give up, and only they do. */
  lemma SyncRefuses(g: Config, p: Node, data: seq<byte>)
    requires p.phase.SyncIn? && |data| == 6
    ensures AfterRead(g, p, data).phase.SyncFailed? <==> data != [0x53, 0x79, 0x6E, 0x63, 0x4D, 0x65]
  {
  }

  /** When both sides are between calls, with the same calls behind them, nothing is in flight. */
  lemma EmptyBetweenCalls(g: Config, moves: seq<Move>, s: State)
    requires ValidConfig(g) && Reaches(g, moves, s)
    requires s.tx.phase.SizeField? || s.tx.phase.Finished?
    requires s.rx.phase.SizeField? && s.rx.got == [] && |s.tx.log| == |s.rx.log|
    ensures s.t2r == [] && s.r2t == []
  {
    ReachableInv(g, moves, s);
    hide From, Msg, Count;
  }

  /** The buffer each finished call left to its check: the peer's data, or with no repetition the
      initial contents. */
  lemma CheckedBuffers(g: Config, moves: seq<Move>, s: State, i: nat)
    requires ValidConfig(g) && Reaches(g, moves, s)
    ensures i < |s.tx.log| ==>
      i < |g.calls| && s.tx.log[i] == if Reps(g.calls[i]) == 0 then g.txFills[i].recv else Data(g, Backward, i)
    ensures i < |s.rx.log| ==>
      i < |g.calls| && s.rx.log[i] == if Reps(g.calls[i]) == 0 then g.rxFills[i].recv else Data(g, Forward, i)
  {
    ReachableInv(g, moves, s);
    hide From, Msg, Count;
  }

  /** Cache mode echoes: whatever the buffers held, after at least one repetition both sides hold
      the transmitter's initial buffer, and the transmitter's own buffer never changes. */
  lemma CacheEcho(g: Config, moves: seq<Move>, s: State, i: nat)
    requires ValidConfig(g) && Reaches(g, moves, s) && g.cache
    requires i < |g.calls| && Reps(g.calls[i]) > 0
    ensures i < |s.tx.log| ==> s.tx.log[i] == g.txFills[i].send
    ensures i < |s.rx.log| ==> s.rx.log[i] == g.txFills[i].send
    ensures i == |s.tx.log| && InCall(s.tx) ==> s.tx.sBuff == s.tx.rBuff == g.txFills[i].send
  {
    ReachableInv(g, moves, s);
    CheckedBuffers(g, moves, s, i);
    hide From, Msg, Count;
  }
}
