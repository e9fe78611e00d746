/** What every reachable state of the session keeps: the bytes a process still has to read are the
    bytes in flight to it followed by the bytes its peer still has to write. */
module SessionProof {
  import opened Bytes
  import opened Roles
  import opened Session

  datatype Direction = Forward | Backward

  function FillAt(g: Config, role: Role, i: nat): Fill
    requires ValidConfig(g) && i < |g.calls|
  {
    if role.Tx? then g.txFills[i] else g.rxFills[i]
  }

  /** The data message of call i: what the transmitter's send buffer holds at the start and, coming
      back, the same in cache mode and the receiver's own send buffer otherwise. */
  function Data(g: Config, dir: Direction, i: nat): (s: seq<byte>)
    requires ValidConfig(g) && i < |g.calls|
    ensures |s| == Bufflen(g.calls[i].size)
  {
    if dir.Forward? || g.cache then g.txFills[i].send else g.rxFills[i].send
  }

  /** How many messages call i sends in a direction; a size of zero ends the session. */
  function Count(g: Config, dir: Direction, i: nat): nat
    requires i < |g.calls|
  {
    var c := g.calls[i];
    match dir
    case Forward => 3 + if c.size == 0 then 0 else Reps(c)
    case Backward => if c.size == 0 then 0 else 1 + Reps(c)
  }

  function Msg(g: Config, dir: Direction, i: nat, f: nat): (s: seq<byte>)
    requires ValidConfig(g) && i < |g.calls| && f < Count(g, dir, i)
    ensures |s| >= 1
  {
    BufflenZero(g.calls[i].size);
    match dir
    case Forward =>
      if f == 0 then Htonl(g.calls[i].size)
      else if f == 1 then Htonl(g.calls[i].nrepeat)
      else if f == 2 then SYNC
      else Data(g, dir, i)
    case Backward => if f == 0 then SYNC else Data(g, dir, i)
  }

  /** Everything a direction carries from message f of call i to the end of the session. */
  function From(g: Config, dir: Direction, i: nat, f: nat): seq<byte>
    requires ValidConfig(g)
    decreases |g.calls| - i, if i < |g.calls| then Count(g, dir, i) - f else 0
  {
    if i >= |g.calls| then []
    else if f < Count(g, dir, i) then Msg(g, dir, i, f) + From(g, dir, i, f + 1)
    else if g.calls[i].size == 0 then []
    else From(g, dir, i + 1, 0)
  }

  // The first message of each direction that a process has not dealt with completely.
  function Position(p: Node, dir: Direction): nat {
    match (p.phase, dir)
    case (SizeField, _) => 0
    case (RepeatField, Forward) => 1
    case (RepeatField, Backward) => 0
    case (SyncOut, Forward) => 2
    case (SyncOut, Backward) => 0
    case (SyncIn, Forward) => if p.role.Tx? then 3 else 2
    case (SyncIn, Backward) => if p.role.Tx? then 0 else 1
    case (First(j), Forward) => 3 + j
    case (First(j), Backward) => 1 + j
    case (Second(j), Forward) => 4 + j
    case (Second(j), Backward) => 1 + j
    case (Exited, Forward) => 2
    case (_, _) => 0
  }

  function Out(p: Node): Direction { if p.role.Tx? then Forward else Backward }

  function In(p: Node): Direction { if p.role.Tx? then Backward else Forward }

  function Rest(g: Config, p: Node, dir: Direction): seq<byte>
    requires ValidConfig(g)
  {
    From(g, dir, |p.log|, Position(p, dir))
  }

  // The part of a string from n on, or nothing.
  function Drop(s: seq<byte>, n: nat): seq<byte> { if n <= |s| then s[n..] else [] }

  function FutureOut(g: Config, p: Node): seq<byte>
    requires ValidConfig(g)
  {
    Drop(Rest(g, p, Out(p)), p.done)
  }

  function FutureIn(g: Config, p: Node): seq<byte>
    requires ValidConfig(g)
  {
    Drop(Rest(g, p, In(p)), |p.got|)
  }

  // How many data messages of the current call a process has stored.
  function Stored(p: Node): nat {
    match p.phase
    case First(j) => j
    case Second(j) => if p.role.Tx? then j else j + 1
    case _ => 0
  }

  function BufferAfter(g: Config, p: Node, i: nat, stored: nat): seq<byte>
    requires ValidConfig(g) && i < |g.calls|
  {
    if stored == 0 then FillAt(g, p.role, i).recv else Data(g, In(p), i)
  }

  ghost predicate InCall(p: Node) {
    p.phase.SyncOut? || p.phase.SyncIn? || p.phase.First? || p.phase.Second?
  }

  ghost predicate GoodLog(g: Config, p: Node)
    requires ValidConfig(g)
  {
    |p.log| <= |g.calls| &&
    forall i | 0 <= i < |p.log| ::
      g.calls[i].size != 0 && p.log[i] == BufferAfter(g, p, i, Reps(g.calls[i]))
  }

  ghost predicate GoodCall(g: Config, p: Node)
    requires ValidConfig(g) && |p.log| < |g.calls|
  {
    var i := |p.log|;
    var c := g.calls[i];
    p.size == c.size && p.nrepeat == Reps(c) &&
    p.rBuff == BufferAfter(g, p, i, Stored(p)) &&
    p.sBuff == (if g.cache then p.rBuff else FillAt(g, p.role, i).send) &&
    (p.role.Rx? || p.phase.First? || p.phase.Second? ==> c.size != 0) &&
    (p.phase.First? ==> p.phase.j < p.nrepeat) &&
    (p.phase.Second? ==> p.phase.j < p.nrepeat)
  }

  ghost predicate GoodPhase(g: Config, p: Node)
    requires ValidConfig(g)
  {
    !p.phase.SyncFailed? &&
    (p.role.Tx? ==> !p.phase.Exited? && (p.phase.Finished? <==> |p.log| == |g.calls|)) &&
    (p.role.Rx? ==> !p.phase.Finished?) &&
    (!p.phase.SizeField? && !p.phase.Finished? ==> |p.log| < |g.calls|) &&
    (p.phase.RepeatField? && p.role.Rx? ==> p.size == g.calls[|p.log|].size) &&
    (p.phase.Exited? ==> g.calls[|p.log|].size == 0) &&
    (InCall(p) ==> GoodCall(g, p))
  }

  ghost predicate GoodTransfer(g: Config, p: Node)
    requires ValidConfig(g)
  {
    (if Sends(p) then p.done < |Outgoing(g, p)| && (Unsplit(p) ==> p.done == 0) else p.done == 0) &&
    (if Receives(p) then |p.got| < Wanted(p) && p.got <= Rest(g, p, In(p)) else p.got == [])
  }

  ghost predicate Good(g: Config, p: Node)
    requires ValidConfig(g)
  {
    GoodLog(g, p) && GoodPhase(g, p) && GoodTransfer(g, p)
  }

  /** The invariant. */
  ghost predicate Inv(g: Config, s: State)
    requires ValidConfig(g)
  {
    s.tx.role == Tx && s.rx.role == Rx && Good(g, s.tx) && Good(g, s.rx) &&
    FutureIn(g, s.rx) == s.t2r + FutureOut(g, s.tx) &&
    FutureIn(g, s.tx) == s.r2t + FutureOut(g, s.rx)
  }

  // The write a process is in is the next message of its outgoing stream.
  lemma OutgoingIsMsg(g: Config, p: Node)
    requires ValidConfig(g) && GoodLog(g, p) && GoodPhase(g, p) && Sends(p)
    ensures |p.log| < |g.calls| && Position(p, Out(p)) < Count(g, Out(p), |p.log|)
    ensures Outgoing(g, p) == Msg(g, Out(p), |p.log|, Position(p, Out(p)))
  {
  }

  // The read a process is in takes exactly the next message of its incoming stream, if any is left.
  lemma WantedIsMsg(g: Config, p: Node)
    requires ValidConfig(g) && GoodLog(g, p) && GoodPhase(g, p) && Receives(p)
    requires Rest(g, p, In(p)) != []
    ensures |p.log| < |g.calls| && Position(p, In(p)) < Count(g, In(p), |p.log|)
    ensures |Msg(g, In(p), |p.log|, Position(p, In(p)))| == Wanted(p) > 0
  {
    if |p.log| < |g.calls| {
      BufflenZero(g.calls[|p.log|].size);
    }
  }

  // A process between two transfers.
  lemma Fresh(g: Config, p: Node)
    requires ValidConfig(g) && GoodLog(g, p) && GoodPhase(g, p) && p.done == 0 && p.got == []
    ensures GoodTransfer(g, p)
  {
    if Sends(p) {
      OutgoingIsMsg(g, p);
    }
    if Receives(p) && |p.log| < |g.calls| {
      BufflenZero(g.calls[|p.log|].size);
    }
  }

  // A call that has sent its last message goes over into the next one.
  lemma CallEnd(g: Config, dir: Direction, i: nat, f: nat)
    requires ValidConfig(g) && i < |g.calls| && g.calls[i].size != 0 && f == Count(g, dir, i)
    ensures From(g, dir, i, f) == From(g, dir, i + 1, 0)
  {
  }

  // q is p after its transfer in direction dir is complete.
  ghost predicate Moved(g: Config, p: Node, q: Node, dir: Direction)
    requires ValidConfig(g)
  {
    var other := if dir.Forward? then Backward else Forward;
    q.role == p.role && q.done == 0 && q.got == [] && GoodLog(g, q) && GoodPhase(g, q) &&
    Rest(g, q, dir) == From(g, dir, |p.log|, Position(p, dir) + 1) &&
    Rest(g, q, other) == Rest(g, p, other)
  }

  ghost predicate LoopReady(g: Config, p: Node, j: nat)
    requires ValidConfig(g)
  {
    GoodLog(g, p) && |p.log| < |g.calls| && p.done == 0 && p.got == [] &&
    var i := |p.log|;
    p.size == g.calls[i].size && p.size != 0 && p.nrepeat == Reps(g.calls[i]) && j <= p.nrepeat &&
    p.rBuff == BufferAfter(g, p, i, j) &&
    p.sBuff == (if g.cache then p.rBuff else FillAt(g, p.role, i).send)
  }

  ghost predicate Looped(g: Config, p: Node, q: Node, j: nat)
    requires ValidConfig(g)
  {
    q.role == p.role && q.done == 0 && q.got == [] && GoodLog(g, q) && GoodPhase(g, q) &&
    Rest(g, q, Forward) == From(g, Forward, |p.log|, 3 + j) &&
    Rest(g, q, Backward) == From(g, Backward, |p.log|, 1 + j)
  }

  lemma LoopKeeps(g: Config, p: Node, j: nat)
    requires ValidConfig(g) && LoopReady(g, p, j)
    ensures Looped(g, p, Loop(g, p, j), j)
  {
    hide From, Reps, Bufflen;
    if j == p.nrepeat {
      LoopEnds(g, p);
    }
  }

  lemma LoopEnds(g: Config, p: Node)
    requires ValidConfig(g) && LoopReady(g, p, p.nrepeat)
    ensures Looped(g, p, Loop(g, p, p.nrepeat), p.nrepeat)
  {
    hide From, Reps, Bufflen;
    CallEnd(g, Forward, |p.log|, 3 + p.nrepeat);
    CallEnd(g, Backward, |p.log|, 1 + p.nrepeat);
    var q := Loop(g, p, p.nrepeat);
    forall i | 0 <= i < |q.log|
      ensures g.calls[i].size != 0 && q.log[i] == BufferAfter(g, q, i, Reps(g.calls[i]))
    {
      if i < |p.log| {
        assert q.log[i] == p.log[i];
      }
    }
  }

  lemma HeaderWritten(g: Config, p: Node)
    requires ValidConfig(g) && Good(g, p) && Sends(p) && (p.phase.SizeField? || p.phase.RepeatField?)
    ensures Moved(g, p, AfterWrite(g, p), Out(p))
  {
    hide From, Reps, Bufflen;
  }

  lemma SyncWritten(g: Config, p: Node)
    requires ValidConfig(g) && Good(g, p) && p.phase.SyncOut?
    ensures Moved(g, p, AfterWrite(g, p), Out(p))
  {
    hide From, Reps, Bufflen;
  }

  lemma DataWritten(g: Config, p: Node)
    requires ValidConfig(g) && Good(g, p) && Sends(p) && (p.phase.First? || p.phase.Second?)
    ensures Moved(g, p, AfterWrite(g, p), Out(p))
  {
    hide *;
    if p.phase.First? {
      FirstWritten(g, p);
    } else {
      SecondWritten(g, p);
    }
  }

  lemma FirstWritten(g: Config, p: Node)
    requires ValidConfig(g) && Good(g, p) && Sends(p) && p.phase.First?
    ensures Moved(g, p, AfterWrite(g, p), Out(p))
  {
    hide From, Reps, Bufflen;
  }

  lemma SecondWritten(g: Config, p: Node)
    requires ValidConfig(g) && Good(g, p) && Sends(p) && p.phase.Second?
    ensures Moved(g, p, AfterWrite(g, p), Out(p))
  {
    hide From, Reps, Bufflen;
    LoopKeeps(g, p.(done := 0), p.phase.j + 1);
  }

  ghost predicate Arrived(g: Config, p: Node, data: seq<byte>)
    requires ValidConfig(g)
  {
    Good(g, p) && Receives(p) && |p.log| < |g.calls| &&
    Position(p, In(p)) < Count(g, In(p), |p.log|) &&
    data == Msg(g, In(p), |p.log|, Position(p, In(p))) && |data| == Wanted(p)
  }

  lemma SizeRead(g: Config, p: Node, data: seq<byte>)
    requires ValidConfig(g) && Arrived(g, p, data) && p.phase.SizeField?
    ensures Moved(g, p, AfterRead(g, p, data), In(p))
  {
    hide From, Bufflen, Reps, Ntohl, Htonl;
    NtohlHtonl(g.calls[|p.log|].size);
  }

  lemma RepeatRead(g: Config, p: Node, data: seq<byte>)
    requires ValidConfig(g) && Arrived(g, p, data) && p.phase.RepeatField?
    ensures Moved(g, p, AfterRead(g, p, data), In(p))
  {
    hide From, Bufflen, Reps, ReadCount, Htonl;
    ReadCountOfSent(g.calls[|p.log|]);
  }

  lemma SyncRead(g: Config, p: Node, data: seq<byte>)
    requires ValidConfig(g) && Arrived(g, p, data) && p.phase.SyncIn?
    ensures Moved(g, p, AfterRead(g, p, data), In(p))
  {
    hide From, Reps, Bufflen;
    LoopKeeps(g, p.(got := []), 0);
  }

  lemma FirstRead(g: Config, p: Node, data: seq<byte>)
    requires ValidConfig(g) && Arrived(g, p, data) && p.phase.First?
    ensures Moved(g, p, AfterRead(g, p, data), In(p))
  {
    hide From, Reps, Bufflen;
  }

  lemma SecondRead(g: Config, p: Node, data: seq<byte>)
    requires ValidConfig(g) && Arrived(g, p, data) && p.phase.Second?
    ensures Moved(g, p, AfterRead(g, p, data), In(p))
  {
    hide From, Reps, Bufflen;
    LoopKeeps(g, Store(g, p.(got := []), data), p.phase.j + 1);
  }

  lemma AfterWriteMoves(g: Config, p: Node)
    requires ValidConfig(g) && Good(g, p) && Sends(p)
    ensures Moved(g, p, AfterWrite(g, p), Out(p))
  {
    hide Moved, Good, AfterWrite;
    if p.phase.SizeField? || p.phase.RepeatField? {
      HeaderWritten(g, p);
    } else if p.phase.SyncOut? {
      SyncWritten(g, p);
    } else {
      DataWritten(g, p);
    }
  }

  lemma AfterReadMoves(g: Config, p: Node, data: seq<byte>)
    requires ValidConfig(g) && Arrived(g, p, data)
    ensures Moved(g, p, AfterRead(g, p, data), In(p))
  {
    assert Receives(p) && |data| == Wanted(p);
    hide Moved, Arrived, AfterRead, Wanted;
    if p.phase.SizeField? {
      SizeRead(g, p, data);
    } else if p.phase.RepeatField? {
      RepeatRead(g, p, data);
    } else if p.phase.SyncIn? {
      SyncRead(g, p, data);
    } else if p.phase.First? {
      FirstRead(g, p, data);
    } else {
      SecondRead(g, p, data);
    }
  }

  lemma NextMsg(g: Config, dir: Direction, i: nat, f: nat)
    requires ValidConfig(g) && i < |g.calls| && f < Count(g, dir, i)
    ensures From(g, dir, i, f) == Msg(g, dir, i, f) + From(g, dir, i, f + 1)
  {
  }

  lemma DropPart(msg: seq<byte>, later: seq<byte>, a: nat, k: nat)
    requires a + k <= |msg|
    ensures Drop(msg + later, a) == msg[a..a + k] + Drop(msg + later, a + k)
  {
    assert msg[a..] == msg[a..a + k] + msg[a + k..];
  }

  lemma WritePart(g: Config, p: Node, q: seq<byte>, k: nat)
    requires ValidConfig(g) && Good(g, p) && CanWrite(g, p, q, k) && p.done + k < |Outgoing(g, p)|
    ensures var p' := Write(g, p, k);
            p'.role == p.role && Good(g, p') && FutureIn(g, p') == FutureIn(g, p) &&
            FutureOut(g, p) == Outgoing(g, p)[p.done..p.done + k] + FutureOut(g, p')
  {
    hide From, Msg, Reps, Bufflen, Position, AfterWrite, Outgoing, Drop, GoodLog, GoodPhase, Rest;
    FutureOutSplits(g, p);
    SamePlace(g, p, p.(done := p.done + k));
    DropPart(Outgoing(g, p), From(g, Out(p), |p.log|, Position(p, Out(p)) + 1), p.done, k);
  }

  /** Writing k bytes takes them from the front of what was to be written and leaves what is to be
      read alone. */
  lemma WriteKeeps(g: Config, p: Node, q: seq<byte>, k: nat)
    requires ValidConfig(g) && Good(g, p) && CanWrite(g, p, q, k)
    ensures var p' := Write(g, p, k);
            p'.role == p.role && Good(g, p') && FutureIn(g, p') == FutureIn(g, p) &&
            FutureOut(g, p) == Outgoing(g, p)[p.done..p.done + k] + FutureOut(g, p')
  {
    hide From, Msg, Reps, Bufflen, Position, AfterWrite, Outgoing;
    if p.done + k == |Outgoing(g, p)| {
      FutureOutSplits(g, p);
      AfterWriteMoves(g, p);
      Fresh(g, AfterWrite(g, p));
    } else {
      WritePart(g, p, q, k);
    }
  }

  // What is to be written is the rest of the message at hand and everything after it.
  lemma FutureOutSplits(g: Config, p: Node)
    requires ValidConfig(g) && Good(g, p) && Sends(p)
    ensures FutureOut(g, p) == Outgoing(g, p)[p.done..] + From(g, Out(p), |p.log|, Position(p, Out(p)) + 1)
    ensures Rest(g, p, Out(p)) == Outgoing(g, p) + From(g, Out(p), |p.log|, Position(p, Out(p)) + 1)
  {
    hide From, Msg, Reps, Bufflen, Position, Outgoing;
    OutgoingIsMsg(g, p);
    NextMsg(g, Out(p), |p.log|, Position(p, Out(p)));
  }

  // Only the counters of the transfer differ.
  lemma SamePlace(g: Config, p: Node, q: Node)
    requires ValidConfig(g) && GoodLog(g, p) && GoodPhase(g, p) && q == p.(done := q.done, got := q.got)
    ensures GoodLog(g, q) && GoodPhase(g, q)
    ensures Rest(g, q, In(p)) == Rest(g, p, In(p)) && Rest(g, q, Out(p)) == Rest(g, p, Out(p))
    ensures Sends(p) ==> Outgoing(g, q) == Outgoing(g, p)
    ensures Wanted(q) == Wanted(p)
  {
    hide From, Reps, Bufflen, Count, Data;
  }

  /** Reading bytes that are next in the incoming stream takes them from the front of what was to
      be read and leaves what is to be written alone. */
  lemma ReadKeeps(g: Config, p: Node, chunk: seq<byte>)
    requires ValidConfig(g) && Good(g, p) && Receives(p)
    requires 0 < |chunk| && |p.got| + |chunk| <= Wanted(p) && chunk <= FutureIn(g, p)
    ensures var p' := Read(g, p, chunk);
            p'.role == p.role && Good(g, p') && FutureOut(g, p') == FutureOut(g, p) &&
            FutureIn(g, p) == chunk + FutureIn(g, p')
  {
    hide From, Msg, Reps, Bufflen, Position, AfterRead, Wanted;
    var rest := Rest(g, p, In(p));
    WantedIsMsg(g, p);
    NextMsg(g, In(p), |p.log|, Position(p, In(p)));
    var msg := Msg(g, In(p), |p.log|, Position(p, In(p)));
    var later := From(g, In(p), |p.log|, Position(p, In(p)) + 1);
    assert rest == p.got + FutureIn(g, p);
    var got := p.got + chunk;
    assert got == rest[..|got|];
    if |got| == Wanted(p) {
      assert got == msg;
      AfterReadMoves(g, p, got);
      Fresh(g, AfterRead(g, p, got));
      assert FutureIn(g, p) == chunk + later;
    } else {
      SamePlace(g, p, p.(got := got));
      assert rest[|p.got|..] == chunk + rest[|got|..];
    }
  }

  lemma InitialInv(g: Config)
    requires ValidConfig(g)
    ensures Inv(g, Initial(g))
  {
    var s := Initial(g);
    Fresh(g, s.tx);
    Fresh(g, s.rx);
    hide From, Count, Outgoing;
  }

  /** Every move keeps the invariant, and k bytes moved are k bytes fewer to come. */
  lemma StepKeeps(g: Config, s: State, m: Move)
    requires ValidConfig(g) && Inv(g, s) && Enabled(g, s, m)
    ensures Inv(g, Step(g, s, m))
    ensures Remaining(g, Step(g, s, m)) == Remaining(g, s) - m.k
  {
    hide Good, Rest, Write, Read, Outgoing, Wanted;
    match m
    case TxWrite(k) => WriteKeeps(g, s.tx, s.t2r, k);
    case RxWrite(k) => WriteKeeps(g, s.rx, s.r2t, k);
    case TxRead(k) =>
      ReadKeeps(g, s.tx, s.r2t[..k]);
      TakeFront(s.r2t, FutureOut(g, s.rx), k, FutureIn(g, Read(g, s.tx, s.r2t[..k])));
    case RxRead(k) =>
      ReadKeeps(g, s.rx, s.t2r[..k]);
      TakeFront(s.t2r, FutureOut(g, s.tx), k, FutureIn(g, Read(g, s.rx, s.t2r[..k])));
  }

  lemma TakeFront(q: seq<byte>, out: seq<byte>, k: nat, rest: seq<byte>)
    requires k <= |q| && q + out == q[..k] + rest
    ensures rest == q[k..] + out
  {
    assert rest == (q[..k] + rest)[k..];
    assert (q + out)[k..] == q[k..] + out;
  }

  /** Bytes still to be written or read by either process. */
  ghost function Remaining(g: Config, s: State): nat
    requires ValidConfig(g)
  {
    |FutureIn(g, s.tx)| + |FutureOut(g, s.tx)| + |FutureIn(g, s.rx)| + |FutureOut(g, s.rx)|
  }

  lemma {:induction false} ReachableInv(g: Config, moves: seq<Move>, s: State)
    requires ValidConfig(g) && Reaches(g, moves, s)
    ensures Inv(g, s)
    ensures Remaining(g, s) + |moves| <= Remaining(g, Initial(g))
  {
    if moves == [] {
      InitialInv(g);
    } else {
      var m := moves[|moves| - 1];
      var r :| Reaches(g, moves[..|moves| - 1], r) && Enabled(g, r, m) && s == Step(g, r, m);
      ReachableInv(g, moves[..|moves| - 1], r);
      hide Inv, Step, Remaining;
      StepKeeps(g, r, m);
    }
  }
}
