/** How much room the streams of a session need: exactly that of the one longest control message. */
module Capacity {
  import opened Roles
  import opened Bytes
  import opened Session
  import opened SessionProof
  import opened SessionTheorems

  /** No synchronization string has been written, so no data message has begun. */
  predicate Early(s: State) {
    s.tx.role.Tx? && s.tx.log == [] && s.tx.done == 0 &&
    (s.tx.phase.SizeField? || s.tx.phase.RepeatField? || s.tx.phase.SyncOut?) &&
    s.rx.role.Rx? && s.rx.log == [] && s.rx.done == 0 &&
    (s.rx.phase.SizeField? || s.rx.phase.RepeatField? ==> |s.rx.got| < 4) &&
    (s.rx.phase.SizeField? || s.rx.phase.RepeatField? || s.rx.phase.SyncOut? || s.rx.phase.Exited?)
  }

  /** Writes and bytes to be read before both sides stand before their synchronization string. */
  function EarlyLeft(s: State): int {
    (if s.tx.phase.SizeField? then 2 else if s.tx.phase.RepeatField? then 1 else 0) +
    (if s.rx.phase.SizeField? then 8 - |s.rx.got| else if s.rx.phase.RepeatField? then 4 - |s.rx.got| else 0)
  }

  lemma EarlyWrite(g: Config, s: State, k: nat)
    requires g.calls != [] && g.cap < 6 && Early(s) && Enabled(g, s, TxWrite(k))
    ensures Early(Step(g, s, TxWrite(k))) && EarlyLeft(Step(g, s, TxWrite(k))) < EarlyLeft(s)
  {
    hide Htonl, Ntohl, Bufflen, Read;
  }

  // What reading does to a receiver in its header.
  lemma HeaderRead(g: Config, p: Node, chunk: seq<byte>)
    requires p.role.Rx? && (p.phase.SizeField? || p.phase.RepeatField?) && |p.got| < 4
    requires 0 < |chunk| && |p.got| + |chunk| <= 4
    ensures var q := Read(g, p, chunk);
            q.role == p.role && q.log == p.log && q.done == p.done &&
            if |p.got| + |chunk| < 4 then q.phase == p.phase && |q.got| == |p.got| + |chunk|
            else if p.phase.SizeField? then q.phase.RepeatField? && q.got == []
            else q.phase.SyncOut? || q.phase.Exited?
  {
    hide Ntohl, Bufflen, ReadCount, FillOf, Loop, Store;
  }

  lemma EarlyRead(g: Config, s: State, k: nat)
    requires Early(s) && Enabled(g, s, RxRead(k))
    ensures Early(Step(g, s, RxRead(k))) && EarlyLeft(Step(g, s, RxRead(k))) < EarlyLeft(s)
  {
    hide Write, Read, Bufflen;
    HeaderRead(g, s.rx, s.t2r[..k]);
  }

  lemma EarlyMoves(g: Config, s: State, m: Move)
    requires g.cap < 6 && Early(s) && Enabled(g, s, m)
    ensures m.TxWrite? || m.RxRead?
  {
    hide Htonl;
  }

  lemma EarlyStep(g: Config, s: State, m: Move)
    requires g.calls != [] && g.cap < 6 && Early(s) && Enabled(g, s, m)
    ensures Early(Step(g, s, m)) && EarlyLeft(Step(g, s, m)) < EarlyLeft(s)
  {
    hide *;
    EarlyMoves(g, s, m);
    if m.TxWrite? {
      EarlyWrite(g, s, m.k);
    } else {
      EarlyRead(g, s, m.k);
    }
  }

  /** With less than six bytes of room a session with anything to do never gets to its first data
      message. */
  lemma {:induction false} TooSmall(g: Config, moves: seq<Move>, s: State)
    requires g.calls != [] && g.cap < 6 && Reaches(g, moves, s)
    ensures Early(s)
  {
    if moves != [] {
      hide Step, Enabled, Early;
      var before, m := moves[..|moves| - 1], moves[|moves| - 1];
      var r :| Reaches(g, before, r) && Enabled(g, r, m) && s == Step(g, r, m);
      TooSmall(g, before, r);
      EarlyStep(g, r, m);
    }
  }

  lemma {:induction false} EarlyEnds(g: Config, moves: seq<Move>, s: State) returns (all: seq<Move>, end: State)
    requires g.calls != [] && g.cap < 6 && Reaches(g, moves, s)
    ensures Reaches(g, all, end) && Stuck(g, end)
    decreases EarlyLeft(s)
  {
    TooSmall(g, moves, s);
    hide Step, Enabled, Reaches;
    if Stuck(g, s) {
      all, end := moves, s;
    } else {
      var m: Move :| Enabled(g, s, m);
      EarlyStep(g, s, m);
      Extend(g, moves, s, m);
      hide Early, EarlyLeft;
      EarlyLeftBound(Step(g, s, m));
      all, end := EarlyEnds(g, moves + [m], Step(g, s, m));
    }
  }

  lemma EarlyLeftBound(s: State)
    requires Early(s)
    ensures EarlyLeft(s) >= 0
  {
  }

  /** Six bytes each way are enough and necessary for some run, and then for every run, to end with the
      calls done or with the receiver told to leave. */
  lemma SixBytes(g: Config)
    requires g.calls != [] && FillsFit(g, g.txFills) && FillsFit(g, g.rxFills)
    ensures g.cap >= 6 <==> exists moves, s :: Reaches(g, moves, s) && (Completed(g, s) || Abandoned(g, s))
    ensures g.cap >= 6 <==>
            forall moves, s | Reaches(g, moves, s) && Stuck(g, s) :: Completed(g, s) || Abandoned(g, s)
  {
    if g.cap >= 6 {
      var moves, s := RunsEnd(g, [], Initial(g));
      forall moves, s | Reaches(g, moves, s) && Stuck(g, s) ensures Completed(g, s) || Abandoned(g, s) {
        StuckIsFinal(g, moves, s);
      }
      StuckIsFinal(g, moves, s);
    } else {
      forall moves, s | Reaches(g, moves, s) ensures !Completed(g, s) && !Abandoned(g, s) {
        TooSmall(g, moves, s);
      }
      var moves, s := EarlyEnds(g, [], Initial(g));
    }
  }
}
