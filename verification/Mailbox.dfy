/** The one-slot mailbox of src/shmem.c, src/gpshmem.c and src/armci.c: SendTime and SendRepeat put a
    value and then a flag to the peer, RecvTime and RecvRepeat spin on the flag. Puts land in order. */
module Mailbox {
  import opened Roles

  // A processing element's own number and its neighbour's.
  function Ipe(r: Role): nat { if r.Tx? then 0 else 1 }

  function Nbor(r: Role): nat { Ipe(r.Peer()) }

  /** The places a value is put to, pTime and pNrepeat; both share the one flag. */
  datatype Cell = Time | Count

  datatype Letter = Letter(cell: Cell, x: int)

  datatype Put = Value(letter: Letter) | Flag(f: nat)

  /** Stored: the own cell assigned. Pushed: its put begun, the flag's not. Seen: the spin has ended.
      Taken: the cell has been read, the flag not yet rewritten. */
  datatype Control = Idle | Stored(cell: Cell) | Pushed | Seen | Taken

  /** sent and received are the arguments of the sends begun and the values the receives took. */
  datatype Node = Node(time: int, count: int, flag: nat, pc: Control, sent: seq<Letter>, received: seq<Letter>)

  function Get(m: Node, c: Cell): int { if c.Time? then m.time else m.count }

  function Stamped(m: Node, letter: Letter): Node {
    if letter.cell.Time? then m.(time := letter.x) else m.(count := letter.x)
  }

  type State = Sides<Node, Put>

  function Landed(m: Node, put: Put): Node {
    match put case Value(l) => Stamped(m, l) case Flag(f) => m.(flag := f)
  }

  /** The letter r's next receive finds in its cell. The two programs call RecvTime and RecvRepeat in
      the order in which their peers call SendTime and SendRepeat. */
  function Found(s: State, r: Role): Letter
    requires |At(s, r).received| < |At(s, r.Peer()).sent|
  {
    var cell := At(s, r.Peer()).sent[|At(s, r).received|].cell;
    Letter(cell, Get(At(s, r), cell))
  }

  datatype Move = Send(r: Role, letter: Letter) | PushValue(r: Role) | PushFlag(r: Role)
                | Land(r: Role) | See(r: Role) | Take(r: Role) | Clear(r: Role)

  predicate Enabled(s: State, m: Move) {
    match m
    case Send(r, _) => At(s, r).pc.Idle?
    case PushValue(r) => At(s, r).pc.Stored?
    case PushFlag(r) => At(s, r).pc.Pushed?
    case Land(r) => PutsTo(s, r) != []
    case See(r) => At(s, r).pc.Idle? && At(s, r).flag == Ipe(r)
    case Take(r) => At(s, r).pc.Seen? && |At(s, r).received| < |At(s, r.Peer()).sent|
    case Clear(r) => At(s, r).pc.Taken?
  }

  function Step(s: State, m: Move): State
    requires Enabled(s, m)
  {
    var me := At(s, m.r);
    match m
    case Send(r, l) => WithNode(s, r, Stamped(me, l).(pc := Stored(l.cell), sent := me.sent + [l]))
    case PushValue(r) =>
      WithPuts(WithNode(s, r, me.(pc := Pushed)), r.Peer(),
               PutsTo(s, r.Peer()) + [Value(Letter(me.pc.cell, Get(me, me.pc.cell)))])
    case PushFlag(r) =>
      WithPuts(WithNode(s, r, me.(pc := Idle)), r.Peer(), PutsTo(s, r.Peer()) + [Flag(me.flag)])
    case Land(r) =>
      var q := PutsTo(s, r);
      WithPuts(WithNode(s, r, Landed(me, q[0])), r, q[1..])
    case See(r) => WithNode(s, r, me.(pc := Seen))
    case Take(r) => WithNode(s, r, me.(pc := Taken, received := me.received + [Found(s, r)]))
    case Clear(r) => WithNode(s, r, me.(pc := Idle, flag := Nbor(r)))
  }

  predicate Fresh(m: Node, flag: nat) {
    m.flag == flag && m.pc.Idle? && m.sent == [] && m.received == []
  }

  // Setup's flags, whatever the cells hold.
  predicate Initial(s: State) {
    s.putsToTx == [] && s.putsToRx == [] && Fresh(s.tx, 1) && Fresh(s.rx, 0)
  }

  /** Every send so far has been answered by a receive that has returned. */
  predicate Quiet(s: State) {
    s.tx.pc.Idle? && s.rx.pc.Idle? && |s.tx.sent| == |s.rx.received| && |s.rx.sent| == |s.tx.received|
  }

  /** With alternating, no send begins before the one before it, in either direction, was received. */
  ghost predicate Reaches(alternating: bool, s0: State, moves: seq<Move>, s: State) {
    if moves == [] then s == s0
    else
      var m := moves[|moves| - 1];
      exists r ::
        Reaches(alternating, s0, moves[..|moves| - 1], r) && Enabled(r, m) && s == Step(r, m) &&
        (alternating && m.Send? ==> Quiet(r))
  }

  // ----- alternating sends and receives

  ghost predicate Rest(s: State) {
    s.putsToTx == [] && s.putsToRx == [] && s.tx.pc.Idle? && s.rx.pc.Idle? &&
    s.tx.flag == Nbor(Tx) && s.rx.flag == Nbor(Rx) &&
    s.tx.sent == s.rx.received && s.rx.sent == s.tx.received
  }

  // r's letter x is under way and everything else at rest.
  ghost predicate Busy(s: State, r: Role, x: Letter) {
    var me, peer, q := At(s, r), At(s, r.Peer()), PutsTo(s, r.Peer());
    PutsTo(s, r) == [] && me.flag == Nbor(r) && peer.sent == me.received &&
    me.sent == (if peer.pc.Taken? then peer.received else peer.received + [x]) &&
    (peer.pc.Idle? || peer.pc.Seen? || peer.pc.Taken?) &&
    match me.pc
    case Stored(c) => c == x.cell && Get(me, c) == x.x && q == [] && peer.pc.Idle? && peer.flag == Nbor(r.Peer())
    case Pushed =>
      (q == [Value(x)] || (q == [] && Get(peer, x.cell) == x.x)) && peer.pc.Idle? && peer.flag == Nbor(r.Peer())
    case Idle =>
      if q == [] then Get(peer, x.cell) == x.x && peer.flag == Ipe(r.Peer())
      else
        (q == [Value(x), Flag(Ipe(r.Peer()))] || (q == [Flag(Ipe(r.Peer()))] && Get(peer, x.cell) == x.x)) &&
        peer.pc.Idle? && peer.flag == Nbor(r.Peer())
    case _ => false
  }

  ghost predicate Inv(s: State) {
    Rest(s) || exists r, x :: Busy(s, r, x)
  }

  lemma RestSteps(s: State, m: Move)
    requires Rest(s) && Enabled(s, m)
    ensures m.Send? && Busy(Step(s, m), m.r, m.letter)
  {
  }

  lemma BusySender(s: State, r: Role, x: Letter, m: Move)
    requires Busy(s, r, x) && Enabled(s, m) && m.r == r && (m.Send? ==> Quiet(s))
    ensures Busy(Step(s, m), r, x)
  {
  }

  lemma BusyReceiver(s: State, r: Role, x: Letter, m: Move)
    requires Busy(s, r, x) && Enabled(s, m) && m.r == r.Peer() && (m.Send? ==> Quiet(s))
    ensures if m.Clear? then Rest(Step(s, m)) else Busy(Step(s, m), r, x)
  {
  }

  lemma BusySteps(s: State, r: Role, x: Letter, m: Move)
    requires Busy(s, r, x) && Enabled(s, m) && (m.Send? ==> Quiet(s))
    ensures if m == Clear(r.Peer()) then Rest(Step(s, m)) else Busy(Step(s, m), r, x)
  {
    hide Busy, Rest, Step, Enabled, Quiet;
    if m.r == r {
      BusySender(s, r, x, m);
    } else {
      BusyReceiver(s, r, x, m);
    }
  }

  lemma {:induction false} ReachableInv(s0: State, moves: seq<Move>, s: State)
    requires Initial(s0) && Reaches(true, s0, moves, s)
    ensures Inv(s)
  {
    if moves != [] {
      hide Rest, Busy, Step, Enabled, Quiet, Initial;
      var before, m := moves[..|moves| - 1], moves[|moves| - 1];
      var q :| Reaches(true, s0, before, q) && Enabled(q, m) && s == Step(q, m) && (m.Send? ==> Quiet(q));
      ReachableInv(s0, before, q);
      if Rest(q) {
        RestSteps(q, m);
      } else {
        var r, x :| Busy(q, r, x);
        BusySteps(q, r, x, m);
      }
    }
  }

  ghost predicate InOrder(s: State, r: Role) {
    At(s, r.Peer()).received <= At(s, r).sent &&
    (At(s, r.Peer()).pc.Seen? ==>
      |At(s, r.Peer()).received| < |At(s, r).sent| && At(s, r).sent == At(s, r.Peer()).received + [Found(s, r.Peer())])
  }

  lemma BusyInOrder(s: State, r: Role, x: Letter)
    requires Busy(s, r, x)
    ensures InOrder(s, r) && InOrder(s, r.Peer()) && !Quiet(s)
    ensures |At(s, r).sent| <= |At(s, r.Peer()).received| + 1
  {
  }

  lemma BusyMoves(s: State, r: Role, x: Letter) returns (m: Move)
    requires Busy(s, r, x)
    ensures Enabled(s, m) && !m.Send?
  {
    var peer := r.Peer();
    m := match At(s, r).pc
         case Stored(_) => PushValue(r)
         case Pushed => PushFlag(r)
         case _ =>
           if PutsTo(s, peer) != [] then Land(peer)
           else if At(s, peer).pc.Seen? then Take(peer)
           else if At(s, peer).pc.Taken? then Clear(peer)
           else See(peer);
  }

  /** Each receive takes exactly the value sent last, in either direction and under any interleaving:
      what was received is what was sent, but for at most one value still under way. */
  lemma Faithful(s0: State, moves: seq<Move>, s: State)
    requires Initial(s0) && Reaches(true, s0, moves, s)
    ensures InOrder(s, Tx) && InOrder(s, Rx)
    ensures |s.tx.sent| + |s.rx.sent| <= |s.tx.received| + |s.rx.received| + 1
  {
    ReachableInv(s0, moves, s);
    if !Rest(s) {
      var r, x :| Busy(s, r, x);
      BusyInOrder(s, r, x);
      hide InOrder;
    }
  }

  /** Once every send is answered both flags hold the neighbour's number again; until then something
      other than a new send can happen. */
  lemma QuietOrMoving(s0: State, moves: seq<Move>, s: State)
    requires Initial(s0) && Reaches(true, s0, moves, s)
    ensures Quiet(s) <==> Rest(s)
    ensures Quiet(s) <==> forall m | Enabled(s, m) :: m.Send?
  {
    hide Reaches, Initial, Enabled;
    ReachableInv(s0, moves, s);
    if Rest(s) {
      forall m | Enabled(s, m) ensures m.Send? {
        RestSteps(s, m);
      }
    } else {
      var r, x :| Busy(s, r, x);
      BusyInOrder(s, r, x);
      var m := BusyMoves(s, r, x);
    }
  }

  // ----- a send before the last one is answered

  lemma Start(s0: State)
    ensures Reaches(false, s0, [], s0)
  {
  }

  lemma Extend(s0: State, moves: seq<Move>, s: State, m: Move, s': State)
    requires Reaches(false, s0, moves, s) && Enabled(s, m) && s' == Step(s, m)
    ensures Reaches(false, s0, moves + [m], s')
  {
    var all := moves + [m];
    assert all[..|all| - 1] == moves && all[|all| - 1] == m;
  }

  // A whole send, before anything more has landed.
  lemma SendAll(s0: State, moves: seq<Move>, s: State, r: Role, x: Letter) returns (more: seq<Move>, s': State)
    requires Reaches(false, s0, moves, s) && At(s, r).pc.Idle?
    ensures Reaches(false, s0, more, s')
    ensures var me := At(s, r);
            s' == WithPuts(WithNode(s, r, Stamped(me, x).(sent := me.sent + [x])), r.Peer(),
                           PutsTo(s, r.Peer()) + [Value(x), Flag(me.flag)])
  {
    hide Reaches;
    var me, p, q := At(s, r), r.Peer(), PutsTo(s, r.Peer());
    var s1 := WithNode(s, r, Stamped(me, x).(pc := Stored(x.cell), sent := me.sent + [x]));
    var s2 := WithPuts(WithNode(s1, r, At(s1, r).(pc := Pushed)), p, q + [Value(x)]);
    s' := WithPuts(WithNode(s2, r, At(s2, r).(pc := Idle)), p, q + [Value(x)] + [Flag(me.flag)]);
    assert q + [Value(x)] + [Flag(me.flag)] == q + [Value(x), Flag(me.flag)];
    Extend(s0, moves, s, Send(r, x), s1);
    Extend(s0, moves + [Send(r, x)], s1, PushValue(r), s2);
    Extend(s0, moves + [Send(r, x)] + [PushValue(r)], s2, PushFlag(r), s');
    more := moves + [Send(r, x)] + [PushValue(r)] + [PushFlag(r)];
  }

  function AllLanded(m: Node, q: seq<Put>): Node
    decreases |q|
  {
    if q == [] then m else AllLanded(Landed(m, q[0]), q[1..])
  }

  lemma {:induction false} LandAll(s0: State, moves: seq<Move>, s: State, p: Role) returns (more: seq<Move>, s': State)
    requires Reaches(false, s0, moves, s)
    ensures Reaches(false, s0, more, s')
    ensures s' == WithPuts(WithNode(s, p, AllLanded(At(s, p), PutsTo(s, p))), p, [])
    decreases |PutsTo(s, p)|
  {
    hide Reaches;
    var q := PutsTo(s, p);
    if q == [] {
      more, s' := moves, s;
    } else {
      var s1 := WithPuts(WithNode(s, p, Landed(At(s, p), q[0])), p, q[1..]);
      Extend(s0, moves, s, Land(p), s1);
      more, s' := LandAll(s0, moves + [Land(p)], s1, p);
    }
  }

  // What the last letter leaves behind.
  lemma {:induction false} LastLanded(m: Node, q: seq<Put>, x: Letter, f: nat)
    ensures AllLanded(m, q + [Value(x), Flag(f)]) == Stamped(AllLanded(m, q), x).(flag := f)
    decreases |q|
  {
    var all := q + [Value(x), Flag(f)];
    if q == [] {
      assert all[1..] == [Flag(f)] && all[1..][1..] == [];
      assert AllLanded(m, all) == AllLanded(Landed(Landed(m, all[0]), all[1..][0]), []);
    } else {
      assert all[1..] == q[1..] + [Value(x), Flag(f)];
      LastLanded(Landed(m, q[0]), q[1..], x, f);
    }
  }

  // Only the cells and the flag change when puts land.
  lemma {:induction false} LandedKeeps(m: Node, q: seq<Put>)
    ensures var l := AllLanded(m, q); l.pc == m.pc && l.sent == m.sent && l.received == m.received
    decreases |q|
  {
    if q != [] {
      LandedKeeps(Landed(m, q[0]), q[1..]);
    }
  }

  // Once what is under way has landed, the letter is in its cell.
  lemma LetterLands(s: State, r: Role, x: Letter)
    requires Busy(s, r, x) && At(s, r).pc.Idle?
    ensures Get(AllLanded(At(s, r.Peer()), PutsTo(s, r.Peer())), x.cell) == x.x
  {
    var m, q := At(s, r.Peer()), PutsTo(s, r.Peer());
    if |q| == 1 {
      assert AllLanded(m, q) == AllLanded(Landed(m, q[0]), []);
    } else if |q| == 2 {
      assert q[1..][1..] == [];
      assert AllLanded(m, q) == AllLanded(Landed(Landed(m, q[0]), q[1..][0]), []);
    }
  }

  // The rest of a receive, from wherever it is.
  lemma Receive(s0: State, moves: seq<Move>, s: State, p: Role) returns (more: seq<Move>, s': State)
    requires Reaches(false, s0, moves, s) && At(s, p).flag == Ipe(p)
    requires At(s, p).pc.Taken? ||
             ((At(s, p).pc.Idle? || At(s, p).pc.Seen?) && |At(s, p).received| < |At(s, p.Peer()).sent|)
    ensures Reaches(false, s0, more, s')
    ensures var m := At(s, p);
            s' == WithNode(s, p, m.(pc := Idle, flag := Nbor(p),
                                    received := if m.pc.Taken? then m.received else m.received + [Found(s, p)]))
    decreases if At(s, p).pc.Idle? then 2 else if At(s, p).pc.Seen? then 1 else 0
  {
    hide Reaches;
    var m := At(s, p);
    if m.pc.Taken? {
      s' := WithNode(s, p, m.(pc := Idle, flag := Nbor(p)));
      Extend(s0, moves, s, Clear(p), s');
      more := moves + [Clear(p)];
    } else if m.pc.Seen? {
      var s1 := WithNode(s, p, m.(pc := Taken, received := m.received + [Found(s, p)]));
      Extend(s0, moves, s, Take(p), s1);
      more, s' := Receive(s0, moves + [Take(p)], s1, p);
    } else {
      var s1 := WithNode(s, p, m.(pc := Seen));
      Extend(s0, moves, s, See(p), s1);
      more, s' := Receive(s0, moves + [See(p)], s1, p);
    }
  }

  /** Everything is at rest and a message of r's has gone: its peer waits, with nothing to come. */
  ghost predicate Lost(s: State, r: Role) {
    s.tx.pc.Idle? && s.rx.pc.Idle? && s.putsToTx == [] && s.putsToRx == [] &&
    !Enabled(s, See(Tx)) && !Enabled(s, See(Rx)) && |At(s, r).sent| == |At(s, r.Peer()).received| + 1
  }

  lemma StampedParts(m: Node, y: Letter, cell: Cell)
    ensures var l := Stamped(m, y);
            l.pc == m.pc && l.flag == m.flag && l.sent == m.sent && l.received == m.received &&
            Get(l, cell) == if y.cell == cell then y.x else Get(m, cell)
  {
  }

  // What a finished send looks like to the two sides.
  lemma SentParts(s: State, r: Role, x: Letter)
    requires Busy(s, r, x) && At(s, r).pc.Idle?
    ensures var me, peer := At(s, r), At(s, r.Peer());
            PutsTo(s, r) == [] && me.flag == Nbor(r) == Ipe(r.Peer()) && peer.sent == me.received &&
            me.sent == (if peer.pc.Taken? then peer.received else peer.received + [x]) &&
            (peer.pc.Idle? || peer.pc.Seen? || peer.pc.Taken?)
  {
  }

  // One more whole send while x is under way. If both go to one cell, y is taken in place of x.
  lemma Overtaken(s0: State, moves: seq<Move>, s: State, r: Role, x: Letter, y: Letter)
    returns (more: seq<Move>, end: State)
    requires Reaches(false, s0, moves, s) && Busy(s, r, x) && At(s, r).pc.Idle?
    ensures Reaches(false, s0, more, end) && Lost(end, r) && At(end, r).sent == At(s, r).sent + [y]
    ensures At(end, r.Peer()).sent == At(s, r.Peer()).sent
    ensures !At(s, r.Peer()).pc.Taken? ==>
              At(end, r.Peer()).received == At(s, r.Peer()).received + [if y.cell == x.cell then y else x]
  {
    hide Reaches, AllLanded, Landed, Step, Busy, Stamped;
    SentParts(s, r, x);
    var peer, q := At(s, r.Peer()), PutsTo(s, r.Peer());
    var m1, s1 := SendAll(s0, moves, s, r, y);
    LastLanded(peer, q, y, At(s, r).flag);
    LandedKeeps(peer, q);
    LetterLands(s, r, x);
    var m2, s2 := LandAll(s0, m1, s1, r.Peer());
    assert At(s2, r.Peer()) == Stamped(AllLanded(peer, q), y).(flag := Ipe(r.Peer()));
    StampedParts(AllLanded(peer, q), y, x.cell);
    StampedParts(At(s, r), y, x.cell);
    more, end := Receive(s0, m2, s2, r.Peer());
  }

  function Total(s: State): nat { |s.tx.sent| + |s.rx.sent| }

  lemma TotalGrows(s: State, m: Move)
    requires Enabled(s, m)
    ensures Total(Step(s, m)) == Total(s) + if m.Send? then 1 else 0
  {
  }

  // From rest, a run with one send at most is alternating whether it means to be or not.
  lemma {:induction false} OneSend(s: State, moves: seq<Move>, end: State)
    requires Rest(s) && Reaches(false, s, moves, end) && Total(end) <= Total(s) + 1
    ensures Total(end) >= Total(s) && (if Total(end) == Total(s) then end == s else Inv(end))
  {
    if moves != [] {
      hide Rest, Busy, Step, Enabled, Quiet, Total;
      var before, m := moves[..|moves| - 1], moves[|moves| - 1];
      var q :| Reaches(false, s, before, q) && Enabled(q, m) && end == Step(q, m);
      TotalGrows(q, m);
      OneSend(s, before, q);
      if Rest(q) {
        RestSteps(q, m);
      } else {
        var r, x :| Busy(q, r, x);
        BusySteps(q, r, x, m);
      }
    }
  }

  lemma NothingLost(s: State, r: Role)
    requires Inv(s)
    ensures !Lost(s, r)
  {
    if !Rest(s) {
      var q, x :| Busy(s, q, x);
      var m := BusyMoves(s, q, x);
    }
  }

  /** Alternation is exactly what is needed: wherever it has led, a side with no call open and nothing
      inbound can send any one letter more without any run losing one if and only if all is answered. */
  lemma AlternationIsExact(s0: State, moves: seq<Move>, s: State, r: Role, y: Letter)
    requires Initial(s0) && Reaches(true, s0, moves, s)
    ensures At(s, r).pc.Idle? && |At(s, r.Peer()).sent| == |At(s, r).received| ==>
            (Quiet(s) <==>
             !exists more, end ::
               Reaches(false, s, more, end) && Total(end) == Total(s) + 1 &&
               At(end, r).sent == At(s, r).sent + [y] && Lost(end, r))
  {
    hide Reaches, Busy, Lost;
    QuietOrMoving(s0, moves, s);
    ReachableInv(s0, moves, s);
    if Quiet(s) {
      forall more, end | Reaches(false, s, more, end) && Total(end) == Total(s) + 1 ensures !Lost(end, r) {
        OneSend(s, more, end);
        NothingLost(end, r);
      }
    } else if At(s, r).pc.Idle? && |At(s, r.Peer()).sent| == |At(s, r).received| {
      var q, x :| Busy(s, q, x);
      SenderIs(s, q, x, r);
      Start(s);
      var more, end := Overtaken(s, [], s, r, x, y);
    }
  }

  lemma SenderIs(s: State, q: Role, x: Letter, r: Role)
    requires Busy(s, q, x) && At(s, r).pc.Idle? && |At(s, r.Peer()).sent| == |At(s, r).received|
    ensures q == r
  {
  }

  /** The case of the header: of two values sent in a row, as size and count are, the first can be
      lost. Through one cell the receiver takes the second for it; it then waits, with nothing left
      to arrive. */
  lemma BackToBackLoses(s0: State, a: Letter, b: Letter)
    requires Initial(s0)
    ensures exists moves, s ::
              Reaches(false, s0, moves, s) && Lost(s, Tx) && s.tx.sent == [a, b] &&
              s.rx.received == [if a.cell == b.cell then b else a]
  {
    hide Reaches, Lost;
    Start(s0);
    var m1, s1 := SendAll(s0, [], s0, Tx, a);
    assert s1.putsToRx == [Value(a), Flag(1)];
    assert Busy(s1, Tx, a);
    var m2, s2 := Overtaken(s0, m1, s1, Tx, a, b);
  }
}
