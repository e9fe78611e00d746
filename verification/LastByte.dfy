/** The one-sided modules (src/gpshmem.c, src/shmem.c, and with the same polling src/armci.c and the
    local-poll mode of src/ib.c): a receiver spins on the last byte of a buffer its peer writes
    remotely, then rewrites that byte. Puts arrive byte by byte in address order. */
module LastByte {
  import opened Bytes
  import opened Roles

  /** shared: one buffer for both directions; otherwise two, allocated at the same addresses on both
      nodes. await: the byte RecvData spins for. reset: what it then stores. */
  datatype Protocol = Protocol(shared: bool, awaitTx: byte, awaitRx: byte, resetTx: byte, resetRx: byte)

  function Await(p: Protocol, r: Role): byte { if r.Tx? then p.awaitTx else p.awaitRx }

  function Reset(p: Protocol, r: Role): byte { if r.Tx? then p.resetTx else p.resetRx }

  // 'b' + ipe and 'b' + nbor, with the transmitter on processing element 0
  const GPSHMEM := Protocol(true, 0x62, 0x63, 0x63, 0x62)
  // 'a' + (1 - tr) and 'a' + tr
  const SHMEM_CACHE := Protocol(true, 0x61, 0x62, 0x62, 0x61)
  // 'a' + 1 and 'a'
  const SHMEM_NOCACHE := Protocol(false, 0x62, 0x62, 0x61, 0x61)

  datatype Block = Buff1 | Buff2

  /** MyMalloc: without cache mode the two blocks trade places between the nodes. */
  function RecvBlock(p: Protocol, r: Role): Block { if p.shared || r.Tx? then Buff1 else Buff2 }

  function SendBlock(p: Protocol, r: Role): Block { if p.shared || r.Rx? then Buff1 else Buff2 }

  /** A put in flight to a block at the same address on the peer, its first k bytes delivered. */
  datatype Put = Put(block: Block, data: seq<byte>, k: nat)

  /** sent and received: the buffer as it was at each SendData, and as it was when each spin ended. */
  datatype Node = Node(buff1: seq<byte>, buff2: seq<byte>, sent: seq<seq<byte>>, received: seq<seq<byte>>)

  function Memory(m: Node, b: Block): seq<byte> { if b.Buff1? then m.buff1 else m.buff2 }

  function Stored(m: Node, b: Block, i: nat, v: byte): Node
    requires i < |Memory(m, b)|
  {
    if b.Buff1? then m.(buff1 := m.buff1[i := v]) else m.(buff2 := m.buff2[i := v])
  }

  type State = Sides<Node, Put>

  datatype Config = Config(p: Protocol, n: nat, reps: nat)

  // The transmitter alternates send, receive; the receiver receive, send.
  predicate AtSend(g: Config, m: Node, r: Role) {
    if r.Tx? then |m.sent| == |m.received| < g.reps else |m.sent| < |m.received|
  }

  predicate AtRecv(g: Config, m: Node, r: Role) {
    if r.Tx? then |m.received| < |m.sent| else |m.sent| == |m.received| < g.reps
  }

  predicate Fits(n: nat, m: Node, q: seq<Put>) {
    |m.buff1| == |m.buff2| == n && forall i | 0 <= i < |q| :: q[i].k < |q[i].data| == n
  }

  // Every buffer has n bytes and every put fits.
  predicate Sized(g: Config, s: State) {
    g.n > 0 && Fits(g.n, s.tx, s.putsToTx) && Fits(g.n, s.rx, s.putsToRx)
  }

  /** SendData, one byte of a put arriving, or the exit of RecvData's spin. A poll that finds
      another byte changes nothing and is no move. */
  datatype Move = Send(r: Role) | Deliver(r: Role) | Exit(r: Role)

  predicate Enabled(g: Config, s: State, m: Move)
    requires Sized(g, s)
  {
    match m
    case Send(r) => AtSend(g, At(s, r), r)
    case Deliver(r) => PutsTo(s, r) != []
    case Exit(r) => AtRecv(g, At(s, r), r) && Memory(At(s, r), RecvBlock(g.p, r))[g.n - 1] == Await(g.p, r)
  }

  function Sending(g: Config, s: State, r: Role): (s': State)
    requires Sized(g, s)
    ensures Sized(g, s')
  {
    var me := At(s, r);
    var data := Memory(me, SendBlock(g.p, r));
    WithPuts(WithNode(s, r, me.(sent := me.sent + [data])), r.Peer(),
             PutsTo(s, r.Peer()) + [Put(SendBlock(g.p, r), data, 0)])
  }

  // The puts when one more byte of the oldest has landed.
  function Advanced(n: nat, q: seq<Put>): seq<Put>
    requires q != []
  {
    (if q[0].k + 1 == n then [] else [q[0].(k := q[0].k + 1)]) + q[1..]
  }

  function Delivering(g: Config, s: State, r: Role): (s': State)
    requires Sized(g, s) && PutsTo(s, r) != []
    ensures Sized(g, s')
  {
    var q := PutsTo(s, r);
    var put := q[0];
    var me := Stored(At(s, r), put.block, put.k, put.data[put.k]);
    WithPuts(WithNode(s, r, me), r, Advanced(g.n, q))
  }

  function Exiting(g: Config, s: State, r: Role): (s': State)
    requires Sized(g, s)
    ensures Sized(g, s')
  {
    var me := At(s, r);
    var b := RecvBlock(g.p, r);
    WithNode(s, r, Stored(me.(received := me.received + [Memory(me, b)]), b, g.n - 1, Reset(g.p, r)))
  }

  function Step(g: Config, s: State, m: Move): (s': State)
    requires Sized(g, s) && Enabled(g, s, m)
    ensures Sized(g, s')
  {
    match m
    case Send(r) => Sending(g, s, r)
    case Deliver(r) => Delivering(g, s, r)
    case Exit(r) => Exiting(g, s, r)
  }

  predicate Initial(g: Config, s: State) {
    Sized(g, s) && s.putsToTx == [] && s.putsToRx == [] &&
    s.tx.sent == [] && s.tx.received == [] && s.rx.sent == [] && s.rx.received == []
  }

  ghost predicate Reaches(g: Config, s0: State, moves: seq<Move>, s: State)
    requires Initial(g, s0)
  {
    Sized(g, s) &&
    if moves == [] then s == s0
    else
      var m := moves[|moves| - 1];
      exists r :: Reaches(g, s0, moves[..|moves| - 1], r) && Enabled(g, r, m) && s == Step(g, r, m)
  }

  // ----- which bytes make the protocol work

  function Last(g: Config, m: Node, b: Block): byte
    requires g.n > 0 && |Memory(m, b)| == g.n
  {
    Memory(m, b)[g.n - 1]
  }

  /** What one side resets must be what the other side waits for when the buffer is shared, and must
      differ from what it waits for itself. */
  predicate Sound(p: Protocol) {
    if p.shared then p.awaitTx != p.awaitRx && p.resetTx == p.awaitRx && p.resetRx == p.awaitTx
    else p.resetTx != p.awaitTx && p.resetRx != p.awaitRx
  }

  // The byte that will go out ends as the peer expects it; the byte polled does not yet.
  predicate Armed(g: Config, s: State)
    requires Sized(g, s)
  {
    Last(g, s.tx, SendBlock(g.p, Tx)) == g.p.awaitRx &&
    Last(g, s.rx, RecvBlock(g.p, Rx)) != g.p.awaitRx &&
    Last(g, s.tx, RecvBlock(g.p, Tx)) != g.p.awaitTx &&
    (!g.p.shared ==> Last(g, s.rx, SendBlock(g.p, Rx)) == g.p.awaitTx)
  }

  lemma ProtocolsSound()
    ensures Sound(GPSHMEM) && Sound(SHMEM_CACHE) && Sound(SHMEM_NOCACHE)
  {
  }

  lemma FlipFlop(p: Protocol, r: Role)
    ensures SendBlock(p, r) == RecvBlock(p, r.Peer())
    ensures p.shared <==> SendBlock(p, r) == RecvBlock(p, r)
  {
  }

  // ----- the invariant

  ghost predicate Turns(g: Config, s: State) {
    |s.tx.received| <= |s.rx.sent| <= |s.rx.received| <= |s.tx.sent| <= |s.tx.received| + 1 &&
    |s.tx.sent| <= g.reps &&
    s.rx.received == s.tx.sent[..|s.rx.received|] && s.tx.received == s.rx.sent[..|s.tx.received|]
  }

  // The buffer r polls: idle, filling up in address order, or complete.
  ghost predicate Channel(g: Config, s: State, r: Role)
    requires Sized(g, s)
  {
    var sent, taken := At(s, r.Peer()).sent, |At(s, r).received|;
    var memory, q := Memory(At(s, r), RecvBlock(g.p, r)), PutsTo(s, r);
    // a spin has ended here before: its reset is what the last byte still holds
    (taken > 0 && (|sent| == taken || q != []) ==> memory[g.n - 1] == Reset(g.p, r)) &&
    if |sent| == taken then q == [] && memory[g.n - 1] != Await(g.p, r)
    else
      |sent| == taken + 1 && |sent[taken]| == g.n && sent[taken][g.n - 1] == Await(g.p, r) &&
      if q == [] then memory == sent[taken]
      else
        |q| == 1 && q[0].block == RecvBlock(g.p, r) && q[0].data == sent[taken] &&
        memory[..q[0].k] == sent[taken][..q[0].k] && memory[g.n - 1] != Await(g.p, r)
  }

  // A side that sends next has the right last byte to send.
  ghost predicate Ready(g: Config, s: State, r: Role)
    requires Sized(g, s)
  {
    var me := At(s, r);
    (!g.p.shared || (if r.Tx? then |me.sent| == |me.received| else |me.sent| < |me.received|)) ==>
      Last(g, me, SendBlock(g.p, r)) == Await(g.p, r.Peer())
  }

  ghost predicate Inv(g: Config, s: State) {
    Sized(g, s) && Turns(g, s) && Channel(g, s, Tx) && Channel(g, s, Rx) && Ready(g, s, Tx) && Ready(g, s, Rx)
  }

  lemma InitialInv(g: Config, s: State)
    requires Sound(g.p) && Initial(g, s) && Armed(g, s)
    ensures Inv(g, s)
  {
  }

  /** A put is only ever begun when everything sent before it has been consumed. */
  lemma SendWhenConsumed(g: Config, s: State, r: Role)
    requires Inv(g, s) && Enabled(g, s, Send(r))
    ensures |At(s, r).sent| == |At(s, r.Peer()).received| && PutsTo(s, r.Peer()) == []
    ensures Last(g, At(s, r), SendBlock(g.p, r)) == Await(g.p, r.Peer())
  {
  }

  // All that a send changes.
  lemma SendEffect(g: Config, s: State, r: Role)
    requires Sized(g, s) && Enabled(g, s, Send(r))
    ensures var s', me, b := Step(g, s, Send(r)), At(s, r), SendBlock(g.p, r);
            At(s', r) == me.(sent := me.sent + [Memory(me, b)]) && At(s', r.Peer()) == At(s, r.Peer()) &&
            PutsTo(s', r) == PutsTo(s, r) &&
            PutsTo(s', r.Peer()) == PutsTo(s, r.Peer()) + [Put(b, Memory(me, b), 0)]
  {
  }

  lemma SendKeeps(g: Config, s: State, r: Role)
    requires Sound(g.p) && Inv(g, s) && Enabled(g, s, Send(r))
    ensures Inv(g, Step(g, s, Send(r)))
  {
    hide Step;
    SendWhenConsumed(g, s, r);
    SendEffect(g, s, r);
    FlipFlop(g.p, r);
  }

  // The buffer r polls.
  lemma DeliverEffect(g: Config, s: State, r: Role)
    requires Sized(g, s) && Enabled(g, s, Deliver(r))
    requires PutsTo(s, r)[0].block == RecvBlock(g.p, r)
    ensures var s', put := Step(g, s, Deliver(r)), PutsTo(s, r)[0];
            Memory(At(s', r), RecvBlock(g.p, r)) == Memory(At(s, r), RecvBlock(g.p, r))[put.k := put.data[put.k]] &&
            (!g.p.shared ==> Memory(At(s', r), SendBlock(g.p, r)) == Memory(At(s, r), SendBlock(g.p, r)))
  {
  }

  // Besides memory, only the puts to that side change.
  lemma DeliverFrame(g: Config, s: State, r: Role)
    requires Sized(g, s) && Enabled(g, s, Deliver(r))
    ensures var s' := Step(g, s, Deliver(r));
            At(s', r.Peer()) == At(s, r.Peer()) && PutsTo(s', r.Peer()) == PutsTo(s, r.Peer()) &&
            At(s', r).sent == At(s, r).sent && At(s', r).received == At(s, r).received &&
            PutsTo(s', r) == Advanced(g.n, PutsTo(s, r))
  {
  }

  // One more byte of the message, in address order.
  lemma DeliverFills(g: Config, s: State, r: Role)
    requires Inv(g, s) && Enabled(g, s, Deliver(r))
    ensures Channel(g, Step(g, s, Deliver(r)), r)
  {
    hide Turns, Ready, Step;
    var memory, put := Memory(At(s, r), RecvBlock(g.p, r)), PutsTo(s, r)[0];
    DeliverFrame(g, s, r);
    DeliverEffect(g, s, r);
    OneByteMore(memory, put.data, put.k);
  }

  lemma OneByteMore(memory: seq<byte>, data: seq<byte>, k: nat)
    requires k < |memory| == |data| && memory[..k] == data[..k]
    ensures var filled := memory[k := data[k]];
            filled[..k + 1] == data[..k + 1] && (k + 1 == |data| ==> filled == data)
  {
    var filled := memory[k := data[k]];
    assert filled[..k + 1] == memory[..k] + [data[k]];
    assert data[..k + 1] == data[..k] + [data[k]];
    if k + 1 == |data| {
      assert filled == filled[..k + 1] && data == data[..k + 1];
    }
  }

  lemma DeliverKeeps(g: Config, s: State, r: Role)
    requires Inv(g, s) && Enabled(g, s, Deliver(r))
    ensures Inv(g, Step(g, s, Deliver(r)))
  {
    hide Step, Advanced;
    DeliverFills(g, s, r);
    DeliverFrame(g, s, r);
    DeliverEffect(g, s, r);
  }

  // All that the end of a spin changes.
  lemma ExitEffect(g: Config, s: State, r: Role)
    requires Sized(g, s) && Enabled(g, s, Exit(r))
    ensures var s', me, b := Step(g, s, Exit(r)), At(s, r), RecvBlock(g.p, r);
            At(s', r) == Stored(me.(received := me.received + [Memory(me, b)]), b, g.n - 1, Reset(g.p, r)) &&
            At(s', r.Peer()) == At(s, r.Peer()) &&
            PutsTo(s', r) == PutsTo(s, r) && PutsTo(s', r.Peer()) == PutsTo(s, r.Peer())
  {
  }

  lemma ExitKeeps(g: Config, s: State, r: Role)
    requires Sound(g.p) && Inv(g, s) && Enabled(g, s, Exit(r))
    ensures Inv(g, Step(g, s, Exit(r)))
  {
    hide Step;
    ExitEffect(g, s, r);
    FlipFlop(g.p, r);
  }
}
