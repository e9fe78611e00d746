/** The ping-pong session of netpipe_run_iters over the two byte streams of a TCP connection
    (src/netpipe.c, src/tcp.c), as a state machine of two processes. A move transfers some bytes of
    one write or one read; computation between transfers is part of the move that ends it. */
module Session {
  import opened Bytes
  import opened Roles

  // What one run_iters call of the transmitter was given.
  datatype Call = Call(size: bv32, nrepeat: bv32)

  function Reps(c: Call): nat { c.nrepeat as nat }

  /** Size in bits to length in bytes. */
  function Bufflen(size: bv32): nat {
    var bits := size as nat;
    bits / 8 + if bits % 8 != 0 then 1 else 0
  }

  /** The least number of bytes that holds the bits. */
  lemma BufflenRounds(size: bv32)
    ensures size as nat <= 8 * Bufflen(size) < size as nat + 8
  {
  }

  lemma BufflenZero(size: bv32)
    ensures Bufflen(size) == 0 <==> size == 0
  {
  }

  // Contents of the receive and the send buffer of one call when the loop starts.
  datatype Fill = Fill(recv: seq<byte>, send: seq<byte>)

  /** cap: how many bytes each stream holds. In cache mode the two buffers are one. */
  datatype Config = Config(cache: bool, calls: seq<Call>, cap: nat, txFills: seq<Fill>, rxFills: seq<Fill>)

  ghost predicate FillsFit(g: Config, fills: seq<Fill>) {
    |fills| == |g.calls| &&
    forall i | 0 <= i < |fills| ::
      |fills[i].recv| == |fills[i].send| == Bufflen(g.calls[i].size) &&
      (g.cache ==> fills[i].recv == fills[i].send)
  }

  ghost predicate ValidConfig(g: Config) {
    g.cap >= 6 && FillsFit(g, g.txFills) && FillsFit(g, g.rxFills)
  }

  function FillOf(g: Config, role: Role, i: nat, n: nat): (f: Fill)
    ensures |f.recv| == |f.send| == n
  {
    var fills := if role.Tx? then g.txFills else g.rxFills;
    if i < |fills| && |fills[i].recv| == |fills[i].send| == n then fills[i]
    else var zeros := seq(n, _ => 0 as byte); Fill(zeros, zeros)
  }

  /** Where a process is. First is SendData on the transmitter and RecvData on the receiver,
      Second the other way round. */
  datatype Phase =
    | SizeField | RepeatField | SyncOut | SyncIn
    | First(j: nat) | Second(j: nat)
    | Finished    // transmitter: no calls left
    | Exited      // receiver: run_iters returned None
    | SyncFailed  // exit(3)

  /** done: bytes of the current write already written; got: bytes of the current read. log: the
      receive buffer each completed call handed to CheckBufferData. */
  datatype Node = Node(role: Role, phase: Phase, size: bv32, nrepeat: nat, done: nat, got: seq<byte>,
                       rBuff: seq<byte>, sBuff: seq<byte>, log: seq<seq<byte>>)

  /** t2r and r2t: bytes in flight. The rest is history: all bytes each side has written and read. */
  datatype State = State(tx: Node, rx: Node, t2r: seq<byte>, r2t: seq<byte>,
                         txWrote: seq<byte>, txTook: seq<byte>, rxWrote: seq<byte>, rxTook: seq<byte>)

  predicate Sends(p: Node) {
    match p.phase
    case SizeField => p.role.Tx?
    case RepeatField => p.role.Tx?
    case SyncOut => true
    case First(_) => p.role.Tx?
    case Second(_) => p.role.Rx?
    case _ => false
  }

  predicate Receives(p: Node) {
    match p.phase
    case SizeField => p.role.Rx?
    case RepeatField => p.role.Rx?
    case SyncIn => true
    case First(_) => p.role.Rx?
    case Second(_) => p.role.Tx?
    case _ => false
  }

  /** The bytes of the write a process is in. */
  function Outgoing(g: Config, p: Node): seq<byte>
    requires Sends(p)
  {
    match p.phase
    case SizeField => if |p.log| < |g.calls| then Htonl(g.calls[|p.log|].size) else []
    case RepeatField => if |p.log| < |g.calls| then Htonl(g.calls[|p.log|].nrepeat) else []
    case SyncOut => SYNC
    case _ => p.sBuff
  }

  /** SendRepeat and Sync issue one write and do not loop over a short one. */
  predicate Unsplit(p: Node) {
    p.phase.SizeField? || p.phase.RepeatField? || p.phase.SyncOut?
  }

  function Wanted(p: Node): nat {
    match p.phase
    case SizeField => 4
    case RepeatField => 4
    case SyncIn => 6
    case _ => Bufflen(p.size)
  }

  // Allocation and InitBufferData
  function Start(g: Config, p: Node): Node {
    var f := FillOf(g, p.role, |p.log|, Bufflen(p.size));
    p.(phase := SyncOut, rBuff := f.recv, sBuff := if g.cache then f.recv else f.send)
  }

  // The top of the ping-pong loop with counter j
  function Loop(g: Config, p: Node, j: nat): Node {
    if j < p.nrepeat then p.(phase := First(j))
    else p.(phase := if p.role.Tx? && |p.log| + 1 >= |g.calls| then Finished else SizeField,
            log := p.log + [p.rBuff])
  }

  function Store(g: Config, p: Node, data: seq<byte>): Node {
    p.(rBuff := data, sBuff := if g.cache then data else p.sBuff)
  }

  /** After the last byte of a write. */
  function AfterWrite(g: Config, p: Node): Node
    requires Sends(p)
  {
    var q := p.(done := 0);
    match p.phase
    case SizeField => q.(phase := RepeatField)
    case RepeatField =>
      if |p.log| < |g.calls| then
        Start(g, q.(size := g.calls[|p.log|].size, nrepeat := Reps(g.calls[|p.log|])))
      else q
    case SyncOut => q.(phase := SyncIn)
    case First(j) => q.(phase := Second(j))
    case Second(j) => Loop(g, q, j + 1)
  }

  function ReadCount(data: seq<byte>): nat
    requires |data| == 4
  {
    Ntohl(data) as nat
  }

  lemma ReadCountOfSent(c: Call)
    ensures ReadCount(Htonl(c.nrepeat)) == Reps(c)
  {
    hide Htonl, Ntohl;
    NtohlHtonl(c.nrepeat);
  }

  /** After the last byte of a read, data being all of them. */
  function AfterRead(g: Config, p: Node, data: seq<byte>): Node
    requires Receives(p) && |data| == Wanted(p)
  {
    var q := p.(got := []);
    match p.phase
    case SizeField => q.(phase := RepeatField, size := Ntohl(data))
    case RepeatField =>
      if q.size == 0 then q.(phase := Exited)
      else Start(g, q.(nrepeat := ReadCount(data)))
    case SyncIn => if data == SYNC then Loop(g, q, 0) else q.(phase := SyncFailed)
    case First(j) => Store(g, q, data).(phase := Second(j))
    case Second(j) => Loop(g, Store(g, q, data), j + 1)
  }

  function Write(g: Config, p: Node, k: nat): Node
    requires Sends(p) && p.done + k <= |Outgoing(g, p)|
  {
    if p.done + k == |Outgoing(g, p)| then AfterWrite(g, p) else p.(done := p.done + k)
  }

  function Read(g: Config, p: Node, chunk: seq<byte>): Node
    requires Receives(p) && |p.got| + |chunk| <= Wanted(p)
  {
    if |p.got| + |chunk| == Wanted(p) then AfterRead(g, p, p.got + chunk) else p.(got := p.got + chunk)
  }

  predicate CanWrite(g: Config, p: Node, q: seq<byte>, k: nat) {
    Sends(p) && 1 <= k && p.done + k <= |Outgoing(g, p)| && |q| + k <= g.cap &&
    (Unsplit(p) ==> p.done + k == |Outgoing(g, p)|)
  }

  predicate CanRead(p: Node, q: seq<byte>, k: nat) {
    Receives(p) && 1 <= k <= |q| && |p.got| + k <= Wanted(p)
  }

  datatype Move = TxWrite(k: nat) | TxRead(k: nat) | RxWrite(k: nat) | RxRead(k: nat)

  predicate Enabled(g: Config, s: State, m: Move) {
    match m
    case TxWrite(k) => CanWrite(g, s.tx, s.t2r, k)
    case TxRead(k) => CanRead(s.tx, s.r2t, k)
    case RxWrite(k) => CanWrite(g, s.rx, s.r2t, k)
    case RxRead(k) => CanRead(s.rx, s.t2r, k)
  }

  function Step(g: Config, s: State, m: Move): State
    requires Enabled(g, s, m)
  {
    match m
    case TxWrite(k) =>
      var chunk := Outgoing(g, s.tx)[s.tx.done..s.tx.done + k];
      s.(tx := Write(g, s.tx, k), t2r := s.t2r + chunk, txWrote := s.txWrote + chunk)
    case TxRead(k) =>
      s.(tx := Read(g, s.tx, s.r2t[..k]), r2t := s.r2t[k..], txTook := s.txTook + s.r2t[..k])
    case RxWrite(k) =>
      var chunk := Outgoing(g, s.rx)[s.rx.done..s.rx.done + k];
      s.(rx := Write(g, s.rx, k), r2t := s.r2t + chunk, rxWrote := s.rxWrote + chunk)
    case RxRead(k) =>
      s.(rx := Read(g, s.rx, s.t2r[..k]), t2r := s.t2r[k..], rxTook := s.rxTook + s.t2r[..k])
  }

  function NewNode(role: Role, phase: Phase): Node {
    Node(role, phase, 0, 0, 0, [], [], [], [])
  }

  function Initial(g: Config): State {
    State(NewNode(Tx, if g.calls == [] then Finished else SizeField), NewNode(Rx, SizeField), [], [], [], [], [], [])
  }

  /** A run is the list of its moves; s is where it leads from the start. */
  ghost predicate Reaches(g: Config, moves: seq<Move>, s: State) {
    if moves == [] then s == Initial(g)
    else
      var m := moves[|moves| - 1];
      exists r :: Reaches(g, moves[..|moves| - 1], r) && Enabled(g, r, m) && s == Step(g, r, m)
  }
}
