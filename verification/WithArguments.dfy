/** A receiver whose run_iters is given arguments skips reading the header, which the transmitter sends
    all the same (src/netpipe.c): what becomes of the framing then. */
module WithArguments {
  import opened Options
  import opened Bytes
  import opened Session
  import opened SessionProof
  import opened EndToEnd
  import opened Tcp
  import opened TcpStreams
  import opened Traffic

  /** The one header that begins with "SyncMe". */
  predicate Masquerades(c: Call) { c.size == 0x5379_6E63 && c.nrepeat >> 16 == 0x4D65 }

  lemma SizeIsSync(size: bv32)
    ensures Htonl(size) == [0x53, 0x79, 0x6E, 0x63] <==> size == 0x5379_6E63
  {
    NtohlHtonl(size);
    assert Ntohl([0x53, 0x79, 0x6E, 0x63]) == 0x5379_6E63;
    HtonlNtohl([0x53, 0x79, 0x6E, 0x63]);
  }

  lemma CountIsSync(nrepeat: bv32)
    ensures Byte(nrepeat, 3) == 0x4D && Byte(nrepeat, 2) == 0x65 <==> nrepeat >> 16 == 0x4D65
  {
  }

  // The first six bytes of a call, against the string.
  lemma HeaderReadAsSync(size: bv32, nrepeat: bv32)
    ensures (Htonl(size) + Htonl(nrepeat) + SYNC)[..6] == SYNC <==> Masquerades(Call(size, nrepeat))
  {
    var s := (Htonl(size) + Htonl(nrepeat) + SYNC)[..6];
    var low := [Byte(nrepeat, 3), Byte(nrepeat, 2)];
    SizeIsSync(size);
    CountIsSync(nrepeat);
    hide Byte;
    assert s == Htonl(size) + low;
    assert s[..4] == Htonl(size) && s[4] == low[0] && s[5] == low[1];
    assert SYNC[..4] == [0x53, 0x79, 0x6E, 0x63];
    if Htonl(size) == SYNC[..4] && low == SYNC[4..] {
      assert s == SYNC[..4] + SYNC[4..] == SYNC;
    }
  }

  // The count's bytes that are not taken for part of "SyncMe".
  function LowHalf(nrepeat: bv32): (s: seq<byte>)
    ensures |s| == 2
  {
    Htonl(nrepeat)[2..]
  }

  // A call's stream from its beginning, and from behind the first six bytes.
  lemma HeaderAhead(g: Config, i: nat)
    requires ValidConfig(g) && i < |g.calls|
    ensures var c, s := g.calls[i], From(g, Forward, i, 0);
            |s| >= 6 && s[..6] == (Htonl(c.size) + Htonl(c.nrepeat) + SYNC)[..6] &&
            s[6..] == LowHalf(c.nrepeat) + SYNC + From(g, Forward, i, 3)
  {
    hide From, Htonl, LowHalf;
    NextMsg(g, Forward, i, 0);
    NextMsg(g, Forward, i, 1);
    NextMsg(g, Forward, i, 2);
    SixAhead(g.calls[i], From(g, Forward, i, 3));
  }

  lemma SixAhead(c: Call, later: seq<byte>)
    ensures var s := Htonl(c.size) + (Htonl(c.nrepeat) + (SYNC + later));
            s[..6] == (Htonl(c.size) + Htonl(c.nrepeat) + SYNC)[..6] && s[6..] == LowHalf(c.nrepeat) + SYNC + later
  {
    hide Htonl;
  }

  /** Whatever arguments the receiver was given, it dies in Sync, unless the transmitter's header is
      the one kind that passes for the string. */
  lemma ArgumentsFailSync(cache: bool, calls: seq<Call>, cap: nat, i: nat, args: (bv32, bv32), w: Wires)
    requires i < |calls| && ValidConfig(Program(cache, calls, cap))
    requires w.incoming == From(Program(cache, calls, cap), Forward, i, 0)
    ensures RunIters(cache, false, Some(args), w).0.Died? <==> !Masquerades(calls[i])
  {
    var g := Program(cache, calls, cap);
    var c := calls[i];
    HeaderAhead(g, i);
    HeaderReadAsSync(c.size, c.nrepeat);
    hide From, Htonl, PingPong, InitFill, CheckReports;
  }

  lemma DropTwice(s: seq<byte>, a: nat, b: nat)
    ensures Drop(Drop(s, a), b) == Drop(s, a + b)
  {
    if a + b <= |s| {
      assert s[a..][b..] == s[a + b..];
    }
  }

  lemma DropNothing(s: seq<byte>)
    ensures Drop(s, 0) == s
  {
  }

  // One receive and one send of the loop, past the end of the stream too.
  lemma TripCounts(cache: bool, l: Local)
    requires |l.rBuff| == |l.sBuff|
    ensures var q := Sent(Received(cache, l));
            |q.rBuff| == |q.sBuff| == |l.rBuff| && q.incoming == Drop(l.incoming, |l.rBuff|) &&
            |q.outgoing| == |l.outgoing| + |l.rBuff|
  {
  }

  // k trips count k buffers each way, at bytes in all.
  lemma {:induction false} LoopCounts(cache: bool, l: Local, k: nat, n: nat, at: int)
    requires n == |l.rBuff| == |l.sBuff| && at == k * n
    ensures var q := PingPong(cache, false, l, k);
            at >= 0 && |q.rBuff| == |q.sBuff| == n && q.incoming == Drop(l.incoming, at) &&
            |q.outgoing| == |l.outgoing| + at
  {
    hide Received, Sent, Drop;
    if k == 0 {
      DropNothing(l.incoming);
    } else {
      OneMore(k, n);
      LoopCounts(cache, l, k - 1, n, at - n);
      TripCounts(cache, PingPong(cache, false, l, k - 1));
      DropTwice(l.incoming, at - n, n);
    }
  }

  /** Once Sync has passed, a call counts its own arguments' bytes from eight bytes behind the data. */
  lemma SyncPassed(cache: bool, calls: seq<Call>, cap: nat, i: nat, args: (bv32, bv32), w: Wires, k: int)
    requires i < |calls| && ValidConfig(Program(cache, calls, cap)) && Masquerades(calls[i])
    requires w.incoming == From(Program(cache, calls, cap), Forward, i, 0)
    requires k == args.1 as nat * Bufflen(args.0)
    ensures var ahead := LowHalf(calls[i].nrepeat) + SYNC + From(Program(cache, calls, cap), Forward, i, 3);
            var (outcome, w') := RunIters(cache, false, Some(args), w);
            outcome.Done? && k >= 0 && w'.incoming == Drop(ahead, k) && |w'.outgoing| == |w.outgoing| + 6 + k
  {
    var f := InitFill(cache, Bufflen(args.0));
    HeaderAhead(Program(cache, calls, cap), i);
    HeaderReadAsSync(calls[i].size, calls[i].nrepeat);
    hide From, Htonl, InitFill, Bufflen, PingPong, CheckReports, LowHalf, Drop;
    var out := w.outgoing + [] + SYNC;
    var l := Local(f.recv, f.send, w.incoming[6..], out, w.readAt + Copies(|out|, 6));
    LoopCounts(cache, l, args.1 as nat, |f.recv|, k);
  }

  lemma EmptyAtEnd(g: Config, i: nat)
    requires ValidConfig(g) && i <= |g.calls|
    ensures From(g, Forward, i, 0) == [] <==> i == |g.calls|
  {
    if i < |g.calls| {
      NextMsg(g, Forward, i, 0);
    }
  }

  // Two ends of the same string are equal when they are equally long.
  lemma SameEnd(lead: seq<byte>, s: seq<byte>, at: int, rest: seq<byte>, k: nat)
    requires |lead| == 8 && Behind(s, at, rest)
    ensures Drop(lead + s, k) == rest <==> k == at + 8 || (k > at + 8 && rest == [])
  {
    var all := lead + s;
    assert all[at + 8..] == rest;
    assert |all| == at + 8 + |rest|;
    if k <= |all| {
      assert |all[k..]| == |all| - k;
    }
  }

  // ----- framing

  /** What a receiver that was given arguments has read leaves the next header at the front. */
  ghost predicate ForwardKept(g: Config, i: nat, w': Wires)
    requires ValidConfig(g)
  {
    w'.incoming == From(g, Forward, i + 1, 0)
  }

  /** It has written as many bytes as the transmitter reads in the call. */
  ghost predicate BackwardKept(g: Config, i: nat, w: Wires, w': Wires)
    requires ValidConfig(g)
  {
    |w'.outgoing| - |w.outgoing| == |From(g, Backward, i, 0)| - |From(g, Backward, i + 1, 0)|
  }

  /** For any arguments that get past Sync, exactly when each direction stays framed: reading needs
      eight bytes more than the transmitter's count, or at least that many in the last call; writing
      needs the transmitter's count itself. */
  lemma ArgumentsFraming(cache: bool, calls: seq<Call>, cap: nat, i: nat, args: (bv32, bv32), w: Wires)
    requires i < |calls| && ValidConfig(Program(cache, calls, cap)) && Masquerades(calls[i])
    requires w.incoming == From(Program(cache, calls, cap), Forward, i, 0)
    ensures var g := Program(cache, calls, cap);
            var (outcome, w') := RunIters(cache, false, Some(args), w);
            var k, at := args.1 as nat * Bufflen(args.0), Reps(calls[i]) * Bufflen(calls[i].size);
            outcome.Done? &&
            (ForwardKept(g, i, w') <==> k == at + 8 || (k > at + 8 && i + 1 == |calls|)) &&
            (BackwardKept(g, i, w, w') <==> k == at)
  {
    hide From, Htonl, RunIters, Bufflen, Drop, Behind, LowHalf;
    var g := Program(cache, calls, cap);
    var k, at := args.1 as nat * Bufflen(args.0), Reps(calls[i]) * Bufflen(calls[i].size);
    SyncPassed(cache, calls, cap, i, args, w, k);
    CallData(g, Forward, i, at);
    CallBytes(g, Backward, i);
    EmptyAtEnd(g, i + 1);
    SameEnd(LowHalf(calls[i].nrepeat) + SYNC, From(g, Forward, i, 3), at, From(g, Forward, i + 1, 0), k);
  }

  /** No arguments and no header keep both directions framed: the call dies in Sync or leaves at
      least one of them at the wrong place. */
  lemma ArgumentsLoseFraming(cache: bool, calls: seq<Call>, cap: nat, i: nat, args: (bv32, bv32), w: Wires)
    requires i < |calls| && ValidConfig(Program(cache, calls, cap))
    requires w.incoming == From(Program(cache, calls, cap), Forward, i, 0)
    ensures var g := Program(cache, calls, cap);
            var (outcome, w') := RunIters(cache, false, Some(args), w);
            outcome.Died? || !ForwardKept(g, i, w') || !BackwardKept(g, i, w, w')
  {
    hide From, RunIters, Bufflen, Reps, ForwardKept, BackwardKept;
    ArgumentsFailSync(cache, calls, cap, i, args, w);
    if Masquerades(calls[i]) {
      ArgumentsFraming(cache, calls, cap, i, args, w);
    }
  }

  /** With the transmitter's own arguments the receiver counts the right number of bytes from the
      wrong place: the last eight bytes of its data are still ahead of the next call's header. */
  lemma OwnArguments(cache: bool, calls: seq<Call>, cap: nat, i: nat, w: Wires)
    requires i < |calls| && ValidConfig(Program(cache, calls, cap)) && Masquerades(calls[i])
    requires w.incoming == From(Program(cache, calls, cap), Forward, i, 0)
    ensures var g := Program(cache, calls, cap);
            var (outcome, w') := RunIters(cache, false, Some((calls[i].size, calls[i].nrepeat)), w);
            var data := Data(g, Forward, i);
            outcome.Done? && |data| >= 8 && w'.incoming == data[|data| - 8..] + From(g, Forward, i + 1, 0)
  {
    hide From, RunIters, Bufflen, Behind, LowHalf;
    var g, c := Program(cache, calls, cap), calls[i];
    var n, k := Bufflen(c.size), Reps(c) * Bufflen(c.size);
    MasqueradeSize(c);
    SyncPassed(cache, calls, cap, i, (c.size, c.nrepeat), w, Reps(c) * n);
    OneMore(Reps(c), n);
    LastData(g, i, n, k - n);
    Shifted(LowHalf(c.nrepeat) + SYNC, From(g, Forward, i, 3), k - n, Data(g, Forward, i), From(g, Forward, i + 1, 0));
  }

  lemma MasqueradeSize(c: Call)
    requires Masquerades(c)
    ensures Bufflen(c.size) >= 8 && Reps(c) > 0
  {
    assert c.nrepeat != 0;
  }

  // The last data message of a call and what follows it.
  lemma LastData(g: Config, i: nat, n: nat, at: int)
    requires ValidConfig(g) && i < |g.calls| && g.calls[i].size != 0 && Reps(g.calls[i]) > 0
    requires n == Bufflen(g.calls[i].size) && at == (Reps(g.calls[i]) - 1) * n
    ensures Behind(From(g, Forward, i, 3), at, Data(g, Forward, i) + From(g, Forward, i + 1, 0))
  {
    hide From, Msg, Data, Bufflen, Reps, Behind;
    var j := Reps(g.calls[i]) - 1;
    SkipData(g, Forward, i, j, n, at);
    DataNext(g, Forward, i, j);
    CallEnd(g, Forward, i, 3 + j + 1);
  }

  // Eight bytes in front put every boundary eight bytes late.
  lemma Shifted(lead: seq<byte>, s: seq<byte>, k: int, data: seq<byte>, later: seq<byte>)
    requires |lead| == 8 <= |data| && Behind(s, k, data + later)
    ensures Drop(lead + s, k + |data|) == data[|data| - 8..] + later
  {
    var n := |data|;
    assert (lead + s)[k + n..] == s[k..][n - 8..];
    assert (data + later)[n - 8..] == data[n - 8..] + later;
  }
}
