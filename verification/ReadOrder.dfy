/** In which order the sequential code reads and writes, and why its two sides never both wait. */
module ReadOrder {
  import opened Options
  import opened Bytes
  import opened Roles
  import opened Session
  import opened SessionProof
  import opened EndToEnd
  import opened Tcp
  import opened TcpStreams
  import opened Traffic

  // ----- one call

  /** How much a side has written when it asks for each byte of the first k data messages, having
      written out bytes before its loop: one message more than it has read if it sends first. */
  function DataAsks(tr: bool, out: nat, n: nat, k: nat): (s: seq<nat>)
    decreases k
  {
    if k == 0 then []
    else DataAsks(tr, out, n, k - 1) + Copies(out + (if tr then k else k - 1) * n, n)
  }

  /** The same for all a call reads, out bytes having been written before it. */
  function CallAsks(tr: bool, out: nat, c: Call): seq<nat> {
    if tr then Copies(out + 14, 6) + DataAsks(true, out + 14, Bufflen(c.size), Reps(c))
    else Copies(out, 8) + Copies(out + 6, 6) + DataAsks(false, out + 6, Bufflen(c.size), Reps(c))
  }

  lemma TripAsks(cache: bool, tr: bool, l: Local, n: nat)
    requires n == |l.rBuff| == |l.sBuff| && n <= |l.incoming|
    ensures var q := Trip(cache, tr, l);
            |q.rBuff| == |q.sBuff| == n && |q.incoming| == |l.incoming| - n && |q.outgoing| == |l.outgoing| + n &&
            q.readAt == l.readAt + Copies(|l.outgoing| + (if tr then n else 0), n)
  {
  }

  // k trips, at being the bytes of k buffers.
  lemma {:induction false} LoopAsks(cache: bool, tr: bool, l: Local, k: nat, n: nat, at: int)
    requires n == |l.rBuff| == |l.sBuff| && at == k * n <= |l.incoming|
    ensures var q := PingPong(cache, tr, l, k);
            at >= 0 && |q.rBuff| == |q.sBuff| == n && |q.incoming| == |l.incoming| - at &&
            |q.outgoing| == |l.outgoing| + at && q.readAt == l.readAt + DataAsks(tr, |l.outgoing|, n, k)
  {
    hide Received, Sent, Trip, Copies, DataAsks, PingPong;
    if k == 0 {
      NoTrips(cache, tr, l);
      NoData(tr, |l.outgoing|, n);
    } else {
      OneMore(k, n);
      LoopAsks(cache, tr, l, k - 1, n, at - n);
      OneTrip(cache, tr, l, k);
      TripAsks(cache, tr, PingPong(cache, tr, l, k - 1), n);
      MoreData(tr, |l.outgoing|, n, k, at);
      Regrouped(l.readAt, DataAsks(tr, |l.outgoing|, n, k - 1), Copies(|l.outgoing| + (if tr then at else at - n), n));
    }
  }

  lemma OneTrip(cache: bool, tr: bool, l: Local, k: nat)
    requires k > 0
    ensures PingPong(cache, tr, l, k) == Trip(cache, tr, PingPong(cache, tr, l, k - 1))
  {
  }

  lemma NoData(tr: bool, out: nat, n: nat)
    ensures DataAsks(tr, out, n, 0) == []
  {
  }

  lemma MoreData(tr: bool, out: nat, n: nat, k: nat, at: int)
    requires k > 0 && at == k * n
    ensures at >= n
    ensures DataAsks(tr, out, n, k)
         == DataAsks(tr, out, n, k - 1) + Copies(out + (if tr then at else at - n), n)
  {
    OneMore(k, n);
    Positive(k - 1, n);
  }

  lemma Positive(k: nat, n: nat)
    ensures k * n >= 0
  {
  }

  lemma MeasuredAsks(cache: bool, tr: bool, c: Call, w: Wires)
    requires SYNC <= w.incoming && Reps(c) * Bufflen(c.size) <= |w.incoming| - 6
    ensures var out := |w.outgoing| + (if tr then 14 else 6);
            var asks := Copies(out, 6) + DataAsks(tr, out, Bufflen(c.size), Reps(c));
            Measured(cache, tr, c.size, c.nrepeat, w).1.readAt == w.readAt + asks
  {
    var f := InitFill(cache, Bufflen(c.size));
    var out := w.outgoing + (if tr then Htonl(c.size) + Htonl(c.nrepeat) else []) + SYNC;
    hide InitFill, Bufflen, Htonl, PingPong, CheckReports;
    var l := Local(f.recv, f.send, w.incoming[6..], out, w.readAt + Copies(|out|, 6));
    LoopAsks(cache, tr, l, Reps(c), |f.recv|, Reps(c) * |f.recv|);
    Regrouped(w.readAt, Copies(|out|, 6), DataAsks(tr, |out|, |f.recv|, Reps(c)));
  }

  lemma TransmitterAsks(cache: bool, calls: seq<Call>, cap: nat, i: nat, w: Wires)
    requires cap >= 6 && i < |calls| && calls[i].size != 0 && ValidConfig(Program(cache, calls, cap))
    requires w.incoming == From(Program(cache, calls, cap), Backward, i, 0)
    ensures RunIters(cache, true, Some((calls[i].size, calls[i].nrepeat)), w).1.readAt
         == w.readAt + CallAsks(true, |w.outgoing|, calls[i])
  {
    hide From, Measured, Bufflen, DataAsks;
    var g := Program(cache, calls, cap);
    CallBytes(g, Backward, i);
    NextMsg(g, Backward, i, 0);
    MeasuredAsks(cache, true, calls[i], w);
  }

  lemma Regrouped(a: seq<nat>, b: seq<nat>, c: seq<nat>)
    ensures a + b + c == a + (b + c)
  {
  }

  lemma ReceiverAsks(cache: bool, calls: seq<Call>, cap: nat, i: nat, w: Wires)
    requires cap >= 6 && i < |calls| && calls[i].size != 0 && ValidConfig(Program(cache, calls, cap))
    requires w.incoming == From(Program(cache, calls, cap), Forward, i, 0)
    ensures RunIters(cache, false, None, w).1.readAt == w.readAt + CallAsks(false, |w.outgoing|, calls[i])
  {
    hide From, Measured, Bufflen, DataAsks, Htonl, Ntohl;
    var g := Program(cache, calls, cap);
    var c, out := calls[i], |w.outgoing|;
    CallBytes(g, Forward, i);
    HeaderMatches(g, i, w.incoming);
    NextMsg(g, Forward, i, 2);
    MeasuredAsks(cache, false, c, AfterHeader(w));
    var data := DataAsks(false, out + 6, Bufflen(c.size), Reps(c));
    Regrouped(w.readAt, Copies(out, 8), Copies(out + 6, 6) + data);
    Regrouped(Copies(out, 8), Copies(out + 6, 6), data);
  }

  /** Byte r of data message j: the transmitter asks for it with its own messages 0 to j written, the
      receiver with its replies to messages 0 to j - 1. */
  lemma {:induction false} DataAsksAt(tr: bool, out: nat, n: nat, k: nat, j: nat, r: nat)
    requires j < k && r < n
    ensures |DataAsks(tr, out, n, k)| == k * n && 0 <= j * n + r < k * n
    ensures DataAsks(tr, out, n, k)[j * n + r] == out + (if tr then j + 1 else j) * n
    decreases k
  {
    DataAsksLength(tr, out, n, k);
    DataAsksLength(tr, out, n, k - 1);
    OneMore(k, n);
    Positive(j, n);
    MoreData(tr, out, n, k, k * n);
    if j < k - 1 {
      DataAsksAt(tr, out, n, k - 1, j, r);
    } else {
      OneMore(j + 1, n);
    }
  }

  lemma {:induction false} DataAsksLength(tr: bool, out: nat, n: nat, k: nat)
    ensures |DataAsks(tr, out, n, k)| == k * n
    decreases k
  {
    if k > 0 {
      DataAsksLength(tr, out, n, k - 1);
      OneMore(k, n);
    }
  }

  /** The entry for a byte of a call that began behind base bytes read. */
  function Entry(readAt: seq<nat>, base: nat, k: int): nat {
    if 0 <= base + k < |readAt| then readAt[base + k] else 0
  }

  lemma EntryBehind(before: seq<nat>, asks: seq<nat>, k: nat)
    requires k < |asks|
    ensures Entry(before + asks, |before|, k) == asks[k]
  {
  }

  /** Of the transmitter's call: no byte of the peer's string is asked for before its own header and
      string are written, and none of reply j before its messages 0 to j are. */
  lemma TransmitterOrder(cache: bool, calls: seq<Call>, cap: nat, i: nat, w: Wires, j: nat, r: nat)
    requires cap >= 6 && i < |calls| && calls[i].size != 0 && ValidConfig(Program(cache, calls, cap))
    requires w.incoming == From(Program(cache, calls, cap), Backward, i, 0)
    ensures var readAt := RunIters(cache, true, Some((calls[i].size, calls[i].nrepeat)), w).1.readAt;
            var n, base, out := Bufflen(calls[i].size), |w.readAt|, |w.outgoing|;
            |readAt| == base + 6 + Reps(calls[i]) * n &&
            (r < 6 ==> Entry(readAt, base, r) == out + 14) &&
            (j < Reps(calls[i]) && r < n ==> Entry(readAt, base, 6 + (j * n + r)) == out + 14 + (j + 1) * n)
  {
    hide From, RunIters, DataAsks, Bufflen, Entry, CallAsks;
    var n, out := Bufflen(calls[i].size), |w.outgoing|;
    TransmitterAsks(cache, calls, cap, i, w);
    CallAsksAt(true, out, calls[i], j, r);
    var asks := CallAsks(true, out, calls[i]);
    if r < 6 {
      EntryBehind(w.readAt, asks, r);
    }
    if j < Reps(calls[i]) && r < n {
      EntryBehind(w.readAt, asks, 6 + (j * n + r));
    }
  }

  /** Of the receiver's call: the header is asked for at once, the peer's string after its own, and no
      byte of message j before its replies to the j earlier ones are written. */
  lemma ReceiverOrder(cache: bool, calls: seq<Call>, cap: nat, i: nat, w: Wires, j: nat, r: nat)
    requires cap >= 6 && i < |calls| && calls[i].size != 0 && ValidConfig(Program(cache, calls, cap))
    requires w.incoming == From(Program(cache, calls, cap), Forward, i, 0)
    ensures var readAt := RunIters(cache, false, None, w).1.readAt;
            var n, base, out := Bufflen(calls[i].size), |w.readAt|, |w.outgoing|;
            |readAt| == base + 14 + Reps(calls[i]) * n &&
            (r < 8 ==> Entry(readAt, base, r) == out) &&
            (8 <= r < 14 ==> Entry(readAt, base, r) == out + 6) &&
            (j < Reps(calls[i]) && r < n ==> Entry(readAt, base, 14 + (j * n + r)) == out + 6 + j * n)
  {
    hide From, RunIters, DataAsks, Bufflen, Entry, CallAsks;
    var n, out := Bufflen(calls[i].size), |w.outgoing|;
    ReceiverAsks(cache, calls, cap, i, w);
    CallAsksAt(false, out, calls[i], j, r);
    var asks := CallAsks(false, out, calls[i]);
    if r < 14 {
      EntryBehind(w.readAt, asks, r);
    }
    if j < Reps(calls[i]) && r < n {
      EntryBehind(w.readAt, asks, 14 + (j * n + r));
    }
  }

  // The entries of one call by message and byte.
  lemma CallAsksAt(tr: bool, out: nat, c: Call, j: nat, r: nat)
    ensures var lead, asks, n := if tr then 6 else 14, CallAsks(tr, out, c), Bufflen(c.size);
            |asks| == lead + Reps(c) * n && Reps(c) * n >= 0 &&
            (r < lead ==> asks[r] == out + (if tr then 14 else if r < 8 then 0 else 6)) &&
            (j < Reps(c) && r < n ==>
              0 <= lead + (j * n + r) < |asks| &&
              asks[lead + (j * n + r)] == out + (if tr then 14 else 6) + (if tr then j + 1 else j) * n)
  {
    hide DataAsks, Bufflen;
    var before, n := if tr then 14 else 6, Bufflen(c.size);
    Positive(Reps(c), n);
    DataAsksLength(tr, out + before, n, Reps(c));
    if j < Reps(c) && r < n {
      DataAsksAt(tr, out + before, n, Reps(c), j, r);
    }
  }

  // ----- the whole session

  function DataBytes(c: Call): nat {
    Positive(Reps(c), Bufflen(c.size));
    Reps(c) * Bufflen(c.size)
  }

  /** What the calls from i on ask for, out bytes having been written before them. */
  function AsksFrom(g: Config, tr: bool, i: nat, out: nat): seq<nat>
    requires ValidConfig(g) && i <= |g.calls|
    decreases |g.calls| - i
  {
    if i == |g.calls| then []
    else
      var c := g.calls[i];
      if c.size == 0 then if tr then [] else Copies(out, 8)
      else CallAsks(tr, out, c) + AsksFrom(g, tr, i + 1, out + (if tr then 14 else 6) + DataBytes(c))
  }

  lemma {:induction false} TransmitterAsksAll(cache: bool, calls: seq<Call>, cap: nat, i: nat, w: Wires)
    requires cap >= 6 && i <= |calls| && ValidConfig(Program(cache, calls, cap))
    requires w.incoming == From(Program(cache, calls, cap), Backward, i, 0)
    ensures TransmitterRun(cache, calls, i, w).1.readAt
         == w.readAt + AsksFrom(Program(cache, calls, cap), true, i, |w.outgoing|)
    decreases |calls| - i
  {
    hide From, RunIters, Expected, CallAsks, DataBytes;
    var g := Program(cache, calls, cap);
    if i < |calls| {
      ExpectedKind(g, true, i);
      TransmitterCall(cache, calls, cap, i, w);
      var (outcome, w') := RunIters(cache, true, Some((calls[i].size, calls[i].nrepeat)), w);
      if calls[i].size != 0 {
        TransmitterAsks(cache, calls, cap, i, w);
        CallWrites(g, Forward, i);
        TransmitterAsksAll(cache, calls, cap, i + 1, w');
        Regrouped(w.readAt, CallAsks(true, |w.outgoing|, calls[i]), AsksFrom(g, true, i + 1, |w'.outgoing|));
      } else {
        ZeroTransmitterAsks(cache, calls, cap, i, w);
      }
    }
  }

  lemma ZeroTransmitterAsks(cache: bool, calls: seq<Call>, cap: nat, i: nat, w: Wires)
    requires i < |calls| && calls[i].size == 0 && ValidConfig(Program(cache, calls, cap))
    requires w.incoming == From(Program(cache, calls, cap), Backward, i, 0)
    ensures RunIters(cache, true, Some((calls[i].size, calls[i].nrepeat)), w).1.readAt == w.readAt
  {
    hide Measured, From;
    ZeroTransmitted(cache, calls, cap, i, w);
  }

  lemma CallWrites(g: Config, dir: Direction, i: nat)
    requires ValidConfig(g) && i < |g.calls| && g.calls[i].size != 0
    ensures |From(g, dir, i, 0)|
         == (if dir.Forward? then 14 else 6) + DataBytes(g.calls[i]) + |From(g, dir, i + 1, 0)|
  {
    hide From, Bufflen;
    CallBytes(g, dir, i);
  }

  lemma {:induction false} ReceiverAsksAll(cache: bool, calls: seq<Call>, cap: nat, i: nat, w: Wires)
    requires cap >= 6 && i <= |calls| && ValidConfig(Program(cache, calls, cap))
    requires w.incoming == From(Program(cache, calls, cap), Forward, i, 0)
    ensures ReceiverRun(cache, w).1.readAt
         == w.readAt + AsksFrom(Program(cache, calls, cap), false, i, |w.outgoing|)
    decreases |calls| - i
  {
    hide From, RunIters, Expected, CallAsks, DataBytes;
    var g := Program(cache, calls, cap);
    NothingAfter(g);
    if i == |calls| {
      ReceiverAtEnd(cache, w);
    } else {
      ExpectedKind(g, false, i);
      ReceiverCall(cache, calls, cap, i, w);
      var (outcome, w') := RunIters(cache, false, None, w);
      if calls[i].size != 0 {
        ReceiverAsks(cache, calls, cap, i, w);
        CallWrites(g, Backward, i);
        ReceiverAsksAll(cache, calls, cap, i + 1, w');
        Regrouped(w.readAt, CallAsks(false, |w.outgoing|, calls[i]), AsksFrom(g, false, i + 1, |w'.outgoing|));
      } else {
        ZeroReceiverAsks(cache, calls, cap, i, w);
      }
    }
  }

  lemma ZeroReceiverAsks(cache: bool, calls: seq<Call>, cap: nat, i: nat, w: Wires)
    requires i < |calls| && calls[i].size == 0 && ValidConfig(Program(cache, calls, cap))
    requires w.incoming == From(Program(cache, calls, cap), Forward, i, 0)
    ensures RunIters(cache, false, None, w).1.readAt == w.readAt + Copies(|w.outgoing|, 8)
  {
    hide Measured, From, Htonl, Ntohl;
    HeaderMatches(Program(cache, calls, cap), i, w.incoming);
  }

  // ----- never both waiting

  /** The transmitter waits for byte a of the backward stream while the receiver waits for byte b of
      the forward stream: neither has been written by the time its owner asks for the other. */
  predicate BothWait(tx: seq<nat>, rx: seq<nat>, a: nat, b: nat)
    requires a < |tx| && b < |rx|
  {
    rx[b] <= a && tx[a] <= b
  }

  // A byte of the data is asked for with some whole number of messages written that covers it.
  lemma {:induction false} SenderAsk(out: nat, n: nat, k: nat, x: nat) returns (m: nat)
    requires x < |DataAsks(true, out, n, k)|
    ensures DataAsks(true, out, n, k)[x] == out + m * n && m * n > x
    decreases k
  {
    DataAsksLength(true, out, n, k);
    DataAsksLength(true, out, n, k - 1);
    MoreData(true, out, n, k, k * n);
    if x < |DataAsks(true, out, n, k - 1)| {
      m := SenderAsk(out, n, k - 1, x);
    } else {
      m := k;
    }
  }

  // A byte beyond m messages is asked for with at least m replies written.
  lemma {:induction false} ReplierAsk(out: nat, n: nat, k: nat, y: nat, m: nat)
    requires y < |DataAsks(false, out, n, k)| && m * n <= y
    ensures DataAsks(false, out, n, k)[y] >= out + m * n
    decreases k
  {
    DataAsksLength(false, out, n, k);
    DataAsksLength(false, out, n, k - 1);
    OneMore(k, n);
    MoreData(false, out, n, k, k * n);
    if y < |DataAsks(false, out, n, k - 1)| {
      ReplierAsk(out, n, k - 1, y, m);
    } else {
      AtMost(m, k, n);
    }
  }

  lemma Split(m: int, k: int, n: int)
    ensures m * n == k * n + (m - k) * n
  {
  }

  lemma AtMost(m: nat, k: nat, n: nat)
    requires m * n < k * n
    ensures m * n <= (k - 1) * n
  {
    if m >= k {
      Positive(m - k, n);
      Split(m, k, n);
    } else {
      Positive(k - 1 - m, n);
      Split(k - 1, m, n);
    }
  }

  lemma CallAsksLength(tr: bool, out: nat, c: Call)
    ensures |CallAsks(tr, out, c)| == (if tr then 6 else 14) + DataBytes(c)
  {
    hide DataAsks, Bufflen;
    DataAsksLength(tr, out + (if tr then 14 else 6), Bufflen(c.size), Reps(c));
  }

  // Nothing is asked for with less written than there was before.
  lemma CallAsksFloor(tr: bool, out: nat, c: Call, k: nat)
    requires k < |CallAsks(tr, out, c)|
    ensures CallAsks(tr, out, c)[k] >= out
  {
    hide DataAsks, Bufflen;
    var before, lead := if tr then 14 else 6, if tr then 6 else 14;
    var data := DataAsks(tr, out + before, Bufflen(c.size), Reps(c));
    if k >= lead {
      DataAsksFloor(tr, out + before, Bufflen(c.size), Reps(c), k - lead);
      assert CallAsks(tr, out, c)[k] == data[k - lead];
    }
  }

  lemma {:induction false} DataAsksFloor(tr: bool, out: nat, n: nat, k: nat, x: nat)
    requires x < |DataAsks(tr, out, n, k)|
    ensures DataAsks(tr, out, n, k)[x] >= out
    decreases k
  {
    MoreData(tr, out, n, k, k * n);
    if x < |DataAsks(tr, out, n, k - 1)| {
      DataAsksFloor(tr, out, n, k - 1, x);
    }
  }

  lemma {:induction false} AsksFloor(g: Config, tr: bool, i: nat, out: nat, k: nat)
    requires ValidConfig(g) && i <= |g.calls| && k < |AsksFrom(g, tr, i, out)|
    ensures AsksFrom(g, tr, i, out)[k] >= out
    decreases |g.calls| - i
  {
    hide CallAsks, DataBytes;
    if i < |g.calls| && g.calls[i].size != 0 {
      var c := g.calls[i];
      var asks := CallAsks(tr, out, c);
      if k < |asks| {
        CallAsksFloor(tr, out, c, k);
      } else {
        AsksFloor(g, tr, i + 1, out + (if tr then 14 else 6) + DataBytes(c), k - |asks|);
      }
    }
  }

  // Within one call, from outTx and outRx bytes on.
  lemma CallNeverBoth(c: Call, outTx: nat, outRx: nat, a: nat, b: nat)
    requires a < |CallAsks(true, outTx, c)| && b < |CallAsks(false, outRx, c)|
    ensures !(CallAsks(false, outRx, c)[b] <= outRx + a && CallAsks(true, outTx, c)[a] <= outTx + b)
  {
    hide DataAsks, Bufflen, Reps;
    var n, reps := Bufflen(c.size), Reps(c);
    var tx, rx := DataAsks(true, outTx + 14, n, reps), DataAsks(false, outRx + 6, n, reps);
    if a < 6 {
      if b >= 14 {
        DataAsksFloor(false, outRx + 6, n, reps, b - 14);
        assert CallAsks(false, outRx, c)[b] == rx[b - 14];
      }
    } else {
      var m := SenderAsk(outTx + 14, n, reps, a - 6);
      assert CallAsks(true, outTx, c)[a] == tx[a - 6];
      if b >= 14 + m * n {
        ReplierAsk(outRx + 6, n, reps, b - 14, m);
        assert CallAsks(false, outRx, c)[b] == rx[b - 14];
      }
    }
  }

  lemma {:induction false} NeverBothFrom(g: Config, i: nat, outTx: nat, outRx: nat, a: nat, b: nat)
    requires ValidConfig(g) && i <= |g.calls|
    requires a < |AsksFrom(g, true, i, outTx)| && b < |AsksFrom(g, false, i, outRx)|
    ensures !(AsksFrom(g, false, i, outRx)[b] <= outRx + a && AsksFrom(g, true, i, outTx)[a] <= outTx + b)
    decreases |g.calls| - i
  {
    hide CallAsks, DataBytes;
    var c := g.calls[i];
    var nextTx, nextRx := outTx + 14 + DataBytes(c), outRx + 6 + DataBytes(c);
    CallAsksLength(true, outTx, c);
    CallAsksLength(false, outRx, c);
    var x, y := |CallAsks(true, outTx, c)|, |CallAsks(false, outRx, c)|;
    if a < x && b < y {
      CallNeverBoth(c, outTx, outRx, a, b);
    } else if a < x {
      AsksFloor(g, false, i + 1, nextRx, b - y);
    } else if b < y {
      AsksFloor(g, true, i + 1, nextTx, a - x);
    } else {
      NeverBothFrom(g, i + 1, nextTx, nextRx, a - x, b - y);
    }
  }

  /** The two sequential programs, each reading what the other writes, are never both waiting for a
      byte the other has not written yet. */
  lemma NeverBothWait(cache: bool, calls: seq<Call>, cap: nat, a: nat, b: nat)
    requires cap >= 6
    ensures ValidConfig(Program(cache, calls, cap))
    ensures var g := Program(cache, calls, cap);
            var (_, tx) := TransmitterRun(cache, calls, 0, Wires(From(g, Backward, 0, 0), [], []));
            var (_, rx) := ReceiverRun(cache, Wires(From(g, Forward, 0, 0), [], []));
            a < |tx.readAt| && b < |rx.readAt| ==> !BothWait(tx.readAt, rx.readAt, a, b)
  {
    hide From, AsksFrom, TransmitterRun, ReceiverRun;
    ProgramValid(cache, calls, cap);
    var g := Program(cache, calls, cap);
    var forward, backward := From(g, Forward, 0, 0), From(g, Backward, 0, 0);
    TransmitterAsksAll(cache, calls, cap, 0, Wires(backward, [], []));
    ReceiverAsksAll(cache, calls, cap, 0, Wires(forward, [], []));
    if a < |AsksFrom(g, true, 0, 0)| && b < |AsksFrom(g, false, 0, 0)| {
      NeverBothFrom(g, 0, 0, 0, a, b);
    }
  }
}
