/** One process of the TCP module: the calls of src/tcp.c and netpipe_run_iters of src/netpipe.c,
    on real buffers and a socket that fragments as it likes. */
module Tcp {
  import opened Options
  import opened Bytes
  import opened Pattern
  import opened Session
  import opened EndToEnd

  function Min(a: nat, b: nat): nat { if a < b then a else b }

  function Copies(v: nat, n: nat): (s: seq<nat>)
    ensures |s| == n
  {
    seq(n, _ => v)
  }

  lemma NoCopies(base: seq<nat>, v: nat)
    ensures base + Copies(v, 0) == base
  {
  }

  lemma CopiesAdd(base: seq<nat>, v: nat, m: nat, n: nat)
    ensures base + Copies(v, m) + Copies(v, n) == base + Copies(v, m + n)
  {
    assert Copies(v, m) + Copies(v, n) == Copies(v, m + n);
  }

  /** incoming: what the peer has written or is still going to write before it closes and this side
      has not read. outgoing: what this side has written. readAt: for each byte read so far, how many
      bytes this side had written when it asked for that one. */
  class Socket {
    var incoming: seq<byte>
    var outgoing: seq<byte>
    ghost var readAt: seq<nat>

    constructor (incoming: seq<byte>)
      ensures this.incoming == incoming && outgoing == [] && readAt == []
    {
      this.incoming := incoming;
      outgoing := [];
      readAt := [];
    }

    /** read(2): blocks for at least one byte, returns none only at end of file. */
    method Read(limit: nat) returns (chunk: seq<byte>)
      modifies this`incoming, this`readAt
      ensures |chunk| <= limit && old(incoming) == chunk + incoming
      ensures readAt == old(readAt) + Copies(|outgoing|, |chunk|)
      ensures chunk == [] <==> limit == 0 || old(incoming) == []
    {
      var k: nat := 0;
      if limit > 0 && incoming != [] {
        k :| 1 <= k <= limit && k <= |incoming|;
      }
      chunk := incoming[..k];
      incoming := incoming[k..];
      readAt := readAt + Copies(|outgoing|, k);
    }

    /** write(2): takes at least one byte of a nonempty buffer. */
    method Write(data: seq<byte>) returns (k: nat)
      modifies this`outgoing
      ensures k <= |data| && (data != [] ==> k > 0)
      ensures outgoing == old(outgoing) + data[..k]
    {
      k := 0;
      if data != [] {
        k :| 1 <= k <= |data|;
      }
      outgoing := outgoing + data[..k];
    }

    /** The 4- and 6-byte control messages are single writes, taken to be whole. */
    method WriteControl(data: seq<byte>)
      requires |data| <= 6
      modifies this`outgoing
      ensures outgoing == old(outgoing) + data
    {
      outgoing := outgoing + data;
    }

    /** readFully: the bytes it left in the caller's buffer. */
    method ReadFully(len: nat) returns (got: seq<byte>)
      modifies this`incoming, this`readAt
      ensures old(incoming) == got + incoming
      ensures |got| == Min(len, |old(incoming)|)
      ensures readAt == old(readAt) + Copies(|outgoing|, |got|)
    {
      got := [];
      while |got| < len
        invariant |got| <= len && old(incoming) == got + incoming
        invariant readAt == old(readAt) + Copies(|outgoing|, |got|)
        decreases len - |got|
      {
        var chunk := Read(len - |got|);
        if chunk == [] {
          break;
        }
        CopiesAdd(old(readAt), |outgoing|, |got|, |chunk|);
        got := got + chunk;
      }
    }

    /** RecvRepeat: None is the exit after a partial read. */
    method RecvRepeat() returns (r: Option<bv32>)
      modifies this`incoming, this`readAt
      ensures r == if |old(incoming)| < 4 then None else Some(Ntohl(old(incoming)[..4]))
      ensures incoming == old(incoming)[Min(4, |old(incoming)|)..]
      ensures readAt == old(readAt) + Copies(|outgoing|, Min(4, |old(incoming)|))
    {
      var got := ReadFully(4);
      r := if |got| == 4 then Some(Ntohl(got)) else None;
    }

    method SendRepeat(value: bv32)
      modifies this`outgoing
      ensures outgoing == old(outgoing) + Htonl(value)
    {
      WriteControl(Htonl(value));
    }

    /** Sync succeeds exactly when the next six bytes from the peer are the string it sent itself;
        a response cut short by end of file is padded with blanks and does not match. */
    method Sync() returns (ok: bool)
      modifies this
      ensures outgoing == old(outgoing) + SYNC
      ensures ok <==> SYNC <= old(incoming)
      ensures incoming == old(incoming)[Min(6, |old(incoming)|)..]
      ensures readAt == old(readAt) + Copies(|outgoing|, Min(6, |old(incoming)|))
    {
      WriteControl(SYNC);
      var got := ReadFully(6);
      var response := got + seq(6 - |got|, _ => 0x20 as byte);
      assert |got| < 6 ==> response[5] == 0x20;
      ok := response == SYNC;
    }
  }

  /** What one process holds between two transfers. */
  datatype Local = Local(rBuff: seq<byte>, sBuff: seq<byte>, incoming: seq<byte>, outgoing: seq<byte>,
                         readAt: seq<nat>)

  function Sent(l: Local): Local {
    l.(outgoing := l.outgoing + l.sBuff)
  }

  /** A read stopped short by end of file leaves the rest of the buffer as it was. */
  function Received(cache: bool, l: Local): Local {
    var m := Min(|l.rBuff|, |l.incoming|);
    var b := l.incoming[..m] + l.rBuff[m..];
    l.(rBuff := b, sBuff := if cache then b else l.sBuff, incoming := l.incoming[m..],
       readAt := l.readAt + Copies(|l.outgoing|, m))
  }

  lemma ReceivedBytes(cache: bool, l: Local, i: nat)
    requires i < |l.rBuff|
    ensures var q := Received(cache, l);
            |q.rBuff| == |l.rBuff| && q.rBuff[i] == if i < |l.incoming| then l.incoming[i] else l.rBuff[i]
  {
  }

  lemma ChunkKept(incoming: seq<byte>, before: seq<byte>, chunk: seq<byte>, rest: seq<byte>)
    requires incoming == before + (chunk + rest)
    ensures incoming == (before + chunk) + rest
  {
  }

  // A loop that has filled q bytes and stops, full or at the end of the stream, has received.
  lemma StoppedAt(cache: bool, l: Local, b: seq<byte>, q: nat, rest: seq<byte>)
    requires q <= |b| == |l.rBuff| && (q == |b| || rest == [])
    requires l.incoming == b[..q] + rest && b[q..] == l.rBuff[q..]
    ensures Received(cache, l) == l.(rBuff := b, sBuff := if cache then b else l.sBuff, incoming := rest,
                                     readAt := l.readAt + Copies(|l.outgoing|, q))
  {
    assert b == b[..q] + b[q..];
  }

  function PingPong(cache: bool, tr: bool, l: Local, k: nat): Local {
    if k == 0 then l
    else
      var before := PingPong(cache, tr, l, k - 1);
      if tr then Received(cache, Sent(before)) else Sent(Received(cache, before))
  }

  datatype Outcome =
    | Done(size: bv32, nrepeat: bv32, reports: seq<nat>)
    | ExitSignal    // run_iters returned None
    | BadArguments  // no arguments on the transmitter
    | Died          // exit() after a short header or a wrong synchronization string

  datatype Wires = Wires(incoming: seq<byte>, outgoing: seq<byte>, readAt: seq<nat>)

  // From the header on, with the size and count known.
  function Measured(cache: bool, tr: bool, size: bv32, nrepeat: bv32, w: Wires): (Outcome, Wires) {
    var n := Bufflen(size);
    var out := w.outgoing + (if tr then Htonl(size) + Htonl(nrepeat) else []) + SYNC;
    var rest := w.incoming[Min(6, |w.incoming|)..];
    var readAt := w.readAt + Copies(|out|, Min(6, |w.incoming|));
    if !(SYNC <= w.incoming) then (Died, Wires(rest, out, readAt))
    else
      var f := InitFill(cache, n);
      var l := PingPong(cache, tr, Local(f.recv, f.send, rest, out, readAt), nrepeat as nat);
      (Done(size, nrepeat, CheckReports(l.rBuff)), Wires(l.incoming, l.outgoing, l.readAt))
  }

  // The receiver past the header.
  function AfterHeader(w: Wires): Wires
    requires |w.incoming| >= 8
  {
    w.(incoming := w.incoming[8..], readAt := w.readAt + Copies(|w.outgoing|, 8))
  }

  /** One call of run_iters as a function of the bytes on the two wires. */
  function RunIters(cache: bool, tr: bool, args: Option<(bv32, bv32)>, w: Wires): (Outcome, Wires) {
    match args
    case Some(a) => Measured(cache, tr, a.0, a.1, w)
    case None =>
      if tr then (BadArguments, w)
      else if |w.incoming| < 8 then
        (Died, w.(incoming := [], readAt := w.readAt + Copies(|w.outgoing|, |w.incoming|)))
      else
        var size, nrepeat := Ntohl(w.incoming[..4]), Ntohl(w.incoming[4..8]);
        var w' := AfterHeader(w);
        if size == 0 then (ExitSignal, w') else Measured(cache, tr, size, nrepeat, w')
  }

  /** The part of ArgStruct that run_iters uses with TCP. In cache mode both buffers are one. */
  class Endpoint {
    const tr: bool
    const cache: bool
    const sock: Socket
    const register: Register
    var bufflen: nat
    var rBuff: array<byte>
    var sBuff: array<byte>

    ghost predicate Valid()
      reads this
    {
      rBuff.Length == sBuff.Length == bufflen && (cache <==> rBuff == sBuff)
    }

    ghost function Contents(): Local
      reads this, sock, rBuff, sBuff
    {
      Local(rBuff[..], sBuff[..], sock.incoming, sock.outgoing, sock.readAt)
    }

    constructor (tr: bool, cache: bool, sock: Socket)
      ensures this.tr == tr && this.cache == cache && this.sock == sock
      ensures fresh(register) && fresh(rBuff) && fresh(sBuff) && Valid()
    {
      this.tr, this.cache, this.sock := tr, cache, sock;
      register := new Register();
      bufflen := 0;
      var r, s := new byte[0], new byte[0];
      rBuff, sBuff := r, if cache then r else s;
    }

    /** SendData: the loop over partial writes. */
    method SendData()
      requires Valid()
      modifies sock`outgoing
      ensures Contents() == Sent(old(Contents()))
    {
      var q := 0;
      while q < bufflen
        invariant 0 <= q <= bufflen
        invariant sock.outgoing == old(sock.outgoing) + sBuff[..q]
      {
        var k := sock.Write(sBuff[q..bufflen]);
        assert sBuff[..q] + sBuff[q..bufflen][..k] == sBuff[..q + k];
        q := q + k;
      }
      assert sBuff[..q] == sBuff[..];
    }

    /** RecvData: the loop over partial reads into the receive buffer; eof when it gave up. */
    method RecvData() returns (eof: bool)
      requires Valid()
      modifies sock`incoming, sock`readAt, rBuff
      ensures Contents() == Received(cache, old(Contents()))
      ensures eof <==> |old(sock.incoming)| < bufflen
    {
      var q := 0;
      eof := false;
      while q < bufflen && !eof
        invariant 0 <= q <= bufflen
        invariant old(sock.incoming) == rBuff[..q] + sock.incoming
        invariant sock.readAt == old(sock.readAt) + Copies(|sock.outgoing|, q)
        invariant rBuff[q..] == old(rBuff[..])[q..]
        invariant eof ==> q < bufflen && sock.incoming == []
        decreases bufflen - q, !eof
      {
        var chunk := sock.Read(bufflen - q);
        if chunk == [] {
          eof := true;
        } else {
          ghost var before, rest := rBuff[..q], sock.incoming;
          Keep(q, chunk);
          CopiesAdd(old(sock.readAt), |sock.outgoing|, q, |chunk|);
          ChunkKept(old(sock.incoming), before, chunk, rest);
          q := q + |chunk|;
        }
      }
      StoppedAt(cache, old(Contents()), rBuff[..], q, sock.incoming);
    }

    // The chunk at offset q of the receive buffer.
    method Keep(q: nat, chunk: seq<byte>)
      requires q + |chunk| <= rBuff.Length
      modifies rBuff
      ensures rBuff[..q + |chunk|] == old(rBuff[..q]) + chunk
      ensures rBuff[q + |chunk|..] == old(rBuff[q + |chunk|..])
    {
      forall i | 0 <= i < |chunk| {
        rBuff[q + i] := chunk[i];
      }
    }

    /** MyMalloc, the aliasing of cache mode, and InitBufferData. */
    method Prepare(n: nat)
      modifies this, register
      ensures Valid() && bufflen == n && fresh(rBuff) && fresh(sBuff)
      ensures rBuff[..] == InitFill(cache, n).recv && sBuff[..] == InitFill(cache, n).send
    {
      bufflen := n;
      rBuff := new byte[n];
      register.Set(rBuff, SEED_A, n);
      if cache {
        sBuff := rBuff;
        if n > 0 {
          rBuff[n - 1] := 0;
        }
      } else {
        sBuff := new byte[n];
        register.Set(sBuff, SEED_B, n);
      }
    }

    /** run_iters. */
    method Run(args: Option<(bv32, bv32)>) returns (outcome: Outcome)
      modifies this, sock, register
      ensures (outcome, Wires(sock.incoming, sock.outgoing, sock.readAt))
           == RunIters(cache, tr, args, old(Wires(sock.incoming, sock.outgoing, sock.readAt)))
    {
      hide Measured, Ntohl;
      ghost var before := sock.incoming;
      if |before| >= 8 {
        assert before[4..][..4] == before[4..8] && before[4..][4..] == before[8..];
      }
      if |before| >= 4 {
        CopiesAdd(sock.readAt, |sock.outgoing|, 4, Min(4, |before| - 4));
      }
      var size, nrepeat;
      match args {
        case Some(a) =>
          size, nrepeat := a.0, a.1;
        case None =>
          if tr {
            return BadArguments;
          }
          var first := sock.RecvRepeat();
          if first.None? {
            return Died;
          }
          var second := sock.RecvRepeat();
          if second.None? {
            return Died;
          }
          size, nrepeat := first.value, second.value;
          if size == 0 {
            return ExitSignal;
          }
      }
      outcome := Measure(size, nrepeat);
    }

    /** The timed loop. */
    method Repeat(reps: nat)
      requires Valid()
      modifies sock, rBuff, sBuff
      ensures Contents() == PingPong(cache, tr, old(Contents()), reps)
    {
      var j := 0;
      while j < reps
        invariant 0 <= j <= reps
        invariant Contents() == PingPong(cache, tr, old(Contents()), j)
      {
        if tr {
          SendData();
          var _ := RecvData();
        } else {
          var _ := RecvData();
          SendData();
        }
        j := j + 1;
      }
    }

    // The timed loop and the check behind it.
    method Timed(size: bv32, nrepeat: bv32) returns (outcome: Outcome)
      requires Valid()
      modifies sock, rBuff, sBuff, register
      ensures var l := PingPong(cache, tr, old(Contents()), nrepeat as nat);
              outcome == Done(size, nrepeat, CheckReports(l.rBuff)) &&
              sock.incoming == l.incoming && sock.outgoing == l.outgoing && sock.readAt == l.readAt
    {
      hide PingPong, Reports, Stream;
      Repeat(nrepeat as nat);
      var reports := register.Check(rBuff, SEED_B, bufflen);
      assert rBuff[..bufflen] == rBuff[..];
      outcome := Done(size, nrepeat, reports);
    }

    method SendHeader(size: bv32, nrepeat: bv32)
      modifies sock`outgoing
      ensures sock.outgoing == old(sock.outgoing) + if tr then Htonl(size) + Htonl(nrepeat) else []
    {
      hide Htonl;
      if tr {
        sock.SendRepeat(size);
        sock.SendRepeat(nrepeat);
      }
    }

    method Measure(size: bv32, nrepeat: bv32) returns (outcome: Outcome)
      modifies this, sock, register
      ensures (outcome, Wires(sock.incoming, sock.outgoing, sock.readAt))
           == Measured(cache, tr, size, nrepeat, old(Wires(sock.incoming, sock.outgoing, sock.readAt)))
    {
      hide Htonl, InitFill, PingPong, Bufflen, CheckReports;
      SendHeader(size, nrepeat);
      Prepare(Bufflen(size));
      var ok := sock.Sync();
      if ok {
        outcome := Timed(size, nrepeat);
      } else {
        outcome := Died;
      }
    }
  }
}
