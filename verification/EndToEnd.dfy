/** The session with the buffers InitBufferData prepares and the check CheckBufferData makes. */
module EndToEnd {
  import opened Bytes
  import opened Lfsr
  import opened Pattern
  import opened Session
  import opened SessionProof
  import opened SessionTheorems

  /** InitBufferData: two different patterns, or in cache mode one buffer whose last byte is zeroed. */
  function InitFill(cache: bool, n: nat): (f: Fill)
    ensures |f.recv| == |f.send| == n
  {
    if cache then
      var b := if n == 0 then [] else Stream(SEED_A, n)[n - 1 := 0];
      Fill(b, b)
    else Fill(Stream(SEED_A, n), Stream(SEED_B, n))
  }

  /** What the buffers hold: seed 'a' to receive into and seed 'b' to send, or in cache mode seed 'a' in
      the one buffer but for a zero in its last byte. */
  lemma InitFillBytes(cache: bool, n: nat, i: nat)
    requires i < n
    ensures var f := InitFill(cache, n);
            f.recv[i] == (if cache && i == n - 1 then 0 else StreamByte(0x61, i)) &&
            f.send[i] == (if !cache then StreamByte(0x62, i) else f.recv[i])
  {
    hide StreamByte;
  }

  function Fills(cache: bool, calls: seq<Call>): (f: seq<Fill>)
    ensures |f| == |calls|
  {
    seq(|calls|, i requires 0 <= i < |calls| => InitFill(cache, Bufflen(calls[i].size)))
  }

  function Program(cache: bool, calls: seq<Call>, cap: nat): Config {
    Config(cache, calls, cap, Fills(cache, calls), Fills(cache, calls))
  }

  lemma ProgramValid(cache: bool, calls: seq<Call>, cap: nat)
    requires cap >= 6
    ensures ValidConfig(Program(cache, calls, cap))
  {
    hide Bufflen, Stream;
  }

  // What CheckBufferData prints for a finished call.
  function CheckReports(buffer: seq<byte>): seq<nat> {
    Reports(buffer, Stream(SEED_B, |buffer|))
  }

  /** Default mode, any sizes, counts and fragmentation: on both nodes the check after a call is
      silent if and only if the call repeated at least once. */
  lemma NoCacheClean(calls: seq<Call>, cap: nat, moves: seq<Move>, s: State, i: nat)
    requires cap >= 6 && Reaches(Program(false, calls, cap), moves, s)
    ensures i < |s.tx.log| ==> i < |calls| && (CheckReports(s.tx.log[i]) == [] <==> Reps(calls[i]) > 0)
    ensures i < |s.rx.log| ==> i < |calls| && (CheckReports(s.rx.log[i]) == [] <==> Reps(calls[i]) > 0)
  {
    var g := Program(false, calls, cap);
    ProgramValid(false, calls, cap);
    CheckedBuffers(g, moves, s, i);
    ReachableInv(g, moves, s);
    hide Stream, Reps, Reports, From, Msg, Count;
    if i < |calls| {
      var n := Bufflen(calls[i].size);
      BufflenZero(calls[i].size);
      SilentIffEqual(Stream(SEED_B, n), Stream(SEED_B, n));
      if n > 0 {
        FirstByteDiffers(n);
      }
    }
  }

  lemma CacheBufferReported(n: nat)
    requires n > 0
    ensures CheckReports(InitFill(true, n).recv) != []
  {
    var b := InitFill(true, n).recv;
    assert Iter(LFSR, 1, SEED_A) == 0x40_0020;
    assert Iter(LFSR, 1, SEED_B) == 0x31;
    assert b[0] == 0 || b[0] == StreamByte(SEED_A, 0);
    assert StreamByte(SEED_B, 0) == 0x31 && StreamByte(SEED_A, 0) == 0x20;
    assert b[0] != Stream(SEED_B, n)[0];
    SilentIffEqual(b, Stream(SEED_B, n));
  }

  /** Cache mode: InitBufferData only ever writes the seed 'a' pattern while CheckBufferData expects
      seed 'b', so the check reports mismatches after every call, on both nodes. */
  lemma CacheAlwaysReported(calls: seq<Call>, cap: nat, moves: seq<Move>, s: State, i: nat)
    requires cap >= 6 && Reaches(Program(true, calls, cap), moves, s)
    ensures i < |s.tx.log| ==> CheckReports(s.tx.log[i]) != []
    ensures i < |s.rx.log| ==> CheckReports(s.rx.log[i]) != []
  {
    var g := Program(true, calls, cap);
    ProgramValid(true, calls, cap);
    CheckedBuffers(g, moves, s, i);
    ReachableInv(g, moves, s);
    hide Stream, Reps, Reports, From, Msg, Count;
    if i < |s.tx.log| || i < |s.rx.log| {
      BufflenZero(calls[i].size);
      CacheBufferReported(Bufflen(calls[i].size));
    }
  }

  /** The benchmark in its default mode, as a whole: every run can be continued until both sides
      have finished all calls, and then no check on either node has reported anything. */
  lemma EverySessionClean(calls: seq<Call>, cap: nat, moves: seq<Move>, s: State) returns (all: seq<Move>, end: State)
    requires cap >= 6 && Reaches(Program(false, calls, cap), moves, s)
    requires forall i | 0 <= i < |calls| :: calls[i].size != 0 && Reps(calls[i]) > 0
    ensures moves <= all && Reaches(Program(false, calls, cap), all, end)
    ensures Completed(Program(false, calls, cap), end)
    ensures forall i | 0 <= i < |calls| :: CheckReports(end.tx.log[i]) == [] && CheckReports(end.rx.log[i]) == []
  {
    var g := Program(false, calls, cap);
    ProgramValid(false, calls, cap);
    all, end := RunsEnd(g, moves, s);
    StuckIsFinal(g, all, end);
    forall i | 0 <= i < |calls|
      ensures CheckReports(end.tx.log[i]) == [] && CheckReports(end.rx.log[i]) == []
    {
      NoCacheClean(calls, cap, all, end, i);
    }
  }
}
