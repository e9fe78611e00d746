/** The last-byte protocol with the bytes each module's buffers are given: those src/gpshmem.c stores
    itself, those documented for src/shmem.c, and those InitBufferData now leaves there. */
module LastByteStarts {
  import opened Roles
  import opened LastByte
  import opened LastByteTheorems
  import EndToEnd
  import Lfsr
  import Pattern

  // MyMalloc stores 'b' + tr.
  lemma GpshmemCorrect(n: nat, reps: nat, s0: State)
    requires var g := Config(GPSHMEM, n, reps);
             Initial(g, s0) && s0.tx.buff1[n - 1] == 0x63 && s0.rx.buff1[n - 1] == 0x62
    ensures Correct(Config(GPSHMEM, n, reps), s0)
  {
    hide Sound;
    ProtocolsSound();
    ArmedCorrect(Config(GPSHMEM, n, reps), s0);
  }

  // 'a' + tr, as the disabled line of InitBufferData has it.
  lemma ShmemCacheDocumented(n: nat, reps: nat, s0: State)
    requires var g := Config(SHMEM_CACHE, n, reps);
             Initial(g, s0) && s0.tx.buff1[n - 1] == 0x62 && s0.rx.buff1[n - 1] == 0x61
    ensures Correct(Config(SHMEM_CACHE, n, reps), s0)
  {
    hide Sound;
    ProtocolsSound();
    ArmedCorrect(Config(SHMEM_CACHE, n, reps), s0);
  }

  // Buffers holding all 'a' to receive and all 'b' to send, as its other disabled lines have it.
  lemma ShmemNoCacheDocumented(n: nat, reps: nat, s0: State)
    requires var g := Config(SHMEM_NOCACHE, n, reps);
             Initial(g, s0) && s0.tx.buff1[n - 1] == 0x61 && s0.tx.buff2[n - 1] == 0x62 &&
             s0.rx.buff2[n - 1] == 0x61 && s0.rx.buff1[n - 1] == 0x62
    ensures Correct(Config(SHMEM_NOCACHE, n, reps), s0)
  {
    hide Sound;
    ProtocolsSound();
    ArmedCorrect(Config(SHMEM_NOCACHE, n, reps), s0);
  }

  // ----- the documented bytes come back

  // Every buffer the protocol uses ends as it did at the start.
  predicate LastBytesBack(g: Config, s0: State, s: State)
    requires Sized(g, s0) && Sized(g, s)
  {
    Last(g, s.tx, Buff1) == Last(g, s0.tx, Buff1) && Last(g, s.rx, Buff1) == Last(g, s0.rx, Buff1) &&
    (!g.p.shared ==>
      Last(g, s.tx, Buff2) == Last(g, s0.tx, Buff2) && Last(g, s.rx, Buff2) == Last(g, s0.rx, Buff2))
  }

  lemma RestedBack(g: Config, s0: State, s: State)
    requires Sized(g, s0) && Sized(g, s) && Rested(g, s0) && Rested(g, s)
    ensures LastBytesBack(g, s0, s)
  {
  }

  lemma RoundBack(g: Config, s0: State, moves: seq<Move>, s: State)
    requires Sound(g.p) && Initial(g, s0) && Rested(g, s0) && Reaches(g, s0, moves, s)
    requires |s.tx.sent| == |s.tx.received| > 0
    ensures Sized(g, s) && LastBytesBack(g, s0, s)
  {
    hide Sound, Rested, LastBytesBack;
    RestedArmed(g, s0);
    RoundRestores(g, s0, moves, s);
    RestedBack(g, s0, s);
  }

  /** From what MyMalloc stores, after each full round both last bytes are as they were. */
  lemma GpshmemReturns(n: nat, reps: nat, s0: State, moves: seq<Move>, s: State)
    requires var g := Config(GPSHMEM, n, reps);
             Initial(g, s0) && s0.tx.buff1[n - 1] == 0x63 && s0.rx.buff1[n - 1] == 0x62 &&
             Reaches(g, s0, moves, s) && |s.tx.sent| == |s.tx.received| > 0
    ensures LastBytesBack(Config(GPSHMEM, n, reps), s0, s)
  {
    hide Sound, Reaches, LastBytesBack;
    ProtocolsSound();
    RoundBack(Config(GPSHMEM, n, reps), s0, moves, s);
  }

  // The same from the documented start of the cache mode of src/shmem.c,
  lemma ShmemCacheReturns(n: nat, reps: nat, s0: State, moves: seq<Move>, s: State)
    requires var g := Config(SHMEM_CACHE, n, reps);
             Initial(g, s0) && s0.tx.buff1[n - 1] == 0x62 && s0.rx.buff1[n - 1] == 0x61 &&
             Reaches(g, s0, moves, s) && |s.tx.sent| == |s.tx.received| > 0
    ensures LastBytesBack(Config(SHMEM_CACHE, n, reps), s0, s)
  {
    hide Sound, Reaches, LastBytesBack;
    ProtocolsSound();
    RoundBack(Config(SHMEM_CACHE, n, reps), s0, moves, s);
  }

  // and of its other mode, for all four buffers.
  lemma ShmemNoCacheReturns(n: nat, reps: nat, s0: State, moves: seq<Move>, s: State)
    requires var g := Config(SHMEM_NOCACHE, n, reps);
             Initial(g, s0) && s0.tx.buff1[n - 1] == 0x61 && s0.tx.buff2[n - 1] == 0x62 &&
             s0.rx.buff2[n - 1] == 0x61 && s0.rx.buff1[n - 1] == 0x62 &&
             Reaches(g, s0, moves, s) && |s.tx.sent| == |s.tx.received| > 0
    ensures LastBytesBack(Config(SHMEM_NOCACHE, n, reps), s0, s)
  {
    hide Sound, Reaches, LastBytesBack;
    ProtocolsSound();
    RoundBack(Config(SHMEM_NOCACHE, n, reps), s0, moves, s);
  }

  // ----- the bytes stored now

  /** With what InitBufferData now leaves in cache mode, a zero last, no run of any length gets the
      first message consumed. */
  lemma ShmemCacheNow(n: nat, reps: nat, s0: State, moves: seq<Move>, s: State)
    requires var g := Config(SHMEM_CACHE, n, reps);
             Initial(g, s0) && Reaches(g, s0, moves, s) &&
             s0.tx.buff1 == s0.rx.buff1 == EndToEnd.InitFill(true, n).recv
    ensures s.rx.received == [] && s.rx.sent == []
    ensures reps > 0 ==> !Correct(Config(SHMEM_CACHE, n, reps), s0)
  {
    hide EndToEnd.InitFill;
    EndToEnd.InitFillBytes(true, n, n - 1);
    var g := Config(SHMEM_CACHE, n, reps);
    DeafForever(g, s0, Rx, moves, s);
    if reps > 0 {
      DeafStuck(g, s0, Rx);
    }
  }

  /** With what it now leaves otherwise, a size works exactly when the last byte of the sent pattern
      happens to be the awaited one and that of the other pattern does not; whole numbers of words
      never do, nor does one byte. */
  lemma ShmemNoCacheNow(n: nat, reps: nat, s0: State)
    requires var g := Config(SHMEM_NOCACHE, n, reps);
             var f := EndToEnd.InitFill(false, n);
             reps > 0 && Initial(g, s0) &&
             s0.tx.buff1 == s0.rx.buff2 == f.recv && s0.tx.buff2 == s0.rx.buff1 == f.send
    ensures Correct(Config(SHMEM_NOCACHE, n, reps), s0) <==>
            Pattern.StreamByte(0x62, n - 1) == 0x62 && Pattern.StreamByte(0x61, n - 1) != 0x62
    ensures n % 4 == 0 || n == 1 ==> !Correct(Config(SHMEM_NOCACHE, n, reps), s0)
  {
    hide Sound, Correct, Initial, Pattern.StreamByte, EndToEnd.InitFill;
    var g := Config(SHMEM_NOCACHE, n, reps);
    PatternSized(g, s0);
    ProtocolsSound();
    ArmedIsExact(g, s0);
    EndToEnd.InitFillBytes(false, n, n - 1);
    if n % 4 == 0 {
      Pattern.WordEndsInZero(0x62, n - 1);
    }
    if n == 1 {
      FirstByte();
    }
  }

  lemma PatternSized(g: Config, s: State)
    requires Initial(g, s)
    ensures Sized(g, s)
  {
  }

  lemma FirstByte()
    ensures Pattern.StreamByte(0x62, 0) == 0x31
  {
    assert Lfsr.Iter(Pattern.LFSR, 1, 0x62) == 0x31;
  }
}
