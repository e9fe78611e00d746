/** How many bytes a call of run_iters puts on the two streams. */
module Traffic {
  import opened Bytes
  import opened Session
  import opened SessionProof
  import opened TcpStreams

  lemma OneMore(j: int, n: int)
    ensures j * n == (j - 1) * n + n
  {
  }

  // s without its first k bytes is rest.
  predicate Behind(s: seq<byte>, k: int, rest: seq<byte>) {
    0 <= k <= |s| && s[k..] == rest
  }

  lemma BehindNext(s: seq<byte>, k: int, message: seq<byte>, rest: seq<byte>)
    requires Behind(s, k, message + rest)
    ensures Behind(s, k + |message|, rest)
  {
    assert s[k + |message|..] == s[k..][|message|..];
  }

  // The first j data messages of a call are j buffers, at bytes in all.
  lemma {:induction false} SkipData(g: Config, dir: Direction, i: nat, j: nat, n: nat, at: int)
    requires ValidConfig(g) && i < |g.calls| && g.calls[i].size != 0 && j <= Reps(g.calls[i])
    requires n == Bufflen(g.calls[i].size) && at == j * n
    ensures Behind(From(g, dir, i, DataIndex(dir, 0)), at, From(g, dir, i, DataIndex(dir, j)))
  {
    hide From, Msg, Data, Reps, Bufflen;
    if j > 0 {
      hide Behind, Count, DataIndex;
      OneMore(j, n);
      SkipData(g, dir, i, j - 1, n, at - n);
      DataNext(g, dir, i, j - 1);
      BehindNext(From(g, dir, i, DataIndex(dir, 0)), at - n, Data(g, dir, i), From(g, dir, i, DataIndex(dir, j)));
    }
  }

  lemma DataNext(g: Config, dir: Direction, i: nat, j: nat)
    requires ValidConfig(g) && i < |g.calls| && g.calls[i].size != 0 && j < Reps(g.calls[i])
    ensures From(g, dir, i, DataIndex(dir, j)) == Data(g, dir, i) + From(g, dir, i, DataIndex(dir, j + 1))
  {
    hide From, Msg, Data, Reps, Bufflen;
    NextMsg(g, dir, i, DataIndex(dir, j));
    DataMsg(g, dir, i, j);
  }

  // All data of a call, at bytes in all.
  lemma CallData(g: Config, dir: Direction, i: nat, at: int)
    requires ValidConfig(g) && i < |g.calls| && g.calls[i].size != 0
    requires at == Reps(g.calls[i]) * Bufflen(g.calls[i].size)
    ensures Behind(From(g, dir, i, DataIndex(dir, 0)), at, From(g, dir, i + 1, 0))
  {
    hide From, Bufflen, Reps, Behind;
    SkipData(g, dir, i, Reps(g.calls[i]), Bufflen(g.calls[i].size), at);
    CallEnd(g, dir, i, DataIndex(dir, Reps(g.calls[i])));
  }

  /** Each direction carries, in a call of positive size: the header one way, the string both ways, and
      once a repetition the size rounded up to whole bytes. */
  lemma CallBytes(g: Config, dir: Direction, i: nat)
    requires ValidConfig(g) && i < |g.calls| && g.calls[i].size != 0
    ensures var c := g.calls[i];
            var n := Bufflen(c.size);
            c.size as nat <= 8 * n < c.size as nat + 8 &&
            |From(g, dir, i, 0)| ==
              (if dir.Forward? then 14 else 6) + c.nrepeat as nat * n + |From(g, dir, i + 1, 0)|
  {
    var c := g.calls[i];
    BufflenRounds(c.size);
    Lead(g, dir, i);
    hide From, Bufflen;
    CallData(g, dir, i, Reps(c) * Bufflen(c.size));
  }

  // What comes before the data.
  lemma Lead(g: Config, dir: Direction, i: nat)
    requires ValidConfig(g) && i < |g.calls| && g.calls[i].size != 0
    ensures |From(g, dir, i, 0)| == (if dir.Forward? then 14 else 6) + |From(g, dir, i, DataIndex(dir, 0))|
  {
    hide From, Htonl;
    NextMsg(g, dir, i, 0);
    if dir.Forward? {
      NextMsg(g, dir, i, 1);
      NextMsg(g, dir, i, 2);
    }
  }
}
