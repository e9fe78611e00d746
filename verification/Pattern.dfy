/** The test pattern written into buffers and its checker (src/netpipe.c). */
module Pattern {
  import opened Bytes
  import opened Lfsr

  // #define LFSR lfsr23
  const LFSR: Variant := Lfsr23

  const SEED_A: bv32 := 0x61
  const SEED_B: bv32 := 0x62

  /** Byte i of the pattern grown from seed c: words of four bytes, each a fresh register state. */
  function StreamByte(c: bv32, i: nat): byte {
    Byte(Iter(LFSR, i / 4 + 1, c), i % 4)
  }

  function Stream(c: bv32, n: nat): (s: seq<byte>)
    ensures |s| == n
  {
    seq(n, i requires 0 <= i < n => StreamByte(c, i))
  }

  predicate WordDiffers(found: seq<byte>, expected: seq<byte>, w: nat)
    requires |found| == |expected| && 4 * w + 4 <= |found|
  {
    found[4 * w..4 * w + 4] != expected[4 * w..4 * w + 4]
  }

  /** The byte offsets of those among the first w whole words that differ. */
  function WordReports(found: seq<byte>, expected: seq<byte>, w: nat): seq<nat>
    requires |found| == |expected| && 4 * w <= |found|
  {
    if w == 0 then []
    else WordReports(found, expected, w - 1) + if WordDiffers(found, expected, w - 1) then [4 * (w - 1)] else []
  }

  /** The offsets from low up to high whose single bytes differ. */
  function ByteReports(found: seq<byte>, expected: seq<byte>, low: nat, high: nat): seq<nat>
    requires |found| == |expected| && low <= high <= |found|
  {
    if low == high then []
    else ByteReports(found, expected, low, high - 1) + if found[high - 1] != expected[high - 1] then [high - 1] else []
  }

  /** Where a checker reports that compares whole words first and then the bytes of the tail. */
  function Reports(found: seq<byte>, expected: seq<byte>): seq<nat>
    requires |found| == |expected|
  {
    var n := |found|;
    WordReports(found, expected, n / 4) + ByteReports(found, expected, n - n % 4, n)
  }

  predicate Ascending(s: seq<nat>) {
    forall a, b | 0 <= a < b < |s| :: s[a] < s[b]
  }

  lemma {:induction false} WordReportsExact(found: seq<byte>, expected: seq<byte>, w: nat, k: nat)
    requires |found| == |expected| && 4 * w <= |found|
    ensures k in WordReports(found, expected, w)
        <==> k < 4 * w && k % 4 == 0 && found[k..k + 4] != expected[k..k + 4]
  {
    if w > 0 {
      WordReportsExact(found, expected, w - 1, k);
      if 4 * (w - 1) <= k < 4 * w {
        assert k % 4 == 0 <==> k == 4 * (w - 1);
      }
    }
  }

  lemma {:induction false} ByteReportsExact(found: seq<byte>, expected: seq<byte>, low: nat, high: nat, k: nat)
    requires |found| == |expected| && low <= high <= |found|
    ensures k in ByteReports(found, expected, low, high) <==> low <= k < high && found[k] != expected[k]
  {
    if low < high {
      ByteReportsExact(found, expected, low, high - 1, k);
    }
  }

  lemma {:induction false} WordReportsAscending(found: seq<byte>, expected: seq<byte>, w: nat)
    requires |found| == |expected| && 4 * w <= |found|
    ensures Ascending(WordReports(found, expected, w))
  {
    if w > 0 {
      WordReportsAscending(found, expected, w - 1);
      var s := WordReports(found, expected, w - 1);
      forall a | 0 <= a < |s| ensures s[a] < 4 * (w - 1) {
        WordReportsExact(found, expected, w - 1, s[a]);
      }
    }
  }

  lemma {:induction false} ByteReportsAscending(found: seq<byte>, expected: seq<byte>, low: nat, high: nat)
    requires |found| == |expected| && low <= high <= |found|
    ensures Ascending(ByteReports(found, expected, low, high))
  {
    if low < high {
      ByteReportsAscending(found, expected, low, high - 1);
      var s := ByteReports(found, expected, low, high - 1);
      forall a | 0 <= a < |s| ensures s[a] < high - 1 {
        ByteReportsExact(found, expected, low, high - 1, s[a]);
      }
    }
  }

  lemma AscendingAppend(s: seq<nat>, t: seq<nat>)
    requires Ascending(s) && Ascending(t) && forall a, b | 0 <= a < |s| && 0 <= b < |t| :: s[a] < t[b]
    ensures Ascending(s + t)
  {
  }

  lemma ReportsAscending(found: seq<byte>, expected: seq<byte>)
    requires |found| == |expected|
    ensures Ascending(Reports(found, expected))
  {
    hide WordReports, ByteReports, Ascending;
    var n := |found|;
    WordReportsAscending(found, expected, n / 4);
    ByteReportsAscending(found, expected, n - n % 4, n);
    var s, t := WordReports(found, expected, n / 4), ByteReports(found, expected, n - n % 4, n);
    forall a, b | 0 <= a < |s| && 0 <= b < |t| ensures s[a] < t[b] {
      WordReportsExact(found, expected, n / 4, s[a]);
      ByteReportsExact(found, expected, n - n % 4, n, t[b]);
    }
    AscendingAppend(s, t);
  }

  /** Each differing whole word and each differing tail byte is reported once, in address order,
      and nothing else is. */
  lemma ReportsExact(found: seq<byte>, expected: seq<byte>, k: nat)
    requires |found| == |expected|
    ensures var tail := |found| - |found| % 4;
            k in Reports(found, expected) <==>
            ((k < tail && k % 4 == 0 && found[k..k + 4] != expected[k..k + 4])
             || (tail <= k < |found| && found[k] != expected[k]))
    ensures Ascending(Reports(found, expected))
  {
    hide WordReports, ByteReports, Ascending;
    var n := |found|;
    WordReportsExact(found, expected, n / 4, k);
    ByteReportsExact(found, expected, n - n % 4, n, k);
    ReportsAscending(found, expected);
  }

  /** A changed byte anywhere is reported, at its word or, in the tail, at itself. */
  lemma ChangeReported(found: seq<byte>, expected: seq<byte>, i: nat)
    requires |found| == |expected| && i < |found| && found[i] != expected[i]
    ensures (if i < |found| - |found| % 4 then i - i % 4 else i) in Reports(found, expected)
  {
    var w := i - i % 4;
    if i < |found| - |found| % 4 {
      assert found[w..w + 4][i % 4] == found[i] && expected[w..w + 4][i % 4] == expected[i];
      ReportsExact(found, expected, w);
    } else {
      ReportsExact(found, expected, i);
    }
  }

  lemma SilentIffEqual(found: seq<byte>, expected: seq<byte>)
    requires |found| == |expected|
    ensures Reports(found, expected) == [] <==> found == expected
  {
    if found == expected {
      if Reports(found, expected) != [] {
        ReportsExact(found, expected, Reports(found, expected)[0]);
      }
    } else {
      var i :| 0 <= i < |found| && found[i] != expected[i];
      ChangeReported(found, expected, i);
    }
  }

  // ----- the four bytes of a whole word of the pattern

  lemma IterStep(k: nat, c: bv32)
    ensures Iter(LFSR, k + 1, c) == Step(LFSR, Iter(LFSR, k, c)) && Iter(LFSR, 0, c) == c
  {
  }

  lemma StreamByteAt(c: bv32, w: nat, j: nat)
    requires j < 4
    ensures StreamByte(c, 4 * w + j) == Byte(Iter(LFSR, w + 1, c), j)
  {
    hide Byte, Iter;
    FourParts(w, j);
  }

  lemma FourParts(w: nat, j: nat)
    requires j < 4
    ensures (4 * w + j) / 4 == w && (4 * w + j) % 4 == j
  {
  }

  lemma FourBytes(s: seq<byte>, i: nat)
    requires i + 4 <= |s|
    ensures s[i..i + 4] == [s[i], s[i + 1], s[i + 2], s[i + 3]]
  {
  }

  lemma StreamWord(c: bv32, n: nat, w: nat)
    requires 4 * w + 4 <= n
    ensures var x := Iter(LFSR, w + 1, c);
            Stream(c, n)[4 * w..4 * w + 4] == [Byte(x, 0), Byte(x, 1), Byte(x, 2), Byte(x, 3)]
  {
    hide Byte, Iter, StreamByte;
    StreamByteAt(c, w, 0);
    StreamByteAt(c, w, 1);
    StreamByteAt(c, w, 2);
    StreamByteAt(c, w, 3);
    FourBytes(Stream(c, n), 4 * w);
  }

  // Comparing a word as a number is comparing its four bytes.
  lemma WordTest(found: seq<byte>, c: bv32, w: nat)
    requires 4 * w + 4 <= |found|
    ensures WordDiffers(found, Stream(c, |found|), w)
       <==> Word(found[4 * w], found[4 * w + 1], found[4 * w + 2], found[4 * w + 3]) != Iter(LFSR, w + 1, c)
  {
    hide Byte, Word, Iter, Stream;
    var x := Iter(LFSR, w + 1, c);
    StreamWord(c, |found|, w);
    WordOfBytes(x);
    FourBytes(found, 4 * w);
    BytesOfWord(found[4 * w], found[4 * w + 1], found[4 * w + 2], found[4 * w + 3]);
  }

  /** Patterns grown from two different 23-bit seeds differ in every whole word, so data left
      over from one of them is reported at every word by a check against the other. */
  lemma StaleWordReported(found: seq<byte>, c: bv32, d: bv32, w: nat)
    requires c < LIMIT && d < LIMIT && c != d
    requires 4 * w + 4 <= |found|
    requires found[4 * w..4 * w + 4] == Stream(c, |found|)[4 * w..4 * w + 4]
    ensures 4 * w in Reports(found, Stream(d, |found|))
  {
    hide Reports, Iter, Word, StreamByte;
    WordTest(found, c, w);
    WordTest(found, d, w);
    IterInjective(LFSR, w + 1, c, d);
    ReportsExact(found, Stream(d, |found|), 4 * w);
  }

  /** The seeds 'a' and 'b' already disagree in the first byte. */
  lemma FirstByteDiffers(n: nat)
    requires n > 0
    ensures Stream(SEED_A, n)[0] != Stream(SEED_B, n)[0]
    ensures Reports(Stream(SEED_A, n), Stream(SEED_B, n)) != []
  {
    assert Iter(LFSR, 1, SEED_A) == 0x40_0020;
    assert Iter(LFSR, 1, SEED_B) == 0x31;
    SilentIffEqual(Stream(SEED_A, n), Stream(SEED_B, n));
  }

  // How the pattern of the sent buffers begins.
  lemma FirstWords()
    ensures Stream(0x62, 8) == [0x31, 0, 0, 0, 0x08, 0, 0x40, 0]
  {
    assert Iter(LFSR, 1, 0x62) == 0x31 && Iter(LFSR, 2, 0x62) == 0x40_0008;
    hide Iter;
    StreamWord(0x62, 8, 0);
    StreamWord(0x62, 8, 1);
    hide StreamByte;
    var s := Stream(0x62, 8);
    assert s == s[0..4] + s[4..8];
  }

  /** The register has 23 bits, so the last byte of every whole word of the pattern is zero. */
  lemma WordEndsInZero(c: bv32, i: nat)
    requires c < LIMIT && i % 4 == 3
    ensures StreamByte(c, i) == 0
  {
    IterFits(LFSR, i / 4 + 1, c);
    TopByte(Iter(LFSR, i / 4 + 1, c));
  }

  lemma TopByte(x: bv32)
    requires x < LIMIT
    ensures Byte(x, 3) == 0
  {
  }

  lemma NoStream(c: bv32)
    ensures Stream(c, 0) == []
  {
  }

  // The pattern grows by a word, and behind the last whole word by a byte.
  lemma StreamGrows(c: bv32, w: nat)
    ensures var x := Iter(LFSR, w + 1, c);
            Stream(c, 4 * w + 4) == Stream(c, 4 * w) + [Byte(x, 0), Byte(x, 1), Byte(x, 2), Byte(x, 3)]
  {
    hide Byte, Iter;
    StreamWord(c, 4 * w + 4, w);
    hide StreamByte;
    var s := Stream(c, 4 * w + 4);
    assert s == s[..4 * w] + s[4 * w..4 * w + 4] && s[..4 * w] == Stream(c, 4 * w);
  }

  lemma TailGrows(c: bv32, w: nat, j: nat)
    requires j < 4
    ensures Stream(c, 4 * w + j + 1) == Stream(c, 4 * w + j) + [Byte(Iter(LFSR, w + 1, c), j)]
  {
    hide Byte, Iter, StreamByte;
    StreamByteAt(c, w, j);
  }

  /** The register in src/netpipe.c: lfsr_data, and the two loops that draw from it. */
  class Register {
    var data: bv32

    constructor ()
      ensures data == 0
    {
      data := 0;
    }

    method Next() returns (r: bv32)
      modifies this
      ensures r == data == Step(LFSR, old(data))
    {
      data := (data >> 1) ^ ((0 - (data & 1)) & 0x40_0010);
      r := data;
    }

    /** ((uint32_t *)s)[w] = word */
    method Store(s: array<byte>, w: nat, word: bv32)
      requires 4 * w + 4 <= s.Length
      modifies s
      ensures s[..4 * w + 4] == old(s[..4 * w]) + [Byte(word, 0), Byte(word, 1), Byte(word, 2), Byte(word, 3)]
      ensures forall k | 4 * w + 4 <= k < s.Length :: s[k] == old(s[k])
    {
      hide Byte;
      s[4 * w], s[4 * w + 1] := Byte(word, 0), Byte(word, 1);
      s[4 * w + 2], s[4 * w + 3] := Byte(word, 2), Byte(word, 3);
    }

    // The whole words.
    method SetWords(s: array<byte>, c: bv32, words: nat)
      requires 4 * words <= s.Length && data == c
      modifies this, s
      ensures s[..4 * words] == Stream(c, 4 * words)
      ensures forall k | 4 * words <= k < s.Length :: s[k] == old(s[k])
      ensures data == Iter(LFSR, words, c)
    {
      hide Byte, Iter, Step, StreamByte, Stream;
      IterStep(0, c);
      NoStream(c);
      var w := 0;
      while w < words
        invariant 0 <= w <= words
        invariant data == Iter(LFSR, w, c)
        invariant s[..4 * w] == Stream(c, 4 * w)
        invariant forall k | 4 * words <= k < s.Length :: s[k] == old(s[k])
      {
        var word := Next();
        IterStep(w, c);
        Store(s, w, word);
        StreamGrows(c, w);
        w := w + 1;
      }
    }

    /** lfsrset: fills the first n bytes with the pattern and touches nothing else. */
    method Set(s: array<byte>, c: bv32, n: nat)
      requires n <= s.Length
      modifies this, s
      ensures s[..n] == Stream(c, n)
      ensures s[n..] == old(s[n..])
      ensures data == Iter(LFSR, n / 4 + 1, c)
    {
      hide Byte, Iter, Step, StreamByte, Stream;
      var words, rem := n / 4, n % 4;
      data := c;
      SetWords(s, c, words);
      var last := Next();
      IterStep(words, c);
      var i := 0;
      while i < rem
        invariant 0 <= i <= rem
        invariant data == last == Iter(LFSR, words + 1, c)
        invariant s[..4 * words + i] == Stream(c, 4 * words + i)
        invariant forall k | n <= k < s.Length :: s[k] == old(s[k])
      {
        TailGrows(c, words, i);
        s[4 * words + i] := Byte(last, i);
        assert s[..4 * words + i + 1] == s[..4 * words + i] + [Byte(last, i)];
        i := i + 1;
      }
    }

    // The whole words.
    method CheckWords(s: array<byte>, c: bv32, words: nat, ghost n: nat) returns (reports: seq<nat>)
      requires 4 * words <= n <= s.Length && data == c
      modifies this
      ensures reports == WordReports(s[..n], Stream(c, n), words)
      ensures data == Iter(LFSR, words, c)
    {
      hide Byte, Iter, Step, StreamByte, Word, WordDiffers;
      ghost var found, expected := s[..n], Stream(c, n);
      IterStep(0, c);
      reports := [];
      var w := 0;
      while w < words
        invariant 0 <= w <= words
        invariant data == Iter(LFSR, w, c)
        invariant reports == WordReports(found, expected, w)
      {
        var word := Next();
        IterStep(w, c);
        WordTest(found, c, w);
        if Word(s[4 * w], s[4 * w + 1], s[4 * w + 2], s[4 * w + 3]) != word {
          reports := reports + [4 * w];
        }
        w := w + 1;
      }
    }

    /** lfsrcheck: the offsets it reports, in the order it prints them. */
    method Check(s: array<byte>, c: bv32, n: nat) returns (reports: seq<nat>)
      requires n <= s.Length
      modifies this
      ensures reports == Reports(s[..n], Stream(c, n))
      ensures data == Iter(LFSR, n / 4 + 1, c)
    {
      hide Byte, Iter, Step, StreamByte, WordReports;
      var words, rem := n / 4, n % 4;
      ghost var found, expected := s[..n], Stream(c, n);
      data := c;
      reports := CheckWords(s, c, words, n);
      var last := Next();
      IterStep(words, c);
      var i := 0;
      while i < rem
        invariant 0 <= i <= rem
        invariant data == last == Iter(LFSR, words + 1, c)
        invariant reports == WordReports(found, expected, words)
                          + ByteReports(found, expected, 4 * words, 4 * words + i)
      {
        StreamByteAt(c, words, i);
        if s[4 * words + i] != Byte(last, i) {
          reports := reports + [4 * words + i];
        }
        i := i + 1;
      }
    }
  }
}
