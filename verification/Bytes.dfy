/** Bytes, 32-bit words and the two byte orders the program uses: memory order (little-endian)
    for words kept in a buffer, network order for counts sent over a socket. */
module Bytes {
  type byte = bv8

  function Byte(w: bv32, i: nat): byte
    requires i < 4
  {
    if i == 0 then (w & 0xFF) as byte
    else if i == 1 then ((w >> 8) & 0xFF) as byte
    else if i == 2 then ((w >> 16) & 0xFF) as byte
    else (w >> 24) as byte
  }

  function Word(a: byte, b: byte, c: byte, d: byte): bv32 {
    (a as bv32) | ((b as bv32) << 8) | ((c as bv32) << 16) | ((d as bv32) << 24)
  }

  lemma WordOfBytes(w: bv32)
    ensures Word(Byte(w, 0), Byte(w, 1), Byte(w, 2), Byte(w, 3)) == w
  {
  }

  lemma BytesOfWord(a: byte, b: byte, c: byte, d: byte)
    ensures var w := Word(a, b, c, d);
            Byte(w, 0) == a && Byte(w, 1) == b && Byte(w, 2) == c && Byte(w, 3) == d
  {
  }

  /** htonl, as the four bytes that go on the wire. */
  function Htonl(w: bv32): (s: seq<byte>)
    ensures |s| == 4
  {
    [Byte(w, 3), Byte(w, 2), Byte(w, 1), Byte(w, 0)]
  }

  function Ntohl(s: seq<byte>): bv32
    requires |s| == 4
  {
    Word(s[3], s[2], s[1], s[0])
  }

  lemma NtohlHtonl(w: bv32)
    ensures Ntohl(Htonl(w)) == w
  {
    WordOfBytes(w);
  }

  lemma HtonlNtohl(s: seq<byte>)
    requires |s| == 4
    ensures Htonl(Ntohl(s)) == s
  {
    BytesOfWord(s[3], s[2], s[1], s[0]);
  }

  /** The string the two sides exchange in Sync. */
  const SYNC: seq<byte> := [0x53, 0x79, 0x6E, 0x63, 0x4D, 0x65]
}
