/** Stepping through a large buffer so that no message is in cache (src/netpipe.c), and the address a
    one-sided send computes for it on the peer (src/armci.c, src/ib.c). */
module Ring {
  import opened Registry

  const MEMSIZE: int := 10_000_000

  /** The boundary's next multiple: a whole boundary further when the address is aligned already. */
  function AlignBuffer(buff: nat, boundary: nat): nat {
    if boundary == 0 then buff else buff + (boundary - buff % boundary)
  }

  lemma AlignBufferMultiple(buff: nat, boundary: nat)
    ensures boundary == 0 ==> AlignBuffer(buff, boundary) == buff
    ensures boundary > 0 ==>
              AlignBuffer(buff, boundary) % boundary == 0 &&
              buff < AlignBuffer(buff, boundary) <= buff + boundary &&
              forall a | buff < a < AlignBuffer(buff, boundary) :: a % boundary != 0
  {
    if boundary > 0 {
      AlignedAbove(buff, boundary);
    }
  }

  lemma AlignedAbove(buff: nat, boundary: nat)
    requires boundary > 0
    ensures AlignBuffer(buff, boundary) % boundary == 0
    ensures buff < AlignBuffer(buff, boundary) <= buff + boundary
    ensures forall a | buff < a < AlignBuffer(buff, boundary) :: a % boundary != 0
  {
    var q := buff / boundary;
    Distribute(boundary, q);
    ModOf(q + 1, 0, boundary);
    forall a | buff < a < AlignBuffer(buff, boundary) ensures a % boundary != 0 {
      ModOf(q, a - boundary * q, boundary);
    }
  }

  lemma Distribute(b: int, x: int)
    ensures b * (x + 1) == b * x + b
  {
  }

  lemma Monotone(b: nat, x: int, y: int)
    requires x < y
    ensures b * x + b <= b * y
  {
    NonNegative(b, y - x - 1);
    assert b * y == b * x + b + b * (y - x - 1);
  }

  lemma OneQuotient(b: nat, q: int, r: nat, q': int, r': nat)
    requires r < b && r' < b && b * q + r == b * q' + r'
    ensures q == q' && r == r'
  {
    if q < q' {
      Monotone(b, q, q');
    } else if q' < q {
      Monotone(b, q', q);
    }
  }

  lemma ModOf(q: int, r: nat, b: nat)
    requires r < b
    ensures (b * q + r) % b == r
  {
    var x := b * q + r;
    OneQuotient(b, q, r, x / b, x % b);
  }

  /** One step forward while two more blocks fit, otherwise back to the start. */
  function Advanced(offset: int, b: int): int {
    if offset + b < MEMSIZE - b then offset + b else 0
  }

  function After(k: nat, b: int): int {
    if k == 0 then 0 else Advanced(After(k - 1, b), b)
  }

  /** How many blocks a round takes. */
  function Blocks(b: nat): nat
    requires 0 < b < MEMSIZE
  {
    (MEMSIZE - 1) / b
  }

  /** A round is as many blocks as fit below the end of the buffer. */
  lemma BlocksFit(b: nat)
    requires 0 < b < MEMSIZE
    ensures b * Blocks(b) < 10_000_000 <= b * Blocks(b) + b && Blocks(b) > 0
  {
    var x := MEMSIZE - 1;
    assert x == b * (x / b) + x % b;
    if x / b <= 0 {
      Monotone(b, x / b, 1);
    }
  }

  lemma NextSlot(k: nat, p: nat)
    requires p > 0
    ensures (k + 1) % p == if k % p + 1 < p then k % p + 1 else 0
  {
    var q, r := k / p, k % p;
    assert k == p * q + r;
    Distribute(p, q);
    if r + 1 < p {
      ModOf(q, r + 1, p);
    } else {
      ModOf(q + 1, 0, p);
    }
  }

  // Two blocks beyond slot i fit exactly when slot i + 1 is still in the round.
  lemma SlotFits(i: nat, b: nat)
    requires 0 < b < MEMSIZE
    ensures b * i + b < MEMSIZE - b <==> i + 1 < Blocks(b)
  {
    hide Blocks;
    BlocksFit(b);
    Distribute(b, i);
    if i + 1 < Blocks(b) {
      Monotone(b, i + 1, Blocks(b));
    } else if Blocks(b) < i + 1 {
      Monotone(b, Blocks(b), i + 1);
    }
  }

  lemma AdvancedSlot(i: nat, b: nat)
    requires 0 < b < MEMSIZE
    ensures Advanced(b * i, b) == b * (if i + 1 < Blocks(b) then i + 1 else 0)
  {
    hide Blocks;
    SlotFits(i, b);
    Distribute(b, i);
  }

  lemma {:induction false} SlotAt(k: nat, b: nat)
    requires 0 < b < MEMSIZE && Blocks(b) > 0
    ensures After(k, b) == b * (k % Blocks(b))
  {
    hide Blocks, Advanced;
    if k > 0 {
      SlotAt(k - 1, b);
      NextSlot(k - 1, Blocks(b));
      AdvancedSlot((k - 1) % Blocks(b), b);
    }
  }

  /** After k advances the pointer is at slot k modulo the number of blocks, inside the buffer. */
  lemma Slot(k: nat, b: nat)
    requires 0 < b < MEMSIZE
    ensures Blocks(b) > 0
    ensures After(k, b) == b * (k % Blocks(b))
    ensures 0 <= After(k, b) && After(k, b) + b < MEMSIZE
  {
    hide Blocks, After;
    BlocksFit(b);
    SlotAt(k, b);
    Inside(k % Blocks(b), Blocks(b), b);
  }

  lemma Inside(i: nat, p: nat, b: nat)
    requires i < p && b * p < MEMSIZE
    ensures 0 <= b * i && b * i + b < MEMSIZE
  {
    Monotone(b, i, p);
    NonNegative(b, i);
  }

  lemma NonNegative(b: nat, x: nat)
    ensures 0 <= b * x
  {
  }

  lemma ModDifference(j: nat, k: nat, p: nat)
    requires j < k && p > 0
    ensures (k - j) % p == 0 <==> j % p == k % p
  {
    var x, y, d := j % p, k % p, k / p - j / p;
    assert k - j == p * d + (y - x) by {
      assert p * d == p * (k / p) - p * (j / p);
    }
    if x <= y {
      ModOf(d, y - x, p);
    } else {
      Distribute(p, d - 1);
      ModOf(d - 1, p + y - x, p);
    }
  }

  /** Every slot of the round is used before one is used again. */
  lemma SlotsReused(j: nat, k: nat, b: nat)
    requires 0 < b < MEMSIZE && j < k
    ensures Blocks(b) > 0
    ensures After(j, b) == After(k, b) <==> (k - j) % Blocks(b) == 0
  {
    hide Blocks, After;
    Slot(j, b);
    Slot(k, b);
    var p := Blocks(b);
    var x, y := j % p, k % p;
    if x < y {
      Monotone(b, x, y);
    } else if y < x {
      Monotone(b, y, x);
    }
    ModDifference(j, k, p);
  }

  /** The buffer fields of ArgStruct. */
  class Pointers {
    var s_buff: nat
    var s_ptr: int
    var r_buff_orig: nat
    var r_buff: nat
    var r_ptr: int

    /** Both pointers have been advanced k times since they were set to their buffers. */
    predicate At(k: nat, b: int)
      reads this
    {
      s_ptr == s_buff + After(k, b) && r_ptr == r_buff + After(k, b)
    }

    method AdvanceSendPtr(b: int)
      modifies this`s_ptr
      ensures s_ptr == s_buff + Advanced(old(s_ptr) - s_buff, b)
    {
      if s_ptr + b < s_buff + MEMSIZE - b {
        s_ptr := s_ptr + b;
      } else {
        s_ptr := s_buff;
      }
    }

    method AdvanceRecvPtr(b: int)
      modifies this`r_ptr
      ensures r_ptr == r_buff + Advanced(old(r_ptr) - r_buff, b)
    {
      if r_ptr + b < r_buff + MEMSIZE - b {
        r_ptr := r_ptr + b;
      } else {
        r_ptr := r_buff;
      }
    }

    // The end of one ping-pong round outside cache mode.
    method AdvanceBoth(b: int, ghost k: nat)
      requires At(k, b)
      modifies this`s_ptr, this`r_ptr
      ensures At(k + 1, b)
    {
      AdvanceRecvPtr(b);
      AdvanceSendPtr(b);
    }

    /** Where src/armci.c's SendData puts: the peer's copy of the receive buffer, the offset the peer
        announced for its alignment, and how far this side's own send pointer has moved. */
    method Target(registry: Registry, peerOffset: int) returns (address: Answer<int>)
      requires registry.Valid()
      ensures var remote := Remote(registry.Contents(), registry.mype, r_buff_orig);
              address == if remote.Ok? then Ok(TargetOf(remote.value, peerOffset, s_ptr - s_buff)) else Terminated
    {
      var remote := registry.RemotePtr(r_buff_orig);
      match remote {
        case Terminated => return Terminated;
        case Ok(base) => return Ok(TargetOf(base, peerOffset, s_ptr - s_buff));
      }
    }
  }

  function TargetOf(base: int, peerOffset: int, moved: int): int {
    base + (peerOffset + moved)
  }

  /** Two processing elements made the same allocation calls, the same one of them for their receive
      buffers, and both advanced k times: however each has aligned its buffer, one's target is exactly
      the other's current receive pointer, with a whole block inside. The RDMA writes of src/ib.c start
      from the peer's aligned buffer itself. */
  lemma TargetIsPeerPointer(ops: seq<Op>, e: Entry, pe: PE, mine: Pointers, peer: Pointers, k: nat, b: nat)
    requires Proper(ops) && e in Live(ops)
    requires mine.r_buff_orig == e.Ptr(pe) && peer.r_buff_orig == e.Ptr(1 - pe)
    requires mine.At(k, b) && peer.At(k, b)
    ensures Run(pe, ops).Ok?
    ensures var remote := Remote(Run(pe, ops).value, pe, mine.r_buff_orig);
            remote.Ok? &&
            TargetOf(remote.value, peer.r_buff - peer.r_buff_orig, mine.s_ptr - mine.s_buff) == peer.r_ptr
    ensures peer.r_buff + (mine.s_ptr - mine.s_buff) == peer.r_ptr
    ensures 0 < b < MEMSIZE ==> peer.r_buff <= peer.r_ptr && peer.r_ptr + b < peer.r_buff + MEMSIZE
  {
    hide Run, Remote, After;
    RemoteInverse(ops, pe, e);
    if 0 < b < MEMSIZE {
      Slot(k, b);
    }
  }
}
