/** The list in which src/armci.c keeps, for every live allocation, its address on each of the two
    processing elements. */
module Registry {
  type PE = x: nat | x < 2

  datatype Entry = Entry(ptr0: nat, ptr1: nat, nbytes: nat) {
    function Ptr(pe: PE): nat { if pe == 0 then ptr0 else ptr1 }
  }

  /** ARMCI_Error ends the program. */
  datatype Answer<T> = Ok(value: T) | Terminated

  // ----- the specification, on the entries in list order

  /** The position of the first entry with that pointer, or the length of the list. */
  function First(es: seq<Entry>, pe: PE, ptr: nat): (k: nat)
    ensures k <= |es|
    ensures k < |es| ==> es[k].Ptr(pe) == ptr
    ensures forall i | 0 <= i < k :: es[i].Ptr(pe) != ptr
  {
    if es == [] || es[0].Ptr(pe) == ptr then 0
    else
      var k := First(es[1..], pe, ptr);
      assert forall i | 1 <= i < k + 1 :: es[i] == es[1..][i - 1];
      k + 1
  }

  lemma FirstIs(es: seq<Entry>, pe: PE, ptr: nat, k: nat)
    requires k <= |es| && forall i | 0 <= i < k :: es[i].Ptr(pe) != ptr
    requires k < |es| ==> es[k].Ptr(pe) == ptr
    ensures First(es, pe, ptr) == k
  {
  }

  /** armci_free's effect: an empty list is left alone, an unknown pointer is fatal. */
  function Freed(es: seq<Entry>, pe: PE, ptr: nat): Answer<seq<Entry>> {
    var k := First(es, pe, ptr);
    if es == [] then Ok(es) else if k < |es| then Ok(Removed(es, k)) else Terminated
  }

  /** remote_ptr's value; 0 is the null pointer an empty list gives. */
  function Remote(es: seq<Entry>, pe: PE, ptr: nat): Answer<nat> {
    var k := First(es, pe, ptr);
    if es == [] then Ok(0) else if k < |es| then Ok(es[k].Ptr(1 - pe)) else Terminated
  }

  // s without its element k.
  function Removed<T>(s: seq<T>, k: nat): (r: seq<T>)
    requires k < |s|
    ensures |r| == |s| - 1
  {
    s[..k] + s[k + 1..]
  }

  lemma RemovedAt<T>(s: seq<T>, k: nat)
    requires k < |s|
    ensures forall i | 0 <= i < |s| - 1 :: Removed(s, k)[i] == s[if i < k then i else i + 1]
  {
  }

  lemma RemovedIndex<T>(s: seq<T>, k: nat, i: nat)
    requires k < |s| && i < |s| - 1
    ensures Removed(s, k)[i] == s[if i < k then i else i + 1]
  {
  }

  // ----- the heap list

  class Cell {
    const entry: Entry // written once, before the node is linked
    var next: Cell?

    constructor (entry: Entry)
      ensures this.entry == entry
    {
      this.entry := entry;
      next := null;
    }
  }

  ghost predicate NoRepeats(cells: seq<Cell>) {
    forall i, j | 0 <= i < j < |cells| :: cells[i] != cells[j]
  }

  lemma Apart(cells: seq<Cell>, i: nat, j: int)
    requires NoRepeats(cells) && i < |cells| && j < |cells| && i != j
    ensures j >= 0 ==> cells[i] != cells[j]
  {
  }

  lemma RemovedApart(cells: seq<Cell>, k: nat)
    requires NoRepeats(cells) && k < |cells|
    ensures NoRepeats(Removed(cells, k))
  {
    hide Removed;
    RemovedAt(cells, k);
  }

  class Registry {
    const mype: PE
    var first: Cell?
    ghost var cells: seq<Cell>

    /** The list is the chain of the distinct cells: no cycle, no sharing, nothing lost. */
    ghost predicate Valid()
      reads this, cells
    {
      NoRepeats(cells) &&
      first == CellAt(0) &&
      forall i {:trigger cells[i].next} | 0 <= i < |cells| :: cells[i].next == CellAt(i + 1)
    }

    ghost function CellAt(i: int): Cell?
      reads this
    {
      if 0 <= i < |cells| then cells[i] else null
    }

    ghost function Contents(): (es: seq<Entry>)
      reads this
      ensures |es| == |cells|
      ensures forall i | 0 <= i < |es| :: es[i] == cells[i].entry
    {
      seq(|cells|, i requires 0 <= i < |cells| reads this => cells[i].entry)
    }

    constructor (mype: PE)
      ensures Valid() && this.mype == mype && Contents() == [] && cells == []
    {
      this.mype := mype;
      first := null;
      cells := [];
    }

    // mlink_front
    method LinkFront(node: Cell)
      requires Valid() && node !in cells
      modifies this, node
      ensures Valid() && cells == [node] + old(cells)
      ensures Contents() == [node.entry] + old(Contents())
    {
      node.next := first;
      first := node;
      cells := [node] + cells;
    }

    /** mfind: the first cell holding the pointer and the one before it. Only a list that is not
        empty makes an unknown pointer fatal. */
    method Find(ptr: nat) returns (found: Answer<Cell?>, prev: Cell?)
      requires Valid()
      ensures var k := First(Contents(), mype, ptr);
              found == if cells == [] then Ok(null) else if k < |cells| then Ok(cells[k]) else Terminated
      ensures found.Ok? ==> prev == CellAt(First(Contents(), mype, ptr) - 1)
    {
      hide First, Entry.Ptr;
      prev := null;
      if first == null {
        return Ok(null), null;
      }
      if first.entry.Ptr(mype) == ptr {
        FirstIs(Contents(), mype, ptr, 0);
        return Ok(first), null;
      }
      var p := first;
      var n := p.next;
      ghost var i := 0;
      while n != null
        invariant 0 <= i < |cells| && p == cells[i] && n == CellAt(i + 1)
        invariant forall j | 0 <= j <= i :: Contents()[j].Ptr(mype) != ptr
        decreases |cells| - i
      {
        if n.entry.Ptr(mype) == ptr {
          FirstIs(Contents(), mype, ptr, i + 1);
          return Ok(n), p;
        }
        p := n;
        n := n.next;
        i := i + 1;
      }
      FirstIs(Contents(), mype, ptr, |cells|);
      return Terminated, null;
    }

    /** munlink: takes out that cell alone and keeps the order of the rest. */
    method Unlink(node: Cell, prev: Cell?, ghost k: nat)
      requires Valid() && k < |cells| && node == cells[k] && prev == CellAt(k - 1)
      modifies this, prev
      ensures Valid() && cells == Removed(old(cells), k)
      ensures Contents() == Removed(old(Contents()), k)
    {
      hide First;
      ghost var was, es := cells, Contents();
      RemovedApart(was, k);
      if prev != null {
        prev.next := node.next;
      } else {
        first := node.next;
      }
      cells := Removed(was, k);
      forall i | 0 <= i < |cells| ensures cells[i].next == CellAt(i + 1) {
        ghost var j := if i < k then i else i + 1;
        RemovedIndex(was, k, i);
        assert cells[i] == was[j];
        if i + 1 < |cells| {
          RemovedIndex(was, k, i + 1);
        }
        if i + 1 == k {
          assert was[j] == prev;
        } else {
          Apart(was, j, k - 1);
          assert was[j].next == old(was[j].next);
        }
      }
      if cells != [] {
        RemovedIndex(was, k, 0);
      }
      forall i | 0 <= i < |cells| ensures Contents()[i] == Removed(es, k)[i] {
        RemovedIndex(was, k, i);
        RemovedIndex(es, k, i);
      }
    }

    // armci_malloc, with what ARMCI_Malloc placed in the two pointers
    method Malloc(entry: Entry) returns (ptr: nat)
      requires Valid()
      modifies this
      ensures Valid() && fresh(set c | c in cells && c !in old(cells))
      ensures Contents() == [entry] + old(Contents()) && ptr == entry.Ptr(mype)
    {
      var node := new Cell(entry);
      LinkFront(node);
      ptr := node.entry.Ptr(mype);
    }

    // armci_free
    method Free(ptr: nat) returns (done: Answer<()>)
      requires Valid()
      modifies this, cells
      ensures Valid() && forall c | c in cells :: c in old(cells)
      ensures var after := old(Freed(Contents(), mype, ptr));
              if after.Ok? then done == Ok(()) && Contents() == after.value
              else done == Terminated && Contents() == old(Contents())
    {
      hide First, Removed;
      ghost var k := First(Contents(), mype, ptr);
      var found, prev := Find(ptr);
      if found.Terminated? {
        return Terminated;
      }
      if found.value != null {
        RemovedAt(cells, k);
        Unlink(found.value, prev, k);
      }
      return Ok(());
    }

    // remote_ptr
    method RemotePtr(ptr: nat) returns (remote: Answer<nat>)
      requires Valid()
      ensures remote == Remote(Contents(), mype, ptr)
    {
      var found, _ := Find(ptr);
      match found {
        case Terminated => return Terminated;
        case Ok(node) => return Ok(if node != null then node.entry.Ptr(1 - mype) else 0);
      }
    }
  }

  // ----- the list as a map

  /** Pointer to entry, the most recent allocation winning. */
  function Table(es: seq<Entry>, pe: PE): map<nat, Entry> {
    if es == [] then map[] else Table(es[1..], pe)[es[0].Ptr(pe) := es[0]]
  }

  /** No two live allocations share an address on either side. */
  predicate Distinct(es: seq<Entry>) {
    forall i, j | 0 <= i < j < |es| :: es[i].ptr0 != es[j].ptr0 && es[i].ptr1 != es[j].ptr1
  }

  /** The search finds exactly what the map holds, even if an address occurs twice. */
  lemma {:induction false} FirstIsTable(es: seq<Entry>, pe: PE, ptr: nat)
    ensures ptr in Table(es, pe) <==> First(es, pe, ptr) < |es|
    ensures ptr in Table(es, pe) ==> Table(es, pe)[ptr] == es[First(es, pe, ptr)]
  {
    if es != [] && es[0].Ptr(pe) != ptr {
      FirstIsTable(es[1..], pe, ptr);
    }
  }

  lemma MallocTable(es: seq<Entry>, pe: PE, entry: Entry)
    ensures Table([entry] + es, pe) == Table(es, pe)[entry.Ptr(pe) := entry]
  {
    assert ([entry] + es)[1..] == es;
  }

  lemma DistinctAt(es: seq<Entry>, pe: PE, i: nat)
    requires Distinct(es) && i < |es|
    ensures First(es, pe, es[i].Ptr(pe)) == i
  {
    var k := First(es, pe, es[i].Ptr(pe));
    assert es[k].Ptr(pe) == es[i].Ptr(pe);
  }

  /** Each lookup in terms of the map: null from an empty list, the end of the program for a pointer that
      another list does not hold, and otherwise the other side's pointer of the most recent entry. */
  lemma LookupsExact(es: seq<Entry>, pe: PE, ptr: nat)
    ensures var remote := Remote(es, pe, ptr);
            (remote.Terminated? <==> es != [] && ptr !in Table(es, pe)) &&
            (es == [] ==> remote == Ok(0)) &&
            (ptr in Table(es, pe) ==>
              remote == Ok(if pe == 0 then Table(es, pe)[ptr].ptr1 else Table(es, pe)[ptr].ptr0))
    ensures var freed := Freed(es, pe, ptr);
            (freed.Terminated? <==> es != [] && ptr !in Table(es, pe)) && (es == [] ==> freed == Ok([]))
  {
    FirstIsTable(es, pe, ptr);
  }

  // Where a pointer stands once entry k is gone.
  lemma FirstAfter(es: seq<Entry>, pe: PE, k: nat, q: nat)
    requires Distinct(es) && k < |es|
    ensures var a, b := First(Removed(es, k), pe, q), First(es, pe, q);
            if q == es[k].Ptr(pe) then a == |es| - 1 && b == k
            else if b < |es| then a == if b < k then b else b - 1
            else a == |es| - 1
  {
    hide First, Entry.Ptr;
    var rest := Removed(es, k);
    DistinctAt(es, pe, k);
    var b := First(es, pe, q);
    RemovedAt(es, k);
    forall i | 0 <= i < |es| && i != b ensures es[i].Ptr(pe) != q {
      DistinctAt(es, pe, i);
    }
    FirstIs(rest, pe, q, if b == k || b == |es| then |rest| else if b < k then b else b - 1);
  }

  /** With distinct live pointers, freeing one removes its key and no other. */
  lemma FreeTable(es: seq<Entry>, pe: PE, ptr: nat)
    requires Distinct(es) && ptr in Table(es, pe)
    ensures Freed(es, pe, ptr).Ok? && Distinct(Freed(es, pe, ptr).value)
    ensures Table(Freed(es, pe, ptr).value, pe) == Table(es, pe) - {ptr}
  {
    hide Table, First, Entry.Ptr;
    FirstIsTable(es, pe, ptr);
    var k := First(es, pe, ptr);
    var rest := Removed(es, k);
    forall q
      ensures q in Table(rest, pe) <==> q in Table(es, pe) && q != ptr
      ensures q in Table(rest, pe) ==> Table(rest, pe)[q] == Table(es, pe)[q]
    {
      FirstIsTable(rest, pe, q);
      FirstIsTable(es, pe, q);
      FirstAfter(es, pe, k, q);
    }
  }

  // ----- two processing elements

  /** A collective call: each processing element passes or gets its own pointer of the entry. */
  datatype Op = Malloc(entry: Entry) | Free(entry: Entry)

  function Perform(es: seq<Entry>, pe: PE, op: Op): Answer<seq<Entry>> {
    match op
    case Malloc(e) => Ok([e] + es)
    case Free(e) => Freed(es, pe, e.Ptr(pe))
  }

  function Run(pe: PE, ops: seq<Op>): Answer<seq<Entry>> {
    if ops == [] then Ok([])
    else
      var es := Run(pe, ops[..|ops| - 1]);
      if es.Ok? then Perform(es.value, pe, ops[|ops| - 1]) else Terminated
  }

  /** What is allocated and not yet freed, most recent first, without reference to any address. */
  function Live(ops: seq<Op>): seq<Entry> {
    if ops == [] then []
    else
      var es := Live(ops[..|ops| - 1]);
      match ops[|ops| - 1]
      case Malloc(e) => [e] + es
      case Free(e) => Without(es, e)
  }

  function Without(es: seq<Entry>, e: Entry): seq<Entry> {
    if es == [] then []
    else (if es[0] == e then [] else [es[0]]) + Without(es[1..], e)
  }

  /** ARMCI_Malloc gives addresses no live allocation has, and only live allocations are freed. */
  predicate Proper(ops: seq<Op>) {
    ops == [] ||
    (Proper(ops[..|ops| - 1]) &&
     var es := Live(ops[..|ops| - 1]);
     match ops[|ops| - 1]
     case Malloc(e) => forall i | 0 <= i < |es| :: es[i].ptr0 != e.ptr0 && es[i].ptr1 != e.ptr1
     case Free(e) => e in es)
  }

  lemma {:induction false} WithoutAt(es: seq<Entry>, e: Entry, k: nat)
    requires k < |es| && es[k] == e && forall i | 0 <= i < |es| && i != k :: es[i] != e
    ensures Without(es, e) == Removed(es, k)
  {
    if k == 0 {
      WithoutAbsent(es[1..], e);
    } else {
      WithoutAt(es[1..], e, k - 1);
      assert es[..k] == [es[0]] + es[1..][..k - 1];
      assert es[1..][k..] == es[k + 1..];
    }
  }

  lemma {:induction false} WithoutAbsent(es: seq<Entry>, e: Entry)
    requires e !in es
    ensures Without(es, e) == es
  {
    if es != [] {
      WithoutAbsent(es[1..], e);
    }
  }

  lemma FreeLive(es: seq<Entry>, pe: PE, e: Entry)
    requires Distinct(es) && e in es
    ensures Freed(es, pe, e.Ptr(pe)) == Ok(Without(es, e)) && Distinct(Without(es, e))
  {
    hide First, Entry.Ptr, Without;
    var k :| 0 <= k < |es| && es[k] == e;
    DistinctAt(es, pe, k);
    WithoutAt(es, e, k);
  }

  /** Two processing elements that make the same calls hold the same list, that of the live
      allocations, whichever of the two addresses each of them searches by. */
  lemma {:induction false} SameLists(ops: seq<Op>, pe: PE)
    requires Proper(ops)
    ensures Run(pe, ops) == Ok(Live(ops)) && Distinct(Live(ops))
  {
    hide Freed, Without, Entry.Ptr;
    if ops != [] {
      SameLists(ops[..|ops| - 1], pe);
      match ops[|ops| - 1]
      case Malloc(e) =>
      case Free(e) => FreeLive(Live(ops[..|ops| - 1]), pe, e);
    }
  }

  /** What a most-recent-first map goes through in the same calls. */
  function Mapped(pe: PE, ops: seq<Op>): map<nat, Entry> {
    if ops == [] then map[]
    else
      var m := Mapped(pe, ops[..|ops| - 1]);
      match ops[|ops| - 1]
      case Malloc(e) => m[e.Ptr(pe) := e]
      case Free(e) => m - {e.Ptr(pe)}
  }

  lemma LiveInTable(es: seq<Entry>, pe: PE, e: Entry)
    requires Distinct(es) && e in es
    ensures e.Ptr(pe) in Table(es, pe)
  {
    var k :| 0 <= k < |es| && es[k] == e;
    DistinctAt(es, pe, k);
    FirstIsTable(es, pe, e.Ptr(pe));
  }

  /** Over any sequence of calls no call fails and the list refines the map. */
  lemma {:induction false} MapRefinement(ops: seq<Op>, pe: PE)
    requires Proper(ops)
    ensures Run(pe, ops).Ok? && Table(Run(pe, ops).value, pe) == Mapped(pe, ops)
  {
    hide First, Table, Freed, Entry.Ptr, Without;
    SameLists(ops, pe);
    if ops == [] {
      EmptyTable(pe);
    } else {
      var before := ops[..|ops| - 1];
      MapRefinement(before, pe);
      SameLists(before, pe);
      match ops[|ops| - 1]
      case Malloc(e) => MallocTable(Live(before), pe, e);
      case Free(e) =>
        LiveInTable(Live(before), pe, e);
        FreeTable(Live(before), pe, e.Ptr(pe));
    }
  }

  lemma EmptyTable(pe: PE)
    ensures Table([], pe) == map[]
  {
  }

  /** remote_ptr on one side undoes remote_ptr on the other, for every live allocation. */
  lemma RemoteInverse(ops: seq<Op>, pe: PE, e: Entry)
    requires Proper(ops) && e in Live(ops)
    ensures Run(0, ops).Ok? && Run(1, ops).Ok?
    ensures Remote(Run(pe, ops).value, pe, e.Ptr(pe)) == Ok(e.Ptr(1 - pe))
    ensures Remote(Run(1 - pe, ops).value, 1 - pe, e.Ptr(1 - pe)) == Ok(e.Ptr(pe))
    ensures Remote(Run(0, ops).value, 0, e.ptr0) == Ok(e.ptr1) && Remote(Run(1, ops).value, 1, e.ptr1) == Ok(e.ptr0)
  {
    hide Run, Live, Proper, First;
    SameLists(ops, 0);
    SameLists(ops, 1);
    var k :| 0 <= k < |Live(ops)| && Live(ops)[k] == e;
    DistinctAt(Live(ops), pe, k);
    DistinctAt(Live(ops), 1 - pe, k);
  }
}
