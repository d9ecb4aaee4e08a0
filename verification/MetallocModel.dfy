/** HydraDB's block allocator as a value: headers linked in both directions inside one block of memory, and a side
    list of the free ones.  Allocation always splits the last header's chunk.  A release either marks its header as
    free or lets a free predecessor swallow it; the forward links keep every header that ever was. */
module MetallocModel {

  /** The address no header has. */
  const NULL: nat := 0

  /** Address and length of the block, size of a header, length of the free list, and how many of its entries the
      initialisation clears. */
  datatype Geometry = Geometry(base: nat, block: nat, header: nat, capacity: nat, cleared: nat)

  predicate Fits(g: Geometry)
  {
    g.base > 0 && 0 < g.header <= g.block < 0x1_0000_0000 && g.cleared <= g.capacity && g.capacity > 0
  }

  datatype Header = Header(succ: nat, prev: nat, isFree: bool, size: nat)

  datatype Entry = Entry(addr: nat, size: nat)

  /** The headers by address, the free list, and the two globals.  Before the first allocation `free` stands for what
      malloc will return. */
  datatype Heap = Heap(mem: map<nat, Header>, free: seq<Entry>, last: nat, initialized: bool)

  /** An unsigned 32-bit field. */
  function U32(x: int): nat
  {
    x % 0x1_0000_0000
  }

  // ---------------------------------------------------------------- the free list

  /** The first entry from `i` on with the address, or the length of the list. */
  function Find(free: seq<Entry>, a: nat, i: nat := 0): (r: nat)
    requires i <= |free|
    ensures i <= r <= |free|
    ensures r < |free| ==> free[r].addr == a
    ensures forall j | i <= j < r :: free[j].addr != a
    decreases |free| - i
  {
    if i == |free| || free[i].addr == a then i else Find(free, a, i + 1)
  }

  function InsertEntry(free: seq<Entry>, a: nat, size: nat): (r: seq<Entry>)
    ensures |r| == |free|
  {
    var i := Find(free, NULL);
    if i < |free| then free[i := Entry(a, U32(size))] else free
  }

  function RemoveEntry(free: seq<Entry>, a: nat): (r: seq<Entry>)
    ensures |r| == |free|
  {
    var i := Find(free, a);
    if i < |free| then free[i := Entry(NULL, 0)] else free
  }

  function ResizeEntry(free: seq<Entry>, a: nat, size: nat): (r: seq<Entry>)
    ensures |r| == |free|
  {
    var i := Find(free, a);
    if i < |free| then free[i := Entry(free[i].addr, U32(size))] else free
  }

  function DropEntry(free: seq<Entry>, a: nat): (r: seq<Entry>)
    ensures |r| == |free|
  {
    var i := Find(free, a);
    if i < |free| then free[i := Entry(NULL, free[i].size)] else free
  }

  /** update_free_list of type 1: the predecessor's entry gets the new size, the swallowed header's entry goes. */
  function MergeEntries(free: seq<Entry>, pred: nat, a: nat, size: nat): (r: seq<Entry>)
    ensures |r| == |free|
  {
    DropEntry(ResizeEntry(free, pred, size), a)
  }

  // ---------------------------------------------------------------- links

  /** Forward links lead upwards and backward links downwards, to headers. */
  predicate Linked(mem: map<nat, Header>)
  {
    && NULL !in mem
    && (forall a {:trigger mem[a].succ} | a in mem && mem[a].succ != NULL :: mem[a].succ in mem && a < mem[a].succ)
    && (forall a {:trigger mem[a].prev} | a in mem && mem[a].prev != NULL :: mem[a].prev in mem && mem[a].prev < a)
  }

  datatype Place = Here | Beyond | Nowhere

  /** The walk of freealloc along the forward links until it meets or passes the target. */
  function Walk(mem: map<nat, Header>, ptr: nat, target: nat): (r: Place)
    requires Linked(mem) && (ptr == NULL || ptr in mem)
    ensures r.Here? ==> target in mem
    decreases if ptr == NULL || ptr >= target then 0 else target - ptr
  {
    if ptr == NULL then Nowhere
    else if ptr < target then Walk(mem, mem[ptr].succ, target)
    else if ptr > target then Beyond
    else Here
  }

  /** The headers met by following `prev` from `a`, lowest first. */
  function Chain(mem: map<nat, Header>, a: nat): seq<nat>
    requires Linked(mem) && (a == NULL || a in mem)
    decreases a
  {
    if a == NULL then [] else Chain(mem, mem[a].prev) + [a]
  }

  predicate Sane(g: Geometry, h: Heap)
  {
    Linked(h.mem) && h.last in h.mem && g.base in h.mem
  }

  function Tiles(g: Geometry, h: Heap): seq<nat>
    requires Sane(g, h)
  {
    Chain(h.mem, h.last)
  }

  // ---------------------------------------------------------------- allocation

  /** memset is given a number of bytes that covers only the first entries. */
  function Cleared(g: Geometry, free: seq<Entry>): (r: seq<Entry>)
    ensures |r| == |free|
  {
    seq(|free|, j requires 0 <= j < |free| => if j < g.cleared then Entry(NULL, 0) else free[j])
  }

  function Start(g: Geometry, h: Heap): (t: Heap)
    requires Fits(g) && |h.free| == g.capacity && (h.initialized ==> Sane(g, h))
    ensures Sane(g, t) && |t.free| == g.capacity
  {
    if h.initialized then h else
    var size := U32(g.block - g.header);
    Heap(map[g.base := Header(NULL, NULL, true, size)], Cleared(g, h.free)[0 := Entry(g.base, size)], g.base, true)
  }

  /** The last header's chunk is cut to `size` and a new last header placed behind it, whatever there is left. */
  function Split(g: Geometry, h: Heap, size: nat): (t: Heap)
    requires Sane(g, h)
    ensures |t.free| == |h.free|
  {
    var p := h.last;
    var q := p + g.header + size;
    var next := h.mem[p].succ;
    var m1 := h.mem[q := Header(next, p, true, U32(h.mem[p].size - g.header - size))];
    var m2 := if next != NULL then m1[next := m1[next].(prev := q)] else m1;
    Heap(m2[p := m2[p].(succ := q, isFree := false, size := size)],
         InsertEntry(RemoveEntry(h.free, p), q, U32(h.mem[p].size - g.header - size)), q, h.initialized)
  }

  /** metalloc: the new heap and the address handed out. */
  function Metalloc(g: Geometry, h: Heap, size: nat): (Heap, nat)
    requires Fits(g) && |h.free| == g.capacity && (h.initialized ==> Sane(g, h))
  {
    var s := Start(g, h);
    (Split(g, s, size), s.last + g.header)
  }

  // ---------------------------------------------------------------- release

  /** Pointer arithmetic wraps around below zero. */
  function Target(g: Geometry, p: nat): nat
  {
    if p >= g.header then p - g.header else (p - g.header) % 0x1_0000_0000_0000_0000
  }

  /** A free predecessor swallows header `x`: it grows, and the header behind `x` now points back to it.  (Line 390
      compares where it should assign, so `x` stays on the forward links; nor is it marked as free.) */
  function Merge(g: Geometry, h: Heap, x: nat, pred: nat): (t: Heap)
    requires Linked(h.mem) && x in h.mem && pred in h.mem
    ensures |t.free| == |h.free|
  {
    var size := U32(h.mem[pred].size + g.header + h.mem[x].size);
    var m1 := h.mem[pred := h.mem[pred].(size := size)];
    var y := m1[x].succ;
    h.(mem := if y != NULL then m1[y := m1[y].(prev := pred)] else m1, free := MergeEntries(h.free, pred, x, size))
  }

  function Mark(h: Heap, x: nat): (t: Heap)
    requires x in h.mem
    ensures |t.free| == |h.free|
  {
    h.(mem := h.mem[x := h.mem[x].(isFree := true)], free := InsertEntry(h.free, x, h.mem[x].size))
  }

  function Release(g: Geometry, h: Heap, x: nat): (t: Heap)
    requires Linked(h.mem) && x in h.mem
    ensures |t.free| == |h.free|
  {
    var pred := h.mem[x].prev;
    if pred != NULL && h.mem[pred].isFree then Merge(g, h, x, pred) else Mark(h, x)
  }

  /** The outcomes of freealloc: done, nothing there yet (a message only), or the end of the process. */
  datatype Outcome = Done(heap: Heap) | NothingYet | Exit

  function Freealloc(g: Geometry, h: Heap, p: nat): Outcome
    requires h.initialized ==> Sane(g, h)
  {
    if !h.initialized then NothingYet else
    var x := Target(g, p);
    if !Walk(h.mem, g.base, x).Here? || h.mem[x].isFree then Exit else Done(Release(g, h, x))
  }
}
