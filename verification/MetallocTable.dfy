/** HydraDB's allocator with its state changed in place. */
module MetallocTable {
  import opened MetallocModel

  /** How freealloc ends: by returning, by returning after a message that nothing was allocated yet, or by ending the
      process. */
  datatype Code = Returned | Warned | Quit

  class Allocator {
    const g: Geometry

    /** The headers in the block, by address. */
    var mem: map<nat, Header>

    const free: array<Entry>
    var last: nat
    var initialized: bool

    ghost function Model(): Heap
      reads this, free
    {
      Heap(mem, free[..], last, initialized)
    }

    ghost predicate Valid()
      reads this, free
    {
      Fits(g) && free.Length == g.capacity && (initialized ==> Sane(g, Model()))
    }

    /** Nothing is set up before the first allocation; `free` is the memory malloc will return for the list. */
    constructor (g: Geometry, free: array<Entry>)
      requires Fits(g) && free.Length == g.capacity
      ensures Valid() && this.g == g && this.free == free && !initialized
    {
      this.g, this.free, mem, last, initialized := g, free, map[], NULL, false;
    }

    method InsertFreeList(a: nat, size: nat) returns (r: int)
      modifies free
      ensures free[..] == InsertEntry(old(free[..]), a, size)
      ensures r == if Find(old(free[..]), NULL) < free.Length then 0 else -1
    {
      var i := 0;
      while i < free.Length
        invariant 0 <= i <= free.Length && free[..] == old(free[..])
        invariant Find(free[..], NULL, i) == Find(free[..], NULL)
      {
        if free[i].addr == NULL {
          free[i] := Entry(a, U32(size));
          return 0;
        }
        i := i + 1;
      }
      return -1;
    }

    method RemoveFromFreeList(a: nat) returns (r: int)
      modifies free
      ensures free[..] == RemoveEntry(old(free[..]), a)
      ensures r == if Find(old(free[..]), a) < free.Length then 0 else -1
    {
      var i := 0;
      while i < free.Length
        invariant 0 <= i <= free.Length && free[..] == old(free[..])
        invariant Find(free[..], a, i) == Find(free[..], a)
      {
        if free[i].addr == a {
          free[i] := Entry(NULL, 0);
          return 0;
        }
        i := i + 1;
      }
      return -1;
    }

    /** The branch for type 1, the only one in use. */
    method UpdateFreeList(a: nat, pred: nat, size: nat)
      modifies free
      ensures free[..] == MergeEntries(old(free[..]), pred, a, size)
    {
      var j := 0;
      while j < free.Length && free[j].addr != pred
        invariant 0 <= j <= free.Length && Find(free[..], pred, j) == Find(free[..], pred)
      {
        j := j + 1;
      }
      if j < free.Length {
        free[j] := Entry(free[j].addr, U32(size));
      }
      assert free[..] == ResizeEntry(old(free[..]), pred, size);
      ghost var resized := free[..];
      var i := 0;
      while i < free.Length && free[i].addr != a
        invariant 0 <= i <= free.Length && Find(resized, a, i) == Find(resized, a)
      {
        i := i + 1;
      }
      if i < free.Length {
        free[i] := Entry(NULL, free[i].size);
      }
    }

    method Initialize()
      requires Valid() && !initialized
      modifies this, free
      ensures Valid() && initialized && Model() == Start(g, old(Model()))
    {
      var size := U32(g.block - g.header);
      mem := map[g.base := Header(NULL, NULL, true, size)];
      var i := 0;
      while i < g.cleared
        invariant 0 <= i <= g.cleared && mem == map[g.base := Header(NULL, NULL, true, size)]
        invariant forall j | 0 <= j < free.Length :: free[j] == if j < i then Entry(NULL, 0) else old(free[j])
      {
        free[i] := Entry(NULL, 0);
        i := i + 1;
      }
      assert free[..] == Cleared(g, old(free[..]));
      free[0] := Entry(g.base, size);
      assert free[..] == Cleared(g, old(free[..]))[0 := Entry(g.base, size)];
      last := g.base;
      initialized := true;
    }

    /** The links the allocation writes, one field after the other. */
    method LinkBehind(p: nat, q: nat, size: nat)
      requires Sane(g, Model()) && p == last && q == p + g.header + size
      modifies this`mem
      ensures mem == Split(g, old(Model()), size).mem
    {
      var next := mem[p].succ;
      mem := mem[q := Header(next, p, true, U32(mem[p].size - g.header - size))];
      if next != NULL {
        mem := mem[next := mem[next].(prev := q)];
      }
      mem := mem[p := mem[p].(succ := q)];
      mem := mem[p := mem[p].(size := size)];
      mem := mem[p := mem[p].(isFree := false)];
    }

    method Metalloc(size: nat) returns (r: nat)
      requires Valid()
      modifies this, free
      ensures (Model(), r) == MetallocModel.Metalloc(g, old(Model()), size)
    {
      if !initialized {
        Initialize();
      }
      ghost var s := Model();
      var p := last;
      var q := p + g.header + size;
      var left := U32(mem[p].size - g.header - size);
      LinkBehind(p, q, size);
      last := q;
      var _ := RemoveFromFreeList(p);
      var _ := InsertFreeList(q, left);
      assert Model() == Split(g, s, size);
      r := p + g.header;
    }

    /** The release of header `x`: into a free predecessor, or by marking. */
    method ReleaseAt(x: nat)
      requires Linked(mem) && x in mem
      modifies this`mem, free
      ensures Model() == Release(g, old(Model()), x)
    {
      var pred := mem[x].prev;
      if pred != NULL && mem[pred].isFree {
        mem := mem[pred := mem[pred].(size := U32(mem[pred].size + g.header + mem[x].size))];
        var y := mem[x].succ;
        if y != NULL {
          mem := mem[y := mem[y].(prev := pred)];
        }
        UpdateFreeList(x, pred, mem[pred].size);
      } else {
        mem := mem[x := mem[x].(isFree := true)];
        var _ := InsertFreeList(x, mem[x].size);
      }
    }

    method Freealloc(p: nat) returns (code: Code)
      requires Valid()
      modifies this`mem, free
      ensures MetallocModel.Freealloc(g, old(Model()), p) ==
              match code case Returned => Done(Model()) case Warned => NothingYet case Quit => Exit
      ensures !code.Returned? ==> Model() == old(Model())
    {
      if !initialized {
        return Warned;
      }
      var x := Target(g, p);
      var ptr := g.base;
      while ptr != NULL && ptr != x
        invariant Valid() && Model() == old(Model()) && (ptr == NULL || ptr in mem)
        invariant Walk(mem, ptr, x) == Walk(mem, g.base, x)
        decreases if ptr == NULL || ptr >= x then 0 else x - ptr
      {
        if ptr > x {
          return Quit;
        }
        ptr := mem[ptr].succ;
      }
      if ptr == NULL {
        return Quit;
      }
      if mem[ptr].isFree {
        return Quit;
      }
      ReleaseAt(ptr);
      return Returned;
    }
  }
}
