/** HydraDB's side list of free chunks against the headers it is meant to list. */
module MetallocFreeList {
  import opened MetallocModel
  import opened MetallocTiling
  import opened MetallocRuns

  predicate Listed(free: seq<Entry>, a: nat)
  {
    Find(free, a) < |free|
  }

  /** No header is listed twice. */
  predicate Single(free: seq<Entry>)
  {
    forall i, j | 0 <= i < j < |free| && free[i].addr == free[j].addr :: free[i].addr == NULL
  }

  /** What is listed is a free tile with its current size. */
  predicate Correct(mem: map<nat, Header>, ts: seq<nat>, free: seq<Entry>)
  {
    forall i | 0 <= i < |free| && free[i].addr != NULL ::
      free[i].addr in ts && free[i].addr in mem && mem[free[i].addr].isFree && free[i].size == mem[free[i].addr].size
  }

  predicate Sound(mem: map<nat, Header>, last: nat, ts: seq<nat>, free: seq<Entry>)
  {
    Single(free) && Correct(mem, ts, free) && Listed(free, last)
  }

  /** Every free tile is listed. */
  predicate Complete(mem: map<nat, Header>, ts: seq<nat>, free: seq<Entry>)
    requires forall a | a in ts :: a in mem
  {
    forall a | a in ts && mem[a].isFree :: Listed(free, a)
  }

  // ---------------------------------------------------------------- the list operations

  /** Entry `i` is the first one with the address. */
  predicate First(free: seq<Entry>, a: nat, i: int)
  {
    0 <= i < |free| && free[i].addr == a && forall j | 0 <= j < i :: free[j].addr != a
  }

  /** An insertion writes the first unused entry, sizes being 32 bits wide, and a removal empties the first entry of
      its address; nothing else changes, and nothing at all if there is no such entry. */
  lemma EntryWrites(free: seq<Entry>, a: nat, size: nat, i: nat)
    requires i < |free|
    ensures InsertEntry(free, a, size)[i] == if First(free, NULL, i) then Entry(a, size % 0x1_0000_0000) else free[i]
    ensures RemoveEntry(free, a)[i] == if First(free, a, i) then Entry(NULL, 0) else free[i]
  {
  }

  /** A merge writes the size of the first entry of the predecessor and the address of the first entry of the merged
      header, whose size stays. */
  lemma MergeWrites(free: seq<Entry>, pred: nat, a: nat, size: nat, i: nat)
    requires i < |free| && pred != a
    ensures MergeEntries(free, pred, a, size)[i] ==
            if First(free, pred, i) then Entry(pred, size % 0x1_0000_0000)
            else if First(free, a, i) then Entry(NULL, free[i].size)
            else free[i]
  {
    var r := ResizeEntry(free, pred, size);
    assert forall j | 0 <= j < |free| :: r[j].addr == free[j].addr;
  }

  /** The list that the first allocation sets up: the whole block, then zeros as far as they are cleared, then whatever
      malloc returned. */
  lemma StartWrites(g: Geometry, h: Heap, i: nat)
    requires Fits(g) && |h.free| == g.capacity && !h.initialized && i < g.capacity
    ensures Start(g, h).free[i] ==
            if i == 0 then Entry(g.base, g.block - g.header) else if i < g.cleared then Entry(NULL, 0) else h.free[i]
  {
  }

  lemma ListedAt(free: seq<Entry>, a: nat, i: nat)
    requires i < |free| && free[i].addr == a
    ensures Listed(free, a)
  {
  }

  lemma RemoveLists(free: seq<Entry>, p: nat, a: nat)
    requires Single(free) && p != NULL && a != NULL
    ensures Single(RemoveEntry(free, p)) && (Listed(RemoveEntry(free, p), a) <==> Listed(free, a) && a != p)
    ensures Listed(free, p) ==> Listed(RemoveEntry(free, p), NULL)
  {
    var r := RemoveEntry(free, p);
    if Listed(free, a) && a != p { ListedAt(r, a, Find(free, a)); }
    if Listed(r, a) { ListedAt(free, a, Find(r, a)); }
    if Listed(free, p) { ListedAt(r, NULL, Find(free, p)); }
  }

  lemma InsertLists(free: seq<Entry>, q: nat, size: nat, a: nat)
    requires Single(free) && q != NULL && a != NULL && !Listed(free, q)
    ensures Single(InsertEntry(free, q, size))
    ensures Listed(InsertEntry(free, q, size), a) <==> Listed(free, a) || (a == q && Listed(free, NULL))
  {
    var r := InsertEntry(free, q, size);
    if Listed(free, a) { ListedAt(r, a, Find(free, a)); }
    if Listed(r, a) && a != q { ListedAt(free, a, Find(r, a)); }
    if Listed(free, NULL) { ListedAt(r, q, Find(free, NULL)); }
  }

  lemma ResizeLists(free: seq<Entry>, p: nat, size: nat, a: nat)
    requires Single(free)
    ensures Single(ResizeEntry(free, p, size)) && (Listed(ResizeEntry(free, p, size), a) <==> Listed(free, a))
  {
    var r := ResizeEntry(free, p, size);
    if Listed(free, a) { ListedAt(r, a, Find(free, a)); }
    if Listed(r, a) { ListedAt(free, a, Find(r, a)); }
  }

  lemma DropNothing(free: seq<Entry>, a: nat)
    requires forall i | 0 <= i < |free| :: free[i].addr != a
    ensures DropEntry(free, a) == free
  {
  }

  // ---------------------------------------------------------------- allocation

  lemma SplitCorrect(g: Geometry, mem: map<nat, Header>, p: nat, q: nat, size: nat, ts: seq<nat>, free: seq<Entry>,
          z: nat)
    requires Correct(mem, ts, free) && Single(free) && p in mem && q !in mem && g.header + size <= mem[p].size
    requires z == mem[p].size - g.header - size < 0x1_0000_0000
    ensures Correct(SplitMem(g, mem, p, q, size), ts + [q], InsertEntry(RemoveEntry(free, p), q, z))
  {
    var m, r := SplitMem(g, mem, p, q, size), RemoveEntry(free, p);
    forall i | 0 <= i < |r| && r[i].addr != NULL
      ensures r[i].addr in ts + [q] && r[i].addr in m && m[r[i].addr].isFree && r[i].size == m[r[i].addr].size
    {
      assert r[i] == free[i] && free[i].addr != p;
    }
  }

  lemma SplitSound(g: Geometry, mem: map<nat, Header>, p: nat, q: nat, size: nat, ts: seq<nat>, free: seq<Entry>,
          z: nat)
    requires Sound(mem, p, ts, free) && p in mem && q !in mem && p != NULL && q != NULL
    requires g.header + size <= mem[p].size
    requires z == mem[p].size - g.header - size < 0x1_0000_0000
    ensures Sound(SplitMem(g, mem, p, q, size), q, ts + [q], InsertEntry(RemoveEntry(free, p), q, z))
    ensures forall a | a != NULL ::
              Listed(InsertEntry(RemoveEntry(free, p), q, z), a) <==> a == q || (a != p && Listed(free, a))
  {
    var r := RemoveEntry(free, p);
    SplitCorrect(g, mem, p, q, size, ts, free, z);
    RemoveLists(free, p, q);
    forall a | a != NULL ensures Listed(InsertEntry(r, q, z), a) <==> a == q || (a != p && Listed(free, a)) {
      RemoveLists(free, p, a);
      InsertLists(r, q, z, a);
    }
    InsertLists(r, q, z, q);
  }

  lemma SplitComplete(g: Geometry, mem: map<nat, Header>, p: nat, q: nat, size: nat, ts: seq<nat>, free: seq<Entry>,
          z: nat)
    requires Sound(mem, p, ts, free) && p in mem && q !in mem && p != NULL && q != NULL
    requires g.header + size <= mem[p].size
    requires z == mem[p].size - g.header - size < 0x1_0000_0000
    requires (forall a | a in ts :: a in mem && a != NULL) && Complete(mem, ts, free)
    ensures (forall a | a in ts + [q] :: a in SplitMem(g, mem, p, q, size))
    ensures Complete(SplitMem(g, mem, p, q, size), ts + [q], InsertEntry(RemoveEntry(free, p), q, z))
  {
    SplitSound(g, mem, p, q, size, ts, free, z);
    var m := SplitMem(g, mem, p, q, size);
    forall a | a in ts + [q] && m[a].isFree ensures Listed(InsertEntry(RemoveEntry(free, p), q, z), a) {
      if a != q { assert a in ts && a != p && m[a] == mem[a]; }
    }
  }

  // ---------------------------------------------------------------- release into a free predecessor

  lemma MergeIsResize(mem: map<nat, Header>, ts: seq<nat>, free: seq<Entry>, x: nat, pred: nat, size: nat)
    requires Correct(mem, ts, free) && x in mem && !mem[x].isFree && x != NULL
    ensures MergeEntries(free, pred, x, size) == ResizeEntry(free, pred, size)
  {
    var r := ResizeEntry(free, pred, size);
    forall i | 0 <= i < |r| ensures r[i].addr != x {
      assert r[i].addr == free[i].addr;
    }
    DropNothing(r, x);
  }

  lemma MergeSound(g: Geometry, mem: map<nat, Header>, last: nat, ts: seq<nat>, us: seq<nat>, free: seq<Entry>,
          x: nat, pred: nat, y: nat)
    requires Sound(mem, last, ts, free) && x in mem && pred in mem && y in mem && !mem[x].isFree && x != NULL
    requires pred != NULL && y != pred
    requires mem[pred].size + g.header + mem[x].size < 0x1_0000_0000
    requires forall a :: a in us <==> a in ts && a != x
    ensures Sound(MergeMem(g, mem, x, pred, y), last, us,
                  MergeEntries(free, pred, x, mem[pred].size + g.header + mem[x].size))
    ensures forall a ::
              Listed(MergeEntries(free, pred, x, mem[pred].size + g.header + mem[x].size), a) <==> Listed(free, a)
  {
    var size := mem[pred].size + g.header + mem[x].size;
    var m, r := MergeMem(g, mem, x, pred, y), ResizeEntry(free, pred, size);
    MergeIsResize(mem, ts, free, x, pred, size);
    forall a ensures Listed(r, a) <==> Listed(free, a) {
      ResizeLists(free, pred, size, a);
    }
    ResizeLists(free, pred, size, last);
    forall i | 0 <= i < |r| && r[i].addr != NULL
      ensures r[i].addr in us && r[i].addr in m && m[r[i].addr].isFree && r[i].size == m[r[i].addr].size
    {
      ResizedEntry(g, mem, ts, free, x, pred, y, i);
    }
  }

  lemma ResizedEntry(g: Geometry, mem: map<nat, Header>, ts: seq<nat>, free: seq<Entry>, x: nat, pred: nat, y: nat,
          i: nat)
    requires Single(free) && Correct(mem, ts, free) && x in mem && pred in mem && y in mem && !mem[x].isFree
    requires pred != NULL && y != pred
    requires mem[pred].size + g.header + mem[x].size < 0x1_0000_0000 && i < |free| && free[i].addr != NULL
    ensures var m := MergeMem(g, mem, x, pred, y);
            var e := ResizeEntry(free, pred, mem[pred].size + g.header + mem[x].size)[i];
            e.addr == free[i].addr != x && e.addr in ts && e.addr in m && m[e.addr].isFree && e.size == m[e.addr].size
  {
    if free[i].addr == pred {
      assert Find(free, pred) == i;
    }
  }

  // ---------------------------------------------------------------- plain release

  lemma MarkSound(mem: map<nat, Header>, last: nat, ts: seq<nat>, free: seq<Entry>, x: nat)
    requires Sound(mem, last, ts, free) && x in mem && x in ts && !mem[x].isFree && x != NULL && last != NULL
    requires mem[x].size < 0x1_0000_0000
    ensures Sound(mem[x := mem[x].(isFree := true)], last, ts, InsertEntry(free, x, mem[x].size))
    ensures forall a | a != NULL ::
              Listed(InsertEntry(free, x, mem[x].size), a) <==> Listed(free, a) || (a == x && Listed(free, NULL))
    ensures !Listed(free, x)
  {
    forall a | a != NULL
      ensures Listed(InsertEntry(free, x, mem[x].size), a) <==> Listed(free, a) || (a == x && Listed(free, NULL))
    {
      InsertLists(free, x, mem[x].size, a);
    }
    InsertLists(free, x, mem[x].size, last);
  }

  // ---------------------------------------------------------------- heaps

  /** The entries in use are exactly the free tiles, each once and with its current size. */
  ghost predicate Agrees(g: Geometry, h: Heap)
    requires Inv(g, h)
  {
    Sound(h.mem, h.last, Tiles(g, h), h.free) && Complete(h.mem, Tiles(g, h), h.free)
  }

  /** The first allocation starts with a list that agrees exactly when malloc returned zeros beyond the part that the
      initialisation clears. */
  lemma StartAgreesIff(g: Geometry, h: Heap)
    requires Fits(g) && |h.free| == g.capacity && !h.initialized
    ensures Inv(g, Start(g, h))
    ensures Agrees(g, Start(g, h)) <==> forall j | 0 < j < |h.free| && g.cleared <= j :: h.free[j].addr == NULL
  {
    var s := Start(g, h);
    StartTiled(g, h);
    ListedAt(s.free, g.base, 0);
    if Agrees(g, s) {
      forall j | 0 < j < |h.free| && g.cleared <= j ensures h.free[j].addr == NULL {
        assert s.free[j] == h.free[j];
        assert s.free[0].addr == g.base;
      }
    }
  }

  lemma TilesNotNull(g: Geometry, h: Heap)
    requires Inv(g, h)
    ensures forall a | a in Tiles(g, h) :: a in h.mem && a != NULL
  {
  }

  lemma LastSize(g: Geometry, h: Heap)
    requires Inv(g, h)
    ensures h.mem[h.last].size < 0x1_0000_0000
  {
  }

  lemma SplitEntries(g: Geometry, h: Heap, size: nat)
    requires Sane(g, h) && Room(g, h, size) && h.mem[h.last].size < 0x1_0000_0000
    ensures Split(g, h, size).last == h.last + g.header + size
    ensures Split(g, h, size).free ==
            InsertEntry(RemoveEntry(h.free, h.last), h.last + g.header + size, h.mem[h.last].size - g.header - size)
  {
  }

  lemma SplitLists(g: Geometry, mem: map<nat, Header>, p: nat, q: nat, size: nat, ts: seq<nat>, free: seq<Entry>,
          z: nat)
    requires Sound(mem, p, ts, free) && p in mem && q !in mem && p != NULL && q != NULL
    requires g.header + size <= mem[p].size
    requires z == mem[p].size - g.header - size < 0x1_0000_0000
    requires (forall a | a in ts :: a in mem && a != NULL) && Complete(mem, ts, free)
    ensures var m, us, f := SplitMem(g, mem, p, q, size), ts + [q], InsertEntry(RemoveEntry(free, p), q, z);
            (forall a | a in us :: a in m) && Sound(m, q, us, f) && Complete(m, us, f)
  {
    SplitSound(g, mem, p, q, size, ts, free, z);
    SplitComplete(g, mem, p, q, size, ts, free, z);
  }

  lemma SplitAgrees(g: Geometry, h: Heap, size: nat, ts: seq<nat>, q: nat)
    requires Sane(g, h) && Room(g, h, size) && h.mem[h.last].size < 0x1_0000_0000
    requires q == h.last + g.header + size && q !in h.mem && q != NULL && h.last != NULL
    requires forall a | a in ts :: a in h.mem && a != NULL
    requires Sound(h.mem, h.last, ts, h.free) && Complete(h.mem, ts, h.free)
    ensures var m, f := SplitMem(g, h.mem, h.last, q, size), Split(g, h, size).free;
            (forall a | a in ts + [q] :: a in m) && Sound(m, q, ts + [q], f) && Complete(m, ts + [q], f)
  {
    SplitEntries(g, h, size);
    SplitLists(g, h.mem, h.last, q, size, ts, h.free, h.mem[h.last].size - g.header - size);
  }

  lemma AgreesFrom(g: Geometry, h: Heap, m: map<nat, Header>, last: nat, ts: seq<nat>, free: seq<Entry>)
    requires Inv(g, h) && h.mem == m && h.last == last && h.free == free && Tiles(g, h) == ts
    requires (forall a | a in ts :: a in m) && Sound(m, last, ts, free) && Complete(m, ts, free)
    ensures Agrees(g, h)
  {
  }

  lemma SplitAgreesHeap(g: Geometry, h: Heap, size: nat, q: nat)
    requires Inv(g, h) && Room(g, h, size) && Agrees(g, h) && q == h.last + g.header + size && q !in h.mem
    ensures var m, f := SplitMem(g, h.mem, h.last, q, size), Split(g, h, size).free;
            (forall a | a in Tiles(g, h) + [q] :: a in m) && Sound(m, q, Tiles(g, h) + [q], f) &&
            Complete(m, Tiles(g, h) + [q], f)
  {
    TilesNotNull(g, h);
    LastSize(g, h);
    SplitAgrees(g, h, size, Tiles(g, h), q);
  }

  /** An allocation always finds room in the list, for it frees an entry first. */
  lemma AllocationAgrees(g: Geometry, h: Heap, size: nat)
    requires Inv(g, h) && Room(g, h, size) && Agrees(g, h)
    ensures Inv(g, Split(g, h, size)) && Agrees(g, Split(g, h, size))
  {
    var q, t := h.last + g.header + size, Split(g, h, size);
    SplitTiled(g, h, size);
    SplitAgreesHeap(g, h, size, q);
    AgreesFrom(g, t, SplitMem(g, h.mem, h.last, q, size), q, Tiles(g, h) + [q], t.free);
  }

  /** A release into a free predecessor resizes its entry. */
  lemma MergeAgrees(g: Geometry, h: Heap, k: nat)
    requires Inv(g, h) && Mergeable(g, h.mem, h.last, Tiles(g, h), k) && Agrees(g, h)
    ensures var ts := Tiles(g, h); var t := Merge(g, h, ts[k], ts[k - 1]); Inv(g, t) && Agrees(g, t)
  {
    var ts := Tiles(g, h);
    var x, pred, y := ts[k], ts[k - 1], ts[k + 1];
    var t := Merge(g, h, x, pred);
    MergeTiled(g, h, k);
    MergeIs(g, h, ts, k);
    WithoutLacks(h.mem, h.last, ts, k);
    ChainIncreases(h.mem, h.last, ts, k - 1, k + 1);
    MergeLists(g, h.mem, h.last, ts, Without(ts, k), h.free, x, pred, y);
  }

  lemma MergeLists(g: Geometry, mem: map<nat, Header>, last: nat, ts: seq<nat>, us: seq<nat>, free: seq<Entry>,
          x: nat, pred: nat, y: nat)
    requires Sound(mem, last, ts, free) && (forall a | a in ts :: a in mem) && Complete(mem, ts, free)
    requires x in mem && pred in mem && y in mem && !mem[x].isFree && x != NULL && pred != NULL && y != pred
    requires mem[pred].size + g.header + mem[x].size < 0x1_0000_0000
    requires forall a :: a in us <==> a in ts && a != x
    ensures var m := MergeMem(g, mem, x, pred, y);
            var f := MergeEntries(free, pred, x, mem[pred].size + g.header + mem[x].size);
            (forall a | a in us :: a in m) && Sound(m, last, us, f) && Complete(m, us, f)
  {
    MergeSound(g, mem, last, ts, us, free, x, pred, y);
    var m := MergeMem(g, mem, x, pred, y);
    assert forall a | a in us :: m[a].isFree == mem[a].isFree;
  }

  /** A plain release adds an entry; the list goes on agreeing exactly when there was an unused one. */
  lemma MarkAgreesIff(g: Geometry, h: Heap, x: nat)
    requires Inv(g, h) && x in Blocks(g, h) && Agrees(g, h)
    ensures x in h.mem && Inv(g, Mark(h, x)) && (Agrees(g, Mark(h, x)) <==> Listed(h.free, NULL))
  {
    var ts := Tiles(g, h);
    MarkTiled(g, h, x);
    TilesNotNull(g, h);
    MarkLists(h.mem, h.last, ts, h.free, x);
  }

  lemma MarkLists(mem: map<nat, Header>, last: nat, ts: seq<nat>, free: seq<Entry>, x: nat)
    requires Sound(mem, last, ts, free) && (forall a | a in ts :: a in mem && a != NULL) && Complete(mem, ts, free)
    requires x in ts && !mem[x].isFree && mem[x].size < 0x1_0000_0000 && last != NULL
    ensures var m, f := mem[x := mem[x].(isFree := true)], InsertEntry(free, x, mem[x].size);
            Sound(m, last, ts, f) && (Complete(m, ts, f) <==> Listed(free, NULL))
  {
    MarkSound(mem, last, ts, free, x);
    var m, f := mem[x := mem[x].(isFree := true)], InsertEntry(free, x, mem[x].size);
    if Complete(m, ts, f) {
      assert Listed(f, x);
    }
  }

  /** A release keeps the list in agreement exactly when it merges or the list has an unused entry. */
  lemma ReleaseAgreesIff(g: Geometry, h: Heap, x: nat)
    requires Inv(g, h) && x in Blocks(g, h) && Agrees(g, h)
    ensures x in h.mem && Inv(g, Release(g, h, x))
    ensures var pred := h.mem[x].prev;
            Agrees(g, Release(g, h, x)) <==>
            (pred != NULL && pred in h.mem && h.mem[pred].isFree) || Listed(h.free, NULL)
  {
    var ts := Tiles(g, h);
    var k := BlockTile(g, h.mem, h.last, ts, x);
    if k > 0 && h.mem[ts[k - 1]].isFree {
      MergeAgrees(g, h, k);
    } else {
      MarkAgreesIff(g, h, x);
    }
  }

  // ---------------------------------------------------------------- whole runs

  /** Before the first allocation: what malloc will return is clean.  Afterwards: the list agrees. */
  ghost predicate Listing(g: Geometry, h: Heap, live: map<nat, nat>)
    requires Ledgered(g, h, live)
  {
    if h.initialized then Agrees(g, h) else forall j | 0 < j < |h.free| && g.cleared <= j :: h.free[j].addr == NULL
  }

  lemma ExecLists(g: Geometry, h: Heap, live: map<nat, nat>, op: Op)
    requires Ledgered(g, h, live) && Allowed(g, h, live, op) && Listing(g, h, live)
    requires op.Free? ==> Listed(h.free, NULL)
    ensures Ledgered(g, Exec(g, h, live, op), Spec(g, h, live, op))
    ensures Listing(g, Exec(g, h, live, op), Spec(g, h, live, op))
  {
    ExecRefines(g, h, live, op);
    match op {
      case Allocate(size) =>
        StartLedgered(g, h, live);
        if !h.initialized { StartAgreesIff(g, h); }
        AllocationAgrees(g, Start(g, h), size);
      case Free(p) =>
        FreeallocIs(g, h, p);
        ReleaseAgreesIff(g, h, Target(g, p));
    }
  }

  /** Over every run in which each release meets a list with an unused entry, the list names exactly the free tiles,
      each once and with its current size. */
  lemma {:induction false} RunLists(g: Geometry, heaps: seq<Heap>, ledgers: seq<map<nat, nat>>, ops: seq<Op>, n: nat)
    requires Run(g, heaps, ledgers, ops) && Ledgered(g, heaps[0], ledgers[0]) && Listing(g, heaps[0], ledgers[0])
    requires forall i | 0 <= i < |ops| && ops[i].Free? :: Listed(heaps[i].free, NULL)
    requires n <= |ops|
    ensures Ledgered(g, heaps[n], ledgers[n]) && Listing(g, heaps[n], ledgers[n])
  {
    if n > 0 {
      RunLists(g, heaps, ledgers, ops, n - 1);
      assert Step(g, heaps[n - 1], ledgers[n - 1], ops[n - 1], heaps[n], ledgers[n]);
      ExecLists(g, heaps[n - 1], ledgers[n - 1], ops[n - 1]);
    }
  }
}
