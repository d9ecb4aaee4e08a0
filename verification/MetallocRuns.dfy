/** Runs of HydraDB's allocator against a ledger of the chunks in use, and the releases it cannot cope with. */
module MetallocRuns {
  import opened MetallocModel
  import opened MetallocTiling

  // ---------------------------------------------------------------- the ledger

  /** The tiles in use, and their sizes. */
  function BlocksOf(mem: map<nat, Header>, ts: seq<nat>): map<nat, nat>
    requires forall a | a in ts :: a in mem
  {
    map a | a in ts && !mem[a].isFree :: mem[a].size
  }

  /** The chunks in use: their headers and sizes. */
  ghost function Blocks(g: Geometry, h: Heap): map<nat, nat>
    requires Inv(g, h)
  {
    BlocksOf(h.mem, Tiles(g, h))
  }

  /** Headers and chunks together. */
  function Total(g: Geometry, mem: map<nat, Header>, ts: seq<nat>): nat
    requires forall i | 0 <= i < |ts| :: ts[i] in mem
  {
    if ts == [] then 0 else Total(g, mem, ts[..|ts| - 1]) + g.header + mem[ts[|ts| - 1]].size
  }

  lemma {:induction false} TotalUpTo(g: Geometry, mem: map<nat, Header>, last: nat, ts: seq<nat>, n: nat)
    requires IsChain(mem, last, ts) && Adjacent(g, mem, ts) && 0 < n <= |ts|
    ensures g.base + Total(g, mem, ts[..n]) == End(g, mem, ts[n - 1])
  {
    assert ts[..n][..n - 1] == ts[..n - 1];
    if n > 1 {
      TotalUpTo(g, mem, last, ts, n - 1);
      assert End(g, mem, ts[n - 2]) == ts[n - 1];
    } else {
      assert ts[..0] == [];
    }
  }

  /** The sizes of all tiles and their headers add up to the block. */
  lemma TotalIsBlock(g: Geometry, h: Heap)
    requires Inv(g, h)
    ensures Total(g, h.mem, Tiles(g, h)) == g.block
  {
    var ts := Tiles(g, h);
    TotalUpTo(g, h.mem, h.last, ts, |ts|);
    assert ts[..|ts|] == ts;
  }

  lemma {:induction false} TilesApart(g: Geometry, mem: map<nat, Header>, last: nat, ts: seq<nat>, i: nat, j: nat)
    requires Tiled(g, mem, last, ts) && i < j < |ts|
    ensures End(g, mem, ts[i]) <= ts[j]
    decreases j
  {
    assert End(g, mem, ts[j - 1]) == ts[j];
    if i < j - 1 {
      TilesApart(g, mem, last, ts, i, j - 1);
    }
  }

  lemma TilesDisjointAt(g: Geometry, mem: map<nat, Header>, last: nat, ts: seq<nat>, i: nat, j: nat)
    requires Tiled(g, mem, last, ts) && i < |ts| && j < |ts| && i != j
    ensures g.base <= ts[i] && End(g, mem, ts[i]) <= g.base + g.block
    ensures End(g, mem, ts[i]) <= ts[j] || End(g, mem, ts[j]) <= ts[i]
  {
    TileInside(g, mem, last, ts, i);
    if i < j {
      TilesApart(g, mem, last, ts, i, j);
    } else {
      TilesApart(g, mem, last, ts, j, i);
    }
  }

  lemma TilesDisjoint(g: Geometry, mem: map<nat, Header>, last: nat, ts: seq<nat>, a: nat, b: nat)
    requires Tiled(g, mem, last, ts) && a in ts && b in ts && a != b
    ensures a in mem && b in mem
    ensures g.base <= a && End(g, mem, a) <= g.base + g.block && (End(g, mem, a) <= b || End(g, mem, b) <= a)
  {
    var i, j := IndexOf(ts, a), IndexOf(ts, b);
    TilesDisjointAt(g, mem, last, ts, i, j);
  }

  /** The first place of an address among the tiles. */
  function IndexOf(ts: seq<nat>, a: nat): (i: nat)
    requires a in ts
    ensures i < |ts| && ts[i] == a
  {
    if ts[0] == a then 0 else 1 + IndexOf(ts[1..], a)
  }

  /** Chunks in use lie inside the block and do not overlap each other or a header. */
  lemma BlocksDisjoint(g: Geometry, h: Heap, a: nat, b: nat)
    requires Inv(g, h) && a in Blocks(g, h) && b in Tiles(g, h) && a != b
    ensures g.base <= a && a + g.header + Blocks(g, h)[a] <= g.base + g.block
    ensures a + g.header + Blocks(g, h)[a] <= b || b + g.header + h.mem[b].size <= a
  {
    TilesDisjoint(g, h.mem, h.last, Tiles(g, h), a, b);
  }

  lemma {:induction false} TileAround(g: Geometry, mem: map<nat, Header>, last: nat, ts: seq<nat>, x: nat, i: nat)
    returns (k: nat)
    requires IsChain(mem, last, ts) && Adjacent(g, mem, ts) && x !in ts && i < |ts| && ts[i] <= x <= last
    ensures k < |ts| - 1 && ts[k] < x < ts[k + 1] == End(g, mem, ts[k])
    decreases |ts| - i
  {
    assert ts[i] != x && ts[|ts| - 1] == last;
    if ts[i + 1] <= x {
      k := TileAround(g, mem, last, ts, x, i + 1);
    } else {
      assert End(g, mem, ts[i]) == ts[i + 1];
      k := i;
    }
  }

  lemma LiveTileEmpty(mem: map<nat, Header>, base: nat, a: nat, x: nat, b: nat)
    requires Ordered(mem, base) && a in mem && x in mem && a < x < b
    ensures mem[a].succ != b
  {
  }

  /** A header that is no tile lies inside the chunk of a free tile. */
  lemma SwallowedInside(g: Geometry, mem: map<nat, Header>, last: nat, ts: seq<nat>, x: nat) returns (k: nat)
    requires Tiled(g, mem, last, ts) && x in mem && x !in ts
    ensures k < |ts| && mem[ts[k]].isFree && ts[k] < x < End(g, mem, ts[k])
  {
    LastHighest(mem, g.base, last, x);
    k := TileAround(g, mem, last, ts, x, 0);
    LiveTileEmpty(mem, g.base, ts[k], x, ts[k + 1]);
  }

  lemma SplitBlocks(g: Geometry, mem: map<nat, Header>, p: nat, q: nat, size: nat, ts: seq<nat>)
    requires (forall a | a in ts :: a in mem) && p in ts && q !in mem && g.header + size <= mem[p].size
    ensures BlocksOf(SplitMem(g, mem, p, q, size), ts + [q]) == BlocksOf(mem, ts)[p := size]
  {
    var m := SplitMem(g, mem, p, q, size);
    assert m[q].isFree && m[p] == Header(q, mem[p].prev, false, size);
    assert forall a | a in ts && a != p :: m[a] == mem[a];
  }

  lemma SplitLedger(g: Geometry, mem: map<nat, Header>, p: nat, q: nat, size: nat, ts: seq<nat>, m: map<nat, Header>,
          us: seq<nat>)
    requires (forall a | a in ts :: a in mem) && p in ts && q !in mem && g.header + size <= mem[p].size && mem[p].isFree
    requires m == SplitMem(g, mem, p, q, size) && us == ts + [q]
    ensures (forall a | a in us :: a in m) && p !in BlocksOf(mem, ts) && BlocksOf(m, us) == BlocksOf(mem, ts)[p := size]
  {
    SplitBlocks(g, mem, p, q, size, ts);
  }

  lemma LastIsTile(g: Geometry, h: Heap)
    requires Inv(g, h)
    ensures h.last in Tiles(g, h) && h.mem[h.last].isFree
  {
    var ts := Tiles(g, h);
    assert ts[|ts| - 1] == h.last;
  }

  /** An allocation with room enters the former last header, which was not in use, into the ledger. */
  lemma AllocationRefines(g: Geometry, h: Heap, size: nat)
    requires Inv(g, h) && Room(g, h, size)
    ensures Inv(g, Split(g, h, size))
    ensures h.last !in Blocks(g, h) && Blocks(g, Split(g, h, size)) == Blocks(g, h)[h.last := size]
  {
    var ts, q := Tiles(g, h), h.last + g.header + size;
    SplitTiled(g, h, size);
    LastIsTile(g, h);
    SplitLedger(g, h.mem, h.last, q, size, ts, Split(g, h, size).mem, ts + [q]);
  }

  /** The place of a chunk in use among the tiles. */
  lemma BlockTile(g: Geometry, mem: map<nat, Header>, last: nat, ts: seq<nat>, x: nat) returns (k: nat)
    requires Linked(mem) && IsChain(mem, last, ts) && LiveNext(mem, ts) && mem[last].isFree && x in BlocksOf(mem, ts)
    ensures k < |ts| - 1 && ts[k] == x && mem[x].succ == ts[k + 1]
    ensures mem[x].prev == if k == 0 then NULL else ts[k - 1]
  {
    k :| 0 <= k < |ts| && ts[k] == x;
    assert ts[|ts| - 1] == last;
    assert mem[ts[k]].prev == mem[x].prev;
  }

  lemma MergeBlocks(g: Geometry, mem: map<nat, Header>, ts: seq<nat>, us: seq<nat>, x: nat, pred: nat, y: nat)
    requires (forall a | a in ts :: a in mem) && x in mem && pred in mem && y in mem && mem[pred].isFree
    requires forall a :: a in us <==> a in ts && a != x
    ensures BlocksOf(MergeMem(g, mem, x, pred, y), us) == BlocksOf(mem, ts) - {x}
  {
    var m := MergeMem(g, mem, x, pred, y);
    forall a | a in us ensures m[a].isFree == mem[a].isFree && (!mem[a].isFree ==> m[a].size == mem[a].size) {
      MergeUsed(g, mem, x, pred, y, a);
    }
  }

  lemma MergeUsed(g: Geometry, mem: map<nat, Header>, x: nat, pred: nat, y: nat, a: nat)
    requires x in mem && pred in mem && y in mem && a in mem && mem[pred].isFree
    ensures var m := MergeMem(g, mem, x, pred, y);
            m[a].isFree == mem[a].isFree && (!mem[a].isFree ==> m[a].size == mem[a].size)
  {
  }

  lemma WithoutLacks(mem: map<nat, Header>, last: nat, ts: seq<nat>, k: nat)
    requires Linked(mem) && IsChain(mem, last, ts) && k < |ts|
    ensures forall a :: a in Without(ts, k) <==> a in ts && a != ts[k]
  {
    WithoutHas(ts, k);
    var us := Without(ts, k);
    forall i | 0 <= i < |us| ensures us[i] != ts[k] && us[i] in ts {
      var j := if i < k then i else i + 1;
      if ts[j] == ts[k] { ChainDistinct(mem, last, ts, j, k); }
    }
  }

  lemma MarkBlocks(mem: map<nat, Header>, ts: seq<nat>, x: nat)
    requires (forall a | a in ts :: a in mem) && x in mem
    ensures BlocksOf(mem[x := mem[x].(isFree := true)], ts) == BlocksOf(mem, ts) - {x}
  {
  }

  lemma ReleaseMerges(g: Geometry, h: Heap, k: nat)
    requires Inv(g, h) && Mergeable(g, h.mem, h.last, Tiles(g, h), k)
    ensures var ts := Tiles(g, h); var t := Merge(g, h, ts[k], ts[k - 1]);
            Inv(g, t) && Blocks(g, t) == Blocks(g, h) - {ts[k]}
  {
    var ts := Tiles(g, h);
    MergeTiled(g, h, k);
    WithoutLacks(h.mem, h.last, ts, k);
    MergeBlocks(g, h.mem, ts, Without(ts, k), ts[k], ts[k - 1], ts[k + 1]);
  }

  lemma ReleaseMarks(g: Geometry, h: Heap, x: nat)
    requires Inv(g, h) && x in Blocks(g, h)
    ensures x in h.mem && Inv(g, Mark(h, x)) && Blocks(g, Mark(h, x)) == Blocks(g, h) - {x}
  {
    MarkTiled(g, h, x);
    MarkBlocks(h.mem, Tiles(g, h), x);
  }

  lemma FreeallocIs(g: Geometry, h: Heap, p: nat)
    requires Sane(g, h) && h.initialized && Ordered(h.mem, g.base)
    ensures var x := Target(g, p);
            Freealloc(g, h, p) == if x !in h.mem || h.mem[x].isFree then Exit else Done(Release(g, h, x))
  {
    WalkFindsHeaders(h.mem, g.base, Target(g, p));
  }

  /** A release of a chunk in use strikes it off the ledger, merging or not. */
  lemma ReleaseRefines(g: Geometry, h: Heap, x: nat)
    requires Inv(g, h) && x in Blocks(g, h)
    ensures x in h.mem && !h.mem[x].isFree
    ensures Inv(g, Release(g, h, x)) && Blocks(g, Release(g, h, x)) == Blocks(g, h) - {x}
  {
    var ts := Tiles(g, h);
    var k := BlockTile(g, h.mem, h.last, ts, x);
    if k > 0 && h.mem[ts[k - 1]].isFree {
      ReleaseMerges(g, h, k);
    } else {
      ReleaseMarks(g, h, x);
    }
  }

  // ---------------------------------------------------------------- releases of anything else

  /** A header that is no tile points to the tile that swallowed it. */
  lemma SwallowedPrev(g: Geometry, h: Heap, x: nat) returns (k: nat)
    requires Inv(g, h) && x in h.mem && x !in Tiles(g, h)
    ensures var ts := Tiles(g, h); var y := h.mem[x].succ;
            && !h.mem[x].isFree && k < |ts| - 1 && h.mem[x].prev == ts[k] != NULL
            && ts[k] in h.mem && h.mem[ts[k]].isFree
            && y != NULL && y in h.mem && h.mem[y].prev == ts[k]
  {
    var ts := Tiles(g, h);
    assert h.mem[x].succ != NULL;
    k :| 0 <= k < |ts| && ts[k] == h.mem[x].prev;
    LastHighest(h.mem, g.base, h.last, x);
  }

  /** Growing a tile leaves the chain as it is but breaks the tiling. */
  lemma GrownBreaks(g: Geometry, mem: map<nat, Header>, last: nat, ts: seq<nat>, k: nat, size: nat)
    requires Linked(mem) && IsChain(mem, last, ts) && Adjacent(g, mem, ts) && k < |ts| - 1 && size != mem[ts[k]].size
    ensures var m := mem[ts[k] := mem[ts[k]].(size := size)];
            Linked(m) && last in m && Chain(m, last) == ts && !Tiled(g, m, last, ts)
  {
    var m := mem[ts[k] := mem[ts[k]].(size := size)];
    assert IsChain(m, last, ts) by {
      forall i | 0 < i < |ts| ensures m[ts[i]].prev == ts[i - 1] {
        assert mem[ts[i]].prev == ts[i - 1];
      }
    }
    ChainUnique(m, last, ts);
    assert End(g, mem, ts[k]) == ts[k + 1];
    assert End(g, m, ts[k]) != ts[k + 1];
  }

  lemma GrownSize(g: Geometry, a: nat, b: nat)
    requires Fits(g) && g.header + a <= g.block && g.header + b <= g.block
    ensures U32(a + g.header + b) != a
  {
    var s := a + g.header + b;
    if s >= 0x1_0000_0000 {
      assert U32(s) == s - 0x1_0000_0000;
    }
  }

  /** freealloc lets a second release of a swallowed header pass, and that breaks the tiling. */
  lemma SwallowedReleaseBreaks(g: Geometry, h: Heap, x: nat)
    requires Inv(g, h) && x in h.mem && x !in Tiles(g, h)
    ensures !h.mem[x].isFree && !Inv(g, Release(g, h, x))
  {
    var ts := Tiles(g, h);
    var k := SwallowedPrev(g, h, x);
    var pred, y := ts[k], h.mem[x].succ;
    var size := U32(h.mem[pred].size + g.header + h.mem[x].size);
    GrownSize(g, h.mem[pred].size, h.mem[x].size);
    GrownBreaks(g, h.mem, h.last, ts, k, size);
    MergeAgain(g, h, x, pred, y, size);
  }

  lemma MergeAgain(g: Geometry, h: Heap, x: nat, pred: nat, y: nat, size: nat)
    requires Linked(h.mem) && x in h.mem && pred in h.mem && y in h.mem && x != pred && y != NULL
    requires h.mem[x].prev == pred != NULL && h.mem[pred].isFree && h.mem[x].succ == y && h.mem[y].prev == pred
    requires size == U32(h.mem[pred].size + g.header + h.mem[x].size)
    ensures Release(g, h, x).mem == h.mem[pred := h.mem[pred].(size := size)] && Release(g, h, x).last == h.last
  {
    var m1 := h.mem[pred := h.mem[pred].(size := size)];
    assert m1[y := m1[y].(prev := pred)] == m1;
  }

  /** freealloc of any pointer either ends the process, or keeps the tiling, or breaks it: it ends the process for
      pointers to no header and for headers marked as free; it keeps the tiling exactly for chunks in use. */
  lemma FreeallocKeepsIff(g: Geometry, h: Heap, p: nat)
    requires Inv(g, h)
    ensures var x, r := Target(g, p), Freealloc(g, h, p);
            && (r.Exit? <==> x !in h.mem || h.mem[x].isFree)
            && (r.Done? && Inv(g, r.heap) <==> x in Blocks(g, h))
            && (r.Done? && !Inv(g, r.heap) <==> x in h.mem && x !in Tiles(g, h))
  {
    var x := Target(g, p);
    FreeallocIs(g, h, p);
    if x in Blocks(g, h) {
      ReleaseRefines(g, h, x);
    } else if x in h.mem && x !in Tiles(g, h) {
      SwallowedReleaseBreaks(g, h, x);
    }
  }

  lemma HeadersBelow(g: Geometry, h: Heap, x: nat)
    requires Inv(g, h) && x in h.mem
    ensures g.base <= x && x + g.header <= g.base + g.block
  {
    var ts := Tiles(g, h);
    assert x <= h.last;
    assert h.last == ts[|ts| - 1] && End(g, h.mem, ts[|ts| - 1]) == g.base + g.block;
  }

  /** Of the pointers below the size of a header, none can lead to one, though their targets wrap around. */
  lemma TargetIff(g: Geometry, h: Heap, p: nat, x: nat)
    requires Inv(g, h) && g.base + g.block < 0x1_0000_0000_0000_0000 && x in h.mem
    ensures Target(g, p) == x <==> p == x + g.header
  {
    HeadersBelow(g, h, x);
    if p < g.header {
      assert Target(g, p) == p - g.header + 0x1_0000_0000_0000_0000;
    }
  }

  lemma PointerIff(g: Geometry, h: Heap, p: nat)
    requires Inv(g, h) && g.base + g.block < 0x1_0000_0000_0000_0000
    ensures var x := Target(g, p);
            && (x in h.mem <==> p >= g.header && p - g.header in h.mem)
            && (x in h.mem ==> x == p - g.header)
  {
    var x := Target(g, p);
    if x in h.mem { TargetIff(g, h, p, x); }
    if p >= g.header && p - g.header in h.mem { TargetIff(g, h, p, p - g.header); }
  }

  lemma NothingYetIff(g: Geometry, h: Heap, p: nat)
    requires h.initialized ==> Sane(g, h)
    ensures Freealloc(g, h, p).NothingYet? <==> !h.initialized
  {
  }

  lemma InvSane(g: Geometry, h: Heap)
    requires Inv(g, h)
    ensures Sane(g, h)
  {
  }

  lemma BlocksInMem(g: Geometry, h: Heap, x: nat)
    requires Inv(g, h) && x in Blocks(g, h)
    ensures x in h.mem
  {
  }

  /** The same in terms of the pointer: before the first allocation freealloc says so and does nothing; after it, it
      goes through exactly for pointers one header behind a header that is not marked as free, and keeps the tiling
      exactly for those that were handed out and not released. */
  lemma FreeallocByPointer(g: Geometry, h: Heap, p: nat)
    requires h.initialized ==> Inv(g, h) && g.base + g.block < 0x1_0000_0000_0000_0000
    ensures Freealloc(g, h, p).NothingYet? <==> !h.initialized
    ensures h.initialized ==>
              var r := Freealloc(g, h, p);
              && (r.Done? <==> p >= g.header && p - g.header in h.mem && !h.mem[p - g.header].isFree)
              && (r.Done? && Inv(g, r.heap) <==> p >= g.header && p - g.header in Blocks(g, h))
  {
    hide *;
    if h.initialized { InvSane(g, h); }
    NothingYetIff(g, h, p);
    if h.initialized {
      var x := Target(g, p);
      FreeallocKeepsIff(g, h, p);
      PointerIff(g, h, p);
      if x in Blocks(g, h) { BlocksInMem(g, h, x); }
      if p >= g.header && p - g.header in Blocks(g, h) { BlocksInMem(g, h, p - g.header); }
    }
  }

  lemma ReleaseFlag(g: Geometry, h: Heap, x: nat)
    requires Linked(h.mem) && x in h.mem && !h.mem[x].isFree
    ensures x in Release(g, h, x).mem
    ensures Release(g, h, x).mem[x].isFree <==>
            h.mem[x].prev == NULL || (h.mem[x].prev in h.mem && !h.mem[h.mem[x].prev].isFree)
  {
  }

  /** A second release of the same pointer is noticed exactly when the first one was not a merge. */
  lemma SecondReleaseNoticed(g: Geometry, h: Heap, p: nat)
    requires Inv(g, h) && Target(g, p) in Blocks(g, h)
    ensures var x := Target(g, p);
            && x in h.mem && Freealloc(g, h, p) == Done(Release(g, h, x)) && Inv(g, Release(g, h, x))
            && (Freealloc(g, Release(g, h, x), p).Exit? <==>
                  h.mem[x].prev == NULL || (h.mem[x].prev in h.mem && !h.mem[h.mem[x].prev].isFree))
  {
    var x := Target(g, p);
    FreeallocIs(g, h, p);
    ReleaseRefines(g, h, x);
    FreeallocIs(g, Release(g, h, x), p);
    ReleaseFlag(g, h, x);
  }

  /** Without room metalloc goes ahead all the same; then, and only then, the tiling breaks. */
  lemma AllocationKeepsIff(g: Geometry, h: Heap, size: nat)
    requires Inv(g, h) && size < 0x1_0000_0000
    ensures Inv(g, Split(g, h, size)) <==> Room(g, h, size)
  {
    if Room(g, h, size) {
      AllocationRefines(g, h, size);
    } else {
      var p, q := h.last, h.last + g.header + size;
      LastEnd(g, h);
      LastHigher(g, h, q);
      var t := Split(g, h, size);
      if Inv(g, t) {
        LastEnd(g, t);
      }
    }
  }

  lemma LastEnd(g: Geometry, h: Heap)
    requires Inv(g, h)
    ensures h.last in h.mem && End(g, h.mem, h.last) == g.base + g.block
  {
    var ts := Tiles(g, h);
    assert ts[|ts| - 1] == h.last;
  }

  lemma LastHigher(g: Geometry, h: Heap, q: nat)
    requires Inv(g, h) && q > h.last
    ensures q !in h.mem && h.mem[h.last].succ == NULL
  {
    if q in h.mem {
      LastHighest(h.mem, g.base, h.last, q);
    }
  }

  // ---------------------------------------------------------------- whole runs

  datatype Op = Allocate(size: nat) | Free(p: nat)

  /** The heap is tiled and the ledger lists the chunks in use; before the first allocation there are none. */
  ghost predicate Ledgered(g: Geometry, h: Heap, live: map<nat, nat>)
  {
    && Fits(g) && |h.free| == g.capacity
    && (h.initialized ==> Inv(g, h) && live == Blocks(g, h))
    && (!h.initialized ==> live == map[])
  }

  /** Enough space, and no release of anything but a chunk in use. */
  ghost predicate Allowed(g: Geometry, h: Heap, live: map<nat, nat>, op: Op)
    requires Ledgered(g, h, live)
  {
    match op
    case Allocate(size) => Room(g, Start(g, h), size)
    case Free(p) => Target(g, p) in live
  }

  ghost function Exec(g: Geometry, h: Heap, live: map<nat, nat>, op: Op): Heap
    requires Ledgered(g, h, live) && Allowed(g, h, live, op)
  {
    match op
    case Allocate(size) => Metalloc(g, h, size).0
    case Free(p) => var r := Freealloc(g, h, p); if r.Done? then r.heap else h
  }

  /** What the operation does to the ledger, in terms of the pointers the caller sees. */
  ghost function Spec(g: Geometry, h: Heap, live: map<nat, nat>, op: Op): map<nat, nat>
    requires Ledgered(g, h, live) && Allowed(g, h, live, op)
  {
    match op
    case Allocate(size) => live[Target(g, Metalloc(g, h, size).1) := size]
    case Free(p) => live - {Target(g, p)}
  }

  lemma StartLedgered(g: Geometry, h: Heap, live: map<nat, nat>)
    requires Ledgered(g, h, live)
    ensures Inv(g, Start(g, h)) && Blocks(g, Start(g, h)) == live
  {
    if !h.initialized {
      StartTiled(g, h);
    }
  }

  lemma TargetBack(g: Geometry, a: nat)
    ensures Target(g, a + g.header) == a
  {
  }

  lemma StartedAllocates(g: Geometry, s: Heap, live: map<nat, nat>, size: nat)
    requires Inv(g, s) && live == Blocks(g, s) && Room(g, s, size)
    ensures Ledgered(g, Split(g, s, size), live[s.last := size]) && Split(g, s, size).initialized
    ensures Split(g, s, size).last == s.last + g.header + size
  {
    AllocationRefines(g, s, size);
  }

  lemma AllocateRefines(g: Geometry, h: Heap, live: map<nat, nat>, size: nat)
    requires Ledgered(g, h, live) && Room(g, Start(g, h), size)
    ensures var (t, p) := Metalloc(g, h, size);
            && t.initialized && Ledgered(g, t, live[Target(g, p) := size])
            && t.last == Start(g, h).last + g.header + size && p == Start(g, h).last + g.header
  {
    var s := Start(g, h);
    StartLedgered(g, h, live);
    StartedAllocates(g, s, live, size);
    TargetBack(g, s.last);
  }

  lemma FreeRefines(g: Geometry, h: Heap, live: map<nat, nat>, p: nat)
    requires Ledgered(g, h, live) && Target(g, p) in live
    ensures h.initialized && Freealloc(g, h, p).Done?
    ensures var t := Freealloc(g, h, p).heap; t.initialized && t.last == h.last && Ledgered(g, t, live - {Target(g, p)})
  {
    FreeallocIs(g, h, p);
    ReleaseRefines(g, h, Target(g, p));
  }

  /** Every operation keeps the tiling and does to the chunks in use what it should, and none takes back space that
      was handed out. */
  lemma ExecRefines(g: Geometry, h: Heap, live: map<nat, nat>, op: Op)
    requires Ledgered(g, h, live) && Allowed(g, h, live, op)
    ensures var t := Exec(g, h, live, op);
            && Ledgered(g, t, Spec(g, h, live, op)) && t.initialized
            && t.last == Start(g, h).last + (if op.Allocate? then g.header + op.size else 0)
    ensures op.Free? ==> Freealloc(g, h, op.p).Done?
  {
    match op {
      case Allocate(size) => AllocateRefines(g, h, live, size);
      case Free(p) => FreeRefines(g, h, live, p);
    }
  }

  /** One step of a run: the callers keep to the rules, and the heap and the ledger go on accordingly. */
  ghost predicate Step(g: Geometry, h: Heap, live: map<nat, nat>, op: Op, t: Heap, live': map<nat, nat>)
  {
    Ledgered(g, h, live) ==> Allowed(g, h, live, op) && t == Exec(g, h, live, op) && live' == Spec(g, h, live, op)
  }

  /** The heaps and ledgers of a run, the first ones included. */
  ghost predicate Run(g: Geometry, heaps: seq<Heap>, ledgers: seq<map<nat, nat>>, ops: seq<Op>)
  {
    && |heaps| == |ledgers| == |ops| + 1
    && forall i | 0 <= i < |ops| :: Step(g, heaps[i], ledgers[i], ops[i], heaps[i + 1], ledgers[i + 1])
  }

  /** Over every run the block stays tiled, and the chunks in use are those allocated and not yet released. */
  lemma {:induction false} RunRefines(g: Geometry, heaps: seq<Heap>, ledgers: seq<map<nat, nat>>, ops: seq<Op>, n: nat)
    requires Run(g, heaps, ledgers, ops) && Ledgered(g, heaps[0], ledgers[0]) && n <= |ops|
    ensures Ledgered(g, heaps[n], ledgers[n])
  {
    if n > 0 {
      RunRefines(g, heaps, ledgers, ops, n - 1);
      assert Step(g, heaps[n - 1], ledgers[n - 1], ops[n - 1], heaps[n], ledgers[n]);
      ExecRefines(g, heaps[n - 1], ledgers[n - 1], ops[n - 1]);
    }
  }

  lemma GrantInside(g: Geometry, h: Heap, live: map<nat, nat>, size: nat)
    requires Ledgered(g, h, live) && Room(g, Start(g, h), size)
    ensures Start(g, h).last + g.header + size <= g.base + g.block
  {
    StartLedgered(g, h, live);
    LastEnd(g, Start(g, h));
  }

  /** Where the next chunk begins only ever goes up, and an allocation puts it behind its own chunk. */
  lemma FrontierStep(g: Geometry, h: Heap, live: map<nat, nat>, op: Op, t: Heap, live': map<nat, nat>)
    requires Ledgered(g, h, live) && Step(g, h, live, op, t, live')
    ensures Fits(g) && Ledgered(g, t, live')
    ensures Start(g, t).last == Start(g, h).last + (if op.Allocate? then g.header + op.size else 0)
    ensures op.Allocate? ==> Start(g, t).last <= g.base + g.block
  {
    ExecRefines(g, h, live, op);
    if op.Allocate? {
      GrantInside(g, h, live, op.size);
    }
  }

  lemma {:induction false} FrontierGrows(g: Geometry, heaps: seq<Heap>, ledgers: seq<map<nat, nat>>, ops: seq<Op>,
          i: nat, j: nat)
    requires Run(g, heaps, ledgers, ops) && i <= j <= |ops| && Ledgered(g, heaps[i], ledgers[i])
    ensures Ledgered(g, heaps[j], ledgers[j]) && Start(g, heaps[i]).last <= Start(g, heaps[j]).last
    decreases j
  {
    if i < j {
      FrontierGrows(g, heaps, ledgers, ops, i, j - 1);
      assert Step(g, heaps[j - 1], ledgers[j - 1], ops[j - 1], heaps[j], ledgers[j]);
      FrontierStep(g, heaps[j - 1], ledgers[j - 1], ops[j - 1], heaps[j], ledgers[j]);
    }
  }

  /** Over every run no two chunks handed out overlap each other or each other's headers, not even when the first
      was released before the second was allocated; and all lie inside the block. */
  lemma GrantsApart(g: Geometry, heaps: seq<Heap>, ledgers: seq<map<nat, nat>>, ops: seq<Op>, i: nat, j: nat)
    requires Run(g, heaps, ledgers, ops) && Ledgered(g, heaps[0], ledgers[0])
    requires i < j < |ops| && ops[i].Allocate? && ops[j].Allocate?
    ensures Ledgered(g, heaps[i], ledgers[i]) && Ledgered(g, heaps[j], ledgers[j])
    ensures var p, q := Metalloc(g, heaps[i], ops[i].size).1, Metalloc(g, heaps[j], ops[j].size).1;
            p + ops[i].size + g.header <= q && q + ops[j].size <= g.base + g.block
  {
    RunRefines(g, heaps, ledgers, ops, i);
    RunRefines(g, heaps, ledgers, ops, j);
    assert Step(g, heaps[i], ledgers[i], ops[i], heaps[i + 1], ledgers[i + 1]);
    assert Step(g, heaps[j], ledgers[j], ops[j], heaps[j + 1], ledgers[j + 1]);
    FrontierStep(g, heaps[i], ledgers[i], ops[i], heaps[i + 1], ledgers[i + 1]);
    FrontierStep(g, heaps[j], ledgers[j], ops[j], heaps[j + 1], ledgers[j + 1]);
    FrontierGrows(g, heaps, ledgers, ops, i + 1, j);
  }

  /** Headers and chunks of all allocations of a run. */
  function Taken(g: Geometry, ops: seq<Op>): nat
  {
    if ops == [] then 0
    else
      var op := ops[|ops| - 1];
      Taken(g, ops[..|ops| - 1]) + if op.Allocate? then g.header + op.size else 0
  }

  lemma TakenNext(g: Geometry, ops: seq<Op>, n: nat)
    requires 0 < n <= |ops|
    ensures Taken(g, ops[..n]) ==
            Taken(g, ops[..n - 1]) + if ops[n - 1].Allocate? then g.header + ops[n - 1].size else 0
  {
    assert ops[..n][..n - 1] == ops[..n - 1];
  }

  /** The next chunk begins behind all that were ever allocated: releases give nothing back. */
  lemma {:induction false} FrontierIs(g: Geometry, heaps: seq<Heap>, ledgers: seq<map<nat, nat>>, ops: seq<Op>, n: nat)
    requires Run(g, heaps, ledgers, ops) && Ledgered(g, heaps[0], ledgers[0]) && !heaps[0].initialized && n <= |ops|
    ensures Ledgered(g, heaps[n], ledgers[n]) && Start(g, heaps[n]).last == g.base + Taken(g, ops[..n])
  {
    if n > 0 {
      FrontierIs(g, heaps, ledgers, ops, n - 1);
      assert Step(g, heaps[n - 1], ledgers[n - 1], ops[n - 1], heaps[n], ledgers[n]);
      FrontierStep(g, heaps[n - 1], ledgers[n - 1], ops[n - 1], heaps[n], ledgers[n]);
      TakenNext(g, ops, n);
    }
  }

  lemma RoomFits(g: Geometry, h: Heap, size: nat)
    requires Inv(g, h)
    ensures Room(g, h, size) <==> h.last + (g.header + size) + g.header <= g.base + g.block
  {
    LastEnd(g, h);
  }

  /** An allocation of a run has room exactly when all chunks allocated so far and its own, each with its header, and
      one header more fit the block, whatever was released in between. */
  lemma RoomIff(g: Geometry, heaps: seq<Heap>, ledgers: seq<map<nat, nat>>, ops: seq<Op>, n: nat, size: nat)
    requires Run(g, heaps, ledgers, ops) && Ledgered(g, heaps[0], ledgers[0]) && !heaps[0].initialized && n <= |ops|
    ensures Ledgered(g, heaps[n], ledgers[n])
    ensures Room(g, Start(g, heaps[n]), size) <==> Taken(g, ops[..n] + [Allocate(size)]) + g.header <= g.block
  {
    FrontierIs(g, heaps, ledgers, ops, n);
    StartLedgered(g, heaps[n], ledgers[n]);
    RoomFits(g, Start(g, heaps[n]), size);
    assert (ops[..n] + [Allocate(size)])[..n] == ops[..n];
  }
}
