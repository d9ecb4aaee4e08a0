/** What every run of HydraDB's allocator keeps: following `prev` from the last header tiles the block exactly. */
module MetallocTiling {
  import opened MetallocModel

  // ---------------------------------------------------------------- the invariant

  /** The forward links visit every header, in address order from the start of the block. */
  predicate Ordered(mem: map<nat, Header>, base: nat)
  {
    && base in mem
    && (forall a | a in mem :: base <= a)
    && (forall a, b {:trigger mem[a].succ, b in mem} | a in mem && b in mem && a < b ::
           mem[a].succ != NULL && mem[a].succ <= b)
  }

  /** `ts` is what following `prev` from `last` yields. */
  predicate IsChain(mem: map<nat, Header>, last: nat, ts: seq<nat>)
  {
    && |ts| > 0 && ts[|ts| - 1] == last
    && (forall i | 0 <= i < |ts| :: ts[i] in mem)
    && mem[ts[0]].prev == NULL
    && (forall i {:trigger mem[ts[i]].prev} | 0 < i < |ts| :: mem[ts[i]].prev == ts[i - 1])
  }

  /** The address behind a chunk. */
  function End(g: Geometry, mem: map<nat, Header>, a: nat): nat
    requires a in mem
  {
    a + g.header + mem[a].size
  }

  /** Each tile begins where the one before it ends; together they are the block. */
  predicate Adjacent(g: Geometry, mem: map<nat, Header>, ts: seq<nat>)
    requires |ts| > 0 && forall i | 0 <= i < |ts| :: ts[i] in mem
  {
    && ts[0] == g.base
    && (forall i {:trigger End(g, mem, ts[i])} | 0 <= i < |ts| - 1 :: End(g, mem, ts[i]) == ts[i + 1])
    && End(g, mem, ts[|ts| - 1]) == g.base + g.block
  }

  /** The header behind a chunk in use is the next tile. */
  predicate LiveNext(mem: map<nat, Header>, ts: seq<nat>)
    requires forall i | 0 <= i < |ts| :: ts[i] in mem
  {
    forall i {:trigger mem[ts[i]].succ} | 0 <= i < |ts| - 1 && !mem[ts[i]].isFree :: mem[ts[i]].succ == ts[i + 1]
  }

  /** A header that is no tile any more points back to the free tile that swallowed it, and so does the header
      behind it. */
  predicate Swallowed(mem: map<nat, Header>, ts: seq<nat>)
    requires Linked(mem)
  {
    forall x {:trigger mem[x].succ} | x in mem && x !in ts ::
      && !mem[x].isFree && mem[x].prev in ts && mem[x].prev != NULL && mem[mem[x].prev].isFree
      && mem[x].succ != NULL && mem[mem[x].succ].prev == mem[x].prev
  }

  predicate Tail(mem: map<nat, Header>, last: nat)
  {
    last in mem && mem[last].isFree && mem[last].succ == NULL
  }

  predicate Tiled(g: Geometry, mem: map<nat, Header>, last: nat, ts: seq<nat>)
  {
    && Fits(g) && Linked(mem) && Ordered(mem, g.base) && IsChain(mem, last, ts) && Adjacent(g, mem, ts)
    && Tail(mem, last) && LiveNext(mem, ts) && Swallowed(mem, ts)
  }

  /** No header claims more than the block. */
  predicate Bounded(g: Geometry, mem: map<nat, Header>)
  {
    forall a {:trigger mem[a].size} | a in mem :: g.header + mem[a].size <= g.block
  }

  ghost predicate Inv(g: Geometry, h: Heap)
  {
    && Sane(g, h) && h.initialized && |h.free| == g.capacity && Bounded(g, h.mem)
    && Tiled(g, h.mem, h.last, Tiles(g, h))
  }

  // ---------------------------------------------------------------- about chains and order

  lemma {:induction false} ChainUnique(mem: map<nat, Header>, last: nat, ts: seq<nat>)
    requires Linked(mem) && IsChain(mem, last, ts)
    ensures Chain(mem, last) == ts
    decreases |ts|
  {
    if |ts| == 1 {
      assert Chain(mem, NULL) == [];
    } else {
      ChainUnique(mem, ts[|ts| - 2], ts[..|ts| - 1]);
      assert ts == ts[..|ts| - 1] + [last];
    }
  }

  lemma InvFrom(g: Geometry, h: Heap, ts: seq<nat>)
    requires h.initialized && |h.free| == g.capacity && Bounded(g, h.mem) && Tiled(g, h.mem, h.last, ts)
    ensures Inv(g, h) && Tiles(g, h) == ts
  {
    ChainUnique(h.mem, h.last, ts);
  }

  lemma {:induction false} ChainIncreases(mem: map<nat, Header>, last: nat, ts: seq<nat>, i: nat, j: nat)
    requires Linked(mem) && IsChain(mem, last, ts) && i < j < |ts|
    ensures ts[i] < ts[j]
    decreases j
  {
    assert mem[ts[j]].prev == ts[j - 1] && ts[j - 1] in mem;
    if i < j - 1 {
      ChainIncreases(mem, last, ts, i, j - 1);
    }
  }

  /** The last header is the highest one. */
  lemma LastHighest(mem: map<nat, Header>, base: nat, last: nat, a: nat)
    requires Ordered(mem, base) && Tail(mem, last) && a in mem
    ensures a <= last
  {
  }

  lemma {:induction false} TileInside(g: Geometry, mem: map<nat, Header>, last: nat, ts: seq<nat>, i: nat)
    requires Tiled(g, mem, last, ts) && i < |ts|
    ensures g.base <= ts[i] && End(g, mem, ts[i]) <= g.base + g.block
    decreases |ts| - i
  {
    if i < |ts| - 1 {
      TileInside(g, mem, last, ts, i + 1);
      assert End(g, mem, ts[i]) == ts[i + 1];
    }
  }

  /** From a header at or below the target the walk ends at the target, if there is such a header. */
  lemma {:induction false} WalkOrdered(mem: map<nat, Header>, base: nat, ptr: nat, target: nat)
    requires Linked(mem) && Ordered(mem, base) && ptr in mem && target in mem && ptr <= target
    ensures Walk(mem, ptr, target).Here?
    decreases target - ptr
  {
    if ptr < target {
      WalkOrdered(mem, base, mem[ptr].succ, target);
    }
  }

  /** It runs off the end exactly when all headers lie below the target. */
  lemma {:induction false} WalkEnds(mem: map<nat, Header>, base: nat, ptr: nat, target: nat)
    requires Linked(mem) && Ordered(mem, base) && ptr in mem
    ensures Walk(mem, ptr, target).Nowhere? <==> ptr < target && forall a | a in mem :: a < target
    decreases if ptr < target then target - ptr else 0
  {
    if ptr < target {
      if mem[ptr].succ == NULL {
        assert forall a | a in mem :: a <= ptr;
      } else {
        WalkEnds(mem, base, mem[ptr].succ, target);
      }
    }
  }

  /** freealloc finds a header exactly when there is one at the target, and runs off the end of the headers, with
      another message, exactly when all lie below it. */
  lemma WalkFindsHeaders(mem: map<nat, Header>, base: nat, target: nat)
    requires Linked(mem) && Ordered(mem, base)
    ensures Walk(mem, base, target).Here? <==> target in mem
    ensures Walk(mem, base, target).Nowhere? <==> forall a | a in mem :: a < target
  {
    if target in mem {
      WalkOrdered(mem, base, base, target);
    }
    WalkEnds(mem, base, base, target);
  }

  // ---------------------------------------------------------------- the first allocation

  lemma StartTiled(g: Geometry, h: Heap)
    requires Fits(g) && |h.free| == g.capacity && !h.initialized
    ensures Inv(g, Start(g, h)) && Tiles(g, Start(g, h)) == [g.base]
  {
    var s := Start(g, h);
    ChainUnique(s.mem, s.last, [g.base]);
  }

  // ---------------------------------------------------------------- allocation

  /** There is room for the chunk and a header behind it. */
  predicate Room(g: Geometry, h: Heap, size: nat)
    requires h.last in h.mem
  {
    g.header + size <= h.mem[h.last].size
  }

  /** The headers after an allocation, when nothing wraps. */
  function SplitMem(g: Geometry, mem: map<nat, Header>, p: nat, q: nat, size: nat): map<nat, Header>
    requires p in mem && g.header + size <= mem[p].size
  {
    mem[q := Header(NULL, p, true, mem[p].size - g.header - size)][p := Header(q, mem[p].prev, false, size)]
  }

  lemma SplitIs(g: Geometry, h: Heap, ts: seq<nat>, size: nat)
    requires Sane(g, h) && Tiled(g, h.mem, h.last, ts) && Room(g, h, size)
    ensures var q := End(g, h.mem, h.last) - h.mem[h.last].size + size;
            Split(g, h, size).mem == SplitMem(g, h.mem, h.last, q, size) && Split(g, h, size).last == q
  {
    TileInside(g, h.mem, h.last, ts, |ts| - 1);
  }

  lemma SplitLinks(g: Geometry, mem: map<nat, Header>, p: nat, q: nat, size: nat)
    requires Linked(mem) && Ordered(mem, g.base) && Tail(mem, p) && p < q && g.header + size <= mem[p].size
    ensures q !in mem
    ensures Linked(SplitMem(g, mem, p, q, size)) && Ordered(SplitMem(g, mem, p, q, size), g.base)
    ensures Tail(SplitMem(g, mem, p, q, size), q)
  {
    forall a | a in mem ensures a <= p {
      LastHighest(mem, g.base, p, a);
    }
  }

  lemma SplitOthers(g: Geometry, mem: map<nat, Header>, p: nat, q: nat, size: nat, ts: seq<nat>, i: nat)
    requires Linked(mem) && IsChain(mem, p, ts) && q !in mem && g.header + size <= mem[p].size && i < |ts| - 1
    ensures SplitMem(g, mem, p, q, size)[ts[i]] == mem[ts[i]]
  {
    ChainIncreases(mem, p, ts, i, |ts| - 1);
  }

  lemma SplitChain(g: Geometry, mem: map<nat, Header>, p: nat, q: nat, size: nat, ts: seq<nat>)
    requires Linked(mem) && IsChain(mem, p, ts) && q !in mem && g.header + size <= mem[p].size
    ensures IsChain(SplitMem(g, mem, p, q, size), q, ts + [q])
  {
    var m, us := SplitMem(g, mem, p, q, size), ts + [q];
    forall i | 0 < i < |us| ensures m[us[i]].prev == us[i - 1] {
      if i < |ts| {
        assert mem[ts[i]].prev == ts[i - 1];
        assert m[ts[i]].prev == mem[ts[i]].prev;
      }
    }
    assert mem[ts[0]].prev == NULL;
  }

  lemma SplitAdjacent(g: Geometry, mem: map<nat, Header>, p: nat, q: nat, size: nat, ts: seq<nat>)
    requires Linked(mem) && IsChain(mem, p, ts) && Adjacent(g, mem, ts)
    requires q !in mem && q == p + g.header + size && g.header + size <= mem[p].size
    ensures IsChain(SplitMem(g, mem, p, q, size), q, ts + [q])
    ensures Adjacent(g, SplitMem(g, mem, p, q, size), ts + [q])
  {
    var m, us := SplitMem(g, mem, p, q, size), ts + [q];
    SplitChain(g, mem, p, q, size, ts);
    forall i | 0 <= i < |us| - 1 ensures End(g, m, us[i]) == us[i + 1] {
      if i < |ts| - 1 {
        assert End(g, mem, ts[i]) == ts[i + 1];
        SplitOthers(g, mem, p, q, size, ts, i);
      }
    }
  }

  lemma SplitLiveNext(g: Geometry, mem: map<nat, Header>, p: nat, q: nat, size: nat, ts: seq<nat>)
    requires Linked(mem) && IsChain(mem, p, ts) && LiveNext(mem, ts) && q !in mem && g.header + size <= mem[p].size
    ensures IsChain(SplitMem(g, mem, p, q, size), q, ts + [q])
    ensures LiveNext(SplitMem(g, mem, p, q, size), ts + [q])
  {
    var m, us := SplitMem(g, mem, p, q, size), ts + [q];
    SplitChain(g, mem, p, q, size, ts);
    forall i | 0 <= i < |us| - 1 && !m[us[i]].isFree ensures m[us[i]].succ == us[i + 1] {
      if i < |ts| - 1 {
        SplitOthers(g, mem, p, q, size, ts, i);
        assert mem[ts[i]].succ == ts[i + 1];
      }
    }
  }

  lemma SplitSwallowed(g: Geometry, mem: map<nat, Header>, p: nat, q: nat, size: nat, ts: seq<nat>)
    requires Tiled(g, mem, p, ts) && p < q && g.header + size <= mem[p].size
    ensures Linked(SplitMem(g, mem, p, q, size)) && Swallowed(SplitMem(g, mem, p, q, size), ts + [q])
  {
    SplitLinks(g, mem, p, q, size);
    var m, us := SplitMem(g, mem, p, q, size), ts + [q];
    assert ts[|ts| - 1] == p;
    forall x | x in m && x !in us
      ensures && !m[x].isFree && m[x].prev in us && m[x].prev != NULL && m[m[x].prev].isFree
              && m[x].succ != NULL && m[m[x].succ].prev == m[x].prev
    {
      assert x in mem && x !in ts;
      LastHighest(mem, g.base, p, x);
    }
  }

  lemma SplitBounded(g: Geometry, mem: map<nat, Header>, p: nat, q: nat, size: nat)
    requires Bounded(g, mem) && p in mem && g.header + size <= mem[p].size
    ensures Bounded(g, SplitMem(g, mem, p, q, size))
  {
  }

  /** An allocation with room appends a tile. */
  lemma SplitTiled(g: Geometry, h: Heap, size: nat)
    requires Inv(g, h) && Room(g, h, size)
    ensures Inv(g, Split(g, h, size)) && Tiles(g, Split(g, h, size)) == Tiles(g, h) + [h.last + g.header + size]
    ensures Split(g, h, size).mem == SplitMem(g, h.mem, h.last, h.last + g.header + size, size)
    ensures h.last + g.header + size !in h.mem
  {
    hide IsChain, Adjacent, LiveNext, Swallowed, Ordered, Linked, Chain, Bounded;
    var ts, p, q := Tiles(g, h), h.last, h.last + g.header + size;
    SplitIs(g, h, ts, size);
    SplitLinks(g, h.mem, p, q, size);
    SplitAdjacent(g, h.mem, p, q, size, ts);
    SplitLiveNext(g, h.mem, p, q, size, ts);
    SplitSwallowed(g, h.mem, p, q, size, ts);
    SplitBounded(g, h.mem, p, q, size);
    InvFrom(g, Split(g, h, size), ts + [q]);
  }

  // ---------------------------------------------------------------- release into a free predecessor

  /** The headers after `pred` has swallowed `x`, which lies before `y`. */
  function MergeMem(g: Geometry, mem: map<nat, Header>, x: nat, pred: nat, y: nat): map<nat, Header>
    requires x in mem && pred in mem && y in mem
  {
    mem[pred := mem[pred].(size := mem[pred].size + g.header + mem[x].size)][y := mem[y].(prev := pred)]
  }

  /** A place in the middle of a chain. */
  predicate Inner(mem: map<nat, Header>, last: nat, ts: seq<nat>, k: nat)
  {
    Linked(mem) && IsChain(mem, last, ts) && 0 < k < |ts| - 1
  }

  /** Tile number `k` is in use, and the one before it is free. */
  predicate Mergeable(g: Geometry, mem: map<nat, Header>, last: nat, ts: seq<nat>, k: nat)
  {
    Tiled(g, mem, last, ts) && 0 < k < |ts| - 1 && !mem[ts[k]].isFree && mem[ts[k - 1]].isFree
  }

  lemma MergeNeighbours(g: Geometry, mem: map<nat, Header>, last: nat, ts: seq<nat>, k: nat)
    requires Inner(mem, last, ts, k) && Adjacent(g, mem, ts) && LiveNext(mem, ts) && !mem[ts[k]].isFree
    ensures mem[ts[k]].prev == ts[k - 1] < ts[k] < ts[k + 1] == mem[ts[k]].succ
    ensures End(g, mem, ts[k - 1]) == ts[k]
  {
    ChainIncreases(mem, last, ts, k, k + 1);
  }

  lemma MergeRoom(g: Geometry, mem: map<nat, Header>, last: nat, ts: seq<nat>, k: nat)
    requires Mergeable(g, mem, last, ts, k) && End(g, mem, ts[k - 1]) == ts[k]
    ensures g.header + mem[ts[k - 1]].size + g.header + mem[ts[k]].size <= g.block
  {
    TileInside(g, mem, last, ts, k - 1);
    TileInside(g, mem, last, ts, k);
  }

  lemma MergeMemIs(g: Geometry, h: Heap, x: nat, pred: nat, y: nat)
    requires Linked(h.mem) && x in h.mem && pred in h.mem && y in h.mem && x != pred && y != pred && y == h.mem[x].succ
    requires h.mem[pred].size + g.header + h.mem[x].size < 0x1_0000_0000
    ensures Merge(g, h, x, pred).mem == MergeMem(g, h.mem, x, pred, y)
  {
  }

  lemma MergeIs(g: Geometry, h: Heap, ts: seq<nat>, k: nat)
    requires Mergeable(g, h.mem, h.last, ts, k)
    ensures h.mem[ts[k]].prev == ts[k - 1] && h.mem[ts[k]].succ == ts[k + 1]
    ensures g.header + h.mem[ts[k - 1]].size + g.header + h.mem[ts[k]].size <= g.block
    ensures Merge(g, h, ts[k], ts[k - 1]).mem == MergeMem(g, h.mem, ts[k], ts[k - 1], ts[k + 1])
  {
    MergeNeighbours(g, h.mem, h.last, ts, k);
    MergeRoom(g, h.mem, h.last, ts, k);
    MergeMemIs(g, h, ts[k], ts[k - 1], ts[k + 1]);
  }

  lemma MergeLinked(g: Geometry, mem: map<nat, Header>, x: nat, pred: nat, y: nat)
    requires Linked(mem) && x in mem && pred in mem && y in mem && NULL < pred < y
    ensures Linked(MergeMem(g, mem, x, pred, y))
  {
  }

  lemma MergeOrdered(g: Geometry, mem: map<nat, Header>, x: nat, pred: nat, y: nat)
    requires Ordered(mem, g.base) && x in mem && pred in mem && y in mem && NULL < pred < y
    ensures Ordered(MergeMem(g, mem, x, pred, y), g.base)
  {
  }

  lemma MergeTail(g: Geometry, mem: map<nat, Header>, last: nat, x: nat, pred: nat, y: nat)
    requires Tail(mem, last) && x in mem && pred in mem && y in mem && NULL < pred < y
    ensures Tail(MergeMem(g, mem, x, pred, y), last)
  {
  }

  lemma MergeLinks(g: Geometry, mem: map<nat, Header>, last: nat, ts: seq<nat>, k: nat)
    requires Mergeable(g, mem, last, ts, k)
    ensures var m := MergeMem(g, mem, ts[k], ts[k - 1], ts[k + 1]); Linked(m) && Ordered(m, g.base) && Tail(m, last)
  {
    ChainIncreases(mem, last, ts, k - 1, k + 1);
    MergeLinked(g, mem, ts[k], ts[k - 1], ts[k + 1]);
    MergeOrdered(g, mem, ts[k], ts[k - 1], ts[k + 1]);
    MergeTail(g, mem, last, ts[k], ts[k - 1], ts[k + 1]);
  }

  /** The tiles without number `k`. */
  function Without(ts: seq<nat>, k: nat): (us: seq<nat>)
    requires k < |ts|
    ensures |us| == |ts| - 1
    ensures forall i | 0 <= i < |us| :: us[i] == if i < k then ts[i] else ts[i + 1]
  {
    ts[..k] + ts[k + 1..]
  }

  /** Two positions of a chain hold different headers. */
  lemma ChainDistinct(mem: map<nat, Header>, last: nat, ts: seq<nat>, i: nat, j: nat)
    requires Linked(mem) && IsChain(mem, last, ts) && i < |ts| && j < |ts| && ts[i] == ts[j]
    ensures i == j
  {
    if i < j {
      ChainIncreases(mem, last, ts, i, j);
    } else if j < i {
      ChainIncreases(mem, last, ts, j, i);
    }
  }

  /** What a merge does to tile number `i`. */
  lemma MergeTile(g: Geometry, mem: map<nat, Header>, last: nat, ts: seq<nat>, k: nat, i: nat)
    requires Inner(mem, last, ts, k) && i < |ts|
    ensures var m := MergeMem(g, mem, ts[k], ts[k - 1], ts[k + 1]);
            && (m[ts[i]].prev == if i == k + 1 then ts[k - 1] else mem[ts[i]].prev)
            && (m[ts[i]].size == if i == k - 1 then mem[ts[i]].size + g.header + mem[ts[k]].size else mem[ts[i]].size)
            && m[ts[i]].succ == mem[ts[i]].succ && m[ts[i]].isFree == mem[ts[i]].isFree
  {
    if ts[i] == ts[k + 1] { ChainDistinct(mem, last, ts, i, k + 1); }
    if ts[i] == ts[k - 1] { ChainDistinct(mem, last, ts, i, k - 1); }
    ChainIncreases(mem, last, ts, k - 1, k + 1);
  }

  lemma MergePrev(g: Geometry, mem: map<nat, Header>, last: nat, ts: seq<nat>, k: nat, i: nat)
    requires Inner(mem, last, ts, k) && 0 < i < |ts| - 1
    ensures MergeMem(g, mem, ts[k], ts[k - 1], ts[k + 1])[Without(ts, k)[i]].prev == Without(ts, k)[i - 1]
  {
    var j := if i < k then i else i + 1;
    MergeTile(g, mem, last, ts, k, j);
    assert mem[ts[j]].prev == ts[j - 1];
  }

  lemma MergeFirst(g: Geometry, mem: map<nat, Header>, last: nat, ts: seq<nat>, k: nat)
    requires Inner(mem, last, ts, k)
    ensures var us := Without(ts, k);
            us[0] == ts[0] && us[|us| - 1] == last && MergeMem(g, mem, ts[k], ts[k - 1], ts[k + 1])[ts[0]].prev == NULL
  {
    MergeTile(g, mem, last, ts, k, 0);
  }

  lemma MergeChain(g: Geometry, mem: map<nat, Header>, last: nat, ts: seq<nat>, k: nat, m: map<nat, Header>,
          us: seq<nat>)
    requires Inner(mem, last, ts, k)
    requires m == MergeMem(g, mem, ts[k], ts[k - 1], ts[k + 1]) && us == Without(ts, k)
    ensures IsChain(m, last, us)
  {
    MergeFirst(g, mem, last, ts, k);
    forall i | 0 < i < |us| ensures m[us[i]].prev == us[i - 1] {
      MergePrev(g, mem, last, ts, k, i);
    }
  }

  lemma MergeEnd(g: Geometry, mem: map<nat, Header>, last: nat, ts: seq<nat>, k: nat, i: nat)
    requires Inner(mem, last, ts, k) && Adjacent(g, mem, ts) && LiveNext(mem, ts) && mem[ts[k - 1]].isFree
    requires i < |ts| - 2
    ensures var m, us := MergeMem(g, mem, ts[k], ts[k - 1], ts[k + 1]), Without(ts, k);
            us[i] in m && End(g, m, us[i]) == us[i + 1] && (!m[us[i]].isFree ==> m[us[i]].succ == us[i + 1])
  {
    var j := if i < k then i else i + 1;
    MergeTile(g, mem, last, ts, k, j);
    assert End(g, mem, ts[j]) == ts[j + 1];
    assert End(g, mem, ts[k]) == ts[k + 1];
  }

  lemma MergeLast(g: Geometry, mem: map<nat, Header>, last: nat, ts: seq<nat>, k: nat)
    requires Inner(mem, last, ts, k)
    ensures End(g, MergeMem(g, mem, ts[k], ts[k - 1], ts[k + 1]), last) == End(g, mem, last)
  {
    MergeTile(g, mem, last, ts, k, |ts| - 1);
  }

  lemma MergeAdjacent(g: Geometry, mem: map<nat, Header>, last: nat, ts: seq<nat>, k: nat, m: map<nat, Header>,
          us: seq<nat>)
    requires Mergeable(g, mem, last, ts, k)
    requires m == MergeMem(g, mem, ts[k], ts[k - 1], ts[k + 1]) && us == Without(ts, k) && IsChain(m, last, us)
    ensures Adjacent(g, m, us) && LiveNext(m, us)
  {
    MergeFirst(g, mem, last, ts, k);
    MergeLast(g, mem, last, ts, k);
    forall i | 0 <= i < |us| - 1
      ensures End(g, m, us[i]) == us[i + 1] && (!m[us[i]].isFree ==> m[us[i]].succ == us[i + 1])
    {
      MergeEnd(g, mem, last, ts, k, i);
    }
  }

  /** Only one header lies directly before another. */
  lemma SuccInjective(mem: map<nat, Header>, base: nat, a: nat, b: nat)
    requires Linked(mem) && Ordered(mem, base) && a in mem && b in mem && mem[a].succ == mem[b].succ != NULL
    ensures a == b
  {
  }

  lemma WithoutHas(ts: seq<nat>, k: nat)
    requires k < |ts|
    ensures forall a | a in ts && a != ts[k] :: a in Without(ts, k)
  {
    forall a | a in ts && a != ts[k] ensures a in Without(ts, k) {
      var i :| 0 <= i < |ts| && ts[i] == a;
      assert Without(ts, k)[if i < k then i else i - 1] == a;
    }
  }

  /** The links of a header swallowed before stay as they are. */
  lemma MergeOutside(g: Geometry, mem: map<nat, Header>, x: nat, pred: nat, y: nat, a: nat)
    requires Linked(mem) && Ordered(mem, g.base) && x in mem && pred in mem && y in mem && a in mem
    requires mem[x].succ == y && a != x && a != pred && a != y
    requires !mem[a].isFree && mem[a].prev != NULL && mem[mem[a].prev].isFree
    requires mem[a].succ != NULL && mem[mem[a].succ].prev == mem[a].prev
    ensures var m := MergeMem(g, mem, x, pred, y);
            && m[a] == mem[a] && m[mem[a].prev].isFree && m[mem[a].succ].prev == mem[a].prev
  {
    if mem[a].succ == y {
      SuccInjective(mem, g.base, a, x);
    }
  }

  lemma MergeSwallowed(g: Geometry, mem: map<nat, Header>, last: nat, ts: seq<nat>, k: nat)
    requires Mergeable(g, mem, last, ts, k)
    ensures Linked(MergeMem(g, mem, ts[k], ts[k - 1], ts[k + 1]))
    ensures Swallowed(MergeMem(g, mem, ts[k], ts[k - 1], ts[k + 1]), Without(ts, k))
  {
    MergeLinks(g, mem, last, ts, k);
    var m, us := MergeMem(g, mem, ts[k], ts[k - 1], ts[k + 1]), Without(ts, k);
    WithoutHas(ts, k);
    forall x | x in m && x !in us
      ensures && !m[x].isFree && m[x].prev in us && m[x].prev != NULL && m[m[x].prev].isFree
              && m[x].succ != NULL && m[m[x].succ].prev == m[x].prev
    {
      assert mem[ts[k]].succ == ts[k + 1];
      if x == ts[k] {
        assert mem[ts[k]].prev == ts[k - 1] == us[k - 1];
      } else {
        assert mem[x].succ != NULL;
        MergeOutside(g, mem, ts[k], ts[k - 1], ts[k + 1], x);
      }
    }
  }

  lemma MergeBounded(g: Geometry, mem: map<nat, Header>, x: nat, pred: nat, y: nat)
    requires Bounded(g, mem) && x in mem && pred in mem && y in mem
    requires g.header + mem[pred].size + g.header + mem[x].size <= g.block
    ensures Bounded(g, MergeMem(g, mem, x, pred, y))
  {
  }

  lemma MergeParts(g: Geometry, mem: map<nat, Header>, last: nat, ts: seq<nat>, k: nat)
    requires Mergeable(g, mem, last, ts, k)
    ensures var m := MergeMem(g, mem, ts[k], ts[k - 1], ts[k + 1]);
            Tiled(g, m, last, Without(ts, k))
  {
    var m, us := MergeMem(g, mem, ts[k], ts[k - 1], ts[k + 1]), Without(ts, k);
    MergeLinks(g, mem, last, ts, k);
    MergeChain(g, mem, last, ts, k, m, us);
    MergeAdjacent(g, mem, last, ts, k, m, us);
    MergeSwallowed(g, mem, last, ts, k);
  }

  /** A release into a free predecessor takes the tile out and gives its space to the predecessor. */
  lemma MergeTiled(g: Geometry, h: Heap, k: nat)
    requires Inv(g, h) && Mergeable(g, h.mem, h.last, Tiles(g, h), k)
    ensures var ts := Tiles(g, h);
            && Inv(g, Merge(g, h, ts[k], ts[k - 1])) && Tiles(g, Merge(g, h, ts[k], ts[k - 1])) == Without(ts, k)
            && Merge(g, h, ts[k], ts[k - 1]).mem == MergeMem(g, h.mem, ts[k], ts[k - 1], ts[k + 1])
  {
    var ts := Tiles(g, h);
    MergeIs(g, h, ts, k);
    MergeParts(g, h.mem, h.last, ts, k);
    MergeBounded(g, h.mem, ts[k], ts[k - 1], ts[k + 1]);
    InvFrom(g, Merge(g, h, ts[k], ts[k - 1]), Without(ts, k));
  }

  // ---------------------------------------------------------------- plain release

  lemma MarkLinks(g: Geometry, mem: map<nat, Header>, last: nat, x: nat)
    requires Linked(mem) && Ordered(mem, g.base) && Tail(mem, last) && x in mem
    ensures var m := mem[x := mem[x].(isFree := true)]; Linked(m) && Ordered(m, g.base) && Tail(m, last)
  {
  }

  lemma MarkChain(g: Geometry, mem: map<nat, Header>, last: nat, ts: seq<nat>, x: nat)
    requires Linked(mem) && IsChain(mem, last, ts) && Adjacent(g, mem, ts) && LiveNext(mem, ts) && x in mem
    ensures var m := mem[x := mem[x].(isFree := true)]; IsChain(m, last, ts) && Adjacent(g, m, ts) && LiveNext(m, ts)
  {
    var m := mem[x := mem[x].(isFree := true)];
    forall i | 0 < i < |ts| ensures m[ts[i]].prev == ts[i - 1] {
      assert mem[ts[i]].prev == ts[i - 1];
    }
    forall i | 0 <= i < |ts| - 1
      ensures End(g, m, ts[i]) == ts[i + 1] && (!m[ts[i]].isFree ==> m[ts[i]].succ == ts[i + 1])
    {
      assert End(g, mem, ts[i]) == ts[i + 1];
    }
  }

  lemma MarkSwallowed(g: Geometry, mem: map<nat, Header>, last: nat, ts: seq<nat>, x: nat)
    requires Tiled(g, mem, last, ts) && x in ts && x in mem
    ensures var m := mem[x := mem[x].(isFree := true)]; Linked(m) && Swallowed(m, ts)
  {
    MarkLinks(g, mem, last, x);
    var m := mem[x := mem[x].(isFree := true)];
    forall a | a in m && a !in ts
      ensures && !m[a].isFree && m[a].prev in ts && m[a].prev != NULL && m[m[a].prev].isFree
              && m[a].succ != NULL && m[m[a].succ].prev == m[a].prev
    {
      assert mem[a].succ != NULL;
    }
  }

  /** A plain release leaves the tiles as they are. */
  lemma MarkTiled(g: Geometry, h: Heap, x: nat)
    requires Inv(g, h) && x in Tiles(g, h)
    ensures x in h.mem && Inv(g, Mark(h, x)) && Tiles(g, Mark(h, x)) == Tiles(g, h)
  {
    var ts := Tiles(g, h);
    MarkLinks(g, h.mem, h.last, x);
    MarkChain(g, h.mem, h.last, ts, x);
    MarkSwallowed(g, h.mem, h.last, ts, x);
    InvFrom(g, Mark(h, x), ts);
  }
}
