/** HydraDB's table changed in place, one assignment at a time. */
module HydraTable {
  import opened CRemainder
  import opened HydraModel
  import opened HydraRefinement
  import opened HydraCache
  import opened HydraInit

  lemma FullLayout(s: Store, n: nat, values: seq<string>)
    requires n < |values| && Layout(s, n, values) && n == Capacity(|s.table|)
    ensures Homed(n, |s.table|) && FreeSlot(s.table[Home(n, |s.table|)]) == SLOTS
  {
    var m := |s.table|;
    KeyAtRow(n, m);
    var b := Home(n, m);
    CapacityHome(m, SLOTS);
    forall j: nat | j < SLOTS ensures s.table[b][j].busy {
      KeyAtOrder(b, j, 0, SLOTS, m);
      assert Laid(s, n, b, j);
    }
  }

  lemma {:induction false} CapacityHome(m: nat, j: nat)
    requires m > 0
    ensures Homed(KeyAt(0, j, m), m) && Home(KeyAt(0, j, m), m) == 0
  {
    if j > 0 {
      CapacityHome(m, j - 1);
      RemLess(KeyAt(0, j, m), m);
    }
  }

  lemma DeleteImagesStep(s: Store, b: nat, key: int, i: nat, a: nat, seen: seq<Store>)
    requires Shape(s) && b < |s.table| && i < SLOTS && Matches(s, b, i, key) && a == s.table[b][i].addr.index
    ensures Shape(Free(s, b, i, a)) && DeleteFrom(s, b, key, i) == DeleteFrom(Free(s, b, i, a), b, key, i + 1)
    ensures seen + DeleteImages(s, b, key, i) ==
            seen + FreeImages(s, b, i, a) + DeleteImages(Free(s, b, i, a), b, key, i + 1)
  {
  }

  lemma SetSlotTwice(s: Store, b: nat, i: nat, x: Slot, y: Slot)
    requires b < |s.table| && i < |s.table[b]|
    ensures SetSlot(SetSlot(s, b, i, x), b, i, y) == SetSlot(s, b, i, y)
  {
    assert s.table[b][i := x][i := y] == s.table[b][i := y];
    assert s.table[b := s.table[b][i := x]][b := s.table[b][i := y]] == s.table[b := s.table[b][i := y]];
  }

  lemma SetItemTwice(s: Store, a: nat, x: Item, y: Item)
    requires a < |s.pool|
    ensures SetItem(SetItem(s, a, x), a, y) == SetItem(s, a, y)
  {
    assert s.pool[a := x][a := y] == s.pool[a := y];
  }

  /** The state of the load before key `i`, and what the insertion of the key does to it. */
  lemma LoadNext(s: Store, i: nat, texts: seq<string>)
    requires Blank(s) && i < |texts| <= |s.pool| && i <= Capacity(|s.table|)
    ensures var t := Loaded(s, i, texts);
            && Shape(t) && |t.table| == |s.table| && Homed(i, |t.table|) && HasRoom(t)
            && Insert(t, i, texts[i], TextSize(i)) ==
               if i < Capacity(|s.table|) then (Loaded(s, i + 1, texts), 0) else (t, -1)
  {
    var t := Loaded(s, i, texts);
    LayoutShape(t, i, texts);
    if i < Capacity(|s.table|) {
      NextSlot(t, i, texts);
      LoadOneLayout(t, i, texts);
    } else {
      FullLayout(t, i, texts);
    }
  }

  class Table {
    const h: array<seq<Slot>>
    const buckets: array<Item>
    var index: nat

    /** Every image the memory has gone through, write by write: what remote readers can meet. */
    ghost var seen: seq<Store>

    ghost function Model(): Store
      reads this, h, buckets
    {
      Store(h[..], buckets[..], index)
    }

    /** The arrays as the allocator hands them out, before hashtable_create. */
    constructor (h: array<seq<Slot>>, buckets: array<Item>)
      requires forall b | 0 <= b < h.Length :: |h[b]| == SLOTS
      ensures this.h == h && this.buckets == buckets && index == 0 && seen == []
    {
      this.h, this.buckets, index, seen := h, buckets, 0, [];
    }

    /** The slots of every bucket emptied one after the other. */
    method Create()
      requires forall b | 0 <= b < h.Length :: |h[b]| == SLOTS
      modifies h
      ensures forall b | 0 <= b < h.Length :: h[b] == Cleared(old(h[b]))
      ensures forall b | 0 <= b < h.Length ::
                |h[b]| == SLOTS && forall j | 0 <= j < SLOTS :: h[b][j] == Slot(Null, false, old(h[b][j].size), 1)
      ensures h.Length > 0 && index == 0 ==> Blank(Model())
    {
      var i := 0;
      while i < h.Length
        invariant 0 <= i <= h.Length
        invariant forall b | 0 <= b < h.Length :: h[b] == if b < i then Cleared(old(h[b])) else old(h[b])
      {
        var j := 0;
        while j < SLOTS
          invariant 0 <= j <= SLOTS && |h[i]| == SLOTS
          invariant forall b | 0 <= b < h.Length && b != i :: h[b] == if b < i then Cleared(old(h[b])) else old(h[b])
          invariant forall k | 0 <= k < SLOTS :: h[i][k] == if k < j then Cleared(old(h[i]))[k] else old(h[i][k])
        {
          h[i] := h[i][j := h[i][j].(addr := Null)];
          h[i] := h[i][j := h[i][j].(lease := DEFAULT_LEASE)];
          h[i] := h[i][j := h[i][j].(busy := false)];
          j := j + 1;
        }
        assert h[i] == Cleared(old(h[i]));
        i := i + 1;
      }
    }

    /** One field assignment to a slot. */
    method StoreSlot(b: nat, i: nat, x: Slot)
      requires b < h.Length && i < |h[b]|
      modifies this`seen, h
      ensures Model() == SetSlot(old(Model()), b, i, x)
      ensures seen == old(seen) + [Model()]
    {
      h[b] := h[b][i := x];
      seen := seen + [Model()];
    }

    /** One field assignment to an item. */
    method StoreItem(a: nat, x: Item)
      requires a < buckets.Length
      modifies this`seen, buckets
      ensures Model() == SetItem(old(Model()), a, x)
      ensures seen == old(seen) + [Model()]
    {
      buckets[a] := x;
      seen := seen + [Model()];
    }

    method FindFreeSlot(b: nat) returns (i: int)
      requires b < h.Length && |h[b]| == SLOTS
      ensures i == if FreeSlot(h[b]) == SLOTS then -1 else FreeSlot(h[b])
    {
      i := 0;
      while i < SLOTS
        invariant 0 <= i <= SLOTS && FreeSlot(h[b], i) == FreeSlot(h[b])
      {
        if !h[b][i].busy {
          return;
        }
        i := i + 1;
      }
      i := -1;
    }

    /** The four writes to the slot of a new item. */
    method FillSlot(b: nat, i: nat, size: nat)
      requires b < h.Length && i < |h[b]| && index < buckets.Length
      modifies this`index, this`seen, h
      ensures index == old(index) + 1
      ensures Model() == SlotImages(old(Model()), b, i, size)[3]
      ensures seen == old(seen) + SlotImages(old(Model()), b, i, size)
    {
      var a := index;
      ghost var s, g := Model(), SlotImages(Model(), b, i, size);
      StoreSlot(b, i, h[b][i].(addr := At(a)));
      index := index + 1;
      ghost var o := s.table[b][i].(addr := At(a));
      SetSlotTwice(s, b, i, o, o.(size := Byte(size)));
      StoreSlot(b, i, h[b][i].(size := Byte(size)));
      assert Model() == g[1];
      SetSlotTwice(s, b, i, o.(size := Byte(size)), h[b][i].(lease := DEFAULT_LEASE));
      StoreSlot(b, i, h[b][i].(lease := DEFAULT_LEASE));
      assert Model() == g[2];
      SetSlotTwice(s, b, i, h[b][i], h[b][i].(busy := true));
      StoreSlot(b, i, h[b][i].(busy := true));
      assert Model() == g[3];
    }

    /** The three writes to the item. */
    method FillItem(a: nat, key: int, value: string)
      requires a < buckets.Length
      modifies this`seen, buckets
      ensures Model() == SetItem(old(Model()), a, Item(key, 0, value))
      ensures seen == old(seen) + ItemImages(old(Model()), a, key, value)
    {
      ghost var s := Model();
      StoreItem(a, buckets[a].(key := key));
      SetItemTwice(s, a, buckets[a], buckets[a].(flag := 0));
      StoreItem(a, buckets[a].(flag := 0));
      SetItemTwice(s, a, buckets[a], buckets[a].(value := value));
      StoreItem(a, buckets[a].(value := value));
    }

    method PublishAt(b: nat, i: nat, key: int, value: string, size: nat)
      requires b < h.Length && i < |h[b]| && index < buckets.Length
      modifies this`index, this`seen, h, buckets
      ensures Model() == Publish(old(Model()), b, i, key, value, size)
      ensures seen == old(seen) + PublishImages(old(Model()), b, i, key, value, size)
    {
      var a := index;
      FillSlot(b, i, size);
      FillItem(a, key, value);
    }

    method Insert(key: int, value: string, size: nat) returns (r: int)
      requires Shape(Model()) && Homed(key, h.Length)
      requires HasRoom(Model()) || FreeSlot(h[Home(key, h.Length)]) == SLOTS
      modifies this`index, this`seen, h, buckets
      ensures (Model(), r) == HydraModel.Insert(old(Model()), key, value, size)
      ensures seen == old(seen) +
                      if r == -1 then []
                      else PublishImages(old(Model()), Home(key, h.Length), FreeSlot(old(h[Home(key, h.Length)])),
                                         key, value, size)
    {
      var b: nat := Home(key, h.Length);
      var i := FindFreeSlot(b);
      if i != -1 {
        PublishAt(b, i, key, value, size);
        return 0;
      }
      return -1;
    }

    /** The loop reads a key through each slot's address; at a null address it reads through null. */
    method Search(key: int) returns (ret: Answer)
      requires Shape(Model()) && Homed(key, h.Length)
      ensures ret == HydraModel.Search(Model(), key)
    {
      var b: nat := Home(key, h.Length);
      var i := 0;
      while i < SLOTS
        invariant 0 <= i <= SLOTS && Scan(Model(), b, key, i) == Scan(Model(), b, key)
      {
        var iter := h[b][i].addr;
        if iter.Null? {
          return NullRead;
        }
        if buckets[iter.index].key == key {
          return Found(i, iter.index);
        }
        i := i + 1;
      }
      return Missing;
    }

    method SupersedeAt(b: nat, i: nat, a: nat, key: int, value: string, size: nat)
      requires b < h.Length && i < |h[b]| && a < index < buckets.Length
      modifies this`index, this`seen, h, buckets
      ensures Model() == Supersede(old(Model()), b, i, a, key, value, size)
      ensures seen == old(seen) + SupersedeImages(old(Model()), b, i, a, key, value, size)
    {
      ghost var s, g := Model(), SupersedeImages(Model(), b, i, a, key, value, size);
      StoreItem(a, buckets[a].(flag := 1));
      StoreSlot(b, i, h[b][i].(size := Byte(size)));
      SetSlotTwice(g[0], b, i, h[b][i], h[b][i].(addr := At(index)));
      StoreSlot(b, i, h[b][i].(addr := At(index)));
      assert Model() == g[2];
      StoreItem(index, buckets[index].(value := value));
      assert Model() == g[3];
      SetSlotTwice(g[0], b, i, h[b][i], h[b][i].(lease := DEFAULT_LEASE));
      StoreSlot(b, i, h[b][i].(lease := DEFAULT_LEASE));
      assert Model() == g[4];
      SetItemTwice(g[0], index, buckets[index], buckets[index].(key := key));
      StoreItem(index, buckets[index].(key := key));
      assert Model() == g[5];
      index := index + 1;
    }

    /** When the search finds nothing the C code goes on to write through null; here nothing is written and the
        search's answer is returned. */
    method Update(key: int, value: string, size: nat) returns (ret: Answer)
      requires Shape(Model()) && Homed(key, h.Length) && HasRoom(Model())
      modifies this`index, this`seen, h, buckets
      ensures var f := HydraModel.Search(old(Model()), key);
              if !f.Found? then Model() == old(Model()) && ret == f && seen == old(seen)
              else
                && Model() == HydraModel.Update(old(Model()), key, value, size)
                && ret == Found(f.slot, old(index))
                && seen == old(seen) +
                           SupersedeImages(old(Model()), Home(key, h.Length), f.slot, f.addr, key, value, size)
    {
      ret := Search(key);
      if ret.Found? {
        var b: nat := Home(key, h.Length);
        var a := index;
        SupersedeAt(b, ret.slot, ret.addr, key, value, size);
        ret := Found(ret.slot, a);
      }
    }

    method FreeAt(b: nat, i: nat, a: nat)
      requires b < h.Length && i < |h[b]| && a < buckets.Length
      modifies this`seen, h, buckets
      ensures Model() == Free(old(Model()), b, i, a)
      ensures seen == old(seen) + FreeImages(old(Model()), b, i, a)
    {
      StoreSlot(b, i, h[b][i].(busy := false));
      StoreItem(a, buckets[a].(key := 0));
    }

    method Delete(key: int)
      requires Shape(Model()) && Homed(key, h.Length)
      modifies this`seen, h, buckets
      ensures Model() == HydraModel.Delete(old(Model()), key)
      ensures seen == old(seen) + DeleteImages(old(Model()), Home(key, h.Length), key, 0)
    {
      var b: nat := Home(key, h.Length);
      var i := 0;
      while i < SLOTS
        invariant 0 <= i <= SLOTS && Shape(Model()) && index == old(index)
        invariant DeleteFrom(Model(), b, key, i) == HydraModel.Delete(old(Model()), key)
        invariant seen + DeleteImages(Model(), b, key, i) == old(seen) + DeleteImages(old(Model()), b, key, 0)
      {
        if h[b][i].addr.At? && key == buckets[h[b][i].addr.index].key {
          var a := h[b][i].addr.index;
          DeleteImagesStep(Model(), b, key, i, a, seen);
          FreeAt(b, i, a);
        }
        i := i + 1;
      }
      assert seen == seen + DeleteImages(Model(), b, key, SLOTS);
    }

    /** The initial load stops at the first failing insertion, which is that of the first key beyond seven keys a
        bucket. */
    method Initialize(texts: seq<string>) returns (ok: bool)
      requires Blank(Model()) && |texts| <= buckets.Length
      modifies this`index, this`seen, h, buckets
      ensures ok <==> |texts| <= Capacity(h.Length)
      ensures Model() == Loaded(old(Model()), if ok then |texts| else Capacity(h.Length), texts)
    {
      var i := 0;
      while i < |texts|
        invariant 0 <= i <= |texts| && i <= Capacity(h.Length)
        invariant Model() == Loaded(old(Model()), i, texts)
      {
        LoadNext(old(Model()), i, texts);
        var r := Insert(i, texts[i], TextSize(i));
        if r != 0 {
          return false;
        }
        i := i + 1;
      }
      return true;
    }
  }
}
