/** Why HydraDB's clients may keep item addresses: whoever learnt the address of an item from a search can tell
    from the item alone whether it is still the current one, at any later moment of any run. */
module HydraCache {
  import opened HydraModel
  import opened HydraRefinement

  // ---------------------------------------------------------------- what later states owe earlier ones

  /** Items are written once: their values stay, marks are not taken back, and wiped-out keys do not return. */
  ghost predicate Frozen(s: Store, t: Store)
  {
    && s.next <= |s.pool| == |t.pool|
    && (forall a | 0 <= a < s.next ::
          && t.pool[a].value == s.pool[a].value
          && (s.pool[a].flag != 0 ==> t.pool[a].flag != 0)
          && (t.pool[a].key == s.pool[a].key || t.pool[a].key == 0))
  }

  /** A slot keeps pointing to its item as long as the item looks current. */
  ghost predicate Pinned(s: Store, t: Store)
  {
    forall b: nat, i: nat, a: nat | Live(s, b, i, a) && s.pool[a].key != 0 && Current(t, a, s.pool[a].key) ::
      Points(t, b, i, a)
  }

  // ---------------------------------------------------------------- single operations

  lemma PublishPins(s: Store, b: nat, i: nat, key: int, value: string, size: nat)
    requires Inv(s) && b < |s.table| && i < SLOTS && HasRoom(s) && !s.table[b][i].busy
    ensures Frozen(s, Publish(s, b, i, key, value, size)) && Pinned(s, Publish(s, b, i, key, value, size))
  {
  }

  lemma SupersedePins(s: Store, b: nat, i: nat, a: nat, key: int, value: string, size: nat)
    requires Inv(s) && Points(s, b, i, a) && HasRoom(s)
    ensures a < s.next
    ensures Frozen(s, Supersede(s, b, i, a, key, value, size)) && Pinned(s, Supersede(s, b, i, a, key, value, size))
  {
    PointsBelow(s, b, i, a);
  }

  lemma FreePins(s: Store, b: nat, i: nat, a: nat)
    requires Inv(s) && Points(s, b, i, a)
    ensures Frozen(s, Free(s, b, i, a)) && Pinned(s, Free(s, b, i, a))
  {
  }

  lemma FrozenChain(s: Store, t: Store, u: Store)
    requires Frozen(s, t) && Frozen(t, u) && s.next <= t.next
    ensures Frozen(s, u)
  {
  }

  /** An item that looks current in the end looked current all the time, so its slot was in use all the time. */
  lemma PinnedChain(s: Store, t: Store, u: Store)
    requires Inv(s) && Inv(t) && s.next <= t.next && Frozen(s, t) && Frozen(t, u) && Pinned(s, t) && Pinned(t, u)
    ensures Pinned(s, u)
  {
    forall b: nat, i: nat, a: nat | Live(s, b, i, a) && s.pool[a].key != 0 && Current(u, a, s.pool[a].key)
      ensures Points(u, b, i, a)
    {
      PointsBelow(s, b, i, a);
      assert Current(t, a, s.pool[a].key);
      assert Live(t, b, i, a);
    }
  }

  lemma {:induction false} DeleteFromPins(s: Store, b: nat, key: int, i: nat)
    requires Inv(s) && b < |s.table| && i <= SLOTS
    ensures Frozen(s, DeleteFrom(s, b, key, i)) && Pinned(s, DeleteFrom(s, b, key, i))
    decreases SLOTS - i
  {
    if i < SLOTS {
      if Matches(s, b, i, key) {
        var a := s.table[b][i].addr.index;
        var t := Free(s, b, i, a);
        FreeKeeps(s, b, i, a);
        FreePins(s, b, i, a);
        DeleteFromPins(t, b, key, i + 1);
        FrozenChain(s, t, DeleteFrom(t, b, key, i + 1));
        PinnedChain(s, t, DeleteFrom(t, b, key, i + 1));
      } else {
        DeleteFromPins(s, b, key, i + 1);
      }
    }
  }

  lemma ExecPins(s: Store, op: Op)
    requires Inv(s) && Allowed(s, op) && Exec(s, op).Running?
    ensures var t := Exec(s, op).store; s.next <= t.next && Frozen(s, t) && Pinned(s, t)
  {
    match op {
      case Insertion(k, v, z) =>
        var b := Home(k, |s.table|);
        var i := FreeSlot(s.table[b]);
        if i < SLOTS { PublishPins(s, b, i, k, v, z); }
      case Change(k, v, z) =>
        var f := Search(s, k);
        FoundPoints(s, k);
        SupersedePins(s, Home(k, |s.table|), f.slot, f.addr, k, v, z);
      case Query(_) =>
      case Deletion(k) => DeleteFromPins(s, Home(k, |s.table|), k, 0);
    }
  }

  lemma {:induction false} RunPins(s: Store, ops: seq<Op>)
    requires Inv(s) && AllowedRun(s, ops) && Run(s, ops).Ended?
    ensures var t := Run(s, ops).store;
            Inv(t) && |t.table| == |s.table| && s.next <= t.next && Frozen(s, t) && Pinned(s, t)
    decreases |ops|
  {
    if ops != [] {
      var t := Exec(s, ops[0]).store;
      ExecInv(s, ops[0]);
      ExecPins(s, ops[0]);
      RunPins(t, ops[1..]);
      FrozenChain(s, t, Run(t, ops[1..]).store);
      PinnedChain(s, t, Run(t, ops[1..]).store);
    }
  }

  // ---------------------------------------------------------------- the guarantee

  /** In one state: a pool item looks current for a key other than 0 exactly when a search finds it. */
  lemma CurrentIffFound(s: Store, key: int, a: nat)
    requires Inv(s) && Homed(key, |s.table|) && key != 0 && a < s.next
    ensures Current(s, a, key) <==> Search(s, key).Found? && Search(s, key).addr == a
  {
    if Current(s, a, key) {
      var b: nat, i: nat :| Live(s, b, i, a);
      FoundIffLive(s, key, i, a);
    }
    if Search(s, key).Found? {
      FoundIffLive(s, key, Search(s, key).slot, Search(s, key).addr);
    }
  }

  /** Once a search has returned slot `i` and item `a` for a key other than 0, then after any further run the
      item has flag 0 and still names the key if and only if a search would return the very same slot and item; and
      its value is the one it was published with. */
  lemma CachedAddress(s: Store, ops: seq<Op>, key: int, i: nat, a: nat)
    requires Inv(s) && Homed(key, |s.table|) && key != 0 && Search(s, key) == Found(i, a)
    requires AllowedRun(s, ops) && Run(s, ops).Ended?
    ensures var t := Run(s, ops).store;
            && Inv(t) && Homed(key, |t.table|) && a < |s.pool| == |t.pool|
            && (Current(t, a, key) <==> Search(t, key) == Found(i, a))
            && t.pool[a].value == s.pool[a].value
  {
    var t, b := Run(s, ops).store, Home(key, |s.table|);
    RunPins(s, ops);
    FoundIffLive(s, key, i, a);
    PointsBelow(s, b, i, a);
    CurrentIffFound(t, key, a);
    if Current(t, a, key) {
      assert Points(t, b, i, a);
      FoundIffLive(t, key, Search(t, key).slot, a);
    }
  }

  // ---------------------------------------------------------------- between the writes of an operation

  /** The images the memory goes through, one per assignment, while the slot of a new item is filled ... */
  function SlotImages(s: Store, b: nat, i: nat, size: nat): (t: seq<Store>)
    requires b < |s.table| && i < |s.table[b]|
    ensures |t| == 4
  {
    var o := s.table[b][i];
    [SetSlot(s, b, i, o.(addr := At(s.next))),
     SetSlot(s, b, i, o.(addr := At(s.next), size := Byte(size))).(next := s.next + 1),
     SetSlot(s, b, i, o.(addr := At(s.next), size := Byte(size), lease := DEFAULT_LEASE)).(next := s.next + 1),
     SetSlot(s, b, i, Slot(At(s.next), true, Byte(size), DEFAULT_LEASE)).(next := s.next + 1)]
  }

  /** ... and then the item itself. */
  function ItemImages(s: Store, a: nat, key: int, value: string): (t: seq<Store>)
    requires a < |s.pool|
    ensures |t| == 3
  {
    [SetItem(s, a, s.pool[a].(key := key)), SetItem(s, a, s.pool[a].(key := key, flag := 0)),
     SetItem(s, a, Item(key, 0, value))]
  }

  function PublishImages(s: Store, b: nat, i: nat, key: int, value: string, size: nat): (t: seq<Store>)
    requires b < |s.table| && i < |s.table[b]| && HasRoom(s)
    ensures |t| == 7
  {
    var slots := SlotImages(s, b, i, size);
    slots + ItemImages(slots[3], s.next, key, value)
  }

  function SupersedeImages(s: Store, b: nat, i: nat, a: nat, key: int, value: string, size: nat): seq<Store>
    requires b < |s.table| && i < |s.table[b]| && a < s.next && HasRoom(s)
  {
    var o, x := s.table[b][i], s.pool[s.next];
    var s1 := SetItem(s, a, s.pool[a].(flag := 1));
    var s2 := SetSlot(s1, b, i, o.(size := Byte(size)));
    var s3 := SetSlot(s1, b, i, o.(size := Byte(size), addr := At(s.next)));
    var s4 := SetItem(s3, s.next, x.(value := value));
    var s5 := SetSlot(s4, b, i, Slot(At(s.next), o.busy, Byte(size), DEFAULT_LEASE));
    [s1, s2, s3, s4, s5, SetItem(s5, s.next, Item(key, x.flag, value))]
  }

  function FreeImages(s: Store, b: nat, i: nat, a: nat): seq<Store>
    requires b < |s.table| && i < |s.table[b]| && a < |s.pool|
  {
    [SetSlot(s, b, i, s.table[b][i].(busy := false)), Free(s, b, i, a)]
  }

  /** What a client relies on while it holds addresses learnt in state `s`. */
  ghost predicate Trusts(s: Store, t: Store)
  {
    Frozen(s, t) && Pinned(s, t)
  }

  lemma PublishImageTrusted(s: Store, b: nat, i: nat, key: int, value: string, size: nat, w: nat)
    requires Inv(s) && b < |s.table| && i < SLOTS && HasRoom(s) && !s.table[b][i].busy && w < 7
    ensures Trusts(s, PublishImages(s, b, i, key, value, size)[w])
  {
    var t := PublishImages(s, b, i, key, value, size)[w];
    assert forall a | 0 <= a < s.next :: t.pool[a] == s.pool[a];
    assert forall c: nat, j: nat, a: nat | Live(s, c, j, a) :: Points(t, c, j, a);
  }

  lemma SupersedeImageTrusted(s: Store, b: nat, i: nat, a: nat, key: int, value: string, size: nat, w: nat)
    requires Inv(s) && Points(s, b, i, a) && HasRoom(s) && w < 6
    ensures a < s.next && Trusts(s, SupersedeImages(s, b, i, a, key, value, size)[w])
  {
    PointsBelow(s, b, i, a);
    var t := SupersedeImages(s, b, i, a, key, value, size)[w];
    assert forall x | 0 <= x < s.next && x != a :: t.pool[x] == s.pool[x];
    assert forall c: nat, j: nat, x: nat | Live(s, c, j, x) && x != a :: Points(t, c, j, x);
  }

  lemma FreeImageTrusted(s: Store, b: nat, i: nat, a: nat, w: nat)
    requires Inv(s) && Points(s, b, i, a) && w < 2
    ensures Trusts(s, FreeImages(s, b, i, a)[w])
  {
  }

  /** The images of a whole operation; a search writes nothing. */
  function ExecImages(s: Store, op: Op): seq<Store>
    requires Shape(s) && Allowed(s, op)
  {
    var n := |s.table|;
    match op
    case Insertion(k, v, z) =>
      var b := Home(k, n);
      var i := FreeSlot(s.table[b]);
      if i == SLOTS then [] else PublishImages(s, b, i, k, v, z)
    case Change(k, v, z) =>
      var f := Search(s, k);
      if !f.Found? then [] else SupersedeImages(s, Home(k, n), f.slot, f.addr, k, v, z)
    case Query(_) => []
    case Deletion(k) => DeleteImages(s, Home(k, n), k, 0)
  }

  function DeleteImages(s: Store, b: nat, key: int, i: nat): seq<Store>
    requires Shape(s) && b < |s.table| && i <= SLOTS
    decreases SLOTS - i
  {
    if i == SLOTS then []
    else if Matches(s, b, i, key) then
      var a := s.table[b][i].addr.index;
      FreeImages(s, b, i, a) + DeleteImages(Free(s, b, i, a), b, key, i + 1)
    else DeleteImages(s, b, key, i + 1)
  }

  lemma {:induction false} DeleteImageTrusted(s: Store, b: nat, key: int, i: nat, w: nat)
    requires Inv(s) && b < |s.table| && i <= SLOTS && w < |DeleteImages(s, b, key, i)|
    ensures Trusts(s, DeleteImages(s, b, key, i)[w])
    decreases SLOTS - i
  {
    if Matches(s, b, i, key) {
      var a := s.table[b][i].addr.index;
      var t := Free(s, b, i, a);
      FreeKeeps(s, b, i, a);
      if w < 2 {
        FreeImageTrusted(s, b, i, a, w);
      } else {
        FreePins(s, b, i, a);
        DeleteImageTrusted(t, b, key, i + 1, w - 2);
        FrozenChain(s, t, DeleteImages(t, b, key, i + 1)[w - 2]);
        PinnedChain(s, t, DeleteImages(t, b, key, i + 1)[w - 2]);
      }
    } else {
      DeleteImageTrusted(s, b, key, i + 1, w);
    }
  }

  /** Also between two writes of an operation the addresses learnt before it can be trusted. */
  lemma ExecImageTrusted(s: Store, op: Op, w: nat)
    requires Inv(s) && Allowed(s, op) && w < |ExecImages(s, op)|
    ensures Trusts(s, ExecImages(s, op)[w])
  {
    match op {
      case Insertion(k, v, z) =>
        var b := Home(k, |s.table|);
        PublishImageTrusted(s, b, FreeSlot(s.table[b]), k, v, z, w);
      case Change(k, v, z) =>
        var f := Search(s, k);
        FoundPoints(s, k);
        SupersedeImageTrusted(s, Home(k, |s.table|), f.slot, f.addr, k, v, z, w);
      case Query(_) =>
      case Deletion(k) => DeleteImageTrusted(s, Home(k, |s.table|), k, 0, w);
    }
  }

  /** Once a search has returned slot `i` and item `a` for a key other than 0, then after any further run and in the
      middle of any next operation, an item `a` with flag 0 that still names the key is the one slot `i` points
      to, with the value it was published with. */
  lemma CachedAddressDuring(s: Store, ops: seq<Op>, op: Op, w: nat, key: int, i: nat, a: nat)
    requires Inv(s) && Homed(key, |s.table|) && key != 0 && Search(s, key) == Found(i, a)
    requires AllowedRun(s, ops) && Run(s, ops).Ended?
    requires Inv(Run(s, ops).store) && Allowed(Run(s, ops).store, op) && w < |ExecImages(Run(s, ops).store, op)|
    ensures var u := ExecImages(Run(s, ops).store, op)[w];
            && a < |s.pool| == |u.pool| && u.pool[a].value == s.pool[a].value
            && (Current(u, a, key) ==> Points(u, Home(key, |s.table|), i, a))
  {
    var t := Run(s, ops).store;
    var u, b := ExecImages(t, op)[w], Home(key, |s.table|);
    RunPins(s, ops);
    ExecImageTrusted(t, op, w);
    FrozenChain(s, t, u);
    PinnedChain(s, t, u);
    FoundIffLive(s, key, i, a);
    PointsBelow(s, b, i, a);
  }
}
