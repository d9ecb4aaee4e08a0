/** What each operation of HydraDB's table writes, and what is there to read between any two of its writes. */
module HydraWrites {
  import opened HydraModel
  import opened HydraRefinement
  import opened HydraCache

  // ---------------------------------------------------------------- what is written

  /** Outside slot `i` of bucket `b` and the items `a` and `s.next` nothing differs. */
  predicate SameElsewhere(s: Store, t: Store, b: nat, i: nat, a: nat)
  {
    && |t.table| == |s.table| && |t.pool| == |s.pool|
    && (forall c | 0 <= c < |s.table| :: |t.table[c]| == |s.table[c]|)
    && (forall c, j | 0 <= c < |s.table| && 0 <= j < |s.table[c]| && !(c == b && j == i) ::
          t.table[c][j] == s.table[c][j])
    && (forall x | 0 <= x < |s.pool| && x != a && x != s.next :: t.pool[x] == s.pool[x])
  }

  /** An insertion that answers 0 takes the first slot of its bucket that is not in use, and the next item. */
  lemma InsertWrites(s: Store, key: int, value: string, size: nat)
    requires Shape(s) && Homed(key, |s.table|) && HasRoom(s)
    ensures var (t, r) := Insert(s, key, value, size); var b := Home(key, |s.table|);
            r == 0 ==>
              exists i: nat ::
                && i < SLOTS && !s.table[b][i].busy && (forall j | 0 <= j < i :: s.table[b][j].busy)
                && SameElsewhere(s, t, b, i, s.next) && t.next == s.next + 1
                && t.table[b][i] == Slot(At(s.next), true, size % 256, 1)
                && t.pool[s.next] == Item(key, 0, value)
  {
    var b := Home(key, |s.table|);
    var i := FreeSlot(s.table[b]);
    if i < SLOTS {
      assert !s.table[b][i].busy;
    }
  }

  /** An update marks the old item with 1 and nothing else of it, and points its slot to the next item, whose flag it
      leaves as it was: the new item looks current only because the rest of the pool is unmarked. */
  lemma UpdateWrites(s: Store, key: int, value: string, size: nat)
    requires Shape(s) && Homed(key, |s.table|) && HasRoom(s) && Search(s, key).Found?
    ensures var t, b, f := Update(s, key, value, size), Home(key, |s.table|), Search(s, key);
            && f.addr < s.next && SameElsewhere(s, t, b, f.slot, f.addr) && t.next == s.next + 1
            && t.table[b][f.slot] == Slot(At(s.next), s.table[b][f.slot].busy, size % 256, 1)
            && t.pool[f.addr] == s.pool[f.addr].(flag := 1)
            && t.pool[s.next] == Item(key, s.pool[s.next].flag, value)
            && (Current(t, s.next, key) <==> s.pool[s.next].flag == 0)
  {
  }

  /** The slot belongs to the key's bucket and its item names the key. */
  predicate Names(s: Store, b: nat, i: nat, key: int)
  {
    b < |s.table| && i < |s.table[b]| && s.table[b][i].addr.At? && s.table[b][i].addr.index < |s.pool|
    && s.pool[s.table[b][i].addr.index].key == key
  }

  /** The slots that the loop has passed. */
  ghost predicate Freed(s: Store, t: Store, b: nat, key: int, lo: nat, hi: nat)
  {
    && |t.table| == |s.table| && |t.pool| == |s.pool| && t.next == s.next
    && (forall c | 0 <= c < |s.table| :: |t.table[c]| == |s.table[c]|)
    && (forall c: nat, j: nat | c < |s.table| && j < |s.table[c]| ::
          t.table[c][j] == if c == b && lo <= j < hi && Names(s, c, j, key) then s.table[c][j].(busy := false)
                           else s.table[c][j])
    && (forall x: nat | x < |s.pool| ::
          t.pool[x] == if exists j: nat :: lo <= j < hi && Names(s, b, j, key) && s.table[b][j].addr == At(x)
                       then s.pool[x].(key := 0) else s.pool[x])
  }

  lemma FreeOnce(s: Store, b: nat, key: int, i: nat)
    requires Shape(s) && Unshared(s) && b < |s.table| && i < SLOTS
    ensures Matches(s, b, i, key) ==> Freed(s, Free(s, b, i, s.table[b][i].addr.index), b, key, i, i + 1)
    ensures !Matches(s, b, i, key) ==> Freed(s, s, b, key, i, i + 1)
  {
    assert Matches(s, b, i, key) <==> Names(s, b, i, key);
    if Matches(s, b, i, key) {
      var a := s.table[b][i].addr.index;
      assert Names(s, b, i, key) && s.table[b][i].addr == At(a);
    }
  }

  lemma NamesLater(s: Store, t: Store, b: nat, key: int, i: nat, j: nat)
    requires Unshared(s) && Freed(s, t, b, key, i, i + 1) && i != j
    ensures Names(t, b, j, key) <==> Names(s, b, j, key)
  {
    if b < |s.table| && j < |s.table[b]| && s.table[b][j].addr.At? && s.table[b][j].addr.index < |s.pool| {
      var x := s.table[b][j].addr.index;
      assert Points(s, b, j, x);
      if k: nat :| i <= k < i + 1 && Names(s, b, k, key) && s.table[b][k].addr == At(x) {
        assert Points(s, b, k, x);
      }
    }
  }

  lemma FreedJoin(s: Store, u: Store, t: Store, b: nat, key: int, i: nat, hi: nat)
    requires Unshared(s) && i < hi && b < |s.table|
    requires Freed(s, u, b, key, i, i + 1) && Freed(u, t, b, key, i + 1, hi)
    ensures Freed(s, t, b, key, i, hi)
  {
    forall c: nat, j: nat | c < |s.table| && j < |s.table[c]|
      ensures t.table[c][j] == if c == b && i <= j < hi && Names(s, c, j, key) then s.table[c][j].(busy := false)
                               else s.table[c][j]
    {
      if c == b && j != i { NamesLater(s, u, b, key, i, j); }
    }
    forall x: nat | x < |s.pool|
      ensures t.pool[x] == if exists j: nat :: i <= j < hi && Names(s, b, j, key) && s.table[b][j].addr == At(x)
                           then s.pool[x].(key := 0) else s.pool[x]
    {
      FreedItem(s, u, t, b, key, i, hi, x);
    }
  }

  lemma FreedItem(s: Store, u: Store, t: Store, b: nat, key: int, i: nat, hi: nat, x: nat)
    requires Unshared(s) && i < hi && b < |s.table| && x < |s.pool|
    requires Freed(s, u, b, key, i, i + 1) && Freed(u, t, b, key, i + 1, hi)
    ensures t.pool[x] == if exists j: nat :: i <= j < hi && Names(s, b, j, key) && s.table[b][j].addr == At(x)
                         then s.pool[x].(key := 0) else s.pool[x]
  {
    forall j: nat | j != i ensures Names(u, b, j, key) <==> Names(s, b, j, key) {
      NamesLater(s, u, b, key, i, j);
    }
  }

  lemma {:induction false} DeleteFromWrites(s: Store, b: nat, key: int, i: nat)
    requires Inv(s) && b < |s.table| && i <= SLOTS
    ensures Freed(s, DeleteFrom(s, b, key, i), b, key, i, SLOTS)
    decreases SLOTS - i
  {
    if i < SLOTS {
      FreeOnce(s, b, key, i);
      if Matches(s, b, i, key) {
        var u := Free(s, b, i, s.table[b][i].addr.index);
        FreeKeeps(s, b, i, s.table[b][i].addr.index);
        DeleteFromWrites(u, b, key, i + 1);
        FreedJoin(s, u, DeleteFrom(u, b, key, i + 1), b, key, i, SLOTS);
      } else {
        DeleteFromWrites(s, b, key, i + 1);
        FreedJoin(s, s, DeleteFrom(s, b, key, i + 1), b, key, i, SLOTS);
      }
    }
  }

  /** A deletion frees every slot of its bucket whose item names the key, wipes the key out of
      those items, and changes no other field of the table or the pool. */
  lemma DeleteWrites(s: Store, key: int)
    requires Inv(s) && Homed(key, |s.table|)
    ensures Freed(s, Delete(s, key), Home(key, |s.table|), key, 0, SLOTS)
  {
    DeleteFromWrites(s, Home(key, |s.table|), key, 0);
  }

  // ---------------------------------------------------------------- in which order

  /** While an item is inserted its slot already points to it, and from the fourth write on is in use, before the item
      names its key; and it names its key before it carries its value. */
  lemma InsertOrder(s: Store, b: nat, i: nat, key: int, value: string, size: nat, w: nat)
    requires Shape(s) && b < |s.table| && i < SLOTS && HasRoom(s) && w < 7
    ensures var t, x, o := PublishImages(s, b, i, key, value, size)[w], s.table[b][i], s.pool[s.next];
            && SameElsewhere(s, t, b, i, s.next) && t.next == s.next + (if w >= 1 then 1 else 0)
            && t.table[b][i] == Slot(At(s.next), if w >= 3 then true else x.busy,
                                     if w >= 1 then size % 256 else x.size, if w >= 2 then 1 else x.lease)
            && t.pool[s.next] == Item(if w >= 4 then key else o.key, if w >= 5 then 0 else o.flag,
                                      if w >= 6 then value else o.value)
            && (Names(t, b, i, key) <==> w >= 4 || o.key == key)
  {
  }

  /** While a slot is updated the old item is marked first.  From the third to the fifth write the slot points to an
      item that does not name the key yet, so a search of the bucket passes it by. */
  lemma UpdateOrder(s: Store, b: nat, i: nat, a: nat, key: int, value: string, size: nat, w: nat)
    requires Shape(s) && b < |s.table| && i < SLOTS && a < s.next && HasRoom(s) && w < 6
    requires s.table[b][i].addr == At(a) && s.pool[a].key == key
    ensures var t, x, o := SupersedeImages(s, b, i, a, key, value, size)[w], s.table[b][i], s.pool[s.next];
            && SameElsewhere(s, t, b, i, a) && t.next == s.next
            && t.pool[a] == s.pool[a].(flag := 1)
            && t.table[b][i] == Slot(At(if w >= 2 then s.next else a), x.busy,
                                     if w >= 1 then size % 256 else x.size, if w >= 4 then 1 else x.lease)
            && t.pool[s.next] == Item(if w >= 5 then key else o.key, o.flag, if w >= 3 then value else o.value)
            && (Names(t, b, i, key) <==> w < 2 || w >= 5 || o.key == key)
  {
  }

  /** A slot is free for the next insertion before its item loses the key. */
  lemma FreeOrder(s: Store, b: nat, i: nat, a: nat, key: int, w: nat)
    requires Shape(s) && b < |s.table| && i < SLOTS && a < s.next && w < 2
    requires s.table[b][i].addr == At(a) && s.pool[a].key == key
    ensures var t := FreeImages(s, b, i, a)[w];
            && SameElsewhere(s, t, b, i, a) && t.next == s.next
            && t.table[b][i] == s.table[b][i].(busy := false)
            && t.pool[a] == s.pool[a].(key := if w == 0 then key else 0)
            && (s.next < |s.pool| ==> t.pool[s.next] == s.pool[s.next])
  {
  }

  // ---------------------------------------------------------------- where the writes lead

  /** What the last write leaves; without a write, the state as it was. */
  function LastOf(s: Store, images: seq<Store>): Store
  {
    if images == [] then s else images[|images| - 1]
  }

  lemma PublishLast(s: Store, b: nat, i: nat, key: int, value: string, size: nat)
    requires b < |s.table| && i < |s.table[b]| && HasRoom(s)
    ensures PublishImages(s, b, i, key, value, size)[6] == Publish(s, b, i, key, value, size)
  {
  }

  lemma SupersedeLast(s: Store, b: nat, i: nat, a: nat, key: int, value: string, size: nat)
    requires b < |s.table| && i < |s.table[b]| && a < s.next && HasRoom(s)
    ensures SupersedeImages(s, b, i, a, key, value, size)[5].(next := s.next + 1) ==
            Supersede(s, b, i, a, key, value, size)
  {
    var u := SetItem(s, a, s.pool[a].(flag := 1));
    assert u.pool[s.next := u.pool[s.next].(value := value)][s.next := Item(key, s.pool[s.next].flag, value)] ==
           u.pool[s.next := Item(key, s.pool[s.next].flag, value)];
    var x, y, z := Slot(At(s.next), s.table[b][i].busy, Byte(size), DEFAULT_LEASE),
                   s.table[b][i].(size := Byte(size)), s.table[b][i].(size := Byte(size), addr := At(s.next));
    assert s.table[b][i := z][i := x] == s.table[b][i := x];
  }

  lemma {:induction false} DeleteLast(s: Store, b: nat, key: int, i: nat)
    requires Shape(s) && b < |s.table| && i <= SLOTS
    ensures LastOf(s, DeleteImages(s, b, key, i)) == DeleteFrom(s, b, key, i)
    decreases SLOTS - i
  {
    if i < SLOTS {
      if Matches(s, b, i, key) {
        DeleteLast(Free(s, b, i, s.table[b][i].addr.index), b, key, i + 1);
      } else {
        DeleteLast(s, b, key, i + 1);
      }
    }
  }

  /** The writes of an operation lead to its result; an update counts its item after the last of them. */
  lemma ExecLast(s: Store, op: Op)
    requires Inv(s) && Allowed(s, op) && Exec(s, op).Running?
    ensures var last := LastOf(s, ExecImages(s, op));
            Exec(s, op).store == if op.Change? then last.(next := last.next + 1) else last
  {
    var b := Home(op.key, |s.table|);
    match op {
      case Insertion(k, v, z) =>
        var i := FreeSlot(s.table[b]);
        if i < SLOTS { PublishLast(s, b, i, k, v, z); }
      case Change(k, v, z) =>
        var f := Search(s, k);
        FoundPoints(s, k);
        PointsBelow(s, b, f.slot, f.addr);
        SupersedeLast(s, b, f.slot, f.addr, k, v, z);
        UpdateOrder(s, b, f.slot, f.addr, k, v, z, 5);
      case Query(_) =>
      case Deletion(k) => DeleteLast(s, b, k, 0);
    }
  }
}
