/** What happens to an item after its insert: displacements carry the whole bucket along, and its version counters count
    its updates over every run. */
module HopscotchHistory {
  import opened HopscotchModel
  import opened HopscotchRefinement
  import opened HopscotchVersions
  import opened HopscotchFailures

  // ---------------------------------------------------------------- displacements carry items along

  /** The two slots hold the same item, field by field. */
  predicate SameItem(s: Mem, x: nat, t: Mem, y: nat)
  {
    x < |s| && y < |t| && t[y] == s[x].(hopinfo := t[y].hopinfo)
  }

  /** Slot `y` of `t` is owned and holds the item of slot `x` of `s`. */
  predicate Lands(s: Mem, x: nat, t: Mem, y: nat)
  {
    Owned(t, y) && SameItem(s, x, t, y)
  }

  /** Every owned item of `s` is owned in `t`, in whatever slot. */
  ghost predicate Carries(s: Mem, t: Mem)
  {
    forall x: nat {:trigger Owned(s, x)} | Owned(s, x) :: exists y: nat :: Lands(s, x, t, y)
  }

  lemma CarriesOn(s: Mem, t: Mem, u: Mem)
    requires Carries(s, t) && Carries(t, u)
    ensures Carries(s, u)
  {
    forall x: nat {:trigger Owned(s, x)} | Owned(s, x) ensures exists y: nat :: Lands(s, x, u, y) {
      var z: nat :| Lands(s, x, t, z);
      var y: nat :| Lands(t, z, u, y);
      assert Lands(s, x, u, y);
    }
  }

  lemma MoveBuckets(s: Mem, hole: nat, j: nat, x: nat)
    requires hole < |s| && j < 32 && CanMove(s, hole, j) && x < |s|
    ensures SameItem(s, if x == hole then Source(s, hole, j) else x, Move(s, hole, j), x)
  {
  }

  /** A displacement carries every item along and brings in none. */
  lemma MoveCarries(s: Mem, hole: nat, j: nat)
    requires Inv(s) && hole < |s| && j < H && CanMove(s, hole, j) && !Owned(s, hole)
    ensures Carries(s, Move(s, hole, j)) && Carries(Move(s, hole, j), s)
  {
    var t, from := Move(s, hole, j), Source(s, hole, j);
    assert Moved(s, t, hole, hole - j, from) by { MoveShape(s, hole, j); }
    MovedItems(s, t, hole, hole - j, from);
    forall x: nat {:trigger Owned(s, x)} | Owned(s, x) ensures exists y: nat :: Lands(s, x, t, y) {
      var y := if x == from then hole else x;
      MoveBuckets(s, hole, j, y);
      MovedOwns(s, t, hole, from, y);
      assert Lands(s, x, t, y);
    }
    forall y: nat {:trigger Owned(t, y)} | Owned(t, y) ensures exists x: nat :: Lands(t, y, s, x) {
      var x := if y == hole then from else y;
      MoveBuckets(s, hole, j, y);
      MovedOwns(s, t, hole, from, y);
      assert Lands(t, y, s, x);
    }
  }

  lemma MovedOwns(s: Mem, t: Mem, hole: nat, from: nat, y: nat)
    requires ItemMoved(s, t, hole, from) && y < |s|
    ensures Owned(t, y) <==> if y == hole then Owned(s, from) else y != from && Owned(s, y)
  {
    assert Owned(t, y) <==> Item(t, y) != multiset{};
    assert Owned(s, y) <==> Item(s, y) != multiset{};
    assert Owned(s, from) <==> Item(s, from) != multiset{};
  }

  lemma {:induction false} DisplaceCarries(s: Mem, hole: nat, home: nat)
    requires Inv(s) && home <= hole < |s| && !Owned(s, hole)
    ensures Carries(s, Displace(s, hole, home).mem) && Carries(Displace(s, hole, home).mem, s)
    decreases hole
  {
    hide Carries, Contents, HopsOk, Owned;
    if hole - home < H || FindMove(s, hole) >= H {
      CarriesSame(s);
    } else {
      var j := FindMove(s, hole);
      var t := Move(s, hole, j);
      MoveKeeps(s, hole, j);
      MoveCarries(s, hole, j);
      DisplaceCarries(t, Source(s, hole, j), home);
      var u := Displace(t, Source(s, hole, j), home).mem;
      CarriesOn(s, t, u);
      CarriesOn(u, t, s);
    }
  }

  /** The item that an insert brings. */
  predicate NewItem(t: Mem, y: nat, key: int, data: int)
  {
    y < |t| && t[y] == Bucket(key, 1, data, 0, 1, t[y].hopinfo)
  }

  /** Every owned item of `t` was in `s`, or is the new one. */
  ghost predicate Brings(s: Mem, t: Mem, key: int, data: int)
  {
    forall y: nat {:trigger Owned(t, y)} | Owned(t, y) :: NewItem(t, y, key, data) || exists x: nat :: Lands(t, y, s, x)
  }

  lemma PublishBuckets(s: Mem, hole: nat, home: nat, key: int, data: int, x: nat)
    requires home <= hole < |s| && hole - home < H && x < |s| && x != hole
    ensures var t := Publish(s, hole, home, key, data); SameItem(s, x, t, x) && SameItem(t, x, s, x)
  {
  }

  lemma PublishNew(s: Mem, hole: nat, key: int, data: int)
    requires Inv(s) && Homed(key, |s|) && Home(key, |s|) <= hole < |s| && hole - Home(key, |s|) < H && !Owned(s, hole)
    ensures var t := Publish(s, hole, Home(key, |s|), key, data);
            Owned(t, hole) && NewItem(t, hole, key, data) && ItemsBut(s, t, hole)
  {
    var home := Home(key, |s|);
    var t := Publish(s, hole, home, key, data);
    PublishShape(s, hole, home, key, data);
    PublishedItems(s, t, hole, home, key, data);
    assert Item(t, hole) == multiset{(key, data)};
  }

  lemma PublishCarries(s: Mem, hole: nat, key: int, data: int)
    requires Inv(s) && Homed(key, |s|) && Home(key, |s|) <= hole < |s| && hole - Home(key, |s|) < H && !Owned(s, hole)
    ensures var t := Publish(s, hole, Home(key, |s|), key, data);
            Carries(s, t) && Brings(s, t, key, data) && Owned(t, hole) && NewItem(t, hole, key, data)
  {
    var home := Home(key, |s|);
    var t := Publish(s, hole, home, key, data);
    PublishNew(s, hole, key, data);
    hide Publish, Owned, SameItem, NewItem, HopsOk, Item;
    forall x: nat {:trigger Owned(s, x)} | Owned(s, x) ensures exists y: nat :: Lands(s, x, t, y) {
      OwnedInside(s, x);
      OwnedBefore(t, s, x);
      PublishBuckets(s, hole, home, key, data, x);
      assert Lands(s, x, t, x);
    }
    forall y: nat {:trigger Owned(t, y)} | Owned(t, y) && y != hole ensures exists x: nat :: Lands(t, y, s, x) {
      OwnedInside(t, y);
      OwnedBefore(s, t, y);
      PublishBuckets(s, hole, home, key, data, y);
      assert Lands(t, y, s, y);
    }
  }

  lemma OwnedInside(s: Mem, x: nat)
    requires Owned(s, x)
    ensures x < |s|
  {
  }

  /** Through an insert, whatever it displaces, every stored item keeps its key, data, lock and both version counters;
      the new item, if there is one, starts with version 1 in both. */
  lemma InsertCarries(s: Mem, key: int, data: int)
    requires Inv(s) && Homed(key, |s|)
    ensures var (t, r) := Insert(s, key, data);
            && Carries(s, t) && Brings(s, t, key, data)
            && (r == -1 ==> Carries(t, s))
            && (r == 0 ==> exists y: nat :: Owned(t, y) && NewItem(t, y, key, data))
  {
    var home := Home(key, |s|);
    var hole := Probe(s, home);
    hide Carries, Brings, Contents, HopsOk, Owned, NewItem;
    if hole == |s| {
      CarriesSame(s);
      CarriesBrings(s, s, key, data);
    } else {
      HoleFree(s, hole);
      DisplaceKeeps(s, hole, home);
      DisplaceCarries(s, hole, home);
      var d := Displace(s, hole, home);
      if d.Room? {
        var t := Publish(d.mem, d.hole, home, key, data);
        PublishCarries(d.mem, d.hole, key, data);
        CarriesOn(s, d.mem, t);
        BringsBack(s, d.mem, t, key, data);
      } else {
        CarriesBrings(s, d.mem, key, data);
      }
    }
  }

  lemma HoleFree(s: Mem, hole: nat)
    requires hole < |s| && s[hole].key == EMPTY
    ensures !Owned(s, hole)
  {
  }

  lemma CarriesBrings(s: Mem, t: Mem, key: int, data: int)
    requires Carries(t, s)
    ensures Brings(s, t, key, data)
  {
  }

  lemma CarriesSame(s: Mem)
    ensures Carries(s, s)
  {
    forall x: nat {:trigger Owned(s, x)} | Owned(s, x) ensures exists y: nat :: Lands(s, x, s, y) {
      assert Lands(s, x, s, x);
    }
  }

  lemma BringsBack(s: Mem, u: Mem, t: Mem, key: int, data: int)
    requires Carries(u, s) && Brings(u, t, key, data)
    ensures Brings(s, t, key, data)
  {
    forall y: nat {:trigger Owned(t, y)} | Owned(t, y) && !NewItem(t, y, key, data)
      ensures exists x: nat :: Lands(t, y, s, x)
    {
      var z: nat :| Lands(t, y, u, z);
      var x: nat :| Lands(u, z, s, x);
      assert Lands(t, y, s, x);
    }
  }

  // ---------------------------------------------------------------- what updates and removals leave alone

  /** Slot `x` holds the pair that a lookup of the key answers with. */
  ghost predicate Answering(s: Mem, key: int, x: nat)
    requires Homed(key, |s|)
  {
    Owned(s, x) && s[x].key == key && s[x].data == Lookup(s, key)
  }

  /** Slot `x` has new data and is one version on, unlocked; nothing else has changed. */
  predicate Rewritten(s: Mem, t: Mem, x: nat, nval: int)
  {
    && x < |s| == |t|
    && t[x] == s[x].(data := nval, lock := 0, headerVersion := (s[x].headerVersion + 1) % 0x1_0000_0000_0000_0000,
                     cVer := (s[x].cVer + 1) % 0x100)
    && (forall y | 0 <= y < |s| && y != x :: t[y] == s[y])
  }

  /** An update of a stored key rewrites the slot that lookup answers from. */
  lemma UpdateChanges(s: Mem, key: int, nval: int)
    requires Inv(s) && Homed(key, |s|) && Stored(s, key)
    ensures exists x: nat :: Answering(s, key, x) && Rewritten(s, Update(s, key, nval).0, x, nval)
  {
    FoundIffStored(s, key);
    OffsetFound(s, key);
    var x: nat := Home(key, |s|) + FindOffset(s, key);
    assert Answering(s, key, x) && Rewritten(s, Update(s, key, nval).0, x, nval);
  }

  /** Key and data of slot `x` are -1 and its bit is out of the bitmap of bucket `h`; versions, lock and everything
      else are as before. */
  predicate Wiped(s: Mem, t: Mem, x: nat, h: nat)
  {
    && h <= x < |s| == |t|
    && t[x] == s[x].(key := -1, data := -1, hopinfo := t[x].hopinfo)
    && (forall y | 0 <= y < |s| && y != x :: t[y] == s[y].(hopinfo := t[y].hopinfo))
    && (forall y | 0 <= y < |s| :: t[y].hopinfo == if y == h then s[y].hopinfo - {x - h} else s[y].hopinfo)
  }

  lemma ClearWipes(s: Mem, h: nat, o: nat)
    requires h + o < |s|
    ensures Wiped(s, ClearSlot(s, h, o), h + o, h)
  {
  }

  /** A removal of a stored key wipes the slot that lookup answers from. */
  lemma RemoveChanges(s: Mem, key: int)
    requires Inv(s) && Homed(key, |s|) && Stored(s, key)
    ensures exists x: nat :: Answering(s, key, x) && Wiped(s, Remove(s, key).0, x, Home(key, |s|))
  {
    FoundIffStored(s, key);
    OffsetFound(s, key);
    var h, o := Home(key, |s|), FindOffset(s, key);
    ClearWipes(s, h, o);
    hide ClearSlot, Wiped;
    var x: nat := h + o;
    assert Answering(s, key, x) && Wiped(s, Remove(s, key).0, x, h);
  }

  // ---------------------------------------------------------------- versions over whole runs

  /** The number of updates of a key since its last insert. */
  function Updates(ops: seq<Op>, key: int): nat
  {
    if ops == [] then 0
    else
      var op, before := ops[|ops| - 1], Updates(ops[..|ops| - 1], key);
      if op.key != key then before
      else match op case Put(_, _) => 0 case Set(_, _) => before + 1 case _ => before
  }

  /** Both counters count, each in its own width. */
  predicate Counts(b: Bucket, n: nat)
  {
    b.headerVersion == (1 + n) % 0x1_0000_0000_0000_0000 && b.cVer == (1 + n) % 0x100
  }

  ghost predicate Counted(s: Mem, ops: seq<Op>)
  {
    forall x: nat {:trigger Owned(s, x)} | Owned(s, x) :: Counts(s[x], Updates(ops, s[x].key))
  }

  /** Each key is stored in one pair, once. */
  ghost predicate SingleKeys(c: multiset<Pair>)
  {
    UniqueKeys(c) && forall p | p in c :: c[p] == 1
  }

  lemma {:induction false} TwiceStored(s: Mem, x: nat, y: nat, n: nat)
    requires x < y < n <= |s| && Owned(s, x) && Owned(s, y) && s[x].key == s[y].key && s[x].data == s[y].data
    ensures ItemsUpTo(s, n)[(s[x].key, s[x].data)] >= 2
    decreases n
  {
    hide Owned;
    if n - 1 == y {
      ItemStored(s, x, y);
      assert (s[x].key, s[x].data) in Item(s, x);
    } else {
      TwiceStored(s, x, y, n - 1);
    }
  }

  lemma OneSlot(s: Mem, x: nat, y: nat)
    requires SingleKeys(Contents(s)) && Owned(s, x) && Owned(s, y) && s[x].key == s[y].key
    ensures x == y
  {
    OwnedStored(s, x);
    OwnedStored(s, y);
    if x < y {
      TwiceStored(s, x, y, |s|);
    } else if y < x {
      TwiceStored(s, y, x, |s|);
    }
  }

  lemma SingleReplaced(c: multiset<Pair>, k: int, e: int, d: int)
    requires SingleKeys(c) && (k, e) in c
    ensures SingleKeys(c - multiset{(k, e)} + multiset{(k, d)}) && SingleKeys(c - multiset{(k, e)})
  {
    var u, c' := c - multiset{(k, e)}, c - multiset{(k, e)} + multiset{(k, d)};
    forall p | p in u ensures p in c && p.0 != k && u[p] == 1 {
      assert p.0 == k ==> p == (k, e);
    }
    forall p | p in c' ensures (p == (k, d) || p in u) && c'[p] == 1 {
    }
  }

  lemma KeyStored(c: multiset<Pair>, p: Pair)
    requires p in c
    ensures exists e :: (p.0, e) in c
  {
    var (k, e) := p;
    assert (k, e) in c;
  }

  lemma SingleAdded(c: multiset<Pair>, k: int, d: int)
    requires SingleKeys(c) && !exists e :: (k, e) in c
    ensures SingleKeys(c + multiset{(k, d)})
  {
    var c' := c + multiset{(k, d)};
    forall p | p in c ensures p.0 != k {
      KeyStored(c, p);
    }
    forall p | p in c' ensures (p == (k, d) || p in c) && c'[p] == 1 {
      assert (k, d) !in c;
    }
  }

  lemma SingleStep(c: multiset<Pair>, op: Op, c': multiset<Pair>, r: int, missing: int)
    requires SingleKeys(c) && Spec(c, op, c', r, missing) && (op.Put? ==> !exists d :: (op.key, d) in c)
    ensures SingleKeys(c')
  {
    var found := exists d :: (op.key, d) in c;
    match op
    case Put(k, d) => SingleAdded(c, k, d);
    case Set(k, d) =>
      if found {
        var e :| (k, e) in c && c' == c - multiset{(k, e)} + multiset{(k, d)};
        SingleReplaced(c, k, e, d);
      }
    case Get(k) =>
    case Del(k) =>
      if found {
        SingleReplaced(c, k, r, 0);
      }
  }

  /** A run in which only keys that are not stored are inserted. */
  ghost predicate NewKeys(states: seq<Mem>, ops: seq<Op>, answers: seq<int>)
  {
    Run(states, ops, answers) &&
    forall i | 0 <= i < |ops| && ops[i].Put? :: !Stored(states[i], ops[i].key)
  }

  lemma CountOne(b: Bucket, n: nat, nval: int)
    requires Counts(b, n)
    ensures Counts(UpdatedBucket(b, nval), n + 1)
  {
    CountLong(1 + n);
    CountShort(1 + n);
  }

  lemma UpdatesLast(ops: seq<Op>, op: Op, key: int)
    ensures Updates(ops + [op], key) ==
            if op.key != key then Updates(ops, key)
            else match op case Put(_, _) => 0 case Set(_, _) => Updates(ops, key) + 1 case _ => Updates(ops, key)
  {
    assert (ops + [op])[..|ops|] == ops;
  }

  lemma HeldCounts(s: Mem, t: Mem, y: nat, ops: seq<Op>, op: Op, x: nat)
    requires Counted(s, ops) && Lands(t, y, s, x) && op.key != t[y].key
    ensures Counts(t[y], Updates(ops + [op], t[y].key))
  {
    UpdatesLast(ops, op, t[y].key);
  }

  lemma PutSlot(s: Mem, t: Mem, y: nat, ops: seq<Op>, k: int, d: int)
    requires Counted(s, ops) && !Stored(s, k) && Brings(s, t, k, d) && Owned(t, y)
    ensures Counts(t[y], Updates(ops + [Put(k, d)], t[y].key))
  {
    if NewItem(t, y, k, d) {
      UpdatesLast(ops, Put(k, d), k);
    } else {
      var x: nat :| Lands(t, y, s, x);
      OwnedStored(s, x);
      hide Contents, Owned;
      HeldCounts(s, t, y, ops, Put(k, d), x);
    }
  }

  lemma CountedIs(t: Mem, ops: seq<Op>)
    requires forall y: nat {:trigger Owned(t, y)} | Owned(t, y) :: Counts(t[y], Updates(ops, t[y].key))
    ensures Counted(t, ops)
  {
  }

  lemma PutCounted(s: Mem, ops: seq<Op>, k: int, d: int)
    requires Inv(s) && Homed(k, |s|) && Counted(s, ops) && !Stored(s, k)
    ensures Counted(Insert(s, k, d).0, ops + [Put(k, d)])
  {
    var t := Insert(s, k, d).0;
    InsertCarries(s, k, d);
    hide Counted, Brings, Carries, Insert, HopsOk, Stored, Updates, Counts;
    forall y: nat {:trigger Owned(t, y)} | Owned(t, y)
      ensures Counts(t[y], Updates(ops + [Put(k, d)], t[y].key))
    {
      PutSlot(s, t, y, ops, k, d);
    }
    CountedIs(t, ops + [Put(k, d)]);
  }

  lemma SetSlot(s: Mem, z: nat, y: nat, ops: seq<Op>, d: int)
    requires Counted(s, ops) && SingleKeys(Contents(s)) && Owned(s, z)
    requires Owned(s[z := UpdatedBucket(s[z], d)], y)
    ensures var t := s[z := UpdatedBucket(s[z], d)]; Counts(t[y], Updates(ops + [Set(s[z].key, d)], t[y].key))
  {
    var t, op := s[z := UpdatedBucket(s[z], d)], Set(s[z].key, d);
    UpdateShape(s, z, d);
    UpdatedItems(s, t, z);
    UpdatesLast(ops, op, t[y].key);
    if y == z {
      CountOne(s[z], Updates(ops, s[z].key), d);
    } else {
      OwnedBefore(s, t, y);
      if s[y].key == s[z].key { OneSlot(s, y, z); }
    }
  }

  lemma SetCounted(s: Mem, ops: seq<Op>, k: int, d: int)
    requires Inv(s) && Homed(k, |s|) && Counted(s, ops) && SingleKeys(Contents(s))
    ensures Counted(Update(s, k, d).0, ops + [Set(k, d)])
  {
    var t, all := Update(s, k, d).0, ops + [Set(k, d)];
    FoundIffStored(s, k);
    if FindOffset(s, k) < H {
      OffsetFound(s, k);
      var z := Home(k, |s|) + FindOffset(s, k);
      assert t == s[z := UpdatedBucket(s[z], d)];
      hide Counted, Update, UpdatedBucket, HopsOk, FindOffset, SingleKeys, Contents, Owned, Updates, Counts;
      forall y: nat {:trigger Owned(t, y)} | Owned(t, y) ensures Counts(t[y], Updates(all, t[y].key)) {
        SetSlot(s, z, y, ops, d);
      }
      CountedIs(t, all);
    } else {
      hide HopsOk, FindOffset, SingleKeys, Contents, Owned, Updates, Counts;
      forall y: nat {:trigger Owned(s, y)} | Owned(s, y) ensures Counts(s[y], Updates(all, s[y].key)) {
        OwnedStored(s, y);
        UpdatesLast(ops, Set(k, d), s[y].key);
      }
      CountedIs(s, all);
    }
  }

  lemma DelSlot(s: Mem, h: nat, o: nat, y: nat, ops: seq<Op>)
    requires Counted(s, ops) && Owned(s, h + o) && Home(s[h + o].key, |s|) == h && Owned(ClearSlot(s, h, o), y)
    ensures Counts(ClearSlot(s, h, o)[y], Updates(ops, ClearSlot(s, h, o)[y].key))
  {
    var t := ClearSlot(s, h, o);
    assert Removed(s, t, h, h + o) by { RemoveShape(s, h, o); }
    RemovedItems(s, t, h, h + o);
    OwnedBefore(s, t, y);
  }

  lemma DelCounted(s: Mem, ops: seq<Op>, k: int)
    requires Inv(s) && Homed(k, |s|) && Counted(s, ops)
    ensures Counted(Remove(s, k).0, ops + [Del(k)])
  {
    var t, all := Remove(s, k).0, ops + [Del(k)];
    var h, o := Home(k, |s|), FindOffset(s, k);
    if o < H {
      OffsetFound(s, k);
      assert t == ClearSlot(s, h, o);
      hide Remove, ClearSlot, HopsOk, FindOffset, Contents, Owned, Updates, Counts, Counted;
      forall y: nat {:trigger Owned(t, y)} | Owned(t, y) ensures Counts(t[y], Updates(all, t[y].key)) {
        DelSlot(s, h, o, y, ops);
        UpdatesLast(ops, Del(k), t[y].key);
      }
      CountedIs(t, all);
    } else {
      assert t == s;
      hide Remove, HopsOk, FindOffset, Contents, Owned, Updates, Counts;
      forall y: nat {:trigger Owned(s, y)} | Owned(s, y) ensures Counts(s[y], Updates(all, s[y].key)) {
        UpdatesLast(ops, Del(k), s[y].key);
      }
      CountedIs(s, all);
    }
  }

  lemma GetCounted(s: Mem, ops: seq<Op>, k: int)
    requires Counted(s, ops)
    ensures Counted(s, ops + [Get(k)])
  {
    assert (ops + [Get(k)])[..|ops|] == ops;
  }

  lemma CountedStep(s: Mem, op: Op, ops: seq<Op>)
    requires Inv(s) && Homed(op.key, |s|) && Counted(s, ops) && SingleKeys(Contents(s))
    requires op.Put? ==> !Stored(s, op.key)
    ensures var t := Exec(s, op).0; |t| == |s| && Inv(t) && Counted(t, ops + [op]) && SingleKeys(Contents(t))
  {
    var (t, r) := Exec(s, op);
    ExecRefines(s, op);
    SingleStep(Contents(s), op, Contents(t), r, MissingAnswer(Contents(s), op.key, |s|));
    hide Counted, Contents, SingleKeys, Spec, HopsOk, Insert, Update, Remove, Lookup, Stored;
    match op
    case Put(k, d) => PutCounted(s, ops, k, d);
    case Set(k, d) => SetCounted(s, ops, k, d);
    case Get(k) => GetCounted(s, ops, k);
    case Del(k) => DelCounted(s, ops, k);
  }

  lemma NewKeysStep(states: seq<Mem>, ops: seq<Op>, answers: seq<int>, i: nat)
    requires NewKeys(states, ops, answers) && i < |ops|
    ensures |states| == |ops| + 1 == |answers| + 1 && Step(states[i], ops[i], states[i + 1], answers[i])
    ensures ops[i].Put? ==> !Stored(states[i], ops[i].key)
  {
  }

  lemma {:induction false} RunCounted(states: seq<Mem>, ops: seq<Op>, answers: seq<int>, n: nat)
    requires NewKeys(states, ops, answers) && |states[0]| > 1 && states[0] == EmptyTable(|states[0]|) && n <= |ops|
    ensures Inv(states[n]) && Counted(states[n], ops[..n]) && SingleKeys(Contents(states[n]))
  {
    if n == 0 {
      EmptyContents(|states[0]|, |states[0]|);
    } else {
      RunCounted(states, ops, answers, n - 1);
      NewKeysStep(states, ops, answers, n - 1);
      assert ops[..n] == ops[..n - 1] + [ops[n - 1]];
      hide Counted, Contents, SingleKeys, HopsOk, Exec, NewKeys;
      CountedStep(states[n - 1], ops[n - 1], ops[..n - 1]);
    }
  }

  /** Over every run from the empty table in which no stored key is inserted again, a stored item is unlocked, its
      version counters are 1 and the number of its updates since its insert, in 64 and in 8 bits, whatever displacements
      it went through, and the readers' test accepts it exactly while the long counter fits in a byte. */
  lemma RunVersionsCount(states: seq<Mem>, ops: seq<Op>, answers: seq<int>, n: nat, x: nat)
    requires NewKeys(states, ops, answers) && |states[0]| > 1 && states[0] == EmptyTable(|states[0]|) && n <= |ops|
    requires Owned(states[n], x)
    ensures var b := states[n][x]; var v := 1 + Updates(ops[..n], b.key);
            && b.lock == 0 && b.headerVersion == v % 0x1_0000_0000_0000_0000 && b.cVer == v % 0x100
            && (Accepts(b) <==> v % 0x1_0000_0000_0000_0000 < 0x100)
  {
    RunCounted(states, ops, answers, n);
    RunQuiescent(states, ops, answers, n);
    NarrowFits(1 + Updates(ops[..n], states[n][x].key));
  }
}
