/** The hop bitmaps make the table a multiset of (key, data) pairs, whatever displacements happen. */
module HopscotchRefinement {
  import opened HopscotchModel

  // ---------------------------------------------------------------- contents, slot by slot

  /** The two tables contribute the same items outside slot `x`. */
  ghost predicate ItemsBut(s: Mem, t: Mem, x: nat)
  {
    |t| == |s| && forall y: nat | y < |s| && y != x :: Item(t, y) == Item(s, y)
  }

  lemma OwnedBefore(s: Mem, t: Mem, x: nat)
    requires |s| == |t| && Owned(t, x) && Item(s, x) == Item(t, x)
    ensures Owned(s, x)
  {
    assert (t[x].key, t[x].data) in Item(t, x);
  }

  lemma AddToBoth(a: multiset<Pair>, b: multiset<Pair>, x: multiset<Pair>, p: multiset<Pair>, n: multiset<Pair>)
    requires b + x == a + p
    ensures (b + n) + x == (a + n) + p
  {
    assert (b + n) + x == (b + x) + n;
    assert (a + n) + p == (a + p) + n;
  }

  lemma {:induction false} SameItems(s: Mem, t: Mem, n: nat)
    requires n <= |s| && n <= |t| && forall y: nat | y < n :: Item(t, y) == Item(s, y)
    ensures ItemsUpTo(t, n) == ItemsUpTo(s, n)
  {
    if n > 0 {
      SameItems(s, t, n - 1);
    }
  }

  lemma ItemsDifferLast(s: Mem, t: Mem, x: nat)
    requires ItemsBut(s, t, x) && x < |s|
    ensures ItemsUpTo(t, x + 1) + Item(s, x) == ItemsUpTo(s, x + 1) + Item(t, x)
  {
    SameItems(s, t, x);
    AddToBoth(ItemsUpTo(s, x), ItemsUpTo(t, x), Item(t, x), Item(t, x), Item(s, x));
  }

  lemma {:induction false} ItemsDiffer(s: Mem, t: Mem, x: nat, n: nat)
    requires ItemsBut(s, t, x) && x < n <= |s|
    ensures ItemsUpTo(t, n) + Item(s, x) == ItemsUpTo(s, n) + Item(t, x)
  {
    if x == n - 1 {
      ItemsDifferLast(s, t, x);
    } else {
      ItemsDiffer(s, t, x, n - 1);
      AddToBoth(ItemsUpTo(s, n - 1), ItemsUpTo(t, n - 1), Item(s, x), Item(t, x), Item(s, n - 1));
      assert ItemsUpTo(t, n) == ItemsUpTo(t, n - 1) + Item(s, n - 1);
    }
  }

  lemma Exchange(a: multiset<Pair>, b: multiset<Pair>, p: multiset<Pair>, y: multiset<Pair>)
    requires p <= a && b + p == a + y
    ensures b == a - p + y
  {
    assert b == (b + p) - p;
    assert a + y == (a - p + y) + p;
  }

  lemma {:induction false} ItemStored(s: Mem, x: nat, n: nat)
    requires x < n <= |s|
    ensures Item(s, x) <= ItemsUpTo(s, n)
  {
    if x < n - 1 {
      ItemStored(s, x, n - 1);
    }
  }

  /** The effect on the contents of changing what one slot contributes. */
  lemma ContentsChange(s: Mem, t: Mem, x: nat)
    requires x < |s| && ItemsBut(s, t, x)
    ensures Item(s, x) <= Contents(s) && Contents(t) == Contents(s) - Item(s, x) + Item(t, x)
  {
    ItemStored(s, x, |s|);
    ItemsDiffer(s, t, x, |s|);
    Exchange(Contents(s), Contents(t), Item(s, x), Item(t, x));
  }

  lemma {:induction false} ItemsMember(s: Mem, p: Pair, n: nat) returns (x: nat)
    requires n <= |s| && p in ItemsUpTo(s, n)
    ensures x < n && Owned(s, x) && (s[x].key, s[x].data) == p
  {
    if p in Item(s, n - 1) {
      x := n - 1;
    } else {
      x := ItemsMember(s, p, n - 1);
    }
  }

  lemma OwnedStored(s: Mem, x: nat)
    requires Owned(s, x)
    ensures (s[x].key, s[x].data) in Contents(s)
  {
    ItemStored(s, x, |s|);
    assert (s[x].key, s[x].data) in Item(s, x);
  }

  /** A pair is in the contents exactly when some owned slot carries it. */
  lemma ContentsMember(s: Mem, p: Pair)
    ensures p in Contents(s) <==> exists x: nat :: Owned(s, x) && (s[x].key, s[x].data) == p
  {
    if p in Contents(s) {
      var x := ItemsMember(s, p, |s|);
    } else {
      forall x: nat | Owned(s, x) ensures (s[x].key, s[x].data) != p {
        OwnedStored(s, x);
      }
    }
  }

  // ---------------------------------------------------------------- one slot and one bitmap change

  /** Keys and data of `s` and `t` agree except perhaps in slot `x`. */
  ghost predicate SameBut(s: Mem, t: Mem, x: int)
  {
    |t| == |s| && forall y | 0 <= y < |s| && y != x :: t[y].key == s[y].key && t[y].data == s[y].data
  }

  /** Bitmaps of `s` and `t` agree except perhaps in bucket `h`. */
  ghost predicate HopsBut(s: Mem, t: Mem, h: int)
  {
    |t| == |s| && forall y | 0 <= y < |s| && y != h :: t[y].hopinfo == s[y].hopinfo
  }

  /** A slot is claimed by no bitmap at all unless it is owned. */
  lemma UnownedUnclaimed(s: Mem, x: nat)
    requires Inv(s) && x < |s| && !Owned(s, x)
    ensures forall g | 0 <= g <= x :: x - g !in s[g].hopinfo
  {
    forall g | 0 <= g <= x ensures x - g !in s[g].hopinfo {
      assert g + (x - g) == x;
    }
  }

  /** What the seven writes of a displacement amount to. */
  ghost predicate Moved(s: Mem, t: Mem, hole: nat, h: nat, from: nat)
  {
    && hole < |s| && h <= from < hole && hole - h < H
    && SameBut(s, t, hole) && t[hole].key == s[from].key && t[hole].data == s[from].data
    && HopsBut(s, t, h) && t[h].hopinfo == s[h].hopinfo - {from - h} + {hole - h}
    && from - h in s[h].hopinfo
  }

  lemma MoveShape(s: Mem, hole: nat, j: nat)
    requires Inv(s) && hole < |s| && j < H && CanMove(s, hole, j)
    ensures Moved(s, Move(s, hole, j), hole, hole - j, Source(s, hole, j))
  {
  }

  lemma MovedClaim(s: Mem, t: Mem, hole: nat, h: nat, from: nat, g: nat, o: nat)
    requires Inv(s) && Moved(s, t, hole, h, from) && !Owned(s, hole)
    requires g < |t| && o in t[g].hopinfo
    ensures o < H && g + o < |t| && t[g + o].key != EMPTY && Home(t[g + o].key, |t|) == g
  {
    if g == h && o == hole - h {
      assert h + (from - h) == from;
    } else {
      assert o in s[g].hopinfo;
      UnownedUnclaimed(s, hole);
      assert hole - g != o;
    }
  }

  lemma MovedInv(s: Mem, t: Mem, hole: nat, h: nat, from: nat)
    requires Inv(s) && Moved(s, t, hole, h, from) && !Owned(s, hole)
    ensures Inv(t)
  {
    assert |t| == |s|;
    hide Moved, Owned;
    forall g, o | 0 <= g < |t| && o in t[g].hopinfo
      ensures o < H && g + o < |t| && t[g + o].key != EMPTY && Home(t[g + o].key, |t|) == g
    {
      MovedClaim(s, t, hole, h, from, g, o);
    }
  }

  lemma MovedOther(s: Mem, t: Mem, hole: nat, h: nat, from: nat, x: nat)
    requires Moved(s, t, hole, h, from) && x < |s| && x != hole && x != from
    ensures Item(t, x) == Item(s, x)
  {
    assert t[x].key == s[x].key && t[x].data == s[x].data;
  }

  /** Only the hole and the source change what they contribute. */
  lemma MovedItems(s: Mem, t: Mem, hole: nat, h: nat, from: nat)
    requires Inv(s) && Moved(s, t, hole, h, from) && !Owned(s, hole)
    ensures Owned(s, from) && !Owned(t, from) && ItemMoved(s, t, hole, from)
  {
    assert h + (from - h) == from;
    assert Home(s[from].key, |s|) == h;
    assert Owned(s, from) && !Owned(t, from) && Item(t, hole) == Item(s, from);
    hide Owned, Moved, Item;
    forall x: nat | x < |s| && x != hole && x != from ensures Item(t, x) == Item(s, x) {
      MovedOther(s, t, hole, h, from, x);
    }
  }

  lemma AddRight(a: multiset<Pair>, b: multiset<Pair>, e: multiset<Pair>, n: multiset<Pair>)
    requires a == b + e
    ensures a + n == (b + n) + e
  {
  }

  /** The two tables differ only in that the item of slot `from` has gone to the empty slot `hole`. */
  ghost predicate ItemMoved(s: Mem, t: Mem, hole: nat, from: nat)
  {
    && |t| == |s| && from < hole < |s|
    && Item(s, hole) == multiset{} && Item(t, from) == multiset{} && Item(t, hole) == Item(s, from)
    && forall x: nat | x < |s| && x != hole && x != from :: Item(t, x) == Item(s, x)
  }

  lemma ItemsAtSource(s: Mem, t: Mem, hole: nat, from: nat)
    requires ItemMoved(s, t, hole, from)
    ensures ItemsUpTo(s, from + 1) == ItemsUpTo(t, from + 1) + Item(s, from)
  {
    SameItems(s, t, from);
  }

  lemma {:induction false} ItemsBetween(s: Mem, t: Mem, hole: nat, from: nat, n: nat)
    requires ItemMoved(s, t, hole, from) && from < n <= hole
    ensures ItemsUpTo(s, n) == ItemsUpTo(t, n) + Item(s, from)
  {
    if n - 1 == from {
      ItemsAtSource(s, t, hole, from);
    } else {
      ItemsBetween(s, t, hole, from, n - 1);
      AddRight(ItemsUpTo(s, n - 1), ItemsUpTo(t, n - 1), Item(s, from), Item(s, n - 1));
      assert ItemsUpTo(t, n) == ItemsUpTo(t, n - 1) + Item(s, n - 1);
    }
  }

  lemma {:induction false} ItemsAbove(s: Mem, t: Mem, hole: nat, from: nat, n: nat)
    requires ItemMoved(s, t, hole, from) && hole < n <= |s|
    ensures ItemsUpTo(s, n) == ItemsUpTo(t, n)
  {
    if n - 1 == hole {
      ItemsBetween(s, t, hole, from, hole);
    } else {
      ItemsAbove(s, t, hole, from, n - 1);
    }
  }

  /** One displacement: the item changes slot, the hole moves down, and nothing else changes. */
  lemma MoveKeeps(s: Mem, hole: nat, j: nat)
    requires Inv(s) && hole < |s| && j < H && CanMove(s, hole, j) && !Owned(s, hole)
    ensures var t, from := Move(s, hole, j), Source(s, hole, j);
            |t| == |s| && Inv(t) && Owned(s, from) && !Owned(t, from) && Contents(t) == Contents(s)
  {
    var t, from := Move(s, hole, j), Source(s, hole, j);
    assert Moved(s, t, hole, hole - j, from) by { MoveShape(s, hole, j); }
    MovedInv(s, t, hole, hole - j, from);
    MovedItems(s, t, hole, hole - j, from);
    ItemsAbove(s, t, hole, from, |s|);
  }

  lemma {:induction false} DisplaceKeeps(s: Mem, hole: nat, home: nat)
    requires Inv(s) && home <= hole < |s| && !Owned(s, hole)
    ensures var d := Displace(s, hole, home);
            && Inv(d.mem) && !Owned(d.mem, d.hole) && Contents(d.mem) == Contents(s)
    decreases hole
  {
    if hole - home >= H {
      var j := FindMove(s, hole);
      if j < H {
        MoveKeeps(s, hole, j);
        DisplaceKeeps(Move(s, hole, j), Source(s, hole, j), home);
      }
    }
  }

  /** An owned item that could legally move into the hole: its home is within reach and it lies before. */
  ghost predicate Movable(s: Mem, hole: nat, x: nat)
  {
    x < hole && Owned(s, x) && hole - H < Home(s[x].key, |s|)
  }

  lemma MoveFound(s: Mem, hole: nat)
    requires Inv(s) && H <= hole < |s| && FindMove(s, hole) < H
    ensures Movable(s, hole, Source(s, hole, FindMove(s, hole)))
  {
    var j := FindMove(s, hole);
    var x, h := Source(s, hole, j), hole - j;
    assert x - h in s[h].hopinfo && h + (x - h) == x;
  }

  lemma MoveMissed(s: Mem, hole: nat, x: nat)
    requires Inv(s) && H <= hole < |s| && Movable(s, hole, x)
    ensures FindMove(s, hole) < H
  {
    var h := Home(s[x].key, |s|);
    assert x - h in s[h].hopinfo;
    assert CanMove(s, hole, hole - h);
  }

  /** The search for a movable item gives up exactly when no owned item of the five slots before the
      hole could legally move into it. */
  lemma FindMoveComplete(s: Mem, hole: nat)
    requires Inv(s) && H <= hole < |s|
    ensures FindMove(s, hole) == H <==> forall x: nat :: !Movable(s, hole, x)
  {
    if FindMove(s, hole) < H {
      MoveFound(s, hole);
    } else {
      forall x: nat ensures !Movable(s, hole, x) {
        if Movable(s, hole, x) {
          MoveMissed(s, hole, x);
        }
      }
    }
  }

  // ---------------------------------------------------------------- the four operations

  /** What the six writes of a publication amount to. */
  ghost predicate Published(s: Mem, t: Mem, hole: nat, home: nat, key: int, data: int)
  {
    && home <= hole < |s| && hole - home < H
    && SameBut(s, t, hole) && t[hole].key == key && t[hole].data == data
    && HopsBut(s, t, home) && t[home].hopinfo == s[home].hopinfo + {hole - home}
  }

  lemma PublishedKeeps(s: Mem, t: Mem, hole: nat, home: nat, key: int, data: int)
    requires Inv(s) && Homed(key, |s|) && Home(key, |s|) == home && !Owned(s, hole)
    requires Published(s, t, hole, home, key, data)
    ensures Inv(t)
  {
    UnownedUnclaimed(s, hole);
    forall g, o | 0 <= g < |t| && o in t[g].hopinfo
      ensures o < H && g + o < |t| && t[g + o].key != EMPTY && Home(t[g + o].key, |t|) == g
    {
      if !(g == home && o == hole - home) {
        assert o in s[g].hopinfo;
        assert hole - g != o;
      }
    }
  }

  lemma PublishedItems(s: Mem, t: Mem, hole: nat, home: nat, key: int, data: int)
    requires Homed(key, |s|) && Home(key, |s|) == home
    requires Published(s, t, hole, home, key, data)
    ensures ItemsBut(s, t, hole) && Item(t, hole) == multiset{(key, data)}
  {
    forall x: nat | x < |s| && x != hole ensures Item(t, x) == Item(s, x) {
      assert t[x].key == s[x].key && t[x].data == s[x].data;
    }
  }

  lemma PublishShape(s: Mem, hole: nat, home: nat, key: int, data: int)
    requires home <= hole < |s| && hole - home < H
    ensures Published(s, Publish(s, hole, home, key, data), hole, home, key, data)
  {
  }

  /** Insert adds one pair and answers 0, or adds nothing and answers -1. */
  lemma InsertRefines(s: Mem, key: int, data: int)
    requires Inv(s) && Homed(key, |s|)
    ensures var (t, r) := Insert(s, key, data);
            && |t| == |s| && Inv(t)
            && (r == 0 || r == -1)
            && Contents(t) == Contents(s) + (if r == 0 then multiset{(key, data)} else multiset{})
  {
    var home := Home(key, |s|);
    var hole := Probe(s, home);
    if hole < |s| {
      DisplaceKeeps(s, hole, home);
      var d := Displace(s, hole, home);
      if d.Room? {
        var t := Publish(d.mem, d.hole, home, key, data);
        assert Published(d.mem, t, d.hole, home, key, data) by {
          PublishShape(d.mem, d.hole, home, key, data);
        }
        PublishedKeeps(d.mem, t, d.hole, home, key, data);
        PublishedItems(d.mem, t, d.hole, home, key, data);
        ContentsChange(d.mem, t, d.hole);
      }
    }
  }

  // ---------------------------------------------------------------- when an insert finds room

  /** Some sequence of legal displacements, chosen freely, would bring the hole into the neighbourhood. */
  ghost predicate Clearable(s: Mem, hole: nat, home: nat)
    decreases hole
  {
    hole < home + H || exists x: nat :: x < hole && Movable(s, hole, x) && Clearable(s, x, home)
  }

  /** A lower hole is never worse. */
  lemma {:induction false} ClearableBelow(s: Mem, p: nat, g: nat, home: nat)
    requires Clearable(s, p, home) && g <= p
    ensures Clearable(s, g, home)
    decreases p
  {
    if g >= home + H {
      var x: nat :| x < p && Movable(s, p, x) && Clearable(s, x, home);
      if x < g {
        assert Movable(s, g, x);
      } else {
        ClearableBelow(s, x, g, home);
      }
    }
  }

  /** The slots below `n` hold the same keys and are owned or not alike. */
  ghost predicate SameBelow(s: Mem, t: Mem, n: nat)
  {
    && |s| == |t| && n <= |s|
    && forall x: nat {:trigger Owned(s, x)} {:trigger Owned(t, x)} | x < n ::
           s[x].key == t[x].key && Owned(s, x) == Owned(t, x)
  }

  /** What can be cleared depends on the slots below the hole alone. */
  lemma {:induction false} ClearableSame(s: Mem, t: Mem, hole: nat, home: nat)
    requires SameBelow(s, t, hole) && Clearable(s, hole, home)
    ensures Clearable(t, hole, home)
    decreases hole
  {
    if hole >= home + H {
      var x: nat :| x < hole && Movable(s, hole, x) && Clearable(s, x, home);
      ClearableSame(s, t, x, home);
      assert Movable(t, hole, x);
    }
  }

  lemma MoveSameBelow(s: Mem, hole: nat, j: nat)
    requires Inv(s) && hole < |s| && j < H && CanMove(s, hole, j) && !Owned(s, hole)
    ensures SameBelow(s, Move(s, hole, j), Source(s, hole, j))
  {
    var t, from, h := Move(s, hole, j), Source(s, hole, j), hole - j;
    assert Moved(s, t, hole, h, from) by { MoveShape(s, hole, j); }
    assert h + (from - h) == from;
    forall x: nat {:trigger Owned(s, x)} {:trigger Owned(t, x)} | x < from
      ensures s[x].key == t[x].key && Owned(s, x) == Owned(t, x)
    {
      assert s[x].key == t[x].key;
    }
  }

  /** The loop's first choice loses nothing. */
  lemma MoveClears(s: Mem, hole: nat, home: nat)
    requires Inv(s) && home + H <= hole < |s| && !Owned(s, hole) && FindMove(s, hole) < H
    ensures var j := FindMove(s, hole);
            Clearable(s, hole, home) <==> Clearable(Move(s, hole, j), Source(s, hole, j), home)
  {
    var j := FindMove(s, hole);
    var t, from := Move(s, hole, j), Source(s, hole, j);
    MoveSameBelow(s, hole, j);
    MoveFound(s, hole);
    if Clearable(s, hole, home) {
      ClearableBelow(s, hole, from, home);
      ClearableSame(s, t, from, home);
    }
    if Clearable(t, from, home) {
      ClearableSame(t, s, from, home);
    }
  }

  /** The displacement loop finds room exactly when some sequence of legal displacements does. */
  lemma {:induction false} DisplaceComplete(s: Mem, hole: nat, home: nat)
    requires Inv(s) && home <= hole < |s| && !Owned(s, hole)
    ensures Displace(s, hole, home).Room? <==> Clearable(s, hole, home)
    decreases hole
  {
    if hole - home >= H {
      var j := FindMove(s, hole);
      if j < H {
        MoveClears(s, hole, home);
        MoveKeeps(s, hole, j);
        DisplaceComplete(Move(s, hole, j), Source(s, hole, j), home);
      } else {
        FindMoveComplete(s, hole);
      }
    }
  }

  /** Insert fails exactly when every bucket from the home on is occupied, or no sequence of legal displacements in
      the given table brings the first hole into the neighbourhood. */
  lemma InsertFailsIff(s: Mem, key: int, data: int)
    requires Inv(s) && Homed(key, |s|)
    ensures var home := Home(key, |s|); var hole := Probe(s, home);
            && (hole == |s| <==> forall x: nat | home <= x < |s| :: Occupied(s, x))
            && (Insert(s, key, data).1 == -1 <==> hole == |s| || !Clearable(s, hole, home))
  {
    var home := Home(key, |s|);
    var hole := Probe(s, home);
    if hole < |s| {
      assert !Occupied(s, hole);
      DisplaceComplete(s, hole, home);
    }
  }

  /** The insert will displace an item, and then fail. */
  ghost predicate Spoils(s: Mem, key: int)
    requires Homed(key, |s|)
  {
    var home := Home(key, |s|);
    var hole := Probe(s, home);
    hole < |s| && !Clearable(s, hole, home) && exists x: nat :: Movable(s, hole, x)
  }

  /** A failing insert that has nothing to displace changes nothing. */
  lemma FailsUnchanged(s: Mem, key: int, data: int)
    requires Inv(s) && Homed(key, |s|) && !Spoils(s, key) && Insert(s, key, data).1 == -1
    ensures Insert(s, key, data).0 == s
  {
    var home := Home(key, |s|);
    var hole := Probe(s, home);
    if hole < |s| {
      InsertFailsIff(s, key, data);
      FindMoveComplete(s, hole);
    }
  }

  /** One that has something to displace displaces it. */
  lemma SpoilsMoves(s: Mem, key: int, data: int)
    requires Inv(s) && Homed(key, |s|) && Spoils(s, key)
    ensures var home := Home(key, |s|); var hole := Probe(s, home);
            && hole < |s| && H <= hole - home && FindMove(s, hole) < H
            && Displace(s, hole, home).Stuck? && Insert(s, key, data) == (Displace(s, hole, home).mem, -1)
  {
    var home := Home(key, |s|);
    var hole := Probe(s, home);
    DisplaceComplete(s, hole, home);
    FindMoveComplete(s, hole);
  }

  /** Every owned item lies within reach of its home's scan.  Unlike the invariant this leaves bits free that name
      nothing. */
  ghost predicate Tight(s: Mem)
  {
    |s| > 1 && forall x: nat {:trigger Owned(s, x)} | Owned(s, x) :: x - Home(s[x].key, |s|) < H
  }

  lemma InvTight(s: Mem)
    requires Inv(s)
    ensures Tight(s)
  {
    forall x: nat {:trigger Owned(s, x)} | Owned(s, x) ensures x - Home(s[x].key, |s|) < H {
      var h := Home(s[x].key, |s|);
      assert x - h in s[h].hopinfo;
    }
  }

  /** The scan stays inside the array when every bit names an item. */
  lemma InvInside(s: Mem, key: int)
    requires Inv(s) && Homed(key, |s|)
    ensures !Overruns(s, key)
  {
  }

  lemma OffsetOwned(s: Mem, key: int)
    requires Homed(key, |s|) && FindOffset(s, key) < H
    ensures var x := Home(key, |s|) + FindOffset(s, key); x < |s| && s[x].key == key && Owned(s, x)
  {
  }

  lemma OffsetFound(s: Mem, key: int)
    requires Homed(key, |s|) && FindOffset(s, key) < H
    ensures var x := Home(key, |s|) + FindOffset(s, key);
            Owned(s, x) && s[x].key == key && (key, s[x].data) in Contents(s)
  {
    var x := Home(key, |s|) + FindOffset(s, key);
    assert x < |s| && s[x].key == key && Owned(s, x) by { OffsetOwned(s, key); }
    OwnedStored(s, x);
  }

  lemma OffsetMissed(s: Mem, key: int, x: nat)
    requires Homed(key, |s|) && Owned(s, x) && s[x].key == key && x - Home(key, |s|) < H
    ensures FindOffset(s, key) < H
  {
    var h := Home(key, |s|);
    assert x - h in s[h].hopinfo && h + (x - h) == x;
  }

  ghost predicate Stored(s: Mem, key: int)
  {
    exists d :: (key, d) in Contents(s)
  }

  lemma TightFound(s: Mem, key: int)
    requires Tight(s) && Homed(key, |s|)
    ensures FindOffset(s, key) < H <==> Stored(s, key)
  {
    if FindOffset(s, key) < H {
      OffsetFound(s, key);
    }
    if Stored(s, key) {
      var d :| (key, d) in Contents(s);
      ContentsMember(s, (key, d));
      var x: nat :| Owned(s, x) && (s[x].key, s[x].data) == (key, d);
      OffsetMissed(s, key, x);
    }
  }

  /** The bitmap scan finds the key exactly when the contents hold it. */
  lemma FoundIffStored(s: Mem, key: int)
    requires Inv(s) && Homed(key, |s|)
    ensures FindOffset(s, key) < H <==> Stored(s, key)
  {
    InvTight(s);
    TightFound(s, key);
  }

  ghost predicate Updated(s: Mem, t: Mem, x: nat)
  {
    Owned(s, x) && SameBut(s, t, x) && HopsBut(s, t, -1) && t[x].key == s[x].key
  }

  lemma UpdatedInv(s: Mem, t: Mem, x: nat)
    requires Inv(s) && Updated(s, t, x)
    ensures Inv(t)
  {
    forall y | 0 <= y < |s| ensures t[y].key == s[y].key && t[y].hopinfo == s[y].hopinfo {}
  }

  lemma UpdatedItems(s: Mem, t: Mem, x: nat)
    requires Updated(s, t, x)
    ensures ItemsBut(s, t, x) && Item(t, x) == multiset{(s[x].key, t[x].data)}
  {
    forall y: nat | y < |s| && y != x ensures Item(t, y) == Item(s, y) {
      assert t[y].key == s[y].key && t[y].data == s[y].data;
    }
  }

  lemma UpdateShape(s: Mem, x: nat, nval: int)
    requires Owned(s, x)
    ensures var t := s[x := UpdatedBucket(s[x], nval)]; Updated(s, t, x) && t[x].data == nval
  {
  }

  lemma UpdatedContents(s: Mem, t: Mem, x: nat)
    requires Updated(s, t, x)
    ensures Contents(t) == Contents(s) - multiset{(s[x].key, s[x].data)} + multiset{(s[x].key, t[x].data)}
  {
    UpdatedItems(s, t, x);
    ContentsChange(s, t, x);
  }

  lemma UpdateSlot(s: Mem, x: nat, nval: int)
    requires Owned(s, x)
    ensures var t := s[x := UpdatedBucket(s[x], nval)];
            && Contents(t) == Contents(s) - multiset{(s[x].key, s[x].data)} + multiset{(s[x].key, nval)}
            && (Inv(s) ==> Inv(t))
  {
    var t := s[x := UpdatedBucket(s[x], nval)];
    assert Updated(s, t, x) && t[x].data == nval by { UpdateShape(s, x, nval); }
    UpdatedContents(s, t, x);
    if Inv(s) {
      UpdatedInv(s, t, x);
    }
  }

  lemma TightUpdate(s: Mem, key: int, nval: int)
    requires Tight(s) && Homed(key, |s|)
    ensures var (t, r) := Update(s, key, nval);
            && |t| == |s| && (Inv(s) ==> Inv(t))
            && (if Stored(s, key)
                then r == 1 && (key, Lookup(s, key)) in Contents(s) &&
                     Contents(t) == Contents(s) - multiset{(key, Lookup(s, key))} + multiset{(key, nval)}
                else r == 0 && t == s)
  {
    TightFound(s, key);
    if FindOffset(s, key) < H {
      OffsetFound(s, key);
      UpdateSlot(s, Home(key, |s|) + FindOffset(s, key), nval);
    }
  }

  /** Update replaces the data of the pair that a lookup would answer with and answers 1, or answers 0
      when there is none. */
  lemma UpdateRefines(s: Mem, key: int, nval: int)
    requires Inv(s) && Homed(key, |s|)
    ensures var (t, r) := Update(s, key, nval);
            && |t| == |s| && Inv(t)
            && (if Stored(s, key)
                then r == 1 && (key, Lookup(s, key)) in Contents(s) &&
                     Contents(t) == Contents(s) - multiset{(key, Lookup(s, key))} + multiset{(key, nval)}
                else r == 0 && t == s)
  {
    InvTight(s);
    TightUpdate(s, key, nval);
  }

  lemma TightLookup(s: Mem, key: int)
    requires Tight(s) && Homed(key, |s|)
    ensures if Stored(s, key) then (key, Lookup(s, key)) in Contents(s)
            else Lookup(s, key) == 0
  {
    TightFound(s, key);
    if FindOffset(s, key) < H {
      OffsetFound(s, key);
    }
  }

  /** Lookup answers some stored data of the key, or 0 when there is none. */
  lemma LookupRefines(s: Mem, key: int)
    requires Inv(s) && Homed(key, |s|)
    ensures if Stored(s, key) then (key, Lookup(s, key)) in Contents(s)
            else Lookup(s, key) == 0
  {
    InvTight(s);
    TightLookup(s, key);
  }

  /** What the three writes of a removal amount to. */
  ghost predicate Removed(s: Mem, t: Mem, h: nat, x: nat)
  {
    && Owned(s, x) && Home(s[x].key, |s|) == h
    && SameBut(s, t, x) && t[x].key == EMPTY
    && HopsBut(s, t, h) && t[h].hopinfo == s[h].hopinfo - {x - h}
  }

  lemma RemoveShape(s: Mem, h: nat, o: nat)
    requires Owned(s, h + o) && Home(s[h + o].key, |s|) == h
    ensures Removed(s, ClearSlot(s, h, o), h, h + o)
  {
  }

  lemma RemovedKeeps(s: Mem, t: Mem, h: nat, x: nat)
    requires Inv(s) && Removed(s, t, h, x)
    ensures Inv(t)
  {
    forall g, i | 0 <= g < |t| && i in t[g].hopinfo
      ensures i < H && g + i < |t| && t[g + i].key != EMPTY && Home(t[g + i].key, |t|) == g
    {
      assert i in s[g].hopinfo;
    }
  }

  lemma RemovedItems(s: Mem, t: Mem, h: nat, x: nat)
    requires Removed(s, t, h, x)
    ensures ItemsBut(s, t, x) && Item(t, x) == multiset{}
  {
    forall y: nat | y < |s| && y != x ensures Item(t, y) == Item(s, y) {
      assert t[y].key == s[y].key && t[y].data == s[y].data;
    }
  }

  lemma RemovedAll(s: Mem, t: Mem, h: nat, x: nat)
    requires Removed(s, t, h, x)
    ensures Contents(t) == Contents(s) - multiset{(s[x].key, s[x].data)}
    ensures Inv(s) ==> Inv(t)
  {
    RemovedItems(s, t, h, x);
    ContentsChange(s, t, x);
    if Inv(s) {
      RemovedKeeps(s, t, h, x);
    }
  }

  lemma RemoveSlot(s: Mem, h: nat, o: nat)
    requires Owned(s, h + o) && Home(s[h + o].key, |s|) == h
    ensures var t := ClearSlot(s, h, o);
            && |t| == |s| && (Inv(s) ==> Inv(t))
            && Contents(t) == Contents(s) - multiset{(s[h + o].key, s[h + o].data)}
  {
    var t := ClearSlot(s, h, o);
    assert Removed(s, t, h, h + o) by { RemoveShape(s, h, o); }
    RemovedAll(s, t, h, h + o);
  }

  lemma TightRemove(s: Mem, key: int)
    requires Tight(s) && Homed(key, |s|)
    ensures var (t, r) := Remove(s, key);
            && |t| == |s| && (Inv(s) ==> Inv(t))
            && (if Stored(s, key)
                then r == Lookup(s, key) && (key, r) in Contents(s) && Contents(t) == Contents(s) - multiset{(key, r)}
                else t == s && r == if s[Home(key, |s|)].hopinfo == {} then 0 else -1)
  {
    hide HopsOk, Owned, Contents, Tight, Stored, FindOffset, ClearSlot;
    TightFound(s, key);
    if FindOffset(s, key) < H {
      OffsetFound(s, key);
      RemoveSlot(s, Home(key, |s|), FindOffset(s, key));
    }
  }

  /** Some pair of the contents has the key's home. */
  ghost predicate HomeTaken(c: multiset<Pair>, key: int, n: nat)
    requires n > 0
  {
    exists p :: p in c && Home(p.0, n) == Home(key, n)
  }

  /** A bitmap is empty exactly when no stored key has that home. */
  lemma BitmapIff(s: Mem, key: int)
    requires Inv(s) && Homed(key, |s|)
    ensures s[Home(key, |s|)].hopinfo == {} <==> !HomeTaken(Contents(s), key, |s|)
  {
    var h := Home(key, |s|);
    if s[h].hopinfo != {} {
      var o :| o in s[h].hopinfo;
      var x: nat := h + o;
      assert Owned(s, x);
      OwnedStored(s, x);
    }
    if HomeTaken(Contents(s), key, |s|) {
      var p :| p in Contents(s) && Home(p.0, |s|) == h;
      ContentsMember(s, p);
    }
  }

  /** Remove takes out one pair of the key and answers its data; without one it answers -1 if a stored key has the
      same home, and 0 if none has. */
  lemma RemoveRefines(s: Mem, key: int)
    requires Inv(s) && Homed(key, |s|)
    ensures var (t, r) := Remove(s, key);
            && |t| == |s| && Inv(t)
            && (if Stored(s, key)
                then r == Lookup(s, key) && (key, r) in Contents(s) && Contents(t) == Contents(s) - multiset{(key, r)}
                else t == s && r == if HomeTaken(Contents(s), key, |s|) then -1 else 0)
  {
    InvTight(s);
    TightRemove(s, key);
    BitmapIff(s, key);
  }

  // ---------------------------------------------------------------- whole runs

  datatype Op = Put(key: int, data: int) | Set(key: int, data: int) | Get(key: int) | Del(key: int)

  function Exec(s: Mem, op: Op): (Mem, int)
    requires Homed(op.key, |s|)
  {
    match op
    case Put(k, d) => Insert(s, k, d)
    case Set(k, d) => Update(s, k, d)
    case Get(k) => (s, Lookup(s, k))
    case Del(k) => Remove(s, k)
  }

  /** What a removal answers if its key is not stored. */
  ghost function MissingAnswer(c: multiset<Pair>, key: int, n: nat): int
    requires n > 0
  {
    if HomeTaken(c, key, n) then -1 else 0
  }

  /** The table as it appears to its callers: `c` is the multiset before the call, `c'` after, `r` the answer, and
      `missing` the answer to a removal of a key that is not stored. */
  ghost predicate Spec(c: multiset<Pair>, op: Op, c': multiset<Pair>, r: int, missing: int)
  {
    var found := exists d :: (op.key, d) in c;
    match op
    case Put(k, d) => (r == 0 && c' == c + multiset{(k, d)}) || (r == -1 && c' == c)
    case Set(k, d) =>
      if found then r == 1 && exists e :: (k, e) in c && c' == c - multiset{(k, e)} + multiset{(k, d)}
      else r == 0 && c' == c
    case Get(k) => c' == c && if found then (k, r) in c else r == 0
    case Del(k) =>
      if found then (k, r) in c && c' == c - multiset{(k, r)} else r == missing && c' == c
  }

  lemma ExecRefines(s: Mem, op: Op)
    requires Inv(s) && Homed(op.key, |s|)
    ensures var (t, r) := Exec(s, op);
            |t| == |s| && Inv(t) && Spec(Contents(s), op, Contents(t), r, MissingAnswer(Contents(s), op.key, |s|))
  {
    match op
    case Put(k, d) => InsertRefines(s, k, d);
    case Set(k, d) => UpdateRefines(s, k, d);
    case Get(k) => LookupRefines(s, k);
    case Del(k) => RemoveRefines(s, k);
  }

  /** One step of a run, as the code defines it as long as the bitmaps are in order. */
  ghost predicate Step(s: Mem, op: Op, t: Mem, r: int)
  {
    Homed(op.key, |s|) && (Inv(s) ==> Exec(s, op) == (t, r))
  }

  /** The states of a run, the first one included. */
  ghost predicate Run(states: seq<Mem>, ops: seq<Op>, answers: seq<int>)
  {
    && |states| == |ops| + 1 && |answers| == |ops|
    && forall i | 0 <= i < |ops| :: Step(states[i], ops[i], states[i + 1], answers[i])
  }

  function EmptyTable(n: nat): Mem
  {
    seq(n, _ => Bucket(EMPTY, 0, 0, 0, 0, {}))
  }

  lemma {:induction false} EmptyContents(n: nat, k: nat)
    requires k <= n
    ensures ItemsUpTo(EmptyTable(n), k) == multiset{}
  {
    if k > 0 {
      EmptyContents(n, k - 1);
    }
  }

  lemma StepKeeps(s: Mem, op: Op, t: Mem, r: int)
    requires Inv(s) && Step(s, op, t, r)
    ensures Inv(t) && |t| == |s|
  {
    ExecRefines(s, op);
  }

  lemma {:induction false} RunKeeps(states: seq<Mem>, ops: seq<Op>, answers: seq<int>, n: nat)
    requires Run(states, ops, answers) && Inv(states[0]) && n <= |ops|
    ensures Inv(states[n]) && |states[n]| == |states[0]|
  {
    if n > 0 {
      RunKeeps(states, ops, answers, n - 1);
      assert Step(states[n - 1], ops[n - 1], states[n], answers[n - 1]);
      StepKeeps(states[n - 1], ops[n - 1], states[n], answers[n - 1]);
    }
  }

  /** Every run from the empty table keeps the bitmap invariant and answers, call by call, as the multiset does. */
  lemma RunRefines(states: seq<Mem>, ops: seq<Op>, answers: seq<int>)
    requires Run(states, ops, answers) && |states[0]| > 1 && states[0] == EmptyTable(|states[0]|)
    ensures Contents(states[0]) == multiset{}
    ensures forall i | 0 <= i <= |ops| :: Inv(states[i]) && |states[i]| == |states[0]|
    ensures forall i | 0 <= i < |ops| ::
              Spec(Contents(states[i]), ops[i], Contents(states[i + 1]), answers[i],
                   MissingAnswer(Contents(states[i]), ops[i].key, |states[0]|))
  {
    EmptyContents(|states[0]|, |states[0]|);
    forall i | 0 <= i <= |ops| ensures Inv(states[i]) && |states[i]| == |states[0]| {
      RunKeeps(states, ops, answers, i);
    }
    forall i | 0 <= i < |ops|
      ensures Spec(Contents(states[i]), ops[i], Contents(states[i + 1]), answers[i],
                   MissingAnswer(Contents(states[i]), ops[i].key, |states[0]|))
    {
      assert Step(states[i], ops[i], states[i + 1], answers[i]);
      ExecRefines(states[i], ops[i]);
    }
  }
}
