/** What a failed insert leaves behind: the same contents for the server, and, when it has displaced
    something, one stray copy that a one-sided reader may take for the item. */
module HopscotchFailures {
  import opened HopscotchModel
  import opened HopscotchRefinement
  import opened HopscotchReaders
  import opened Options

  // ---------------------------------------------------------------- lookups

  ghost predicate UniqueKeys(c: multiset<Pair>)
  {
    forall p, q | p in c && q in c && p.0 == q.0 :: p == q
  }

  /** With one pair a key, equal contents answer every lookup alike, wherever the items lie. */
  lemma LookupDetermined(s: Mem, t: Mem, key: int)
    requires Inv(s) && Inv(t) && |s| == |t| && Contents(s) == Contents(t) && UniqueKeys(Contents(s))
    requires Homed(key, |s|)
    ensures Lookup(s, key) == Lookup(t, key)
  {
    LookupRefines(s, key);
    LookupRefines(t, key);
    if Stored(s, key) {
      var p, q := (key, Lookup(s, key)), (key, Lookup(t, key));
      assert p in Contents(s) && q in Contents(s);
    }
  }

  // ---------------------------------------------------------------- stray slots

  /** Occupied, but named by no bitmap. */
  ghost predicate Stray(s: Mem, x: nat)
  {
    Occupied(s, x) && !Owned(s, x)
  }

  lemma MovedStray(s: Mem, t: Mem, hole: nat, h: nat, from: nat, x: nat)
    requires Inv(s) && Moved(s, t, hole, h, from) && !Owned(s, hole) && x != from && Stray(t, x)
    ensures x != hole && Stray(s, x)
  {
    MovedOwned(s, t, hole, h, from);
    assert x != hole ==> t[x].key == s[x].key;
  }

  lemma MoveStray(s: Mem, hole: nat, j: nat, x: nat)
    requires Inv(s) && hole < |s| && j < H && CanMove(s, hole, j) && !Owned(s, hole)
    requires x != Source(s, hole, j) && Stray(Move(s, hole, j), x)
    ensures x != hole && Stray(s, x)
  {
    MoveShape(s, hole, j);
    MovedStray(s, Move(s, hole, j), hole, hole - j, Source(s, hole, j), x);
  }

  lemma {:induction false} DisplaceStray(s: Mem, hole: nat, home: nat, d: Displaced, x: nat)
    requires Inv(s) && home <= hole < |s| && !Owned(s, hole) && d == Displace(s, hole, home)
    requires x != d.hole && Stray(d.mem, x)
    ensures x != hole && Stray(s, x)
    decreases hole
  {
    if hole - home >= H {
      var j := FindMove(s, hole);
      if j < H {
        MoveKeeps(s, hole, j);
        DisplaceStray(Move(s, hole, j), Source(s, hole, j), home, d, x);
        MoveStray(s, hole, j, x);
      }
    }
  }

  /** A failed insert keeps the contents and every lookup, and makes at most the slot `z` stray. */
  lemma FailedInsertKeeps(s: Mem, key: int, data: int) returns (z: nat)
    requires Inv(s) && Homed(key, |s|) && Insert(s, key, data).1 == -1
    ensures var t := Insert(s, key, data).0;
            && |t| == |s| && Inv(t) && Contents(t) == Contents(s)
            && (UniqueKeys(Contents(s)) ==> forall k | Homed(k, |s|) :: Lookup(t, k) == Lookup(s, k))
            && forall x: nat | x != z && Stray(t, x) :: Stray(s, x)
  {
    InsertRefines(s, key, data);
    var t, home := Insert(s, key, data).0, Home(key, |s|);
    var hole := Probe(s, home);
    z := 0;
    if hole < |s| {
      z := Displace(s, hole, home).hole;
      forall x: nat | x != z && Stray(t, x) ensures Stray(s, x) {
        DisplaceStray(s, hole, home, Displace(s, hole, home), x);
      }
    }
    if UniqueKeys(Contents(s)) {
      forall k | Homed(k, |s|) ensures Lookup(t, k) == Lookup(s, k) {
        LookupDetermined(t, s, k);
      }
    }
  }

  // ---------------------------------------------------------------- the stray copy and the readers

  /** Slot `z` is a stray copy of the item in slot `y`, in front of it inside the window of its key. */
  ghost predicate Shadows(s: Mem, z: nat, y: nat)
  {
    && z < y && Owned(s, y) && Stray(s, z)
    && s[z].key == s[y].key && s[z].data == s[y].data && Home(s[y].key, |s|) <= z
  }

  lemma MovedShadows(s: Mem, t: Mem, hole: nat, h: nat, from: nat)
    requires Inv(s) && Moved(s, t, hole, h, from) && !Owned(s, hole)
    ensures Shadows(t, from, hole)
  {
    MovedOwned(s, t, hole, h, from);
    assert h + (from - h) == from;
    assert t[from].key == s[from].key && t[from].data == s[from].data;
  }

  lemma MoveShadows(s: Mem, hole: nat, j: nat)
    requires Inv(s) && hole < |s| && j < H && CanMove(s, hole, j) && !Owned(s, hole)
    ensures var t := Move(s, hole, j); Inv(t) && Shadows(t, Source(s, hole, j), hole)
  {
    var t, from := Move(s, hole, j), Source(s, hole, j);
    assert Moved(s, t, hole, hole - j, from) by { MoveShape(s, hole, j); }
    MovedInv(s, t, hole, hole - j, from);
    MovedShadows(s, t, hole, hole - j, from);
  }

  lemma {:induction false} DisplaceShadows(s: Mem, hole: nat, home: nat, y: nat) returns (z: nat)
    requires Inv(s) && home <= hole && Shadows(s, hole, y)
    ensures var d := Displace(s, hole, home); Shadows(d.mem, d.hole, z)
    decreases hole
  {
    z := y;
    if hole - home >= H {
      var j := FindMove(s, hole);
      if j < H {
        MoveShadows(s, hole, j);
        z := DisplaceShadows(Move(s, hole, j), Source(s, hole, j), home, hole);
      }
    }
  }

  lemma StuckShadows(s: Mem, hole: nat, home: nat) returns (y: nat)
    requires Inv(s) && home + H <= hole < |s| && !Owned(s, hole) && FindMove(s, hole) < H
    ensures var d := Displace(s, hole, home); Shadows(d.mem, d.hole, y)
  {
    var j := FindMove(s, hole);
    var t, from := Move(s, hole, j), Source(s, hole, j);
    assert Displace(s, hole, home) == Displace(t, from, home);
    MoveShadows(s, hole, j);
    y := DisplaceShadows(t, from, home, hole);
  }

  /** An insert of a new key that displaces and fails ends with a stray copy in front of its item. */
  lemma FailedInsertShadows(s: Mem, key: int, data: int) returns (z: nat, y: nat)
    requires Quiet(s) && Homed(key, |s|) && !Stored(s, key) && Spoils(s, key)
    ensures var t := Insert(s, key, data).0; Round(t, z) && Shadows(t, z, y)
  {
    var home := Home(key, |s|);
    var hole := Probe(s, home);
    SpoilsMoves(s, key, data);
    QuietRound(s, hole);
    DisplaceVisible(s, hole, home);
    z := Displace(s, hole, home).hole;
    y := StuckShadows(s, hole, home);
  }

  /** Inserting a new key leaves a quiet state exactly when there is no hole at all, or the first hole can be brought
      into the neighbourhood by legal displacements, or no item can move into it at all. */
  lemma InsertQuietIff(s: Mem, key: int, data: int)
    requires Quiet(s) && Homed(key, |s|) && !Stored(s, key)
    ensures var home := Home(key, |s|); var hole := Probe(s, home);
            Quiet(Insert(s, key, data).0) <==>
            hole == |s| || Clearable(s, hole, home) || forall x: nat :: !Movable(s, hole, x)
  {
    if Spoils(s, key) {
      var z, y := FailedInsertShadows(s, key, data);
      assert !Owned(Insert(s, key, data).0, z);
    } else {
      ExecQuiet(s, Put(key, data));
    }
  }

  /** The bitmap scan stops at the only owned slot of the key. */
  lemma OnlyOffset(s: Mem, y: nat)
    requires Inv(s) && Owned(s, y)
    requires forall x: nat {:trigger Owned(s, x)} | Owned(s, x) && x != y :: s[x].key != s[y].key
    ensures Homed(s[y].key, |s|) && FindOffset(s, s[y].key) == y - Home(s[y].key, |s|)
  {
    var key := s[y].key;
    OffsetMissed(s, key, y);
    OffsetFound(s, key);
  }

  lemma ShadowedOffset(s: Mem, z: nat, y: nat)
    requires Round(s, z) && Shadows(s, z, y)
    ensures Homed(s[y].key, |s|) && FindOffset(s, s[y].key) == y - Home(s[y].key, |s|)
  {
    OnlyOffset(s, y);
  }

  /** The next update of that item is invisible to one-sided readers: they keep getting the old data. */
  lemma ShadowStale(s: Mem, z: nat, y: nat, v: int)
    requires Round(s, z) && Shadows(s, z, y)
    ensures var key := s[y].key; var t := Update(s, key, v).0;
            && Homed(key, |s|) && Update(s, key, v).1 == 1 && |t| == |s| && Inv(t)
            && Lookup(t, key) == v && Scan(t, key) == Some(s[y].data)
  {
    var key := s[y].key;
    ShadowedOffset(s, z, y);
    var t := s[y := UpdatedBucket(s[y], v)];
    assert Updated(s, t, y) && t[y].data == v by { UpdateShape(s, y, v); }
    UpdatedInv(s, t, y);
    UpdatedOffset(s, t, z, y);
    ShadowScan(s, t, z, y);
  }

  lemma UpdatedOffset(s: Mem, t: Mem, z: nat, y: nat)
    requires Round(s, z) && Shadows(s, z, y) && Updated(s, t, y) && Inv(t)
    ensures Homed(s[y].key, |t|) && FindOffset(t, s[y].key) == y - Home(s[y].key, |s|)
  {
    UpdatedItems(s, t, y);
    forall x: nat {:trigger Owned(t, x)} | Owned(t, x) && x != y ensures t[x].key != t[y].key {
      OwnedBefore(s, t, x);
      assert t[x].key == s[x].key;
    }
    OnlyOffset(t, y);
  }

  lemma ShadowScan(s: Mem, t: Mem, z: nat, y: nat)
    requires Round(s, z) && Shadows(s, z, y) && Updated(s, t, y)
    ensures Homed(s[y].key, |t|) && Scan(t, s[y].key) == Some(s[z].data)
  {
    var key := s[y].key;
    OwnedInWindow(s, y);
    assert t[z].key == key && t[z].data == s[z].data;
    forall x | Home(key, |t|) <= x < z ensures t[x].key != key {
      assert t[x].key == s[x].key;
    }
    ScanHits(t, key, z, s[z].data);
  }

  /** So an insert that displaces and fails breaks the readers' agreement with lookup: some stored key has lookups
      follow its next update, while one-sided reads stay at the old data. */
  lemma FailedInsertMisleads(s: Mem, key: int, data: int) returns (k: int)
    requires Quiet(s) && Homed(key, |s|) && !Stored(s, key) && Spoils(s, key)
    ensures var t := Insert(s, key, data).0;
            && Inv(t) && Homed(k, |t|) && Stored(t, k)
            && forall v :: var u := Update(t, k, v).0;
                 |u| == |t| && Inv(u) && Lookup(u, k) == v && Scan(u, k) == Some(Lookup(t, k))
  {
    var t := Insert(s, key, data).0;
    var z, y := FailedInsertShadows(s, key, data);
    k := t[y].key;
    ShadowedOffset(t, z, y);
    OwnedStored(t, y);
    forall v ensures var u := Update(t, k, v).0;
                     |u| == |t| && Inv(u) && Lookup(u, k) == v && Scan(u, k) == Some(Lookup(t, k)) {
      ShadowStale(t, z, y, v);
    }
  }

  // ---------------------------------------------------------------- a table in which it happens

  function CrowdedKey(x: nat): int
  {
    if x <= 5 || x == 11 then x else if x <= 10 then 11 + x else EMPTY
  }

  function CrowdedHops(x: nat): Hops
  {
    if x == 0 || x == 11 then {0} else if x <= 5 then {0, 5} else {}
  }

  /** Sixteen buckets: slots 0 to 5 and 11 hold items of their own, slots 6 to 10 items of the buckets 1 to 5. */
  function Crowded(): (s: Mem)
    ensures |s| == 16
  {
    seq(16, x requires 0 <= x => Bucket(CrowdedKey(x), 1, 7, 0, 1, CrowdedHops(x)))
  }

  lemma CrowdedHome(x: nat)
    requires x <= 11
    ensures Homed(CrowdedKey(x), 16)
    ensures Home(CrowdedKey(x), 16) == if 6 <= x <= 10 then x - 5 else x
  {
  }

  lemma CrowdedClaims(h: nat, o: nat)
    requires h < 16 && o in CrowdedHops(h)
    ensures o < H && h + o <= 11 && Home(CrowdedKey(h + o), 16) == h
  {
    if o == 0 {
      CrowdedHome(h);
    } else {
      CrowdedHome(h + 5);
    }
  }

  lemma CrowdedQuiet()
    ensures Quiet(Crowded())
  {
    var s := Crowded();
    forall h, o | 0 <= h < |s| && o in s[h].hopinfo
      ensures o < H && h + o < |s| && s[h + o].key != EMPTY && Home(s[h + o].key, |s|) == h
    {
      CrowdedClaims(h, o);
    }
    forall x: nat {:trigger Owned(s, x)} | x < |s| && s[x].key != EMPTY ensures Owned(s, x) {
      CrowdedHome(x);
    }
  }

  /** Inserting another key of bucket 0 there moves the item of bucket 11 up and then fails: the premises of
      FailedInsertMisleads can be met. */
  lemma FailedInsertDisplaces()
    ensures var s := Crowded();
            && Quiet(s) && Homed(16, |s|) && !Stored(s, 16) && Spoils(s, 16)
            && Insert(s, 16, 0).1 == -1 && Insert(s, 16, 0).0 != s
  {
    var s := Crowded();
    CrowdedQuiet();
    CrowdedProbe(0);
    assert Ctz({0}) == 0;
    assert CanMove(s, 12, 1) && FindMove(s, 12) == 1 && Source(s, 12, 1) == 11;
    var t := Move(s, 12, 1);
    assert forall y | 6 <= y <= 10 :: t[y].hopinfo == {};
    assert FindMove(t, 11) == H;
    assert Displace(s, 12, 0) == Stuck(t, 11);
    assert t[12].key == 11 && s[12].key == EMPTY;
    CrowdedLacks();
    DisplaceComplete(s, 12, 0);
    MoveFound(s, 12);
  }

  lemma {:induction false} CrowdedProbe(i: nat)
    requires i <= 12
    ensures Probe(Crowded(), i) == 12
    decreases 12 - i
  {
    if i < 12 {
      CrowdedProbe(i + 1);
    }
  }

  lemma NoSlotNotStored(s: Mem, key: int)
    requires forall x | 0 <= x < |s| :: s[x].key != key
    ensures !Stored(s, key)
  {
    forall d ensures (key, d) !in Contents(s) {
      if (key, d) in Contents(s) {
        var x := ItemsMember(s, (key, d), |s|);
      }
    }
  }

  lemma CrowdedLacks()
    ensures !Stored(Crowded(), 16)
  {
    NoSlotNotStored(Crowded(), 16);
  }
}
