/** The initial state that hopscotch_init really builds: every byte 0xFF, so every key is -1, but every
    hop bit is set as well.  The displacement loop takes a set bit for ownership. */
module HopscotchInit {
  import opened HopscotchModel
  import opened HopscotchRefinement

  const ALL_BITS: Hops := set o: nat | o < 32

  /** The table after the memset. */
  function RealEmpty(n: nat): Mem
  {
    seq(n, _ => Bucket(EMPTY, 0xFFFF_FFFF_FFFF_FFFF, -1, -1, 0xFF, ALL_BITS))
  }

  predicate OnesBelow(s: Mem, n: nat)
  {
    n <= |s| && forall x | 0 <= x < n :: s[x].hopinfo == ALL_BITS
  }

  predicate AllOnes(s: Mem)
  {
    OnesBelow(s, |s|)
  }

  /** Slot `x` lies in the neighbourhood of its key, where lookup, update and remove look for it. */
  predicate Near(s: Mem, x: nat)
    requires x < |s|
  {
    s[x].key != EMPTY ==> Homed(s[x].key, |s|) && Home(s[x].key, |s|) <= x < Home(s[x].key, |s|) + H
  }

  ghost predicate Within(s: Mem)
  {
    forall x: nat | x < |s| :: Near(s, x)
  }

  // ---------------------------------------------------------------- what the scans find

  /** Every occupied slot is found by the scan of its home, whatever other bits are set. */
  ghost predicate Covered(s: Mem)
  {
    |s| > 1 && forall x: nat {:trigger Occupied(s, x)} | Occupied(s, x) :: Owned(s, x) && x - Home(s[x].key, |s|) < H
  }

  ghost predicate Holds(s: Mem, key: int)
  {
    exists x: nat :: x < |s| && s[x].key == key
  }

  lemma CoveredTight(s: Mem)
    requires Covered(s)
    ensures Tight(s)
  {
    forall x: nat {:trigger Owned(s, x)} | Owned(s, x) ensures x - Home(s[x].key, |s|) < H {
      assert Occupied(s, x);
    }
  }

  /** On such a table the scan finds a key exactly when some slot holds it. */
  lemma CoveredFinds(s: Mem, key: int)
    requires Covered(s) && Homed(key, |s|)
    ensures FindOffset(s, key) < H <==> Holds(s, key)
  {
    if Holds(s, key) {
      var x: nat :| x < |s| && s[x].key == key;
      assert Occupied(s, x);
      OffsetMissed(s, key, x);
    }
  }

  /** All bits set and every key in its neighbourhood make one. */
  lemma WithinCovered(s: Mem)
    requires |s| > 1 && AllOnes(s) && Within(s)
    ensures Covered(s)
  {
    forall x: nat {:trigger Occupied(s, x)} | Occupied(s, x) ensures Owned(s, x) && x - Home(s[x].key, |s|) < H {
      assert Near(s, x);
      assert x - Home(s[x].key, |s|) in ALL_BITS;
    }
  }

  /** With all bits set the scan reads beyond the array exactly for the keys it does not find whose home is one of the
      last five buckets. */
  lemma OnesOverrun(s: Mem, key: int)
    requires AllOnes(s) && Homed(key, |s|)
    ensures Overruns(s, key) <==> FindOffset(s, key) == H && Home(key, |s|) + H > |s|
  {
    if FindOffset(s, key) == H && Home(key, |s|) + H > |s| {
      var last: nat := H - 1;
      assert last in s[Home(key, |s|)].hopinfo;
    }
  }

  // ---------------------------------------------------------------- the displacement loop on such a table

  lemma OnesMove(s: Mem, hole: nat)
    requires H <= hole < |s| && OnesBelow(s, hole)
    ensures CanMove(s, hole, 1) && FindMove(s, hole) == 1 && Source(s, hole, 1) == hole - 1
  {
    assert 0 in ALL_BITS;
    assert Ctz(ALL_BITS) == 0;
  }

  /** What slot `x` held has gone up by one. */
  predicate Up(s: Mem, t: Mem, x: nat)
  {
    x + 1 < |s| && x + 1 < |t| && t[x + 1].key == s[x].key && t[x + 1].data == s[x].data
  }

  predicate Still(s: Mem, t: Mem, x: nat)
  {
    x < |s| && x < |t| && t[x].key == s[x].key && t[x].data == s[x].data
  }

  /** The items from `lo` on have gone up by one, over the hole; the other slots are as they were. */
  ghost predicate Shifted(s: Mem, t: Mem, lo: nat, hole: nat)
  {
    && |t| == |s| && lo <= hole < |s|
    && (forall x: nat | lo <= x < hole :: Up(s, t, x))
    && (forall x: nat | x < |s| && (x <= lo || hole < x) :: Still(s, t, x))
  }

  /** Bucket `x` has its bits, without the lowest one if the loop has passed it. */
  predicate Bits(t: Mem, x: nat, lo: nat, hole: nat)
  {
    x < |t| && t[x].hopinfo == if lo <= x < hole then ALL_BITS - {0} else ALL_BITS
  }

  lemma OnesMoveShape(s: Mem, hole: nat)
    requires H <= hole < |s| && OnesBelow(s, hole) && CanMove(s, hole, 1) && Source(s, hole, 1) == hole - 1
    ensures var t := Move(s, hole, 1);
            && Shifted(s, t, hole - 1, hole) && OnesBelow(t, hole - 1) && t[hole - 1].hopinfo == ALL_BITS - {0}
            && t[hole].hopinfo == s[hole].hopinfo && (forall x | hole < x < |s| :: t[x].hopinfo == s[x].hopinfo)
  {
    assert ALL_BITS - {0} + {1} == ALL_BITS - {0};
  }

  lemma ShiftedTwice(s: Mem, u: Mem, t: Mem, lo: nat, hole: nat)
    requires lo < hole && Shifted(s, u, hole - 1, hole) && Shifted(u, t, lo, hole - 1)
    ensures Shifted(s, t, lo, hole)
  {
    forall x: nat | lo <= x < hole ensures Up(s, t, x) {
      if x == hole - 1 {
        assert Up(s, u, x) && Still(u, t, hole);
      } else {
        assert Still(s, u, x) && Up(u, t, x);
      }
    }
    forall x: nat | x < |s| && (x <= lo || hole < x) ensures Still(s, t, x) {
      assert Still(s, u, x) && Still(u, t, x);
    }
  }

  /** With all bits set below the hole the loop takes the neighbour each time, and so shifts the slots from the end
      of the neighbourhood to the hole up by one. */
  lemma {:induction false} OnesDisplace(s: Mem, hole: nat, home: nat)
    requires home + H - 1 <= hole < |s| && OnesBelow(s, hole)
    ensures var d := Displace(s, hole, home); d.Room? && d.hole == home + H - 1 && Shifted(s, d.mem, home + H - 1, hole)
    decreases hole
  {
    if hole - home >= H {
      OnesMove(s, hole);
      OnesMoveShape(s, hole);
      var u := Move(s, hole, 1);
      OnesDisplace(u, hole - 1, home);
      ShiftedTwice(s, u, Displace(u, hole - 1, home).mem, home + H - 1, hole);
    }
  }

  /** ... and takes the lowest bit from each bucket it passes. */
  lemma {:induction false} OnesBits(s: Mem, hole: nat, home: nat, x: nat)
    requires home + H - 1 <= hole < |s| && OnesBelow(s, hole) && x < |s|
    ensures |Displace(s, hole, home).mem| == |s|
    ensures Displace(s, hole, home).mem[x].hopinfo ==
            if home + H - 1 <= x < hole then ALL_BITS - {0} else s[x].hopinfo
    decreases hole
  {
    if hole - home >= H {
      OnesMove(s, hole);
      OnesMoveShape(s, hole);
      OnesBits(Move(s, hole, 1), hole - 1, home, x);
    }
  }

  // ---------------------------------------------------------------- inserts

  /** The item of slot `x` can go up by one without leaving its neighbourhood. */
  lemma UpNear(s: Mem, t: Mem, x: nat)
    requires |t| == |s| && Up(s, t, x) && s[x].key != EMPTY && Near(s, x)
    ensures Near(t, x + 1) <==> x - Home(s[x].key, |s|) < H - 1
  {
  }

  /** The keys after an insert that ends with the hole in slot `lo`. */
  ghost predicate Inserted(s: Mem, t: Mem, key: int, lo: nat, hole: nat)
  {
    && |t| == |s| && lo <= hole < |s| && t[lo].key == key
    && (forall x: nat | lo <= x < hole :: Up(s, t, x))
    && (forall x: nat | x < |s| && (x < lo || hole < x) :: Still(s, t, x))
  }

  lemma ShiftedPublish(s: Mem, u: Mem, lo: nat, hole: nat, home: nat, key: int, data: int)
    requires Shifted(s, u, lo, hole) && home <= lo && lo - home < H
    ensures Inserted(s, Publish(u, lo, home, key, data), key, lo, hole)
  {
    var t := Publish(u, lo, home, key, data);
    forall x: nat | lo <= x < hole ensures Up(s, t, x) {
      assert Up(s, u, x);
    }
    forall x: nat | x < |s| && (x < lo || hole < x) ensures Still(s, t, x) {
      assert Still(s, u, x);
    }
  }

  lemma ShiftedNone(s: Mem, hole: nat)
    requires hole < |s|
    ensures Shifted(s, s, hole, hole)
  {
  }

  lemma PublishBits(u: Mem, lo: nat, home: nat, key: int, data: int, x: nat)
    requires home <= lo < |u| && lo - home < H && x < |u| && u[home].hopinfo == ALL_BITS
    ensures Publish(u, lo, home, key, data)[x].hopinfo == u[x].hopinfo
  {
    assert ALL_BITS + {lo - home} == ALL_BITS;
  }

  /** Where the hole is when the new item is published. */
  function FinalHole(home: nat, hole: nat): nat
  {
    if hole < home + H then hole else home + H - 1
  }

  lemma OnesInsert(s: Mem, key: int, data: int, home: nat, hole: nat)
    requires AllOnes(s) && Homed(key, |s|) && home == Home(key, |s|) && hole == Probe(s, home) < |s|
    ensures var (t, r) := Insert(s, key, data); r == 0 && Inserted(s, t, key, FinalHole(home, hole), hole)
  {
    if hole < home + H {
      ShiftedNone(s, hole);
      ShiftedPublish(s, s, hole, hole, home, key, data);
    } else {
      OnesDisplace(s, hole, home);
      ShiftedPublish(s, Displace(s, hole, home).mem, home + H - 1, hole, home, key, data);
    }
  }

  lemma OnesInsertBits(s: Mem, key: int, data: int, home: nat, hole: nat, x: nat)
    requires AllOnes(s) && Homed(key, |s|) && home == Home(key, |s|) && hole == Probe(s, home) < |s| && x < |s|
    ensures Bits(Insert(s, key, data).0, x, FinalHole(home, hole), hole)
  {
    if hole < home + H {
      PublishBits(s, hole, home, key, data, x);
    } else {
      var u := Displace(s, hole, home).mem;
      OnesDisplace(s, hole, home);
      OnesBits(s, hole, home, home);
      OnesBits(s, hole, home, x);
      PublishBits(u, home + H - 1, home, key, data, x);
    }
  }

  lemma InsertedNear(s: Mem, t: Mem, key: int, lo: nat, hole: nat)
    requires Inserted(s, t, key, lo, hole) && Within(s) && Homed(key, |s|) && Home(key, |s|) <= lo < Home(key, |s|) + H
    requires forall x: nat | lo <= x < hole :: Leaves(s, x) || Stays(s, x)
    ensures Within(t) <==> forall x: nat | lo <= x < hole :: Stays(s, x)
  {
    if Within(t) {
      forall x: nat | lo <= x < hole ensures Stays(s, x) {
        assert Up(s, t, x) && Near(s, x) && Near(t, x + 1) && (Leaves(s, x) || Stays(s, x));
        UpNear(s, t, x);
      }
    }
    if forall x: nat | lo <= x < hole :: Stays(s, x) {
      forall y: nat | y < |t| ensures Near(t, y) {
        if lo < y <= hole {
          var x: nat := y - 1;
          assert Up(s, t, x) && Near(s, x) && Stays(s, x);
          UpNear(s, t, x);
        } else if y != lo {
          assert Still(s, t, y) && Near(s, y);
        }
      }
    }
  }

  /** The item of slot `x` is not, or is, in the last slot of its neighbourhood. */
  predicate Stays(s: Mem, x: nat)
  {
    x < |s| && Homed(s[x].key, |s|) && x - Home(s[x].key, |s|) < H - 1
  }

  predicate Leaves(s: Mem, x: nat)
  {
    x < |s| && Homed(s[x].key, |s|) && x - Home(s[x].key, |s|) == H - 1
  }

  lemma ProbedHomed(s: Mem, home: nat, x: nat)
    requires Within(s) && home <= x < |s| && x < Probe(s, home)
    ensures Leaves(s, x) || Stays(s, x)
  {
    assert Near(s, x);
  }

  lemma AllOnesIff(s: Mem, key: int, data: int, home: nat, hole: nat)
    requires AllOnes(s) && Homed(key, |s|) && home == Home(key, |s|) && hole == Probe(s, home) < |s|
    ensures AllOnes(Insert(s, key, data).0) <==> hole < home + H
  {
    var t, lo := Insert(s, key, data).0, FinalHole(home, hole);
    OnesInsert(s, key, data, home, hole);
    forall x: nat | x < |s| ensures Bits(t, x, lo, hole) {
      OnesInsertBits(s, key, data, home, hole, x);
    }
    if lo < hole {
      assert Bits(t, lo, lo, hole) && 0 in ALL_BITS;
    } else {
      forall x: nat | x < |t| ensures t[x].hopinfo == ALL_BITS {
        assert Bits(t, x, lo, hole);
      }
    }
  }

  /** A slot and the bits of its home after the insert: only a bucket that was passed lacks a bit, the lowest, and its
      own slot holds no item of its own. */
  lemma InsertedOwned(s: Mem, t: Mem, key: int, lo: nat, hole: nat, x: nat)
    requires Inserted(s, t, key, lo, hole) && Within(s) && Occupied(t, x) && Near(t, x)
    requires Bits(t, Home(t[x].key, |t|), lo, hole) && (lo < hole ==> Home(key, |s|) < lo)
    ensures Owned(t, x)
  {
    var h := Home(t[x].key, |t|);
    assert x - h in ALL_BITS;
    if lo < x <= hole {
      var y: nat := x - 1;
      assert Up(s, t, y) && Near(s, y);
    }
  }

  lemma InsertedCovered(s: Mem, t: Mem, key: int, lo: nat, hole: nat)
    requires Inserted(s, t, key, lo, hole) && Within(s) && |s| > 1
    requires (forall x: nat | x < |t| :: Bits(t, x, lo, hole)) && (lo < hole ==> Home(key, |s|) < lo)
    ensures Covered(t) <==> Within(t)
  {
    if Within(t) {
      forall x: nat {:trigger Occupied(t, x)} | Occupied(t, x) ensures Owned(t, x) && x - Home(t[x].key, |t|) < H {
        assert Near(t, x);
        assert Bits(t, Home(t[x].key, |t|), lo, hole);
        InsertedOwned(s, t, key, lo, hole, x);
      }
    }
    if Covered(t) {
      forall x: nat | x < |t| ensures Near(t, x) {
        assert s[x].key == s[x].key && (t[x].key != EMPTY ==> Occupied(t, x));
      }
    }
  }

  /** What an insert that finds hole `hole` needs: nothing has to be moved out of the last slot of its neighbourhood. */
  ghost predicate Harmless(s: Mem, home: nat, hole: nat)
  {
    hole == |s| || hole < home + H || forall x: nat | home + H - 1 <= x < hole :: Stays(s, x)
  }

  /** On a table with all bits set and every key in its neighbourhood an insert keeps every key in its neighbourhood,
      and within reach of its home's scan, if and only if there is no hole, or the hole is near the home, or no item
      between the neighbourhood and the hole lies in the last slot of its own; and the bits stay set exactly when
      nothing moves. */
  lemma AllOnesInsertIff(s: Mem, key: int, data: int)
    requires AllOnes(s) && Within(s) && Homed(key, |s|)
    ensures var home := Home(key, |s|); var (hole, t) := (Probe(s, home), Insert(s, key, data).0);
            && (Within(t) <==> Harmless(s, home, hole))
            && (Covered(t) <==> Harmless(s, home, hole))
            && (AllOnes(t) <==> hole == |s| || hole < home + H)
  {
    var home: nat := Home(key, |s|);
    var hole := Probe(s, home);
    if hole < |s| {
      var t, lo := Insert(s, key, data).0, FinalHole(home, hole);
      forall x: nat | lo <= x < hole ensures Leaves(s, x) || Stays(s, x) {
        ProbedHomed(s, home, x);
      }
      OnesInsert(s, key, data, home, hole);
      InsertedNear(s, t, key, lo, hole);
      AllOnesIff(s, key, data, home, hole);
      forall x: nat | x < |t| ensures Bits(t, x, lo, hole) {
        OnesInsertBits(s, key, data, home, hole, x);
      }
      InsertedCovered(s, t, key, lo, hole);
    } else {
      WithinCovered(s);
    }
  }

  ghost predicate DistinctKeys(s: Mem)
  {
    forall x, y | 0 <= x < y < |s| && s[x].key != EMPTY :: s[x].key != s[y].key
  }

  /** An item that leaves its neighbourhood is held by no other slot. */
  lemma LeaverMissed(s: Mem, t: Mem, key: int, lo: nat, hole: nat, x: nat)
    requires Inserted(s, t, key, lo, hole) && DistinctKeys(s) && !Holds(s, key)
    requires lo <= x < hole && Leaves(s, x)
    ensures Homed(s[x].key, |t|) && FindOffset(t, s[x].key) == H
  {
    var k := s[x].key;
    var h: nat := Home(k, |s|);
    forall y: nat | y < |t| ensures t[y].key == k ==> y == x + 1 {
      if lo < y <= hole {
        var z: nat := y - 1;
        assert Up(s, t, z);
      } else if y != lo {
        assert Still(s, t, y);
      }
    }
  }

  /** So the next lookups find every key stored before exactly under the same condition. */
  lemma AllOnesFoundIff(s: Mem, key: int, data: int)
    requires AllOnes(s) && Within(s) && Homed(key, |s|) && DistinctKeys(s) && !Holds(s, key)
    ensures var home := Home(key, |s|); var (hole, t) := (Probe(s, home), Insert(s, key, data).0);
            |t| == |s| &&
            ((forall k | Homed(k, |s|) && Holds(s, k) :: FindOffset(t, k) < H) <==> Harmless(s, home, hole))
  {
    var home: nat := Home(key, |s|);
    var hole, t := Probe(s, home), Insert(s, key, data).0;
    AllOnesInsertIff(s, key, data);
    if hole < |s| {
      OnesInsert(s, key, data, home, hole);
      var lo := FinalHole(home, hole);
      if Harmless(s, home, hole) {
        forall k | Homed(k, |s|) && Holds(s, k) ensures FindOffset(t, k) < H {
          InsertedHolds(s, t, key, lo, hole, k);
          CoveredFinds(t, k);
        }
      } else {
        var x: nat :| home + H - 1 <= x < hole && !Stays(s, x);
        ProbedHomed(s, home, x);
        LeaverMissed(s, t, key, lo, hole, x);
        assert Holds(s, s[x].key);
      }
    } else {
      forall k | Homed(k, |s|) && Holds(s, k) ensures FindOffset(t, k) < H {
        CoveredFinds(t, k);
      }
    }
  }

  lemma InsertedHolds(s: Mem, t: Mem, key: int, lo: nat, hole: nat, k: int)
    requires Inserted(s, t, key, lo, hole) && s[hole].key == EMPTY && k != EMPTY && Holds(s, k)
    ensures Holds(t, k)
  {
    var x: nat :| x < |s| && s[x].key == k;
    if lo <= x < hole {
      assert Up(s, t, x);
    } else {
      assert Still(s, t, x);
    }
  }

  /** From the real initial state, inserts that find a hole near the home, or none, keep all bits set and every key in
      its neighbourhood, so the condition above decides about the first insert that does not. */
  lemma {:induction false} NearRun(states: seq<Mem>, keys: seq<int>, data: seq<int>, n: nat)
    requires |states| == |keys| + 1 == |data| + 1 && n <= |keys| && states[0] == RealEmpty(|states[0]|)
    requires forall i | 0 <= i < |keys| ::
               && Homed(keys[i], |states[i]|) && states[i + 1] == Insert(states[i], keys[i], data[i]).0
               && var home := Home(keys[i], |states[i]|);
                  var hole := Probe(states[i], home);
                  hole == |states[i]| || hole < home + H
    ensures AllOnes(states[n]) && Within(states[n])
  {
    if n > 0 {
      NearRun(states, keys, data, n - 1);
      assert states[n] == Insert(states[n - 1], keys[n - 1], data[n - 1]).0;
      AllOnesInsertIff(states[n - 1], keys[n - 1], data[n - 1]);
    }
  }

  // ---------------------------------------------------------------- a run that loses a key

  lemma EightHome(x: nat)
    ensures Homed(8 * x, 8) && Home(8 * x, 8) == 0
  {
  }

  /** A table of eight buckets from that initial state, after inserts of the first `k` of the keys 0, 8, 16, ... */
  function Eights(k: nat): (s: Mem)
    ensures |s| == 8
  {
    if k == 0 then RealEmpty(8) else EightHome(k - 1); Insert(Eights(k - 1), 8 * (k - 1), 8 * (k - 1)).0
  }

  /** The first six lie in the neighbourhood of bucket 0 in order. */
  function Filled(k: nat): (s: Mem)
    ensures |s| == 8
  {
    seq(8, x => if x < k then Bucket(8 * x, 1, 8 * x, 0, 1, ALL_BITS)
                else Bucket(EMPTY, 0xFFFF_FFFF_FFFF_FFFF, -1, -1, 0xFF, ALL_BITS))
  }

  lemma FillStep(k: nat)
    requires k < 6
    ensures Homed(8 * k, 8) && Insert(Filled(k), 8 * k, 8 * k) == (Filled(k + 1), 0)
  {
    var s := Filled(k);
    EightHome(k);
    assert s[k].key == EMPTY;
    assert Probe(s, 0) == k;
    assert ALL_BITS + {k} == ALL_BITS;
    assert Publish(s, k, 0, 8 * k, 8 * k) == Filled(k + 1);
  }

  lemma {:induction false} EightsFilled(k: nat)
    requires k <= 6
    ensures Eights(k) == Filled(k)
  {
    if k == 0 {
      assert Filled(0) == RealEmpty(8);
    } else {
      EightsFilled(k - 1);
      FillStep(k - 1);
    }
  }

  lemma FilledDistinct()
    ensures DistinctKeys(Filled(6)) && !Holds(Filled(6), 48) && Leaves(Filled(6), 5) && Probe(Filled(6), 0) == 6
    ensures AllOnes(Filled(6)) && Filled(6)[5].key == 40 && Filled(6)[5].data == 40
  {
    assert Filled(6)[6].key == EMPTY;
  }

  lemma SixthFound(s: Mem)
    requires |s| == 8 && Homed(40, 8) && Home(40, 8) == 0 && s[5].key == 40 && s[0].hopinfo == ALL_BITS
    requires DistinctKeys(s)
    ensures FindOffset(s, 40) == 5
  {
    var five: nat := 5;
    assert five in s[0].hopinfo;
    OffsetMissed(s, 40, 5);
  }

  /** The seventh insert answers 0 and meets the failing case: key 40 lies in the last slot of its neighbourhood and
      goes up to slot 6, where no lookup finds it any more. */
  lemma AllOnesLosesKey()
    ensures Homed(40, 8) && Homed(48, 8)
    ensures Lookup(Eights(6), 40) == 40 && Insert(Eights(6), 48, 48) == (Eights(7), 0)
    ensures Eights(7)[6].key == 40 && FindOffset(Eights(7), 40) == H && Lookup(Eights(7), 40) == 0
  {
    var s, t := Filled(6), Eights(7);
    EightsFilled(6);
    EightHome(5);
    EightHome(6);
    FilledDistinct();
    SixthFound(s);
    hide Filled, Probe;
    OnesInsert(s, 48, 48, 0, 6);
    assert Up(s, t, 5);
    LeaverMissed(s, t, 48, 5, 6, 5);
  }
}
