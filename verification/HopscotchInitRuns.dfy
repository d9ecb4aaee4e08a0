/** Whole runs from the initial state that hopscotch_init really builds.  As long as every insert finds a hole near its
    home, or none, the extra hop bits do no harm: the table is the multiset of its pairs. */
module HopscotchInitRuns {
  import opened HopscotchModel
  import opened HopscotchRefinement
  import opened HopscotchInit

  /** Nothing has to be displaced for the key. */
  predicate NearHole(s: Mem, key: int)
    requires Homed(key, |s|)
  {
    var hole := Probe(s, Home(key, |s|));
    hole == |s| || hole < Home(key, |s|) + H
  }

  /** A step that stays inside the array and displaces nothing. */
  ghost predicate NearStep(s: Mem, op: Op, t: Mem, r: int)
  {
    && Homed(op.key, |s|) && Exec(s, op) == (t, r)
    && (if op.Put? then NearHole(s, op.key) else !Overruns(s, op.key))
  }

  /** The states of a run, the first one included. */
  ghost predicate NearOps(states: seq<Mem>, ops: seq<Op>, answers: seq<int>)
  {
    && |states| == |ops| + 1 && |answers| == |ops|
    && forall i | 0 <= i < |ops| :: NearStep(states[i], ops[i], states[i + 1], answers[i])
  }

  /** No bitmap is ever empty: the bits beyond the neighbourhood stay. */
  predicate HighBits(s: Mem)
  {
    forall x | 0 <= x < |s| :: H in s[x].hopinfo
  }

  lemma HighBitsStay(s: Mem, op: Op)
    requires HighBits(s) && Homed(op.key, |s|) && (op.Put? ==> NearHole(s, op.key))
    ensures HighBits(Exec(s, op).0)
  {
  }

  lemma PublishCovered(s: Mem, t: Mem, hole: nat, home: nat, key: int, data: int)
    requires Covered(s) && Homed(key, |s|) && Home(key, |s|) == home && Published(s, t, hole, home, key, data)
    ensures Covered(t)
  {
    forall x: nat {:trigger Occupied(t, x)} | Occupied(t, x) ensures Owned(t, x) && x - Home(t[x].key, |t|) < H {
      if x != hole {
        assert Occupied(s, x);
      }
    }
  }

  /** An insert adds its pair exactly when there is a hole, and changes nothing otherwise. */
  lemma NearInsert(s: Mem, key: int, data: int)
    requires Covered(s) && Homed(key, |s|) && NearHole(s, key)
    ensures var (t, r) := Insert(s, key, data);
            && |t| == |s| && Covered(t)
            && (if Probe(s, Home(key, |s|)) < |s| then r == 0 && Contents(t) == Contents(s) + multiset{(key, data)}
                else r == -1 && t == s)
  {
    var home: nat := Home(key, |s|);
    var hole := Probe(s, home);
    if hole < |s| {
      var t := Publish(s, hole, home, key, data);
      assert Published(s, t, hole, home, key, data) by { PublishShape(s, hole, home, key, data); }
      PublishCovered(s, t, hole, home, key, data);
      PublishedItems(s, t, hole, home, key, data);
      ContentsChange(s, t, hole);
    }
  }

  lemma UpdateCovered(s: Mem, t: Mem, x: nat)
    requires Covered(s) && Updated(s, t, x)
    ensures Covered(t)
  {
    forall y: nat {:trigger Occupied(t, y)} | Occupied(t, y) ensures Owned(t, y) && y - Home(t[y].key, |t|) < H {
      assert t[y].key == s[y].key && Occupied(s, y);
    }
  }

  lemma RemoveCovered(s: Mem, t: Mem, h: nat, x: nat)
    requires Covered(s) && Removed(s, t, h, x)
    ensures Covered(t)
  {
    forall y: nat {:trigger Occupied(t, y)} | Occupied(t, y) ensures Owned(t, y) && y - Home(t[y].key, |t|) < H {
      assert y != x && t[y].key == s[y].key && Occupied(s, y);
    }
  }

  lemma ExecCovered(s: Mem, op: Op)
    requires Covered(s) && Homed(op.key, |s|) && !op.Put?
    ensures Covered(Exec(s, op).0)
  {
    if op.Set? && FindOffset(s, op.key) < H {
      OffsetOwned(s, op.key);
      var x := Home(op.key, |s|) + FindOffset(s, op.key);
      UpdateShape(s, x, op.data);
      UpdateCovered(s, s[x := UpdatedBucket(s[x], op.data)], x);
    } else if op.Del? && FindOffset(s, op.key) < H {
      OffsetOwned(s, op.key);
      var h, o := Home(op.key, |s|), FindOffset(s, op.key);
      RemoveShape(s, h, o);
      RemoveCovered(s, ClearSlot(s, h, o), h, h + o);
    }
  }

  /** Each such step acts on the multiset of pairs and leaves every stored key where its scan finds it; as no bitmap
      is empty, a removal of a key that is not stored always answers -1. */
  lemma NearRefines(s: Mem, op: Op, t: Mem, r: int)
    requires Covered(s) && HighBits(s) && NearStep(s, op, t, r)
    ensures |t| == |s| && Covered(t) && HighBits(t) && Spec(Contents(s), op, Contents(t), r, -1)
  {
    CoveredTight(s);
    HighBitsStay(s, op);
    hide Covered, HighBits, Contents;
    match op
    case Put(k, d) => NearInsert(s, k, d);
    case Set(k, d) => ExecCovered(s, op); TightUpdate(s, k, d);
    case Get(k) => TightLookup(s, k);
    case Del(k) => ExecCovered(s, op); TightRemove(s, k); HighBit(s, k);
  }

  lemma HighBit(s: Mem, key: int)
    requires HighBits(s) && Homed(key, |s|)
    ensures s[Home(key, |s|)].hopinfo != {}
  {
  }

  lemma RealContents(n: nat)
    ensures Contents(RealEmpty(n)) == multiset{}
  {
    forall p ensures p !in Contents(RealEmpty(n)) {
      ContentsMember(RealEmpty(n), p);
    }
  }

  lemma {:induction false} NearOpsCovered(states: seq<Mem>, ops: seq<Op>, answers: seq<int>, n: nat)
    requires NearOps(states, ops, answers) && Covered(states[0]) && HighBits(states[0]) && n <= |ops|
    ensures Covered(states[n]) && HighBits(states[n]) && |states[n]| == |states[0]|
  {
    if n > 0 {
      NearOpsCovered(states, ops, answers, n - 1);
      assert NearStep(states[n - 1], ops[n - 1], states[n], answers[n - 1]);
      NearRefines(states[n - 1], ops[n - 1], states[n], answers[n - 1]);
    }
  }

  /** Every run from the real initial state whose inserts displace nothing, and whose scans stay inside the array,
      answers call by call as the multiset does; in each of its states a lookup finds a key exactly when a slot holds
      it. */
  lemma NearOpsRefine(states: seq<Mem>, ops: seq<Op>, answers: seq<int>)
    requires NearOps(states, ops, answers) && |states[0]| > 1 && states[0] == RealEmpty(|states[0]|)
    ensures Contents(states[0]) == multiset{}
    ensures forall i | 0 <= i <= |ops| :: Covered(states[i]) && |states[i]| == |states[0]|
    ensures forall i | 0 <= i < |ops| :: Spec(Contents(states[i]), ops[i], Contents(states[i + 1]), answers[i], -1)
    ensures forall i, k | 0 <= i <= |ops| && Homed(k, |states[i]|) ::
              FindOffset(states[i], k) < H <==> Holds(states[i], k)
  {
    RealContents(|states[0]|);
    assert HighBits(states[0]) by {
      assert H in ALL_BITS;
    }
    forall i | 0 <= i <= |ops| ensures Covered(states[i]) && HighBits(states[i]) && |states[i]| == |states[0]| {
      NearOpsCovered(states, ops, answers, i);
    }
    forall i | 0 <= i < |ops| ensures Spec(Contents(states[i]), ops[i], Contents(states[i + 1]), answers[i], -1) {
      assert NearStep(states[i], ops[i], states[i + 1], answers[i]);
      NearRefines(states[i], ops[i], states[i + 1], answers[i]);
    }
    forall i, k | 0 <= i <= |ops| && Homed(k, |states[i]|)
      ensures FindOffset(states[i], k) < H <==> Holds(states[i], k)
    {
      CoveredFinds(states[i], k);
    }
  }
}
