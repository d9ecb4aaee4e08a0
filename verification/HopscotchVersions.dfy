/** The lock and version discipline of a bucket, and the test a remote reader was meant to apply to it:
    unlocked, and header version equal to the trailing one-byte version. */
module HopscotchVersions {
  import opened HopscotchModel
  import opened HopscotchRefinement

  /** C compares the 64-bit counter with the 8-bit one without narrowing it. */
  predicate Accepts(b: Bucket)
  {
    b.lock == 0 && b.headerVersion == b.cVer
  }

  /** What the test was meant to compare: the counters in the width of the short one. */
  predicate InStep(b: Bucket)
  {
    b.cVer == b.headerVersion % 0x100
  }

  /** Between two operations: unlocked, and the short counter is the long one modulo its width. */
  predicate Quiescent(b: Bucket)
  {
    b.lock == 0 && b.headerVersion < 0x1_0000_0000_0000_0000 && InStep(b)
  }

  ghost predicate AllQuiescent(s: Mem)
  {
    forall x: nat {:trigger Owned(s, x)} | Owned(s, x) :: Quiescent(s[x])
  }

  /** Narrowing the long counter commutes with counting. */
  lemma Narrow(v: nat)
    ensures (v % 0x1_0000_0000_0000_0000) % 0x100 == v % 0x100
  {
  }

  lemma CountLong(v: nat)
    ensures (v % 0x1_0000_0000_0000_0000 + 1) % 0x1_0000_0000_0000_0000 == (v + 1) % 0x1_0000_0000_0000_0000
  {
  }

  lemma CountShort(v: nat)
    ensures (v % 0x100 + 1) % 0x100 == (v + 1) % 0x100
  {
  }

  lemma BucketQuiescent(b: Bucket, nval: int)
    requires Quiescent(b)
    ensures Quiescent(UpdatedBucket(b, nval))
  {
    Narrow(b.headerVersion + 1);
    CountShort(b.headerVersion);
  }

  // ---------------------------------------------------------------- snapshots during an update

  /** The images of an update: keys and bitmaps stay, the slot is locked in all but the last, and the last is the
      updated table. */
  lemma UpdateImage(s: Mem, x: nat, nval: int, k: nat, y: nat)
    requires x < |s| && y < |s| && k < 5
    ensures var t := UpdateImages(s, x, nval)[k];
            && |t| == |s| && t[y].key == s[y].key && t[y].hopinfo == s[y].hopinfo
            && (y != x ==> t[y] == s[y]) && t[x].lock == (if k < 4 then 1 else 0)
            && t[x].data == if k < 2 then s[x].data else nval
    ensures UpdateImages(s, x, nval)[4] == s[x := UpdatedBucket(s[x], nval)]
  {
  }

  /** The counters alone tell the two images between their increments, even in the width of the short one. */
  lemma VersionSnapshot(s: Mem, x: nat, nval: int, k: nat)
    requires x < |s| && k < 5 && Quiescent(s[x])
    ensures InStep(UpdateImages(s, x, nval)[k][x]) <==> k == 0 || k >= 3
  {
    Narrow(s[x].headerVersion + 1);
    CountShort(s[x].headerVersion);
  }

  // ---------------------------------------------------------------- acceptance over a run of updates

  /** A bucket after a series of updates. */
  function UpdatedBy(b: Bucket, vals: seq<int>): Bucket
  {
    if vals == [] then b else UpdatedBucket(UpdatedBy(b, vals[..|vals| - 1]), vals[|vals| - 1])
  }

  lemma {:induction false} VersionsCount(key: int, data: int, hops: Hops, vals: seq<int>)
    ensures var b := UpdatedBy(Bucket(key, 1, data, 0, 1, hops), vals);
            && b.headerVersion == (1 + |vals|) % 0x1_0000_0000_0000_0000
            && b.cVer == (1 + |vals|) % 0x100 && b.lock == 0
            && b.data == (if vals == [] then data else vals[|vals| - 1])
  {
    if vals != [] {
      VersionsCount(key, data, hops, vals[..|vals| - 1]);
      CountLong(|vals|);
      CountShort(|vals|);
    }
  }

  /** The reader's test accepts an idle item exactly while its 64-bit counter fits in a byte: after 255
      updates of one item every reader rejects it, until the long counter wraps. */
  lemma AcceptanceWindow(key: int, data: int, hops: Hops, vals: seq<int>)
    ensures var b := UpdatedBy(Bucket(key, 1, data, 0, 1, hops), vals);
            && Quiescent(b)
            && (Accepts(b) <==> (1 + |vals|) % 0x1_0000_0000_0000_0000 < 0x100)
    ensures |vals| < 0xFFFF_FFFF_FFFF_FFFF ==>
              (Accepts(UpdatedBy(Bucket(key, 1, data, 0, 1, hops), vals)) <==> |vals| < 255)
  {
    hide UpdatedBy;
    VersionsCount(key, data, hops, vals);
    NarrowFits(1 + |vals|);
  }

  /** The long counter equals the short one exactly when it fits in a byte. */
  lemma NarrowFits(v: nat)
    ensures var long := v % 0x1_0000_0000_0000_0000;
            && long % 0x100 == v % 0x100 && (long == v % 0x100 <==> long < 0x100)
            && (v < 0x1_0000_0000_0000_0000 ==> long == v)
  {
    Narrow(v);
  }

  // ---------------------------------------------------------------- all operations keep it

  lemma MoveQuiescent(s: Mem, hole: nat, j: nat)
    requires Inv(s) && hole < |s| && j < H && CanMove(s, hole, j) && !Owned(s, hole) && AllQuiescent(s)
    ensures AllQuiescent(Move(s, hole, j))
  {
    var t, from, h := Move(s, hole, j), Source(s, hole, j), hole - j;
    assert Moved(s, t, hole, h, from) by { MoveShape(s, hole, j); }
    assert h + (from - h) == from;
    assert Owned(s, from);
    forall x: nat {:trigger Owned(t, x)} | Owned(t, x) ensures Quiescent(t[x]) {
      if x != hole {
        MovedItems(s, t, hole, h, from);
        OwnedBefore(s, t, x);
      }
    }
  }

  lemma {:induction false} DisplaceQuiescent(s: Mem, hole: nat, home: nat)
    requires Inv(s) && home <= hole < |s| && !Owned(s, hole) && AllQuiescent(s)
    ensures AllQuiescent(Displace(s, hole, home).mem)
    decreases hole
  {
    if hole - home >= H {
      var j := FindMove(s, hole);
      if j < H {
        MoveKeeps(s, hole, j);
        MoveQuiescent(s, hole, j);
        DisplaceQuiescent(Move(s, hole, j), Source(s, hole, j), home);
      }
    }
  }

  lemma PublishQuiescent(s: Mem, hole: nat, key: int, data: int)
    requires Inv(s) && Homed(key, |s|) && Home(key, |s|) <= hole < |s| && hole - Home(key, |s|) < H
    requires !Owned(s, hole) && AllQuiescent(s)
    ensures AllQuiescent(Publish(s, hole, Home(key, |s|), key, data))
  {
    var home := Home(key, |s|);
    var t := Publish(s, hole, home, key, data);
    assert Published(s, t, hole, home, key, data) by { PublishShape(s, hole, home, key, data); }
    PublishedItems(s, t, hole, home, key, data);
    forall x: nat {:trigger Owned(t, x)} | Owned(t, x) ensures Quiescent(t[x]) {
      if x != hole {
        OwnedBefore(s, t, x);
      }
    }
  }

  lemma UpdateQuiescent(s: Mem, x: nat, nval: int)
    requires Inv(s) && Owned(s, x) && AllQuiescent(s)
    ensures AllQuiescent(s[x := UpdatedBucket(s[x], nval)])
  {
    var t := s[x := UpdatedBucket(s[x], nval)];
    assert Updated(s, t, x) by { UpdateShape(s, x, nval); }
    UpdatedItems(s, t, x);
    forall y: nat {:trigger Owned(t, y)} | Owned(t, y) ensures Quiescent(t[y]) {
      if y == x {
        BucketQuiescent(s[x], nval);
      } else {
        OwnedBefore(s, t, y);
      }
    }
  }

  lemma RemoveQuiescent(s: Mem, h: nat, o: nat)
    requires Inv(s) && Owned(s, h + o) && Home(s[h + o].key, |s|) == h && AllQuiescent(s)
    ensures AllQuiescent(ClearSlot(s, h, o))
  {
    var t := ClearSlot(s, h, o);
    assert Removed(s, t, h, h + o) by { RemoveShape(s, h, o); }
    RemovedItems(s, t, h, h + o);
    forall y: nat {:trigger Owned(t, y)} | Owned(t, y) ensures Quiescent(t[y]) {
      if y != h + o {
        OwnedBefore(s, t, y);
      }
    }
  }

  /** Every operation leaves every stored item unlocked and with its counters in step. */
  lemma ExecQuiescent(s: Mem, op: Op)
    requires Inv(s) && Homed(op.key, |s|) && AllQuiescent(s)
    ensures AllQuiescent(Exec(s, op).0)
  {
    hide AllQuiescent, Owned, HopsOk, Insert, UpdatedBucket, ClearSlot, Contents;
    match op
    case Put(k, d) => InsertQuiescent(s, k, d);
    case Set(k, d) =>
      if FindOffset(s, k) < H {
        OffsetFound(s, k);
        UpdateQuiescent(s, Home(k, |s|) + FindOffset(s, k), d);
      }
    case Get(k) =>
    case Del(k) =>
      if FindOffset(s, k) < H {
        OffsetFound(s, k);
        RemoveQuiescent(s, Home(k, |s|), FindOffset(s, k));
      }
  }

  lemma InsertQuiescent(s: Mem, key: int, data: int)
    requires Inv(s) && Homed(key, |s|) && AllQuiescent(s)
    ensures AllQuiescent(Insert(s, key, data).0)
  {
    var home := Home(key, |s|);
    var hole := Probe(s, home);
    if hole < |s| {
      DisplaceQuiescent(s, hole, home);
      DisplaceKeeps(s, hole, home);
      var d := Displace(s, hole, home);
      if d.Room? {
        PublishQuiescent(d.mem, d.hole, key, data);
      }
    }
  }

  /** In every state of every run from the empty table, stored items are unlocked with counters in step. */
  lemma {:induction false} RunQuiescent(states: seq<Mem>, ops: seq<Op>, answers: seq<int>, n: nat)
    requires Run(states, ops, answers) && |states[0]| > 1 && states[0] == EmptyTable(|states[0]|) && n <= |ops|
    ensures AllQuiescent(states[n])
  {
    if n > 0 {
      RunQuiescent(states, ops, answers, n - 1);
      RunKeeps(states, ops, answers, n - 1);
      assert Step(states[n - 1], ops[n - 1], states[n], answers[n - 1]);
      ExecQuiescent(states[n - 1], ops[n - 1]);
    }
  }
}
