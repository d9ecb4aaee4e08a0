/** Every memory image of every operation, over whole runs: what the bitmaps, the locks and the readers' scans say
    between any two writes. */
module HopscotchSnapshots {
  import opened HopscotchModel
  import opened HopscotchRefinement
  import opened HopscotchReaders
  import opened HopscotchVersions
  import opened Options

  /** The memory images of an operation, one per write; a lookup writes nothing. */
  function ExecImages(s: Mem, op: Op): seq<Mem>
  {
    if !Inv(s) || !Homed(op.key, |s|) then [] else
    var h, o := Home(op.key, |s|), FindOffset(s, op.key);
    match op
    case Put(k, d) => InsertImages(s, k, d)
    case Set(k, d) => if o < H then UpdateImages(s, h + o, d) else []
    case Get(_) => []
    case Del(_) => if o < H then RemoveImages(s, h, o) else []
  }

  /** Image `w` lies inside an update of slot `y`. */
  predicate Updating(s: Mem, op: Op, w: nat, y: nat)
  {
    Inv(s) && Homed(op.key, |s|) && op.Set? && w < 4 && y == Home(op.key, |s|) + FindOffset(s, op.key)
  }

  /** ... between the writes of its two counters. */
  predicate Torn(s: Mem, op: Op, w: nat, y: nat)
  {
    Updating(s, op, w, y) && 1 <= w <= 2
  }

  // ---------------------------------------------------------------- the order of the writes

  /** The hole takes over the item field by field: key, data, long version, lock, short version.  Only then does the
      home's bitmap change, and it loses the old bit before it gets the new one; nothing else changes. */
  lemma MoveOrder(s: Mem, hole: nat, j: nat, k: nat)
    requires hole < |s| && j < H && CanMove(s, hole, j) && k < 7
    ensures var t, h, from := MoveImages(s, hole, j)[k], hole - j, Source(s, hole, j);
            && |t| == |s|
            && (forall y | 0 <= y < |s| && y != hole :: t[y] == s[y].(hopinfo := t[y].hopinfo))
            && t[hole].key == s[from].key
            && t[hole].data == (if k >= 1 then s[from].data else s[hole].data)
            && t[hole].headerVersion == (if k >= 2 then s[from].headerVersion else s[hole].headerVersion)
            && t[hole].lock == (if k >= 3 then s[from].lock else s[hole].lock)
            && t[hole].cVer == (if k >= 4 then s[from].cVer else s[hole].cVer)
            && (forall y | 0 <= y < |s| && y != h :: t[y].hopinfo == s[y].hopinfo)
            && t[h].hopinfo == if k < 5 then s[h].hopinfo
                               else if k == 5 then s[h].hopinfo - {from - h} else s[h].hopinfo - {from - h} + {j}
  {
  }

  /** The new item is written field by field: long version, lock, short version, key, data.  Only then is it claimed by
      its home's bitmap; nothing else changes. */
  lemma PublishOrder(s: Mem, hole: nat, home: nat, key: int, data: int, k: nat)
    requires home <= hole < |s| && hole - home < H && k < 6
    ensures var t := PublishImages(s, hole, home, key, data)[k];
            && |t| == |s|
            && (forall y | 0 <= y < |s| && y != hole :: t[y] == s[y].(hopinfo := t[y].hopinfo))
            && t[hole].headerVersion == 1
            && t[hole].lock == (if k >= 1 then 0 else s[hole].lock)
            && t[hole].cVer == (if k >= 2 then 1 else s[hole].cVer)
            && t[hole].key == (if k >= 3 then key else s[hole].key)
            && t[hole].data == (if k >= 4 then data else s[hole].data)
            && (forall y | 0 <= y < |s| && y != home :: t[y].hopinfo == s[y].hopinfo)
            && t[home].hopinfo == if k < 5 then s[home].hopinfo else s[home].hopinfo + {hole - home}
  {
  }

  // ---------------------------------------------------------------- owned slots

  /** Every owned slot is unlocked with its counters in step, and carries a pair of `c`. */
  ghost predicate Sound(t: Mem, c: multiset<Pair>)
  {
    forall y: nat {:trigger Owned(t, y)} | Owned(t, y) :: Quiescent(t[y]) && (t[y].key, t[y].data) in c
  }

  lemma StateSound(s: Mem)
    requires AllQuiescent(s)
    ensures Sound(s, Contents(s))
  {
    forall y: nat {:trigger Owned(s, y)} | Owned(s, y) ensures Quiescent(s[y]) && (s[y].key, s[y].data) in Contents(s) {
      OwnedStored(s, y);
    }
  }

  /** Whatever is owned in `t` was owned in `s`, and unchanged. */
  ghost predicate OwnsLess(s: Mem, t: Mem)
  {
    forall y: nat {:trigger Owned(t, y)} | Owned(t, y) :: Owned(s, y) && t[y] == s[y].(hopinfo := t[y].hopinfo)
  }

  lemma LessSound(s: Mem, t: Mem)
    requires AllQuiescent(s) && OwnsLess(s, t)
    ensures Sound(t, Contents(s))
  {
    forall y: nat {:trigger Owned(t, y)} | Owned(t, y) ensures Quiescent(t[y]) && (t[y].key, t[y].data) in Contents(s) {
      OwnedStored(s, y);
    }
  }

  /** Outside slot `z` nothing but bitmaps has changed, and those have at most lost bits. */
  ghost predicate Shrunk(s: Mem, t: Mem, z: int)
  {
    && |t| == |s|
    && (forall y | 0 <= y < |s| && y != z :: t[y] == s[y].(hopinfo := t[y].hopinfo))
    && (forall y | 0 <= y < |s| :: t[y].hopinfo <= s[y].hopinfo)
  }

  lemma ShrunkOwns(s: Mem, t: Mem, z: int)
    requires Shrunk(s, t, z)
    requires 0 <= z < |t| ==> forall g | 0 <= g <= z :: z - g !in t[g].hopinfo
    ensures OwnsLess(s, t)
  {
    forall y: nat {:trigger Owned(t, y)} | Owned(t, y) ensures Owned(s, y) && t[y] == s[y].(hopinfo := t[y].hopinfo) {
      assert y - Home(t[y].key, |t|) in t[Home(t[y].key, |t|)].hopinfo;
    }
  }

  // ---------------------------------------------------------------- inserts

  lemma MoveImageShrunk(s: Mem, hole: nat, j: nat, k: nat)
    requires hole < |s| && j < H && CanMove(s, hole, j) && k < 6
    ensures Shrunk(s, MoveImages(s, hole, j)[k], hole)
  {
  }

  lemma MoveLast(s: Mem, hole: nat, j: nat)
    requires hole < |s| && j < H && CanMove(s, hole, j)
    ensures MoveImages(s, hole, j)[6] == Move(s, hole, j)
  {
  }

  lemma MoveImageSound(s: Mem, hole: nat, j: nat, k: nat)
    requires Inv(s) && hole < |s| && j < H && CanMove(s, hole, j) && !Owned(s, hole) && AllQuiescent(s) && k < 7
    ensures Sound(MoveImages(s, hole, j)[k], Contents(s))
  {
    if k < 6 {
      MoveImageShrunk(s, hole, j, k);
      UnownedUnclaimed(s, hole);
      ShrunkOwns(s, MoveImages(s, hole, j)[k], hole);
      LessSound(s, MoveImages(s, hole, j)[k]);
    } else {
      MoveLast(s, hole, j);
      MoveKeeps(s, hole, j);
      MoveQuiescent(s, hole, j);
      StateSound(Move(s, hole, j));
    }
  }

  lemma {:induction false} DisplaceSound(s: Mem, hole: nat, home: nat)
    requires Inv(s) && home <= hole < |s| && !Owned(s, hole) && AllQuiescent(s)
    ensures forall t | t in DisplaceImages(s, hole, home) :: Sound(t, Contents(s))
    decreases hole
  {
    if hole - home >= H {
      var j := FindMove(s, hole);
      if j < H {
        MoveKeeps(s, hole, j);
        MoveQuiescent(s, hole, j);
        DisplaceSound(Move(s, hole, j), Source(s, hole, j), home);
        MoveImagesSound(s, hole, j);
      }
    }
  }

  lemma MoveImagesSound(s: Mem, hole: nat, j: nat)
    requires Inv(s) && hole < |s| && j < H && CanMove(s, hole, j) && !Owned(s, hole) && AllQuiescent(s)
    ensures forall t | t in MoveImages(s, hole, j) :: Sound(t, Contents(s))
  {
    forall t | t in MoveImages(s, hole, j) ensures Sound(t, Contents(s)) {
      var k :| 0 <= k < 7 && t == MoveImages(s, hole, j)[k];
      MoveImageSound(s, hole, j, k);
    }
  }

  lemma PublishImageShrunk(s: Mem, hole: nat, home: nat, key: int, data: int, k: nat)
    requires home <= hole < |s| && hole - home < H && k < 5
    ensures Shrunk(s, PublishImages(s, hole, home, key, data)[k], hole)
  {
  }

  lemma PublishLast(s: Mem, hole: nat, home: nat, key: int, data: int)
    requires home <= hole < |s| && hole - home < H
    ensures PublishImages(s, hole, home, key, data)[5] == Publish(s, hole, home, key, data)
  {
  }

  lemma PublishImageSound(s: Mem, hole: nat, key: int, data: int, k: nat)
    requires Inv(s) && Homed(key, |s|) && Home(key, |s|) <= hole < |s| && hole - Home(key, |s|) < H
    requires !Owned(s, hole) && AllQuiescent(s) && k < 6
    ensures var home := Home(key, |s|); var t := PublishImages(s, hole, home, key, data)[k];
            if k < 5 then Sound(t, Contents(s)) else Sound(t, Contents(Publish(s, hole, home, key, data)))
  {
    var home := Home(key, |s|);
    if k < 5 {
      PublishImageShrunk(s, hole, home, key, data, k);
      UnownedUnclaimed(s, hole);
      ShrunkOwns(s, PublishImages(s, hole, home, key, data)[k], hole);
      LessSound(s, PublishImages(s, hole, home, key, data)[k]);
    } else {
      PublishLast(s, hole, home, key, data);
      PublishQuiescent(s, hole, key, data);
      StateSound(Publish(s, hole, home, key, data));
    }
  }

  lemma InsertSound(s: Mem, key: int, data: int, t: Mem)
    requires Inv(s) && Homed(key, |s|) && AllQuiescent(s) && t in InsertImages(s, key, data)
    ensures Sound(t, Contents(s)) || Sound(t, Contents(Insert(s, key, data).0))
  {
    var home := Home(key, |s|);
    var hole := Probe(s, home);
    DisplaceSound(s, hole, home);
    if t !in DisplaceImages(s, hole, home) {
      var d := Displace(s, hole, home);
      var k :| 0 <= k < 6 && t == PublishImages(d.mem, d.hole, home, key, data)[k];
      DisplaceKeeps(s, hole, home);
      DisplaceQuiescent(s, hole, home);
      PublishImageSound(d.mem, d.hole, key, data, k);
    }
  }

  // ---------------------------------------------------------------- updates and removals

  lemma UpdateImageOwned(s: Mem, x: nat, nval: int, w: nat, y: nat)
    requires x < |s| && w < 5 && Owned(UpdateImages(s, x, nval)[w], y)
    ensures Owned(s, y)
  {
    var t := UpdateImages(s, x, nval)[w];
    UpdateImage(s, x, nval, w, y);
    UpdateImage(s, x, nval, w, Home(t[y].key, |t|));
  }

  lemma UpdateSnapshot(s: Mem, x: nat, nval: int, w: nat, y: nat)
    requires Inv(s) && Owned(s, x) && AllQuiescent(s) && w < 5 && Owned(UpdateImages(s, x, nval)[w], y)
    ensures var t, u := UpdateImages(s, x, nval)[w], s[x := UpdatedBucket(s[x], nval)];
            && (t[y].lock != 0 <==> w < 4 && y == x)
            && (InStep(t[y]) <==> !(y == x && 1 <= w <= 2))
            && (t[y].lock == 0 ==> (t[y].key, t[y].data) in Contents(s) || (t[y].key, t[y].data) in Contents(u))
  {
    UpdateImage(s, x, nval, w, y);
    UpdateImageOwned(s, x, nval, w, y);
    OwnedStored(s, y);
    if y == x {
      VersionSnapshot(s, x, nval, w);
      UpdateSlot(s, x, nval);
    }
  }

  lemma RemoveImageShrunk(s: Mem, h: nat, o: nat, k: nat)
    requires Inv(s) && Owned(s, h + o) && Home(s[h + o].key, |s|) == h && k < 3
    ensures var t := RemoveImages(s, h, o)[k];
            Shrunk(s, t, if k == 0 then -1 else h + o) && forall g | 0 <= g <= h + o :: h + o - g !in t[g].hopinfo
  {
    forall g | 0 <= g <= h + o && h + o - g in s[g].hopinfo ensures g == h {
      assert g + (h + o - g) == h + o;
    }
  }

  lemma RemoveSound(s: Mem, h: nat, o: nat, k: nat)
    requires Inv(s) && Owned(s, h + o) && Home(s[h + o].key, |s|) == h && k < 3 && AllQuiescent(s)
    ensures Sound(RemoveImages(s, h, o)[k], Contents(s))
  {
    RemoveImageShrunk(s, h, o, k);
    ShrunkOwns(s, RemoveImages(s, h, o)[k], if k == 0 then -1 else h + o);
    LessSound(s, RemoveImages(s, h, o)[k]);
  }

  // ---------------------------------------------------------------- where the images lead

  /** What the last write leaves; without a write, the table as it was. */
  function LastOf(s: Mem, images: seq<Mem>): Mem
  {
    if images == [] then s else images[|images| - 1]
  }

  lemma LastOfTwo(s: Mem, a: seq<Mem>, b: seq<Mem>)
    ensures LastOf(s, a + b) == LastOf(LastOf(s, a), b)
  {
  }

  lemma {:induction false} DisplaceLast(s: Mem, hole: nat, home: nat)
    requires home <= hole < |s|
    ensures LastOf(s, DisplaceImages(s, hole, home)) == Displace(s, hole, home).mem
    decreases hole
  {
    if hole - home >= H {
      var j := FindMove(s, hole);
      if j < H {
        var t, from := Move(s, hole, j), Source(s, hole, j);
        MoveLast(s, hole, j);
        DisplaceLast(t, from, home);
        LastOfTwo(s, MoveImages(s, hole, j), DisplaceImages(t, from, home));
        hide MoveImages, Move;
      }
    }
  }

  lemma InsertLast(s: Mem, key: int, data: int)
    requires Homed(key, |s|)
    ensures LastOf(s, InsertImages(s, key, data)) == Insert(s, key, data).0
  {
    var home := Home(key, |s|);
    var hole := Probe(s, home);
    if hole < |s| {
      DisplaceLast(s, hole, home);
      var d := Displace(s, hole, home);
      if d.Room? {
        PublishLast(d.mem, d.hole, home, key, data);
        LastOfTwo(s, DisplaceImages(s, hole, home), PublishImages(d.mem, d.hole, home, key, data));
      }
    }
  }

  lemma RemoveLast(s: Mem, h: nat, o: nat)
    requires h + o < |s|
    ensures RemoveImages(s, h, o)[2] == ClearSlot(s, h, o)
  {
  }

  /** The writes of an operation lead to its result. */
  lemma ExecLast(s: Mem, op: Op)
    requires Inv(s) && Homed(op.key, |s|)
    ensures LastOf(s, ExecImages(s, op)) == Exec(s, op).0
  {
    var h, o := Home(op.key, |s|), FindOffset(s, op.key);
    match op
    case Put(k, d) => InsertLast(s, k, d);
    case Set(k, d) => if o < H { UpdateImage(s, h + o, d, 4, h + o); }
    case Get(_) =>
    case Del(k) => if o < H { RemoveLast(s, h, o); }
  }

  // ---------------------------------------------------------------- every image of every run

  /** A stored slot is locked exactly while it is being updated, its counters are in step exactly when neither of them
      is ahead, and unlocked it carries a pair of `c` or of `c'`. */
  ghost predicate Snapshot(t: Mem, y: nat, updating: bool, torn: bool, c: multiset<Pair>, c': multiset<Pair>)
    requires y < |t|
  {
    && (t[y].lock != 0 <==> updating)
    && (InStep(t[y]) <==> !torn)
    && (t[y].lock == 0 ==> (t[y].key, t[y].data) in c || (t[y].key, t[y].data) in c')
  }

  lemma PutSnapshot(s: Mem, k: int, d: int, t: Mem, y: nat)
    requires Inv(s) && Homed(k, |s|) && AllQuiescent(s) && t in InsertImages(s, k, d) && Owned(t, y)
    ensures Snapshot(t, y, false, false, Contents(s), Contents(Insert(s, k, d).0))
  {
    InsertSound(s, k, d, t);
  }

  lemma SetSnapshot(s: Mem, x: nat, d: int, w: nat, y: nat, t: Mem)
    requires Inv(s) && Owned(s, x) && AllQuiescent(s) && w < 5 && t == UpdateImages(s, x, d)[w] && Owned(t, y)
    ensures Snapshot(t, y, w < 4 && y == x, y == x && 1 <= w <= 2,
                     Contents(s), Contents(s[x := UpdatedBucket(s[x], d)]))
  {
    UpdateSnapshot(s, x, d, w, y);
  }

  lemma DelSnapshot(s: Mem, h: nat, o: nat, w: nat, y: nat, t: Mem, c': multiset<Pair>)
    requires Inv(s) && Owned(s, h + o) && Home(s[h + o].key, |s|) == h && AllQuiescent(s) && w < 3
    requires t == RemoveImages(s, h, o)[w] && Owned(t, y)
    ensures Snapshot(t, y, false, false, Contents(s), c')
  {
    hide RemoveImages;
    RemoveSound(s, h, o, w);
  }

  /** Between any two writes of any operation a stored slot is locked exactly while it is being updated, its counters
      are in step exactly outside the two images between their increments, and unlocked it carries a pair the table
      held before the operation or holds after it. */
  lemma ExecSnapshot(s: Mem, op: Op, w: nat, y: nat)
    requires Inv(s) && Homed(op.key, |s|) && AllQuiescent(s) && w < |ExecImages(s, op)|
    requires Owned(ExecImages(s, op)[w], y)
    ensures Snapshot(ExecImages(s, op)[w], y, Updating(s, op, w, y), Torn(s, op, w, y),
                     Contents(s), Contents(Exec(s, op).0))
  {
    hide Snapshot, Owned, AllQuiescent, InsertImages, UpdateImages, RemoveImages, Contents, HopsOk;
    var h, o, t := Home(op.key, |s|), FindOffset(s, op.key), ExecImages(s, op)[w];
    match op
    case Put(k, d) => PutSnapshot(s, k, d, t, y);
    case Set(k, d) =>
      OffsetFound(s, k);
      SetSnapshot(s, h + o, d, w, y, t);
    case Get(_) =>
    case Del(k) =>
      OffsetFound(s, k);
      DelSnapshot(s, h, o, w, y, t, Contents(Exec(s, op).0));
  }

  /** So it is in every image of every operation of every run from the empty table. */
  lemma RunSnapshots(states: seq<Mem>, ops: seq<Op>, answers: seq<int>, i: nat, w: nat, y: nat)
    requires Run(states, ops, answers) && |states[0]| > 1 && states[0] == EmptyTable(|states[0]|) && i < |ops|
    requires w < |ExecImages(states[i], ops[i])| && Owned(ExecImages(states[i], ops[i])[w], y)
    ensures Snapshot(ExecImages(states[i], ops[i])[w], y,
                     Updating(states[i], ops[i], w, y), Torn(states[i], ops[i], w, y),
                     Contents(states[i]), Contents(states[i + 1]))
  {
    RunQuiescent(states, ops, answers, i);
    assert Step(states[i], ops[i], states[i + 1], answers[i]);
    ExecSnapshot(states[i], ops[i], w, y);
  }

  lemma UpdateStaysOwned(s: Mem, x: nat, nval: int, w: nat)
    requires Owned(s, x) && w < 5
    ensures Owned(UpdateImages(s, x, nval)[w], x)
  {
    UpdateImage(s, x, nval, w, x);
    UpdateImage(s, x, nval, w, Home(s[x].key, |s|));
  }

  /** In particular, over every run the counters of the item that an update changes betray the two images between their
      increments, and no others. */
  lemma RunVersions(states: seq<Mem>, ops: seq<Op>, answers: seq<int>, i: nat, w: nat, x: nat)
    requires Run(states, ops, answers) && |states[0]| > 1 && states[0] == EmptyTable(|states[0]|) && i < |ops|
    requires w < |ExecImages(states[i], ops[i])| && Updating(states[i], ops[i], 0, x)
    ensures var t := ExecImages(states[i], ops[i])[w]; Owned(t, x) && (InStep(t[x]) <==> w == 0 || w >= 3)
  {
    var s, op := states[i], ops[i];
    OffsetFound(s, op.key);
    UpdateStaysOwned(s, x, op.data, w);
    RunSnapshots(states, ops, answers, i, w, x);
  }

  // ---------------------------------------------------------------- the readers' scans

  /** The scan of a key meets the same slots in both images. */
  lemma {:induction false} ScanFromSame(s: Mem, t: Mem, key: int, i: nat, e: nat)
    requires |t| == |s| && i <= e <= |s| && forall y | i <= y < e :: s[y].key == key <==> t[y].key == key
    ensures ScanFrom(t, key, i, e) == ScanFrom(s, key, i, e)
    decreases e - i
  {
    if i < e && s[i].key != key {
      ScanFromSame(s, t, key, i + 1, e);
    }
  }

  /** A change of slot `x` that neither takes the key away nor brings it goes unnoticed by its readers. */
  lemma ScanOther(s: Mem, t: Mem, x: nat, key: int)
    requires SameBut(s, t, x) && x < |s| && Homed(key, |s|) && s[x].key != key && t[x].key != key
    ensures Scan(t, key) == Scan(s, key)
  {
    ScanFromSame(s, t, key, Home(key, |s|), WindowEnd(key, |s|));
  }

  lemma ScanUpdated(s: Mem, t: Mem, x: nat)
    requires Quiet(s) && Owned(s, x) && SameBut(s, t, x) && t[x].key == s[x].key
    ensures Homed(s[x].key, |t|) && Scan(t, s[x].key) == Some(t[x].data)
  {
    var key := s[x].key;
    OwnedInWindow(s, x);
    forall y | Home(key, |t|) <= y < x ensures t[y].key != key {
      assert t[y].key == s[y].key;
    }
    ScanHits(t, key, x, t[x].data);
  }

  lemma ScanRemoved(s: Mem, t: Mem, x: nat)
    requires Quiet(s) && Owned(s, x) && SameBut(s, t, x) && t[x].key == EMPTY
    ensures Homed(s[x].key, |t|) && Scan(t, s[x].key) == None
  {
    var key := s[x].key;
    OwnedInWindow(s, x);
    forall y | Home(key, |t|) <= y < WindowEnd(key, |t|) ensures t[y].key != key {
      assert y != x ==> t[y].key == s[y].key;
    }
  }

  lemma UpdateImageBut(s: Mem, x: nat, nval: int, w: nat)
    requires x < |s| && w < 5
    ensures var t := UpdateImages(s, x, nval)[w];
            SameBut(s, t, x) && t[x].key == s[x].key && t[x].data == if w < 2 then s[x].data else nval
  {
    forall y | 0 <= y < |s| && y != x
      ensures UpdateImages(s, x, nval)[w][y].key == s[y].key && UpdateImages(s, x, nval)[w][y].data == s[y].data
    {
      UpdateImage(s, x, nval, w, y);
    }
    UpdateImage(s, x, nval, w, x);
  }

  lemma UpdateReads(s: Mem, x: nat, nval: int, w: nat, t: Mem, other: int)
    requires Quiet(s) && Owned(s, x) && Homed(other, |s|) && other != s[x].key && w < 5
    requires t == UpdateImages(s, x, nval)[w]
    ensures |t| == |s| && Homed(s[x].key, |s|)
    ensures Scan(t, s[x].key) == Some(if w < 2 then s[x].data else nval) && Scan(t, other) == Scan(s, other)
  {
    UpdateImageBut(s, x, nval, w);
    ScanUpdated(s, t, x);
    ScanOther(s, t, x, other);
  }

  /** While a stored key is updated its readers get the old data up to the second write and the new data from the
      third on; all other readers get what they got before. */
  lemma SetReads(s: Mem, key: int, nval: int, w: nat, other: int)
    requires Quiet(s) && Homed(key, |s|) && Stored(s, key) && Homed(other, |s|) && other != key && w < 5
    ensures var images := ExecImages(s, Set(key, nval));
            && |images| == 5 && |images[w]| == |s|
            && Scan(images[w], key) == Some(if w < 2 then Lookup(s, key) else nval)
            && Scan(images[w], other) == Scan(s, other)
  {
    hide UpdateImages, Scan, Stored, Settled, HopsOk, Contents, Owned;
    FoundIffStored(s, key);
    OffsetFound(s, key);
    var x := Home(key, |s|) + FindOffset(s, key);
    UpdateReads(s, x, nval, w, UpdateImages(s, x, nval)[w], other);
  }

  lemma RemoveImageBut(s: Mem, h: nat, o: nat, w: nat)
    requires h + o < |s| && w < 3
    ensures var t, x := RemoveImages(s, h, o)[w], h + o;
            && SameBut(s, t, x) && (w == 0 ==> t[x].key == s[x].key && t[x].data == s[x].data)
            && (w > 0 ==> t[x].key == EMPTY)
  {
  }

  /** While a stored key is removed its readers get its data up to the first write and nothing from the second on; all
      other readers get what they got before. */
  lemma DelReads(s: Mem, key: int, w: nat, other: int)
    requires Quiet(s) && Homed(key, |s|) && Stored(s, key) && Homed(other, |s|) && other != key && w < 3
    ensures var images := ExecImages(s, Del(key));
            && |images| == 3 && |images[w]| == |s|
            && Scan(images[w], key) == (if w == 0 then Some(Lookup(s, key)) else None)
            && Scan(images[w], other) == Scan(s, other)
  {
    hide RemoveImages, Scan, Stored, Settled, HopsOk, Contents, Owned;
    FoundIffStored(s, key);
    OffsetFound(s, key);
    var h, o := Home(key, |s|), FindOffset(s, key);
    RemoveReads(s, h, o, w, RemoveImages(s, h, o)[w], other);
  }

  lemma RemoveReads(s: Mem, h: nat, o: nat, w: nat, t: Mem, other: int)
    requires Quiet(s) && Owned(s, h + o) && Homed(other, |s|) && other != s[h + o].key && w < 3
    requires t == RemoveImages(s, h, o)[w]
    ensures var x := h + o;
            && |t| == |s| && Homed(s[x].key, |s|)
            && Scan(t, s[x].key) == (if w == 0 then Some(s[x].data) else None) && Scan(t, other) == Scan(s, other)
  {
    RemoveImageBut(s, h, o, w);
    if w == 0 {
      ScanUpdated(s, t, h + o);
    } else {
      ScanRemoved(s, t, h + o);
    }
    ScanOther(s, t, h + o, other);
  }

  lemma PutReads(s: Mem, key: int, data: int, w: nat, p: Pair)
    requires Quiet(s) && Homed(key, |s|) && !Stored(s, key) && w < |InsertImages(s, key, data)| && p in Contents(s)
    ensures var t := InsertImages(s, key, data)[w]; Homed(p.0, |t|) && Scan(t, p.0) == Some(p.1)
  {
    hide InsertImages, Settled, HopsOk, Stored, Contents, Scan;
    InsertVisible(s, key, data);
    assert InsertImages(s, key, data)[w] in InsertImages(s, key, data);
  }

  lemma ExecReads(s: Mem, op: Op, w: nat, p: Pair)
    requires Quiet(s) && Homed(op.key, |s|) && (op.Put? ==> !Stored(s, op.key)) && w < |ExecImages(s, op)|
    requires p in Contents(s) && p.0 != op.key
    ensures var t := ExecImages(s, op)[w]; Homed(p.0, |t|) && Scan(t, p.0) == Some(p.1)
  {
    hide InsertImages, UpdateImages, RemoveImages, Scan, Stored, Settled, HopsOk, Contents, Owned;
    StoredPair(s, p);
    match op
    case Put(k, d) => PutReads(s, k, d, w, p);
    case Set(k, d) =>
      FoundIffStored(s, k);
      SetReads(s, k, d, w, p.0);
    case Get(_) =>
    case Del(k) =>
      FoundIffStored(s, k);
      DelReads(s, k, w, p.0);
  }

  /** Between any two writes of any operation in a disciplined run from the empty table, readers of every other stored
      key get its data. */
  lemma RunImagesRead(states: seq<Mem>, ops: seq<Op>, answers: seq<int>, i: nat, w: nat, p: Pair)
    requires Disciplined(states, ops, answers) && i < |ops|
    requires |states[0]| > 1 && states[0] == EmptyTable(|states[0]|)
    requires w < |ExecImages(states[i], ops[i])| && p in Contents(states[i]) && p.0 != ops[i].key
    ensures var t := ExecImages(states[i], ops[i])[w]; Homed(p.0, |t|) && Scan(t, p.0) == Some(p.1)
  {
    RunQuiet(states, ops, answers, i);
    assert ops[i].Put? ==> !Stored(states[i], ops[i].key);
    ExecReads(states[i], ops[i], w, p);
  }

  lemma StoredPair(s: Mem, p: Pair)
    requires Quiet(s) && p in Contents(s)
    ensures Homed(p.0, |s|) && Scan(s, p.0) == Some(p.1)
  {
    var x := ItemsMember(s, p, |s|);
    OwnedInWindow(s, x);
    ScanFindsOwned(s, p.0, x);
  }
}
