/** What a remote client sees.  It reads the six buckets from the home of a key in one piece, ignores the
    hop bitmaps, and takes the first bucket that carries the key. */
module HopscotchReaders {
  import opened HopscotchModel
  import opened HopscotchRefinement
  import opened Options

  // ---------------------------------------------------------------- the six-bucket scan

  /** The first slot of [i, end) that carries the key, or `end`. */
  function ScanFrom(s: Mem, key: int, i: nat, end: nat): (x: nat)
    requires i <= end <= |s|
    ensures i <= x <= end
    ensures x < end ==> s[x].key == key
    ensures forall y | i <= y < x :: s[y].key != key
    decreases end - i
  {
    if i == end || s[i].key == key then i else ScanFrom(s, key, i + 1, end)
  }

  function WindowEnd(key: int, n: nat): (e: nat)
    requires Homed(key, n)
    ensures Home(key, n) < e <= n
  {
    if Home(key, n) + H <= n then Home(key, n) + H else n
  }

  /** The data a reader takes for the key from one memory image. */
  function Scan(s: Mem, key: int): Option<int>
    requires Homed(key, |s|)
  {
    var e := WindowEnd(key, |s|);
    var x := ScanFrom(s, key, Home(key, |s|), e);
    if x < e then Some(s[x].data) else None
  }

  /** What the client takes for a key: it starts at bucket number `key` without reducing it, and buckets beyond
      the array carry nothing for it. */
  function ClientScan(s: Mem, key: nat): Option<int>
  {
    if key >= |s| then None
    else
      var e := if key + H <= |s| then key + H else |s|;
      var x := ScanFrom(s, key, key, e);
      if x < e then Some(s[x].data) else None
  }

  /** A read covers exactly six buckets, fewer at the end of the array, from the home on or from bucket number `key` on,
      and takes the data of the first one that carries the key. */
  lemma ScanIs(s: Mem, key: int, d: int)
    requires Homed(key, |s|)
    ensures Scan(s, key) == Some(d) <==>
            exists x: nat :: x < |s| && Home(key, |s|) <= x < Home(key, |s|) + 6 && s[x].key == key && s[x].data == d
                             && forall y | Home(key, |s|) <= y < x :: s[y].key != key
    ensures key >= 0 ==>
              (ClientScan(s, key) == Some(d) <==>
               exists x: nat :: x < |s| && key <= x < key + 6 && s[x].key == key && s[x].data == d
                                && forall y | key <= y < x :: s[y].key != key)
  {
    var x := ScanFrom(s, key, Home(key, |s|), WindowEnd(key, |s|));
    if 0 <= key < |s| {
      var z := ScanFrom(s, key, key, if key + H <= |s| then key + H else |s|);
    }
  }

  // ---------------------------------------------------------------- states between two writes

  /** Outside slot `z`, every occupied slot is owned and no key occurs twice. */
  ghost predicate Settled(s: Mem, z: int)
  {
    && (forall x: nat {:trigger Owned(s, x)} | x < |s| && x != z && s[x].key != EMPTY :: Owned(s, x))
    && (forall x, y | 0 <= x < y < |s| && x != z && y != z && s[x].key != EMPTY :: s[x].key != s[y].key)
  }

  /** A state in which every occupied slot is owned and no key occurs twice. */
  ghost predicate Quiet(s: Mem)
  {
    Inv(s) && Settled(s, -1)
  }

  /** Whatever image `t` has put into the hole, a reader of a stored key does not take it for its item:
      the item comes first, or carries the same data. */
  ghost predicate Harmless(s: Mem, t: Mem, hole: nat)
  {
    && SameBut(s, t, hole) && hole < |s|
    && forall y | 0 <= y < |s| && y != hole && s[y].key == t[hole].key && s[y].key != EMPTY ::
         y < hole || s[y].data == t[hole].data
  }

  /** The state at the head of the displacement loop. */
  ghost predicate Round(s: Mem, hole: nat)
  {
    Inv(s) && Settled(s, hole) && hole < |s| && !Owned(s, hole) && Harmless(s, s, hole)
  }

  /** Every pair of `c` can be read from image `t`. */
  ghost predicate Visible(c: multiset<Pair>, t: Mem)
  {
    forall p | p in c :: Homed(p.0, |t|) && Scan(t, p.0) == Some(p.1)
  }

  lemma ScanHits(t: Mem, key: int, x: nat, d: int)
    requires Homed(key, |t|) && Home(key, |t|) <= x < WindowEnd(key, |t|) && t[x].key == key && t[x].data == d
    requires forall y | Home(key, |t|) <= y < x && t[y].key == key :: t[y].data == d
    ensures Scan(t, key) == Some(d)
  {
    var y := ScanFrom(t, key, Home(key, |t|), WindowEnd(key, |t|));
    assert y <= x;
  }

  lemma OwnedInWindow(s: Mem, x: nat)
    requires Inv(s) && Owned(s, x)
    ensures Homed(s[x].key, |s|) && Home(s[x].key, |s|) <= x < WindowEnd(s[x].key, |s|)
  {
    assert x - Home(s[x].key, |s|) in s[Home(s[x].key, |s|)].hopinfo;
  }

  lemma HarmlessBefore(s: Mem, t: Mem, hole: nat, x: nat, y: nat)
    requires Settled(s, hole) && Harmless(s, t, hole)
    requires y < x < |s| && x != hole && s[x].key != EMPTY && t[y].key == s[x].key
    ensures t[y].data == s[x].data
  {
  }

  lemma HarmlessReads(s: Mem, t: Mem, hole: nat, x: nat)
    requires Inv(s) && Settled(s, hole) && Harmless(s, t, hole) && Owned(s, x) && x != hole
    ensures Homed(s[x].key, |t|) && Scan(t, s[x].key) == Some(s[x].data)
  {
    var key := s[x].key;
    OwnedInWindow(s, x);
    forall y | Home(key, |t|) <= y < x && t[y].key == key ensures t[y].data == s[x].data {
      HarmlessBefore(s, t, hole, x, y);
    }
    ScanHits(t, key, x, s[x].data);
  }

  lemma HarmlessVisible(s: Mem, t: Mem, hole: nat)
    requires Inv(s) && Settled(s, hole) && !Owned(s, hole) && Harmless(s, t, hole)
    ensures Visible(Contents(s), t)
  {
    forall p | p in Contents(s) ensures Homed(p.0, |t|) && Scan(t, p.0) == Some(p.1) {
      ContentsMember(s, p);
      var x: nat :| Owned(s, x) && (s[x].key, s[x].data) == p;
      HarmlessReads(s, t, hole, x);
    }
  }

  // ---------------------------------------------------------------- one displacement, write by write

  lemma MoveImagesShape(s: Mem, hole: nat, j: nat, k: nat)
    requires Inv(s) && hole < |s| && j < H && CanMove(s, hole, j) && k < 7
    ensures var t, from := MoveImages(s, hole, j)[k], Source(s, hole, j);
            && SameBut(s, t, hole) && t[hole].key == s[from].key
            && t[hole].data == if k == 0 then s[hole].data else s[from].data
  {
  }

  lemma MoveImageVisible(s: Mem, hole: nat, j: nat, k: nat)
    requires Round(s, hole) && j < H && CanMove(s, hole, j) && k < 7
    ensures Visible(Contents(s), MoveImages(s, hole, j)[k])
  {
    var t, from := MoveImages(s, hole, j)[k], Source(s, hole, j);
    assert SameBut(s, t, hole) && t[hole].key == s[from].key
      && t[hole].data == (if k == 0 then s[hole].data else s[from].data) by { MoveImagesShape(s, hole, j, k); }
    MovedHarmless(s, t, hole, from);
    HarmlessVisible(s, t, hole);
  }

  lemma MovedHarmless(s: Mem, t: Mem, hole: nat, from: nat)
    requires Settled(s, hole) && from < hole < |s|
    requires SameBut(s, t, hole) && t[hole].key == s[from].key
    ensures Harmless(s, t, hole)
  {
    forall y | 0 <= y < |s| && y != hole && s[y].key == t[hole].key && s[y].key != EMPTY ensures y < hole {
      assert y == from;
    }
  }

  lemma MovedOwned(s: Mem, t: Mem, hole: nat, h: nat, from: nat)
    requires Inv(s) && !Owned(s, hole) && Moved(s, t, hole, h, from)
    ensures !Owned(t, from) && Owned(t, hole)
    ensures forall x: nat | x < |s| && x != hole && x != from :: Owned(t, x) == Owned(s, x)
  {
    assert h + (from - h) == from;
    assert Home(s[from].key, |s|) == h;
    forall x: nat {:trigger Owned(t, x)} | x < |s| && x != hole && x != from ensures Owned(t, x) == Owned(s, x) {
      assert t[x].key == s[x].key;
    }
  }

  lemma MovedDistinct(s: Mem, t: Mem, hole: nat, h: nat, from: nat, x: nat, y: nat)
    requires Settled(s, hole) && hole < |s| && Moved(s, t, hole, h, from)
    requires x < y < |t| && x != from && y != from && t[x].key != EMPTY
    ensures t[x].key != t[y].key
  {
    var x', y' := if x == hole then from else x, if y == hole then from else y;
    assert t[x].key == s[x'].key && t[y].key == s[y'].key;
  }

  lemma MovedStaysOwned(s: Mem, t: Mem, hole: nat, h: nat, from: nat, x: nat)
    requires Round(s, hole) && Moved(s, t, hole, h, from)
    requires x < |t| && x != from && t[x].key != EMPTY
    ensures Owned(t, x)
  {
    assert x != hole ==> t[x].key == s[x].key;
    MovedOwned(s, t, hole, h, from);
  }

  lemma MovedSettled(s: Mem, t: Mem, hole: nat, h: nat, from: nat)
    requires Round(s, hole) && Moved(s, t, hole, h, from)
    ensures Settled(t, from)
  {
    assert forall x: nat | x < |t| && x != from && t[x].key != EMPTY :: Owned(t, x) by {
      forall x: nat {:trigger Owned(t, x)} | x < |t| && x != from && t[x].key != EMPTY ensures Owned(t, x) {
        MovedStaysOwned(s, t, hole, h, from, x);
      }
    }
    assert forall x, y | 0 <= x < y < |t| && x != from && y != from && t[x].key != EMPTY :: t[x].key != t[y].key by {
      forall x, y | 0 <= x < y < |t| && x != from && y != from && t[x].key != EMPTY ensures t[x].key != t[y].key {
        MovedDistinct(s, t, hole, h, from, x, y);
      }
    }
  }

  /** The source keeps a full copy of the item that went up, so it is harmless from now on. */
  lemma CopyHarmless(t: Mem, hole: nat, from: nat)
    requires Settled(t, from) && from < hole < |t|
    requires t[hole].key == t[from].key && t[hole].data == t[from].data
    ensures Harmless(t, t, from)
  {
    forall y | 0 <= y < |t| && y != from && t[y].key == t[from].key && t[y].key != EMPTY
      ensures t[y].data == t[from].data
    {
      assert y == hole;
    }
  }

  lemma MoveRound(s: Mem, hole: nat, j: nat)
    requires Round(s, hole) && j < H && CanMove(s, hole, j)
    ensures Round(Move(s, hole, j), Source(s, hole, j))
  {
    var t, from := Move(s, hole, j), Source(s, hole, j);
    assert Moved(s, t, hole, hole - j, from) by { MoveShape(s, hole, j); }
    MovedInv(s, t, hole, hole - j, from);
    MovedOwned(s, t, hole, hole - j, from);
    MovedSettled(s, t, hole, hole - j, from);
    CopyHarmless(t, hole, from);
  }

  lemma MoveImagesVisible(s: Mem, hole: nat, j: nat)
    requires Round(s, hole) && j < H && CanMove(s, hole, j)
    ensures forall u | u in MoveImages(s, hole, j) :: Visible(Contents(s), u)
  {
    forall u | u in MoveImages(s, hole, j) ensures Visible(Contents(s), u) {
      var k :| 0 <= k < 7 && u == MoveImages(s, hole, j)[k];
      MoveImageVisible(s, hole, j, k);
    }
  }

  // ---------------------------------------------------------------- the whole displacement loop

  lemma {:induction false} DisplaceVisible(s: Mem, hole: nat, home: nat)
    requires Round(s, hole) && home <= hole
    ensures forall t | t in DisplaceImages(s, hole, home) :: Visible(Contents(s), t)
    ensures var d := Displace(s, hole, home); Round(d.mem, d.hole) && Contents(d.mem) == Contents(s)
    decreases hole
  {
    if hole - home >= H {
      var j := FindMove(s, hole);
      if j < H {
        MoveRound(s, hole, j);
        MoveKeeps(s, hole, j);
        MoveImagesVisible(s, hole, j);
        DisplaceVisible(Move(s, hole, j), Source(s, hole, j), home);
      }
    }
  }

  // ---------------------------------------------------------------- publication

  lemma PublishImagesShape(s: Mem, hole: nat, home: nat, key: int, data: int, k: nat)
    requires home <= hole < |s| && hole - home < H && k < 6
    ensures var t := PublishImages(s, hole, home, key, data)[k];
            && SameBut(s, t, hole)
            && t[hole].key == (if k < 3 then s[hole].key else key)
            && t[hole].data == (if k < 4 then s[hole].data else data)
    ensures PublishImages(s, hole, home, key, data)[5] == Publish(s, hole, home, key, data)
  {
  }

  lemma PublishImageVisible(s: Mem, hole: nat, home: nat, key: int, data: int, k: nat)
    requires Round(s, hole) && home <= hole && hole - home < H && k < 6
    requires forall d :: (key, d) !in Contents(s)
    ensures Visible(Contents(s), PublishImages(s, hole, home, key, data)[k])
  {
    var t := PublishImages(s, hole, home, key, data)[k];
    PublishImagesShape(s, hole, home, key, data, k);
    assert Harmless(s, t, hole) by {
      forall y | 0 <= y < |s| && y != hole && s[y].key == key && s[y].key != EMPTY ensures false {
        OwnedStored(s, y);
      }
    }
    HarmlessVisible(s, t, hole);
  }

  lemma QuietRound(s: Mem, hole: nat)
    requires Quiet(s) && hole < |s| && s[hole].key == EMPTY
    ensures Round(s, hole)
  {
  }

  /** At every single write of an insert of a new key, however long its displacement chain, every key
      stored before can be read from its six buckets with its data. */
  lemma InsertVisible(s: Mem, key: int, data: int)
    requires Quiet(s) && Homed(key, |s|) && !Stored(s, key)
    ensures forall t | t in InsertImages(s, key, data) :: Visible(Contents(s), t)
  {
    var home := Home(key, |s|);
    var hole := Probe(s, home);
    if hole < |s| {
      QuietRound(s, hole);
      DisplaceVisible(s, hole, home);
      var d := Displace(s, hole, home);
      if d.Room? {
        forall t | t in PublishImages(d.mem, d.hole, home, key, data) ensures Visible(Contents(s), t) {
          var k :| 0 <= k < 6 && t == PublishImages(d.mem, d.hole, home, key, data)[k];
          PublishImageVisible(d.mem, d.hole, home, key, data, k);
        }
      }
    }
  }

  lemma TornBucket(s: Mem, hole: nat, home: nat, key: int, data: int)
    requires home <= hole < |s| && hole - home < H
    ensures var t := PublishImages(s, hole, home, key, data)[3];
            |t| == |s| && t[hole].lock == 0 && t[hole].headerVersion == t[hole].cVer
  {
  }

  /** The last six images of an insert that answers 0. */
  lemma TornTail(s: Mem, key: int, data: int)
    requires Homed(key, |s|) && Insert(s, key, data).1 == 0
    ensures var home := Home(key, |s|); var hole := Probe(s, home);
            && hole < |s|
            && var d, images := Displace(s, hole, home), InsertImages(s, key, data);
            && d.Room? && home <= d.hole
            && var tail := PublishImages(d.mem, d.hole, home, key, data);
            && |images| >= 6 && images[|images| - 3] == tail[3] && images[|images| - 2] == tail[4]
  {
    hide Publish, PublishImages, DisplaceImages, Displace, Probe;
    var home := Home(key, |s|);
    var hole := Probe(s, home);
    var d := Displace(s, hole, home);
    assert d.Room?;
    var tail := PublishImages(d.mem, d.hole, home, key, data);
    assert InsertImages(s, key, data) == DisplaceImages(s, hole, home) + tail;
  }

  /** Between the fourth and the fifth write of a publication the new key is readable with the data that
      the slot held before, unlocked and with equal versions: a reader accepts it. */
  lemma PublicationTorn(s: Mem, key: int, data: int)
    requires Quiet(s) && Homed(key, |s|) && !Stored(s, key) && Insert(s, key, data).1 == 0
    ensures var d := Displace(s, Probe(s, Home(key, |s|)), Home(key, |s|));
            var images := InsertImages(s, key, data);
            var k := |images| - 3;
            && k >= 3 && |images[k]| == |s|
            && Scan(images[k], key) == Some(d.mem[d.hole].data)
            && Scan(images[k + 1], key) == Some(data)
            && images[k][d.hole].lock == 0 && images[k][d.hole].headerVersion == images[k][d.hole].cVer
  {
    TornTail(s, key, data);
    assert forall e :: (key, e) !in Contents(s);
    hide InsertImages, Insert, PublishImages, Displace, Quiet, Round, Scan, Contents, DisplaceImages;
    var home := Home(key, |s|);
    var hole := Probe(s, home);
    QuietRound(s, hole);
    DisplaceVisible(s, hole, home);
    var d := Displace(s, hole, home);
    TornBucket(d.mem, d.hole, home, key, data);
    PublishedReads(d.mem, d.hole, home, key, data, 3);
    PublishedReads(d.mem, d.hole, home, key, data, 4);
  }

  lemma PublishedReads(s: Mem, hole: nat, home: nat, key: int, data: int, k: nat)
    requires Round(s, hole) && Homed(key, |s|) && home == Home(key, |s|) <= hole && hole - home < H && 3 <= k < 6
    requires forall d :: (key, d) !in Contents(s)
    ensures var t := PublishImages(s, hole, home, key, data)[k];
            |t| == |s| && Scan(t, key) == Some(if k == 3 then s[hole].data else data)
  {
    var t := PublishImages(s, hole, home, key, data)[k];
    PublishImagesShape(s, hole, home, key, data, k);
    forall y | home <= y < hole ensures t[y].key != key {
      if s[y].key != EMPTY {
        assert Owned(s, y);
        OwnedStored(s, y);
      }
    }
    ScanHits(t, key, hole, t[hole].data);
  }

  // ---------------------------------------------------------------- quiet states agree with lookup

  lemma ScanFindsOwned(s: Mem, key: int, x: nat)
    requires Quiet(s) && Homed(key, |s|) && Owned(s, x) && s[x].key == key
    ensures Scan(s, key) == Some(s[x].data)
  {
    OwnedInWindow(s, x);
    forall y | Home(key, |s|) <= y < x ensures s[y].key != key {
    }
    ScanHits(s, key, x, s[x].data);
  }

  lemma ScanMisses(s: Mem, key: int)
    requires Quiet(s) && Homed(key, |s|) && !Stored(s, key)
    ensures Scan(s, key) == None
  {
    var e := WindowEnd(key, |s|);
    var y := ScanFrom(s, key, Home(key, |s|), e);
    if y < e {
      assert Owned(s, y);
      OwnedStored(s, y);
    }
  }

  /** In a quiet state the one-sided scan and the server's lookup agree on every key. */
  lemma ScanAgrees(s: Mem, key: int)
    requires Quiet(s) && Homed(key, |s|)
    ensures Scan(s, key) == if Stored(s, key) then Some(Lookup(s, key)) else None
  {
    hide Settled, HopsOk, Owned, Stored, Scan, Contents, FindOffset;
    FoundIffStored(s, key);
    if Stored(s, key) {
      OffsetFound(s, key);
      ScanFindsOwned(s, key, Home(key, |s|) + FindOffset(s, key));
    } else {
      ScanMisses(s, key);
    }
  }

  /** A client finds what lookup answers exactly for keys below the modulus: a stored key at or above it has its home
      in the array, while the client reads behind the end. */
  lemma ClientAgreesIff(s: Mem, key: nat)
    requires Quiet(s) && Homed(key, |s|)
    ensures ClientScan(s, key) == (if Stored(s, key) then Some(Lookup(s, key)) else None) <==>
            key < |s| || !Stored(s, key)
  {
    ScanAgrees(s, key);
  }

  lemma PublishedSlot(s: Mem, t: Mem, hole: nat, home: nat, key: int, data: int, x: nat)
    requires Round(s, hole) && Published(s, t, hole, home, key, data) && Homed(key, |s|) && Home(key, |s|) == home
    requires forall d :: (key, d) !in Contents(s)
    requires x < |t| && t[x].key != EMPTY
    ensures Owned(t, x) && (x == hole || (t[x].key == s[x].key && s[x].key != key))
  {
    if x != hole {
      assert Owned(s, x);
      OwnedStored(s, x);
    }
  }

  lemma PublishedDistinct(s: Mem, t: Mem, hole: nat, home: nat, key: int, data: int, x: nat, y: nat)
    requires Round(s, hole) && Published(s, t, hole, home, key, data) && Homed(key, |s|) && Home(key, |s|) == home
    requires forall d :: (key, d) !in Contents(s)
    requires x < y < |t| && t[x].key != EMPTY
    ensures t[x].key != t[y].key
  {
    PublishedSlot(s, t, hole, home, key, data, x);
    if t[y].key != EMPTY {
      PublishedSlot(s, t, hole, home, key, data, y);
    }
  }

  lemma PublishedQuiet(s: Mem, t: Mem, hole: nat, home: nat, key: int, data: int)
    requires Round(s, hole) && Homed(key, |s|) && Home(key, |s|) == home && Published(s, t, hole, home, key, data)
    requires forall d :: (key, d) !in Contents(s)
    ensures Quiet(t)
  {
    PublishedKeeps(s, t, hole, home, key, data);
    forall x: nat {:trigger Owned(t, x)} | x < |t| && t[x].key != EMPTY ensures Owned(t, x) {
      PublishedSlot(s, t, hole, home, key, data, x);
    }
    forall x, y | 0 <= x < y < |t| && t[x].key != EMPTY ensures t[x].key != t[y].key {
      PublishedDistinct(s, t, hole, home, key, data, x, y);
    }
  }

  /** A successful insert of a new key leaves a quiet state behind. */
  lemma InsertQuiet(s: Mem, key: int, data: int)
    requires Quiet(s) && Homed(key, |s|) && !Stored(s, key) && Insert(s, key, data).1 == 0
    ensures Quiet(Insert(s, key, data).0)
  {
    var home := Home(key, |s|);
    var hole := Probe(s, home);
    QuietRound(s, hole);
    DisplaceVisible(s, hole, home);
    var d := Displace(s, hole, home);
    PublishShape(d.mem, d.hole, home, key, data);
    PublishedQuiet(d.mem, Publish(d.mem, d.hole, home, key, data), d.hole, home, key, data);
  }

  lemma UpdatedSlot(s: Mem, t: Mem, x: nat, y: nat)
    requires Quiet(s) && Updated(s, t, x) && y < |t| && t[y].key != EMPTY
    ensures Owned(t, y)
  {
    assert t[y].key == s[y].key;
    assert Owned(s, y);
  }

  lemma UpdatedQuiet(s: Mem, t: Mem, x: nat)
    requires Quiet(s) && Updated(s, t, x)
    ensures Quiet(t)
  {
    UpdatedInv(s, t, x);
    assert forall y | 0 <= y < |s| :: t[y].key == s[y].key;
    forall y: nat {:trigger Owned(t, y)} | y < |t| && t[y].key != EMPTY ensures Owned(t, y) {
      UpdatedSlot(s, t, x, y);
    }
  }

  lemma RemovedSlot(s: Mem, t: Mem, h: nat, x: nat, y: nat)
    requires Quiet(s) && Removed(s, t, h, x) && y < |t| && t[y].key != EMPTY
    ensures Owned(t, y)
  {
    assert t[y].key == s[y].key;
    assert Owned(s, y);
  }

  lemma RemovedQuiet(s: Mem, t: Mem, h: nat, x: nat)
    requires Quiet(s) && Removed(s, t, h, x)
    ensures Quiet(t)
  {
    RemovedKeeps(s, t, h, x);
    forall y: nat {:trigger Owned(t, y)} | y < |t| && t[y].key != EMPTY ensures Owned(t, y) {
      RemovedSlot(s, t, h, x, y);
    }
  }

  lemma UpdateSlotQuiet(s: Mem, x: nat, nval: int)
    requires Quiet(s) && Owned(s, x)
    ensures Quiet(s[x := UpdatedBucket(s[x], nval)])
  {
    var t := s[x := UpdatedBucket(s[x], nval)];
    assert Updated(s, t, x) by { UpdateShape(s, x, nval); }
    UpdatedQuiet(s, t, x);
  }

  lemma UpdateQuiet(s: Mem, key: int, nval: int)
    requires Quiet(s) && Homed(key, |s|)
    ensures Quiet(Update(s, key, nval).0)
  {
    if FindOffset(s, key) < H {
      var x := Home(key, |s|) + FindOffset(s, key);
      assert Update(s, key, nval).0 == s[x := UpdatedBucket(s[x], nval)];
      assert Owned(s, x) by { OffsetFound(s, key); }
      UpdateSlotQuiet(s, x, nval);
    }
  }

  lemma RemoveSlotQuiet(s: Mem, h: nat, o: nat)
    requires Quiet(s) && Owned(s, h + o) && Home(s[h + o].key, |s|) == h
    ensures Quiet(ClearSlot(s, h, o))
  {
    var t := ClearSlot(s, h, o);
    assert Removed(s, t, h, h + o) by { RemoveShape(s, h, o); }
    RemovedQuiet(s, t, h, h + o);
  }

  lemma RemoveIs(s: Mem, key: int, h: nat, o: nat)
    requires Inv(s) && Homed(key, |s|) && h == Home(key, |s|) && o == FindOffset(s, key) < H
    ensures Owned(s, h + o) && Home(s[h + o].key, |s|) == h && Remove(s, key).0 == ClearSlot(s, h, o)
  {
    OffsetFound(s, key);
  }

  lemma RemoveQuiet(s: Mem, key: int)
    requires Quiet(s) && Homed(key, |s|)
    ensures Quiet(Remove(s, key).0)
  {
    var h, o := Home(key, |s|), FindOffset(s, key);
    if o < H {
      RemoveIs(s, key, h, o);
      RemoveSlotQuiet(s, h, o);
    }
  }

  lemma ExecQuiet(s: Mem, op: Op)
    requires Quiet(s) && Homed(op.key, |s|)
    requires op.Put? ==> !Stored(s, op.key) && !Spoils(s, op.key)
    ensures Quiet(Exec(s, op).0)
  {
    match op
    case Put(k, d) =>
      if Insert(s, k, d).1 == 0 {
        InsertQuiet(s, k, d);
      } else {
        InsertRefines(s, k, d);
        FailsUnchanged(s, k, d);
      }
    case Set(k, d) => UpdateQuiet(s, k, d);
    case Get(k) =>
    case Del(k) => RemoveQuiet(s, k);
  }

  /** A caller's discipline: only new keys are inserted, and none for which the hole can be moved down but not all the
      way. */
  ghost predicate Disciplined(states: seq<Mem>, ops: seq<Op>, answers: seq<int>)
  {
    Run(states, ops, answers) &&
    forall i | 0 <= i < |ops| && ops[i].Put? ::
      Homed(ops[i].key, |states[i]|) && !Stored(states[i], ops[i].key) && !Spoils(states[i], ops[i].key)
  }

  lemma {:induction false} RunQuiet(states: seq<Mem>, ops: seq<Op>, answers: seq<int>, n: nat)
    requires Disciplined(states, ops, answers) && Quiet(states[0]) && n <= |ops|
    ensures Quiet(states[n])
  {
    if n > 0 {
      RunQuiet(states, ops, answers, n - 1);
      assert Step(states[n - 1], ops[n - 1], states[n], answers[n - 1]);
      ExecQuiet(states[n - 1], ops[n - 1]);
    }
  }

  /** In every state of a disciplined run from the empty table, a one-sided reader gets what lookup answers. */
  lemma RunReads(states: seq<Mem>, ops: seq<Op>, answers: seq<int>, n: nat, key: int)
    requires Disciplined(states, ops, answers) && n <= |ops|
    requires |states[0]| > 1 && states[0] == EmptyTable(|states[0]|) && Homed(key, |states[n]|)
    ensures Quiet(states[n])
    ensures Scan(states[n], key) == if Stored(states[n], key) then Some(Lookup(states[n], key)) else None
  {
    RunQuiet(states, ops, answers, n);
    ScanAgrees(states[n], key);
  }
}
