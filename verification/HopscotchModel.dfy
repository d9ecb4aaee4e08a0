/** The bucket array of the FaRM hopscotch table as a value, and what each operation does to it.

    A memory image is the sequence of buckets.  Every function below follows the branches of the C code
    of the same name; the class in HopscotchTable.dfy performs the same work in place, one field
    assignment at a time, and is proved equal to these functions. */
module HopscotchModel {
  import opened CRemainder

  /** Neighbourhood size, HOPSCOTCH_HOPINFO_SIZE. */
  const H := 6

  /** The key of a bucket that holds nothing. */
  const EMPTY := -1

  /** A 32-bit bitmap, as the set of its set bits. */
  type Hops = hs: set<nat> | forall o | o in hs :: o < 32

  datatype Bucket = Bucket(key: int, headerVersion: nat, data: int, lock: int, cVer: nat, hopinfo: Hops)

  type Mem = seq<Bucket>

  /** The home bucket of a key, or a negative number. */
  function Home(key: int, n: nat): (h: int)
    requires n > 0
    ensures h < n && 0 < h + n
    ensures 0 <= key < n ==> h == key
  {
    Rem(key, n)
  }

  /** The caller's obligation: the key hashes to an index of the array.
      Negative keys do so only when they are multiples of the table size. */
  predicate Homed(key: int, n: nat)
  {
    n > 1 && key != EMPTY && 0 <= Home(key, n)
  }

  /** Number of trailing zeros counted from bit `i` on; 32 when no bit is left. */
  function Ctz(hs: Hops, i: nat := 0): (r: nat)
    requires i <= 32
    ensures i <= r <= 32
    ensures r < 32 ==> r in hs
    ensures forall o | o in hs && i <= o :: r <= o
    decreases 32 - i
  {
    if i == 32 || i in hs then i else Ctz(hs, i + 1)
  }

  // ---------------------------------------------------------------- invariant and contents

  /** Every set hop bit is inside the neighbourhood and the array, and names an item of that home. */
  predicate HopsOk(s: Mem)
  {
    forall h, o | 0 <= h < |s| && o in s[h].hopinfo ::
      o < H && h + o < |s| && s[h + o].key != EMPTY && Home(s[h + o].key, |s|) == h
  }

  predicate Inv(s: Mem)
  {
    |s| > 1 && HopsOk(s)
  }

  /** Slot `x` holds an item that its home bucket points to. */
  predicate Owned(s: Mem, x: nat)
  {
    x < |s| && s[x].key != EMPTY &&
    var h := Home(s[x].key, |s|);
    0 <= h <= x && x - h in s[h].hopinfo
  }

  predicate Occupied(s: Mem, x: nat)
  {
    x < |s| && s[x].key != EMPTY
  }

  type Pair = (int, int)

  /** What a slot contributes to the contents. */
  function Item(s: Mem, x: nat): multiset<Pair>
  {
    if Owned(s, x) then multiset{(s[x].key, s[x].data)} else multiset{}
  }

  function ItemsUpTo(s: Mem, n: nat): multiset<Pair>
    requires n <= |s|
  {
    if n == 0 then multiset{} else ItemsUpTo(s, n - 1) + Item(s, n - 1)
  }

  /** The abstract state of the table: the multiset of its (key, data) pairs. */
  function Contents(s: Mem): multiset<Pair>
  {
    ItemsUpTo(s, |s|)
  }

  // ---------------------------------------------------------------- lookup, update, remove

  /** The first offset from `i` on whose hop bit is set and whose slot has the key; H when there is none. */
  function FindOffset(s: Mem, key: int, i: nat := 0): (r: nat)
    requires Homed(key, |s|) && i <= H
    ensures i <= r <= H
    ensures var h := Home(key, |s|);
            && (r < H ==> r in s[h].hopinfo && h + r < |s| && s[h + r].key == key)
            && (forall o | i <= o < r && o in s[h].hopinfo && h + o < |s| :: s[h + o].key != key)
    decreases H - i
  {
    var h := Home(key, |s|);
    if i == H || (i in s[h].hopinfo && h + i < |s| && s[h + i].key == key) then i else FindOffset(s, key, i + 1)
  }

  /** The scan for the key meets a set hop bit that points beyond the array, where the C code reads on. */
  predicate Overruns(s: Mem, key: int)
    requires Homed(key, |s|)
  {
    var h := Home(key, |s|);
    exists o | 0 <= o < FindOffset(s, key) && o in s[h].hopinfo :: h + o >= |s|
  }

  function Lookup(s: Mem, key: int): int
    requires Homed(key, |s|)
  {
    var o := FindOffset(s, key);
    if o < H then s[Home(key, |s|) + o].data else 0
  }

  /** Slot `x` after an update: both version counters are one up, in their own widths. */
  function UpdatedBucket(b: Bucket, nval: int): Bucket
  {
    b.(headerVersion := (b.headerVersion + 1) % 0x1_0000_0000_0000_0000, data := nval,
       cVer := (b.cVer + 1) % 0x100, lock := 0)
  }

  function Update(s: Mem, key: int, nval: int): (Mem, int)
    requires Homed(key, |s|)
  {
    var o := FindOffset(s, key);
    if o < H then (var x := Home(key, |s|) + o; (s[x := UpdatedBucket(s[x], nval)], 1)) else (s, 0)
  }

  function ClearSlot(s: Mem, h: nat, o: nat): Mem
    requires h + o < |s|
  {
    var u := s[h := s[h].(hopinfo := s[h].hopinfo - {o})];
    u[h + o := u[h + o].(key := EMPTY, data := -1)]
  }

  /** An empty bitmap answers 0; a bitmap without the key answers -1. */
  function Remove(s: Mem, key: int): (Mem, int)
    requires Homed(key, |s|)
  {
    var h := Home(key, |s|);
    var o := FindOffset(s, key);
    if s[h].hopinfo == {} then (s, 0)
    else if o < H then (ClearSlot(s, h, o), s[h + o].data)
    else (s, -1)
  }

  // ---------------------------------------------------------------- insert

  /** Linear probing: the first empty bucket from `i` on, or the array size. */
  function Probe(s: Mem, i: nat): (r: nat)
    requires i <= |s|
    ensures i <= r <= |s|
    ensures r < |s| ==> s[r].key == EMPTY
    ensures forall x | i <= x < r :: s[x].key != EMPTY
    decreases |s| - i
  {
    if i == |s| || s[i].key == EMPTY then i else Probe(s, i + 1)
  }

  /** Bucket `hole - j` owns an item that lies before the hole. */
  predicate CanMove(s: Mem, hole: nat, j: nat)
    requires hole < |s|
  {
    1 <= j <= hole && s[hole - j].hopinfo != {} && Ctz(s[hole - j].hopinfo) < j
  }

  /** The inner `for` loop: the first distance from `j` on at which an item can move; H when there is none. */
  function FindMove(s: Mem, hole: nat, j: nat := 1): (r: nat)
    requires H <= hole < |s| && 1 <= j <= H
    ensures j <= r <= H
    ensures r < H ==> CanMove(s, hole, r)
    ensures forall k | j <= k < r :: !CanMove(s, hole, k)
    decreases H - j
  {
    if j == H || CanMove(s, hole, j) then j else FindMove(s, hole, j + 1)
  }

  function Source(s: Mem, hole: nat, j: nat): (x: nat)
    requires hole < |s| && CanMove(s, hole, j)
    ensures hole - j <= x < hole
  {
    hole - j + Ctz(s[hole - j].hopinfo)
  }

  /** One displacement: everything but the bitmap goes into the hole, then the home bucket's bits change. */
  function Move(s: Mem, hole: nat, j: nat): (t: Mem)
    requires hole < |s| && j < 32 && CanMove(s, hole, j)
    ensures |t| == |s|
  {
    var h, from := hole - j, Source(s, hole, j);
    var u := s[hole := s[from].(hopinfo := s[hole].hopinfo)];
    u[h := u[h].(hopinfo := u[h].hopinfo - {from - h} + {j})]
  }

  /** How the displacement loop ends: with a hole in the neighbourhood, or with nothing left to move. */
  datatype Displaced = Room(mem: Mem, hole: nat) | Stuck(mem: Mem, hole: nat)

  function Displace(s: Mem, hole: nat, home: nat): (d: Displaced)
    requires home <= hole < |s|
    ensures |d.mem| == |s| && home <= d.hole <= hole
    ensures d.Room? ==> d.hole - home < H
    ensures d.Stuck? ==> H <= d.hole - home && FindMove(d.mem, d.hole) == H
    decreases hole
  {
    if hole - home < H then Room(s, hole)
    else
      var j := FindMove(s, hole);
      if j >= H then Stuck(s, hole)
      else Displace(Move(s, hole, j), Source(s, hole, j), home)
  }

  /** The new item goes into the hole with fresh versions, then its home bucket claims it. */
  function Publish(s: Mem, hole: nat, home: nat, key: int, data: int): (t: Mem)
    requires home <= hole < |s| && hole - home < H
    ensures |t| == |s|
  {
    var u := s[hole := Bucket(key, 1, data, 0, 1, s[hole].hopinfo)];
    u[home := u[home].(hopinfo := u[home].hopinfo + {hole - home})]
  }

  function Insert(s: Mem, key: int, data: int): (Mem, int)
    requires Homed(key, |s|)
  {
    var home := Home(key, |s|);
    var hole := Probe(s, home);
    if hole == |s| then (s, -1)
    else
      match Displace(s, hole, home)
      case Stuck(m, _) => (m, -1)
      case Room(m, x) => (Publish(m, x, home, key, data), 0)
  }

  // ---------------------------------------------------------------- memory images, write by write

  /** The five writes of an update of slot `x`. */
  function UpdateImages(s: Mem, x: nat, nval: int): (t: seq<Mem>)
    requires x < |s|
    ensures |t| == 5
  {
    var s1 := s[x := s[x].(lock := 1)];
    var s2 := s1[x := s1[x].(headerVersion := (s1[x].headerVersion + 1) % 0x1_0000_0000_0000_0000)];
    var s3 := s2[x := s2[x].(data := nval)];
    var s4 := s3[x := s3[x].(cVer := (s3[x].cVer + 1) % 0x100)];
    var s5 := s4[x := s4[x].(lock := 0)];
    [s1, s2, s3, s4, s5]
  }

  /** The three writes of a removal. */
  function RemoveImages(s: Mem, h: nat, o: nat): (t: seq<Mem>)
    requires h + o < |s|
    ensures |t| == 3
  {
    var x := h + o;
    var s1 := s[h := s[h].(hopinfo := s[h].hopinfo - {o})];
    var s2 := s1[x := s1[x].(key := EMPTY)];
    var s3 := s2[x := s2[x].(data := -1)];
    [s1, s2, s3]
  }

  /** The seven writes of one displacement. */
  function MoveImages(s: Mem, hole: nat, j: nat): (t: seq<Mem>)
    requires hole < |s| && j < 32 && CanMove(s, hole, j)
    ensures |t| == 7
  {
    var h, from := hole - j, Source(s, hole, j);
    var s1 := s[hole := s[hole].(key := s[from].key)];
    var s2 := s1[hole := s1[hole].(data := s1[from].data)];
    var s3 := s2[hole := s2[hole].(headerVersion := s2[from].headerVersion)];
    var s4 := s3[hole := s3[hole].(lock := s3[from].lock)];
    var s5 := s4[hole := s4[hole].(cVer := s4[from].cVer)];
    var s6 := s5[h := s5[h].(hopinfo := s5[h].hopinfo - {from - h})];
    var s7 := s6[h := s6[h].(hopinfo := s6[h].hopinfo + {j})];
    [s1, s2, s3, s4, s5, s6, s7]
  }

  function DisplaceImages(s: Mem, hole: nat, home: nat): seq<Mem>
    requires home <= hole < |s|
    decreases hole
  {
    if hole - home < H then []
    else
      var j := FindMove(s, hole);
      if j >= H then []
      else MoveImages(s, hole, j) + DisplaceImages(Move(s, hole, j), Source(s, hole, j), home)
  }

  /** The six writes that put the new item into the hole. */
  function PublishImages(s: Mem, hole: nat, home: nat, key: int, data: int): (t: seq<Mem>)
    requires home <= hole < |s| && hole - home < H
    ensures |t| == 6
  {
    var s1 := s[hole := s[hole].(headerVersion := 1)];
    var s2 := s1[hole := s1[hole].(lock := 0)];
    var s3 := s2[hole := s2[hole].(cVer := 1)];
    var s4 := s3[hole := s3[hole].(key := key)];
    var s5 := s4[hole := s4[hole].(data := data)];
    var s6 := s5[home := s5[home].(hopinfo := s5[home].hopinfo + {hole - home})];
    [s1, s2, s3, s4, s5, s6]
  }

  /** Every memory image that a remote reader can meet while the insert runs, in order. */
  function InsertImages(s: Mem, key: int, data: int): seq<Mem>
    requires Homed(key, |s|)
  {
    var home := Home(key, |s|);
    var hole := Probe(s, home);
    if hole == |s| then []
    else
      DisplaceImages(s, hole, home) +
      match Displace(s, hole, home)
      case Stuck(_, _) => []
      case Room(m, x) => PublishImages(m, x, home, key, data)
  }
}
