/** The FaRM server's table: an array of buckets changed in place, one field assignment at a time. */
module HopscotchTable {
  import opened HopscotchModel
  import opened HopscotchRefinement
  import opened HopscotchReaders
  import opened HopscotchInit

  /** A round of the displacement loop lowers the hole, and keeps it above the home. */
  lemma DisplaceStep(s: Mem, hole: nat, home: nat)
    requires home <= hole < |s| && H <= hole - home && FindMove(s, hole) < H
    ensures home < Source(s, hole, FindMove(s, hole)) < hole
  {
  }

  lemma DisplaceRound(s: Mem, hole: nat, home: nat, seen: seq<Mem>)
    requires home <= hole < |s| && H <= hole - home && FindMove(s, hole) < H
    ensures var j := FindMove(s, hole); var t, from := Move(s, hole, j), Source(s, hole, j);
            && home <= from && Displace(s, hole, home) == Displace(t, from, home)
            && seen + DisplaceImages(s, hole, home) == seen + MoveImages(s, hole, j) + DisplaceImages(t, from, home)
  {
  }

  /** A scan that has come to a set bit is inside the array, unless it overruns. */
  lemma ScanInside(s: Mem, key: int, i: nat)
    requires Homed(key, |s|) && !Overruns(s, key) && i < H && i in s[Home(key, |s|)].hopinfo
    requires FindOffset(s, key, i) == FindOffset(s, key)
    ensures Home(key, |s|) + i < |s|
  {
  }

  class Table {
    var buckets: array<Bucket>

    /** Every image the array has gone through, write by write: what remote readers can meet. */
    ghost var seen: seq<Mem>

    /** The state that hopscotch_init builds: all buckets empty, and every hop bit set. */
    constructor FromInit(n: nat)
      ensures fresh(buckets) && buckets[..] == RealEmpty(n) && AllOnes(buckets[..]) && Within(buckets[..]) && seen == []
    {
      buckets := new Bucket[n](_ => Bucket(EMPTY, 0xFFFF_FFFF_FFFF_FFFF, -1, -1, 0xFF, ALL_BITS));
      seen := [];
      new;
      assert buckets[..] == RealEmpty(n);
    }

    /** All buckets empty and unclaimed, the state the bitmaps need; the C code's own is FromInit. */
    constructor (n: nat)
      ensures fresh(buckets) && buckets[..] == EmptyTable(n) && seen == []
      ensures n > 1 ==> Inv(buckets[..])
    {
      buckets := new Bucket[n](_ => Bucket(EMPTY, 0, 0, 0, 0, {}));
      seen := [];
      new;
      assert buckets[..] == EmptyTable(n);
    }

    /** One field assignment to one bucket. */
    method Store(i: nat, b: Bucket)
      requires i < buckets.Length
      modifies this`seen, buckets
      ensures buckets[..] == old(buckets[..])[i := b]
      ensures seen == old(seen) + [buckets[..]]
    {
      buckets[i] := b;
      seen := seen + [buckets[..]];
    }

    /** The loop over the six hop bits of the home bucket. */
    method Search(key: int) returns (i: nat)
      requires Homed(key, buckets.Length) && !Overruns(buckets[..], key)
      ensures i == FindOffset(buckets[..], key)
    {
      var idx: nat := Home(key, buckets.Length);
      i := 0;
      while i < H
        invariant i <= H && FindOffset(buckets[..], key, i) == FindOffset(buckets[..], key)
      {
        if i in buckets[idx].hopinfo {
          ScanInside(buckets[..], key, i);
          if key == buckets[idx + i].key {
            return i;
          }
        }
        i := i + 1;
      }
    }

    method Lookup(key: int) returns (data: int)
      requires Homed(key, buckets.Length) && !Overruns(buckets[..], key)
      ensures data == HopscotchModel.Lookup(buckets[..], key)
    {
      hide FindOffset;
      var idx: nat := Home(key, buckets.Length);
      if buckets[idx].hopinfo == {} {
        return 0;
      }
      var i := Search(key);
      data := if i < H then buckets[idx + i].data else 0;
    }

    /** The five writes of an update. */
    method UpdateAt(x: nat, nval: int)
      requires x < buckets.Length
      modifies this`seen, buckets
      ensures buckets[..] == old(buckets[..])[x := UpdatedBucket(old(buckets[x]), nval)]
      ensures seen == old(seen) + UpdateImages(old(buckets[..]), x, nval)
    {
      ghost var s := buckets[..];
      Store(x, buckets[x].(lock := 1));
      Store(x, buckets[x].(headerVersion := (buckets[x].headerVersion + 1) % 0x1_0000_0000_0000_0000));
      Store(x, buckets[x].(data := nval));
      Store(x, buckets[x].(cVer := (buckets[x].cVer + 1) % 0x100));
      Store(x, buckets[x].(lock := 0));
      assert buckets[..] == s[x := UpdatedBucket(s[x], nval)];
    }

    method Update(key: int, nval: int) returns (r: int)
      requires Homed(key, buckets.Length) && !Overruns(buckets[..], key)
      modifies this`seen, buckets
      ensures (buckets[..], r) == HopscotchModel.Update(old(buckets[..]), key, nval)
      ensures seen == old(seen) +
                      if r == 0 then []
                      else UpdateImages(old(buckets[..]), Home(key, buckets.Length) + FindOffset(old(buckets[..]), key),
                                        nval)
    {
      hide FindOffset;
      var idx: nat := Home(key, buckets.Length);
      if buckets[idx].hopinfo == {} {
        return 0;
      }
      var i := Search(key);
      if i == H {
        return 0;
      }
      UpdateAt(idx + i, nval);
      return 1;
    }

    /** The three writes of a removal. */
    method ClearAt(idx: nat, i: nat) returns (data: int)
      requires idx + i < buckets.Length
      modifies this`seen, buckets
      ensures data == old(buckets[idx + i].data)
      ensures buckets[..] == ClearSlot(old(buckets[..]), idx, i)
      ensures seen == old(seen) + RemoveImages(old(buckets[..]), idx, i)
    {
      ghost var s := buckets[..];
      data := buckets[idx + i].data;
      Store(idx, buckets[idx].(hopinfo := buckets[idx].hopinfo - {i}));
      Store(idx + i, buckets[idx + i].(key := EMPTY));
      Store(idx + i, buckets[idx + i].(data := -1));
      assert buckets[..] == ClearSlot(s, idx, i);
    }

    method Remove(key: int) returns (r: int)
      requires Homed(key, buckets.Length) && !Overruns(buckets[..], key)
      modifies this`seen, buckets
      ensures (buckets[..], r) == HopscotchModel.Remove(old(buckets[..]), key)
      ensures seen == old(seen) +
                      if FindOffset(old(buckets[..]), key) == H then []
                      else RemoveImages(old(buckets[..]), Home(key, buckets.Length), FindOffset(old(buckets[..]), key))
    {
      hide FindOffset;
      var idx: nat := Home(key, buckets.Length);
      if buckets[idx].hopinfo == {} {
        return 0;
      }
      var i := Search(key);
      if i == H {
        return -1;
      }
      r := ClearAt(idx, i);
    }

    /** The seven writes of one displacement. */
    method MoveInto(i: nat, j: nat) returns (from: nat)
      requires i < buckets.Length && j < 32 && CanMove(buckets[..], i, j)
      modifies this`seen, buckets
      ensures from == Source(old(buckets[..]), i, j)
      ensures buckets[..] == Move(old(buckets[..]), i, j)
      ensures seen == old(seen) + MoveImages(old(buckets[..]), i, j)
    {
      ghost var s := buckets[..];
      var off := Ctz(buckets[i - j].hopinfo);
      from := i - j + off;
      Store(i, buckets[i].(key := buckets[from].key));
      Store(i, buckets[i].(data := buckets[from].data));
      Store(i, buckets[i].(headerVersion := buckets[from].headerVersion));
      Store(i, buckets[i].(lock := buckets[from].lock));
      Store(i, buckets[i].(cVer := buckets[from].cVer));
      Store(i - j, buckets[i - j].(hopinfo := buckets[i - j].hopinfo - {off}));
      Store(i - j, buckets[i - j].(hopinfo := buckets[i - j].hopinfo + {j}));
      assert buckets[..] == Move(s, i, j);
    }

    /** The six writes of a publication. */
    method PublishAt(i: nat, idx: nat, key: int, data: int)
      requires idx <= i < buckets.Length && i - idx < H
      modifies this`seen, buckets
      ensures buckets[..] == Publish(old(buckets[..]), i, idx, key, data)
      ensures seen == old(seen) + PublishImages(old(buckets[..]), i, idx, key, data)
    {
      ghost var s := buckets[..];
      var off := i - idx;
      Store(i, buckets[i].(headerVersion := 1));
      Store(i, buckets[i].(lock := 0));
      Store(i, buckets[i].(cVer := 1));
      Store(i, buckets[i].(key := key));
      Store(i, buckets[i].(data := data));
      Store(idx, buckets[idx].(hopinfo := buckets[idx].hopinfo + {off}));
      assert buckets[..] == Publish(s, i, idx, key, data);
    }

    /** The inner `for` loop: the nearest bucket before the hole with an item that can move into it. */
    method SearchMove(i: nat) returns (j: nat)
      requires H <= i < buckets.Length
      ensures j == FindMove(buckets[..], i)
    {
      j := 1;
      while j < H
        invariant 1 <= j <= H && FindMove(buckets[..], i, j) == FindMove(buckets[..], i)
      {
        if buckets[i - j].hopinfo != {} {
          var off := Ctz(buckets[i - j].hopinfo);
          if off < j {
            return j;
          }
        }
        j := j + 1;
      }
    }

    /** The displacement loop: walks the hole towards the home until it lies in the neighbourhood. */
    method MakeRoom(hole: nat, idx: nat) returns (i: nat, ok: bool)
      requires idx <= hole < buckets.Length
      modifies this`seen, buckets
      ensures Displace(old(buckets[..]), hole, idx) == if ok then Room(buckets[..], i) else Stuck(buckets[..], i)
      ensures seen == old(seen) + DisplaceImages(old(buckets[..]), hole, idx)
    {
      ghost var s := buckets[..];
      i := hole;
      while i - idx >= H
        invariant idx <= i < buckets.Length
        invariant Displace(buckets[..], i, idx) == Displace(s, hole, idx)
        invariant seen + DisplaceImages(buckets[..], i, idx) == old(seen) + DisplaceImages(s, hole, idx)
      {
        ghost var now, before := buckets[..], seen;
        var j := SearchMove(i);
        if j >= H {
          return i, false;
        }
        DisplaceStep(now, i, idx);
        DisplaceRound(now, i, idx, before);
        i := MoveInto(i, j);
      }
      return i, true;
    }

    /** Insert runs the specification write by write: the final array, the answer and every image between. */
    method Insert(key: int, data: int) returns (r: int)
      requires Homed(key, buckets.Length)
      modifies this`seen, buckets
      ensures (buckets[..], r) == HopscotchModel.Insert(old(buckets[..]), key, data)
      ensures seen == old(seen) + InsertImages(old(buckets[..]), key, data)
    {
      ghost var s := buckets[..];
      var sz := buckets.Length;
      var idx: nat := Home(key, sz);
      var i := idx;
      while i < sz
        invariant idx <= i <= sz && buckets[..] == s && seen == old(seen)
        invariant Probe(s, i) == Probe(s, idx)
      {
        if EMPTY == buckets[i].key {
          ghost var moved := DisplaceImages(s, i, idx);
          var x, ok := MakeRoom(i, idx);
          if !ok {
            return -1;
          }
          ghost var room := buckets[..];
          PublishAt(x, idx, key, data);
          assert seen == old(seen) + (moved + PublishImages(room, x, idx, key, data));
          return 0;
        }
        i := i + 1;
      }
      return -1;
    }
  }

  /** A server that inserts a new key into a quiet table never hides a stored key from the readers. */
  method InsertUnderReaders(t: Table, key: int, data: int) returns (r: int)
    requires Quiet(t.buckets[..]) && Homed(key, t.buckets.Length) && !Stored(t.buckets[..], key)
    modifies t`seen, t.buckets
    ensures old(t.seen) <= t.seen
    ensures forall k | |old(t.seen)| <= k < |t.seen| :: Visible(old(Contents(t.buckets[..])), t.seen[k])
    ensures r == 0 ==> Quiet(t.buckets[..])
  {
    ghost var s := t.buckets[..];
    InsertVisible(s, key, data);
    InsertRefines(s, key, data);
    if HopscotchModel.Insert(s, key, data).1 == 0 {
      InsertQuiet(s, key, data);
    }
    r := t.Insert(key, data);
    forall k | |old(t.seen)| <= k < |t.seen| ensures Visible(Contents(s), t.seen[k]) {
      assert t.seen[k] in InsertImages(s, key, data);
    }
  }
}
