/** Every operation of HydraDB's table keeps its invariant, and over any run the table behaves as a map from
    keys to their latest values. */
module HydraRefinement {
  import opened HydraModel
  import opened Options

  // ---------------------------------------------------------------- publication

  /** Publication of a new item through a slot that is not in use. */
  lemma PublishPoints(s: Store, b: nat, i: nat, key: int, value: string, size: nat, c: nat, j: nat, a: nat)
    requires Shape(s) && b < |s.table| && i < SLOTS && HasRoom(s)
    ensures var t := Publish(s, b, i, key, value, size);
            Points(t, c, j, a) <==> if c == b && j == i then a == s.next else Points(s, c, j, a)
  {
  }

  lemma PublishShape(s: Store, b: nat, i: nat, key: int, value: string, size: nat)
    requires Shape(s) && b < |s.table| && i < SLOTS && HasRoom(s)
    ensures Shape(Publish(s, b, i, key, value, size))
  {
  }

  lemma PointsBelow(s: Store, b: nat, i: nat, a: nat)
    requires Shape(s) && Points(s, b, i, a)
    ensures a < s.next && i < SLOTS
  {
  }

  lemma PublishUnshared(s: Store, b: nat, i: nat, key: int, value: string, size: nat)
    requires Inv(s) && b < |s.table| && i < SLOTS && HasRoom(s)
    ensures Unshared(Publish(s, b, i, key, value, size))
  {
    var t := Publish(s, b, i, key, value, size);
    forall c: nat, j: nat, c': nat, j': nat, a: nat | Points(t, c, j, a) && Points(t, c', j', a)
      ensures c == c' && j == j'
    {
      PublishPoints(s, b, i, key, value, size, c, j, a);
      PublishPoints(s, b, i, key, value, size, c', j', a);
      if Points(s, c, j, a) { PointsBelow(s, c, j, a); }
      if Points(s, c', j', a) { PointsBelow(s, c', j', a); }
    }
  }

  lemma PublishNullsLast(s: Store, b: nat, i: nat, key: int, value: string, size: nat)
    requires Inv(s) && b < |s.table| && i < SLOTS && HasRoom(s)
    requires forall j | 0 <= j < i :: s.table[b][j].busy
    ensures Shape(Publish(s, b, i, key, value, size)) && NullsLast(Publish(s, b, i, key, value, size))
  {
  }

  lemma PublishTruthful(s: Store, b: nat, i: nat, key: int, value: string, size: nat)
    requires Inv(s) && Homed(key, |s.table|) && b == Home(key, |s.table|) && i < SLOTS && HasRoom(s)
    ensures Truthful(Publish(s, b, i, key, value, size))
  {
    var t := Publish(s, b, i, key, value, size);
    forall c: nat, j: nat, a: nat | Points(t, c, j, a)
      ensures if t.table[c][j].busy then
                t.pool[a].flag == 0 && Homed(t.pool[a].key, |t.table|) && Home(t.pool[a].key, |t.table|) == c
              else t.pool[a].key == 0
    {
      PublishPoints(s, b, i, key, value, size, c, j, a);
      if Points(s, c, j, a) { PointsBelow(s, c, j, a); }
    }
  }

  /** No slot in use holds the key. */
  ghost predicate Absent(s: Store, key: int)
  {
    forall b: nat, i: nat, a: nat | Live(s, b, i, a) :: s.pool[a].key != key
  }

  lemma PublishUnique(s: Store, b: nat, i: nat, key: int, value: string, size: nat)
    requires Inv(s) && b < |s.table| && i < SLOTS && HasRoom(s) && (key == 0 || Absent(s, key))
    ensures Unique(Publish(s, b, i, key, value, size))
  {
    var t := Publish(s, b, i, key, value, size);
    forall c: nat, j: nat, j': nat, a: nat, a': nat |
      Live(t, c, j, a) && Live(t, c, j', a') && t.pool[a].key == t.pool[a'].key != 0 ensures j == j'
    {
      PublishPoints(s, b, i, key, value, size, c, j, a);
      PublishPoints(s, b, i, key, value, size, c, j', a');
      if Points(s, c, j, a) { PointsBelow(s, c, j, a); }
      if Points(s, c, j', a') { PointsBelow(s, c, j', a'); }
      if !(c == b && j == i) { assert Live(s, c, j, a); }
      if !(c == b && j' == i) { assert Live(s, c, j', a'); }
    }
  }

  lemma PublishCovered(s: Store, b: nat, i: nat, key: int, value: string, size: nat)
    requires Inv(s) && b < |s.table| && i < SLOTS && HasRoom(s) && !s.table[b][i].busy
    ensures Covered(Publish(s, b, i, key, value, size))
  {
    var t := Publish(s, b, i, key, value, size);
    forall a: nat | a < t.next && t.pool[a].flag == 0 && t.pool[a].key != 0
      ensures exists c: nat, j: nat :: Live(t, c, j, a)
    {
      if a == s.next {
        assert Live(t, b, i, a);
      } else {
        var c: nat, j: nat :| Live(s, c, j, a);
        assert Live(t, c, j, a);
      }
    }
  }

  lemma PublishKeeps(s: Store, b: nat, i: nat, key: int, value: string, size: nat)
    requires Inv(s) && Homed(key, |s.table|) && b == Home(key, |s.table|) && HasRoom(s)
    requires i < SLOTS && !s.table[b][i].busy && forall j | 0 <= j < i :: s.table[b][j].busy
    requires key == 0 || Absent(s, key)
    ensures Inv(Publish(s, b, i, key, value, size))
  {
    PublishShape(s, b, i, key, value, size);
    PublishUnshared(s, b, i, key, value, size);
    PublishNullsLast(s, b, i, key, value, size);
    PublishTruthful(s, b, i, key, value, size);
    PublishUnique(s, b, i, key, value, size);
    PublishCovered(s, b, i, key, value, size);
  }

  // ---------------------------------------------------------------- supersession

  lemma SupersedePoints(s: Store, b: nat, i: nat, a: nat, key: int, value: string, size: nat, c: nat, j: nat, x: nat)
    requires Shape(s) && b < |s.table| && i < SLOTS && HasRoom(s) && a < s.next
    ensures var t := Supersede(s, b, i, a, key, value, size);
            Points(t, c, j, x) <==> if c == b && j == i then x == s.next else Points(s, c, j, x)
  {
  }

  /** What an item other than `a` and the new one is to a slot does not change. */
  lemma SupersedeItem(s: Store, b: nat, i: nat, a: nat, key: int, value: string, size: nat, c: nat, j: nat, x: nat)
    requires Inv(s) && Points(s, b, i, a) && HasRoom(s)
    requires Points(Supersede(s, b, i, a, key, value, size), c, j, x) && !(c == b && j == i)
    ensures Points(s, c, j, x) && x != a && x < s.next
    ensures Supersede(s, b, i, a, key, value, size).pool[x] == s.pool[x]
    ensures Supersede(s, b, i, a, key, value, size).table[c][j] == s.table[c][j]
  {
    PointsBelow(s, b, i, a);
    SupersedePoints(s, b, i, a, key, value, size, c, j, x);
    PointsBelow(s, c, j, x);
  }

  lemma SupersedeShape(s: Store, b: nat, i: nat, a: nat, key: int, value: string, size: nat)
    requires Inv(s) && Points(s, b, i, a) && HasRoom(s)
    ensures Shape(Supersede(s, b, i, a, key, value, size)) && NullsLast(Supersede(s, b, i, a, key, value, size))
    ensures Unmarked(Supersede(s, b, i, a, key, value, size))
  {
    PointsBelow(s, b, i, a);
  }

  lemma SupersedeUnshared(s: Store, b: nat, i: nat, a: nat, key: int, value: string, size: nat)
    requires Inv(s) && Points(s, b, i, a) && HasRoom(s)
    ensures Unshared(Supersede(s, b, i, a, key, value, size))
  {
    var t := Supersede(s, b, i, a, key, value, size);
    PointsBelow(s, b, i, a);
    forall c: nat, j: nat, c': nat, j': nat, x: nat | Points(t, c, j, x) && Points(t, c', j', x)
      ensures c == c' && j == j'
    {
      SupersedePoints(s, b, i, a, key, value, size, c, j, x);
      SupersedePoints(s, b, i, a, key, value, size, c', j', x);
      if Points(s, c, j, x) { PointsBelow(s, c, j, x); }
      if Points(s, c', j', x) { PointsBelow(s, c', j', x); }
    }
  }

  lemma SupersedeTruthful(s: Store, b: nat, i: nat, a: nat, key: int, value: string, size: nat)
    requires Inv(s) && Points(s, b, i, a) && s.pool[a].key == key && HasRoom(s)
    ensures Truthful(Supersede(s, b, i, a, key, value, size))
  {
    var t := Supersede(s, b, i, a, key, value, size);
    PointsBelow(s, b, i, a);
    forall c: nat, j: nat, x: nat | Points(t, c, j, x)
      ensures if t.table[c][j].busy then
                t.pool[x].flag == 0 && Homed(t.pool[x].key, |t.table|) && Home(t.pool[x].key, |t.table|) == c
              else t.pool[x].key == 0
    {
      SupersedePoints(s, b, i, a, key, value, size, c, j, x);
      if !(c == b && j == i) { SupersedeItem(s, b, i, a, key, value, size, c, j, x); }
    }
  }

  lemma SupersedeUnique(s: Store, b: nat, i: nat, a: nat, key: int, value: string, size: nat)
    requires Inv(s) && Points(s, b, i, a) && s.pool[a].key == key && HasRoom(s)
    ensures Unique(Supersede(s, b, i, a, key, value, size))
  {
    var t := Supersede(s, b, i, a, key, value, size);
    PointsBelow(s, b, i, a);
    forall c: nat, j: nat, j': nat, x: nat, x': nat |
      Live(t, c, j, x) && Live(t, c, j', x') && t.pool[x].key == t.pool[x'].key != 0 ensures j == j'
    {
      SupersedePoints(s, b, i, a, key, value, size, c, j, x);
      SupersedePoints(s, b, i, a, key, value, size, c, j', x');
      if c == b && j == i {
        assert Live(s, b, i, a);
      } else {
        SupersedeItem(s, b, i, a, key, value, size, c, j, x);
        assert Live(s, c, j, x);
      }
      if c == b && j' == i {
        assert Live(s, b, i, a);
      } else {
        SupersedeItem(s, b, i, a, key, value, size, c, j', x');
        assert Live(s, c, j', x');
      }
    }
  }

  lemma SupersedeCovered(s: Store, b: nat, i: nat, a: nat, key: int, value: string, size: nat)
    requires Inv(s) && Points(s, b, i, a) && s.pool[a].key == key && HasRoom(s) && (key != 0 ==> s.table[b][i].busy)
    ensures Covered(Supersede(s, b, i, a, key, value, size))
  {
    var t := Supersede(s, b, i, a, key, value, size);
    PointsBelow(s, b, i, a);
    forall x: nat | x < t.next && t.pool[x].flag == 0 && t.pool[x].key != 0
      ensures exists c: nat, j: nat :: Live(t, c, j, x)
    {
      if x == s.next {
        assert Live(t, b, i, x);
      } else {
        assert x != a;
        var c: nat, j: nat :| Live(s, c, j, x);
        assert Live(t, c, j, x);
      }
    }
  }

  lemma SupersedeKeeps(s: Store, b: nat, i: nat, a: nat, key: int, value: string, size: nat)
    requires Inv(s) && Points(s, b, i, a) && s.pool[a].key == key && HasRoom(s)
    ensures Inv(Supersede(s, b, i, a, key, value, size))
  {
    SupersedeShape(s, b, i, a, key, value, size);
    SupersedeUnshared(s, b, i, a, key, value, size);
    SupersedeTruthful(s, b, i, a, key, value, size);
    SupersedeUnique(s, b, i, a, key, value, size);
    SupersedeCovered(s, b, i, a, key, value, size);
  }

  // ---------------------------------------------------------------- release

  lemma FreePoints(s: Store, b: nat, i: nat, a: nat, c: nat, j: nat, x: nat)
    requires Points(s, b, i, a)
    ensures Points(Free(s, b, i, a), c, j, x) <==> Points(s, c, j, x)
  {
  }

  lemma FreeUnshared(s: Store, b: nat, i: nat, a: nat)
    requires Inv(s) && Points(s, b, i, a)
    ensures Shape(Free(s, b, i, a)) && NullsLast(Free(s, b, i, a)) && Unmarked(Free(s, b, i, a))
    ensures Unshared(Free(s, b, i, a))
  {
    var t := Free(s, b, i, a);
    forall c: nat, j: nat, c': nat, j': nat, x: nat | Points(t, c, j, x) && Points(t, c', j', x)
      ensures c == c' && j == j'
    {
      FreePoints(s, b, i, a, c, j, x);
      FreePoints(s, b, i, a, c', j', x);
    }
  }

  lemma FreeItem(s: Store, b: nat, i: nat, a: nat, c: nat, j: nat, x: nat)
    requires Inv(s) && Points(s, b, i, a) && Points(s, c, j, x) && !(c == b && j == i)
    ensures x != a && Free(s, b, i, a).pool[x] == s.pool[x] && Free(s, b, i, a).table[c][j] == s.table[c][j]
  {
  }

  lemma FreeTruthful(s: Store, b: nat, i: nat, a: nat)
    requires Inv(s) && Points(s, b, i, a)
    ensures Truthful(Free(s, b, i, a))
  {
    var t := Free(s, b, i, a);
    forall c: nat, j: nat, x: nat | Points(t, c, j, x)
      ensures if t.table[c][j].busy then
                t.pool[x].flag == 0 && Homed(t.pool[x].key, |t.table|) && Home(t.pool[x].key, |t.table|) == c
              else t.pool[x].key == 0
    {
      FreePoints(s, b, i, a, c, j, x);
      if !(c == b && j == i) { FreeItem(s, b, i, a, c, j, x); }
    }
  }

  lemma FreeLive(s: Store, b: nat, i: nat, a: nat, c: nat, j: nat, x: nat)
    requires Inv(s) && Points(s, b, i, a)
    ensures Live(Free(s, b, i, a), c, j, x) <==> Live(s, c, j, x) && !(c == b && j == i)
    ensures Live(s, c, j, x) && !(c == b && j == i) ==> Free(s, b, i, a).pool[x] == s.pool[x]
  {
    FreePoints(s, b, i, a, c, j, x);
    if Points(s, c, j, x) && !(c == b && j == i) { FreeItem(s, b, i, a, c, j, x); }
  }

  lemma FreeKeeps(s: Store, b: nat, i: nat, a: nat)
    requires Inv(s) && Points(s, b, i, a)
    ensures Inv(Free(s, b, i, a))
  {
    var t := Free(s, b, i, a);
    FreeUnshared(s, b, i, a);
    FreeTruthful(s, b, i, a);
    forall c: nat, j: nat, j': nat, x: nat, x': nat |
      Live(t, c, j, x) && Live(t, c, j', x') && t.pool[x].key == t.pool[x'].key != 0 ensures j == j'
    {
      FreeLive(s, b, i, a, c, j, x);
      FreeLive(s, b, i, a, c, j', x');
    }
    forall x: nat | x < t.next && t.pool[x].flag == 0 && t.pool[x].key != 0
      ensures exists c: nat, j: nat :: Live(t, c, j, x)
    {
      var c: nat, j: nat :| Live(s, c, j, x);
      FreeLive(s, b, i, a, c, j, x);
      assert Live(t, c, j, x);
    }
  }

  // ---------------------------------------------------------------- contents

  /** What a search hands out: the item's value, and what the slot says about its size and its lease. */
  datatype Entry = Entry(value: string, size: nat, lease: nat)

  /** What slot `i` of bucket `b` and item `a` say. */
  function EntryAt(s: Store, b: nat, i: nat, a: nat): Entry
    requires b < |s.table| && i < |s.table[b]| && a < |s.pool|
  {
    Entry(s.pool[a].value, s.table[b][i].size, s.table[b][i].lease)
  }

  function Get(s: Store, key: int): Option<Entry>
    requires Shape(s) && Homed(key, |s.table|)
  {
    var f := Search(s, key);
    if f.Found? then Some(EntryAt(s, Home(key, |s.table|), f.slot, f.addr)) else None
  }

  /** What is stored for a value of `size` bytes: sizes have eight bits, and every lease is the first one. */
  function Stored(value: string, size: nat): Entry
  {
    Entry(value, size % 256, 1)
  }

  lemma GetLive(s: Store, key: int, i: nat, a: nat)
    requires Inv(s) && Homed(key, |s.table|) && key != 0
    requires Live(s, Home(key, |s.table|), i, a) && s.pool[a].key == key
    ensures Search(s, key).Found? && Get(s, key) == Some(EntryAt(s, Home(key, |s.table|), i, a))
  {
    FoundIffLive(s, key, i, a);
  }

  lemma GetAbsent(s: Store, key: int)
    requires Inv(s) && Homed(key, |s.table|) && key != 0
    ensures Get(s, key) == None <==> Absent(s, key)
    ensures Get(s, key).Some? ==> Live(s, Home(key, |s.table|), Search(s, key).slot, Search(s, key).addr)
    ensures Get(s, key).Some? ==> s.pool[Search(s, key).addr].key == key
  {
    var f := Search(s, key);
    if f.Found? {
      FoundIffLive(s, key, f.slot, f.addr);
    } else {
      forall b: nat, i: nat, a: nat | Live(s, b, i, a) ensures s.pool[a].key != key {
        FoundIffLive(s, key, i, a);
      }
    }
  }

  /** The table stands for the map `m`; what it says about key 0 is left open. */
  ghost predicate Agrees(s: Store, m: map<int, Entry>)
    requires Shape(s)
  {
    forall k: int | Homed(k, |s.table|) && k != 0 :: Get(s, k) == if k in m then Some(m[k]) else None
  }

  lemma PublishGet(s: Store, b: nat, i: nat, key: int, value: string, size: nat, k: int)
    requires Inv(s) && Homed(key, |s.table|) && b == Home(key, |s.table|) && HasRoom(s)
    requires i < SLOTS && !s.table[b][i].busy && Inv(Publish(s, b, i, key, value, size))
    requires Homed(k, |s.table|) && k != 0
    ensures Get(Publish(s, b, i, key, value, size), k) == if k == key then Some(Stored(value, size)) else Get(s, k)
  {
    var t := Publish(s, b, i, key, value, size);
    GetAbsent(s, k);
    if k == key {
      GetLive(t, k, i, s.next);
    } else if Get(s, k).Some? {
      var f := Search(s, k);
      PointsBelow(s, Home(k, |s.table|), f.slot, f.addr);
      GetLive(t, k, f.slot, f.addr);
    } else {
      forall c: nat, j: nat, a: nat | Live(t, c, j, a) ensures t.pool[a].key != k {
        PublishPoints(s, b, i, key, value, size, c, j, a);
        if !(c == b && j == i) {
          PointsBelow(s, c, j, a);
          assert Live(s, c, j, a);
        }
      }
      GetAbsent(t, k);
    }
  }

  lemma SupersedeGet(s: Store, b: nat, i: nat, a: nat, key: int, value: string, size: nat, k: int)
    requires Inv(s) && Points(s, b, i, a) && s.pool[a].key == key && HasRoom(s) && (key != 0 ==> s.table[b][i].busy)
    requires Homed(k, |s.table|) && k != 0
    ensures a < s.next && Shape(Supersede(s, b, i, a, key, value, size))
    ensures Get(Supersede(s, b, i, a, key, value, size), k) == if k == key then Some(Stored(value, size)) else Get(s, k)
  {
    PointsBelow(s, b, i, a);
    SupersedeKeeps(s, b, i, a, key, value, size);
    var t := Supersede(s, b, i, a, key, value, size);
    GetAbsent(s, k);
    if k == key {
      assert Live(s, b, i, a);
      GetLive(t, k, i, s.next);
    } else if Get(s, k).Some? {
      var f := Search(s, k);
      PointsBelow(s, Home(k, |s.table|), f.slot, f.addr);
      GetLive(t, k, f.slot, f.addr);
    } else {
      forall c: nat, j: nat, x: nat | Live(t, c, j, x) ensures t.pool[x].key != k {
        SupersedePoints(s, b, i, a, key, value, size, c, j, x);
        if !(c == b && j == i) {
          SupersedeItem(s, b, i, a, key, value, size, c, j, x);
          assert Live(s, c, j, x);
        }
      }
      GetAbsent(t, k);
    }
  }

  lemma FreeGet(s: Store, b: nat, i: nat, a: nat, k: int)
    requires Inv(s) && Points(s, b, i, a) && Homed(k, |s.table|) && k != 0 && k != s.pool[a].key
    ensures Shape(Free(s, b, i, a)) && Get(Free(s, b, i, a), k) == Get(s, k)
  {
    FreeKeeps(s, b, i, a);
    var t := Free(s, b, i, a);
    GetAbsent(s, k);
    if Get(s, k).Some? {
      var f := Search(s, k);
      FreeLive(s, b, i, a, Home(k, |s.table|), f.slot, f.addr);
      GetLive(t, k, f.slot, f.addr);
    } else {
      forall c: nat, j: nat, x: nat | Live(t, c, j, x) ensures t.pool[x].key != k {
        FreeLive(s, b, i, a, c, j, x);
      }
      GetAbsent(t, k);
    }
  }

  /** The deletion loop keeps the invariant ... */
  lemma {:induction false} DeleteFromInv(s: Store, b: nat, key: int, i: nat)
    requires Inv(s) && b < |s.table| && i <= SLOTS
    ensures Inv(DeleteFrom(s, b, key, i))
    decreases SLOTS - i
  {
    if i < SLOTS {
      if Matches(s, b, i, key) {
        var a := s.table[b][i].addr.index;
        FreeKeeps(s, b, i, a);
        DeleteFromInv(Free(s, b, i, a), b, key, i + 1);
      } else {
        DeleteFromInv(s, b, key, i + 1);
      }
    }
  }

  /** ... and every other key. */
  lemma {:induction false} DeleteFromKeeps(s: Store, b: nat, key: int, i: nat, k: int)
    requires Inv(s) && b < |s.table| && i <= SLOTS && Homed(k, |s.table|) && k != 0 && k != key
    ensures Get(DeleteFrom(s, b, key, i), k) == Get(s, k)
    decreases SLOTS - i
  {
    if i == SLOTS {
    } else if Matches(s, b, i, key) {
      DeleteStepKeeps(s, b, i, s.table[b][i].addr.index, k);
      DeleteFromKeeps(Free(s, b, i, s.table[b][i].addr.index), b, key, i + 1, k);
    } else {
      DeleteFromKeeps(s, b, key, i + 1, k);
    }
  }

  lemma DeleteStepKeeps(s: Store, b: nat, i: nat, a: nat, k: int)
    requires Inv(s) && Points(s, b, i, a) && Homed(k, |s.table|) && k != 0 && k != s.pool[a].key
    ensures Inv(Free(s, b, i, a)) && Get(Free(s, b, i, a), k) == Get(s, k)
  {
    FreeKeeps(s, b, i, a);
    FreeGet(s, b, i, a, k);
  }

  /** After the loop no slot in use from `i` on holds the key, and none that did not hold it before does. */
  lemma {:induction false} DeleteFromClears(s: Store, b: nat, key: int, i: nat, c: nat, j: nat, a: nat)
    requires Inv(s) && b < |s.table| && i <= SLOTS && Live(DeleteFrom(s, b, key, i), c, j, a)
    ensures Inv(DeleteFrom(s, b, key, i)) && Live(s, c, j, a)
    ensures DeleteFrom(s, b, key, i).pool[a].key == key ==> s.pool[a].key == key && !(c == b && i <= j)
    decreases SLOTS - i
  {
    if i < SLOTS {
      if Matches(s, b, i, key) {
        var x := s.table[b][i].addr.index;
        FreeKeeps(s, b, i, x);
        DeleteFromClears(Free(s, b, i, x), b, key, i + 1, c, j, a);
        FreeLive(s, b, i, x, c, j, a);
      } else {
        DeleteFromClears(s, b, key, i + 1, c, j, a);
      }
    }
  }

  /** A deletion removes its key and no other. */
  lemma DeleteRefines(s: Store, key: int, k: int)
    requires Inv(s) && Homed(key, |s.table|) && Homed(k, |s.table|) && k != 0
    ensures Inv(Delete(s, key)) && Get(Delete(s, key), k) == if k == key then None else Get(s, k)
  {
    var b := Home(key, |s.table|);
    var t := Delete(s, key);
    DeleteFromInv(s, b, key, 0);
    if k != key {
      DeleteFromKeeps(s, b, key, 0, k);
    } else {
      forall c: nat, j: nat, a: nat | Live(t, c, j, a) ensures t.pool[a].key != k {
        DeleteFromClears(s, b, key, 0, c, j, a);
      }
      GetAbsent(t, k);
    }
  }

  /** An insertion of a key that is not stored adds it, unless all seven slots of its bucket are in use, when it
      reports -1 and changes nothing. */
  lemma InsertRefines(s: Store, key: int, value: string, size: nat, k: int)
    requires Inv(s) && Homed(key, |s.table|) && Homed(k, |s.table|) && k != 0
    requires HasRoom(s) || FreeSlot(s.table[Home(key, |s.table|)]) == SLOTS
    requires key == 0 || !Search(s, key).Found?
    ensures var (t, r) := Insert(s, key, value, size);
            && Inv(t) && Get(t, k) == (if r == 0 && k == key then Some(Stored(value, size)) else Get(s, k))
            && (r == 0 || (r == -1 && t == s))
            && (r == -1 <==> forall i | 0 <= i < SLOTS :: s.table[Home(key, |s.table|)][i].busy)
  {
    var b := Home(key, |s.table|);
    var i := FreeSlot(s.table[b]);
    if i < SLOTS {
      if key != 0 { GetAbsent(s, key); }
      PublishKeeps(s, b, i, key, value, size);
      PublishGet(s, b, i, key, value, size, k);
    }
  }

  lemma FoundPoints(s: Store, key: int)
    requires Inv(s) && Homed(key, |s.table|) && Search(s, key).Found?
    ensures var f, b := Search(s, key), Home(key, |s.table|);
            && Points(s, b, f.slot, f.addr) && s.pool[f.addr].key == key && (key != 0 ==> s.table[b][f.slot].busy)
  {
    if key != 0 { GetAbsent(s, key); }
  }

  /** An update of a stored key changes its value and nothing else. */
  lemma UpdateRefines(s: Store, key: int, value: string, size: nat, k: int)
    requires Inv(s) && Homed(key, |s.table|) && HasRoom(s) && Search(s, key).Found? && Homed(k, |s.table|) && k != 0
    ensures Inv(Update(s, key, value, size))
    ensures Get(Update(s, key, value, size), k) == if k == key then Some(Stored(value, size)) else Get(s, k)
  {
    var f := Search(s, key);
    FoundPoints(s, key);
    SupersedeKeeps(s, Home(key, |s.table|), f.slot, f.addr, key, value, size);
    SupersedeGet(s, Home(key, |s.table|), f.slot, f.addr, key, value, size, k);
  }

  // ---------------------------------------------------------------- whole runs

  datatype Op =
    | Insertion(key: int, value: string, size: nat)
    | Change(key: int, value: string, size: nat)
    | Query(key: int)
    | Deletion(key: int)

  datatype Reply = Status(r: int) | Changed | Answered(entry: Option<Entry>) | Deleted

  datatype Outcome = Running(store: Store, reply: Reply) | Crashed

  /** What the callers owe: a key with a bucket, no second insertion of a stored key other than 0, and a pool with
      an item left when one is taken. */
  predicate Allowed(s: Store, op: Op)
    requires Shape(s)
  {
    && Homed(op.key, |s.table|)
    && (op.Insertion? ==>
          && (op.key == 0 || !Search(s, op.key).Found?)
          && (HasRoom(s) || FreeSlot(s.table[Home(op.key, |s.table|)]) == SLOTS))
    && (op.Change? ==> HasRoom(s))
  }

  function Exec(s: Store, op: Op): Outcome
    requires Shape(s) && Allowed(s, op)
  {
    match op
    case Insertion(k, v, z) => var (t, r) := Insert(s, k, v, z); Running(t, Status(r))
    case Change(k, v, z) => if Search(s, k).Found? then Running(Update(s, k, v, z), Changed) else Crashed
    case Query(k) => if Search(s, k).NullRead? then Crashed else Running(s, Answered(Get(s, k)))
    case Deletion(k) => Running(Delete(s, k), Deleted)
  }

  /** What the operation does to a map from keys to values with their sizes and leases. */
  function Spec(m: map<int, Entry>, op: Op, reply: Reply): map<int, Entry>
  {
    match op
    case Insertion(k, v, z) => if reply == Status(0) then m[k := Stored(v, z)] else m
    case Change(k, v, z) => m[k := Stored(v, z)]
    case Query(_) => m
    case Deletion(k) => m - {k}
  }

  /** ... and what it may answer. */
  predicate Answers(m: map<int, Entry>, op: Op, reply: Reply)
  {
    op.Query? && op.key != 0 ==> reply == Answered(if op.key in m then Some(m[op.key]) else None)
  }

  lemma ExecInv(s: Store, op: Op)
    requires Inv(s) && Allowed(s, op) && Exec(s, op).Running?
    ensures Inv(Exec(s, op).store) && |Exec(s, op).store.table| == |s.table|
  {
    var n := |s.table|;
    match op {
      case Insertion(k, v, z) =>
        var b := Home(k, n);
        var i := FreeSlot(s.table[b]);
        if i < SLOTS {
          if k != 0 { GetAbsent(s, k); }
          PublishKeeps(s, b, i, k, v, z);
        }
      case Change(k, v, z) =>
        var f := Search(s, k);
        FoundPoints(s, k);
        SupersedeKeeps(s, Home(k, n), f.slot, f.addr, k, v, z);
      case Query(_) =>
      case Deletion(k) => DeleteFromInv(s, Home(k, n), k, 0);
    }
  }

  lemma ExecGet(s: Store, op: Op, k: int, m: map<int, Entry>)
    requires Inv(s) && Allowed(s, op) && Exec(s, op).Running? && Agrees(s, m) && Homed(k, |s.table|) && k != 0
    ensures Inv(Exec(s, op).store) && |Exec(s, op).store.table| == |s.table|
    ensures var t, m' := Exec(s, op).store, Spec(m, op, Exec(s, op).reply);
            Get(t, k) == if k in m' then Some(m'[k]) else None
  {
    ExecInv(s, op);
    match op {
      case Insertion(key, v, z) => InsertRefines(s, key, v, z, k);
      case Change(key, v, z) => UpdateRefines(s, key, v, z, k);
      case Query(_) =>
      case Deletion(key) => DeleteRefines(s, key, k);
    }
  }

  /** Every operation that does not crash keeps the invariant and acts on the map the table stands for. */
  lemma ExecRefines(s: Store, op: Op, m: map<int, Entry>)
    requires Inv(s) && Allowed(s, op) && Exec(s, op).Running? && Agrees(s, m)
    ensures Inv(Exec(s, op).store) && Agrees(Exec(s, op).store, Spec(m, op, Exec(s, op).reply))
    ensures Answers(m, op, Exec(s, op).reply)
  {
    ExecInv(s, op);
    forall k | Homed(k, |s.table|) && k != 0
      ensures var m' := Spec(m, op, Exec(s, op).reply);
              Get(Exec(s, op).store, k) == if k in m' then Some(m'[k]) else None
    {
      ExecGet(s, op, k, m);
    }
  }

  /** For keys other than 0, exactly two things crash: an update of a key that is not stored, and a search for one
      whose bucket still has a slot that was never used. */
  lemma CrashIff(s: Store, op: Op, m: map<int, Entry>)
    requires Inv(s) && Allowed(s, op) && Agrees(s, m) && op.key != 0
    ensures Exec(s, op).Crashed? <==>
            && op.key !in m
            && (op.Change? || (op.Query? && s.table[Home(op.key, |s.table|)][SLOTS - 1].addr.Null?))
  {
    NullReadIff(s, op.key);
    assert Get(s, op.key) == if op.key in m then Some(m[op.key]) else None;
  }

  datatype Ending = Ended(store: Store, replies: seq<Reply>) | Halted

  ghost predicate AllowedRun(s: Store, ops: seq<Op>)
    requires Inv(s)
    decreases |ops|
  {
    ops == [] ||
    (&& Allowed(s, ops[0])
     && (Exec(s, ops[0]).Running? ==> (ExecInv(s, ops[0]); AllowedRun(Exec(s, ops[0]).store, ops[1..]))))
  }

  ghost function Run(s: Store, ops: seq<Op>): Ending
    requires Inv(s) && AllowedRun(s, ops)
    decreases |ops|
  {
    if ops == [] then Ended(s, []) else
    var e := Exec(s, ops[0]);
    if e.Crashed? then Halted else
    ExecInv(s, ops[0]);
    var rest := Run(e.store, ops[1..]);
    if rest.Halted? then Halted else Ended(rest.store, [e.reply] + rest.replies)
  }

  function SpecRun(m: map<int, Entry>, ops: seq<Op>, replies: seq<Reply>): map<int, Entry>
    requires |ops| == |replies|
    decreases |ops|
  {
    if ops == [] then m else SpecRun(Spec(m, ops[0], replies[0]), ops[1..], replies[1..])
  }

  predicate AnswersRun(m: map<int, Entry>, ops: seq<Op>, replies: seq<Reply>)
    decreases |ops|
  {
    |ops| == |replies| &&
    (ops == [] || (Answers(m, ops[0], replies[0]) && AnswersRun(Spec(m, ops[0], replies[0]), ops[1..], replies[1..])))
  }

  /** Over every run each search answers with the latest value of its key, and the table ends as the map does. */
  lemma {:induction false} RunRefines(s: Store, ops: seq<Op>, m: map<int, Entry>)
    requires Inv(s) && AllowedRun(s, ops) && Agrees(s, m) && Run(s, ops).Ended?
    ensures var e := Run(s, ops);
            && AnswersRun(m, ops, e.replies) && Inv(e.store) && Agrees(e.store, SpecRun(m, ops, e.replies))
    decreases |ops|
  {
    if ops != [] {
      var e := Exec(s, ops[0]);
      ExecRefines(s, ops[0], m);
      RunRefines(e.store, ops[1..], Spec(m, ops[0], e.reply));
      assert Run(s, ops).replies[1..] == Run(e.store, ops[1..]).replies;
    }
  }

  /** A created table keeps the invariant and stands for the empty map, if the pool is unmarked. */
  lemma BlankAgrees(s: Store)
    requires Blank(s) && Unmarked(s)
    ensures Inv(s) && Agrees(s, map[])
  {
    forall k | Homed(k, |s.table|) && k != 0 ensures Get(s, k) == None {
      assert Scan(s, Home(k, |s.table|), k) == 0;
    }
  }

  // ---------------------------------------------------------------- key 0

  /** Key 0 is found as soon as its bucket has a slot, used or freed, whose item says 0. */
  lemma ZeroFound(s: Store, i: nat, a: nat)
    requires Inv(s) && Points(s, 0, i, a) && s.pool[a].key == 0
    ensures Homed(0, |s.table|) && Home(0, |s.table|) == 0 && Search(s, 0).Found?
  {
    PointsBelow(s, 0, i, a);
    var r := Scan(s, 0, 0);
    assert r <= i;
    assert s.table[0][r].addr.At?;
  }

  /** The deletion loop never unhooks an item and never restores a key. */
  lemma {:induction false} DeleteFromPoints(s: Store, b: nat, key: int, i: nat, c: nat, j: nat, a: nat)
    requires Inv(s) && b < |s.table| && i <= SLOTS && Points(s, c, j, a)
    ensures Points(DeleteFrom(s, b, key, i), c, j, a)
    ensures s.pool[a].key == 0 ==> DeleteFrom(s, b, key, i).pool[a].key == 0
    ensures s.pool[a].key == key && c == b && i <= j ==> DeleteFrom(s, b, key, i).pool[a].key == 0
    decreases SLOTS - i
  {
    PointsBelow(s, c, j, a);
    if i < SLOTS {
      if Matches(s, b, i, key) {
        var x := s.table[b][i].addr.index;
        FreeKeeps(s, b, i, x);
        FreePoints(s, b, i, x, c, j, a);
        DeleteFromPoints(Free(s, b, i, x), b, key, i + 1, c, j, a);
      } else {
        DeleteFromPoints(s, b, key, i + 1, c, j, a);
      }
    }
  }

  /** A deleted key is no longer found exactly when it is not 0: a deletion wipes keys out with 0, so it leaves
      key 0 to be found with its old value. */
  lemma DeletedStillFound(s: Store, key: int)
    requires Inv(s) && Homed(key, |s.table|) && Search(s, key).Found?
    ensures Search(Delete(s, key), key).Found? <==> key == 0
  {
    var f, b := Search(s, key), Home(key, |s.table|);
    FoundPoints(s, key);
    DeleteFromInv(s, b, key, 0);
    if key == 0 {
      DeleteFromPoints(s, b, key, 0, b, f.slot, f.addr);
      ZeroFound(Delete(s, key), f.slot, f.addr);
    } else {
      DeleteRefines(s, key, key);
    }
  }

  /** Deleting any key that shares the bucket of key 0 makes key 0 appear, stored or not. */
  lemma DeletionCreatesZero(s: Store, key: int)
    requires Inv(s) && Homed(key, |s.table|) && Home(key, |s.table|) == 0 && Search(s, key).Found?
    ensures Homed(0, |s.table|) && Search(Delete(s, key), 0).Found?
  {
    var f := Search(s, key);
    FoundPoints(s, key);
    DeleteFromInv(s, 0, key, 0);
    DeleteFromPoints(s, 0, key, 0, 0, f.slot, f.addr);
    ZeroFound(Delete(s, key), f.slot, f.addr);
  }
}
