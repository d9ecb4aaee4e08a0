/** HydraDB's out-of-place hash table as a value: buckets of seven slots that point into a pool of items
    handed out one after the other.  An update never overwrites an item; it marks it as superseded and points
    the slot to a new one, so that clients may keep item addresses.  The class in HydraTable.dfy does the same
    in place and is proved equal to these functions. */
module HydraModel {
  import opened CRemainder

  const SLOTS := 7
  const DEFAULT_LEASE := 1

  datatype Address = Null | At(index: nat)

  /** An item of the pool; `flag` is 1 once the item has been superseded. */
  datatype Item = Item(key: int, flag: nat, value: string)

  datatype Slot = Slot(addr: Address, busy: bool, size: nat, lease: nat)

  /** The buckets, the pool, and the index of the next unused item of the pool. */
  datatype Store = Store(table: seq<seq<Slot>>, pool: seq<Item>, next: nat)

  /** Only keys with a non-negative remainder have a bucket. */
  predicate Homed(key: int, n: nat)
  {
    n > 0 && 0 <= Rem(key, n)
  }

  function Home(key: int, n: nat): (h: nat)
    requires Homed(key, n)
    ensures h < n
  {
    Rem(key, n)
  }

  // ---------------------------------------------------------------- the invariant

  predicate Shape(s: Store)
  {
    && |s.table| > 0 && s.next <= |s.pool|
    && (forall b | 0 <= b < |s.table| :: |s.table[b]| == SLOTS)
    && (forall b, i | 0 <= b < |s.table| && 0 <= i < SLOTS ::
           s.table[b][i].addr.At? ==> s.table[b][i].addr.index < s.next)
  }

  /** Slot `i` of bucket `b` points to item `a`. */
  predicate Points(s: Store, b: nat, i: nat, a: nat)
  {
    b < |s.table| && i < |s.table[b]| && s.table[b][i].addr == At(a) && a < |s.pool|
  }

  /** ... and is in use. */
  predicate Live(s: Store, b: nat, i: nat, a: nat)
  {
    Points(s, b, i, a) && s.table[b][i].busy
  }

  /** No two slots share an item. */
  ghost predicate Unshared(s: Store)
  {
    forall b: nat, i: nat, c: nat, j: nat, a: nat | Points(s, b, i, a) && Points(s, c, j, a) :: b == c && i == j
  }

  /** The slots that were never used come after all others, and are not busy. */
  predicate NullsLast(s: Store)
    requires Shape(s)
  {
    && (forall b, i, j | 0 <= b < |s.table| && 0 <= i < j < SLOTS :: s.table[b][j].addr.At? ==> s.table[b][i].addr.At?)
    && (forall b, i | 0 <= b < |s.table| && 0 <= i < SLOTS :: s.table[b][i].busy ==> s.table[b][i].addr.At?)
  }

  /** What a slot says about its item: in use, it holds the current value of a key of its bucket; freed, the key
      has been wiped out. */
  ghost predicate Truthful(s: Store)
  {
    forall b: nat, i: nat, a: nat | Points(s, b, i, a) ::
      if s.table[b][i].busy then
        s.pool[a].flag == 0 && Homed(s.pool[a].key, |s.table|) && Home(s.pool[a].key, |s.table|) == b
      else s.pool[a].key == 0
  }

  /** No key but 0 is stored twice. */
  ghost predicate Unique(s: Store)
  {
    forall b: nat, i: nat, j: nat, a: nat, c: nat |
      Live(s, b, i, a) && Live(s, b, j, c) && s.pool[a].key == s.pool[c].key != 0 :: i == j
  }

  /** Item `a` looks current to somebody who knows its address and reads nothing else. */
  predicate Current(s: Store, a: nat, key: int)
  {
    a < |s.pool| && s.pool[a].flag == 0 && s.pool[a].key == key
  }

  /** Every item that looks current is in use. */
  ghost predicate Covered(s: Store)
  {
    forall a: nat | a < s.next && a < |s.pool| && s.pool[a].flag == 0 && s.pool[a].key != 0 ::
      exists b: nat, i: nat :: Live(s, b, i, a)
  }

  /** The rest of the pool is unmarked. */
  predicate Unmarked(s: Store)
  {
    forall a | s.next <= a < |s.pool| :: s.pool[a].flag == 0
  }

  ghost predicate Inv(s: Store)
  {
    Shape(s) && Unshared(s) && NullsLast(s) && Truthful(s) && Unique(s) && Covered(s) && Unmarked(s)
  }

  // ---------------------------------------------------------------- search

  /** The first slot from `i` on with a null address or an item of that key; SLOTS when there is none. */
  function Scan(s: Store, b: nat, key: int, i: nat := 0): (r: nat)
    requires Shape(s) && b < |s.table| && i <= SLOTS
    ensures i <= r <= SLOTS
    ensures r < SLOTS && s.table[b][r].addr.At? ==> s.pool[s.table[b][r].addr.index].key == key
    ensures forall j | i <= j < r :: s.table[b][j].addr.At? && s.pool[s.table[b][j].addr.index].key != key
    decreases SLOTS - i
  {
    if i == SLOTS || s.table[b][i].addr.Null? || s.pool[s.table[b][i].addr.index].key == key then i
    else Scan(s, b, key, i + 1)
  }

  /** The C code reads the key through a slot's address without looking whether it is null. */
  datatype Answer = Found(slot: nat, addr: nat) | Missing | NullRead

  function Search(s: Store, key: int): Answer
    requires Shape(s) && Homed(key, |s.table|)
  {
    var b := Home(key, |s.table|);
    var i := Scan(s, b, key);
    if i == SLOTS then Missing
    else if s.table[b][i].addr.Null? then NullRead
    else Found(i, s.table[b][i].addr.index)
  }

  // ---------------------------------------------------------------- insert, update, delete

  function SetSlot(s: Store, b: nat, i: nat, x: Slot): Store
    requires b < |s.table| && i < |s.table[b]|
  {
    s.(table := s.table[b := s.table[b][i := x]])
  }

  function SetItem(s: Store, a: nat, x: Item): Store
    requires a < |s.pool|
  {
    s.(pool := s.pool[a := x])
  }

  /** find_free_slot, with SLOTS for -1. */
  function FreeSlot(bucket: seq<Slot>, i: nat := 0): (r: nat)
    requires |bucket| == SLOTS && i <= SLOTS
    ensures i <= r <= SLOTS
    ensures r < SLOTS ==> !bucket[r].busy
    ensures forall j | i <= j < r :: bucket[j].busy
    decreases SLOTS - i
  {
    if i == SLOTS || !bucket[i].busy then i else FreeSlot(bucket, i + 1)
  }

  /** The slot's size field has eight bits. */
  function Byte(size: nat): nat
  {
    size % 256
  }

  predicate HasRoom(s: Store)
  {
    s.next < |s.pool|
  }

  /** A new item at the end of the used pool, in slot `i` of bucket `b`. */
  function Publish(s: Store, b: nat, i: nat, key: int, value: string, size: nat): Store
    requires b < |s.table| && i < |s.table[b]| && HasRoom(s)
  {
    Store(s.table[b := s.table[b][i := Slot(At(s.next), true, Byte(size), DEFAULT_LEASE)]],
          s.pool[s.next := Item(key, 0, value)], s.next + 1)
  }

  function Insert(s: Store, key: int, value: string, size: nat): (Store, int)
    requires Shape(s) && Homed(key, |s.table|)
    requires HasRoom(s) || FreeSlot(s.table[Home(key, |s.table|)]) == SLOTS
  {
    var b := Home(key, |s.table|);
    var i := FreeSlot(s.table[b]);
    if i == SLOTS then (s, -1) else (Publish(s, b, i, key, value, size), 0)
  }

  /** Item `a` is superseded by a new one, to which slot `i` of bucket `b` now points.  The flag of the new item
      is left as it was. */
  function Supersede(s: Store, b: nat, i: nat, a: nat, key: int, value: string, size: nat): Store
    requires b < |s.table| && i < |s.table[b]| && a < s.next && HasRoom(s)
  {
    Store(s.table[b := s.table[b][i := Slot(At(s.next), s.table[b][i].busy, Byte(size), DEFAULT_LEASE)]],
          s.pool[a := s.pool[a].(flag := 1)][s.next := Item(key, s.pool[s.next].flag, value)], s.next + 1)
  }

  /** update_hash_key dereferences the answer of the search unchecked, so it needs a found key. */
  function Update(s: Store, key: int, value: string, size: nat): Store
    requires Shape(s) && Homed(key, |s.table|) && HasRoom(s) && Search(s, key).Found?
  {
    var f := Search(s, key);
    Supersede(s, Home(key, |s.table|), f.slot, f.addr, key, value, size)
  }

  /** Slot `i` of bucket `b` is freed and its item wiped out. */
  function Free(s: Store, b: nat, i: nat, a: nat): Store
    requires b < |s.table| && i < |s.table[b]| && a < |s.pool|
  {
    s.(table := s.table[b := s.table[b][i := s.table[b][i].(busy := false)]], pool := s.pool[a := s.pool[a].(key := 0)])
  }

  predicate Matches(s: Store, b: nat, i: nat, key: int)
    requires Shape(s) && b < |s.table| && i < SLOTS
  {
    s.table[b][i].addr.At? && s.pool[s.table[b][i].addr.index].key == key
  }

  /** The rest of the deletion loop. */
  function DeleteFrom(s: Store, b: nat, key: int, i: nat): (t: Store)
    requires Shape(s) && b < |s.table| && i <= SLOTS
    ensures Shape(t) && |t.table| == |s.table| && |t.pool| == |s.pool| && t.next == s.next
    decreases SLOTS - i
  {
    if i == SLOTS then s
    else if Matches(s, b, i, key) then DeleteFrom(Free(s, b, i, s.table[b][i].addr.index), b, key, i + 1)
    else DeleteFrom(s, b, key, i + 1)
  }

  function Delete(s: Store, key: int): Store
    requires Shape(s) && Homed(key, |s.table|)
  {
    DeleteFrom(s, Home(key, |s.table|), key, 0)
  }

  /** What hashtable_create leaves of a bucket; it does not set the sizes. */
  function Cleared(bucket: seq<Slot>): (r: seq<Slot>)
    ensures |r| == |bucket|
  {
    seq(|bucket|, i requires 0 <= i < |bucket| => bucket[i].(addr := Null, lease := DEFAULT_LEASE, busy := false))
  }

  /** No slot was used yet, and no item handed out. */
  predicate Blank(s: Store)
  {
    && |s.table| > 0 && s.next == 0
    && (forall b | 0 <= b < |s.table| :: |s.table[b]| == SLOTS)
    && (forall b, i | 0 <= b < |s.table| && 0 <= i < SLOTS :: s.table[b][i].addr.Null? && !s.table[b][i].busy)
  }

  // ---------------------------------------------------------------- search agrees with the slots

  /** In a state that keeps the invariant, a search for a key other than 0 finds exactly the slot in use for it,
      and so reaches it before any null address. */
  lemma FoundIffLive(s: Store, key: int, i: nat, a: nat)
    requires Inv(s) && Homed(key, |s.table|) && key != 0
    ensures Search(s, key) == Found(i, a) <==> Live(s, Home(key, |s.table|), i, a) && s.pool[a].key == key
  {
    var b := Home(key, |s.table|);
    var r := Scan(s, b, key);
    if r < SLOTS && s.table[b][r].addr.At? {
      assert Points(s, b, r, s.table[b][r].addr.index);
    }
    if Live(s, b, i, a) && s.pool[a].key == key {
      assert r <= i;
      assert s.table[b][r].addr.At?;
      assert Live(s, b, r, s.table[b][r].addr.index);
    }
  }

  /** A search for a key that is not there reads through a null address exactly when the bucket still has a slot
      that was never used. */
  lemma NullReadIff(s: Store, key: int)
    requires Shape(s) && Homed(key, |s.table|) && NullsLast(s)
    ensures Search(s, key).NullRead? <==>
            !Search(s, key).Found? && s.table[Home(key, |s.table|)][SLOTS - 1].addr.Null?
  {
  }
}
