/** The initial load of HydraDB's table with the keys 0, 1, 2, ..., and the clients' reads by key number. */
module HydraInit {
  import opened CRemainder
  import opened HydraModel
  import opened HydraRefinement
  import opened HydraCache
  import opened Options

  /** The size of the text stored for key `k`. */
  function TextSize(k: nat): nat
  {
    if k % 32 == 0 then 1 else k % 32
  }

  /** Key `k` is number Row(k, m) among the keys of its bucket. */
  function Row(k: nat, m: nat): nat
    requires m > 0
  {
    if k < m then 0 else 1 + Row(k - m, m)
  }

  /** The key that is number `j` in bucket `b` of `m`. */
  function KeyAt(b: nat, j: nat, m: nat): (k: nat)
    ensures k >= b
  {
    if j == 0 then b else KeyAt(b, j - 1, m) + m
  }

  /** Slot `j` of bucket `b` after the first `n` keys. */
  predicate Laid(s: Store, n: nat, b: nat, j: nat)
    requires b < |s.table| && j < |s.table[b]|
  {
    if KeyAt(b, j, |s.table|) < n then
      var k := KeyAt(b, j, |s.table|);
      s.table[b][j] == Slot(At(k), true, if k % 32 == 0 then 1 else k % 32, 1)
    else !s.table[b][j].busy && s.table[b][j].addr == Null
  }

  predicate LaidItem(s: Store, a: nat, values: seq<string>)
    requires a < |s.pool| && a < |values|
  {
    s.pool[a] == Item(a, 0, values[a])
  }

  /** The first `n` keys lie row by row: key `k` in slot Row(k, m) of its bucket and in item `k` of the pool. */
  ghost predicate Layout(s: Store, n: nat, values: seq<string>)
    requires n <= |values|
  {
    && |s.table| > 0 && s.next == n <= |s.pool|
    && (forall b | 0 <= b < |s.table| :: |s.table[b]| == SLOTS)
    && (forall b: nat, j: nat | b < |s.table| && j < SLOTS :: Laid(s, n, b, j))
    && (forall a: nat | a < n :: LaidItem(s, a, values))
  }

  lemma {:induction false} KeyAtRow(k: nat, m: nat)
    requires m > 0
    ensures Homed(k, m) && KeyAt(Home(k, m), Row(k, m), m) == k
  {
    if k >= m {
      KeyAtRow(k - m, m);
      RemLess(k, m);
    }
  }

  /** With at most seven keys a bucket there is a slot for the key. */
  lemma {:induction false} RowBound(k: nat, m: nat, rows: nat)
    requires m > 0 && k < KeyAt(0, rows, m)
    ensures Row(k, m) < rows
  {
    if k >= m {
      RowBound(k - m, m, rows - 1);
    }
  }

  lemma {:induction false} KeyAtOrder(b: nat, j: nat, c: nat, i: nat, m: nat)
    requires b < m && j < i
    ensures KeyAt(b, j, m) < KeyAt(c, i, m)
  {
    if j > 0 {
      KeyAtOrder(b, j - 1, c, i - 1, m);
    }
  }

  lemma KeyAtUnique(b: nat, j: nat, c: nat, i: nat, m: nat)
    requires b < m && c < m && KeyAt(b, j, m) == KeyAt(c, i, m)
    ensures i == j
  {
    if j < i {
      KeyAtOrder(b, j, c, i, m);
    } else if i < j {
      KeyAtOrder(c, i, b, j, m);
    }
  }

  lemma {:induction false} KeyAtColumn(b: nat, c: nat, j: nat, m: nat)
    requires KeyAt(b, j, m) == KeyAt(c, j, m)
    ensures b == c
  {
    if j > 0 {
      KeyAtColumn(b, c, j - 1, m);
    }
  }

  /** As many keys as there are slots. */
  function Capacity(m: nat): nat
  {
    KeyAt(0, SLOTS, m)
  }

  lemma LayoutShape(s: Store, n: nat, values: seq<string>)
    requires n <= |values| && Layout(s, n, values)
    ensures Shape(s)
  {
    forall b: nat, i: nat | b < |s.table| && i < SLOTS
      ensures s.table[b][i].addr.At? ==> s.table[b][i].addr.index < s.next
    {
      assert Laid(s, n, b, i);
    }
  }

  /** The next key finds the slots before its own in use and its own free. */
  lemma NextSlot(s: Store, n: nat, values: seq<string>)
    requires n < |values| && Layout(s, n, values) && n < Capacity(|s.table|)
    ensures Homed(n, |s.table|) && Row(n, |s.table|) < SLOTS
    ensures KeyAt(Home(n, |s.table|), Row(n, |s.table|), |s.table|) == n
    ensures FreeSlot(s.table[Home(n, |s.table|)]) == Row(n, |s.table|)
  {
    var m := |s.table|;
    KeyAtRow(n, m);
    RowBound(n, m, SLOTS);
    var b, i := Home(n, m), Row(n, m);
    assert Laid(s, n, b, i);
    forall j: nat | j < i ensures s.table[b][j].busy {
      KeyAtOrder(b, j, b, i, m);
      assert Laid(s, n, b, j);
    }
  }

  /** The insertion of the next key. */
  function LoadOne(s: Store, n: nat, values: seq<string>): Store
    requires n < |values| && Layout(s, n, values) && n < Capacity(|s.table|) && HasRoom(s)
  {
    LayoutShape(s, n, values); NextSlot(s, n, values);
    Insert(s, n, values[n], TextSize(n)).0
  }

  lemma LoadOneLayout(s: Store, n: nat, values: seq<string>)
    requires n < |values| && Layout(s, n, values) && n < Capacity(|s.table|) && HasRoom(s)
    ensures Shape(s) && Homed(n, |s.table|)
    ensures Insert(s, n, values[n], TextSize(n)).1 == 0
    ensures Layout(LoadOne(s, n, values), n + 1, values)
    ensures |LoadOne(s, n, values).table| == |s.table| && |LoadOne(s, n, values).pool| == |s.pool|
  {
    var m, t := |s.table|, LoadOne(s, n, values);
    LayoutShape(s, n, values);
    NextSlot(s, n, values);
    var b, i, n' := Home(n, m), Row(n, m), n + 1;
    forall c: nat, j: nat | c < m && j < SLOTS ensures Laid(t, n', c, j) {
      assert Laid(s, n, c, j);
      if KeyAt(c, j, m) == n {
        KeyAtUnique(c, j, b, i, m);
        KeyAtColumn(c, b, i, m);
      }
    }
    forall a: nat | a < n' ensures LaidItem(t, a, values) {
      if a < n { assert LaidItem(s, a, values); }
    }
  }

  lemma LayoutPoints(s: Store, n: nat, values: seq<string>, b: nat, i: nat, a: nat)
    requires n <= |values| && Layout(s, n, values) && Points(s, b, i, a)
    ensures a == KeyAt(b, i, |s.table|) < n && s.table[b][i].busy && s.pool[a] == Item(a, 0, values[a])
  {
    assert Laid(s, n, b, i);
    assert LaidItem(s, a, values);
  }

  lemma LoadOneKeeps(s: Store, n: nat, values: seq<string>)
    requires n < |values| && Layout(s, n, values) && n < Capacity(|s.table|) && HasRoom(s) && Inv(s)
    ensures Inv(LoadOne(s, n, values))
  {
    NextSlot(s, n, values);
    var b, i := Home(n, |s.table|), Row(n, |s.table|);
    forall c: nat, j: nat, a: nat | Live(s, c, j, a) ensures s.pool[a].key != n {
      LayoutPoints(s, n, values, c, j, a);
    }
    PublishKeeps(s, b, i, n, values[n], TextSize(n));
  }

  /** The table after the first `n` keys. */
  ghost function Loaded(s: Store, n: nat, values: seq<string>): (t: Store)
    requires Blank(s) && n <= |values| && n <= |s.pool| && n <= Capacity(|s.table|)
    ensures Layout(t, n, values) && |t.table| == |s.table| && |t.pool| == |s.pool|
  {
    if n == 0 then s
    else LoadOneLayout(Loaded(s, n - 1, values), n - 1, values); LoadOne(Loaded(s, n - 1, values), n - 1, values)
  }

  lemma {:induction false} LoadedInv(s: Store, n: nat, values: seq<string>)
    requires Blank(s) && n <= |values| && n <= |s.pool| && n <= Capacity(|s.table|) && Unmarked(s)
    ensures Inv(Loaded(s, n, values))
  {
    if n == 0 {
      BlankAgrees(s);
    } else {
      LoadedInv(s, n - 1, values);
      LoadOneKeeps(Loaded(s, n - 1, values), n - 1, values);
    }
  }

  lemma LaidFound(t: Store, n: nat, values: seq<string>, k: nat)
    requires Inv(t) && n <= |values| && Layout(t, n, values) && 0 < k < n <= Capacity(|t.table|)
    ensures Homed(k, |t.table|) && Search(t, k) == Found(Row(k, |t.table|), k)
    ensures Get(t, k) == Some(Entry(values[k], if k % 32 == 0 then 1 else k % 32, 1))
  {
    var m := |t.table|;
    KeyAtRow(k, m);
    RowBound(k, m, SLOTS);
    assert Laid(t, n, Home(k, m), Row(k, m));
    assert LaidItem(t, k, values);
    FoundIffLive(t, k, Row(k, m), k);
  }

  /** The load succeeds for up to seven keys a bucket, and then a search finds every key other than 0 in slot
      Row(k, m) and in item `k` of the pool; the pool has an item left only if it is larger than the load. */
  lemma LoadedFinds(s: Store, values: seq<string>, k: nat)
    requires Blank(s) && Unmarked(s) && |values| <= |s.pool| && |values| <= Capacity(|s.table|) && 0 < k < |values|
    ensures var t := Loaded(s, |values|, values);
            && Inv(t) && Homed(k, |t.table|)
            && Search(t, k) == Found(Row(k, |t.table|), k)
            && Get(t, k) == Some(Entry(values[k], if k % 32 == 0 then 1 else k % 32, 1))
            && (HasRoom(t) <==> |values| < |s.pool|)
  {
    LoadedInv(s, |values|, values);
    LaidFound(Loaded(s, |values|, values), |values|, values, k);
  }

  /** Clients read item `k` of the pool for key `k`.  After the load and any further run that is the current item of
      the key exactly as long as its flag is 0 and it names the key. */
  lemma ReadByKey(s: Store, values: seq<string>, k: nat, ops: seq<Op>)
    requires Blank(s) && Unmarked(s) && |values| <= |s.pool| && |values| <= Capacity(|s.table|) && 0 < k < |values|
    requires Inv(Loaded(s, |values|, values)) && AllowedRun(Loaded(s, |values|, values), ops)
    requires Run(Loaded(s, |values|, values), ops).Ended?
    ensures var t := Run(Loaded(s, |values|, values), ops).store;
            && Inv(t) && Homed(k, |t.table|) && k < |t.pool| && t.pool[k].value == values[k]
            && (Current(t, k, k) <==> Search(t, k) == Found(Row(k, |s.table|), k))
  {
    LoadedFinds(s, values, k);
    var t := Loaded(s, |values|, values);
    assert LaidItem(t, k, values);
    CachedAddress(t, ops, k, Row(k, |s.table|), k);
  }
}
