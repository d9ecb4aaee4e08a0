/** Pilaf's cuckoo table: three tables laid over one array with stride MAXN - 1, and three hash functions
    that coincide.  Only keys are modelled; INT_MIN marks an empty slot, but the code fills its tables with other
    values, so the filler is a parameter. */
module Cuckoo {
  import opened CRemainder
  import opened Options

  const EMPTY := -0x8000_0000

  /** A table of `|s|` slots for modulus `m`. */
  ghost predicate Shape(s: seq<int>, m: nat)
  {
    m > 1 && |s| == 3 * m
  }

  /** Keys the C code can handle: 32 bits wide, not the empty marker, with a residue that is an index. */
  predicate Key(k: int, m: nat)
  {
    m > 1 && -0x8000_0000 < k < 0x8000_0000 && 0 <= Rem(k, m)
  }

  /** A displaced key passes through a 32-bit variable. */
  function Narrow(k: int): (d: int)
    ensures -0x8000_0000 <= d < 0x8000_0000
    ensures -0x8000_0000 <= k < 0x8000_0000 ==> d == k
  {
    (k + 0x8000_0000) % 0x1_0000_0000 - 0x8000_0000
  }

  /** The low 32 bits, read as a signed number. */
  lemma NarrowIs(k: int)
    ensures Narrow(k) % 0x1_0000_0000 == k % 0x1_0000_0000 && -0x8000_0000 <= Narrow(k) < 0x8000_0000
  {
  }

  predicate Wide(f: int)
  {
    !(-0x8000_0000 <= f < 0x8000_0000)
  }

  /** What a slot can hold before its first key: INT_MIN, as documented, or 0, which initTable stores, or a value
      wider than a key that is cut to a key when it is displaced, which the server starts with. */
  predicate Filler(f: int, m: nat)
  {
    f == EMPTY || f == 0 || (Wide(f) && Key(Narrow(f), m))
  }

  /** First slot of table `t`; consecutive tables share one slot. */
  function Base(t: nat, m: nat): (b: nat)
    requires t < 3 && m > 1
  {
    if t == 0 then 0 else if t == 1 then m - 1 else 2 * (m - 1)
  }

  function Slot(t: nat, k: int, m: nat): (x: nat)
    requires t < 3 && Key(k, m)
    ensures x < 3 * m
  {
    Base(t, m) + Rem(k, m)
  }

  predicate Present(s: seq<int>, k: int, m: nat)
    requires |s| == 3 * m && Key(k, m)
  {
    s[Slot(0, k, m)] == k || s[Slot(1, k, m)] == k || s[Slot(2, k, m)] == k
  }

  /** Every slot holds the filler, or a legal key at one of the key's own three positions. */
  ghost predicate Placed(s: seq<int>, f: int, m: nat)
  {
    Shape(s, m) && Filler(f, m) &&
    forall x | 0 <= x < |s| && s[x] != f :: Key(s[x], m) && AtOwn(s[x], x, m)
  }

  ghost predicate AtOwn(k: int, x: nat, m: nat)
    requires Key(k, m)
  {
    x == Slot(0, k, m) || x == Slot(1, k, m) || x == Slot(2, k, m)
  }

  /** The table after `place(k, _, t, cnt, n)`, and the key that the bound makes it drop, if any. */
  function Place(s: seq<int>, k: int, t: nat, cnt: nat, n: nat, f: int, m: nat): (r: (seq<int>, Option<int>))
    requires Placed(s, f, m) && Key(k, m) && t < 3 && cnt <= n
    ensures Placed(r.0, f, m)
    decreases n - cnt
  {
    if cnt == n then (s, Some(k))
    else if Present(s, k, m) then (s, None)
    else
      var x := Slot(t, k, m);
      if s[x] != EMPTY then Place(s[x := k], Narrow(s[x]), (t + 1) % 3, cnt + 1, n, f, m)
      else (s[x := k], None)
  }

  /** The residue, or -1; all three hash functions give the same index. */
  function Lookup(s: seq<int>, k: int, m: nat): int
    requires |s| == 3 * m && Key(k, m)
  {
    if Present(s, k, m) then Rem(k, m) else -1
  }

  // ---------------------------------------------------------------- conservation and completeness

  ghost predicate Distinct(s: seq<int>, f: int)
  {
    forall x, y | 0 <= x < y < |s| && s[x] != f :: s[x] != s[y]
  }

  lemma PresentIffStored(s: seq<int>, k: int, f: int, m: nat)
    requires Placed(s, f, m) && Key(k, m) && k != f
    ensures Present(s, k, m) <==> k in s
  {
    if k in s {
      var x :| 0 <= x < |s| && s[x] == k;
      assert AtOwn(s[x], x, m);
    }
  }

  /** Lookup succeeds exactly for stored keys, overlapping stride included; a key that is the filler itself
      is found exactly while one of its own slots holds it. */
  lemma LookupComplete(s: seq<int>, k: int, f: int, m: nat)
    requires Placed(s, f, m) && Key(k, m)
    ensures Lookup(s, k, m) >= 0 <==> exists x: nat :: x < |s| && s[x] == k && AtOwn(k, x, m)
    ensures Lookup(s, k, m) >= 0 ==> Lookup(s, k, m) == Rem(k, m)
    ensures k != f ==> Lookup(s, k, m) == if k in s then Rem(k, m) else -1
  {
    if k != f {
      PresentIffStored(s, k, f, m);
    }
    if Present(s, k, m) {
      assert AtOwn(k, Slot(0, k, m), m) && AtOwn(k, Slot(1, k, m), m) && AtOwn(k, Slot(2, k, m), m);
    }
  }

  /** The keys of a table. */
  function Keys(s: seq<int>, f: int): multiset<int>
  {
    multiset(s)[f := 0]
  }

  /** What a pending key counts for. */
  function One(k: int, f: int): multiset<int>
  {
    if k == f then multiset{} else multiset{k}
  }

  /** The key that a call loses: the one it drops, unless that is stored elsewhere. */
  function Dropped(o: Option<int>, u: seq<int>, f: int): multiset<int>
  {
    match o case None => multiset{} case Some(k) => if k in u then multiset{} else One(k, f)
  }

  lemma WriteKeys(s: seq<int>, x: nat, k: int, f: int)
    requires x < |s|
    ensures Keys(s[x := k], f) + One(s[x], f) == Keys(s, f) + One(k, f)
  {
    assert multiset(s[x := k]) == multiset(s) - multiset{s[x]} + multiset{k};
    assert s[x] in multiset(s);
  }

  /** Whether a chain that displaces the filler may leave its truncation behind as a key of its own. */
  ghost predicate Mints(s: seq<int>, k: int, f: int)
  {
    f != EMPTY && Narrow(f) != k && Narrow(f) !in s
  }

  lemma WriteDistinct(s: seq<int>, x: nat, k: int, f: int, m: nat)
    requires Placed(s, f, m) && Distinct(s, f) && Key(k, m) && !Present(s, k, m) && x < |s|
    requires AtOwn(k, x, m)
    ensures Placed(s[x := k], f, m) && Distinct(s[x := k], f)
  {
    if k != f {
      PresentIffStored(s, k, f, m);
    }
  }

  /** Keys stay distinct; what is in the table and what was lost are what was in the table and the pending key, and
      at most one key that was not there, the truncated filler, which alone can be dropped and yet be stored. */
  ghost predicate Conserved(s: seq<int>, k: int, u: seq<int>, lost: Option<int>, f: int)
  {
    var before, after := Keys(s, f) + One(k, f), Keys(u, f) + Dropped(lost, u, f);
    && Distinct(u, f)
    && (lost.Some? && lost.value in u ==> f != EMPTY && lost.value == Narrow(f))
    && (after == before || (Mints(s, k, f) && after == before + One(Narrow(f), f)))
  }

  /** The rest of a chain may bring in only what the whole chain may. */
  lemma ChainMints(s: seq<int>, x: nat, k: int, f: int, m: nat)
    requires Placed(s, f, m) && x < |s| && Key(k, m) && AtOwn(k, x, m) && Placed(s[x := k], f, m)
    requires Key(Narrow(s[x]), m) && !Present(s[x := k], Narrow(s[x]), m)
    ensures s[x] != f && Mints(s[x := k], s[x], f) ==> Mints(s, k, f)
    ensures s[x] == f && f != EMPTY && Narrow(f) != f ==> Mints(s, k, f)
  {
    var v := s[x := k];
    assert v[x] == k;
    if s[x] == f && Narrow(f) != f {
      PresentIffStored(v, Narrow(f), f, m);
    }
    if Narrow(f) in s {
      var y :| 0 <= y < |s| && s[y] == Narrow(f);
      assert y != x ==> v[y] == s[y];
    }
  }

  lemma ChainConserves(s: seq<int>, x: nat, k: int, u: seq<int>, lost: Option<int>, f: int, m: nat)
    requires Placed(s, f, m) && x < |s| && Key(k, m) && AtOwn(k, x, m) && Placed(s[x := k], f, m)
    requires s[x] != EMPTY && !Present(s[x := k], Narrow(s[x]), m)
    requires Conserved(s[x := k], Narrow(s[x]), u, lost, f)
    ensures Conserved(s, k, u, lost, f)
  {
    ChainMints(s, x, k, f, m);
    WriteKeys(s, x, k, f);
  }

  /** The end of a chain: the slot was empty, or the displaced one is stored elsewhere. */
  lemma ChainEnds(s: seq<int>, x: nat, k: int, f: int, m: nat)
    requires Placed(s, f, m) && Distinct(s, f) && x < |s| && Key(k, m) && AtOwn(k, x, m) && !Present(s, k, m)
    requires s[x] != EMPTY ==> Key(Narrow(s[x]), m) && Present(s[x := k], Narrow(s[x]), m)
    ensures Conserved(s, k, s[x := k], None, f)
    ensures s[x] != EMPTY ==> Conserved(s, k, s[x := k], Some(Narrow(s[x])), f)
  {
    WriteDistinct(s, x, k, f, m);
    WriteKeys(s, x, k, f);
  }

  lemma ChainStarved(s: seq<int>, k: int, f: int, m: nat)
    requires Placed(s, f, m) && Distinct(s, f) && Key(k, m) && !Present(s, k, m)
    ensures Conserved(s, k, s, Some(k), f)
  {
    if k != f {
      PresentIffStored(s, k, f, m);
    }
  }

  lemma StepKeeps(s: seq<int>, x: nat, k: int, f: int, m: nat)
    requires Placed(s, f, m) && Distinct(s, f) && x < |s| && Key(k, m) && AtOwn(k, x, m) && !Present(s, k, m)
    ensures Placed(s[x := k], f, m) && Distinct(s[x := k], f)
    ensures s[x] != EMPTY ==> Key(Narrow(s[x]), m)
  {
    WriteDistinct(s, x, k, f, m);
  }

  /** Table keys plus the pending key are conserved along the whole eviction chain, so a call loses at most one key,
      and keys stay distinct; displacing fillers brings in at most one key that was not there, their truncation. */
  lemma {:induction false} PlaceConserves(s: seq<int>, k: int, t: nat, cnt: nat, n: nat, f: int, m: nat)
    requires Placed(s, f, m) && Distinct(s, f) && Key(k, m) && !Present(s, k, m) && t < 3 && cnt <= n
    ensures var (u, lost) := Place(s, k, t, cnt, n, f, m); Conserved(s, k, u, lost, f)
    decreases n - cnt
  {
    if cnt == n {
      ChainStarved(s, k, f, m);
    } else {
      var x := Slot(t, k, m);
      var v := s[x := k];
      StepKeeps(s, x, k, f, m);
      assert |v| == 3 * m;
      hide Conserved, Distinct, Placed, Present, Narrow;
      if s[x] == EMPTY || Present(v, Narrow(s[x]), m) {
        ChainEnds(s, x, k, f, m);
      } else {
        PlaceConserves(v, Narrow(s[x]), (t + 1) % 3, cnt + 1, n, f, m);
        var (u, lost) := Place(v, Narrow(s[x]), (t + 1) % 3, cnt + 1, n, f, m);
        ChainConserves(s, x, k, u, lost, f, m);
      }
    }
  }
}
