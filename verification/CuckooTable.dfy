/** Pilaf's table changed in place. */
module CuckooTable {
  import opened CRemainder
  import opened Cuckoo
  import opened CuckooQueue
  import opened CuckooRuns
  import opened Options

  /** The table after the first `i` keys of a bulk load, which bounds each chain by the number of keys. */
  function Loaded(keys: seq<int>, i: nat, f: int, m: nat): (s: seq<int>)
    requires m > 1 && i <= |keys| && Requests(keys, m) && Filler(f, m)
    ensures Placed(s, f, m)
  {
    if i == 0 then BlankPlaced(f, m); Blank(f, m)
    else Place(Loaded(keys, i - 1, f, m), keys[i - 1], 0, 0, |keys|, f, m).0
  }

  lemma ConservedKeys(s: seq<int>, k: int, u: seq<int>, lost: Option<int>, f: int)
    requires Conserved(s, k, u, lost, f)
    ensures Distinct(u, f)
    ensures forall j :: j in Keys(u, f) ==> j in Keys(s, f) || j == k || (f != EMPTY && j == Narrow(f))
  {
    assert Keys(u, f) <= Keys(u, f) + Dropped(lost, u, f);
  }

  /** A bulk load stores each key at most once and invents none but the filler's truncation. */
  lemma {:induction false} LoadedKeys(keys: seq<int>, i: nat, f: int, m: nat)
    requires m > 1 && i <= |keys| && Requests(keys, m) && Filler(f, m)
    ensures Distinct(Loaded(keys, i, f, m), f)
    ensures forall k :: k in Keys(Loaded(keys, i, f, m), f) ==> k in keys[..i] || (f != EMPTY && k == Narrow(f))
  {
    if i > 0 {
      var s, k := Loaded(keys, i - 1, f, m), keys[i - 1];
      LoadedKeys(keys, i - 1, f, m);
      assert keys[..i] == keys[..i - 1] + [k];
      if !Present(s, k, m) {
        PlaceConserves(s, k, 0, 0, |keys|, f, m);
        var (u, lost) := Place(s, k, 0, 0, |keys|, f, m);
        hide Placed, Distinct, Present, Keys, Conserved, Narrow;
        ConservedKeys(s, k, u, lost, f);
      }
    } else {
      BlankPlaced(f, m);
    }
  }

  lemma {:induction false} AcceptedGrows(keys: seq<int>, i: nat, r: nat, m: nat)
    requires m > 1 && i <= |keys|
    ensures |Accepted(keys[..i], r, m)| <= |Accepted(keys, r, m)| && |Accepted(keys[..i], r, m)| <= i
    decreases |keys|, i
  {
    if i < |keys| {
      assert keys[..|keys| - 1][..i] == keys[..i];
      AcceptedGrows(keys[..|keys| - 1], i, r, m);
    } else if i > 0 {
      assert keys[..i] == keys;
      AcceptedGrows(keys[..i - 1], i - 1, r, m);
      assert keys[..i - 1][..i - 1] == keys[..i - 1];
    }
  }

  /** A residue of which at most three keys are loaded, and none of a residue that shares a slot, holds them all, latest
      first, as the chains reach a free slot before the bound. */
  lemma {:induction false} LoadedQueue(keys: seq<int>, i: nat, r: nat, f: int, m: nat)
    requires m > 1 && i <= |keys| && Requests(keys, m) && Filler(f, m) && Aside(r, f, m) && Separate(keys, r, m)
    requires |Accepted(keys, r, m)| <= 3
    ensures Queued(Loaded(keys, i, f, m), Accepted(keys[..i], r, m), r, f, m)
  {
    if i > 0 {
      var s, k, a := Loaded(keys, i - 1, f, m), keys[i - 1], Accepted(keys[..i - 1], r, m);
      hide *;
      LoadedQueue(keys, i - 1, r, f, m);
      LoadedNext(keys, i, f, m);
      AcceptedNext(keys, i, r, m);
      AcceptedGrows(keys, i - 1, r, m);
      AcceptedGrows(keys, i, r, m);
      if Rem(k, m) == r {
        LoadedStep(s, a, k, r, |keys|, f, m);
      } else {
        QueueOther(s, a, k, r, |keys|, f, m);
      }
    } else {
      LoadedFirst(keys, r, f, m);
    }
  }

  lemma LoadedFirst(keys: seq<int>, r: nat, f: int, m: nat)
    requires m > 1 && Requests(keys, m) && Filler(f, m) && r < m
    ensures Queued(Loaded(keys, 0, f, m), Accepted(keys[..0], r, m), r, f, m)
  {
  }

  lemma LoadedNext(keys: seq<int>, i: nat, f: int, m: nat)
    requires m > 1 && 0 < i <= |keys| && Requests(keys, m) && Filler(f, m)
    ensures Loaded(keys, i, f, m) == Place(Loaded(keys, i - 1, f, m), keys[i - 1], 0, 0, |keys|, f, m).0
    ensures Distinct(Loaded(keys, i - 1, f, m), f) && Key(keys[i - 1], m)
  {
    LoadedKeys(keys, i - 1, f, m);
  }

  lemma AcceptedNext(keys: seq<int>, i: nat, r: nat, m: nat)
    requires m > 1 && 0 < i <= |keys| && Separate(keys, r, m)
    ensures var k, a := keys[i - 1], Accepted(keys[..i - 1], r, m);
            && Accepted(keys[..i], r, m) == (if Rem(k, m) != r || k in Latest(a) then a else [k] + a)
            && (Rem(k, m) == r || Apart(Rem(k, m), r, m))
  {
    assert keys[..i][..i - 1] == keys[..i - 1];
  }

  lemma LoadedStep(s: seq<int>, a: seq<int>, k: int, r: nat, n: nat, f: int, m: nat)
    requires Placed(s, f, m) && Distinct(s, f) && Aside(r, f, m) && Key(k, m) && Rem(k, m) == r
    requires Queued(s, a, r, f, m)
    requires |a| < n && |a| <= 3 && |if k in Latest(a) then a else [k] + a| <= 3
    ensures Queued(Place(s, k, 0, 0, n, f, m).0, if k in Latest(a) then a else [k] + a, r, f, m)
  {
    if |a| < 3 {
      QueueStep(s, a, k, r, n, f, m);
    } else {
      PaddedLatest(a, k, f);
      NotFiller(k, f, m);
      ColumnPresent(s, k, f, m);
    }
  }

  class Table {
    const m: nat
    var hashtable: array<int>

    /** What the slots held before their first key. */
    ghost var filler: int

    ghost predicate Valid()
      reads this, hashtable
    {
      Placed(hashtable[..], filler, m)
    }

    /** The table the server starts with: every byte is 1. */
    constructor (m: nat)
      requires m > 1
      ensures Valid() && fresh(hashtable) && this.m == m && filler == SERVER_FILLER
      ensures hashtable[..] == Blank(SERVER_FILLER, m)
    {
      this.m := m;
      filler := SERVER_FILLER;
      hashtable := new int[3 * m](_ => SERVER_FILLER);
      new;
      assert Narrow(SERVER_FILLER) == 16_843_009;
      BlankPlaced(SERVER_FILLER, m);
      assert hashtable[..] == Blank(SERVER_FILLER, m);
    }

    method Place(k: int, tableID: nat, cnt: nat, n: nat)
      requires Valid() && Key(k, m) && tableID < 3 && cnt <= n
      modifies hashtable
      ensures Valid()
      ensures hashtable[..] == Cuckoo.Place(old(hashtable[..]), k, tableID, cnt, n, filler, m).0
      decreases n - cnt
    {
      if cnt == n {
        return;
      }
      var i := 0;
      while i < 3
        invariant 0 <= i <= 3
        invariant forall t | 0 <= t < i :: hashtable[Slot(t, k, m)] != k
      {
        if hashtable[Slot(i, k, m)] == k {
          return;
        }
        i := i + 1;
      }
      assert !Present(hashtable[..], k, m);
      var x := Slot(tableID, k, m);
      if hashtable[x] != EMPTY {
        var dis := Narrow(hashtable[x]);
        hashtable[x] := k;
        assert hashtable[..] == old(hashtable[..])[x := k];
        Place(dis, (tableID + 1) % 3, cnt + 1, n);
      } else {
        hashtable[x] := k;
        assert hashtable[..] == old(hashtable[..])[x := k];
      }
    }

    method Lookup(k: int) returns (index: int)
      requires Valid() && Key(k, m)
      ensures index == Cuckoo.Lookup(hashtable[..], k, m)
      ensures k != filler ==> index == if k in hashtable[..] then Rem(k, m) else -1
    {
      LookupComplete(hashtable[..], k, filler, m);
      var f := 1;
      while f <= 3
        invariant 1 <= f <= 4
        invariant forall t | 0 <= t < f - 1 :: hashtable[Slot(t, k, m)] != k
      {
        index := Rem(k, m);
        if hashtable[Slot(f - 1, k, m)] == k {
          return;
        }
        f := f + 1;
      }
      index := -1;
    }

    /** Bulk load: the memset with INT_MIN, of which it takes the lowest byte, fills the table with zeros; then every
        key is placed, with the number of keys as the bound. */
    method Load(keys: seq<int>)
      requires Valid() && Requests(keys, m)
      modifies this`filler, hashtable
      ensures Valid() && filler == 0 && hashtable[..] == Loaded(keys, |keys|, 0, m)
    {
      var x := 0;
      while x < hashtable.Length
        invariant 0 <= x <= hashtable.Length
        invariant forall y | 0 <= y < x :: hashtable[y] == 0
      {
        hashtable[x] := 0;
        x := x + 1;
      }
      filler := 0;
      assert hashtable[..] == Blank(0, m);
      BlankPlaced(0, m);
      var i := 0;
      while i < |keys|
        invariant 0 <= i <= |keys| && Valid() && filler == 0 && hashtable[..] == Loaded(keys, i, 0, m)
      {
        Place(keys[i], 0, 0, |keys|);
        i := i + 1;
      }
    }
  }
}
