/** Whole runs of Pilaf's server, which places every requested key with the bound 3 into a table that starts filled
    with one value: which residues are queues. */
module CuckooRuns {
  import opened CRemainder
  import opened Cuckoo
  import opened CuckooQueue
  import opened Options

  /** A table before its first key. */
  function Blank(f: int, m: nat): (s: seq<int>)
  {
    seq(3 * m, _ => f)
  }

  lemma BlankPlaced(f: int, m: nat)
    requires m > 1 && Filler(f, m)
    ensures Placed(Blank(f, m), f, m) && Distinct(Blank(f, m), f)
  {
  }

  ghost predicate Requests(keys: seq<int>, m: nat)
  {
    forall i | 0 <= i < |keys| :: Key(keys[i], m)
  }

  /** The table after the server has handled a series of requests. */
  function Serve(keys: seq<int>, f: int, m: nat): (s: seq<int>)
    requires m > 1 && Filler(f, m) && Requests(keys, m)
    ensures Placed(s, f, m)
  {
    if keys == [] then BlankPlaced(f, m); Blank(f, m)
    else Place(Serve(keys[..|keys| - 1], f, m), keys[|keys| - 1], 0, 0, 3, f, m).0
  }

  /** The keys of a residue that a three-deep queue accepts, latest first: a request for one of the last
      three accepted keys is not accepted again. */
  function Accepted(keys: seq<int>, r: nat, m: nat): seq<int>
    requires m > 1
  {
    if keys == [] then []
    else
      var k, a := keys[|keys| - 1], Accepted(keys[..|keys| - 1], r, m);
      if Rem(k, m) != r || k in Latest(a) then a else [k] + a
  }

  function Latest(a: seq<int>): seq<int>
  {
    if |a| <= 3 then a else a[..3]
  }

  function Padded(a: seq<int>, f: int): (c: seq<int>)
    ensures |c| == 3
  {
    [if |a| > 0 then a[0] else f, if |a| > 1 then a[1] else f, if |a| > 2 then a[2] else f]
  }

  lemma PaddedLatest(a: seq<int>, k: int, f: int)
    requires k != f
    ensures k in Padded(a, f) <==> k in Latest(a)
  {
    if k in Latest(a) {
      var i :| 0 <= i < |Latest(a)| && Latest(a)[i] == k;
      assert Padded(a, f)[i] == k;
    }
    if k in Padded(a, f) {
      var i :| 0 <= i < 3 && Padded(a, f)[i] == k;
      assert Latest(a)[i] == k;
    }
  }

  /** Over every run keys stay distinct. */
  lemma {:induction false} ServeDistinct(keys: seq<int>, f: int, m: nat)
    requires m > 1 && Filler(f, m) && Requests(keys, m)
    ensures Distinct(Serve(keys, f, m), f)
  {
    if keys == [] {
      BlankPlaced(f, m);
    } else {
      var s, k := Serve(keys[..|keys| - 1], f, m), keys[|keys| - 1];
      ServeDistinct(keys[..|keys| - 1], f, m);
      if !Present(s, k, m) {
        PlaceConserves(s, k, 0, 0, 3, f, m);
      }
    }
  }

  /** No request is for a residue that shares a slot with `r`, unless it is `r` itself. */
  ghost predicate Separate(keys: seq<int>, r: nat, m: nat)
    requires m > 1
  {
    forall i | 0 <= i < |keys| :: Rem(keys[i], m) == r || Apart(Rem(keys[i], m), r, m)
  }

  lemma NotFiller(k: int, f: int, m: nat)
    requires Filler(f, m) && Key(k, m) && Aside(Rem(k, m), f, m)
    ensures k != f
  {
  }

  lemma PaddedOwn(s: seq<int>, a: seq<int>, r: nat, f: int, m: nat)
    requires Shape(s, m) && r < m && Column(s, r, m) == Padded(a, f) && f !in a
    requires forall i | 0 <= i < |a| :: Mine(a[i], r, m)
    ensures OwnColumn(s, r, f, m) && Packed(Column(s, r, m), f)
  {
    forall t | 0 <= t < 3 ensures Column(s, r, m)[t] == f || Mine(Column(s, r, m)[t], r, m) {
      assert Column(s, r, m)[t] == Padded(a, f)[t];
    }
  }

  lemma PaddedPush(a: seq<int>, k: int, f: int)
    ensures Padded([k] + a, f) == [k, Padded(a, f)[0], Padded(a, f)[1]]
  {
  }

  lemma PaddedFree(a: seq<int>, f: int, n: nat)
    requires n == 3 || (|a| < 3 && |a| < n)
    ensures InTime(Padded(a, f), 0, n, |a|, f)
  {
  }

  /** The column of `r` holds the last three of the accepted keys `a`, latest first. */
  ghost predicate Queued(s: seq<int>, a: seq<int>, r: nat, f: int, m: nat)
  {
    && Shape(s, m) && r < m && Column(s, r, m) == Padded(a, f)
    && f !in a && forall i | 0 <= i < |a| :: Mine(a[i], r, m)
  }

  /** One call, with the server's bound or with one beyond the number of keys in the queue. */
  lemma QueueStep(s: seq<int>, a: seq<int>, k: int, r: nat, n: nat, f: int, m: nat)
    requires Placed(s, f, m) && Distinct(s, f) && Aside(r, f, m) && Mine(k, r, m) && Queued(s, a, r, f, m)
    requires n == 3 || (|a| < 3 && |a| < n)
    ensures Queued(Place(s, k, 0, 0, n, f, m).0, if k in Latest(a) then a else [k] + a, r, f, m)
  {
    assert Filler(f, m);
    hide Placed, Distinct, Aside, OwnColumn, SameOutside, FillerGoes, Place, Packed, Padded, Column;
    NotFiller(k, f, m);
    PaddedLatest(a, k, f);
    PaddedPush(a, k, f);
    PaddedOwn(s, a, r, f, m);
    PaddedFree(a, f, n);
    PlaceShifts(s, k, n, |a|, f, m);
  }

  lemma QueueOther(s: seq<int>, a: seq<int>, k: int, r: nat, n: nat, f: int, m: nat)
    requires Placed(s, f, m) && Aside(r, f, m) && Key(k, m) && Apart(Rem(k, m), r, m) && Queued(s, a, r, f, m)
    ensures Queued(Place(s, k, 0, 0, n, f, m).0, a, r, f, m)
  {
    OtherChain(s, k, r, 0, 0, n, f, m);
  }

  /** Over every run, the three slots of a residue that fillers do not go to hold its last three accepted keys, latest
      first, as long as no residue that shares a slot is asked for. */
  lemma {:induction false} ServeIsQueue(keys: seq<int>, r: nat, f: int, m: nat)
    requires m > 1 && Filler(f, m) && Aside(r, f, m) && Requests(keys, m) && Separate(keys, r, m)
    ensures Queued(Serve(keys, f, m), Accepted(keys, r, m), r, f, m)
  {
    if keys != [] {
      var rest, k := keys[..|keys| - 1], keys[|keys| - 1];
      var s, a := Serve(rest, f, m), Accepted(rest, r, m);
      ServeIsQueue(rest, r, f, m);
      if Rem(k, m) == r {
        ServeDistinct(rest, f, m);
        hide Queued, Distinct, Place, Placed, Latest;
        QueueStep(s, a, k, r, 3, f, m);
      } else {
        hide Queued, Distinct, Place, Placed, Latest, Apart;
        QueueOther(s, a, k, r, 3, f, m);
      }
    }
  }

  // ---------------------------------------------------------------- the residues that are no queues

  /** After the requests the three slots of residue `r` hold its last three accepted keys. */
  ghost predicate QueueAfter(keys: seq<int>, r: nat, f: int, m: nat)
    requires m > 1 && r < m && Filler(f, m)
  {
    Requests(keys, m) ==> Column(Serve(keys, f, m), r, m) == Padded(Accepted(keys, r, m), f)
  }

  /** A slot once written never looks unused again, as a pending key fits in 32 bits and is not INT_MIN. */
  lemma {:induction false} StaysWritten(s: seq<int>, k: int, t: nat, cnt: nat, n: nat, f: int, m: nat, x: nat)
    requires Placed(s, f, m) && Key(k, m) && t < 3 && cnt <= n && f != 0 && x < |s| && s[x] != f
    ensures Place(s, k, t, cnt, n, f, m).0[x] != f
    decreases n - cnt
  {
    if cnt < n && !Present(s, k, m) {
      var y := Slot(t, k, m);
      if s[y] != EMPTY {
        StaysWritten(s[y := k], Narrow(s[y]), (t + 1) % 3, cnt + 1, n, f, m, x);
      }
    }
  }

  /** A displaced 0 ends the chain at once while one of its own slots holds 0. */
  lemma ZeroStops(v: seq<int>, t: nat, cnt: nat, n: nat, m: nat, x: nat)
    requires Placed(v, 0, m) && t < 3 && cnt <= n && (x == 0 || x == m - 1 || x == 2 * (m - 1)) && v[x] == 0
    ensures Place(v, 0, t, cnt, n, 0, m).0 == v
  {
    assert Slot(0, 0, m) == 0 && Slot(1, 0, m) == m - 1 && Slot(2, 0, m) == 2 * (m - 1);
  }

  /** The first key of a run, written into table 0; a filler that it displaces goes on. */
  lemma ServeOne(k: int, f: int, m: nat)
    requires m > 1 && Filler(f, m) && Key(k, m) && k != f
    ensures Requests([k], m) && (forall r: nat :: Accepted([k], r, m) == if Rem(k, m) == r then [k] else [])
    ensures var v, u := Blank(f, m)[Rem(k, m) := k], Serve([k], f, m);
            Placed(v, f, m) && u == if f == EMPTY then v else Place(v, Narrow(f), 1, 1, 3, f, m).0
  {
    BlankPlaced(f, m);
    assert [k][..0] == [];
    assert Serve([], f, m) == Blank(f, m);
    assert Slot(0, k, m) == Rem(k, m);
  }

  /** A request for the last residue puts its key into the second slot of residue 0. */
  lemma FirstResidueBreaks(f: int, m: nat)
    requires 1 < m < 0x8000_0000 && Filler(f, m)
    ensures !QueueAfter([m - 1], 0, f, m)
  {
    var k := m - 1;
    ServeOne(k, f, m);
    var v, u := Blank(f, m)[k := k], Serve([k], f, m);
    if f == 0 {
      ZeroStops(v, 1, 1, 3, m, 0);
    } else if f != EMPTY {
      StaysWritten(v, Narrow(f), 1, 1, 3, f, m, k);
    }
    assert Column(u, 0, m)[1] != f;
  }

  /** A filler that the first key displaces goes to the second slot of its own residue, as a key nobody asked for. */
  lemma FillerResidueBreaks(f: int, m: nat)
    requires 1 < m < 0x8000_0000 && Wide(f) && Filler(f, m) && Inner(Rem(Narrow(f), m), m)
    ensures !QueueAfter([0], Rem(Narrow(f), m), f, m)
  {
    var d, r := Narrow(f), Rem(Narrow(f), m);
    ServeOne(0, f, m);
    var v, u := Blank(f, m)[0 := 0], Serve([0], f, m);
    assert !Present(v, d, m) && Slot(1, d, m) == m - 1 + r;
    var w := v[m - 1 + r := d];
    assert Placed(w, f, m);
    StaysWritten(w, d, 2, 2, 3, f, m, m - 1 + r);
    assert Column(u, r, m)[1] != f;
  }

  /** A second key of residue 0, also where twice the modulus would not fit in 32 bits. */
  function Opposite(m: int): int
  {
    -m
  }

  lemma KeysOfZero(m: nat)
    requires 1 < m < 0x8000_0000
    ensures Key(m, m) && Rem(m, m) == 0 && Key(Opposite(m), m) && Rem(Opposite(m), m) == 0
  {
    RemIs(m, m, 1, 0);
  }

  /** After a first key of residue 0 the filler's truncation may be stored as well, in table 1. */
  lemma AfterFirst(f: int, m: nat)
    requires 1 < m < 0x8000_0000 && Filler(f, m) && Key(m, m) && Rem(m, m) == 0
    ensures var v, u := Blank(f, m)[0 := m], Serve([m], f, m);
            u == v || (Wide(f) && u == v[m - 1 + Rem(Narrow(f), m) := Narrow(f)])
  {
    ServeOne(m, f, m);
    var v := Blank(f, m)[0 := m];
    if f == 0 {
      ZeroStops(v, 1, 1, 3, m, m - 1);
    } else if f != EMPTY && !Present(v, Narrow(f), m) {
      var d := Narrow(f);
      var x := Slot(1, d, m);
      assert v[x] == f;
      var w := v[x := d];
      assert Placed(w, f, m) && Present(w, d, m);
      assert Place(v, d, 1, 1, 3, f, m) == Place(w, d, 2, 2, 3, f, m);
    }
  }

  /** The second key of residue 0 pushes the first into table 1, where the last residue has its first slot. */
  lemma PushedOver(s: seq<int>, f: int, m: nat)
    requires 1 < m < 0x8000_0000 && Placed(s, f, m)
    requires Key(m, m) && Rem(m, m) == 0 && Key(Opposite(m), m) && Rem(Opposite(m), m) == 0
    requires s[0] == m && s[m - 1] == f && (f == 0 ==> s[2 * (m - 1)] == 0)
    requires s[2 * (m - 1)] != m && s[2 * (m - 1)] != Opposite(m)
    ensures Place(s, Opposite(m), 0, 0, 3, f, m).0[m - 1] != f
  {
    var v := s[0 := Opposite(m)];
    var w := v[m - 1 := m];
    assert Slot(0, m, m) == 0 && Slot(1, m, m) == m - 1 && Slot(2, m, m) == 2 * (m - 1);
    assert Slot(0, Opposite(m), m) == 0 && Slot(1, Opposite(m), m) == m - 1 && Slot(2, Opposite(m), m) == 2 * (m - 1);
    assert !Present(s, Opposite(m), m) && Placed(v, f, m) && !Present(v, m, m) && Placed(w, f, m);
    assert Place(s, Opposite(m), 0, 0, 3, f, m) == Place(v, m, 1, 1, 3, f, m);
    if f == 0 {
      ZeroStops(w, 2, 2, 3, m, 2 * (m - 1));
    } else if f != EMPTY {
      StaysWritten(w, Narrow(f), 2, 2, 3, f, m, m - 1);
    }
  }

  /** Two requests for residue 0 fill the first slot of the last residue. */
  lemma LastResidueBreaks(f: int, m: nat)
    requires 1 < m < 0x8000_0000 && Filler(f, m)
    ensures !QueueAfter([m, Opposite(m)], m - 1, f, m)
  {
    KeysOfZero(m);
    AfterFirst(f, m);
    ServeOne(m, f, m);
    var s := Serve([m], f, m);
    assert [m, Opposite(m)][..1] == [m];
    assert Accepted([m, Opposite(m)], m - 1, m) == [];
    if s[m - 1] != f {
      StaysWritten(s, Opposite(m), 0, 0, 3, f, m, m - 1);
    } else {
      PushedOver(s, f, m);
    }
    assert Column(Serve([m, Opposite(m)], f, m), m - 1, m)[0] != f;
  }

  // ---------------------------------------------------------------- exactly which residues are queues

  /** An inner residue that displaced fillers do not go to. */
  predicate Undisturbed(r: nat, f: int, m: nat)
    requires m > 1
  {
    Inner(r, m) && Aside(r, f, m)
  }

  /** The three slots of a residue are a queue over every run exactly for the residues that share no slot and that no
      displaced filler goes to: with the stride m - 1 the residues 0 and m - 1 push out each other's keys. */
  lemma QueueIffUndisturbed(r: nat, f: int, m: nat)
    requires 1 < m < 0x8000_0000 && r < m && Filler(f, m)
    ensures (forall keys: seq<int> :: QueueAfter(keys, r, f, m)) <==> Undisturbed(r, f, m)
  {
    if Undisturbed(r, f, m) {
      forall keys: seq<int> ensures QueueAfter(keys, r, f, m) {
        if Requests(keys, m) {
          ServeIsQueue(keys, r, f, m);
        }
      }
    } else if r == 0 {
      FirstResidueBreaks(f, m);
    } else if r == m - 1 {
      LastResidueBreaks(f, m);
    } else {
      FillerResidueBreaks(f, m);
    }
  }

  /** MAXN. */
  const SERVER_MODULUS: nat := 2_500_000

  /** Every byte of the server's table is 1 at the start. */
  const SERVER_FILLER: int := 0x0101_0101_0101_0101

  /** On the server as it is started, three residues are no queues. */
  lemma ServerQueues(r: nat)
    requires r < SERVER_MODULUS
    ensures Filler(SERVER_FILLER, SERVER_MODULUS)
    ensures (forall keys: seq<int> :: QueueAfter(keys, r, SERVER_FILLER, SERVER_MODULUS)) <==>
            r != 0 && r != 1_843_009 && r != 2_499_999
  {
    assert Narrow(SERVER_FILLER) == 16_843_009 && Rem(16_843_009, SERVER_MODULUS) == 1_843_009;
    QueueIffUndisturbed(r, SERVER_FILLER, SERVER_MODULUS);
  }
}
