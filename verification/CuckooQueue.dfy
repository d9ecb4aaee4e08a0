/** With one hash function the three tables of a residue form a queue: what place(k, _, 0, 0, n) does to
    the column of a residue, for any bound and for the server's, which is n = 3. */
module CuckooQueue {
  import opened CRemainder
  import opened Cuckoo
  import opened Options

  /** Residues whose three slots belong to no other residue. */
  predicate Inner(r: int, m: nat)
  {
    0 < r < m - 1
  }

  /** The three slots of a residue. */
  function Column(s: seq<int>, r: nat, m: nat): (c: seq<int>)
    requires Shape(s, m) && r < m
    ensures |c| == 3
  {
    [s[r], s[m - 1 + r], s[2 * (m - 1) + r]]
  }

  ghost predicate SameOutside(s: seq<int>, u: seq<int>, r: nat, m: nat)
  {
    && |u| == |s|
    && forall x | 0 <= x < |s| && x != r && x != m - 1 + r && x != 2 * (m - 1) + r :: u[x] == s[x]
  }

  /** A key of residue `r`. */
  predicate Mine(k: int, r: nat, m: nat)
  {
    Key(k, m) && Rem(k, m) == r
  }

  /** The three slots of the residue hold nothing of another one, which for inner residues is always so. */
  ghost predicate OwnColumn(s: seq<int>, r: nat, f: int, m: nat)
  {
    Shape(s, m) && r < m && forall t | 0 <= t < 3 :: Column(s, r, m)[t] == f || Mine(Column(s, r, m)[t], r, m)
  }

  lemma InnerOwns(s: seq<int>, r: nat, f: int, m: nat)
    requires Placed(s, f, m) && Inner(r, m)
    ensures OwnColumn(s, r, f, m)
  {
    forall t: nat | t < 3 ensures Column(s, r, m)[t] == f || Mine(Column(s, r, m)[t], r, m) {
      var x := Base(t, m) + r;
      assert Column(s, r, m)[t] == s[x];
      assert s[x] != f ==> AtOwn(s[x], x, m);
    }
  }

  lemma ColumnPresent(s: seq<int>, k: int, f: int, m: nat)
    requires Placed(s, f, m) && Key(k, m)
    ensures Present(s, k, m) <==> k in Column(s, Rem(k, m), m)
  {
    var c := Column(s, Rem(k, m), m);
    assert c[0] == s[Slot(0, k, m)] && c[1] == s[Slot(1, k, m)] && c[2] == s[Slot(2, k, m)];
  }

  // ---------------------------------------------------------------- the rotation law

  /** The depth below `c` at which table `t` was last written; -3, -2, -1 stand for the initial occupants. */
  function LastWrite(c: nat, t: nat): (d: int)
    requires t < 3
    ensures c - 3 <= d < c && (d - t) % 3 == 0
  {
    if t < c % 3 then c - c % 3 + t else c - c % 3 + t - 3
  }

  /** The column after `c` evictions: the new key and the three occupants rotate with period four. */
  function Rotated(q: seq<int>, c: nat): (col: seq<int>)
    requires |q| == 4
    ensures |col| == 3
  {
    [q[LastWrite(c, 0) % 4], q[LastWrite(c, 1) % 4], q[LastWrite(c, 2) % 4]]
  }

  ghost predicate FourKeys(q: seq<int>, r: nat, m: nat)
  {
    && |q| == 4 && r < m
    && (forall i | 0 <= i < 4 :: Mine(q[i], r, m))
    && (forall i, j | 0 <= i < j < 4 :: q[i] != q[j])
  }

  lemma WriteColumn(s: seq<int>, r: nat, m: nat, t: nat, k: int)
    requires Shape(s, m) && r < m && t < 3
    ensures var x := Base(t, m) + r;
            && x < |s| && s[x] == Column(s, r, m)[t]
            && Column(s[x := k], r, m) == Column(s, r, m)[t := k]
            && SameOutside(s, s[x := k], r, m)
  {
  }

  lemma WriteOwn(s: seq<int>, v: seq<int>, k: int, t: nat, r: nat, f: int, m: nat)
    requires Placed(s, f, m) && Mine(k, r, m) && t < 3
    requires k !in Column(s, r, m) && v == s[Base(t, m) + r := k]
    ensures Slot(t, k, m) == Base(t, m) + r && s[Base(t, m) + r] == Column(s, r, m)[t] && !Present(s, k, m)
    ensures Placed(v, f, m) && Column(v, r, m) == Column(s, r, m)[t := k] && SameOutside(s, v, r, m)
  {
    WriteColumn(s, r, m, t, k);
    ColumnPresent(s, k, f, m);
  }

  /** One step of a chain: an absent key takes the slot of its table, and the occupant is pending. */
  lemma PushInto(s: seq<int>, v: seq<int>, k: int, t: nat, cnt: nat, n: nat, r: nat, f: int, m: nat)
    requires Placed(s, f, m) && Mine(k, r, m) && t < 3 && cnt < n
    requires k !in Column(s, r, m) && Mine(Column(s, r, m)[t], r, m) && v == s[Base(t, m) + r := k]
    ensures var c := Column(s, r, m);
            && Placed(v, f, m) && Column(v, r, m) == c[t := k] && Key(c[t], m)
            && Place(s, k, t, cnt, n, f, m) == Place(v, c[t], (t + 1) % 3, cnt + 1, n, f, m)
            && SameOutside(s, v, r, m)
  {
    WriteOwn(s, v, k, t, r, f, m);
  }

  lemma LastWriteStep(c: nat, t: nat)
    requires t < 3
    ensures LastWrite(c, c % 3) == c - 3
    ensures LastWrite(c + 1, t) == if t == c % 3 then c else LastWrite(c, t)
  {
  }

  lemma FourPeriod(c: nat, d: int)
    ensures (c - 3) % 4 == (c + 1) % 4
    ensures c - 4 < d < c ==> d % 4 != c % 4
  {
  }

  /** One step: the pending key takes the slot of its table and the oldest of the other three is pending. */
  lemma RotateStep(q: seq<int>, c: nat)
    requires |q| == 4
    ensures Rotated(q, c)[c % 3] == q[(c + 1) % 4]
    ensures Rotated(q, c)[c % 3 := q[c % 4]] == Rotated(q, c + 1)
  {
    forall t: nat | t < 3
      ensures Rotated(q, c)[t] == q[LastWrite(c, t) % 4] && Rotated(q, c + 1)[t] == q[LastWrite(c + 1, t) % 4]
    {
      assert t == 0 || t == 1 || t == 2;
    }
    LastWriteStep(c, 0);
    LastWriteStep(c, 1);
    LastWriteStep(c, 2);
    FourPeriod(c, 0);
  }

  lemma PendingAbsent(q: seq<int>, c: nat, r: nat, m: nat)
    requires FourKeys(q, r, m)
    ensures q[c % 4] !in Rotated(q, c)
  {
    FourPeriod(c, LastWrite(c, 0));
    FourPeriod(c, LastWrite(c, 1));
    FourPeriod(c, LastWrite(c, 2));
  }

  lemma NextTable(c: nat)
    ensures (c % 3 + 1) % 3 == (c + 1) % 3
  {
  }

  lemma FourOf(q: seq<int>, r: nat, i: nat, m: nat)
    requires FourKeys(q, r, m) && i < 4
    ensures |q| == 4 && r < m && Mine(q[i], r, m)
  {
  }

  lemma RotateOnce(s: seq<int>, v: seq<int>, q: seq<int>, r: nat, c: nat, n: nat, f: int, m: nat)
    requires Placed(s, f, m) && FourKeys(q, r, m) && c < n
    requires Column(s, r, m) == Rotated(q, c) && v == s[Base(c % 3, m) + r := q[c % 4]]
    ensures Placed(v, f, m) && Column(v, r, m) == Rotated(q, c + 1) && SameOutside(s, v, r, m)
    ensures Place(s, q[c % 4], c % 3, c, n, f, m) == Place(v, q[(c + 1) % 4], (c + 1) % 3, c + 1, n, f, m)
  {
    hide *;
    FourOf(q, r, c % 4, m);
    FourOf(q, r, (c + 1) % 4, m);
    PendingAbsent(q, c, r, m);
    RotateStep(q, c);
    NextTable(c);
    PushInto(s, v, q[c % 4], c % 3, c, n, r, f, m);
  }

  lemma {:induction false} Rotate(s: seq<int>, q: seq<int>, r: nat, c: nat, n: nat, f: int, m: nat)
    requires Placed(s, f, m) && FourKeys(q, r, m) && c <= n
    requires Column(s, r, m) == Rotated(q, c)
    ensures var (u, lost) := Place(s, q[c % 4], c % 3, c, n, f, m);
            Column(u, r, m) == Rotated(q, n) && lost == Some(q[n % 4]) && SameOutside(s, u, r, m)
    decreases n - c
  {
    if c < n {
      var v := s[Base(c % 3, m) + r := q[c % 4]];
      RotateOnce(s, v, q, r, c, n, f, m);
      Rotate(v, q, r, c + 1, n, f, m);
    }
  }

  /** On a residue whose slots hold three keys of its own, the key that the bound `n` drops is decided by n mod 4
      alone, and it is the new key exactly when 4 divides `n`. */
  lemma RotationLaw(s: seq<int>, k: int, n: nat, f: int, m: nat)
    requires Placed(s, f, m) && Key(k, m) && FourKeys([k] + Column(s, Rem(k, m), m), Rem(k, m), m)
    ensures var r, (u, lost) := Rem(k, m), Place(s, k, 0, 0, n, f, m);
            var q := [k] + Column(s, r, m);
            && lost == Some(q[n % 4]) && (lost == Some(k) <==> n % 4 == 0)
            && Column(u, r, m) == Rotated(q, n) && SameOutside(s, u, r, m)
  {
    var r := Rem(k, m);
    var q := [k] + Column(s, r, m);
    assert Rotated(q, 0) == Column(s, r, m) by {
      assert LastWrite(0, 0) == -3 && LastWrite(0, 1) == -2 && LastWrite(0, 2) == -1;
    }
    Rotate(s, q, r, 0, n, f, m);
  }

  // ---------------------------------------------------------------- the server's bound, n = 3

  /** Slots not yet used come last. */
  predicate Packed(c: seq<int>, f: int)
    requires |c| == 3
  {
    (c[0] == f ==> c[1] == f) && (c[1] == f ==> c[2] == f)
  }

  /** Two residues that share no slot. */
  predicate Apart(q: int, r: nat, m: nat)
  {
    0 <= q < m && r < m && q != r && (Inner(q, m) || Inner(r, m))
  }

  /** Displaced fillers do not come to the residue's slots. */
  predicate Aside(r: nat, f: int, m: nat)
    requires m > 1
  {
    r < m && (f == EMPTY || Apart(Rem(Narrow(f), m), r, m))
  }

  /** Chains of residues apart do not touch the column. */
  lemma {:induction false} OtherChain(s: seq<int>, k: int, r: nat, t: nat, cnt: nat, n: nat, f: int, m: nat)
    requires Placed(s, f, m) && Key(k, m) && Aside(r, f, m) && Apart(Rem(k, m), r, m) && t < 3 && cnt <= n
    ensures Column(Place(s, k, t, cnt, n, f, m).0, r, m) == Column(s, r, m)
    decreases n - cnt
  {
    if cnt < n && !Present(s, k, m) {
      var x := Slot(t, k, m);
      assert x != r && x != m - 1 + r && x != 2 * (m - 1) + r;
      if s[x] != EMPTY {
        assert s[x] != f ==> AtOwn(s[x], x, m);
        assert Apart(Rem(Narrow(s[x]), m), r, m);
        OtherChain(s[x := k], Narrow(s[x]), r, (t + 1) % 3, cnt + 1, n, f, m);
      }
    }
  }

  /** A chain of the filler's residue stays there, if it is inner. */
  lemma {:induction false} FillerChain(s: seq<int>, k: int, t: nat, cnt: nat, n: nat, f: int, m: nat)
    requires Placed(s, f, m) && f != EMPTY && Key(k, m) && Rem(k, m) == Rem(Narrow(f), m) && t < 3 && cnt <= n
    requires Inner(Rem(k, m), m)
    ensures var (u, lost) := Place(s, k, t, cnt, n, f, m);
            SameOutside(s, u, Rem(k, m), m) && (lost.Some? ==> Mine(lost.value, Rem(k, m), m))
    decreases n - cnt
  {
    if cnt < n && !Present(s, k, m) {
      var x := Slot(t, k, m);
      assert s[x] != f ==> AtOwn(s[x], x, m);
      assert Rem(Narrow(s[x]), m) == Rem(k, m);
      FillerChain(s[x := k], Narrow(s[x]), (t + 1) % 3, cnt + 1, n, f, m);
    }
  }

  /** The columns of two residues are all that changes. */
  ghost predicate SameOutsideTwo(s: seq<int>, u: seq<int>, r: nat, q: nat, m: nat)
  {
    && |u| == |s|
    && forall x | 0 <= x < |s| && x != r && x != m - 1 + r && x != 2 * (m - 1) + r &&
                  x != q && x != m - 1 + q && x != 2 * (m - 1) + q :: u[x] == s[x]
  }

  /** What a displaced filler does elsewhere: if its residue is inner, it stays there and can push out a key there. */
  ghost predicate FillerGoes(s: seq<int>, u: seq<int>, lost: Option<int>, r: nat, f: int, m: nat)
    requires m > 1
  {
    if f == EMPTY then SameOutside(s, u, r, m) && lost == None
    else
      var q := Rem(Narrow(f), m);
      Inner(q, m) ==> SameOutsideTwo(s, u, r, q, m) && (lost.Some? ==> Mine(lost.value, q, m))
  }

  /** The last step in the column: the pending key finds its slot unused, and a filler it displaces goes elsewhere. */
  lemma PushLast(s: seq<int>, k: int, t: nat, cnt: nat, n: nat, r: nat, f: int, m: nat)
    requires Placed(s, f, m) && Mine(k, r, m) && Aside(r, f, m) && t < 3 && cnt < n
    requires k !in Column(s, r, m) && Column(s, r, m)[t] == f
    ensures var (u, lost) := Place(s, k, t, cnt, n, f, m);
            Column(u, r, m) == Column(s, r, m)[t := k] && FillerGoes(s, u, lost, r, f, m)
  {
    var v := s[Base(t, m) + r := k];
    WriteOwn(s, v, k, t, r, f, m);
    if f != EMPTY {
      var (u, lost) := Place(v, Narrow(f), (t + 1) % 3, cnt + 1, n, f, m);
      assert Place(s, k, t, cnt, n, f, m) == (u, lost);
      hide Place, Placed;
      FillerApart(v, u, lost, (t + 1) % 3, cnt + 1, n, r, f, m);
    }
  }

  /** The displaced filler's own chain. */
  lemma FillerApart(v: seq<int>, u: seq<int>, lost: Option<int>, t: nat, cnt: nat, n: nat, r: nat, f: int, m: nat)
    requires Placed(v, f, m) && Aside(r, f, m) && f != EMPTY && t < 3 && cnt <= n
    requires (u, lost) == Place(v, Narrow(f), t, cnt, n, f, m)
    ensures |u| == |v| && Column(u, r, m) == Column(v, r, m)
    ensures var q := Rem(Narrow(f), m);
            Inner(q, m) ==> SameOutside(v, u, q, m) && (lost.Some? ==> Mine(lost.value, q, m))
  {
    var q := Rem(Narrow(f), m);
    OtherChain(v, Narrow(f), r, t, cnt, n, f, m);
    if Inner(q, m) {
      FillerChain(v, Narrow(f), t, cnt, n, f, m);
    }
  }

  lemma ColumnDistinct(s: seq<int>, r: nat, f: int, m: nat)
    requires Shape(s, m) && Distinct(s, f) && r < m
    ensures var c := Column(s, r, m); forall i, j | 0 <= i < j < 3 && c[i] != f :: c[i] != c[j]
  {
  }

  /** A column into which `k` has been pushed at table `t`: what was there moves up by one. */
  function Pushed(c: seq<int>, t: nat, k: int): (d: seq<int>)
    requires |c| == 3
    ensures |d| == 3
  {
    seq(3, i requires 0 <= i < 3 => if i < t then c[i] else if i == t then k else c[i - 1])
  }

  /** The pending key is absent, what it will push is distinct, and unused slots come last. */
  predicate Shiftable(c: seq<int>, t: nat, k: int, f: int)
    requires |c| == 3
  {
    && k !in c
    && (forall i, j | 0 <= i < j < 3 && t <= j && c[j] != f :: c[i] != c[j])
    && (forall i | t <= i < 2 && c[i] == f :: c[i + 1] == f)
  }

  lemma PushedOnce(c: seq<int>, t: nat, k: int, f: int)
    requires |c| == 3 && t < 3 && Shiftable(c, t, k, f)
    ensures c[t] == f ==> Pushed(c, t, k) == c[t := k]
    ensures c[t] != f ==> Shiftable(c[t := k], t + 1, c[t], f)
    ensures c[t] != f ==> Pushed(c, t, k) == Pushed(c[t := k], t + 1, c[t])
  {
  }

  /** What the call loses: the occupant of the last table. */
  function LastOut(c: seq<int>, t: nat, k: int, f: int): Option<int>
    requires |c| == 3
  {
    if t >= 3 then Some(k) else if c[2] == f then None else Some(c[2])
  }

  /** The column is pushed up; nothing else changes unless a filler is displaced. */
  ghost predicate Shifts(s: seq<int>, t: nat, u: seq<int>, lost: Option<int>, k: int, r: nat, f: int, m: nat)
  {
    && Shape(s, m) && Shape(u, m) && r < m
    && var c := Column(s, r, m);
    && Column(u, r, m) == Pushed(c, t, k)
    && (if t >= 3 || c[2] != f then SameOutside(s, u, r, m) && lost == LastOut(c, t, k, f)
        else FillerGoes(s, u, lost, r, f, m))
  }

  lemma ShiftsNone(s: seq<int>, k: int, r: nat, f: int, m: nat)
    requires Shape(s, m) && r < m
    ensures Shifts(s, 3, s, Some(k), k, r, f, m)
  {
  }

  lemma ShiftsLast(s: seq<int>, t: nat, u: seq<int>, lost: Option<int>, k: int, r: nat, f: int, m: nat)
    requires Shape(s, m) && Shape(u, m) && r < m && t < 3 && Shiftable(Column(s, r, m), t, k, f)
    requires Column(s, r, m)[t] == f && Column(u, r, m) == Column(s, r, m)[t := k]
    requires FillerGoes(s, u, lost, r, f, m)
    ensures Shifts(s, t, u, lost, k, r, f, m)
  {
    var c := Column(s, r, m);
    PushedOnce(c, t, k, f);
    assert t < 2 ==> c[t + 1] == f;
    assert c[2] == f;
    hide Column, Pushed, FillerGoes;
  }

  lemma FillerLater(s: seq<int>, v: seq<int>, u: seq<int>, lost: Option<int>, r: nat, f: int, m: nat)
    requires m > 1 && SameOutside(s, v, r, m) && FillerGoes(v, u, lost, r, f, m)
    ensures FillerGoes(s, u, lost, r, f, m)
  {
  }

  lemma ShiftsMore(s: seq<int>, t: nat, v: seq<int>, u: seq<int>, lost: Option<int>, k: int, r: nat, f: int, m: nat)
    requires Shape(s, m) && Shape(v, m) && r < m && t < 3 && Shiftable(Column(s, r, m), t, k, f)
    requires Column(s, r, m)[t] != f && Column(v, r, m) == Column(s, r, m)[t := k] && SameOutside(s, v, r, m)
    requires Shifts(v, t + 1, u, lost, Column(s, r, m)[t], r, f, m)
    ensures Shifts(s, t, u, lost, k, r, f, m)
  {
    PushedOnce(Column(s, r, m), t, k, f);
    var c, d := Column(s, r, m), Column(v, r, m);
    if t + 1 < 3 && d[2] == f {
      FillerLater(s, v, u, lost, r, f, m);
      assert c[2] == f;
      hide Column, Pushed, Shiftable, FillerGoes;
    } else {
      hide Column, Pushed, Shiftable, FillerGoes;
    }
  }

  /** The table of the t-th key of a chain. */
  function Turn(t: nat): (i: nat)
    requires t <= 3
    ensures i < 3
  {
    if t == 3 then 0 else t
  }

  lemma NextTurn(t: nat)
    requires t < 3
    ensures Turn(t) == t && Turn(t + 1) == (t + 1) % 3
  {
  }

  lemma PlacedShape(s: seq<int>, f: int, m: nat)
    requires Placed(s, f, m)
    ensures Shape(s, m) && Filler(f, m)
  {
  }

  lemma BaseInside(t: nat, r: nat, m: nat)
    requires t < 3 && m > 1 && r < m
    ensures Base(t, m) + r < 3 * m
  {
  }

  lemma OwnColumnAt(s: seq<int>, r: nat, t: nat, f: int, m: nat)
    requires OwnColumn(s, r, f, m) && t < 3
    ensures Column(s, r, m)[t] == f || Mine(Column(s, r, m)[t], r, m)
  {
  }

  lemma OwnColumnPushed(s: seq<int>, v: seq<int>, r: nat, t: nat, k: int, f: int, m: nat)
    requires OwnColumn(s, r, f, m) && t < 3 && Mine(k, r, m)
    requires Shape(v, m) && Column(v, r, m) == Column(s, r, m)[t := k]
    ensures OwnColumn(v, r, f, m)
  {
  }

  /** The bound is the server's, or slot `j` is free and reached in time. */
  predicate InTime(c: seq<int>, t: nat, n: nat, j: nat, f: int)
    requires |c| == 3
  {
    n == 3 || (t <= j < n && j < 3 && c[j] == f)
  }

  lemma InTimeNext(c: seq<int>, t: nat, k: int, n: nat, j: nat, f: int)
    requires |c| == 3 && InTime(c, t, n, j, f) && t < 3 && t <= n
    ensures t < n
    ensures c[t] != f ==> InTime(c[t := k], t + 1, n, j, f) && t + 1 <= n
  {
  }

  /** From table `t` on, as the t-th key of its chain: what is in the column moves up by one table. */
  lemma {:induction false} Ripple(s: seq<int>, t: nat, k: int, r: nat, n: nat, j: nat, f: int, m: nat)
    requires m > 1 && |s| == 3 * m && r < m && t <= 3 && t <= n && (t == 3 ==> n == 3)
    requires Placed(s, f, m) && Key(k, m) && Mine(k, r, m) && Aside(r, f, m) && OwnColumn(s, r, f, m)
    requires Shiftable(Column(s, r, m), t, k, f) && InTime(Column(s, r, m), t, n, j, f)
    ensures var (u, lost) := Place(s, k, Turn(t), t, n, f, m); Shifts(s, t, u, lost, k, r, f, m)
    decreases 3 - t
  {
    var (u, lost) := Place(s, k, Turn(t), t, n, f, m);
    if t == 3 {
      ShiftsNone(s, k, r, f, m);
    } else {
      hide *;
      NextTurn(t);
      PlacedShape(s, f, m);
      BaseInside(t, r, m);
      var c := Column(s, r, m);
      var v := s[Base(t, m) + r := k];
      PlacedShape(u, f, m);
      PushedOnce(c, t, k, f);
      InTimeNext(c, t, k, n, j, f);
      ShiftableAbsent(c, t, k, f);
      if c[t] == f {
        PushLast(s, k, t, t, n, r, f, m);
        ShiftsLast(s, t, u, lost, k, r, f, m);
      } else {
        OwnColumnAt(s, r, t, f, m);
        PushInto(s, v, k, t, t, n, r, f, m);
        PlacedShape(v, f, m);
        OwnColumnPushed(s, v, r, t, k, f, m);
        LastInTime(c, t, n, j, f);
        Ripple(v, t + 1, c[t], r, n, j, f, m);
        ShiftsMore(s, t, v, u, lost, k, r, f, m);
      }
    }
  }

  lemma LastInTime(c: seq<int>, t: nat, n: nat, j: nat, f: int)
    requires |c| == 3 && t < 3 && InTime(c, t, n, j, f) && c[t] != f
    ensures t + 1 == 3 ==> n == 3
  {
  }

  lemma ShiftableAbsent(c: seq<int>, t: nat, k: int, f: int)
    requires |c| == 3 && Shiftable(c, t, k, f)
    ensures k !in c
  {
  }

  /** With the server's bound, for every residue whose slots hold only keys of its own: a new key enters at the front,
      the others move up one table, and only the occupant of the last table is dropped; a key already there changes
      nothing.  A displaced filler goes to its own residue, and if that is inner it stays there.  So it is with any
      other bound that lets the chain reach a free slot. */
  lemma PlaceShifts(s: seq<int>, k: int, n: nat, j: nat, f: int, m: nat)
    requires Placed(s, f, m) && Distinct(s, f) && Key(k, m) && Aside(Rem(k, m), f, m)
    requires OwnColumn(s, Rem(k, m), f, m) && Packed(Column(s, Rem(k, m), m), f)
    requires n > 0 && InTime(Column(s, Rem(k, m), m), 0, n, j, f)
    ensures var r, (u, lost) := Rem(k, m), Place(s, k, 0, 0, n, f, m);
            var c := Column(s, r, m);
            if k in c then u == s && lost == None
            else && Column(u, r, m) == [k, c[0], c[1]]
                 && (if c[2] != f then SameOutside(s, u, r, m) && lost == Some(c[2])
                     else FillerGoes(s, u, lost, r, f, m))
  {
    var r := Rem(k, m);
    ColumnPresent(s, k, f, m);
    if k !in Column(s, r, m) {
      ColumnDistinct(s, r, f, m);
      hide Place, Placed, Present, Distinct, Aside, Column, SameOutside, OwnColumn, FillerGoes, InTime;
      Ripple(s, 0, k, r, n, j, f, m);
    }
  }
}
