/** What the bound of Pilaf's placement means: it cuts the chain off, and nothing else. */
module CuckooBounds {
  import opened CRemainder
  import opened Cuckoo
  import opened Options

  /** Only the number of calls left matters. */
  lemma {:induction false} CallsLeft(s: seq<int>, k: int, t: nat, cnt: nat, n: nat, e: nat, f: int, m: nat)
    requires Placed(s, f, m) && Key(k, m) && t < 3 && cnt <= n
    ensures Place(s, k, t, cnt + e, n + e, f, m) == Place(s, k, t, cnt, n, f, m)
    decreases n - cnt
  {
    if cnt < n && !Present(s, k, m) && s[Slot(t, k, m)] != EMPTY {
      var x := Slot(t, k, m);
      CallsLeft(s[x := k], Narrow(s[x]), (t + 1) % 3, cnt + 1, n, e, f, m);
    }
  }

  /** The table that a chain comes to after `a` calls from table `t`. */
  function Later(t: nat, a: nat): (r: nat)
    ensures r < 3
  {
    (t + a) % 3
  }

  lemma LaterNext(t: nat, a: nat)
    requires t < 3 && a > 0
    ensures Later(t, 1) == (t + 1) % 3 && Later(Later(t, 1), a - 1) == Later(t, a)
  {
  }

  /** Placing what a call has dropped, in table `t`. */
  function Resumed(r: (seq<int>, Option<int>), t: nat, n: nat, f: int, m: nat): (seq<int>, Option<int>)
    requires Placed(r.0, f, m) && t < 3 && (r.1.Some? ==> Key(r.1.value, m))
  {
    match r.1 case None => r case Some(k) => Place(r.0, k, t, 0, n, f, m)
  }

  lemma ChainStep(s: seq<int>, k: int, t: nat, n: nat, f: int, m: nat)
    requires Placed(s, f, m) && Key(k, m) && t < 3 && n > 0 && !Present(s, k, m) && s[Slot(t, k, m)] != EMPTY
    ensures var x := Slot(t, k, m);
            && Placed(s[x := k], f, m) && Key(Narrow(s[x]), m)
            && Place(s, k, t, 0, n, f, m) == Place(s[x := k], Narrow(s[x]), Later(t, 1), 0, n - 1, f, m)
  {
    var x := Slot(t, k, m);
    CallsLeft(s[x := k], Narrow(s[x]), (t + 1) % 3, 0, n - 1, 1, f, m);
  }

  /** A chain that has ended, or not begun. */
  lemma ChainOver(s: seq<int>, k: int, t: nat, a: nat, b: nat, f: int, m: nat)
    requires Placed(s, f, m) && Key(k, m) && t < 3 && (a == 0 || Present(s, k, m) || s[Slot(t, k, m)] == EMPTY)
    ensures var r := Place(s, k, t, 0, a, f, m);
            && (r.1.Some? ==> Key(r.1.value, m))
            && Place(s, k, t, 0, a + b, f, m) == Resumed(r, Later(t, a), b, f, m)
  {
  }

  /** The bound does nothing but cut the chain off: a bound of `a + b` does what a bound of `a` does and then places
      the key that one drops, in the table where the chain has come to, with a bound of `b`. */
  lemma {:induction false} ChainResumes(s: seq<int>, k: int, t: nat, a: nat, b: nat, f: int, m: nat)
    requires Placed(s, f, m) && Key(k, m) && t < 3
    ensures var r := Place(s, k, t, 0, a, f, m);
            && (r.1.Some? ==> Key(r.1.value, m))
            && Place(s, k, t, 0, a + b, f, m) == Resumed(r, Later(t, a), b, f, m)
    decreases a
  {
    var x := Slot(t, k, m);
    assert |s| == 3 * m;
    hide *;
    if a == 0 || Present(s, k, m) || s[x] == EMPTY {
      ChainOver(s, k, t, a, b, f, m);
    } else {
      var v, g, next := s[x := k], Narrow(s[x]), Later(t, 1);
      ChainStep(s, k, t, a, f, m);
      ChainStep(s, k, t, a + b, f, m);
      LaterNext(t, a);
      assert a + b - 1 == a - 1 + b;
      ChainResumes(v, g, next, a - 1, b, f, m);
    }
  }
}
