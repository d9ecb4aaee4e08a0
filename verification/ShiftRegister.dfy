/** Linear shift registers over any kind of word.  A register takes in a message bit by bit; a few laws of
    one turn decide which errors it detects.  Crc64Word instantiates them with 64-bit words. */
module ShiftRegister {

  /** One turn with a message bit, the difference of two words, the zero word, the lowest bit, the shift
      downwards, and which words fit into the lowest `n` places. */
  datatype Register<!W(!new)> = Register(
    take: (W, bool) -> W,
    diff: (W, W) -> W,
    zero: W,
    low: W -> bool,
    down: W -> W,
    fits: (nat, W) -> bool)

  /** The width of a word in bits. */
  const WIDTH := 64

  /** The difference of two registers takes in the difference of their messages. */
  ghost predicate Superposes<W(!new)>(g: Register<W>)
  {
    forall x, y, a, b :: g.diff(g.take(x, a), g.take(y, b)) == g.take(g.diff(x, y), a != b)
  }

  ghost predicate Subtracts<W(!new)>(g: Register<W>)
  {
    && (forall x, y :: g.diff(x, y) == g.zero <==> x == y)
    && (forall x :: g.diff(x, g.zero) == x)
    && g.take(g.zero, false) == g.zero
  }

  ghost predicate Lossless<W(!new)>(g: Register<W>)
  {
    forall x, y, b {:trigger g.take(x, b), g.take(y, b)} :: g.take(x, b) == g.take(y, b) ==> x == y
  }

  /** A bit may as well be added to the word beforehand. */
  ghost predicate Absorbs<W(!new)>(g: Register<W>)
  {
    forall x, p :: g.take(g.diff(x, p), false) == g.diff(g.take(x, g.low(p)), g.down(p))
  }

  /** A turn shifts down by one place, and a lone bit that falls out comes back at the top. */
  ghost predicate Bounded<W(!new)>(g: Register<W>)
  {
    && (forall w :: g.fits(0, w) <==> w == g.zero)
    && (forall n: nat, w, b {:trigger g.fits(n, g.take(w, b))} ::
          n < WIDTH && g.fits(n, g.take(w, b)) ==> g.fits(n + 1, w))
    && (forall n: nat :: n < WIDTH ==> !g.fits(n, g.take(g.zero, true)))
  }

  ghost predicate Lawful<W(!new)>(g: Register<W>)
  {
    Superposes(g) && Subtracts(g) && Lossless(g) && Absorbs(g) && Bounded(g)
  }

  /** The register after a series of message bits. */
  function Serial<W(!new)>(g: Register<W>, c: W, bits: seq<bool>): W
    decreases |bits|
  {
    if bits == [] then c else Serial(g, g.take(c, bits[0]), bits[1..])
  }

  // ---------------------------------------------------------------- superposition

  function XorBits(a: seq<bool>, b: seq<bool>): (r: seq<bool>)
    requires |a| == |b|
    ensures |r| == |a|
  {
    seq(|a|, i requires 0 <= i < |a| => a[i] != b[i])
  }

  function Zeros(n: nat): (r: seq<bool>)
    ensures |r| == n
  {
    seq(n, _ => false)
  }

  /** The register of a difference is the difference of the registers. */
  lemma {:induction false} SerialLinear<W(!new)>(g: Register<W>, c: W, d: W, a: seq<bool>, b: seq<bool>)
    requires Superposes(g) && |a| == |b|
    ensures Serial(g, g.diff(c, d), XorBits(a, b)) == g.diff(Serial(g, c, a), Serial(g, d, b))
    decreases |a|
  {
    if a != [] {
      assert XorBits(a, b)[1..] == XorBits(a[1..], b[1..]);
      assert g.take(g.diff(c, d), a[0] != b[0]) == g.diff(g.take(c, a[0]), g.take(d, b[0]));
      SerialLinear(g, g.take(c, a[0]), g.take(d, b[0]), a[1..], b[1..]);
    }
  }

  lemma {:induction false} SerialConcat<W(!new)>(g: Register<W>, c: W, a: seq<bool>, b: seq<bool>)
    ensures Serial(g, c, a + b) == Serial(g, Serial(g, c, a), b)
    decreases |a|
  {
    if a == [] {
      assert a + b == b;
    } else {
      assert (a + b)[1..] == a[1..] + b;
      SerialConcat(g, g.take(c, a[0]), a[1..], b);
    }
  }

  // ---------------------------------------------------------------- absorbing a block

  function LowBits<W(!new)>(g: Register<W>, p: W, n: nat): (r: seq<bool>)
    ensures |r| == n
    decreases n
  {
    if n == 0 then [] else [g.low(p)] + LowBits(g, g.down(p), n - 1)
  }

  function Down<W(!new)>(g: Register<W>, p: W, n: nat): W
    decreases n
  {
    if n == 0 then p else Down(g, g.down(p), n - 1)
  }

  /** Adding a word and then shifting it out is the same as taking in its bits. */
  lemma {:induction false} AbsorbBits<W(!new)>(g: Register<W>, s: W, p: W, n: nat)
    requires Absorbs(g)
    ensures Serial(g, g.diff(s, p), Zeros(n)) == g.diff(Serial(g, s, LowBits(g, p, n)), Down(g, p, n))
    decreases n
  {
    if n > 0 {
      assert Zeros(n)[1..] == Zeros(n - 1);
      assert LowBits(g, p, n)[1..] == LowBits(g, g.down(p), n - 1);
      AbsorbBits(g, g.take(s, g.low(p)), g.down(p), n - 1);
    }
  }

  /** A block `p` taken in bit by bit leaves the difference of what its parts leave when shifted out. */
  lemma BlockSplits<W(!new)>(g: Register<W>, c: W, p: W, x: W, y: W, n: nat)
    requires Superposes(g) && Subtracts(g) && Absorbs(g)
    requires g.diff(c, p) == g.diff(x, y) && Down(g, p, n) == g.zero
    ensures Serial(g, c, LowBits(g, p, n)) == g.diff(Serial(g, x, Zeros(n)), Serial(g, y, Zeros(n)))
  {
    AbsorbBits(g, c, p, n);
    SerialLinear(g, x, y, Zeros(n), Zeros(n));
    assert XorBits(Zeros(n), Zeros(n)) == Zeros(n);
  }

  // ---------------------------------------------------------------- eight turns, written out

  lemma {:induction false} TurnsFrom<W(!new)>(g: Register<W>, c: seq<W>, i: nat)
    requires |c| == 9 && i <= 8 && forall k | 0 <= k < 8 :: g.take(c[k], false) == c[k + 1]
    ensures Serial(g, c[i], Zeros(8 - i)) == c[8]
    decreases 8 - i
  {
    if i < 8 {
      assert Zeros(8 - i)[1..] == Zeros(7 - i);
      assert g.take(c[i], false) == c[i + 1];
      TurnsFrom(g, c, i + 1);
    }
  }

  lemma {:induction false} LowBitsFrom<W(!new)>(g: Register<W>, p: seq<W>, i: nat)
    requires |p| == 9 && i <= 8 && forall k | 0 <= k < 8 :: g.down(p[k]) == p[k + 1]
    ensures Down(g, p[i], 8 - i) == p[8]
    ensures forall k | i <= k < 8 :: LowBits(g, p[i], 8 - i)[k - i] == g.low(p[k])
    decreases 8 - i
  {
    if i < 8 {
      assert g.down(p[i]) == p[i + 1];
      LowBitsFrom(g, p, i + 1);
    }
  }

  // ---------------------------------------------------------------- error detection

  /** For a fixed message different start values stay different. */
  lemma {:induction false} SerialInjective<W(!new)>(g: Register<W>, x: W, y: W, bits: seq<bool>)
    requires Lossless(g) && Serial(g, x, bits) == Serial(g, y, bits)
    ensures x == y
    decreases |bits|
  {
    if bits != [] {
      var b := bits[0];
      SerialInjective(g, g.take(x, b), g.take(y, b), bits[1..]);
    }
  }

  /** A register that some bits bring to zero held no more than that many bits. */
  lemma {:induction false} BackFits<W(!new)>(g: Register<W>, w: W, bits: seq<bool>)
    requires Bounded(g) && |bits| <= WIDTH && Serial(g, w, bits) == g.zero
    ensures g.fits(|bits|, w)
    decreases |bits|
  {
    if bits != [] {
      var n, b := |bits| - 1, bits[0];
      BackFits(g, g.take(w, b), bits[1..]);
      assert g.fits(n, g.take(w, b));
    }
  }

  /** An error pattern of at most a word does not go unnoticed on its own. */
  lemma {:induction false} PatternNoticed<W(!new)>(g: Register<W>, e: seq<bool>)
    requires Subtracts(g) && Bounded(g) && |e| <= WIDTH && true in e
    ensures Serial(g, g.zero, e) != g.zero
    decreases |e|
  {
    if e[0] {
      var w := g.take(g.zero, true);
      if Serial(g, w, e[1..]) == g.zero {
        BackFits(g, w, e[1..]);
      }
    } else {
      PatternNoticed(g, e[1..]);
    }
  }

  lemma BlocksDiffer<W(!new)>(g: Register<W>, s: W, a: seq<bool>, b: seq<bool>)
    requires Superposes(g) && Subtracts(g) && Bounded(g) && |a| == |b| <= WIDTH && a != b
    ensures Serial(g, s, a) != Serial(g, s, b)
  {
    var e := XorBits(a, b);
    var i :| 0 <= i < |a| && a[i] != b[i];
    assert e[i];
    assert g.diff(s, s) == g.zero;
    SerialLinear(g, s, s, a, b);
    PatternNoticed(g, e);
    assert g.diff(Serial(g, s, a), Serial(g, s, b)) != g.zero;
  }

  /** Every error burst of at most one word of bits, at any bit position, changes the register. */
  lemma BurstDetected<W(!new)>(g: Register<W>, c: W, pre: seq<bool>, a: seq<bool>, b: seq<bool>, post: seq<bool>)
    requires Lawful(g) && |a| == |b| <= WIDTH && a != b
    ensures Serial(g, c, pre + a + post) != Serial(g, c, pre + b + post)
  {
    var s := Serial(g, c, pre);
    SerialConcat(g, c, pre + a, post);
    SerialConcat(g, c, pre, a);
    SerialConcat(g, c, pre + b, post);
    SerialConcat(g, c, pre, b);
    BlocksDiffer(g, s, a, b);
    if Serial(g, c, pre + a + post) == Serial(g, c, pre + b + post) {
      SerialInjective(g, Serial(g, s, a), Serial(g, s, b), post);
    }
  }

  /** A register computes whatever its single turns simulate. */
  lemma {:induction false} SerialSimulates<W(!new), V>(
    g: Register<W>, read: W -> V, next: (V, bool) -> V, c: W, bits: seq<bool>)
    requires forall s, b :: read(g.take(s, b)) == next(read(s), b)
    ensures read(Serial(g, c, bits)) == Fold(next, read(c), bits)
    decreases |bits|
  {
    if bits != [] {
      SerialSimulates(g, read, next, g.take(c, bits[0]), bits[1..]);
    }
  }

  // ---------------------------------------------------------------- division as it is written down

  /** How a register is read as the remainder of a long division: `read` turns the word around, `up` and `top`
      are the shift and the leading coefficient on that side, `word` and `lead` place a message bit. */
  datatype Reading<!W(!new)> = Reading(
    read: W -> W,
    up: W -> W,
    top: W -> bool,
    poly: W,
    generator: W,
    word: bool -> W,
    lead: bool -> W)

  /** A turn with the message bit already added. */
  function Turn<W(!new)>(g: Register<W>, d: Reading<W>, x: W): W {
    if g.low(x) then g.diff(g.down(x), d.poly) else g.down(x)
  }

  /** The next message bit joins the leading coefficient, and a leading one subtracts the generator. */
  function Divide<W(!new)>(g: Register<W>, d: Reading<W>, r: W, b: bool): W {
    var t := g.diff(r, d.lead(b));
    if d.top(t) then g.diff(d.up(t), d.generator) else d.up(t)
  }

  ghost predicate Reads<W(!new)>(g: Register<W>, d: Reading<W>)
  {
    && (forall x, b :: g.take(x, b) == Turn(g, d, g.diff(x, d.word(b))))
    && (forall x :: d.read(g.down(x)) == d.up(d.read(x)))
    && (forall x :: d.read(g.diff(x, d.poly)) == g.diff(d.read(x), d.generator))
    && (forall x, b :: d.read(g.diff(x, d.word(b))) == g.diff(d.read(x), d.lead(b)))
    && (forall x :: d.top(d.read(x)) == g.low(x))
  }

  /** Turned around, one turn of the register is one step of the division. */
  lemma TurnDivides<W(!new)>(g: Register<W>, d: Reading<W>, x: W, b: bool)
    requires Reads(g, d)
    ensures d.read(g.take(x, b)) == Divide(g, d, d.read(x), b)
  {
    var e := g.diff(x, d.word(b));
    assert g.take(x, b) == Turn(g, d, e);
    assert d.read(e) == g.diff(d.read(x), d.lead(b));
    assert d.read(g.diff(g.down(e), d.poly)) == g.diff(d.read(g.down(e)), d.generator);
  }

  // ---------------------------------------------------------------- messages in larger units

  function Fold<S, I>(f: (S, I) -> S, s: S, xs: seq<I>): S
    decreases |xs|
  {
    if xs == [] then s else Fold(f, f(s, xs[0]), xs[1..])
  }

  lemma {:induction false} FoldConcat<S, I>(f: (S, I) -> S, s: S, xs: seq<I>, ys: seq<I>)
    ensures Fold(f, s, xs + ys) == Fold(f, Fold(f, s, xs), ys)
    decreases |xs|
  {
    if xs == [] {
      assert xs + ys == ys;
    } else {
      assert (xs + ys)[1..] == xs[1..] + ys;
      FoldConcat(f, f(s, xs[0]), xs[1..], ys);
    }
  }

  /** A fold can be followed state by state. */
  lemma {:induction false} FoldTrace<S, I>(f: (S, I) -> S, states: seq<S>, xs: seq<I>, i: nat)
    requires |states| == |xs| + 1 && i <= |xs|
    requires forall k | 0 <= k < |xs| :: f(states[k], xs[k]) == states[k + 1]
    ensures Fold(f, states[i], xs[i..]) == states[|xs|]
    decreases |xs| - i
  {
    if i < |xs| {
      assert xs[i..][1..] == xs[i + 1..];
      assert f(states[i], xs[i]) == states[i + 1];
      FoldTrace(f, states, xs, i + 1);
    }
  }

  lemma FoldNine<S, I>(f: (S, I) -> S, s0: S, s1: S, s2: S, s3: S, s4: S, s5: S, s6: S, s7: S, s8: S, s9: S,
                       x1: I, x2: I, x3: I, x4: I, x5: I, x6: I, x7: I, x8: I, x9: I)
    requires f(s0, x1) == s1 && f(s1, x2) == s2 && f(s2, x3) == s3
    requires f(s3, x4) == s4 && f(s4, x5) == s5 && f(s5, x6) == s6
    requires f(s6, x7) == s7 && f(s7, x8) == s8 && f(s8, x9) == s9
    ensures Fold(f, s0, [x1, x2, x3, x4, x5, x6, x7, x8, x9]) == s9
  {
    var states := [s0, s1, s2, s3, s4, s5, s6, s7, s8, s9];
    FoldTrace(f, states, [x1, x2, x3, x4, x5, x6, x7, x8, x9], 0);
  }

  function Flat<I>(bits: I -> seq<bool>, xs: seq<I>): seq<bool>
  {
    if xs == [] then [] else bits(xs[0]) + Flat(bits, xs[1..])
  }

  lemma {:induction false} FlatConcat<I>(bits: I -> seq<bool>, xs: seq<I>, ys: seq<I>)
    ensures Flat(bits, xs + ys) == Flat(bits, xs) + Flat(bits, ys)
  {
    if xs == [] {
      assert xs + ys == ys;
    } else {
      assert (xs + ys)[1..] == xs[1..] + ys;
      FlatConcat(bits, xs[1..], ys);
    }
  }

  /** Units of a fixed number of bits can be told apart in the flat message. */
  lemma {:induction false} FlatInjective<I(!new)>(bits: I -> seq<bool>, n: nat, xs: seq<I>, ys: seq<I>)
    requires forall x :: |bits(x)| == n
    requires forall x, y :: bits(x) == bits(y) ==> x == y
    requires |xs| == |ys| && Flat(bits, xs) == Flat(bits, ys)
    ensures xs == ys
  {
    if xs != [] {
      var u, v := Flat(bits, xs[1..]), Flat(bits, ys[1..]);
      assert bits(xs[0]) == (bits(xs[0]) + u)[..n] && bits(ys[0]) == (bits(ys[0]) + v)[..n];
      assert u == (bits(xs[0]) + u)[n..] && v == (bits(ys[0]) + v)[n..];
      FlatInjective(bits, n, xs[1..], ys[1..]);
      assert xs == [xs[0]] + xs[1..] && ys == [ys[0]] + ys[1..];
    }
  }

  lemma {:induction false} FlatLength<I(!new)>(bits: I -> seq<bool>, n: nat, xs: seq<I>)
    requires forall x :: |bits(x)| == n
    ensures |Flat(bits, xs)| == n * |xs|
  {
    if xs != [] {
      FlatLength(bits, n, xs[1..]);
      assert n * |xs| == n + n * (|xs| - 1);
    }
  }

  lemma {:induction false} FlatXor<I>(bits: I -> seq<bool>, xs: seq<I>, ys: seq<I>, zs: seq<I>)
    requires |xs| == |ys| == |zs|
    requires forall i | 0 <= i < |xs| ::
               |bits(xs[i])| == |bits(ys[i])| && bits(zs[i]) == XorBits(bits(xs[i]), bits(ys[i]))
    ensures |Flat(bits, xs)| == |Flat(bits, ys)|
    ensures Flat(bits, zs) == XorBits(Flat(bits, xs), Flat(bits, ys))
  {
    if xs != [] {
      FlatXor(bits, xs[1..], ys[1..], zs[1..]);
      assert |bits(xs[0])| == |bits(ys[0])| && bits(zs[0]) == XorBits(bits(xs[0]), bits(ys[0]));
    }
  }

  /** A step that does the work of a group of bits computes the register of all the bits. */
  lemma {:induction false} FoldIsSerial<W(!new), I(!new)>(
    g: Register<W>, f: (W, I) -> W, bits: I -> seq<bool>, c: W, xs: seq<I>)
    requires forall s, x :: f(s, x) == Serial(g, s, bits(x))
    ensures Fold(f, c, xs) == Serial(g, c, Flat(bits, xs))
    decreases |xs|
  {
    if xs != [] {
      SerialConcat(g, c, bits(xs[0]), Flat(bits, xs[1..]));
      FoldIsSerial(g, f, bits, f(c, xs[0]), xs[1..]);
    }
  }
}
