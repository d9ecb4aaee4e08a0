/** The 64-bit word as a linear shift register: bit-serial division, the reference for the CRC.  The register
    takes in one message bit at a time, lowest bit first, and is reduced by the generator polynomial. */
module Crc64Word {
  import opened ShiftRegister

  /** The documented generator 0xad93d23594c935a9 with its bits in reverse order. */
  const POLY: bv64 := 0x95ac_9329_ac4b_c9b5

  /** Shift by one place; when a one falls out, subtract the generator. */
  function Step(c: bv64): bv64 {
    if c & 1 == 1 then (c >> 1) ^ POLY else c >> 1
  }

  function BitWord(b: bool): bv64 {
    if b then 1 else 0
  }

  function Take(c: bv64, b: bool): bv64 {
    Step(c ^ BitWord(b))
  }

  function Diff(x: bv64, y: bv64): bv64 {
    x ^ y
  }

  function Low(p: bv64): bool {
    p & 1 == 1
  }

  function Half(p: bv64): bv64 {
    p >> 1
  }

  function Ones(n: nat): bv64 {
    if n == 0 then 0 else (Ones(n - 1) << 1) | 1
  }

  predicate Fits(n: nat, p: bv64) {
    p & !Ones(n) == 0
  }

  const REGISTER: Register<bv64> := Register(Take, Diff, 0, Low, Half, Fits)

  /** Eight turns without message bits. */
  function Turn8(c: bv64): bv64 {
    Step(Step(Step(Step(Step(Step(Step(Step(c))))))))
  }

  // ---------------------------------------------------------------- superposition

  // Two turns and their difference, by the parity of the two words (E, O) and by message bits (F, T).

  lemma TurnEEFF(c: bv64, d: bv64, a: bool, b: bool)
    requires c & 1 == 0 && d & 1 == 0 && a == false && b == false
    ensures Take(c, a) ^ Take(d, b) == Take(c ^ d, a != b) {}
  lemma TurnEEFT(c: bv64, d: bv64, a: bool, b: bool)
    requires c & 1 == 0 && d & 1 == 0 && a == false && b == true
    ensures Take(c, a) ^ Take(d, b) == Take(c ^ d, a != b) {}
  lemma TurnEETF(c: bv64, d: bv64, a: bool, b: bool)
    requires c & 1 == 0 && d & 1 == 0 && a == true && b == false
    ensures Take(c, a) ^ Take(d, b) == Take(c ^ d, a != b) {}
  lemma TurnEETT(c: bv64, d: bv64, a: bool, b: bool)
    requires c & 1 == 0 && d & 1 == 0 && a == true && b == true
    ensures Take(c, a) ^ Take(d, b) == Take(c ^ d, a != b) {}

  lemma TurnEE(c: bv64, d: bv64, a: bool, b: bool)
    requires c & 1 == 0 && d & 1 == 0
    ensures Take(c, a) ^ Take(d, b) == Take(c ^ d, a != b)
  {
    if a {
      if b { TurnEETT(c, d, a, b); } else { TurnEETF(c, d, a, b); }
    } else {
      if b { TurnEEFT(c, d, a, b); } else { TurnEEFF(c, d, a, b); }
    }
  }

  lemma TurnEOFF(c: bv64, d: bv64, a: bool, b: bool)
    requires c & 1 == 0 && d & 1 == 1 && a == false && b == false
    ensures Take(c, a) ^ Take(d, b) == Take(c ^ d, a != b) {}
  lemma TurnEOFT(c: bv64, d: bv64, a: bool, b: bool)
    requires c & 1 == 0 && d & 1 == 1 && a == false && b == true
    ensures Take(c, a) ^ Take(d, b) == Take(c ^ d, a != b) {}
  lemma TurnEOTF(c: bv64, d: bv64, a: bool, b: bool)
    requires c & 1 == 0 && d & 1 == 1 && a == true && b == false
    ensures Take(c, a) ^ Take(d, b) == Take(c ^ d, a != b) {}
  lemma TurnEOTT(c: bv64, d: bv64, a: bool, b: bool)
    requires c & 1 == 0 && d & 1 == 1 && a == true && b == true
    ensures Take(c, a) ^ Take(d, b) == Take(c ^ d, a != b) {}

  lemma TurnEO(c: bv64, d: bv64, a: bool, b: bool)
    requires c & 1 == 0 && d & 1 == 1
    ensures Take(c, a) ^ Take(d, b) == Take(c ^ d, a != b)
  {
    if a {
      if b { TurnEOTT(c, d, a, b); } else { TurnEOTF(c, d, a, b); }
    } else {
      if b { TurnEOFT(c, d, a, b); } else { TurnEOFF(c, d, a, b); }
    }
  }

  lemma TurnOEFF(c: bv64, d: bv64, a: bool, b: bool)
    requires c & 1 == 1 && d & 1 == 0 && a == false && b == false
    ensures Take(c, a) ^ Take(d, b) == Take(c ^ d, a != b) {}
  lemma TurnOEFT(c: bv64, d: bv64, a: bool, b: bool)
    requires c & 1 == 1 && d & 1 == 0 && a == false && b == true
    ensures Take(c, a) ^ Take(d, b) == Take(c ^ d, a != b) {}
  lemma TurnOETF(c: bv64, d: bv64, a: bool, b: bool)
    requires c & 1 == 1 && d & 1 == 0 && a == true && b == false
    ensures Take(c, a) ^ Take(d, b) == Take(c ^ d, a != b) {}
  lemma TurnOETT(c: bv64, d: bv64, a: bool, b: bool)
    requires c & 1 == 1 && d & 1 == 0 && a == true && b == true
    ensures Take(c, a) ^ Take(d, b) == Take(c ^ d, a != b) {}

  lemma TurnOE(c: bv64, d: bv64, a: bool, b: bool)
    requires c & 1 == 1 && d & 1 == 0
    ensures Take(c, a) ^ Take(d, b) == Take(c ^ d, a != b)
  {
    if a {
      if b { TurnOETT(c, d, a, b); } else { TurnOETF(c, d, a, b); }
    } else {
      if b { TurnOEFT(c, d, a, b); } else { TurnOEFF(c, d, a, b); }
    }
  }

  lemma TurnOOFF(c: bv64, d: bv64, a: bool, b: bool)
    requires c & 1 == 1 && d & 1 == 1 && a == false && b == false
    ensures Take(c, a) ^ Take(d, b) == Take(c ^ d, a != b) {}
  lemma TurnOOFT(c: bv64, d: bv64, a: bool, b: bool)
    requires c & 1 == 1 && d & 1 == 1 && a == false && b == true
    ensures Take(c, a) ^ Take(d, b) == Take(c ^ d, a != b) {}
  lemma TurnOOTF(c: bv64, d: bv64, a: bool, b: bool)
    requires c & 1 == 1 && d & 1 == 1 && a == true && b == false
    ensures Take(c, a) ^ Take(d, b) == Take(c ^ d, a != b) {}
  lemma TurnOOTT(c: bv64, d: bv64, a: bool, b: bool)
    requires c & 1 == 1 && d & 1 == 1 && a == true && b == true
    ensures Take(c, a) ^ Take(d, b) == Take(c ^ d, a != b) {}

  lemma TurnOO(c: bv64, d: bv64, a: bool, b: bool)
    requires c & 1 == 1 && d & 1 == 1
    ensures Take(c, a) ^ Take(d, b) == Take(c ^ d, a != b)
  {
    if a {
      if b { TurnOOTT(c, d, a, b); } else { TurnOOTF(c, d, a, b); }
    } else {
      if b { TurnOOFT(c, d, a, b); } else { TurnOOFF(c, d, a, b); }
    }
  }

  lemma TurnAny(c: bv64, d: bv64, a: bool, b: bool)
    ensures Take(c, a) ^ Take(d, b) == Take(c ^ d, a != b)
  {
    if c & 1 == 0 {
      if d & 1 == 0 { TurnEE(c, d, a, b); } else { TurnEO(c, d, a, b); }
    } else {
      if d & 1 == 0 { TurnOE(c, d, a, b); } else { TurnOO(c, d, a, b); }
    }
  }

  lemma NameInner(c: bv64, d: bv64, a: bool, u: bv64)
    requires u == Take(c ^ d, a)
    ensures u == Take(Diff(c, d), a)
  {
  }

  lemma NameTurn(u: bv64, v: bv64, c: bv64, d: bv64, x: bool)
    requires u ^ v == Take(c ^ d, x)
    ensures Diff(u, v) == Take(Diff(c, d), x)
  {
    hide Step, BitWord;
  }

  lemma TurnNamed(c: bv64, d: bv64, a: bool, b: bool)
    ensures Diff(Take(c, a), Take(d, b)) == Take(Diff(c, d), a != b)
  {
    hide *;
    TurnAny(c, d, a, b);
    NameTurn(Take(c, a), Take(d, b), c, d, a != b);
  }

  lemma TurnInRegister(c: bv64, d: bv64, a: bool, b: bool)
    requires Diff(Take(c, a), Take(d, b)) == Take(Diff(c, d), a != b)
    ensures REGISTER.diff(REGISTER.take(c, a), REGISTER.take(d, b)) == REGISTER.take(REGISTER.diff(c, d), a != b)
  {
  }

  lemma TurnLaw(c: bv64, d: bv64, a: bool, b: bool)
    ensures REGISTER.diff(REGISTER.take(c, a), REGISTER.take(d, b)) == REGISTER.take(REGISTER.diff(c, d), a != b)
  {
    TurnNamed(c, d, a, b);
    TurnInRegister(c, d, a, b);
  }

  lemma RegisterSuperposes()
    ensures Superposes(REGISTER)
  {
    forall c: bv64, d: bv64, a, b
      ensures REGISTER.diff(REGISTER.take(c, a), REGISTER.take(d, b)) == REGISTER.take(REGISTER.diff(c, d), a != b)
    {
      TurnLaw(c, d, a, b);
    }
  }

  // ---------------------------------------------------------------- the other laws

  lemma DiffZero(x: bv64, y: bv64)
    requires x ^ y == 0
    ensures x == y
  {
  }

  lemma RegisterSubtracts()
    ensures Subtracts(REGISTER)
  {
    forall x: bv64, y: bv64 | REGISTER.diff(x, y) == REGISTER.zero ensures x == y {
      DiffZero(x, y);
    }
  }

  /** The generator ends in a one, so the bit that fell out can be read off the top: a turn loses nothing. */
  lemma TakeInjective(x: bv64, y: bv64, b: bool)
    requires Take(x, b) == Take(y, b)
    ensures x == y
  {
  }

  lemma RegisterLossless()
    ensures Lossless(REGISTER)
  {
    forall x: bv64, y: bv64, b | REGISTER.take(x, b) == REGISTER.take(y, b) ensures x == y {
      TakeInjective(x, y, b);
    }
  }

  lemma AbsorbEE(x: bv64, p: bv64) requires x & 1 == 0 && p & 1 == 0
    ensures Take(x ^ p, false) == Take(x, Low(p)) ^ (p >> 1) {}
  lemma AbsorbEO(x: bv64, p: bv64) requires x & 1 == 0 && p & 1 == 1
    ensures Take(x ^ p, false) == Take(x, Low(p)) ^ (p >> 1) {}
  lemma AbsorbOE(x: bv64, p: bv64) requires x & 1 == 1 && p & 1 == 0
    ensures Take(x ^ p, false) == Take(x, Low(p)) ^ (p >> 1) {}
  lemma AbsorbOO(x: bv64, p: bv64) requires x & 1 == 1 && p & 1 == 1
    ensures Take(x ^ p, false) == Take(x, Low(p)) ^ (p >> 1) {}

  lemma AbsorbAny(x: bv64, p: bv64)
    ensures Take(x ^ p, false) == Take(x, Low(p)) ^ (p >> 1)
  {
    if x & 1 == 0 {
      if p & 1 == 0 { AbsorbEE(x, p); } else { AbsorbEO(x, p); }
    } else {
      if p & 1 == 0 { AbsorbOE(x, p); } else { AbsorbOO(x, p); }
    }
  }

  lemma NameHalf(u: bv64, v: bv64, p: bv64)
    requires u == v ^ (p >> 1)
    ensures u == Diff(v, Half(p))
  {
  }

  lemma AbsorbNamed(x: bv64, p: bv64)
    ensures Take(Diff(x, p), false) == Diff(Take(x, Low(p)), Half(p))
  {
    hide *;
    AbsorbAny(x, p);
    NameHalf(Take(x ^ p, false), Take(x, Low(p)), p);
    NameInner(x, p, false, Diff(Take(x, Low(p)), Half(p)));
  }

  lemma AbsorbInRegister(x: bv64, p: bv64)
    requires Take(Diff(x, p), false) == Diff(Take(x, Low(p)), Half(p))
    ensures REGISTER.take(REGISTER.diff(x, p), false) ==
            REGISTER.diff(REGISTER.take(x, REGISTER.low(p)), REGISTER.down(p))
  {
  }

  lemma AbsorbLaw(x: bv64, p: bv64)
    ensures REGISTER.take(REGISTER.diff(x, p), false) ==
            REGISTER.diff(REGISTER.take(x, REGISTER.low(p)), REGISTER.down(p))
  {
    AbsorbNamed(x, p);
    AbsorbInRegister(x, p);
  }

  lemma RegisterAbsorbs()
    ensures Absorbs(REGISTER)
  {
    forall x: bv64, p: bv64
      ensures REGISTER.take(REGISTER.diff(x, p), false) ==
              REGISTER.diff(REGISTER.take(x, REGISTER.low(p)), REGISTER.down(p))
    {
      AbsorbLaw(x, p);
    }
  }

  lemma Ones63()
    ensures Ones(63) == 0x7fff_ffff_ffff_ffff
  {
    assert Ones(7) == 0x7f;
    assert Ones(15) == 0x7fff;
    assert Ones(23) == 0x7f_ffff;
    assert Ones(31) == 0x7fff_ffff;
    assert Ones(39) == 0x7f_ffff_ffff;
    assert Ones(47) == 0x7fff_ffff_ffff;
    assert Ones(55) == 0x7f_ffff_ffff_ffff;
  }

  lemma OnesStep(x: bv64, y: bv64)
    requires x & !y == 0
    ensures ((x << 1) | 1) & !((y << 1) | 1) == 0
  {
  }

  lemma {:induction false} OnesGrow(n: nat, m: nat)
    requires n <= m
    ensures Ones(n) & !Ones(m) == 0
  {
    if n > 0 {
      OnesGrow(n - 1, m - 1);
      OnesStep(Ones(n - 1), Ones(m - 1));
    }
  }

  lemma TakeBack(o: bv64, w: bv64, b: bool)
    requires Take(w, b) & !o == 0 && o & !0x7fff_ffff_ffff_ffff == 0
    ensures w & !((o << 1) | 1) == 0
  {
  }

  lemma LoneBit(o: bv64)
    requires o & !0x7fff_ffff_ffff_ffff == 0
    ensures Take(0, true) & !o != 0
  {
  }

  lemma FitsZero(w: bv64)
    ensures Fits(0, w) <==> w == 0
  {
  }

  lemma FitsMore(n: nat, w: bv64, b: bool)
    requires n < WIDTH && Fits(n, Take(w, b))
    ensures Fits(n + 1, w)
  {
    Ones63();
    OnesGrow(n, 63);
    TakeBack(Ones(n), w, b);
  }

  lemma LoneBitFits(n: nat)
    requires n < WIDTH
    ensures !Fits(n, Take(0, true))
  {
    Ones63();
    OnesGrow(n, 63);
    LoneBit(Ones(n));
  }

  lemma RegisterBounded()
    ensures Bounded(REGISTER)
  {
    forall w: bv64 ensures REGISTER.fits(0, w) <==> w == REGISTER.zero {
      FitsZero(w);
    }
    forall n: nat, w: bv64, b | n < WIDTH && REGISTER.fits(n, REGISTER.take(w, b)) ensures REGISTER.fits(n + 1, w) {
      FitsMore(n, w, b);
    }
    forall n: nat | n < WIDTH ensures !REGISTER.fits(n, REGISTER.take(REGISTER.zero, true)) {
      LoneBitFits(n);
    }
  }

  /** The laws that make the register detect bursts. */
  lemma RegisterLawful()
    ensures Lawful(REGISTER)
  {
    RegisterSuperposes();
    RegisterSubtracts();
    RegisterLossless();
    RegisterAbsorbs();
    RegisterBounded();
  }
}
