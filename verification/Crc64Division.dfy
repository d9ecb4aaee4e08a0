/** The CRC register read in reverse is the remainder of polynomial long division by the documented
    generator. */
module Crc64Division {
  import opened ShiftRegister
  import opened Crc64Word
  import Crc64

  /** The documented generator polynomial, its leading term left out. */
  const GENERATOR: bv64 := 0xad93_d235_94c9_35a9

  /** The word with its 64 bits in reverse order. */
  function Reflect(x: bv64): bv64 {
    var a := ((x & 0x5555_5555_5555_5555) << 1) | ((x >> 1) & 0x5555_5555_5555_5555);
    var b := ((a & 0x3333_3333_3333_3333) << 2) | ((a >> 2) & 0x3333_3333_3333_3333);
    var c := ((b & 0x0f0f_0f0f_0f0f_0f0f) << 4) | ((b >> 4) & 0x0f0f_0f0f_0f0f_0f0f);
    var d := ((c & 0x00ff_00ff_00ff_00ff) << 8) | ((c >> 8) & 0x00ff_00ff_00ff_00ff);
    var e := ((d & 0x0000_ffff_0000_ffff) << 16) | ((d >> 16) & 0x0000_ffff_0000_ffff);
    (e << 32) | (e >> 32)
  }

  function Up(x: bv64): bv64 {
    x << 1
  }

  function Top(x: bv64): bool {
    x >> 63 == 1
  }

  function LeadWord(b: bool): bv64 {
    BitWord(b) << 63
  }

  /** One step of polynomial long division as it is written down: the next message bit joins the highest
      coefficient, and a leading one subtracts the documented generator. */
  function DivideStep(r: bv64, b: bool): bv64 {
    var t := r ^ (BitWord(b) << 63);
    if t >> 63 == 1 then (t << 1) ^ GENERATOR else t << 1
  }

  const READING: Reading<bv64> := Reading(Reflect, Up, Top, POLY, GENERATOR, BitWord, LeadWord)

  // ---------------------------------------------------------------- the facts about words

  lemma ReflectShift(x: bv64) ensures Reflect(x >> 1) == Reflect(x) << 1 {}

  lemma ReflectGenerator(x: bv64) ensures Reflect(x ^ POLY) == Reflect(x) ^ GENERATOR {}

  lemma ReflectBit(x: bv64, b: bool) ensures Reflect(x ^ BitWord(b)) == Reflect(x) ^ (BitWord(b) << 63) {}

  lemma ReflectTop(x: bv64) ensures (Reflect(x) >> 63 == 1) == (x & 1 == 1) {}

  /** Reading in reverse loses nothing. */
  lemma ReflectTwice(x: bv64) ensures Reflect(Reflect(x)) == x {}

  // ---------------------------------------------------------------- the same facts about the register

  lemma ShiftInRegister(x: bv64)
    requires Reflect(x >> 1) == Reflect(x) << 1
    ensures READING.read(REGISTER.down(x)) == READING.up(READING.read(x))
  {
  }

  lemma SumInRegister(x: bv64, y: bv64, z: bv64)
    requires Reflect(x ^ y) == Reflect(x) ^ z
    ensures READING.read(REGISTER.diff(x, y)) == REGISTER.diff(READING.read(x), z)
  {
  }

  lemma GeneratorInRegister(x: bv64)
    ensures READING.read(REGISTER.diff(x, READING.poly)) == REGISTER.diff(READING.read(x), READING.generator)
  {
    ReflectGenerator(x);
    SumInRegister(x, READING.poly, READING.generator);
  }

  lemma BitInRegister(x: bv64, b: bool)
    ensures READING.read(REGISTER.diff(x, READING.word(b))) == REGISTER.diff(READING.read(x), READING.lead(b))
  {
    ReflectBit(x, b);
    SumInRegister(x, READING.word(b), READING.lead(b));
  }

  lemma TopInRegister(x: bv64)
    requires (Reflect(x) >> 63 == 1) == (x & 1 == 1)
    ensures READING.top(READING.read(x)) == REGISTER.low(x)
  {
  }

  lemma StepIsTurn(e: bv64)
    ensures Step(e) == Turn(REGISTER, READING, e)
  {
  }

  lemma TakeIsStep(x: bv64, b: bool, e: bv64)
    requires e == x ^ BitWord(b)
    ensures REGISTER.take(x, b) == Step(e)
  {
    hide Step, BitWord;
  }

  lemma WordInRegister(x: bv64, b: bool)
    ensures REGISTER.diff(x, READING.word(b)) == x ^ BitWord(b)
  {
  }

  lemma TurnInRegister(x: bv64, b: bool)
    ensures REGISTER.take(x, b) == Turn(REGISTER, READING, REGISTER.diff(x, READING.word(b)))
  {
    hide Step, Turn, BitWord, Take;
    WordInRegister(x, b);
    TakeIsStep(x, b, x ^ BitWord(b));
    StepIsTurn(x ^ BitWord(b));
  }

  lemma StepWithout(r: bv64, b: bool, t: bv64)
    requires t == r ^ (BitWord(b) << 63) && t >> 63 != 1
    ensures DivideStep(r, b) == t << 1
  {
  }

  lemma StepWith(r: bv64, b: bool, t: bv64)
    requires t == r ^ (BitWord(b) << 63) && t >> 63 == 1
    ensures DivideStep(r, b) == (t << 1) ^ GENERATOR
  {
  }

  lemma LeadInRegister(r: bv64, b: bool)
    ensures REGISTER.diff(r, READING.lead(b)) == r ^ (BitWord(b) << 63)
  {
  }

  lemma UpInRegister(t: bv64, u: bv64)
    requires u == t << 1
    ensures READING.up(t) == u && REGISTER.diff(u, READING.generator) == u ^ GENERATOR
  {
  }

  lemma TopOfStep(t: bv64)
    ensures READING.top(t) == (t >> 63 == 1)
  {
  }

  lemma DivideWith(r: bv64, b: bool, t: bv64, u: bv64, v: bv64)
    requires t == REGISTER.diff(r, READING.lead(b)) && READING.top(t)
    requires u == READING.up(t) && v == REGISTER.diff(u, READING.generator)
    ensures Divide(REGISTER, READING, r, b) == v
  {
  }

  lemma DivideWithout(r: bv64, b: bool, t: bv64, u: bv64)
    requires t == REGISTER.diff(r, READING.lead(b)) && !READING.top(t) && u == READING.up(t)
    ensures Divide(REGISTER, READING, r, b) == u
  {
  }

  lemma StepInRegister(r: bv64, b: bool, t: bv64)
    requires t == REGISTER.diff(r, READING.lead(b))
    ensures Divide(REGISTER, READING, r, b) == DivideStep(r, b)
  {
    var u := t << 1;
    LeadInRegister(r, b);
    UpInRegister(t, u);
    TopOfStep(t);
    if READING.top(t) {
      StepWith(r, b, t);
      DivideWith(r, b, t, u, u ^ GENERATOR);
    } else {
      StepWithout(r, b, t);
      DivideWithout(r, b, t, u);
    }
  }

  lemma RegisterReads()
    ensures Reads(REGISTER, READING)
  {
    forall x: bv64 ensures READING.read(REGISTER.down(x)) == READING.up(READING.read(x)) {
      ReflectShift(x);
      ShiftInRegister(x);
    }
    forall x: bv64
      ensures READING.read(REGISTER.diff(x, READING.poly)) == REGISTER.diff(READING.read(x), READING.generator)
    {
      GeneratorInRegister(x);
    }
    forall x: bv64, b: bool
      ensures READING.read(REGISTER.diff(x, READING.word(b))) == REGISTER.diff(READING.read(x), READING.lead(b))
    {
      BitInRegister(x, b);
    }
    forall x: bv64 ensures READING.top(READING.read(x)) == REGISTER.low(x) {
      ReflectTop(x);
      TopInRegister(x);
    }
    forall x: bv64, b: bool ensures REGISTER.take(x, b) == Turn(REGISTER, READING, REGISTER.diff(x, READING.word(b))) {
      TurnInRegister(x, b);
    }
  }

  lemma ReadIsReflect(x: bv64)
    ensures READING.read(x) == Reflect(x)
  {
  }

  lemma TurnIsStep(s: bv64, b: bool)
    requires Reads(REGISTER, READING)
    ensures READING.read(REGISTER.take(s, b)) == DivideStep(READING.read(s), b)
  {
    hide *;
    TurnDivides(REGISTER, READING, s, b);
    StepInRegister(READING.read(s), b, REGISTER.diff(READING.read(s), READING.lead(b)));
  }

  lemma RegisterDivides(c: bv64, bits: seq<bool>)
    ensures READING.read(Serial(REGISTER, c, bits)) == Fold(DivideStep, READING.read(c), bits)
  {
    hide *;
    RegisterReads();
    forall s: bv64, b: bool ensures READING.read(REGISTER.take(s, b)) == DivideStep(READING.read(s), b) {
      TurnIsStep(s, b);
    }
    SerialSimulates(REGISTER, READING.read, DivideStep, c, bits);
  }

  /** The CRC, read in reverse, is the long division of the message bits by 0xad93d23594c935a9, started
      from the start value read in reverse. */
  lemma CrcIsDivision(c: bv64, msg: seq<bv8>)
    ensures Reflect(Crc64.Crc(c, msg)) == Fold(DivideStep, Reflect(c), Crc64.MessageBits(msg))
    ensures Crc64.Crc(c, msg) == Reflect(Fold(DivideStep, Reflect(c), Crc64.MessageBits(msg)))
  {
    hide *;
    RegisterDivides(c, Crc64.MessageBits(msg));
    Crc64.TableIsSerial(c, msg);
    ReadIsReflect(c);
    ReadIsReflect(Crc64.Crc(c, msg));
    ReflectTwice(Crc64.Crc(c, msg));
  }
}
