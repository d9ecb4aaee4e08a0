/** Pilaf's CRC-64: the table-driven byte loop, proved equal to bit-serial division by the documented
    generator polynomial, and what follows for messages that differ. */
module Crc64 {
  import opened ShiftRegister
  import opened Crc64Word
  import opened Crc64Table

  // ---------------------------------------------------------------- the program

  /** One turn of the loop. */
  function ByteStep(c: bv64, b: bv8): bv64 {
    Tab(((c & 0xff) as bv8) ^ b) ^ (c >> 8)
  }

  function Crc(c: bv64, msg: seq<bv8>): bv64 {
    Fold(ByteStep, c, msg)
  }

  method Crc64(start: bv64, s: array<bv8>, l: nat) returns (crc: bv64)
    requires l <= s.Length
    ensures crc == Crc(start, s[..l])
  {
    crc := start;
    var j := 0;
    while j < l
      invariant 0 <= j <= l && crc == Crc(start, s[..j])
    {
      FoldConcat(ByteStep, start, s[..j], [s[j]]);
      assert s[..j + 1] == s[..j] + [s[j]];
      crc := ByteStep(crc, s[j]);
      j := j + 1;
    }
  }

  // ---------------------------------------------------------------- the reference

  function Bit(b: bv8, k: nat): bool {
    match k
    case 0 => b & 0x01 != 0
    case 1 => b & 0x02 != 0
    case 2 => b & 0x04 != 0
    case 3 => b & 0x08 != 0
    case 4 => b & 0x10 != 0
    case 5 => b & 0x20 != 0
    case 6 => b & 0x40 != 0
    case _ => b & 0x80 != 0
  }

  /** The bits of a byte, lowest first. */
  function ByteBits(b: bv8): (bits: seq<bool>)
    ensures |bits| == 8
  {
    seq(8, k requires 0 <= k < 8 => Bit(b, k))
  }

  function MessageBits(msg: seq<bv8>): seq<bool> {
    Flat(ByteBits, msg)
  }

  // ---------------------------------------------------------------- the table loop is bit-serial division

  lemma SplitWord(c: bv64, b: bv8)
    ensures c ^ (b as bv64) == (c & 0xffff_ffff_ffff_ff00) ^ ((((c & 0xff) as bv8) ^ b) as bv64)
  {
  }

  lemma SplitInRegister(c: bv64, p: bv64, x: bv64, y: bv64)
    requires c ^ p == x ^ y
    ensures REGISTER.diff(c, p) == REGISTER.diff(x, y)
  {
  }

  lemma HighBytes(c: bv64)
    ensures Turn8(c & 0xffff_ffff_ffff_ff00) == c >> 8
  {
  }

  lemma TakeNothing(c: bv64)
    ensures REGISTER.take(c, false) == Step(c)
  {
  }

  lemma TurnsAreSerial(c0: bv64)
    ensures Serial(REGISTER, c0, Zeros(8)) == Turn8(c0)
  {
    var c1 := Step(c0);
    var c2 := Step(c1);
    var c3 := Step(c2);
    var c4 := Step(c3);
    var c5 := Step(c4);
    var c6 := Step(c5);
    var c7 := Step(c6);
    var c := [c0, c1, c2, c3, c4, c5, c6, c7, Step(c7)];
    forall i | 0 <= i < 8 ensures REGISTER.take(c[i], false) == c[i + 1] {
      TakeNothing(c[i]);
    }
    TurnsFrom(REGISTER, c, 0);
  }

  function Shifted(w: bv64, k: nat): bv64 {
    if k == 0 then w else Shifted(w, k - 1) >> 1
  }

  lemma DownIsShift(w: bv64, k: nat)
    ensures REGISTER.down(Shifted(w, k)) == Shifted(w, k + 1)
  {
  }

  lemma ShiftedLow(b: bv8)
    ensures Low(Shifted(b as bv64, 0)) == (b & 0x01 != 0) && Low(Shifted(b as bv64, 1)) == (b & 0x02 != 0)
    ensures Low(Shifted(b as bv64, 2)) == (b & 0x04 != 0) && Low(Shifted(b as bv64, 3)) == (b & 0x08 != 0)
    ensures Shifted(b as bv64, 4) == (b as bv64) >> 4
  {
  }

  lemma ShiftedHigh(b: bv8)
    ensures Low(Shifted(b as bv64, 4)) == (b & 0x10 != 0) && Low(Shifted(b as bv64, 5)) == (b & 0x20 != 0)
    ensures Low(Shifted(b as bv64, 6)) == (b & 0x40 != 0) && Low(Shifted(b as bv64, 7)) == (b & 0x80 != 0)
    ensures Shifted(b as bv64, 8) == 0
  {
    ShiftedLow(b);
  }

  lemma LowInRegister(p: bv64, bit: bool)
    requires Low(p) == bit
    ensures REGISTER.low(p) == bit
  {
  }

  lemma BitInRegister(b: bv8, k: nat)
    requires k < 8
    ensures REGISTER.low(Shifted(b as bv64, k)) == ByteBits(b)[k]
  {
    ShiftedLow(b);
    ShiftedHigh(b);
    LowInRegister(Shifted(b as bv64, k), ByteBits(b)[k]);
  }

  lemma ByteIsShifted(b: bv8, w: bv64)
    requires w == b as bv64
    ensures Down(REGISTER, w, 8) == Shifted(w, 8)
    ensures LowBits(REGISTER, w, 8) == ByteBits(b)
  {
    var p := seq(9, k requires 0 <= k => Shifted(w, k));
    forall k | 0 <= k < 8 ensures REGISTER.down(p[k]) == p[k + 1] {
      DownIsShift(w, k);
    }
    LowBitsFrom(REGISTER, p, 0);
    forall k | 0 <= k < 8 ensures REGISTER.low(p[k]) == ByteBits(b)[k] {
      BitInRegister(b, k);
    }
  }

  lemma ByteIsLowBits(b: bv8)
    ensures LowBits(REGISTER, b as bv64, 8) == ByteBits(b) && Down(REGISTER, b as bv64, 8) == 0
  {
    ByteIsShifted(b, b as bv64);
    ShiftedHigh(b);
  }

  lemma ByteStepIs(c: bv64, b: bv8, x: bv64, y: bv64)
    requires x == c >> 8 && y == Tab(((c & 0xff) as bv8) ^ b)
    ensures REGISTER.diff(x, y) == ByteStep(c, b)
  {
  }

  /** One turn of the loop takes in the eight bits of a byte. */
  lemma ByteStepIsSerial(c: bv64, b: bv8)
    ensures ByteStep(c, b) == Serial(REGISTER, c, ByteBits(b))
  {
    var high, low := c & 0xffff_ffff_ffff_ff00, ((c & 0xff) as bv8) ^ b;
    RegisterLawful();
    SplitWord(c, b);
    SplitInRegister(c, b as bv64, high, low as bv64);
    ByteIsLowBits(b);
    BlockSplits(REGISTER, c, b as bv64, high, low as bv64, 8);
    TurnsAreSerial(high);
    TurnsAreSerial(low as bv64);
    HighBytes(c);
    TableIsTurns(low);
    ByteStepIs(c, b, Serial(REGISTER, high, Zeros(8)), Serial(REGISTER, low as bv64, Zeros(8)));
  }

  /** For every start value and message the byte loop leaves what bit-serial division leaves. */
  lemma TableIsSerial(c: bv64, msg: seq<bv8>)
    ensures Crc(c, msg) == Serial(REGISTER, c, MessageBits(msg))
  {
    forall s: bv64, b: bv8 ensures ByteStep(s, b) == Serial(REGISTER, s, ByteBits(b)) {
      ByteStepIsSerial(s, b);
    }
    FoldIsSerial(REGISTER, ByteStep, ByteBits, c, msg);
  }

  // ---------------------------------------------------------------- what follows for messages

  /** The CRC of a message in two parts, as the loop would be called for each in turn. */
  lemma CrcConcat(c: bv64, a: seq<bv8>, b: seq<bv8>)
    ensures Crc(Crc(c, a), b) == Crc(c, a + b)
  {
    FoldConcat(ByteStep, c, a, b);
  }

  lemma BytesDiffer(b: bv8, d: bv8)
    requires ByteBits(b) == ByteBits(d)
    ensures b == d
  {
    assert ByteBits(b)[0] == ByteBits(d)[0] && ByteBits(b)[1] == ByteBits(d)[1];
    assert ByteBits(b)[2] == ByteBits(d)[2] && ByteBits(b)[3] == ByteBits(d)[3];
    assert ByteBits(b)[4] == ByteBits(d)[4] && ByteBits(b)[5] == ByteBits(d)[5];
    assert ByteBits(b)[6] == ByteBits(d)[6] && ByteBits(b)[7] == ByteBits(d)[7];
  }

  lemma BlockBitsDiffer(a: seq<bv8>, b: seq<bv8>)
    requires |a| == |b| && a != b
    ensures |MessageBits(a)| == |MessageBits(b)| == 8 * |a| && MessageBits(a) != MessageBits(b)
  {
    FlatLength(ByteBits, 8, a);
    FlatLength(ByteBits, 8, b);
    if MessageBits(a) == MessageBits(b) {
      forall x: bv8, y: bv8 | ByteBits(x) == ByteBits(y) ensures x == y {
        BytesDiffer(x, y);
      }
      FlatInjective(ByteBits, 8, a, b);
    }
  }

  /** Two messages of equal length that differ in one burst of at most 64 bits, at any bit position, have
      different CRCs from the same start value. */
  lemma BitBurstDetected(c: bv64, m: seq<bv8>, m': seq<bv8>, pre: seq<bool>, a: seq<bool>, b: seq<bool>,
          post: seq<bool>)
    requires MessageBits(m) == pre + a + post && MessageBits(m') == pre + b + post
    requires |a| == |b| <= 64 && a != b
    ensures Crc(c, m) != Crc(c, m')
  {
    RegisterLawful();
    TableIsSerial(c, m);
    TableIsSerial(c, m');
    BurstDetected(REGISTER, c, pre, a, b, post);
  }

  /** In particular, messages that differ only within eight consecutive bytes. */
  lemma ByteBurstDetected(c: bv64, pre: seq<bv8>, a: seq<bv8>, b: seq<bv8>, post: seq<bv8>)
    requires |a| == |b| <= 8 && a != b
    ensures Crc(c, pre + a + post) != Crc(c, pre + b + post)
  {
    FlatConcat(ByteBits, pre + a, post);
    FlatConcat(ByteBits, pre, a);
    FlatConcat(ByteBits, pre + b, post);
    FlatConcat(ByteBits, pre, b);
    BlockBitsDiffer(a, b);
    BitBurstDetected(c, pre + a + post, pre + b + post,
                     MessageBits(pre), MessageBits(a), MessageBits(b), MessageBits(post));
  }

  function XorBytes(a: seq<bv8>, b: seq<bv8>): (r: seq<bv8>)
    requires |a| == |b|
    ensures |r| == |a|
  {
    seq(|a|, i requires 0 <= i < |a| => a[i] ^ b[i])
  }

  lemma BitXor0(x: bv8, y: bv8) ensures Bit(x ^ y, 0) == (Bit(x, 0) != Bit(y, 0)) {}
  lemma BitXor1(x: bv8, y: bv8) ensures Bit(x ^ y, 1) == (Bit(x, 1) != Bit(y, 1)) {}
  lemma BitXor2(x: bv8, y: bv8) ensures Bit(x ^ y, 2) == (Bit(x, 2) != Bit(y, 2)) {}
  lemma BitXor3(x: bv8, y: bv8) ensures Bit(x ^ y, 3) == (Bit(x, 3) != Bit(y, 3)) {}
  lemma BitXor4(x: bv8, y: bv8) ensures Bit(x ^ y, 4) == (Bit(x, 4) != Bit(y, 4)) {}
  lemma BitXor5(x: bv8, y: bv8) ensures Bit(x ^ y, 5) == (Bit(x, 5) != Bit(y, 5)) {}
  lemma BitXor6(x: bv8, y: bv8) ensures Bit(x ^ y, 6) == (Bit(x, 6) != Bit(y, 6)) {}
  lemma BitXor7(x: bv8, y: bv8) ensures Bit(x ^ y, 7) == (Bit(x, 7) != Bit(y, 7)) {}

  lemma BitXor(x: bv8, y: bv8, k: nat)
    requires k < 8
    ensures Bit(x ^ y, k) == (Bit(x, k) != Bit(y, k))
  {
    match k
    case 0 => BitXor0(x, y);
    case 1 => BitXor1(x, y);
    case 2 => BitXor2(x, y);
    case 3 => BitXor3(x, y);
    case 4 => BitXor4(x, y);
    case 5 => BitXor5(x, y);
    case 6 => BitXor6(x, y);
    case _ => BitXor7(x, y);
  }

  lemma BitOfSum(x: bv8, y: bv8, k: nat)
    requires k < 8
    ensures ByteBits(x ^ y)[k] == (ByteBits(x)[k] != ByteBits(y)[k])
  {
    BitXor(x, y, k);
  }

  lemma ByteBitsXor(x: bv8, y: bv8)
    ensures ByteBits(x ^ y) == XorBits(ByteBits(x), ByteBits(y))
  {
    forall k: nat | k < 8 ensures ByteBits(x ^ y)[k] == (ByteBits(x)[k] != ByteBits(y)[k]) {
      BitOfSum(x, y, k);
    }
  }

  /** The CRC is linear: of a sum of messages and start values it is the sum of the CRCs. */
  lemma CrcLinear(c: bv64, d: bv64, a: seq<bv8>, b: seq<bv8>)
    requires |a| == |b|
    ensures Crc(c ^ d, XorBytes(a, b)) == Crc(c, a) ^ Crc(d, b)
  {
    var m := XorBytes(a, b);
    forall i | 0 <= i < |a| ensures ByteBits(m[i]) == XorBits(ByteBits(a[i]), ByteBits(b[i])) {
      ByteBitsXor(a[i], b[i]);
    }
    FlatXor(ByteBits, a, b, m);
    RegisterSuperposes();
    SerialLinear(REGISTER, c, d, MessageBits(a), MessageBits(b));
    TableIsSerial(c, a);
    TableIsSerial(d, b);
    TableIsSerial(c ^ d, m);
    SumInRegister(c, d);
    SumInRegister(Crc(c, a), Crc(d, b));
  }

  lemma SumInRegister(x: bv64, y: bv64)
    ensures REGISTER.diff(x, y) == x ^ y
  {
  }

  // ---------------------------------------------------------------- the documented check value

  /** The bytes "123456789". */
  const CHECK_INPUT: seq<bv8> := [0x31, 0x32, 0x33, 0x34, 0x35, 0x36, 0x37, 0x38, 0x39]

  const CHECK_VALUE: bv64 := 0xe9c6_d914_c4b8_d9ca

  /** A turn of the loop, from its table index and entry. */
  lemma StepFrom(c: bv64, b: bv8, i: bv8, e: bv64, next: bv64)
    requires ((c & 0xff) as bv8) ^ b == i && Tab(i) == e && e ^ (c >> 8) == next
    ensures ByteStep(c, b) == next
  {
    hide Tab;
  }

  lemma ZeroEntry1() ensures Tab(0x31) == 0xfdc1_7184_a9f7_39fa {}
  lemma ZeroEntry2() ensures Tab(0xc8) == 0xe1fe_a520_be31_1aaf {}
  lemma ZeroEntry3() ensures Tab(0xa5) == 0xd55d_f8e5_1543_2941 {}
  lemma ZeroEntry4() ensures Tab(0x98) == 0x438c_80a6_4ce1_5841 {}
  lemma ZeroEntry5() ensures Tab(0xc5) == 0xf036_dc2f_7e51_db2c {}
  lemma ZeroEntry6() ensures Tab(0x3b) == 0xa359_7ca0_a188_d57d {}
  lemma ZeroEntry7() ensures Tab(0x34) == 0x4721_e43f_0183_060c {}
  lemma ZeroEntry8() ensures Tab(0x7d) == 0x49ab_a2fe_23cc_5c6f {}
  lemma ZeroEntry9() ensures Tab(0xfb) == 0xe98f_3534_77ad_31a7 {}

  lemma Zero1()
    ensures ByteStep(0, 0x31) == 0xfdc1_7184_a9f7_39fa
  {
    hide Tab, ByteStep;
    ZeroEntry1();
    StepFrom(0, 0x31, 0x31, 0xfdc1_7184_a9f7_39fa, 0xfdc1_7184_a9f7_39fa);
  }

  lemma Zero2()
    ensures ByteStep(0xfdc1_7184_a9f7_39fa, 0x32) == 0xe103_6451_3a98_ed96
  {
    hide Tab, ByteStep;
    ZeroEntry2();
    StepFrom(0xfdc1_7184_a9f7_39fa, 0x32, 0xc8, 0xe1fe_a520_be31_1aaf, 0xe103_6451_3a98_ed96);
  }

  lemma Zero3()
    ensures ByteStep(0xe103_6451_3a98_ed96, 0x33) == 0xd5bc_fb81_4479_b1ac
  {
    hide Tab, ByteStep;
    ZeroEntry3();
    StepFrom(0xe103_6451_3a98_ed96, 0x33, 0xa5, 0xd55d_f8e5_1543_2941, 0xd5bc_fb81_4479_b1ac);
  }

  lemma Zero4()
    ensures ByteStep(0xd5bc_fb81_4479_b1ac, 0x34) == 0x4359_3c5d_cda5_21f0
  {
    hide Tab, ByteStep;
    ZeroEntry4();
    StepFrom(0xd5bc_fb81_4479_b1ac, 0x34, 0x98, 0x438c_80a6_4ce1_5841, 0x4359_3c5d_cda5_21f0);
  }

  lemma Zero5()
    ensures ByteStep(0x4359_3c5d_cda5_21f0, 0x35) == 0xf075_8513_239c_7e0d
  {
    hide Tab, ByteStep;
    ZeroEntry5();
    StepFrom(0x4359_3c5d_cda5_21f0, 0x35, 0xc5, 0xf036_dc2f_7e51_db2c, 0xf075_8513_239c_7e0d);
  }

  lemma Zero6()
    ensures ByteStep(0xf075_8513_239c_7e0d, 0x36) == 0xa3a9_0925_b2ab_4903
  {
    hide Tab, ByteStep;
    ZeroEntry6();
    StepFrom(0xf075_8513_239c_7e0d, 0x36, 0x3b, 0xa359_7ca0_a188_d57d, 0xa3a9_0925_b2ab_4903);
  }

  lemma Zero7()
    ensures ByteStep(0xa3a9_0925_b2ab_4903, 0x37) == 0x4782_4d36_2431_ad45
  {
    hide Tab, ByteStep;
    ZeroEntry7();
    StepFrom(0xa3a9_0925_b2ab_4903, 0x37, 0x34, 0x4721_e43f_0183_060c, 0x4782_4d36_2431_ad45);
  }

  lemma Zero8()
    ensures ByteStep(0x4782_4d36_2431_ad45, 0x38) == 0x49ec_20b3_15e8_6dc2
  {
    hide Tab, ByteStep;
    ZeroEntry8();
    StepFrom(0x4782_4d36_2431_ad45, 0x38, 0x7d, 0x49ab_a2fe_23cc_5c6f, 0x49ec_20b3_15e8_6dc2);
  }

  lemma Zero9()
    ensures ByteStep(0x49ec_20b3_15e8_6dc2, 0x39) == 0xe9c6_d914_c4b8_d9ca
  {
    hide Tab, ByteStep;
    ZeroEntry9();
    StepFrom(0x49ec_20b3_15e8_6dc2, 0x39, 0xfb, 0xe98f_3534_77ad_31a7, 0xe9c6_d914_c4b8_d9ca);
  }

  /** Started from 0 the loop yields the documented check value. */
  lemma CheckValue()
    ensures Crc(0, CHECK_INPUT) == CHECK_VALUE
  {
    Zero1(); Zero2(); Zero3(); Zero4(); Zero5(); Zero6(); Zero7(); Zero8(); Zero9();
    FoldNine(ByteStep, 0, 0xfdc1_7184_a9f7_39fa, 0xe103_6451_3a98_ed96, 0xd5bc_fb81_4479_b1ac, 0x4359_3c5d_cda5_21f0,
             0xf075_8513_239c_7e0d, 0xa3a9_0925_b2ab_4903, 0x4782_4d36_2431_ad45, 0x49ec_20b3_15e8_6dc2,
             0xe9c6_d914_c4b8_d9ca, 0x31, 0x32, 0x33, 0x34, 0x35, 0x36, 0x37, 0x38, 0x39);
  }

  /** For a fixed message, different start values give different CRCs. */
  lemma CrcInjective(c: bv64, d: bv64, m: seq<bv8>)
    requires Crc(c, m) == Crc(d, m)
    ensures c == d
  {
    hide *;
    RegisterLossless();
    TableIsSerial(c, m);
    TableIsSerial(d, m);
    SerialInjective(REGISTER, c, d, MessageBits(m));
  }

  /** The check value belongs to the start value 0 and to no other, in particular not to all ones, which the same
      comment gives as Xor_In: the loop leaves the start value to its caller. */
  lemma CheckValueIff(c: bv64)
    ensures Crc(c, CHECK_INPUT) == CHECK_VALUE <==> c == 0
  {
    hide *;
    CheckValue();
    if Crc(c, CHECK_INPUT) == CHECK_VALUE {
      CrcInjective(c, 0, CHECK_INPUT);
    }
  }
}
