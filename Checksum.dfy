/**
 * CRC-8 as the robot protocol computes it: polynomial x^8 + x^2 + x + 1
 * (0x07), initial register 0, input bits taken most significant first, no
 * reflection and no final XOR (the SMBus PEC parameter set).
 *
 * The reference definition here is bit-level: the register is eight
 * booleans, so it is in effect masked to 8 bits after every bit. packet.py
 * keeps the register in an unbounded integer and masks it once per byte;
 * Packets.CalcCrc follows that code and proves that it computes this
 * definition. The lemmas at the end show that the checksum detects every
 * error confined to one byte, in particular every single-bit flip.
 */
module Checksum {
  import opened Struct

  /** The 8-bit CRC register, most significant bit first. */
  datatype Reg = Reg(b7: bool, b6: bool, b5: bool, b4: bool, b3: bool, b2: bool, b1: bool, b0: bool)

  const ZERO := Reg(false, false, false, false, false, false, false, false)

  /** The register's value as a byte. */
  function Value(r: Reg): (v: byte)
  {
    (if r.b7 then 0x80 else 0) + (if r.b6 then 0x40 else 0) + (if r.b5 then 0x20 else 0) + (if r.b4 then 0x10 else 0) +
    (if r.b3 then 0x08 else 0) + (if r.b2 then 0x04 else 0) + (if r.b1 then 0x02 else 0) + (if r.b0 then 0x01 else 0)
  }

  /** The register's value as an 8-bit machine word. */
  function Word(r: Reg): bv8
  {
    (if r.b7 then 0x80 else 0) | (if r.b6 then 0x40 else 0) | (if r.b5 then 0x20 else 0) | (if r.b4 then 0x10 else 0) |
    (if r.b3 then 0x08 else 0) | (if r.b2 then 0x04 else 0) | (if r.b1 then 0x02 else 0) | (if r.b0 then 0x01 else 0)
  }

  /**
   * One register update for one input bit: shift left (dropping the top
   * bit), and XOR in 0x07 when the dropped bit differs from the input bit.
   */
  function Step(r: Reg, bit: bool): Reg
  {
    var feedback := r.b7 != bit;
    Reg(r.b6, r.b5, r.b4, r.b3, r.b2, r.b1 != feedback, r.b0 != feedback, feedback)
  }

  /** The register after feeding a bit stream into it. */
  function Register(r: Reg, bits: seq<bool>): Reg
  {
    if bits == [] then r else Step(Register(r, bits[..|bits| - 1]), bits[|bits| - 1])
  }

  /** The low n binary digits of x, most significant first. */
  function Digits(x: nat, n: nat): (bits: seq<bool>)
    ensures |bits| == n
  {
    if n == 0 then [] else Digits(x / 2, n - 1) + [x % 2 == 1]
  }

  /** The eight bits of a byte, most significant first. */
  function ByteBits(c: byte): (bits: seq<bool>)
    ensures |bits| == 8
  {
    Digits(c, 8)
  }

  /** x shifted right by k bits. */
  function Halve(x: nat, k: nat): nat
  {
    if k == 0 then x else Halve(x / 2, k - 1)
  }

  lemma {:induction false} DigitAt(x: nat, n: nat, i: nat)
    requires i < n
    ensures Digits(x, n)[i] == (Halve(x, n - 1 - i) % 2 == 1)
  {
    if i < n - 1 {
      DigitAt(x / 2, n - 1, i);
    }
  }

  lemma HalfShift(v: bv8)
    ensures (v >> 1) as int == v as int / 2
  {
  }

  lemma LowBit(v: bv8)
    ensures (v & 1 != 0) == (v as int % 2 == 1)
  {
  }

  /** Bit k of v, counted from the least significant bit. */
  predicate BitAt(v: bv8, k: nat)
    requires k < 8
  {
    v & (1 << k) != 0
  }

  /** The test `c & (0x80 >> i)` of `calc_crc()` on a byte held as an 8-bit vector. */
  predicate MaskTest(v: bv8, i: nat)
    requires i < 8
  {
    v & (0x80 >> i) != 0
  }

  lemma ShiftedMask(v: bv8, k: nat)
    requires 0 < k < 8
    ensures BitAt(v, k) == BitAt(v >> 1, k - 1)
  {
  }

  /** Bit k of a byte, read with a mask, is its k-th binary digit from the right. */
  lemma {:induction false} MaskHalve(v: bv8, k: nat)
    requires k < 8
    ensures BitAt(v, k) == (Halve(v as int, k) % 2 == 1)
  {
    if k == 0 {
      LowBit(v);
    } else {
      MaskHalve(v >> 1, k - 1);
      HalfShift(v);
      ShiftedMask(v, k);
    }
  }

  lemma TopMask(v: bv8, i: nat)
    requires i < 8
    ensures MaskTest(v, i) == BitAt(v, 7 - i)
  {
  }

  /**
   * Bit i of ByteBits is what the test `c & (0x80 >> i)` of `calc_crc()`
   * reads, for every byte value.
   */
  lemma ByteBitMask(v: bv8, i: nat)
    requires i < 8
    ensures ByteBits(v as int)[i] == MaskTest(v, i)
  {
    DigitAt(v as int, 8, i);
    MaskHalve(v, 7 - i);
    TopMask(v, i);
  }

  function Pow2(n: nat): (p: nat)
    ensures p > 0
  {
    if n == 0 then 1 else 2 * Pow2(n - 1)
  }

  /** The bit stream of a byte string, byte by byte, most significant bit first. */
  function Bits(data: seq<byte>): (bits: seq<bool>)
    ensures |bits| == 8 * |data|
  {
    if data == [] then [] else Bits(data[..|data| - 1]) + ByteBits(data[|data| - 1])
  }

  /** The CRC-8 of a byte string. */
  function Crc8(data: seq<byte>): byte
  {
    Value(Register(ZERO, Bits(data)))
  }

  // ----- error detection -----

  /** Bitwise XOR of two registers. */
  function Xor(r: Reg, s: Reg): Reg
  {
    Reg(r.b7 != s.b7, r.b6 != s.b6, r.b5 != s.b5, r.b4 != s.b4, r.b3 != s.b3, r.b2 != s.b2, r.b1 != s.b1, r.b0 != s.b0)
  }

  /** Bitwise XOR of two equally long bit streams. */
  function XorBits(xs: seq<bool>, ys: seq<bool>): (zs: seq<bool>)
    requires |xs| == |ys|
    ensures |zs| == |xs|
  {
    seq(|xs|, i requires 0 <= i < |xs| => xs[i] != ys[i])
  }

  function Zeros(n: nat): (zs: seq<bool>)
    ensures |zs| == n
  {
    seq(n, _ => false)
  }

  lemma {:induction false} RegisterAppend(r: Reg, xs: seq<bool>, ys: seq<bool>)
    ensures Register(r, xs + ys) == Register(Register(r, xs), ys)
    decreases |ys|
  {
    if ys == [] {
      assert xs + ys == xs;
    } else {
      var zs := xs + ys;
      assert zs[..|zs| - 1] == xs + ys[..|ys| - 1];
      RegisterAppend(r, xs, ys[..|ys| - 1]);
    }
  }

  lemma {:induction false} BitsAppend(a: seq<byte>, b: seq<byte>)
    ensures Bits(a + b) == Bits(a) + Bits(b)
    decreases |b|
  {
    if b == [] {
      assert a + b == a;
    } else {
      var ab := a + b;
      assert ab[..|ab| - 1] == a + b[..|b| - 1];
      BitsAppend(a, b[..|b| - 1]);
    }
  }

  /**
   * The register is linear over GF(2): XORing the registers of two runs is
   * one run over the XOR of the streams, from the XOR of the start values.
   */
  lemma {:induction false} RegisterLinear(r: Reg, s: Reg, xs: seq<bool>, ys: seq<bool>)
    requires |xs| == |ys|
    ensures Xor(Register(r, xs), Register(s, ys)) == Register(Xor(r, s), XorBits(xs, ys))
    decreases |xs|
  {
    if xs != [] {
      var n := |xs| - 1;
      assert XorBits(xs, ys)[..n] == XorBits(xs[..n], ys[..n]);
      RegisterLinear(r, s, xs[..n], ys[..n]);
    }
  }

  /** A run of zero bits keeps a zero register at zero and a nonzero register nonzero. */
  lemma {:induction false} ZeroRun(r: Reg, n: nat)
    ensures (Register(r, Zeros(n)) == ZERO) == (r == ZERO)
  {
    if n > 0 {
      assert Zeros(n)[..n - 1] == Zeros(n - 1);
      ZeroRun(r, n - 1);
    }
  }

  /** The register update on a machine word, with the shift written as doubling. */
  function WordStep(x: bv8, bit: bool): bv8
  {
    if ((x & 0x80) != 0) != bit then (x + x) ^ 0x07 else x + x
  }

  function WordRegister(x: bv8, bits: seq<bool>): bv8
  {
    if bits == [] then x else WordStep(WordRegister(x, bits[..|bits| - 1]), bits[|bits| - 1])
  }

  lemma WordStepAgrees(r: Reg, bit: bool)
    ensures Word(Step(r, bit)) == WordStep(Word(r), bit)
  {
  }

  lemma {:induction false} WordRegisterAgrees(r: Reg, bits: seq<bool>)
    ensures Word(Register(r, bits)) == WordRegister(Word(r), bits)
  {
    if bits != [] {
      var init := bits[..|bits| - 1];
      WordRegisterAgrees(r, init);
      WordStepAgrees(Register(r, init), bits[|bits| - 1]);
    }
  }

  /** The word register after eight bits, written out step by step. */
  lemma WordRegisterEight(x: bv8, bs: seq<bool>)
    requires |bs| == 8
    ensures WordRegister(x, bs) ==
      WordStep(WordStep(WordStep(WordStep(WordStep(WordStep(WordStep(WordStep(x, bs[0]), bs[1]), bs[2]), bs[3]), bs[4]), bs[5]), bs[6]), bs[7])
  {
    WordRegisterFirstFour(x, bs);
    WordRegisterLastFour(x, bs);
  }

  lemma WordRegisterFirstFour(x: bv8, bs: seq<bool>)
    requires |bs| == 8
    ensures WordRegister(x, bs[..4]) == WordStep(WordStep(WordStep(WordStep(x, bs[0]), bs[1]), bs[2]), bs[3])
  {
    assert bs[..0] == [];
    WordRegisterSnoc(x, bs, 0);
    WordRegisterSnoc(x, bs, 1);
    WordRegisterSnoc(x, bs, 2);
    WordRegisterSnoc(x, bs, 3);
  }

  lemma WordRegisterLastFour(x: bv8, bs: seq<bool>)
    requires |bs| == 8
    ensures WordRegister(x, bs) == WordStep(WordStep(WordStep(WordStep(WordRegister(x, bs[..4]), bs[4]), bs[5]), bs[6]), bs[7])
  {
    WordRegisterSnoc(x, bs, 4);
    WordRegisterSnoc(x, bs, 5);
    WordRegisterSnoc(x, bs, 6);
    WordRegisterSnoc(x, bs, 7);
    assert bs[..8] == bs;
  }

  lemma WordRegisterSnoc(x: bv8, bs: seq<bool>, k: nat)
    requires k < |bs|
    ensures WordRegister(x, bs[..k + 1]) == WordStep(WordRegister(x, bs[..k]), bs[k])
  {
    assert bs[..k + 1][..k] == bs[..k];
  }

  lemma NonzeroWordSteps(bs: seq<bool>)
    requires |bs| == 8 && exists i :: 0 <= i < 8 && bs[i]
    ensures WordStep(WordStep(WordStep(WordStep(WordStep(WordStep(WordStep(WordStep(0,
              bs[0]), bs[1]), bs[2]), bs[3]), bs[4]), bs[5]), bs[6]), bs[7]) != 0
  {
  }

  /** Eight input bits that are not all zero move a zero register off zero. */
  lemma NonzeroEight(bs: seq<bool>)
    requires |bs| == 8 && exists i :: 0 <= i < 8 && bs[i]
    ensures Register(ZERO, bs) != ZERO
  {
    WordRegisterAgrees(ZERO, bs);
    WordRegisterEight(0, bs);
    NonzeroWordSteps(bs);
  }

  /** Numbers below 2^n are determined by their n low digits. */
  lemma {:induction false} DigitsInjective(x: nat, y: nat, n: nat)
    requires x < Pow2(n) && y < Pow2(n) && Digits(x, n) == Digits(y, n)
    ensures x == y
  {
    if n > 0 {
      var dx, dy := Digits(x / 2, n - 1), Digits(y / 2, n - 1);
      assert dx == Digits(x, n)[..n - 1] && dy == Digits(y, n)[..n - 1];
      assert Digits(x, n)[n - 1] == (x % 2 == 1) && Digits(y, n)[n - 1] == (y % 2 == 1);
      DigitsInjective(x / 2, y / 2, n - 1);
    }
  }

  /** Distinct bytes differ at some bit position. */
  lemma ByteBitsDiffer(c: byte, d: byte)
    requires c != d
    ensures exists i :: 0 <= i < 8 && ByteBits(c)[i] != ByteBits(d)[i]
  {
    assert Pow2(8) == 256 by {
      assert Pow2(4) == 16;
    }
    if ByteBits(c) == ByteBits(d) {
      DigitsInjective(c, d, 8);
    }
    assert ByteBits(c) != ByteBits(d);
  }

  /** Streams that agree outside a middle section XOR to zeros around the XOR of the middles. */
  lemma XorSplice(a: seq<bool>, x: seq<bool>, y: seq<bool>, z: seq<bool>)
    requires |x| == |y|
    ensures XorBits(a + x + z, a + y + z) == Zeros(|a|) + XorBits(x, y) + Zeros(|z|)
  {
  }

  /** An error pattern that moves a zero register off zero is detected wherever it sits. */
  lemma ZeroPadded(e: seq<bool>, m: nat, n: nat)
    requires Register(ZERO, e) != ZERO
    ensures Register(ZERO, Zeros(m) + e + Zeros(n)) != ZERO
  {
    RegisterAppend(ZERO, Zeros(m) + e, Zeros(n));
    RegisterAppend(ZERO, Zeros(m), e);
    ZeroRun(ZERO, m);
    ZeroRun(Register(ZERO, e), n);
  }

  lemma BitsSplice(a: seq<byte>, c: byte, z: seq<byte>)
    ensures Bits(a + [c] + z) == Bits(a) + ByteBits(c) + Bits(z)
  {
    assert Bits([c]) == ByteBits(c) by {
      assert [c][..0] == [];
    }
    BitsAppend(a + [c], z);
    BitsAppend(a, [c]);
  }

  /** The bits of two different bytes XOR to a pattern that moves a zero register off zero. */
  lemma DifferentBytes(c: byte, d: byte)
    requires c != d
    ensures Register(ZERO, XorBits(ByteBits(c), ByteBits(d))) != ZERO
  {
    ByteBitsDiffer(c, d);
    var e := XorBits(ByteBits(c), ByteBits(d));
    var i :| 0 <= i < 8 && ByteBits(c)[i] != ByteBits(d)[i];
    assert e[i];
    NonzeroEight(e);
  }

  /**
   * Two byte strings that differ in exactly one byte have different CRCs:
   * CRC-8 with this polynomial detects every error burst confined to one
   * byte.
   */
  lemma SingleByteErrorDetected(a: seq<byte>, c: byte, d: byte, z: seq<byte>)
    requires c != d
    ensures Crc8(a + [c] + z) != Crc8(a + [d] + z)
  {
    BitsSplice(a, c, z);
    BitsSplice(a, d, z);
    var xs := Bits(a) + ByteBits(c) + Bits(z);
    var ys := Bits(a) + ByteBits(d) + Bits(z);
    var e := XorBits(ByteBits(c), ByteBits(d));
    XorSplice(Bits(a), ByteBits(c), ByteBits(d), Bits(z));
    DifferentBytes(c, d);
    ZeroPadded(e, |Bits(a)|, |Bits(z)|);
    RegisterLinear(ZERO, ZERO, xs, ys);
    assert Xor(ZERO, ZERO) == ZERO;
    ValueInjective(Register(ZERO, xs), Register(ZERO, ys));
  }

  lemma ValueInjective(r: Reg, s: Reg)
    ensures Value(r) == Value(s) ==> r == s
  {
  }
}
