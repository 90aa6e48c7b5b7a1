/**
 * The fixed-width big-endian integer layouts that the protocol packs with
 * Python's `struct` module (`>B`, `>H`, `>h`, `>I`, `>i`), over bytes.
 */
module Struct {

  /** A Python `bytes` element. */
  type byte = x: int | 0 <= x < 256

  /** 256^n, the number of values an n-byte field can hold. */
  function Pow256(n: nat): (r: nat)
    ensures r >= 1
  {
    if n == 0 then 1 else 256 * Pow256(n - 1)
  }

  /** The unsigned big-endian value of a byte string. */
  function Unpack(b: seq<byte>): (v: nat)
  {
    if b == [] then 0 else Unpack(b[..|b| - 1]) * 256 + b[|b| - 1]
  }

  /** The n-byte big-endian representation of v (`struct.pack` of an unsigned field). */
  function Pack(v: nat, n: nat): (b: seq<byte>)
    requires v < Pow256(n)
    ensures |b| == n
    decreases n
  {
    if n == 0 then [] else
      assert v / 256 < Pow256(n - 1);
      Pack(v / 256, n - 1) + [v % 256]
  }

  lemma {:induction false} UnpackBound(b: seq<byte>)
    ensures Unpack(b) < Pow256(|b|)
  {
    if b != [] {
      var init := b[..|b| - 1];
      UnpackBound(init);
      assert Unpack(b) <= (Pow256(|init|) - 1) * 256 + 255;
    }
  }

  /** Unpacking what was packed gives back the value. */
  lemma {:induction false} UnpackPack(v: nat, n: nat)
    requires v < Pow256(n)
    ensures Unpack(Pack(v, n)) == v
    decreases n
  {
    if n > 0 {
      var b := Pack(v, n);
      assert b[..|b| - 1] == Pack(v / 256, n - 1);
      UnpackPack(v / 256, n - 1);
    }
  }

  /** Packing what was unpacked gives back the bytes. */
  lemma {:induction false} PackUnpack(b: seq<byte>)
    ensures Unpack(b) < Pow256(|b|) && Pack(Unpack(b), |b|) == b
  {
    UnpackBound(b);
    if b != [] {
      var init := b[..|b| - 1];
      PackUnpack(init);
      assert b == init + [b[|b| - 1]];
    }
  }

  /** A two-byte field: high byte first. */
  lemma Unpack16(b: seq<byte>)
    requires |b| == 2
    ensures Unpack(b) == b[0] as int * 256 + b[1] && IsUInt16(Unpack(b))
  {
    assert b[..1][..0] == [];
    assert Unpack(b[..1]) == b[0];
  }

  /** Two's-complement reading of an unsigned value modulo m (`>h`, `>i`). */
  function Signed(u: nat, m: nat): (v: int)
    requires u < m && m % 2 == 0
    ensures -(m / 2) <= v < m / 2
  {
    if u >= m / 2 then u - m else u
  }

  /** `struct.pack(">i", v)`: four-byte two's complement of v. */
  function PackInt32(v: int): (b: seq<byte>)
    requires IsInt32(v)
    ensures |b| == 4
  {
    Pow256Values();
    Pack(v % 0x1_0000_0000, 4)
  }

  /** `struct.unpack(">i", b)`. */
  function UnpackInt32(b: seq<byte>): (v: int)
    requires |b| == 4
    ensures IsInt32(v)
  {
    UnpackBound(b);
    Pow256Values();
    Signed(Unpack(b), 0x1_0000_0000)
  }

  /** `struct.pack(">h", v)`: two-byte two's complement of v. */
  function PackInt16(v: int): (b: seq<byte>)
    requires -0x8000 <= v < 0x8000
    ensures |b| == 2
  {
    Pow256Values();
    Pack(v % 0x1_0000, 2)
  }

  /** `struct.unpack(">h", b)`. */
  function UnpackInt16(b: seq<byte>): (v: int)
    requires |b| == 2
    ensures -0x8000 <= v < 0x8000
  {
    UnpackBound(b);
    Pow256Values();
    Signed(Unpack(b), 0x1_0000)
  }

  lemma UnpackPackInt32(v: int)
    requires IsInt32(v)
    ensures UnpackInt32(PackInt32(v)) == v
  {
    Pow256Values();
    UnpackPack(v % 0x1_0000_0000, 4);
  }

  lemma UnpackPackInt16(v: int)
    requires -0x8000 <= v < 0x8000
    ensures UnpackInt16(PackInt16(v)) == v
  {
    Pow256Values();
    UnpackPack(v % 0x1_0000, 2);
  }

  /** An int fits a signed 32-bit `struct` field (otherwise `struct.error`). */
  predicate IsInt32(v: int) { -0x8000_0000 <= v < 0x8000_0000 }

  /** An int fits an unsigned 32-bit `struct` field. */
  predicate IsUInt32(v: int) { 0 <= v < 0x1_0000_0000 }

  /** An int fits an unsigned 16-bit `struct` field. */
  predicate IsUInt16(v: int) { 0 <= v < 0x1_0000 }

  lemma Pow256Values()
    ensures Pow256(1) == 0x100 && Pow256(2) == 0x1_0000 && Pow256(4) == 0x1_0000_0000
  {
    assert Pow256(2) == 256 * Pow256(1);
    assert Pow256(4) == 256 * (256 * Pow256(2));
  }
}
