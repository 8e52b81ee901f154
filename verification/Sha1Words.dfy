/** The words of SHA-1 as Generic/CdmiFuse/sha1.cpp writes them, for a machine that is not big-endian, and how they agree
    with those of the standard. */
module Sha1Words {
  import opened Sha1Standard

  /** The macro rol */
  function Rol(value: bv32, bits: bv6): bv32 requires bits <= 32 { (value << bits) | (value >> (32 - bits)) }
  function Rol5(x: bv32): bv32 { Rol(x, 5) }
  function Rol30(x: bv32): bv32 { Rol(x, 30) }

  /** The functions in the macros R0 to R4 */
  function PickFast(w: bv32, x: bv32, y: bv32): bv32 { (w & (x ^ y)) ^ y }
  function Odd(w: bv32, x: bv32, y: bv32): bv32 { w ^ x ^ y }
  function MostFast(w: bv32, x: bv32, y: bv32): bv32 { ((w | x) & y) | (w & x) }

  const R0_CONSTANT: bv32 := 0x5A82_7999
  const R2_CONSTANT: bv32 := 0x6ED9_EBA1
  const R3_CONSTANT: bv32 := 0x8F1B_BCDC
  const R4_CONSTANT: bv32 := 0xCA62_C1D6

  /** z += f + w + k + v */
  function TotalFast(z: bv32, f: bv32, w: bv32, k: bv32, v: bv32): bv32 { z + (f + w + k + v) }
  function AddTo(x: bv32, y: bv32): bv32 { x + y }

  /** The macro blk */
  function Mixed(a: bv32, b: bv32, c: bv32, d: bv32): bv32 { Rol(a ^ b ^ c ^ d, 1) }

  /** Four bytes as the machine loads them, the first one the least significant, and as it stores them */
  function LittleWord(a: bv8, b: bv8, c: bv8, d: bv8): bv32 {
    (d as bv32 << 24) | (c as bv32 << 16) | (b as bv32 << 8) | a as bv32
  }

  function LittleByte(x: bv32, i: nat): bv8 {
    if i == 0 then LowByte(x) else if i == 1 then LowByte(x >> 8) else if i == 2 then LowByte(x >> 16) else LowByte(x >> 24)
  }

  /** (x >> ((3 - i) * 8)) & 255 */
  function ShiftedByte(x: bv32, i: nat): bv8 {
    if i == 3 then LowByte(x) else if i == 2 then LowByte(x >> 8) else if i == 1 then LowByte(x >> 16) else LowByte(x >> 24)
  }

  /** The macro blk0 */
  function SwapBytes(x: bv32): bv32 {
    (Rol(x, 24) & 0xFF00_FF00) | (Rol(x, 8) & 0x00FF_00FF)
  }

  function ExclusiveOr(x: bv8, y: bv8): bv8 { x ^ y }
  function AsByte(n: nat): bv8 { (n % 256) as bv8 }

  lemma PickBits(w: bv32, x: bv32, y: bv32)
    ensures (w & (x ^ y)) ^ y == (w & x) ^ (!w & y)
  {
  }

  lemma MostBits(w: bv32, x: bv32, y: bv32)
    ensures ((w | x) & y) | (w & x) == (w & x) ^ (w & y) ^ (x & y)
  {
  }

  lemma SwapBits(x: bv32, a: bv8, b: bv8, c: bv8, d: bv8)
    requires x == (d as bv32 << 24) | (c as bv32 << 16) | (b as bv32 << 8) | a as bv32
    ensures (((x << 24) | (x >> 8)) & 0xFF00_FF00) | (((x << 8) | (x >> 24)) & 0x00FF_00FF)
      == (a as bv32 << 24) | (b as bv32 << 16) | (c as bv32 << 8) | d as bv32
  {
  }

  lemma PicksAgree(x: bv32, y: bv32, z: bv32)
    ensures PickFast(x, y, z) == Choose(x, y, z)
  {
    PickBits(x, y, z);
  }

  lemma OddsAgree(x: bv32, y: bv32, z: bv32)
    ensures Odd(x, y, z) == Parity(x, y, z)
  {
  }

  lemma MostsAgree(x: bv32, y: bv32, z: bv32)
    ensures MostFast(x, y, z) == Majority(x, y, z)
  {
    MostBits(x, y, z);
  }

  lemma Rol5Agrees(x: bv32)
    ensures Rol5(x) == RotL5(x)
  {
  }

  lemma Rol30Agrees(x: bv32)
    ensures Rol30(x) == RotL30(x)
  {
  }

  lemma MixedAgrees(a: bv32, b: bv32, c: bv32, d: bv32)
    ensures Mixed(a, b, c, d) == RotL1(Xor4(a, b, c, d))
  {
  }

  lemma ConstantsAgree()
    ensures R0_CONSTANT == Constant(0) && R2_CONSTANT == Constant(1) && R3_CONSTANT == Constant(2) && R4_CONSTANT == Constant(3)
  {
  }

  lemma SwapUndoesLoad(a: bv8, b: bv8, c: bv8, d: bv8)
    ensures SwapBytes(LittleWord(a, b, c, d)) == BigWord(a, b, c, d)
  {
    SwapBits(LittleWord(a, b, c, d), a, b, c, d);
  }

  /** A word that is stored is loaded again. */
  lemma LoadUndoesStore(x: bv32)
    ensures LittleWord(LittleByte(x, 0), LittleByte(x, 1), LittleByte(x, 2), LittleByte(x, 3)) == x
  {
  }

  lemma BytesAgree(x: bv32, i: nat)
    requires i < 4
    ensures ShiftedByte(x, i) == BigByte(x, i)
  {
  }

  lemma TotalsAgree(z: bv32, f: bv32, w: bv32, k: bv32, v: bv32)
    ensures TotalFast(z, f, w, k, v) == PlusFive(v, f, z, k, w)
  {
  }

  lemma AddsAgree(x: bv32, y: bv32)
    ensures AddTo(x, y) == Plus(x, y)
  {
  }

  /** The low eight bits of a number */
  lemma LowBits()
    ensures AsByte(0) == 0 && AsByte(1) == 1 && AsByte(0xAA) == 0xAA && AsByte(0xFF) == 0xFF && AsByte(0x100) == 0
  {
  }
}
