/** The words of SHA-1 in FIPS 180-4: operations (sections 2.2.2 and 3.2), functions (4.1.1), constants (4.2.1), the initial
    hash value (5.3.1) and the order of bytes (3.1). What they are is said bit by bit, apart from how they are written. */
module Sha1Standard {

  function Choose(x: bv32, y: bv32, z: bv32): bv32 { (x & y) ^ (!x & z) }
  function Parity(x: bv32, y: bv32, z: bv32): bv32 { x ^ y ^ z }
  function Majority(x: bv32, y: bv32, z: bv32): bv32 { (x & y) ^ (x & z) ^ (y & z) }

  function RotL1(x: bv32): bv32 { (x << 1) | (x >> 31) }
  function RotL5(x: bv32): bv32 { (x << 5) | (x >> 27) }
  function RotL30(x: bv32): bv32 { (x << 30) | (x >> 2) }

  function Xor4(a: bv32, b: bv32, c: bv32, d: bv32): bv32 { a ^ b ^ c ^ d }
  function Plus(x: bv32, y: bv32): bv32 { x + y }
  function PlusFive(a: bv32, b: bv32, c: bv32, d: bv32, e: bv32): bv32 { a + b + c + d + e }

  function Constant(q: nat): bv32 {
    if q == 0 then 0x5A82_7999 else if q == 1 then 0x6ED9_EBA1 else if q == 2 then 0x8F1B_BCDC else 0xCA62_C1D6
  }

  /** The initial hash value */
  function InitialWord(i: nat): bv32 {
    if i == 0 then 0x6745_2301
    else if i == 1 then 0xEFCD_AB89
    else if i == 2 then 0x98BA_DCFE
    else if i == 3 then 0x1032_5476
    else 0xC3D2_E1F0
  }

  function LowByte(x: bv32): bv8 { (x & 0xFF) as bv8 }

  /** Four bytes as a word, the first one the most significant */
  function BigWord(a: bv8, b: bv8, c: bv8, d: bv8): bv32 {
    (a as bv32 << 24) | (b as bv32 << 16) | (c as bv32 << 8) | d as bv32
  }

  function BigByte(x: bv32, i: nat): bv8 {
    if i == 0 then LowByte(x >> 24) else if i == 1 then LowByte(x >> 16) else if i == 2 then LowByte(x >> 8) else LowByte(x)
  }

  function BigBytes(x: bv32): (s: seq<bv8>)
    ensures |s| == 4
  {
    [BigByte(x, 0), BigByte(x, 1), BigByte(x, 2), BigByte(x, 3)]
  }

  function Bit(x: bv32, i: bv6): bool
    requires i < 32
  {
    (x >> i) & 1 == 1
  }

  /** The bit that a rotation by n brings to place i */
  function From(i: bv6, n: bv6): (j: bv6)
    requires i < 32 && n < 32
    ensures j < 32
  {
    if i >= n then i - n else 32 - n + i
  }

  lemma RotL1Bits(x: bv32, i: bv6)
    requires i < 32
    ensures Bit(RotL1(x), i) <==> Bit(x, From(i, 1))
  {
  }

  lemma RotL5Bits(x: bv32, i: bv6)
    requires i < 32
    ensures Bit(RotL5(x), i) <==> Bit(x, From(i, 5))
  {
  }

  lemma RotL30Bits(x: bv32, i: bv6)
    requires i < 32
    ensures Bit(RotL30(x), i) <==> Bit(x, From(i, 30))
  {
  }

  /** The truth tables, with the digits of x, y and z running through all eight cases: y if x is set and otherwise z, an odd
      number of the three, at least two of them; and an odd number of four. */
  lemma TruthTables()
    ensures Choose(0xF0F0_F0F0, 0xCCCC_CCCC, 0xAAAA_AAAA) == 0xCACA_CACA
    ensures Parity(0xF0F0_F0F0, 0xCCCC_CCCC, 0xAAAA_AAAA) == 0x9696_9696
    ensures Majority(0xF0F0_F0F0, 0xCCCC_CCCC, 0xAAAA_AAAA) == 0xE8E8_E8E8
    ensures Xor4(0xFF00_FF00, 0xF0F0_F0F0, 0xCCCC_CCCC, 0xAAAA_AAAA) == 0x6996_6996
  {
  }

  /** Addition carries from place to place and beyond the last one not at all. */
  lemma PlusCarries()
    ensures Plus(0xFFFF_FFFE, 3) == 1 && Plus(0x7FFF_FFFF, 1) == 0x8000_0000 && Plus(0x0F0F_0F0F, 0x0101_0101) == 0x1010_1010
    ensures PlusFive(0xFFFF_FFFF, 1, 2, 3, 4) == 9
  {
  }

  /** The constants are the integer parts of 2^30 times the square roots of 2, 3, 5 and 10. */
  lemma ConstantIsRoot(q: nat)
    requires q < 4
    ensures
      var k, c := Constant(q) as int, if q == 0 then 2 else if q == 1 then 3 else if q == 2 then 5 else 10;
      k * k <= c * 0x1000_0000_0000_0000 < (k + 1) * (k + 1)
  {
  }

  /** The digits of the initial hash value count up and down, from the last byte of each word to the first. */
  lemma InitialBytes()
    ensures BigBytes(InitialWord(0)) == [0x67, 0x45, 0x23, 0x01] && BigBytes(InitialWord(1)) == [0xEF, 0xCD, 0xAB, 0x89]
    ensures BigBytes(InitialWord(2)) == [0x98, 0xBA, 0xDC, 0xFE] && BigBytes(InitialWord(3)) == [0x10, 0x32, 0x54, 0x76]
    ensures BigBytes(InitialWord(4)) == [0xC3, 0xD2, 0xE1, 0xF0]
  {
  }

  lemma BytesAndWord(a: bv8, b: bv8, c: bv8, d: bv8, x: bv32)
    ensures BigBytes(BigWord(a, b, c, d)) == [a, b, c, d]
    ensures BigWord(BigBytes(x)[0], BigBytes(x)[1], BigBytes(x)[2], BigBytes(x)[3]) == x
  {
  }

  /** A byte with value 1 at each of the places counts as much as it should. */
  lemma WordOrder()
    ensures BigWord(1, 0, 0, 0) == 0x100_0000 && BigWord(0, 1, 0, 0) == 0x1_0000
    ensures BigWord(0, 0, 1, 0) == 0x100 && BigWord(0, 0, 0, 1) == 1
  {
  }
}
