/** The CRC-32 of Generic/CdmiFuse/crc.cpp: the byte-at-a-time table loop refines the bit-serial
    shift register of section 8 of RFC 1952, and what that checksum is for: it can be continued
    across a cut, it detects every burst of at most 32 bits, and a message followed by its own
    checksum leaves a constant residue. */
module Crc32 {
  import opened Crc32Table
  import opened Registers

  // ------------------------------------------------------------------------------------------
  // Specification: one message bit at a time
  // ------------------------------------------------------------------------------------------

  function Bit(b: bool): bv32 {
    if b then 1 else 0
  }

  function Xor(a: bv32, b: bv32): bv32 {
    a ^ b
  }

  function AddBit(c: bv32, b: bool): bv32 {
    Xor(c, Bit(b))
  }

  function Complement(c: bv32): bv32 {
    c ^ 0xFFFFFFFF
  }

  function Up(d: bv32): bv32 {
    d << 1
  }

  function Down(w: bv32): bv32 {
    w >> 1
  }

  function Down8(w: bv32): bv32 {
    w >> 8
  }

  function LowByte(w: bv32): bv32 {
    w & 0xFF
  }

  function Wide(b: bv8): bv32 {
    b as bv32
  }

  predicate Low(w: bv32) {
    w & 1 == 1
  }

  predicate Fits(d: bv32, m: bv32) {
    d & m == d
  }

  function Wider(m: bv32): bv32 {
    (m << 1) | 1
  }

  function Mask(n: nat): bv32 {
    if n == 0 then 0 else Wider(Mask(n - 1))
  }

  predicate Within(d: bv32, k: nat) {
    Fits(d, Mask(k))
  }

  /** A message bit is added to the low end of the register, which is then clocked. */
  const CRC: Register<bv32> := Register(Clock, AddBit, Xor, Up, Within)

  /** The n lowest bits of w, least significant first: the order in which a byte is transmitted. */
  function LowBits(w: bv32, n: nat): (r: seq<bool>)
    ensures |r| == n
    decreases n
  {
    if n == 0 then [] else [Low(w)] + LowBits(Down(w), n - 1)
  }

  const BYTE: nat := 8

  function BitsOf(b: bv8): (r: seq<bool>)
    ensures |r| == 8
  {
    LowBits(Wide(b), BYTE)
  }

  function BitString(s: seq<bv8>): (r: seq<bool>)
    ensures |r| == 8 * |s|
  {
    if s == [] then [] else BitsOf(s[0]) + BitString(s[1..])
  }

  /** The checksum of section 8 of RFC 1952, continued from the checksum crc of what came before. */
  function Checksum(crc: bv32, s: seq<bv8>): bv32 {
    Complement(CRC.Run(Complement(crc), BitString(s)))
  }

  // ------------------------------------------------------------------------------------------
  // Facts about single words
  // ------------------------------------------------------------------------------------------

  lemma LowBit(u: bv32, w: bv32)
    ensures (u ^ (w << 1)) & 1 == u & 1
  {
  }

  lemma HighBits(u: bv32, w: bv32)
    requires w < 0x80000000
    ensures (u ^ (w << 1)) >> 1 == (u >> 1) ^ w
  {
  }

  lemma HighBitsFed(u: bv32, w: bv32)
    requires w < 0x80000000
    ensures ((u ^ (w << 1)) >> 1) ^ POLYNOMIAL == ((u >> 1) ^ POLYNOMIAL) ^ w
  {
  }

  /** Bits above the lowest one are only moved down by a clock. */
  lemma ClockAbsorbs(u: bv32, w: bv32)
    requires w < 0x80000000
    ensures Clock(u ^ (w << 1)) == Clock(u) ^ w
  {
    LowBit(u, w);
    if u & 1 == 1 {
      HighBitsFed(u, w);
    } else {
      HighBits(u, w);
    }
  }

  lemma LowBitApart(c: bv32, w: bv32)
    ensures c ^ w == (c ^ (w & 1)) ^ ((w >> 1) << 1)
  {
  }

  lemma RestIsShort(w: bv32)
    ensures w >> 1 < 0x80000000
  {
  }

  lemma ClockApart(c: bv32, w: bv32)
    ensures Clock((c ^ (w & 1)) ^ ((w >> 1) << 1)) == Clock(c ^ (w & 1)) ^ (w >> 1)
  {
    RestIsShort(w);
    ClockAbsorbs(c ^ (w & 1), w >> 1);
  }

  lemma BitApart(c: bv32, w: bv32)
    ensures Clock(c ^ w) == Clock(c ^ (w & 1)) ^ (w >> 1)
  {
    LowBitApart(c, w);
    ClockApart(c, w);
  }

  lemma ClockOfSum(c: bv32, w: bv32)
    ensures Clock(Xor(c, w)) == Xor(Clock(Xor(c, w & 1)), Down(w))
  {
    BitApart(c, w);
  }

  lemma LowAsBit(w: bv32)
    ensures Bit(Low(w)) == w & 1
  {
  }

  /** Taking the lowest bit of w into a step leaves the rest of w to be added afterwards. */
  lemma StepAbsorbs(c: bv32, w: bv32)
    ensures Clock(Xor(c, w)) == Xor(Clock(AddBit(c, Low(w))), Down(w))
  {
    ClockOfSum(c, w);
    LowAsBit(w);
  }

  /** The polynomial has its top bit set, so the top bit after a clock tells which branch was taken. */
  function Unclock(c: bv32): bv32 {
    if c & 0x80000000 != 0 then ((c ^ POLYNOMIAL) << 1) | 1 else c << 1
  }

  lemma UnclockClock(c: bv32)
    ensures Unclock(Clock(c)) == c
  {
    if c & 1 == 1 {
      assert Clock(c) & 0x80000000 != 0;
    } else {
      assert Clock(c) & 0x80000000 == 0;
    }
  }

  lemma ClockReverses(u: bv32, v: bv32)
    requires Clock(u) == Clock(v)
    ensures u == v
  {
    UnclockClock(u);
    UnclockClock(v);
  }

  lemma XorTwice(a: bv32, e: bv32)
    ensures Xor(Xor(a, e), e) == a
  {
  }

  lemma AddBitReverses(a: bv32, b: bv32, e: bool)
    requires AddBit(a, e) == AddBit(b, e)
    ensures a == b
  {
    XorTwice(a, Bit(e));
    XorTwice(b, Bit(e));
  }

  lemma ComplementTwice(c: bv32)
    ensures Complement(Complement(c)) == c
  {
  }

  // ------------------------------------------------------------------------------------------
  // Facts about the difference of two registers
  // ------------------------------------------------------------------------------------------

  lemma MaskGrows(m: bv32, k: bv32)
    requires Fits(m, k)
    ensures Fits(Wider(m), Wider(k))
  {
  }

  lemma {:induction false} MaskNested(n: nat, k: nat)
    ensures Fits(Mask(n), Mask(n + k))
  {
    if n > 0 {
      MaskNested(n - 1, k);
      MaskGrows(Mask(n - 1), Mask(n - 1 + k));
    }
  }

  lemma MaskFits(k: nat)
    requires k <= 31
    ensures Fits(Mask(k), 0x7FFFFFFF)
  {
    MaskNested(k, 31 - k);
    assert Mask(8) == 0xFF;
    assert Mask(16) == 0xFFFF;
    assert Mask(24) == 0xFFFFFF;
    assert Mask(31) == 0x7FFFFFFF;
  }

  lemma TopBitAgrees(p: bv32, q: bv32, m: bv32)
    requires Fits(Xor(p, q), m) && Fits(m, 0x7FFFFFFF)
    ensures p & 0x80000000 == q & 0x80000000
  {
  }

  lemma UnclockDifference(p: bv32, q: bv32)
    requires p & 0x80000000 == q & 0x80000000
    ensures Xor(Unclock(p), Unclock(q)) == Up(Xor(p, q))
  {
    if p & 0x80000000 != 0 {
      assert (((p ^ POLYNOMIAL) << 1) | 1) ^ (((q ^ POLYNOMIAL) << 1) | 1) == (p ^ q) << 1;
    } else {
      assert (p << 1) ^ (q << 1) == (p ^ q) << 1;
    }
  }

  lemma MaskedDifference(p: bv32, q: bv32, m: bv32)
    requires Fits(Xor(p, q), m) && Fits(m, 0x7FFFFFFF)
    ensures Xor(Unclock(p), Unclock(q)) == Up(Xor(p, q))
  {
    TopBitAgrees(p, q, m);
    UnclockDifference(p, q);
  }

  /** Below the top bit, a clock moves the difference of two registers down by one. */
  lemma ClockDifference(u: bv32, v: bv32, k: nat)
    requires k <= 31 && Within(Xor(Clock(u), Clock(v)), k)
    ensures Xor(u, v) == Up(Xor(Clock(u), Clock(v)))
  {
    MaskFits(k);
    MaskedDifference(Clock(u), Clock(v), Mask(k));
    UnclockClock(u);
    UnclockClock(v);
  }

  lemma MaskedPlusLowBit(d: bv32, t: bv32, s: bv32, m: bv32)
    requires Xor(d, t) == Up(s) && Fits(s, m) && Fits(t, 1)
    ensures Fits(d, Wider(m))
  {
    assert (d ^ t) ^ t == d;
  }

  lemma XorZero(a: bv32)
    ensures Xor(a, 0) == a && Xor(0, a) == a
  {
  }

  lemma XorCommutes(a: bv32, b: bv32)
    ensures Xor(a, b) == Xor(b, a)
  {
  }

  lemma XorAssociates(a: bv32, b: bv32, c: bv32)
    ensures Xor(Xor(a, b), c) == Xor(a, Xor(b, c))
  {
  }

  lemma XorSwaps(a: bv32, b: bv32, c: bv32)
    ensures Xor(Xor(a, b), c) == Xor(Xor(a, c), b)
  {
    XorAssociates(a, b, c);
    XorAssociates(a, c, b);
    XorCommutes(b, c);
  }

  lemma XorOfSums(a: bv32, b: bv32, x: bv32, y: bv32)
    ensures Xor(Xor(a, x), Xor(b, y)) == Xor(Xor(a, b), Xor(x, y))
  {
    XorSwaps(a, x, Xor(b, y));
    XorAssociates(a, b, y);
    XorSwaps(Xor(a, b), y, x);
    XorAssociates(Xor(a, b), x, y);
  }

  lemma BitsAreLow(e: bool, f: bool)
    ensures Fits(Xor(Bit(e), Bit(f)), 1)
  {
  }

  /** Message bits change the lowest bit of a difference only. */
  lemma AddDifference(a: bv32, b: bv32, e: bool, f: bool, d: bv32, k: nat)
    requires Xor(AddBit(a, e), AddBit(b, f)) == Up(d) && Within(d, k)
    ensures Within(Xor(a, b), k + 1)
  {
    XorOfSums(a, b, Bit(e), Bit(f));
    BitsAreLow(e, f);
    MaskedPlusLowBit(Xor(a, b), Xor(Bit(e), Bit(f)), d, Mask(k));
  }

  lemma ClockedPair(s: bv32)
    ensures Xor(Clock(s), Clock(Xor(s, 1))) == POLYNOMIAL
  {
    assert (s ^ 1) >> 1 == s >> 1;
    if s & 1 == 1 {
      assert (s ^ 1) & 1 == 0;
    } else {
      assert (s ^ 1) & 1 == 1;
    }
  }

  lemma PolynomialIsWide(m: bv32)
    requires Fits(m, 0x7FFFFFFF)
    ensures !Fits(POLYNOMIAL, m)
  {
  }

  lemma PairIsPolynomial(a: bv32, e: bool)
    ensures Xor(Clock(AddBit(a, e)), Clock(AddBit(a, !e))) == POLYNOMIAL
  {
    XorZero(a);
    ClockedPair(a);
    if e {
      XorCommutes(Clock(a), Clock(Xor(a, 1)));
    }
  }

  /** A single differing bit reaches the top of the register at once. */
  lemma PairDifference(a: bv32, e: bool, k: nat)
    requires k <= 31
    ensures !Within(Xor(Clock(AddBit(a, e)), Clock(AddBit(a, !e))), k)
  {
    MaskFits(k);
    PairIsPolynomial(a, e);
    PolynomialIsWide(Mask(k));
  }

  lemma SelfDifference(a: bv32)
    ensures Within(Xor(a, a), 0)
  {
    assert a ^ a == 0;
  }

  lemma CrcReversible()
    ensures Reversible(CRC)
  {
    forall a, b, e | CRC.Step(a, e) == CRC.Step(b, e)
      ensures a == b
    {
      ClockReverses(AddBit(a, e), AddBit(b, e));
      AddBitReverses(a, b, e);
    }
  }

  lemma CrcFeeding()
    ensures Feeding(CRC, 31)
  {
    forall a
      ensures CRC.within(CRC.diff(a, a), 0)
    {
      SelfDifference(a);
    }
    forall u, v, k: nat | k < 31
      ensures ClocksDown(CRC, u, v, k)
    {
      if CRC.within(CRC.diff(CRC.clock(u), CRC.clock(v)), k) {
        ClockDifference(u, v, k);
      }
    }
    forall a, b, e, f, d, k: nat
      ensures AddsLow(CRC, a, b, e, f, d, k)
    {
      if CRC.diff(CRC.add(a, e), CRC.add(b, f)) == CRC.up(d) && CRC.within(d, k) {
        AddDifference(a, b, e, f, d, k);
      }
    }
    forall a, e, k: nat | k <= 31
      ensures FeedsTop(CRC, a, e, k)
    {
      PairDifference(a, e, k);
    }
  }

  // ------------------------------------------------------------------------------------------
  // The table loop
  // ------------------------------------------------------------------------------------------

  function ClockN(c: bv32, n: nat): bv32
    decreases n
  {
    if n == 0 then c else ClockN(Clock(c), n - 1)
  }

  function DownN(w: bv32, n: nat): bv32
    decreases n
  {
    if n == 0 then w else DownN(Down(w), n - 1)
  }

  lemma RunOfLowBits(c: bv32, w: bv32, n: nat)
    requires n > 0
    ensures CRC.Run(c, LowBits(w, n)) == CRC.Run(Clock(AddBit(c, Low(w))), LowBits(Down(w), n - 1))
  {
    assert LowBits(w, n)[1..] == LowBits(Down(w), n - 1);
    assert CRC.Step(c, Low(w)) == Clock(AddBit(c, Low(w)));
  }

  /** Bits may be added to the register all at once, before it is clocked past them. */
  lemma {:induction false} BitsAtOnce(c: bv32, w: bv32, n: nat)
    ensures ClockN(Xor(c, w), n) == Xor(CRC.Run(c, LowBits(w, n)), DownN(w, n))
    decreases n
  {
    if n > 0 {
      StepAbsorbs(c, w);
      BitsAtOnce(Clock(AddBit(c, Low(w))), Down(w), n - 1);
      RunOfLowBits(c, w, n);
    }
  }

  lemma EightClocks(c: bv32)
    ensures ClockN(c, BYTE) == Clock8(c)
  {
    assert ClockN(c, 8) == Clock8(c);
  }

  lemma EightDown(w: bv32)
    ensures DownN(w, BYTE) == Down8(w)
  {
    assert DownN(w, 8) == w >> 8;
  }

  predicate Agree(w: bv32, v: bv32, m: bv32) {
    (w ^ v) & m == 0
  }

  lemma AgreeLow(w: bv32, v: bv32, m: bv32)
    requires Agree(w, v, Wider(m)) && Fits(m, 0x7FFFFFFF)
    ensures Low(w) == Low(v)
  {
  }

  lemma AgreeHigh(w: bv32, v: bv32, m: bv32)
    requires Agree(w, v, Wider(m)) && Fits(m, 0x7FFFFFFF)
    ensures Agree(Down(w), Down(v), m)
  {
  }

  lemma {:induction false} AgreeingBits(w: bv32, v: bv32, n: nat)
    requires n <= 31 && Agree(w, v, Mask(n))
    ensures LowBits(w, n) == LowBits(v, n)
    decreases n
  {
    if n > 0 {
      MaskFits(n - 1);
      AgreeLow(w, v, Mask(n - 1));
      AgreeHigh(w, v, Mask(n - 1));
      AgreeingBits(Down(w), Down(v), n - 1);
    }
  }

  lemma ByteAgrees(w: bv32)
    ensures Agree(LowByte(w), w, 0xFF)
  {
  }

  lemma LowByteBits(w: bv32)
    ensures LowBits(LowByte(w), BYTE) == LowBits(w, BYTE)
  {
    assert Mask(8) == 0xFF;
    ByteAgrees(w);
    AgreeingBits(LowByte(w), w, BYTE);
  }

  lemma ByteAdded(c: bv32, w: bv32)
    requires Down8(w) == 0
    ensures ClockN(Xor(c, w), BYTE) == CRC.Run(c, LowBits(w, BYTE))
  {
    BitsAtOnce(c, w, BYTE);
    EightDown(w);
    XorZero(CRC.Run(c, LowBits(w, BYTE)));
  }

  lemma WordAdded(w: bv32)
    ensures ClockN(w, BYTE) == Xor(CRC.Run(0, LowBits(w, BYTE)), Down8(w))
  {
    BitsAtOnce(0, w, BYTE);
    EightDown(w);
    XorZero(w);
  }

  lemma LowByteIsByte(w: bv32)
    ensures Down8(LowByte(w)) == 0 && LowByte(w) < 256
  {
  }

  /** Eight clocks of a word are eight clocks of its low byte, and the rest of the word moved down. */
  lemma ByteAndRest(w: bv32)
    ensures ClockN(w, BYTE) == Xor(ClockN(LowByte(w), BYTE), Down8(w))
  {
    WordAdded(w);
    LowByteBits(w);
    LowByteIsByte(w);
    ByteAdded(0, LowByte(w));
    XorZero(LowByte(w));
  }

  lemma HighBytes(c: bv32, b: bv8)
    ensures Down8(Xor(c, Wide(b))) == Down8(c) && Down8(Wide(b)) == 0
  {
  }

  function TableAt(i: bv32): bv32
    requires i < 256
  {
    TableEntry(i);
    TABLE[i as int]
  }

  lemma TableAtClocks(i: bv32)
    requires i < 256
    ensures TableAt(i) == ClockN(i, BYTE)
  {
    TableEntry(i);
    EightClocks(i);
  }

  /** The loop body of crc32(). */
  function TableStep(c: bv32, b: bv8): bv32 {
    LowByteIsByte(Xor(c, Wide(b)));
    Xor(TableAt(LowByte(Xor(c, Wide(b)))), Down8(c))
  }

  /** A table lookup and a byte shift are eight steps of the register. */
  lemma TableStepRuns(c: bv32, b: bv8)
    ensures TableStep(c, b) == CRC.Run(c, BitsOf(b))
  {
    LowByteIsByte(Xor(c, Wide(b)));
    TableAtClocks(LowByte(Xor(c, Wide(b))));
    ByteAndRest(Xor(c, Wide(b)));
    HighBytes(c, b);
    ByteAdded(c, Wide(b));
  }

  lemma RunOneByte(c: bv32, buf: seq<bv8>, p: nat)
    requires p < |buf|
    ensures CRC.Run(c, BitString(buf[p..])) == CRC.Run(CRC.Run(c, BitsOf(buf[p])), BitString(buf[p + 1..]))
  {
    assert buf[p..][1..] == buf[p + 1..];
    RunAppend(CRC, c, BitsOf(buf[p]), BitString(buf[p + 1..]));
  }

  /** crc32(): one table lookup for each byte of the buffer. */
  method Crc32(crc: bv32, buf: seq<bv8>) returns (r: bv32)
    ensures r == Checksum(crc, buf)
  {
    var c := Complement(crc);
    var p := 0;
    while p < |buf|
      invariant 0 <= p <= |buf|
      invariant CRC.Run(c, BitString(buf[p..])) == CRC.Run(Complement(crc), BitString(buf))
    {
      TableStepRuns(c, buf[p]);
      RunOneByte(c, buf, p);
      c := TableStep(c, buf[p]);
      p := p + 1;
    }
    r := Complement(c);
  }

  // ------------------------------------------------------------------------------------------
  // What the checksum is for
  // ------------------------------------------------------------------------------------------

  lemma {:induction false} BitStringAppend(a: seq<bv8>, b: seq<bv8>)
    ensures BitString(a + b) == BitString(a) + BitString(b)
    decreases a
  {
    if a == [] {
      assert a + b == b;
    } else {
      assert (a + b)[1..] == a[1..] + b;
      BitStringAppend(a[1..], b);
    }
  }

  /** The checksum of a buffer can be continued with the next buffer. */
  lemma ChecksumContinues(crc: bv32, a: seq<bv8>, b: seq<bv8>)
    ensures Checksum(Checksum(crc, a), b) == Checksum(crc, a + b)
  {
    BitStringAppend(a, b);
    RunAppend(CRC, Complement(crc), BitString(a), BitString(b));
    ComplementTwice(CRC.Run(Complement(crc), BitString(a)));
  }

  /** Buffers whose bits differ only inside 32 consecutive ones never have the same checksum. */
  lemma BurstsChangeTheChecksum(crc: bv32, a: seq<bv8>, b: seq<bv8>, from: nat, to: nat)
    requires |a| == |b| && a != b
    requires from <= to <= 8 * |a| && to - from <= 32
    requires BitString(a)[..from] == BitString(b)[..from] && BitString(a)[to..] == BitString(b)[to..]
    ensures Checksum(crc, a) != Checksum(crc, b)
  {
    var u, v := BitString(a), BitString(b);
    var x, y := u[from..to], v[from..to];
    assert u == u[..from] + x + u[to..] && v == u[..from] + y + u[to..];
    if x == y {
      BitStringInjective(a, b);
    }
    CrcReversible();
    CrcFeeding();
    BurstDetected(CRC, 31, Complement(crc), u[..from], x, y, u[to..]);
    if Checksum(crc, a) == Checksum(crc, b) {
      ComplementTwice(CRC.Run(Complement(crc), u));
      ComplementTwice(CRC.Run(Complement(crc), v));
    }
  }

  lemma {:induction false} BitStringInjective(a: seq<bv8>, b: seq<bv8>)
    requires BitString(a) == BitString(b)
    ensures a == b
    decreases a
  {
    if a != [] {
      assert b != [];
      assert BitsOf(a[0]) == BitString(a)[..8] == BitString(b)[..8] == BitsOf(b[0]);
      assert BitString(a[1..]) == BitString(a)[8..] == BitString(b)[8..] == BitString(b[1..]);
      ByteFromBits(a[0], b[0]);
      BitStringInjective(a[1..], b[1..]);
      assert a == [a[0]] + a[1..] && b == [b[0]] + b[1..];
    }
  }

  lemma {:induction false} ClockNReverses(a: bv32, b: bv32, n: nat)
    requires ClockN(a, n) == ClockN(b, n)
    ensures a == b
    decreases n
  {
    if n > 0 {
      ClockNReverses(Clock(a), Clock(b), n - 1);
      ClockReverses(a, b);
    }
  }

  lemma WideInjective(a: bv8, b: bv8)
    requires Wide(a) == Wide(b)
    ensures a == b
  {
    assert (a as bv32) as bv8 == a && (b as bv32) as bv8 == b;
  }

  lemma ByteFromBits(a: bv8, b: bv8)
    requires BitsOf(a) == BitsOf(b)
    ensures a == b
  {
    HighBytes(0, a);
    HighBytes(0, b);
    ByteAdded(0, Wide(a));
    ByteAdded(0, Wide(b));
    XorZero(Wide(a));
    XorZero(Wide(b));
    ClockNReverses(Wide(a), Wide(b), BYTE);
    WideInjective(a, b);
  }

  lemma BitStringParts(before: seq<bv8>, x: seq<bv8>, after: seq<bv8>)
    ensures BitString(before + x + after) == BitString(before) + BitString(x) + BitString(after)
  {
    BitStringAppend(before + x, after);
    BitStringAppend(before, x);
  }

  lemma OnlyTheMiddleDiffers<T>(p: seq<T>, x: seq<T>, y: seq<T>, q: seq<T>)
    requires |x| == |y|
    ensures (p + x + q)[..|p|] == (p + y + q)[..|p|] && (p + x + q)[|p| + |x|..] == (p + y + q)[|p| + |x|..]
    ensures x != y ==> p + x + q != p + y + q
  {
    assert (p + x + q)[|p|..|p| + |x|] == x && (p + y + q)[|p|..|p| + |x|] == y;
  }

  /** Two buffers that differ only inside four consecutive bytes never have the same checksum. */
  lemma FourBytesChangeTheChecksum(crc: bv32, before: seq<bv8>, x: seq<bv8>, y: seq<bv8>, after: seq<bv8>)
    requires |x| == |y| <= 4 && x != y
    ensures Checksum(crc, before + x + after) != Checksum(crc, before + y + after)
  {
    BitStringParts(before, x, after);
    BitStringParts(before, y, after);
    OnlyTheMiddleDiffers(before, x, y, after);
    OnlyTheMiddleDiffers(BitString(before), BitString(x), BitString(y), BitString(after));
    BurstsChangeTheChecksum(crc, before + x + after, before + y + after,
                            8 * |before|, 8 * (|before| + |x|));
  }

  function Narrow(w: bv32): bv8 {
    (w & 0xFF) as bv8
  }

  /** The checksum as the four bytes that follow a message, least significant first. */
  function Trailer(crc: bv32): seq<bv8> {
    [Narrow(crc), Narrow(Down8(crc)), Narrow(Down8(Down8(crc))), Narrow(Down8(Down8(Down8(crc))))]
  }

  lemma {:induction false} LowBitsSplit(w: bv32, n: nat, k: nat)
    ensures LowBits(w, n + k) == LowBits(w, n) + LowBits(DownN(w, n), k)
    decreases n
  {
    if n > 0 {
      LowBitsSplit(Down(w), n - 1, k);
    }
  }

  lemma NarrowThenWide(w: bv32)
    ensures Wide(Narrow(w)) == LowByte(w)
  {
  }

  lemma FirstByte(w: bv32)
    ensures BitsOf(Narrow(w)) == LowBits(w, BYTE)
  {
    NarrowThenWide(w);
    LowByteBits(w);
  }

  lemma NextByte(w: bv32, k: nat)
    ensures LowBits(w, BYTE + k) == BitsOf(Narrow(w)) + LowBits(Down8(w), k)
  {
    LowBitsSplit(w, BYTE, k);
    FirstByte(w);
    EightDown(w);
  }

  lemma BitsOfFour(a: bv8, b: bv8, c: bv8, d: bv8)
    ensures BitString([a, b, c, d]) == BitsOf(a) + (BitsOf(b) + (BitsOf(c) + (BitsOf(d) + [])))
  {
    assert [a, b, c, d][1..] == [b, c, d] && [b, c, d][1..] == [c, d] && [c, d][1..] == [d];
    assert BitString([d]) == BitsOf(d) + [];
    assert BitString([c, d]) == BitsOf(c) + BitString([d]);
    assert BitString([b, c, d]) == BitsOf(b) + BitString([c, d]);
  }

  const WORD: nat := BYTE + (BYTE + (BYTE + (BYTE + 0)))

  lemma TrailerBits(w: bv32)
    ensures BitString(Trailer(w)) == LowBits(w, WORD)
  {
    NextByte(w, BYTE + (BYTE + (BYTE + 0)));
    NextByte(Down8(w), BYTE + (BYTE + 0));
    NextByte(Down8(Down8(w)), BYTE + 0);
    NextByte(Down8(Down8(Down8(w))), 0);
    BitsOfFour(Narrow(w), Narrow(Down8(w)), Narrow(Down8(Down8(w))), Narrow(Down8(Down8(Down8(w)))));
  }

  lemma {:induction false} DownNSplit(w: bv32, n: nat, k: nat)
    ensures DownN(w, n + k) == DownN(DownN(w, n), k)
    decreases n
  {
    if n > 0 {
      DownNSplit(Down(w), n - 1, k);
    }
  }

  lemma FourBytesDown(w: bv32)
    ensures Down8(Down8(Down8(Down8(w)))) == 0
  {
  }

  lemma NothingLeft(w: bv32)
    ensures DownN(w, WORD) == 0
  {
    DownNSplit(w, BYTE, BYTE + (BYTE + (BYTE + 0)));
    EightDown(w);
    DownNSplit(Down8(w), BYTE, BYTE + (BYTE + 0));
    EightDown(Down8(w));
    DownNSplit(Down8(Down8(w)), BYTE, BYTE + 0);
    EightDown(Down8(Down8(w)));
    EightDown(Down8(Down8(Down8(w))));
    FourBytesDown(w);
  }

  lemma {:induction false} ClockNSplit(c: bv32, n: nat, k: nat)
    ensures ClockN(c, n + k) == ClockN(ClockN(c, n), k)
    decreases n
  {
    if n > 0 {
      ClockNSplit(Clock(c), n - 1, k);
    }
  }

  lemma OnesClocked()
    ensures ClockN(0xFFFFFFFF, WORD) == 0xDEBB20E3
  {
    ClockNSplit(0xFFFFFFFF, BYTE, BYTE + (BYTE + (BYTE + 0)));
    ClockNSplit(0x2DFD1072, BYTE, BYTE + (BYTE + 0));
    ClockNSplit(0xBE26ED00, BYTE, BYTE + 0);
    assert ClockN(0xFFFFFFFF, 8) == 0x2DFD1072;
    assert ClockN(0x2DFD1072, 8) == 0xBE26ED00;
    assert ClockN(0xBE26ED00, 8) == 0x00BE26ED;
    assert ClockN(0x00BE26ED, 8) == 0xDEBB20E3;
  }

  lemma ComplementDiffers(c: bv32)
    ensures Xor(c, Complement(c)) == 0xFFFFFFFF
  {
  }

  /** A message followed by its own checksum has the same checksum whatever the message. */
  lemma ResidueIsConstant(crc: bv32, m: seq<bv8>)
    ensures Checksum(crc, m + Trailer(Checksum(crc, m))) == 0x2144DF1C
  {
    var s := CRC.Run(Complement(crc), BitString(m));
    BitStringAppend(m, Trailer(Complement(s)));
    RunAppend(CRC, Complement(crc), BitString(m), BitString(Trailer(Complement(s))));
    TrailerBits(Complement(s));
    BitsAtOnce(s, Complement(s), WORD);
    NothingLeft(Complement(s));
    XorZero(CRC.Run(s, LowBits(Complement(s), WORD)));
    ComplementDiffers(s);
    OnesClocked();
  }
}
