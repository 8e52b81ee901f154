/** The compression function of SHA-1 over words of any kind: the loop of section 6.1.2 of FIPS 180-4, and
    the unrolled rounds of Generic/CdmiFuse/sha1.cpp with their circular schedule of 16 words, which is the
    form of section 6.1.3. */
module Sha1Rounds {
  import opened Sha1Standard
  import opened Sha1Words

  /** Five words: the hash value, or the working variables of a block */
  datatype Regs = Regs(a: bv32, b: bv32, c: bv32, d: bv32, e: bv32)

  /** The logical function of round t. */
  function F(t: nat, x: bv32, y: bv32, z: bv32): bv32 {
    if t < 20 then Choose(x, y, z) else if t < 40 then Parity(x, y, z) else if t < 60 then Majority(x, y, z) else Parity(x, y, z)
  }

  /** The constant of round t: one for each twenty rounds. */
  function K(t: nat): bv32 {
    if t < 20 then Constant(0) else if t < 40 then Constant(1) else if t < 60 then Constant(2) else Constant(3)
  }

  /** The message schedule: word t of a block of 16 words. */
  function Schedule(m: seq<bv32>, t: nat): bv32
    requires |m| == 16
  {
    if t < 16 then m[t]
    else
      RotL1(Xor4(Schedule(m, t - 3), Schedule(m, t - 8), Schedule(m, t - 14), Schedule(m, t - 16)))
  }

  function Round(t: nat, r: Regs, w: bv32): Regs {
    Regs(PlusFive(RotL5(r.a), F(t, r.b, r.c, r.d), r.e, K(t), w), r.a, RotL30(r.b), r.c, r.d)
  }

  /** The working variables after the first t rounds. */
  function Rounds(h: Regs, m: seq<bv32>, t: nat): Regs
    requires |m| == 16
  {
    if t == 0 then h else Round(t - 1, Rounds(h, m, t - 1), Schedule(m, t - 1))
  }

  const START: Regs := Regs(InitialWord(0), InitialWord(1), InitialWord(2), InitialWord(3), InitialWord(4))

  const ROUNDS: nat := 80

  /** The hash value after a block. */
  function Compress(h: Regs, m: seq<bv32>): Regs
    requires |m| == 16
  {
    var r := Rounds(h, m, ROUNDS);
    Regs(Plus(h.a, r.a), Plus(h.b, r.b), Plus(h.c, r.c), Plus(h.d, r.d), Plus(h.e, r.e))
  }

  function Slot(j: nat): nat {
    j % 16
  }

  ghost predicate Held(l: seq<bv32>, m: seq<bv32>, j: nat)
    requires |l| == 16 && |m| == 16
  {
    l[Slot(j)] == Schedule(m, j)
  }

  /** The 16 words hold the last 16 of the schedule before word t, and those of the block not used yet. */
  ghost predicate Circular(l: seq<bv32>, m: seq<bv32>, t: nat) {
    && |l| == 16 && |m| == 16
    && (forall j: nat {:trigger Held(l, m, j)} :: t <= j + 16 && j < t ==> Held(l, m, j))
    && (forall j :: t <= j < 16 ==> SwapBytes(l[j]) == m[j])
  }

  /** What the program computes for word t of the schedule */
  function Blend(l: seq<bv32>, t: nat): bv32
    requires |l| == 16
  {
    Mixed(l[Slot(t + 13)], l[Slot(t + 8)], l[Slot(t + 2)], l[Slot(t)])
  }

  lemma HeldStays(l: seq<bv32>, m: seq<bv32>, t: nat, w: bv32, j: nat)
    requires Circular(l, m, t) && t + 1 <= j + 16 && j <= t && w == Schedule(m, t)
    ensures Held(l[Slot(t) := w], m, j)
  {
    if j < t {
      assert Held(l, m, j) && Slot(j) != Slot(t);
    }
  }

  lemma Expand(l: seq<bv32>, m: seq<bv32>, t: nat)
    requires Circular(l, m, t) && t >= 16
    ensures Blend(l, t) == Schedule(m, t) && Circular(l[Slot(t) := Blend(l, t)], m, t + 1)
  {
    assert Slot(t + 13) == Slot(t - 3) && Slot(t + 8) == Slot(t - 8) && Slot(t + 2) == Slot(t - 14) && Slot(t) == Slot(t - 16);
    assert Held(l, m, t - 3) && Held(l, m, t - 8) && Held(l, m, t - 14) && Held(l, m, t - 16);
    MixedAgrees(l[Slot(t + 13)], l[Slot(t + 8)], l[Slot(t + 2)], l[Slot(t)]);
    var w := Schedule(m, t);
    forall j: nat {:trigger Held(l[Slot(t) := w], m, j)} | t + 1 <= j + 16 && j < t + 1
      ensures Held(l[Slot(t) := w], m, j)
    {
      HeldStays(l, m, t, w, j);
    }
  }

  lemma First(l: seq<bv32>, m: seq<bv32>, t: nat)
    requires Circular(l, m, t) && t < 16
    ensures SwapBytes(l[t]) == Schedule(m, t) && Circular(l[t := SwapBytes(l[t])], m, t + 1)
  {
    var w := Schedule(m, t);
    assert w == m[t] && Slot(t) == t;
    forall j: nat {:trigger Held(l[t := w], m, j)} | t + 1 <= j + 16 && j < t + 1
      ensures Held(l[t := w], m, j)
    {
      HeldStays(l, m, t, w, j);
    }
  }

  lemma FirstKind(t: nat, x: bv32, y: bv32, z: bv32)
    requires t < 20
    ensures PickFast(x, y, z) == F(t, x, y, z)
  {
    PicksAgree(x, y, z);
  }

  lemma OtherKinds(t: nat, x: bv32, y: bv32, z: bv32)
    requires 20 <= t < 40 || 60 <= t
    ensures Odd(x, y, z) == F(t, x, y, z)
  {
    OddsAgree(x, y, z);
  }

  lemma ThirdKind(t: nat, x: bv32, y: bv32, z: bv32)
    requires 40 <= t < 60
    ensures MostFast(x, y, z) == F(t, x, y, z)
  {
    MostsAgree(x, y, z);
  }

  /** One round as the program computes it, with the function f and the constant k. */
  lemma RoundAlike(h: Regs, m: seq<bv32>, t: nat, f: bv32, k: bv32, v: bv32, w: bv32, x: bv32, y: bv32, z: bv32)
    requires |m| == 16 && Regs(v, w, x, y, z) == Rounds(h, m, t) && f == F(t, w, x, y) && k == K(t)
    ensures Regs(TotalFast(z, f, Schedule(m, t), k, Rol5(v)), v, Rol30(w), x, y) == Rounds(h, m, t + 1)
  {
    Rol5Agrees(v);
    Rol30Agrees(w);
    TotalsAgree(z, f, Schedule(m, t), k, Rol5(v));
  }

  /** The words of a block: big-endian, section 5.2.1. */
  function Words(block: seq<bv8>): (m: seq<bv32>)
    requires |block| == 64
    ensures |m| == 16
  {
    seq(16, i requires 0 <= i < 16 => BigWord(block[4 * i], block[4 * i + 1], block[4 * i + 2], block[4 * i + 3]))
  }

  /** After the last round the words are the last 16 of the schedule. */
  lemma LastWords(l: seq<bv32>, m: seq<bv32>)
    requires Circular(l, m, ROUNDS)
    ensures forall i :: 0 <= i < 16 ==> l[i] == Schedule(m, 64 + i)
  {
    forall i | 0 <= i < 16
      ensures l[i] == Schedule(m, 64 + i)
    {
      assert Held(l, m, 64 + i) && Slot(64 + i) == i;
    }
  }

  lemma AllAdded(h: Regs, r: Regs)
    ensures Regs(AddTo(h.a, r.a), AddTo(h.b, r.b), AddTo(h.c, r.c), AddTo(h.d, r.d), AddTo(h.e, r.e))
         == Regs(Plus(h.a, r.a), Plus(h.b, r.b), Plus(h.c, r.c), Plus(h.d, r.d), Plus(h.e, r.e))
  {
    AddsAgree(h.a, r.a);
    AddsAgree(h.b, r.b);
    AddsAgree(h.c, r.c);
    AddsAgree(h.d, r.d);
    AddsAgree(h.e, r.e);
  }

  class Block {
    const l: array<bv32>

    /** The bytes of a block seen as words */
    constructor (bytes: seq<bv8>)
      requires |bytes| == 64
      ensures fresh(l) && l.Length == 16 && Circular(l[..], Words(bytes), 0)
    {
      l := new bv32[16](i requires 0 <= i < 16 => LittleWord(bytes[4 * i], bytes[4 * i + 1], bytes[4 * i + 2], bytes[4 * i + 3]));
      new;
      forall i | 0 <= i < 16
        ensures SwapBytes(l[i]) == Words(bytes)[i]
      {
        SwapUndoesLoad(bytes[4 * i], bytes[4 * i + 1], bytes[4 * i + 2], bytes[4 * i + 3]);
      }
    }

    /** After t rounds the five variables are v, w, x, y and z, by whatever names. */
    ghost predicate At(h: Regs, m: seq<bv32>, t: nat, v: bv32, w: bv32, x: bv32, y: bv32, z: bv32)
      reads l
    {
      l.Length == 16 && Circular(l[..], m, t) && Regs(v, w, x, y, z) == Rounds(h, m, t)
    }

    /** blk0: the word i with its bytes in order */
    method Blk0(i: nat, ghost m: seq<bv32>) returns (r: bv32)
      requires l.Length == 16 && Circular(l[..], m, i) && i < 16
      modifies l
      ensures r == Schedule(m, i) && Circular(l[..], m, i + 1)
    {
      First(l[..], m, i);
      l[i] := SwapBytes(l[i]);
      r := l[i];
    }

    /** blk: word i of the schedule, in the place of the one sixteen before it */
    method Blk(i: nat, ghost m: seq<bv32>) returns (r: bv32)
      requires l.Length == 16 && Circular(l[..], m, i) && 16 <= i
      modifies l
      ensures r == Schedule(m, i) && Circular(l[..], m, i + 1)
    {
      Expand(l[..], m, i);
      r := Mixed(l[Slot(i + 13)], l[Slot(i + 8)], l[Slot(i + 2)], l[Slot(i)]);
      l[Slot(i)] := r;
    }

    method R0(v: bv32, w: bv32, x: bv32, y: bv32, z: bv32, i: nat, ghost h: Regs, ghost m: seq<bv32>) returns (z': bv32, w': bv32)
      requires At(h, m, i, v, w, x, y, z) && i < 16
      modifies l
      ensures At(h, m, i + 1, z', v, w', x, y)
    {
      FirstKind(i, w, x, y);
      ConstantsAgree();
      var blk := Blk0(i, m);
      RoundAlike(h, m, i, PickFast(w, x, y), R0_CONSTANT, v, w, x, y, z);
      z' := TotalFast(z, PickFast(w, x, y), blk, R0_CONSTANT, Rol5(v));
      w' := Rol30(w);
    }

    method R1(v: bv32, w: bv32, x: bv32, y: bv32, z: bv32, i: nat, ghost h: Regs, ghost m: seq<bv32>) returns (z': bv32, w': bv32)
      requires At(h, m, i, v, w, x, y, z) && 16 <= i < 20
      modifies l
      ensures At(h, m, i + 1, z', v, w', x, y)
    {
      FirstKind(i, w, x, y);
      ConstantsAgree();
      var blk := Blk(i, m);
      RoundAlike(h, m, i, PickFast(w, x, y), R0_CONSTANT, v, w, x, y, z);
      z' := TotalFast(z, PickFast(w, x, y), blk, R0_CONSTANT, Rol5(v));
      w' := Rol30(w);
    }

    method R2(v: bv32, w: bv32, x: bv32, y: bv32, z: bv32, i: nat, ghost h: Regs, ghost m: seq<bv32>) returns (z': bv32, w': bv32)
      requires At(h, m, i, v, w, x, y, z) && 20 <= i < 40
      modifies l
      ensures At(h, m, i + 1, z', v, w', x, y)
    {
      OtherKinds(i, w, x, y);
      ConstantsAgree();
      var blk := Blk(i, m);
      RoundAlike(h, m, i, Odd(w, x, y), R2_CONSTANT, v, w, x, y, z);
      z' := TotalFast(z, Odd(w, x, y), blk, R2_CONSTANT, Rol5(v));
      w' := Rol30(w);
    }

    method R3(v: bv32, w: bv32, x: bv32, y: bv32, z: bv32, i: nat, ghost h: Regs, ghost m: seq<bv32>) returns (z': bv32, w': bv32)
      requires At(h, m, i, v, w, x, y, z) && 40 <= i < 60
      modifies l
      ensures At(h, m, i + 1, z', v, w', x, y)
    {
      ThirdKind(i, w, x, y);
      ConstantsAgree();
      var blk := Blk(i, m);
      RoundAlike(h, m, i, MostFast(w, x, y), R3_CONSTANT, v, w, x, y, z);
      z' := TotalFast(z, MostFast(w, x, y), blk, R3_CONSTANT, Rol5(v));
      w' := Rol30(w);
    }

    method R4(v: bv32, w: bv32, x: bv32, y: bv32, z: bv32, i: nat, ghost h: Regs, ghost m: seq<bv32>) returns (z': bv32, w': bv32)
      requires At(h, m, i, v, w, x, y, z) && 60 <= i < 80
      modifies l
      ensures At(h, m, i + 1, z', v, w', x, y)
    {
      OtherKinds(i, w, x, y);
      ConstantsAgree();
      var blk := Blk(i, m);
      RoundAlike(h, m, i, Odd(w, x, y), R4_CONSTANT, v, w, x, y, z);
      z' := TotalFast(z, Odd(w, x, y), blk, R4_CONSTANT, Rol5(v));
      w' := Rol30(w);
    }

    /** Five rounds of the first kind, after which the variables are back in their places */
    method Five0(a0: bv32, b0: bv32, c0: bv32, d0: bv32, e0: bv32, i: nat, ghost h: Regs, ghost m: seq<bv32>)
      returns (a: bv32, b: bv32, c: bv32, d: bv32, e: bv32)
      requires At(h, m, i, a0, b0, c0, d0, e0) && i + 5 <= 15
      modifies l
      ensures At(h, m, i + 5, a, b, c, d, e)
    {
      a, b, c, d, e := a0, b0, c0, d0, e0;
      e, b := R0(a, b, c, d, e, i, h, m);
      d, a := R0(e, a, b, c, d, i + 1, h, m);
      c, e := R0(d, e, a, b, c, i + 2, h, m);
      b, d := R0(c, d, e, a, b, i + 3, h, m);
      a, c := R0(b, c, d, e, a, i + 4, h, m);
    }

    /** The last word of the block, and the first four of the schedule beyond it */
    method Five01(a0: bv32, b0: bv32, c0: bv32, d0: bv32, e0: bv32, i: nat, ghost h: Regs, ghost m: seq<bv32>)
      returns (a: bv32, b: bv32, c: bv32, d: bv32, e: bv32)
      requires At(h, m, i, a0, b0, c0, d0, e0) && i == 15
      modifies l
      ensures At(h, m, i + 5, a, b, c, d, e)
    {
      a, b, c, d, e := a0, b0, c0, d0, e0;
      e, b := R0(a, b, c, d, e, i, h, m);
      d, a := R1(e, a, b, c, d, i + 1, h, m);
      c, e := R1(d, e, a, b, c, i + 2, h, m);
      b, d := R1(c, d, e, a, b, i + 3, h, m);
      a, c := R1(b, c, d, e, a, i + 4, h, m);
    }

    /** Five rounds of the second kind */
    method Five2(a0: bv32, b0: bv32, c0: bv32, d0: bv32, e0: bv32, i: nat, ghost h: Regs, ghost m: seq<bv32>)
      returns (a: bv32, b: bv32, c: bv32, d: bv32, e: bv32)
      requires At(h, m, i, a0, b0, c0, d0, e0) && 20 <= i && i + 5 <= 40
      modifies l
      ensures At(h, m, i + 5, a, b, c, d, e)
    {
      a, b, c, d, e := a0, b0, c0, d0, e0;
      e, b := R2(a, b, c, d, e, i, h, m);
      d, a := R2(e, a, b, c, d, i + 1, h, m);
      c, e := R2(d, e, a, b, c, i + 2, h, m);
      b, d := R2(c, d, e, a, b, i + 3, h, m);
      a, c := R2(b, c, d, e, a, i + 4, h, m);
    }

    /** Five rounds of the third kind */
    method Five3(a0: bv32, b0: bv32, c0: bv32, d0: bv32, e0: bv32, i: nat, ghost h: Regs, ghost m: seq<bv32>)
      returns (a: bv32, b: bv32, c: bv32, d: bv32, e: bv32)
      requires At(h, m, i, a0, b0, c0, d0, e0) && 40 <= i && i + 5 <= 60
      modifies l
      ensures At(h, m, i + 5, a, b, c, d, e)
    {
      a, b, c, d, e := a0, b0, c0, d0, e0;
      e, b := R3(a, b, c, d, e, i, h, m);
      d, a := R3(e, a, b, c, d, i + 1, h, m);
      c, e := R3(d, e, a, b, c, i + 2, h, m);
      b, d := R3(c, d, e, a, b, i + 3, h, m);
      a, c := R3(b, c, d, e, a, i + 4, h, m);
    }

    /** Five rounds of the fourth kind */
    method Five4(a0: bv32, b0: bv32, c0: bv32, d0: bv32, e0: bv32, i: nat, ghost h: Regs, ghost m: seq<bv32>)
      returns (a: bv32, b: bv32, c: bv32, d: bv32, e: bv32)
      requires At(h, m, i, a0, b0, c0, d0, e0) && 60 <= i && i + 5 <= 80
      modifies l
      ensures At(h, m, i + 5, a, b, c, d, e)
    {
      a, b, c, d, e := a0, b0, c0, d0, e0;
      e, b := R4(a, b, c, d, e, i, h, m);
      d, a := R4(e, a, b, c, d, i + 1, h, m);
      c, e := R4(d, e, a, b, c, i + 2, h, m);
      b, d := R4(c, d, e, a, b, i + 3, h, m);
      a, c := R4(b, c, d, e, a, i + 4, h, m);
    }

    method Twenty1(a0: bv32, b0: bv32, c0: bv32, d0: bv32, e0: bv32, i: nat, ghost h: Regs, ghost m: seq<bv32>)
      returns (a: bv32, b: bv32, c: bv32, d: bv32, e: bv32)
      requires At(h, m, i, a0, b0, c0, d0, e0) && i == 0
      modifies l
      ensures At(h, m, i + 20, a, b, c, d, e)
    {
      a, b, c, d, e := Five0(a0, b0, c0, d0, e0, i, h, m);
      a, b, c, d, e := Five0(a, b, c, d, e, i + 5, h, m);
      a, b, c, d, e := Five0(a, b, c, d, e, i + 10, h, m);
      a, b, c, d, e := Five01(a, b, c, d, e, i + 15, h, m);
    }

    method Twenty2(a0: bv32, b0: bv32, c0: bv32, d0: bv32, e0: bv32, i: nat, ghost h: Regs, ghost m: seq<bv32>)
      returns (a: bv32, b: bv32, c: bv32, d: bv32, e: bv32)
      requires At(h, m, i, a0, b0, c0, d0, e0) && i == 20
      modifies l
      ensures At(h, m, i + 20, a, b, c, d, e)
    {
      a, b, c, d, e := Five2(a0, b0, c0, d0, e0, i, h, m);
      a, b, c, d, e := Five2(a, b, c, d, e, i + 5, h, m);
      a, b, c, d, e := Five2(a, b, c, d, e, i + 10, h, m);
      a, b, c, d, e := Five2(a, b, c, d, e, i + 15, h, m);
    }

    method Twenty3(a0: bv32, b0: bv32, c0: bv32, d0: bv32, e0: bv32, i: nat, ghost h: Regs, ghost m: seq<bv32>)
      returns (a: bv32, b: bv32, c: bv32, d: bv32, e: bv32)
      requires At(h, m, i, a0, b0, c0, d0, e0) && i == 40
      modifies l
      ensures At(h, m, i + 20, a, b, c, d, e)
    {
      a, b, c, d, e := Five3(a0, b0, c0, d0, e0, i, h, m);
      a, b, c, d, e := Five3(a, b, c, d, e, i + 5, h, m);
      a, b, c, d, e := Five3(a, b, c, d, e, i + 10, h, m);
      a, b, c, d, e := Five3(a, b, c, d, e, i + 15, h, m);
    }

    method Twenty4(a0: bv32, b0: bv32, c0: bv32, d0: bv32, e0: bv32, i: nat, ghost h: Regs, ghost m: seq<bv32>)
      returns (a: bv32, b: bv32, c: bv32, d: bv32, e: bv32)
      requires At(h, m, i, a0, b0, c0, d0, e0) && i == 60
      modifies l
      ensures At(h, m, i + 20, a, b, c, d, e)
    {
      a, b, c, d, e := Five4(a0, b0, c0, d0, e0, i, h, m);
      a, b, c, d, e := Five4(a, b, c, d, e, i + 5, h, m);
      a, b, c, d, e := Five4(a, b, c, d, e, i + 10, h, m);
      a, b, c, d, e := Five4(a, b, c, d, e, i + 15, h, m);
    }

    method All(a0: bv32, b0: bv32, c0: bv32, d0: bv32, e0: bv32, i: nat, ghost h: Regs, ghost m: seq<bv32>)
      returns (a: bv32, b: bv32, c: bv32, d: bv32, e: bv32)
      requires At(h, m, i, a0, b0, c0, d0, e0) && i == 0
      modifies l
      ensures At(h, m, i + ROUNDS, a, b, c, d, e)
    {
      a, b, c, d, e := Twenty1(a0, b0, c0, d0, e0, i, h, m);
      a, b, c, d, e := Twenty2(a, b, c, d, e, i + 20, h, m);
      a, b, c, d, e := Twenty3(a, b, c, d, e, i + 40, h, m);
      a, b, c, d, e := Twenty4(a, b, c, d, e, i + 60, h, m);
    }

    /** The 80 rounds, and the sum with the hash value before: the loop of section 6.1.2. The words end as the
        last 16 of the schedule. */
    method Rounds80(h: Regs, ghost m: seq<bv32>) returns (r: Regs)
      requires l.Length == 16 && Circular(l[..], m, 0)
      modifies l
      ensures r == Compress(h, m)
      ensures forall i :: 0 <= i < 16 ==> l[i] == Schedule(m, 64 + i)
    {
      var a, b, c, d, e := All(h.a, h.b, h.c, h.d, h.e, 0, h, m);
      r := Regs(AddTo(h.a, a), AddTo(h.b, b), AddTo(h.c, c), AddTo(h.d, d), AddTo(h.e, e));
      AllAdded(h, Regs(a, b, c, d, e));
      LastWords(l[..], m);
    }
  }
}
