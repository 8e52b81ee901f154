/** Linear feedback shift registers in general: a state of any type to which one message bit at a
    time is added before it is clocked. */
module Registers {

  /** diff tells two states apart, up moves a difference one bit towards the top of the register, and
      within(d, k) says that d lies in the k lowest bits. */
  datatype Register<!R> = Register(
    clock: R -> R,
    add: (R, bool) -> R,
    diff: (R, R) -> R,
    up: R -> R,
    within: (R, nat) -> bool)
  {
    function Step(c: R, b: bool): R {
      clock(add(c, b))
    }

    function Run(c: R, bits: seq<bool>): R
      decreases bits
    {
      if bits == [] then c else Run(Step(c, bits[0]), bits[1..])
    }
  }

  lemma {:induction false} RunAppend<R>(reg: Register<R>, c: R, a: seq<bool>, b: seq<bool>)
    ensures reg.Run(c, a + b) == reg.Run(reg.Run(c, a), b)
    decreases a
  {
    if a == [] {
      assert a + b == b;
    } else {
      assert (a + b)[1..] == a[1..] + b;
      RunAppend(reg, reg.Step(c, a[0]), a[1..], b);
    }
  }

  ghost predicate Reversible<R(!new)>(reg: Register<R>) {
    forall a, b, e :: reg.Step(a, e) == reg.Step(b, e) ==> a == b
  }

  /** After a fixed string, the state of a reversible register determines the state before it. */
  lemma {:induction false} RunReversible<R(!new)>(reg: Register<R>, a: R, b: R, bits: seq<bool>)
    requires Reversible(reg)
    requires reg.Run(a, bits) == reg.Run(b, bits)
    ensures a == b
    decreases bits
  {
    if bits != [] {
      RunReversible(reg, reg.Step(a, bits[0]), reg.Step(b, bits[0]), bits[1..]);
    }
  }

  /** Below the top bit, a clock moves a difference down by one. */
  ghost predicate ClocksDown<R(!new)>(reg: Register<R>, u: R, v: R, k: nat) {
    reg.within(reg.diff(reg.clock(u), reg.clock(v)), k) ==>
      reg.diff(u, v) == reg.up(reg.diff(reg.clock(u), reg.clock(v)))
  }

  /** Message bits change the lowest bit only. */
  ghost predicate AddsLow<R(!new)>(reg: Register<R>, a: R, b: R, e: bool, f: bool, d: R, k: nat) {
    reg.diff(reg.add(a, e), reg.add(b, f)) == reg.up(d) && reg.within(d, k) ==>
      reg.within(reg.diff(a, b), k + 1)
  }

  /** A single differing bit reaches the top of the register at once. */
  ghost predicate FeedsTop<R(!new)>(reg: Register<R>, a: R, e: bool, k: nat) {
    !reg.within(reg.diff(reg.Step(a, e), reg.Step(a, !e)), k)
  }

  /** A register of width + 1 bits whose feedback reaches its top bit. */
  ghost predicate Feeding<R(!new)>(reg: Register<R>, width: nat) {
    && (forall a :: reg.within(reg.diff(a, a), 0))
    && (forall u, v, k: nat :: k < width ==> ClocksDown(reg, u, v, k))
    && (forall a, b, e, f, d, k: nat :: AddsLow(reg, a, b, e, f, d, k))
    && (forall a, e, k: nat :: k <= width ==> FeedsTop(reg, a, e, k))
  }

  lemma NearBackwards<R(!new)>(reg: Register<R>, width: nat, a: R, b: R, e: bool, f: bool, k: nat)
    requires Feeding(reg, width)
    requires k < width && reg.within(reg.diff(reg.Step(a, e), reg.Step(b, f)), k)
    ensures reg.within(reg.diff(a, b), k + 1)
  {
    var u, v := reg.add(a, e), reg.add(b, f);
    var d := reg.diff(reg.clock(u), reg.clock(v));
    assert ClocksDown(reg, u, v, k);
    assert AddsLow(reg, a, b, e, f, d, k);
  }

  /** Runs that end in one state began in states that differ in their low bits only. */
  lemma {:induction false} MergeMeansNear<R(!new)>(
      reg: Register<R>, width: nat, a: R, b: R, x: seq<bool>, y: seq<bool>)
    requires Feeding(reg, width)
    requires |x| == |y| <= width
    requires reg.Run(a, x) == reg.Run(b, y)
    ensures reg.within(reg.diff(a, b), |x|)
    decreases x
  {
    if x != [] {
      MergeMeansNear(reg, width, reg.Step(a, x[0]), reg.Step(b, y[0]), x[1..], y[1..]);
      NearBackwards(reg, width, a, b, x[0], y[0], |x| - 1);
    }
  }

  /** Two different strings that fit in the register never lead from one state to one state. */
  lemma {:induction false} WindowInjective<R(!new)>(
      reg: Register<R>, width: nat, c: R, x: seq<bool>, y: seq<bool>)
    requires Feeding(reg, width)
    requires |x| == |y| <= width + 1
    requires reg.Run(c, x) == reg.Run(c, y)
    ensures x == y
    decreases x
  {
    if x != [] {
      assert x == [x[0]] + x[1..] && y == [y[0]] + y[1..];
      if x[0] == y[0] {
        WindowInjective(reg, width, reg.Step(c, x[0]), x[1..], y[1..]);
      } else {
        assert FeedsTop(reg, c, x[0], |x| - 1);
        MergeMeansNear(reg, width, reg.Step(c, x[0]), reg.Step(c, y[0]), x[1..], y[1..]);
      }
    }
  }

  /** Any change confined to width + 1 consecutive bits of a message shows in the register. */
  lemma BurstDetected<R(!new)>(
      reg: Register<R>, width: nat, c: R,
      before: seq<bool>, x: seq<bool>, y: seq<bool>, after: seq<bool>)
    requires Reversible(reg) && Feeding(reg, width)
    requires |x| == |y| <= width + 1 && x != y
    ensures reg.Run(c, before + x + after) != reg.Run(c, before + y + after)
  {
    RunAppend(reg, c, before + x, after);
    RunAppend(reg, c, before + y, after);
    RunAppend(reg, c, before, x);
    RunAppend(reg, c, before, y);
    var s := reg.Run(c, before);
    if reg.Run(reg.Run(s, x), after) == reg.Run(reg.Run(s, y), after) {
      RunReversible(reg, reg.Run(s, x), reg.Run(s, y), after);
      WindowInjective(reg, width, s, x, y);
    }
  }
}
