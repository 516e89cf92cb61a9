/**
 The restoring divider: one subtract-and-compare part per quotient bit, with pipeline registers in
 front of any of the parts and behind the last.  For every width and every placement of registers
 the quotient and remainder leave exactly as many cycles after their operands as there are registers.
 */
module Divider {

  function Pow2(n: nat): (p: nat)
    ensures p > 0
  {
    if n == 0 then 1 else 2 * Pow2(n - 1)
  }

  /** The number whose binary digits, least significant first, are `bits`. */
  function Value(bits: seq<bool>): nat {
    if bits == [] then 0 else (if bits[0] then 1 else 0) + 2 * Value(bits[1..])
  }

  function Zeros(n: nat): (z: seq<bool>)
    ensures |z| == n && forall k | 0 <= k < n :: !z[k]
  {
    seq(n, _ => false)
  }

  lemma {:induction false} ZerosValue(n: nat)
    ensures Value(Zeros(n)) == 0
  {
    if n > 0 {
      ZerosValue(n - 1);
      assert Zeros(n)[1..] == Zeros(n - 1);
    }
  }

  lemma {:induction false} SetBit(bits: seq<bool>, e: nat)
    requires e < |bits| && !bits[e]
    ensures Value(bits[e := true]) == Value(bits) + Pow2(e)
  {
    if e > 0 {
      SetBit(bits[1..], e - 1);
      assert bits[e := true][1..] == bits[1..][e - 1 := true];
    } else {
      assert bits[e := true][1..] == bits[1..];
    }
  }

  lemma {:induction false} OnesValue(bits: seq<bool>)
    requires forall k | 0 <= k < |bits| :: bits[k]
    ensures Value(bits) == Pow2(|bits|) - 1
  {
    if bits != [] {
      OnesValue(bits[1..]);
    }
  }

  /** What travels from part to part. */
  datatype Stage = Stage(divisor: nat, remainder: nat, result: seq<bool>)

  function Part(e: nat, s: Stage): Stage
    requires e < |s.result|
  {
    var shifted := s.divisor * Pow2(e);
    if s.remainder >= shifted
    then Stage(s.divisor, s.remainder - shifted, s.result[e := true])
    else Stage(s.divisor, s.remainder, s.result[e := false])
  }

  datatype Operands = Operands(lhs: nat, rhs: nat)

  /** What the first `x` parts make of some operands. */
  function Chain(width: nat, x: nat, o: Operands): (s: Stage)
    requires x <= width
    ensures |s.result| == width
  {
    if x == 0 then Stage(o.rhs, o.lhs, Zeros(width)) else Part(width - x, Chain(width, x - 1, o))
  }

  lemma Distribute(a: nat, b: nat, d: nat)
    ensures (a + b) * d == a * d + b * d
  {
  }

  lemma Twice(d: nat, p: nat)
    ensures d * (2 * p) == d * p + d * p
  {
  }

  lemma AtLeast(d: nat, p: nat)
    requires d > 0
    ensures p <= d * p
  {
  }

  /** What a part keeps of the results so far: `v` is the quotient, `p` the weight still to come. */
  predicate Divides(lhs: nat, rhs: nat, v: nat, remainder: nat, p: nat) {
    v * rhs + remainder == lhs && remainder < rhs * p
  }

  lemma Restores(lhs: nat, rhs: nat, v: nat, remainder: nat, p: nat)
    requires Divides(lhs, rhs, v, remainder, 2 * p)
    ensures remainder >= rhs * p ==> Divides(lhs, rhs, v + p, remainder - rhs * p, p)
    ensures remainder < rhs * p ==> Divides(lhs, rhs, v, remainder, p)
  {
    Twice(rhs, p);
    Distribute(v, p, rhs);
  }

  /** Restoring division: every part keeps dividend = quotient * divisor + remainder, and halves the
      bound on the remainder. */
  lemma {:induction false} ChainDivides(width: nat, x: nat, o: Operands)
    requires x <= width && o.lhs < Pow2(width) && o.rhs > 0
    ensures var s := Chain(width, x, o);
      && s.divisor == o.rhs
      && Divides(o.lhs, o.rhs, Value(s.result), s.remainder, Pow2(width - x))
      && (forall k | 0 <= k < width - x :: !s.result[k])
  {
    if x == 0 {
      ZerosValue(width);
      AtLeast(o.rhs, Pow2(width));
    } else {
      hide Divides, Value;
      var e := width - x;
      ChainDivides(width, x - 1, o);
      var s := Chain(width, x - 1, o);
      Restores(o.lhs, o.rhs, Value(s.result), s.remainder, Pow2(e));
      if s.remainder >= s.divisor * Pow2(e) {
        SetBit(s.result, e);
      } else {
        assert s.result[e := false] == s.result;
      }
    }
  }

  /** Division by zero: every digit is one and the dividend is left over. */
  lemma {:induction false} ChainByZero(width: nat, x: nat, lhs: nat)
    requires x <= width
    ensures var s := Chain(width, x, Operands(lhs, 0));
      && s.divisor == 0 && s.remainder == lhs
      && (forall k | width - x <= k < width :: s.result[k])
  {
    if x > 0 {
      ChainByZero(width, x - 1, lhs);
    }
  }

  lemma DivModUnique(n: nat, d: nat, q: nat, r: nat)
    requires d > 0 && n == q * d + r && r < d
    ensures q == n / d && r == n % d
  {
    var q', r' := n / d, n % d;
    assert q' * d + r' == n;
    MulOrder(q, q', d);
    MulOrder(q', q, d);
  }

  lemma MulOrder(x: nat, y: nat, d: nat)
    ensures x < y ==> x * d + d <= y * d
  {
    if x < y {
      assert y * d == (y - 1) * d + d;
      MulOrder(x, y - 1, d);
    }
  }

  /** What the whole chain computes. */
  lemma ChainResult(width: nat, o: Operands)
    requires o.lhs < Pow2(width)
    ensures var s := Chain(width, width, o);
      && (o.rhs > 0 ==> Value(s.result) == o.lhs / o.rhs && s.remainder == o.lhs % o.rhs)
      && (o.rhs == 0 ==> Value(s.result) == Pow2(width) - 1 && s.remainder == o.lhs)
  {
    var s := Chain(width, width, o);
    if o.rhs == 0 {
      ChainByZero(width, width, o.lhs);
      OnesValue(s.result);
    } else {
      ChainDivides(width, width, o);
      DivModUnique(o.lhs, o.rhs, Value(s.result), s.remainder);
    }
  }

  /** How many pipeline registers a signal has passed before part `x`. */
  function Before(placement: seq<bool>, x: nat): (n: nat)
    requires x <= |placement|
    ensures n <= x
  {
    if x == 0 then 0 else Before(placement, x - 1) + if placement[x - 1] then 1 else 0
  }

  /** `s` is what `x` parts made of the operands clocked in `age` cycles before the newest. */
  ghost predicate Shows(width: nat, x: nat, s: Stage, h: seq<Operands>, age: nat)
    requires x <= width
  {
    age < |h| ==> s == Chain(width, x, h[|h| - 1 - age])
  }

  lemma PartShows(width: nat, x: nat, s: Stage, h: seq<Operands>, age: nat)
    requires x < width && |s.result| == width && Shows(width, x, s, h, age)
    ensures Shows(width, x + 1, Part(width - x - 1, s), h, age)
  {
  }

  /** A register delays what it is given by one more clock. */
  lemma RegisterShows(width: nat, x: nat, s: Stage, h: seq<Operands>, o: Operands, age: nat)
    requires x <= width && Shows(width, x, s, h, age)
    ensures Shows(width, x, s, h + [o], age + 1)
  {
  }

  lemma InputShows(width: nat, h: seq<Operands>, o: Operands)
    ensures Shows(width, 0, Stage(o.rhs, o.lhs, Zeros(width)), h + [o], 0)
  {
  }

  lemma ShowsResult(width: nat, s: Stage, h: seq<Operands>, age: nat)
    requires Shows(width, width, s, h, age) && forall o | o in h :: o.lhs < Pow2(width)
    ensures age < |h| ==>
      var o := h[|h| - 1 - age];
      && (o.rhs > 0 ==> Value(s.result) == o.lhs / o.rhs && s.remainder == o.lhs % o.rhs)
      && (o.rhs == 0 ==> Value(s.result) == Pow2(width) - 1 && s.remainder == o.lhs)
  {
    if age < |h| {
      ChainResult(width, h[|h| - 1 - age]);
    }
  }

  class UDivider {
    const width: nat
    const placement: seq<bool>
    const regs: array<Stage>
    /** Every pair of operands clocked in so far. */
    ghost var history: seq<Operands>

    ghost predicate Valid()
      reads this, regs
    {
      && |placement| == regs.Length == width + 1
      && (forall x | 0 <= x <= width :: |regs[x].result| == width)
      && (forall o | o in history :: o.lhs < Pow2(width))
      && forall x | 0 <= x <= width && placement[x] :: Shows(width, x, regs[x], history, Before(placement, x))
    }

    ghost function Latency(): nat
      requires |placement| == width + 1
    {
      Before(placement, width + 1)
    }

    constructor (width: nat, placement: seq<bool>)
      requires |placement| == width + 1
      ensures Valid() && history == [] && this.width == width && this.placement == placement && fresh(regs)
    {
      this.width, this.placement := width, placement;
      regs := new Stage[width + 1](_ => Stage(0, 0, Zeros(width)));
      history := [];
    }

    /** One cycle: the output settles from the registers, then every register takes its input. */
    method Clock(lhs: nat, rhs: nat) returns (quotient: nat, remainder: nat)
      requires Valid()
      requires lhs < Pow2(width)
      modifies this, regs
      ensures Valid() && history == old(history) + [Operands(lhs, rhs)]
      ensures Latency() < |history| ==>
        var o := history[|history| - 1 - Latency()];
        && (o.rhs > 0 ==> quotient == o.lhs / o.rhs && remainder == o.lhs % o.rhs)
        && (o.rhs == 0 ==> quotient == Pow2(width) - 1 && remainder == o.lhs)
    {
      hide Shows, Chain;
      ghost var before, h := history, history + [Operands(lhs, rhs)];
      var s := Stage(rhs, lhs, Zeros(width));
      assert Shows(width, 0, s, h, 0) by { InputShows(width, before, Operands(lhs, rhs)); }
      for x := 0 to width + 1
        invariant |s.result| == width && forall y | 0 <= y <= width :: |regs[y].result| == width
        invariant Shows(width, if x <= width then x else width, s, h, Before(placement, x))
        invariant forall y | 0 <= y < x && placement[y] :: Shows(width, y, regs[y], h, Before(placement, y))
        invariant forall y | x <= y <= width && placement[y] :: Shows(width, y, regs[y], before, Before(placement, y))
      {
        if placement[x] {
          RegisterShows(width, x, regs[x], before, Operands(lhs, rhs), Before(placement, x));
          s, regs[x] := regs[x], s;
        }
        if x < width {
          PartShows(width, x, s, h, Before(placement, x + 1));
          s := Part(width - x - 1, s);
        }
      }
      history := h;
      quotient, remainder := Value(s.result), s.remainder;
      ShowsResult(width, s, h, Latency());
    }
  }
}
