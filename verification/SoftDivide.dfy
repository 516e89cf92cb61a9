/**
 The unsigned 64-bit division routine: a shift-and-subtract divide on pairs of 32-bit registers.
 Register contents are numbers below 2^32; bitwise OR is written out digit by digit.
 */
module SoftDivide {
  import opened Divider
  import opened Numbers
  import opened SignedDivider

  const W := 0x1_0000_0000
  type Word = w: int | 0 <= w < W

  function Pair(hi: Word, lo: Word): nat { hi * W + lo }

  lemma ShlWord(m: nat)
    ensures Shl(m, 32) == m * W && Shl(1, 31) == 0x8000_0000
  {
    ShlTimes(m, 32);
    assert Shl(1, 8) == 0x100;
    assert Shl(1, 16) == 0x1_0000;
    assert Shl(1, 24) == 0x100_0000;
  }

  /* ---- Register operations ---- */

  /** sub: difference modulo 2^32. */
  function Sub(x: Word, y: Word): Word { if x >= y then x - y else x - y + W }

  /** sll and srl. */
  function Sll(x: Word, k: nat): Word { if k == 0 then x else 2 * Sll(x, k - 1) % W }
  function Srl(x: Word, k: nat): Word { if k == 0 then x else Srl(x, k - 1) / 2 }

  lemma {:induction false} SllIsShl(x: Word, k: nat)
    ensures Sll(x, k) == Shl(x, k) % W
  {
    if k > 0 {
      SllIsShl(x, k - 1);
      DoubleMod(Shl(x, k - 1));
    }
  }

  lemma DoubleMod(y: nat)
    ensures 2 * (y % W) % W == 2 * y % W
  {
  }

  lemma {:induction false} SrlIsQuotient(x: Word, k: nat)
    ensures Shl(Srl(x, k), k) <= x < Shl(Srl(x, k) + 1, k)
  {
    if k > 0 {
      SrlIsQuotient(x, k - 1);
      var s: nat := Srl(x, k - 1);
      ShlShl(s / 2, 1, k - 1);
      ShlShl(s / 2 + 1, 1, k - 1);
      assert Shl(s / 2, 1) == 2 * (s / 2) && Shl(s / 2 + 1, 1) == 2 * (s / 2) + 2;
      ShlOrder(2 * (s / 2), s, k - 1);
      ShlOrder(s + 1, 2 * (s / 2) + 2, k - 1);
    }
  }

  /** The digits shifted out of the low register are the ones shifted into the high one. */
  lemma ShiftApart(x: Word, t: nat)
    requires 0 < t < 32
    ensures Pair(Srl(x, 32 - t), Sll(x, t)) == Shl(x, t)
    ensures Srl(x, 32 - t) < Shl(1, t)
  {
    var s, u := Srl(x, 32 - t), 32 - t;
    SllIsShl(x, t);
    SrlIsQuotient(x, u);
    ShlOrder(Shl(s, u), x, t);
    ShlOrder(x + 1, Shl(s + 1, u), t);
    ShlOrder(x, x + 1, t);
    ShlAdds(0, 1, t);
    ShlShl(s, u, t);
    ShlShl(s + 1, u, t);
    ShlWord(s);
    ShlWord(s + 1);
    SplitMod(Shl(x, t), s);
    // x has only 32 digits.
    ShlShl(1, t, u);
    ShlWord(1);
    ShlOrder(Shl(1, t), s, u);
  }

  lemma SplitMod(x: nat, s: nat)
    requires s * W <= x < (s + 1) * W
    ensures s * W + x % W == x
  {
  }

  /** The lowest digit moves to the top, the others out. */
  lemma TopDigit(x: Word)
    ensures 0x8000_0000 * x % W == 0x8000_0000 * (x % 2)
  {
    var q, b := x / 2, x % 2;
    assert 0x8000_0000 * x == W * q + 0x8000_0000 * b;
  }

  lemma LowDigitUp(x: Word)
    ensures Sll(x, 31) == Shl(x % 2, 31) == 0x8000_0000 * (x % 2)
  {
    hide Sll, Shl;
    ShlWord(1);
    ShlTimes(x, 31);
    ShlTimes(x % 2, 31);
    SllIsShl(x, 31);
    TopDigit(x);
  }

  /** One right shift of a register pair. */
  lemma ShiftPairRight(hi: Word, lo: Word)
    ensures Or(lo / 2, Sll(hi, 31)) < W
    ensures Pair(hi / 2, Or(lo / 2, Sll(hi, 31))) == Pair(hi, lo) / 2
  {
    hide Sll, Shl, Or;
    LowDigitUp(hi);
    ShlWord(1);
    OrDisjoint(hi % 2, lo / 2, 31);
  }

  /** A multiple of 2^k below 2^32 leaves room for everything below 2^k. */
  lemma RoomBelow(m: nat, k: nat)
    requires k <= 32 && Shl(m, k) < W
    ensures Shl(m, k) + Shl(1, k) <= W
  {
    ShlShl(1, 32 - k, k);
    ShlWord(1);
    ShlOrder(m, Shl(1, 32 - k), k);
    ShlOrder(Shl(1, 32 - k), m, k);
  }

  /** Setting a digit below all the digits set so far. */
  lemma OrDigit(m: nat, k: nat)
    requires k < 32 && Shl(m, k + 1) < W
    ensures Sll(1, k) == Shl(1, k)
    ensures Or(Shl(m, k + 1), Sll(1, k)) == Shl(m, k + 1) + Shl(1, k) == Shl(2 * m + 1, k) < W
  {
    hide Or, Sll, Shl;
    DigitBelow(k);
    SllIsShl(1, k);
    DigitMore(m, k);
    RoomBelow(m, k + 1);
    OrDisjoint(m, Shl(1, k), k + 1);
  }

  lemma DigitMore(m: nat, k: nat)
    ensures Shl(m, k + 1) + Shl(1, k) == Shl(2 * m + 1, k)
    ensures Shl(1, k) < Shl(1, k + 1) && Shl(1, k + 1) == 2 * Shl(1, k)
  {
    ShlPositive(1, k);
    ShlShl(m, 1, k);
    ShlAdds(2 * m, 1, k);
    assert Shl(m, 1) == 2 * m;
  }

  lemma DigitBelow(k: nat)
    requires k < 32
    ensures 0 < Shl(1, k) < W
  {
    ShlPositive(1, k);
    ShlWord(1);
    ShlShl(1, k, 31 - k);
    ShlGrows(Shl(1, k), 31 - k);
  }

  lemma {:induction false} ShlGrows(m: nat, k: nat)
    ensures Shl(m, k) >= m
  {
    if k > 0 { ShlGrows(m, k - 1); }
  }

  lemma ShlSmall(m: nat, k: nat)
    requires m > 0 && Shl(m, k) < 0x8000_0000
    ensures k < 31
  {
    if k >= 31 {
      ShlShl(m, k - 31, 31);
      ShlPositive(m, k - 31);
      ShlWord(1);
      ShlOrder(1, Shl(m, k - 31), 31);
    }
  }

  /* ---- The routine ---- */

  /** .shlcheck: shift the divisor up until its top digit is in place, counting the shifts. */
  method Normalise(lo: Word, hi: Word) returns (a2: Word, a3: Word, a6: nat)
    requires Pair(hi, lo) != 0
    ensures a6 < 64 && a3 >= 0x8000_0000
    ensures Pair(a3, a2) == Shl(Pair(hi, lo), a6)
  {
    a2, a3, a6 := lo, hi, 0;
    ghost var base := 0;
    if a3 == 0 {
      a3, a2, a6 := a2, 0, 32;
      base := 32;
    }
    ghost var h, k := a3, 0;
    while a3 < 0x8000_0000
      invariant a6 == base + k && 0 < a3 == Shl(h, k) && k <= 31
      decreases W - a3
    {
      ShlSmall(h, k);
      assert Sll(a3, 0) == a3;
      a3, a6, k := Sll(a3, 1), a6 + 1, k + 1;
    }
    var t0 := a6 % 32;
    if t0 != 0 {
      var t2 := Srl(a2, 32 - t0);
      ShiftApart(a2, t0);
      ShlAdds(0, 0, t0);
      RoomBelow(h, k);
      OrDisjoint(h, t2, k);
      a3, a2 := Or(a3, t2), Sll(a2, t0);
    }
    NormalPair(lo, hi, h, k, a2, a3);
  }

  lemma NormalPair(lo: Word, hi: Word, h: nat, k: nat, a2: Word, a3: Word)
    requires h == if hi == 0 then lo else hi
    requires Pair(a3, a2) == Shl(h, k) * W + if hi == 0 then 0 else Shl(lo, k)
    ensures Pair(a3, a2) == Shl(Pair(hi, lo), if hi == 0 then 32 + k else k)
  {
    ShlWord(h);
    ShlWord(Shl(h, k));
    ShlShl(h, k, 32);
    ShlShl(h, 32, k);
    ShlAdds(h * W, lo, k);
  }

  /** The quotient registers a5:a4 hold digits a6+1 and up of the quotient. */
  ghost predicate Digits(a4: Word, a5: Word, m: nat, a6: int)
    requires -1 <= a6 < 64
  {
    if a6 >= 31 then a4 == 0 && a5 == Shl(m, a6 - 31) else a4 == Shl(m, a6 + 1)
  }

  /** .yessub: set quotient digit a6. */
  method SetDigit(a4: Word, a5: Word, a6: nat, ghost m: nat) returns (b4: Word, b5: Word, ghost m': nat)
    requires a6 < 64 && Digits(a4, a5, m, a6)
    ensures Pair(b5, b4) == Pair(a5, a4) + Shl(1, a6)
    ensures Digits(b4, b5, m', a6 - 1)
  {
    hide Sll, Shl, Or, Digits, Pair;
    b4, b5, m' := a4, a5, if a6 == 31 then 1 else 2 * m + 1;
    var t0 := Sll(1, a6 % 32);
    if a6 >= 32 {
      SetHigh(a4, a5, a6, m);
      b5 := Or(a5, t0);
    } else {
      SetLow(a4, a5, a6, m);
      b4 := Or(a4, t0);
    }
  }

  /** .sethi32 */
  lemma SetHigh(a4: Word, a5: Word, a6: nat, m: nat)
    requires 32 <= a6 < 64 && Digits(a4, a5, m, a6)
    ensures var b5 := Or(a5, Sll(1, a6 % 32));
      && b5 < W && Pair(b5, a4) == Pair(a5, a4) + Shl(1, a6)
      && Digits(a4, b5, 2 * m + 1, a6 - 1)
  {
    assert a6 % 32 == a6 - 32;
    hide Sll, Shl, Or;
    OrDigit(m, a6 - 32);
    HighDigit(a6);
  }

  lemma SetLow(a4: Word, a5: Word, a6: nat, m: nat)
    requires a6 < 32 && Digits(a4, a5, m, a6)
    ensures var b4 := Or(a4, Sll(1, a6 % 32));
      && b4 < W && Pair(a5, b4) == Pair(a5, a4) + Shl(1, a6)
      && Digits(b4, a5, if a6 == 31 then 1 else 2 * m + 1, a6 - 1)
  {
    assert a6 % 32 == a6;
    if a6 == 31 {
      SetTop(a4, a5, m);
    } else {
      hide Sll, Shl, Or;
      OrDigit(m, a6);
    }
  }

  lemma SetTop(a4: Word, a5: Word, m: nat)
    requires Digits(a4, a5, m, 31)
    ensures var b4 := Or(a4, Sll(1, 31));
      && b4 < W && Pair(a5, b4) == Pair(a5, a4) + Shl(1, 31)
      && Digits(b4, a5, 1, 30)
  {
    hide Sll, Shl, Or;
    OrZero(Sll(1, 31));
    OneDigit(31);
  }

  lemma HighDigit(a6: nat)
    requires 32 <= a6
    ensures Shl(1, a6) == Shl(1, a6 - 32) * W
  {
    ShlShl(1, a6 - 32, 32);
    ShlWord(Shl(1, a6 - 32));
  }

  lemma OneDigit(k: nat)
    requires k < 32
    ensures Sll(1, k) == Shl(1, k)
  {
    SllIsShl(1, k);
    DigitBelow(k);
  }

  /** Where no digit is set, the digits above a6 are also the digits from a6 up. */
  lemma SkipDigit(a4: Word, a5: Word, a6: nat, m: nat) returns (m': nat)
    requires a6 < 64 && Digits(a4, a5, m, a6)
    ensures Digits(a4, a5, m', a6 - 1)
  {
    if a6 == 31 {
      m' := 0;
      ShlAdds(0, 0, 31);
    } else {
      m' := 2 * m;
      ShlShl(m, 1, if a6 >= 32 then a6 - 32 else a6);
      assert Shl(m, 1) == 2 * m;
    }
  }

  /** .subcheck: compare the register pairs, high words first. */
  predicate Subtractable(a0: Word, a1: Word, a2: Word, a3: Word) {
    if a1 < a3 then false else if a1 > a3 then true else a0 >= a2
  }

  lemma SubtractPair(a0: Word, a1: Word, a2: Word, a3: Word)
    ensures Subtractable(a0, a1, a2, a3) <==> Pair(a1, a0) >= Pair(a3, a2)
    ensures Subtractable(a0, a1, a2, a3) ==>
      Pair(Sub(Sub(a1, a3), if a0 < a2 then 1 else 0), Sub(a0, a2)) == Pair(a1, a0) - Pair(a3, a2)
  {
  }

  /** .divcheck: one quotient digit per shift, from a6 down to zero. */
  method DivideLoop(n0: Word, n1: Word, d0: Word, d1: Word, shift: nat, ghost d: nat)
    returns (a0: Word, a1: Word, a4: Word, a5: Word)
    requires shift < 64 && d1 >= 0x8000_0000 && Pair(d1, d0) == Shl(d, shift)
    ensures Pair(a5, a4) * d + Pair(a1, a0) == Pair(n1, n0)
    ensures Pair(a1, a0) < d
  {
    a0, a1, a4, a5 := n0, n1, 0, 0;
    var a2: Word, a3: Word, a6: int := d0, d1, shift;
    ghost var n, m := Pair(n1, n0), 0;
    ShlAdds(0, 0, 0);
    StartDigits(shift);
    while a6 >= 0
      invariant -1 <= a6 < 64
      invariant a6 >= 0 ==> Pair(a3, a2) == Shl(d, a6)
      invariant Pair(a5, a4) * d + Pair(a1, a0) == n
      invariant Pair(a1, a0) < Shl(d, a6 + 1)
      invariant Digits(a4, a5, m, a6)
      decreases a6
    {
      SubtractPair(a0, a1, a2, a3);
      if Subtractable(a0, a1, a2, a3) {
        var t0 := if a0 < a2 then 1 else 0;
        ShlTimes(d, a6);
        Expand(Pair(a5, a4), Shl(1, a6), d);
        a1 := Sub(Sub(a1, a3), t0);
        a0 := Sub(a0, a2);
        a4, a5, m := SetDigit(a4, a5, a6, m);
      } else {
        m := SkipDigit(a4, a5, a6, m);
      }
      ShiftPairRight(a3, a2);
      var t0 := Sll(a3, 31);
      a2 := Or(a2 / 2, t0);
      a3 := a3 / 2;
      a6 := a6 - 1;
    }
  }

  lemma StartDigits(shift: nat)
    requires shift < 64
    ensures Digits(0, 0, 0, shift)
  {
    ShlAdds(0, 0, shift + 1);
    if shift >= 31 { ShlAdds(0, 0, shift - 31); }
  }

  lemma Expand(x: nat, y: nat, d: nat)
    ensures (x + y) * d == x * d + y * d
  {
  }

  /** Quotient and remainder are the only pair with these two properties. */
  lemma OnlyQuotient(n: nat, d: nat, q: nat, r: nat)
    requires q * d + r == n && r < d
    ensures q == n / d && r == n % d
  {
    DivModUnique(n, d, q, r);
  }

  class Routine {
    // The result cache: (high, low) words of the dividend, divisor, quotient and remainder.
    var cdividend: (Word, Word)
    var cdivisor: (Word, Word)
    var cdiv: (Word, Word)
    var cmod: (Word, Word)

    /** The cached operands are zero from start-up on: nothing ever stores them. */
    predicate Valid()
      reads this
    {
      cdividend == (0, 0) && cdivisor == (0, 0)
    }

    /** Everything is zero at start-up. */
    constructor ()
      ensures Valid()
    {
      cdividend, cdivisor, cdiv, cmod := (0, 0), (0, 0), (0, 0), (0, 0);
    }

    /** cudivmoddi: dividend a1:a0 by divisor a3:a2.  Quotient in a1:a0, remainder in a3:a2.  A zero
        divisor only makes sense where the 32-bit instructions handle it. */
    method Divide(a0: Word, a1: Word, a2: Word, a3: Word) returns (q0: Word, q1: Word, r0: Word, r1: Word)
      requires Valid()
      requires Pair(a3, a2) == 0 ==> a1 == 0
      modifies this
      ensures Valid()
      ensures Pair(a3, a2) != 0 ==>
        && Pair(q1, q0) == Pair(a1, a0) / Pair(a3, a2)
        && Pair(r1, r0) == Pair(a1, a0) % Pair(a3, a2)
      ensures Pair(a3, a2) == 0 ==> (q1, q0) == (0, W - 1) && (r1, r0) == (0, a0)
    {
      OrIsZero(a1, a3);
      if Or(a1, a3) == 0 {
        return Divu(a0, a2), 0, Remu(a0, a2), 0;
      }
      if cdividend == (a1, a0) && cdivisor == (a3, a2) {
        // Two zero operands took the 32-bit path, so the cached result is never used.
        assert false;
      }
      var d0, d1, a6 := Normalise(a2, a3);
      ghost var d := Pair(a3, a2);
      r0, r1, q0, q1 := DivideLoop(a0, a1, d0, d1, a6, d);
      OnlyQuotient(Pair(a1, a0), d, Pair(q1, q0), Pair(r1, r0));
      cdiv, cmod := (q1, q0), (r1, r0);
    }
  }

  /** divu and remu. */
  function Divu(x: Word, y: Word): Word { if y == 0 then W - 1 else QuotientSmall(x, y); x / y }
  function Remu(x: Word, y: Word): Word { if y == 0 then x else x % y }

  lemma QuotientSmall(x: nat, y: nat)
    requires y > 0
    ensures x / y <= x
  {
    QuotientBound(x, y, x / y, x % y);
  }

  lemma {:induction false} OrIsZero(x: nat, y: nat)
    ensures Or(x, y) == 0 <==> x == 0 && y == 0
    decreases x + y
  {
    if x > 0 || y > 0 {
      OrIsZero(x / 2, y / 2);
    }
  }
}
