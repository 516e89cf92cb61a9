/** Shifting left and bitwise OR on unbounded numbers. */
module Numbers {
  /** `m` with `k` zero digits appended. */
  function Shl(m: nat, k: nat): nat { if k == 0 then m else 2 * Shl(m, k - 1) }

  lemma {:induction false} ShlAdds(m: nat, n: nat, k: nat)
    ensures Shl(m + n, k) == Shl(m, k) + Shl(n, k)
    ensures Shl(0, k) == 0 && Shl(1, k) > 0
  {
    if k > 0 { ShlAdds(m, n, k - 1); }
  }

  lemma {:induction false} ShlShl(m: nat, i: nat, j: nat)
    ensures Shl(Shl(m, i), j) == Shl(m, i + j)
  {
    if j > 0 { ShlShl(m, i, j - 1); }
  }

  lemma ShlOrder(m: nat, n: nat, k: nat)
    ensures m <= n <==> Shl(m, k) <= Shl(n, k)
    ensures m < n ==> Shl(m, k) + Shl(1, k) <= Shl(n, k)
  {
    if m < n {
      ShlAdds(m, 1, k);
      ShlAdds(m + 1, n - m - 1, k);
    } else {
      ShlAdds(n, m - n, k);
      ShlPositive(m - n, k);
    }
  }

  lemma {:induction false} ShlPositive(m: nat, k: nat)
    ensures m > 0 <==> Shl(m, k) > 0
  {
    if k > 0 { ShlPositive(m, k - 1); }
  }

  lemma {:induction false} ShlTimes(d: nat, k: nat)
    ensures Shl(1, k) * d == Shl(d, k)
  {
    if k > 0 {
      ShlTimes(d, k - 1);
      Double(Shl(1, k - 1), d);
    }
  }

  lemma Double(x: nat, d: nat)
    ensures 2 * x * d == 2 * (x * d)
  {
  }

  /** Bitwise OR. */
  function Or(x: nat, y: nat): nat {
    if x == 0 && y == 0 then 0
    else (if x % 2 == 1 || y % 2 == 1 then 1 else 0) + 2 * Or(x / 2, y / 2)
  }

  /** OR adds when all digits of one operand lie above those of the other. */
  lemma {:induction false} OrDisjoint(m: nat, y: nat, k: nat)
    requires y < Shl(1, k)
    ensures Or(Shl(m, k), y) == Or(y, Shl(m, k)) == Shl(m, k) + y
  {
    if k == 0 {
      OrZero(m);
    } else {
      OrDisjoint(m, y / 2, k - 1);
    }
  }

  lemma {:induction false} OrZero(x: nat)
    ensures Or(x, 0) == Or(0, x) == x
  {
    if x > 0 {
      OrZero(x / 2);
    }
  }
}
