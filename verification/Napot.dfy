/**
 The NAPOT address encoder of the C header against the bit-trick decoder of the PMP: a written region
 is matched exactly.
 */
module Napot {
  import opened Divider
  import opened Pmp

  /** Binary digit `k` of `x`. */
  function Digit(x: nat, k: nat): bool {
    if k == 0 then x % 2 == 1 else Digit(x / 2, k - 1)
  }

  /** The low `n` digits of `x`, least significant first. */
  function Binary(x: nat, n: nat): (b: Bits)
    ensures |b| == n && forall k | 0 <= k < n :: b[k] == Digit(x, k)
  {
    seq(n, k requires k >= 0 => Digit(x, k))
  }

  /** What is left of `x` above its low `n` digits. */
  function High(x: nat, n: nat): nat {
    if n == 0 then x else High(x / 2, n - 1)
  }

  /* ---- The encoder, on 32-bit words ---- */

  function And(x: Bits, y: Bits): Bits
    requires |x| == |y|
  {
    seq(|x|, k requires 0 <= k < |x| => x[k] && y[k])
  }

  function Or(x: Bits, y: Bits): Bits
    requires |x| == |y|
  {
    seq(|x|, k requires 0 <= k < |x| => x[k] || y[k])
  }

  function Not(x: Bits): Bits {
    seq(|x|, k requires 0 <= k < |x| => !x[k])
  }

  /** A shift right by `n` with the sign copies masked off. */
  function Shr(x: Bits, n: nat): Bits
    requires n <= |x|
  {
    x[n..] + Zeros(n)
  }

  /** One less, by borrowing. */
  function Less(x: Bits): (y: Bits)
    ensures |y| == |x|
  {
    if x == [] then [] else if x[0] then [false] + x[1..] else [true] + Less(x[1..])
  }

  lemma {:induction false} LessIsOneLess(x: Bits)
    ensures Value(Less(x)) == if Value(x) > 0 then Value(x) - 1 else Pow2(|x|) - 1
  {
    if x != [] && !x[0] {
      LessIsOneLess(x[1..]);
    }
  }

  /** `_pmp_addr_napot(addr, pot)`. */
  function Encode(addr: Bits, pot: Bits): (e: Bits)
    requires |addr| == |pot| == 32
    ensures |e| == 32
  {
    Or(And(Shr(addr, 2), Not(Shr(pot, 3))), Less(Shr(pot, 3)))
  }

  /** The address bits a CSR write keeps: `alen - 2` down to `grain - 2` of the written word. */
  function Held(s: Shape, word: Bits): (b: Bits)
    requires s.Ok() && s.width + s.grain <= 34 && |word| == 32
    ensures |b| == s.width
  {
    word[s.grain - 2..s.width + s.grain - 2]
  }

  /* ---- Digits of what the encoder makes ---- */

  lemma {:induction false} DigitsOfPower(n: nat, k: nat)
    ensures Digit(Pow2(n), k) == (k == n)
  {
    if k > 0 && n > 0 {
      DigitsOfPower(n - 1, k - 1);
    } else if k > 0 {
      DigitsOfZero(k - 1);
    }
  }

  lemma {:induction false} DigitsOfZero(k: nat)
    ensures !Digit(0, k)
  {
    if k > 0 {
      DigitsOfZero(k - 1);
    }
  }

  lemma {:induction false} DigitsOfSmall(x: nat, m: nat, k: nat)
    requires x < Pow2(m) && m <= k
    ensures !Digit(x, k)
  {
    if m > 0 {
      DigitsOfSmall(x / 2, m - 1, k - 1);
    } else {
      DigitsOfZero(k);
    }
  }

  lemma {:induction false} LessOfOneHot(x: Bits, m: nat)
    requires m < |x| && forall k | 0 <= k < |x| :: x[k] == (k == m)
    ensures forall k | 0 <= k < |x| :: Less(x)[k] == (k < m)
  {
    if m > 0 {
      LessOfOneHot(x[1..], m - 1);
    }
  }

  lemma {:induction false} DigitsOfAligned(x: nat, n: nat, k: nat)
    requires x % Pow2(n) == 0 && k < n
    ensures !Digit(x, k)
  {
    HalveAligned(x, n);
    if k > 0 {
      DigitsOfAligned(x / 2, n - 1, k - 1);
    }
  }

  lemma HalveAligned(x: nat, n: nat)
    requires x % Pow2(n) == 0 && n > 0
    ensures x % 2 == 0 && (x / 2) % Pow2(n - 1) == 0
  {
    var q := x / Pow2(n);
    var h := Pow2(n - 1);
    assert x == q * Pow2(n);
    assert x == 2 * (q * h) by {
      assert q * (2 * h) == 2 * (q * h);
    }
    DivModUnique(x / 2, h, q, 0);
  }

  /** The encoded word: ones, the stop bit, then the base. */
  lemma EncodedDigits(base: nat, n: nat, j: nat)
    requires 3 <= n < 32 && base < Pow2(32) && j < 32
    ensures Encode(Binary(base, 32), Binary(Pow2(n), 32))[j]
         == if j < n - 3 then true else if j == n - 3 then false else Digit(base, j + 2)
  {
    var pot := Binary(Pow2(n), 32);
    forall k | 0 <= k < 32 ensures Shr(pot, 3)[k] == (k == n - 3) {
      if k < 29 {
        DigitsOfPower(n, k + 3);
      }
    }
    LessOfOneHot(Shr(pot, 3), n - 3);
    if j >= 30 {
      DigitsOfSmall(base, 32, j + 2);
    }
  }

  /* ---- The mask chain ---- */

  /** A region code with `t` ones below its stop bit. */
  predicate Code(p: Bits, t: nat) {
    forall k | 0 <= k < |p| :: (k < t ==> p[k]) && (k == t ==> !p[k])
  }

  /** The chain computes the trailing ones, and the stop bit is the first zero. */
  lemma {:induction false} ChainIsTrailingOnes(p: Bits, t: nat, x: nat)
    requires Code(p, t) && x < |p|
    ensures MaskBit(p, x) == (x < t) && StopBit(p, x) == (x == t)
  {
    if x > 0 {
      ChainIsTrailingOnes(p, t, x - 1);
    }
  }

  lemma MatchIsAgreementAbove(a: Bits, p: Bits, t: nat)
    requires |a| == |p| && Code(p, t)
    ensures NapotMatch(a, p) <==> forall x | t < x < |p| :: a[x] == p[x]
  {
    forall x | 0 <= x < |p| ensures MaskBit(p, x) == (x < t) && StopBit(p, x) == (x == t) {
      ChainIsTrailingOnes(p, t, x);
    }
  }

  /* ---- Agreement of high digits is a numeric range ---- */

  lemma {:induction false} EqualHighDigits(x: nat, y: nat, n: nat, k: nat)
    requires High(x, n) == High(y, n) && n <= k
    ensures Digit(x, k) == Digit(y, k)
  {
    if n > 0 {
      EqualHighDigits(x / 2, y / 2, n - 1, k - 1);
    }
  }

  lemma {:induction false} DifferingDigit(x: nat, y: nat, n: nat, m: nat) returns (k: nat)
    requires High(x, n) != High(y, n) && x < Pow2(m) && y < Pow2(m)
    ensures n <= k < m && Digit(x, k) != Digit(y, k)
    decreases m
  {
    if m == 0 {
      assert false;
    } else if n > 0 {
      k := DifferingDigit(x / 2, y / 2, n - 1, m - 1);
      k := k + 1;
    } else if x % 2 != y % 2 {
      k := 0;
    } else {
      k := DifferingDigit(x / 2, y / 2, 0, m - 1);
      k := k + 1;
    }
  }

  lemma {:induction false} HighRange(a: nat, base: nat, n: nat)
    requires base % Pow2(n) == 0
    ensures High(a, n) == High(base, n) <==> base <= a < base + Pow2(n)
  {
    if n > 0 {
      HalveAligned(base, n);
      HighRange(a / 2, base / 2, n - 1);
    }
  }

  /* ---- Main results ---- */

  /** The address lines the match compares. */
  function Lines(s: Shape, a: nat): (b: Bits)
    ensures |b| == s.width
  {
    Binary(a, s.width + s.grain)[s.grain..]
  }

  /** Bit `x` of the code held for the region of size 2^n at `base`. */
  function CodeBit(base: nat, n: nat, grain: nat, x: nat): bool {
    if x + grain + 1 < n then true else if x + grain + 1 == n then false else Digit(base, x + grain)
  }

  lemma HeldBit(s: Shape, base: nat, n: nat, x: nat)
    requires s.Ok() && s.width + s.grain <= 34 && base < Pow2(32) && s.grain < n < 32 && x < s.width
    ensures Held(s, Encode(Binary(base, 32), Binary(Pow2(n), 32)))[x] == CodeBit(base, n, s.grain, x)
  {
    hide Encode;
    EncodedDigits(base, n, x + s.grain - 2);
  }

  /** A code with these bits matches exactly the addresses of the region. */
  lemma CodeIsRange(s: Shape, p: Bits, base: nat, n: nat, a: nat)
    requires |p| == s.width && s.grain < n
    requires forall x | 0 <= x < s.width :: p[x] == CodeBit(base, n, s.grain, x)
    requires base < Pow2(s.width + s.grain) && base % Pow2(n) == 0
    requires a < Pow2(s.width + s.grain)
    ensures NapotMatch(Lines(s, a), p) <==> base <= a < base + Pow2(n)
  {
    hide NapotMatch, Pow2, Digit;
    var t := n - 1 - s.grain;
    MatchIsAgreementAbove(Lines(s, a), p, t);
    HighRange(a, base, n);
    if High(a, n) == High(base, n) {
      forall x | t < x < s.width ensures Lines(s, a)[x] == p[x] {
        EqualHighDigits(a, base, n, x + s.grain);
      }
    } else {
      var k := DifferingDigit(a, base, n, s.width + s.grain);
      assert Lines(s, a)[k - s.grain] != p[k - s.grain];
    }
  }

  /** The written code matches exactly the addresses of the region. */
  lemma NapotIsRange(s: Shape, base: nat, n: nat, a: nat)
    requires s.Ok() && s.width + s.grain <= 34 && s.grain < n < 32
    requires base < Pow2(32) && base < Pow2(s.width + s.grain) && base % Pow2(n) == 0
    requires a < Pow2(s.width + s.grain)
    ensures NapotMatch(Lines(s, a), Held(s, Encode(Binary(base, 32), Binary(Pow2(n), 32))))
       <==> base <= a < base + Pow2(n)
  {
    hide Encode, Held, NapotMatch, Lines, Pow2, CodeBit;
    var p := Held(s, Encode(Binary(base, 32), Binary(Pow2(n), 32)));
    forall x | 0 <= x < s.width ensures p[x] == CodeBit(base, n, s.grain, x) {
      HeldBit(s, base, n, x);
    }
    CodeIsRange(s, p, base, n, a);
  }

  /** Through the CSR: a writeable entry in NAPOT mode covers exactly the region written to it. */
  lemma WrittenRegion(s: Shape, b: seq<Entry>, i: nat, base: nat, n: nat, a: nat)
    requires BankOk(s, b) && i < s.depth && Writeable(s, b, i) && b[i].cfg.mode == NAPOT
    requires s.width + s.grain <= 34 && s.grain < n < 32
    requires base < Pow2(32) && base < Pow2(s.width + s.grain) && base % Pow2(n) == 0
    requires a < Pow2(s.width + s.grain)
    ensures var code := Held(s, Encode(Binary(base, 32), Binary(Pow2(n), 32)));
      Covers(s, WriteCsr(s, b, ToAddr(i, code)), i, Lines(s, a)) <==> base <= a < base + Pow2(n)
  {
    NapotIsRange(s, base, n, a);
  }
}
