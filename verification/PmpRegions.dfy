/**
 Which byte addresses a PMP entry covers, in each of its modes, once its bounds have been written through
 the CSRs, what access that gives, and which writes take effect.
 */
module PmpRegions {
  import opened Divider
  import opened Pmp
  import opened Napot

  /** The word software writes for the byte address `a`: the address without its two lowest bits. */
  function CsrWord(a: nat): (w: Bits)
    ensures |w| == 32
  {
    Binary(a / 4, 32)
  }

  /** Bit vectors of a shape that fits the 34-bit address space. */
  predicate ShapeOk(s: Shape) { s.Ok() && s.width + s.grain <= 34 }

  /* ---- The numbers on the address lines ---- */

  /** `n` digits of `x` from digit `k` on. */
  function Window(x: nat, k: nat, n: nat): (b: Bits)
    ensures |b| == n && forall i | 0 <= i < n :: b[i] == Digit(x, k + i)
  {
    seq(n, i requires i >= 0 => Digit(x, k + i))
  }

  lemma {:induction false} WindowHalves(x: nat, k: nat, n: nat)
    requires k > 0
    ensures Window(x, k, n) == Window(x / 2, k - 1, n)
  {
  }

  lemma {:induction false} WindowValue(x: nat, k: nat, n: nat)
    requires x < Pow2(k + n)
    ensures Value(Window(x, k, n)) == x / Pow2(k)
    decreases k + n
  {
    if k > 0 {
      WindowHalves(x, k, n);
      WindowValue(x / 2, k - 1, n);
      HalfQuotient(x, Pow2(k - 1));
    } else if n > 0 {
      var w := Window(x, 0, n);
      assert w[1..] == Window(x / 2, 0, n - 1);
      WindowValue(x / 2, 0, n - 1);
    }
  }

  lemma HalfQuotient(x: nat, p: nat)
    requires p > 0
    ensures x / 2 / p == x / (2 * p)
  {
    var q, r := x / 2 / p, x / 2 % p;
    assert x / 2 == q * p + r;
    assert q * (2 * p) == 2 * (q * p);
    DivModUnique(x, 2 * p, q, 2 * r + x % 2);
  }

  /** What the match compares, and what a written bound is, are the address in granules. */
  lemma LinesValue(s: Shape, a: nat)
    requires ShapeOk(s) && a < Pow2(s.width + s.grain)
    ensures Value(Lines(s, a)) == a / Pow2(s.grain)
  {
    assert Lines(s, a) == Window(a, s.grain, s.width);
    WindowValue(a, s.grain, s.width);
  }

  lemma DigitOfQuarter(a: nat, k: nat)
    ensures Digit(a, k + 2) == Digit(a / 4, k)
  {
    assert Digit(a, k + 2) == Digit(a / 2, k + 1) == Digit(a / 2 / 2, k);
    assert a / 2 / 2 == a / 4;
  }

  lemma HeldLines(s: Shape, a: nat)
    requires ShapeOk(s)
    ensures Held(s, CsrWord(a)) == Lines(s, a)
  {
    forall i | 0 <= i < s.width ensures Held(s, CsrWord(a))[i] == Lines(s, a)[i] {
      var k := i + s.grain;
      DigitOfQuarter(a, k - 2);
    }
  }

  lemma {:induction false} GranuleOrder(lo: nat, a: nat, g: nat)
    requires g > 0 && lo % g == 0
    ensures lo / g <= a / g <==> lo <= a
  {
    var q := lo / g;
    assert lo == q * g;
    assert a == a / g * g + a % g;
    if q <= a / g {
      Times(q, a / g, g);
    } else {
      Times(a / g + 1, q, g);
      assert (a / g + 1) * g == a / g * g + g;
    }
  }

  lemma Times(x: nat, y: nat, g: nat)
    requires x <= y
    ensures x * g <= y * g
  {
    if x < y {
      MulOrder(x, y, g);
    }
  }

  /* ---- Top of range ---- */

  /** Entry `i` in mode TOR, bounds `lo` and `hi` written to the registers before and of it: it covers
      exactly the bytes from `lo` to below `hi`.  Entry 0 starts at address 0. */
  lemma TorRegion(s: Shape, b: seq<Entry>, i: nat, lo: nat, hi: nat, a: nat)
    requires ShapeOk(s) && BankOk(s, b) && i < s.depth && b[i].cfg.mode == TOR
    requires b[i].addr == Held(s, CsrWord(hi))
    requires if i == 0 then lo == 0 else b[i - 1].addr == Held(s, CsrWord(lo))
    requires lo % Pow2(s.grain) == 0 && hi % Pow2(s.grain) == 0
    requires lo < Pow2(s.width + s.grain) && hi < Pow2(s.width + s.grain) && a < Pow2(s.width + s.grain)
    ensures Covers(s, b, i, Lines(s, a)) <==> lo <= a < hi
  {
    HeldLines(s, lo);
    HeldLines(s, hi);
    hide Held, CsrWord, Lines;
    LinesValue(s, a);
    LinesValue(s, hi);
    if i == 0 {
      ZerosValue(s.width);
      ZeroQuotient(Pow2(s.grain));
    } else {
      LinesValue(s, lo);
    }
    GranuleOrder(lo, a, Pow2(s.grain));
    GranuleOrder(hi, a, Pow2(s.grain));
  }

  lemma ZeroQuotient(g: nat)
    requires g > 0
    ensures 0 / g == 0
  {
  }

  /** The same after the two writes, to entries whose writes take effect. */
  lemma TorWritten(s: Shape, b: seq<Entry>, i: nat, lo: nat, hi: nat, a: nat)
    requires ShapeOk(s) && BankOk(s, b) && 0 < i < s.depth && b[i].cfg.mode == TOR
    requires Unlocked(s, b, i) && Unlocked(s, b, i - 1)
    requires lo % Pow2(s.grain) == 0 && hi % Pow2(s.grain) == 0
    requires lo < Pow2(s.width + s.grain) && hi < Pow2(s.width + s.grain) && a < Pow2(s.width + s.grain)
    ensures var b1 := WriteCsr(s, b, ToAddr(i - 1, Held(s, CsrWord(lo))));
      Covers(s, WriteCsr(s, b1, ToAddr(i, Held(s, CsrWord(hi)))), i, Lines(s, a)) <==> lo <= a < hi
  {
    var b1 := WriteCsr(s, b, ToAddr(i - 1, Held(s, CsrWord(lo))));
    AddressTaken(s, b, i - 1, Held(s, CsrWord(lo)));
    AddressTaken(s, b1, i, Held(s, CsrWord(hi)));
    hide Held, CsrWord, Lines, WriteCsr, Covers;
    TorRegion(s, WriteCsr(s, b1, ToAddr(i, Held(s, CsrWord(hi)))), i, lo, hi, a);
  }

  /* ---- Four bytes, and none ---- */

  /** Mode NA4, with granules of four bytes: exactly the four bytes at the address. */
  lemma FourByteRegion(s: Shape, b: seq<Entry>, i: nat, base: nat, a: nat)
    requires ShapeOk(s) && s.grain == 2 && BankOk(s, b) && i < s.depth && b[i].cfg.mode == NA4
    requires b[i].addr == Held(s, CsrWord(base)) && base % 4 == 0
    requires base < Pow2(s.width + 2) && a < Pow2(s.width + 2)
    ensures Covers(s, b, i, Lines(s, a)) <==> base <= a < base + 4
  {
    HeldLines(s, base);
    LinesValue(s, base);
    LinesValue(s, a);
    FourBytes(base, a);
    hide Held, CsrWord, Value;
    if a / 4 == base / 4 {
      forall k | 0 <= k < s.width ensures Lines(s, a)[k] == Lines(s, base)[k] {
        DigitOfQuarter(a, k);
        DigitOfQuarter(base, k);
      }
      hide Digit, Binary;
      assert Lines(s, a) == Lines(s, base);
    }
  }

  lemma FourBytes(base: nat, a: nat)
    requires base % 4 == 0
    ensures Pow2(2) == 4
    ensures a / 4 == base / 4 <==> base <= a < base + 4
  {
    assert Pow2(1) == 2;
  }

  lemma OffCoversNothing(s: Shape, b: seq<Entry>, i: nat, a: Bits)
    requires BankOk(s, b) && i < s.depth && b[i].cfg.mode == OFF && |a| == s.width
    ensures !Covers(s, b, i, a)
  {
  }

  /* ---- What access that gives ---- */

  /** In a lower mode the first entry that covers an address decides, in machine mode the first locked
      one. */
  predicate Decides(s: Shape, b: seq<Entry>, i: nat, a: Bits, mMode: bool)
    requires BankOk(s, b) && i < s.depth && |a| == s.width
  {
    && Covers(s, b, i, a) && (mMode ==> b[i].lock)
    && forall k | 0 <= k < i :: !(Covers(s, b, k, a) && (mMode ==> b[k].lock))
  }

  lemma {:induction false} Deciding(s: Shape, b: seq<Entry>, i: nat, j: nat, a: Bits, mMode: bool)
    requires BankOk(s, b) && i <= j < s.depth && |a| == s.width && Decides(s, b, j, a, mMode)
    ensures FirstMatch(s, b, i, a, mMode) == Permission(b[j].cfg.r, b[j].cfg.w, b[j].cfg.x)
    decreases j - i
  {
    hide Covers;
    if i < j {
      assert !(Covers(s, b, i, a) && (mMode ==> b[i].lock));
      Deciding(s, b, i + 1, j, a, mMode);
    }
  }

  lemma {:induction false} NoneDecides(s: Shape, b: seq<Entry>, i: nat, a: Bits, mMode: bool)
    requires BankOk(s, b) && i <= s.depth && |a| == s.width
    requires forall k | i <= k < s.depth :: !(Covers(s, b, k, a) && (mMode ==> b[k].lock))
    ensures FirstMatch(s, b, i, a, mMode) == Permission(mMode, mMode, mMode)
    decreases s.depth - i
  {
    hide Covers;
    if i < s.depth {
      assert !(Covers(s, b, i, a) && (mMode ==> b[i].lock));
      NoneDecides(s, b, i + 1, a, mMode);
    }
  }

  /** The verdict of the checker: the deciding entry's permissions; without one, all in machine mode and
      none below it. */
  lemma Verdict(s: Shape, b: seq<Entry>, a: Bits, mMode: bool)
    requires BankOk(s, b) && |a| == s.width
    ensures forall j | 0 <= j < s.depth && Decides(s, b, j, a, mMode) ::
      FirstMatch(s, b, 0, a, mMode) == Permission(b[j].cfg.r, b[j].cfg.w, b[j].cfg.x)
    ensures (forall k | 0 <= k < s.depth :: !(Covers(s, b, k, a) && (mMode ==> b[k].lock))) ==>
      FirstMatch(s, b, 0, a, mMode) == Permission(mMode, mMode, mMode)
  {
    hide Covers, Decides;
    forall j | 0 <= j < s.depth && Decides(s, b, j, a, mMode)
      ensures FirstMatch(s, b, 0, a, mMode) == Permission(b[j].cfg.r, b[j].cfg.w, b[j].cfg.x)
    {
      Deciding(s, b, 0, j, a, mMode);
    }
    if forall k | 0 <= k < s.depth :: !(Covers(s, b, k, a) && (mMode ==> b[k].lock)) {
      NoneDecides(s, b, 0, a, mMode);
    }
  }

  /** In a lower mode, with a TOR entry the only one not off: its permissions inside, nothing outside. */
  lemma TorAccess(s: Shape, b: seq<Entry>, i: nat, lo: nat, hi: nat, a: nat)
    requires ShapeOk(s) && BankOk(s, b) && i < s.depth && b[i].cfg.mode == TOR
    requires forall k | 0 <= k < s.depth && k != i :: b[k].cfg.mode == OFF
    requires b[i].addr == Held(s, CsrWord(hi))
    requires if i == 0 then lo == 0 else b[i - 1].addr == Held(s, CsrWord(lo))
    requires lo % Pow2(s.grain) == 0 && hi % Pow2(s.grain) == 0
    requires lo < Pow2(s.width + s.grain) && hi < Pow2(s.width + s.grain) && a < Pow2(s.width + s.grain)
    ensures FirstMatch(s, b, 0, Lines(s, a), false) ==
      if lo <= a < hi then Permission(b[i].cfg.r, b[i].cfg.w, b[i].cfg.x) else Permission(false, false, false)
  {
    TorRegion(s, b, i, lo, hi, a);
    forall k | 0 <= k < s.depth && k != i ensures !Covers(s, b, k, Lines(s, a)) {
      OffCoversNothing(s, b, k, Lines(s, a));
    }
    hide Covers, Held, CsrWord, Lines;
    assert lo <= a < hi ==> Decides(s, b, i, Lines(s, a), false);
    Verdict(s, b, Lines(s, a), false);
  }

  /* ---- Which writes take effect ---- */

  /** Neither the entry is locked nor the one after it as a TOR entry, whose lower bound this one is. */
  predicate Unlocked(s: Shape, b: seq<Entry>, i: nat)
    requires |b| == s.depth && i < s.depth
  {
    !b[i].lock && (i + 1 < s.depth && b[i + 1].cfg.mode == TOR ==> !b[i + 1].lock)
  }

  lemma AddressTaken(s: Shape, b: seq<Entry>, i: nat, addr: Bits)
    requires BankOk(s, b) && i < s.depth && |addr| == s.width
    ensures var b' := WriteCsr(s, b, ToAddr(i, addr));
      && BankOk(s, b')
      && b'[i] == (if Unlocked(s, b, i) then b[i].(addr := addr) else b[i])
      && forall k | 0 <= k < s.depth && k != i :: b'[k] == b[k]
  {
  }

  /** The four fields of configuration register `k` go to entries 4k to 4k + 3.  A lock always sticks; the
      rest is taken if the entry was unlocked, with NA4 turned into NAPOT where granules exceed four bytes. */
  lemma ConfigTaken(s: Shape, b: seq<Entry>, k: nat, fields: seq<Field>, j: nat)
    requires BankOk(s, b) && 4 * k < s.depth && |fields| == 4 && j < 4
    ensures var b', i, f := WriteCsr(s, b, ToCfg(k, fields)), 4 * k + j, fields[j];
      && BankOk(s, b') && i < s.depth && b'[i].addr == b[i].addr && b'[i].lock == (b[i].lock || f.lock)
      && b'[i].cfg.r == (if Unlocked(s, b, i) then f.cfg.r else b[i].cfg.r)
      && b'[i].cfg.w == (if Unlocked(s, b, i) then f.cfg.w else b[i].cfg.w)
      && b'[i].cfg.x == (if Unlocked(s, b, i) then f.cfg.x else b[i].cfg.x)
      && b'[i].cfg.mode ==
           if !Unlocked(s, b, i) then b[i].cfg.mode
           else if f.cfg.mode == NA4 && s.grain > 2 then NAPOT else f.cfg.mode
  {
    assert (4 * k + j) / 4 == k && (4 * k + j) % 4 == j;
  }

  lemma ConfigElsewhere(s: Shape, b: seq<Entry>, k: nat, fields: seq<Field>, i: nat)
    requires BankOk(s, b) && 4 * k < s.depth && |fields| == 4 && i < s.depth && i / 4 != k
    ensures WriteCsr(s, b, ToCfg(k, fields))[i] == b[i] && WriteCsr(s, b, Elsewhere) == b
  {
  }
}
