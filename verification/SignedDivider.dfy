/**
 The 32-bit signed and unsigned dividers around the restoring divider, against the RISC-V
 unprivileged ISA, section 7.2: division by zero and signed overflow included.
 */
module SignedDivider {
  import opened Divider
  import opened Placement

  const MOD := 0x1_0000_0000
  const HALF := 0x8000_0000
  type Word = w: int | 0 <= w < MOD

  function Signed(w: Word): int { if w < HALF then w else w - MOD }

  /** ~w + 1 on 32 bits. */
  function Negate(w: Word): Word { if w == 0 then 0 else MOD - w }

  function Abs(x: int): nat { if x < 0 then -x else x }

  /** `q` and `r` are what DIV(U) and REM(U) must return. */
  predicate IsaDivRem(u: bool, a: Word, b: Word, q: Word, r: Word) {
    if b == 0 then q == MOD - 1 && r == a
    else if u then a == q * b + r && r < b
    else if a == HALF && b == MOD - 1 then q == HALF && r == 0
    else
      var A, B, Q, R := Signed(a), Signed(b), Signed(q), Signed(r);
      A == Q * B + R && Abs(R) < Abs(B) && (R == 0 || (R < 0 <==> A < 0))
  }

  /** The requirement leaves no choice. */
  lemma IsaDivRemUnique(u: bool, a: Word, b: Word, q: Word, r: Word, q': Word, r': Word)
    requires IsaDivRem(u, a, b, q, r) && IsaDivRem(u, a, b, q', r')
    ensures q == q' && r == r'
  {
    if b != 0 && (u || a != HALF || b != MOD - 1) {
      var B, dQ := if u then b else Signed(b), if u then q - q' else Signed(q) - Signed(q');
      var R, R' := if u then r else Signed(r), if u then r' else Signed(r');
      assert dQ * B == R' - R by {
        if u { Spread(q, q', b); } else { Spread(Signed(q), Signed(q'), B); }
      }
      SmallMultiple(dQ, B);
    }
  }

  lemma Spread(x: int, y: int, d: int)
    ensures (x - y) * d == x * d - y * d
  {
  }

  lemma SmallMultiple(k: int, d: int)
    ensures k != 0 ==> Abs(k * d) >= Abs(d)
  {
  }

  function SignBit(u: bool, w: Word): bool { !u && w >= HALF }
  function Magnitude(u: bool, w: Word): Word { if SignBit(u, w) then Negate(w) else w }

  /** The output correction: both dividers share it, apart from how they see a zero divisor. */
  function Corrected(zero: bool, signL: bool, signR: bool, q: Word, r: Word): (Word, Word) {
    (if zero then MOD - 1 else if signL != signR then Negate(q) else q,
     if signL then Negate(r) else r)
  }

  /** Correcting the unsigned quotient and remainder of the magnitudes meets the ISA. */
  lemma CorrectedIsIsa(u: bool, a: Word, b: Word, q: Word, r: Word)
    requires b != 0 ==> q == Magnitude(u, a) / Magnitude(u, b) && r == Magnitude(u, a) % Magnitude(u, b)
    requires b == 0 ==> r == Magnitude(u, a)
    ensures var (q', r') := Corrected(b == 0, SignBit(u, a), SignBit(u, b), q, r);
      IsaDivRem(u, a, b, q', r')
  {
    if b != 0 {
      var n, d := Magnitude(u, a), Magnitude(u, b);
      QuotientBound(n, d, q, r);
      SignProducts(q, d);
      if !u && (a != HALF || b != MOD - 1) {
        SignsAgree(a, b, q, r, n, d);
      }
    }
  }

  /** The signed identity, one case for each pair of signs. */
  lemma SignsAgree(a: Word, b: Word, q: Word, r: Word, n: nat, d: nat)
    requires b != 0 && !(a == HALF && b == MOD - 1)
    requires n == Abs(Signed(a)) && d == Abs(Signed(b))
    requires n == q * d + r && r < d && q <= n && (d > 1 ==> 2 * q <= n)
    ensures var (q', r') := Corrected(false, a >= HALF, b >= HALF, q, r);
      IsaDivRem(false, a, b, q', r')
  {
    var (q', r') := Corrected(false, a >= HALF, b >= HALF, q, r);
    var Q: int, R: int, sameSign := q, r, (a >= HALF) == (b >= HALF);
    assert sameSign ==> q < HALF;
    assert Signed(r') == if a >= HALF then -R else R;
    assert Signed(q') == if sameSign then Q else -Q;
    SignProducts(q, d);
    hide Corrected, Negate;
  }

  lemma QuotientBound(n: nat, d: nat, q: nat, r: nat)
    requires n == q * d + r && d > 0
    ensures q <= n && (d > 1 ==> 2 * q <= n)
  {
    MulOrder(0, d, q);
    if d > 1 {
      assert q * d == q * (d - 2) + 2 * q;
    } else {
      assert q * d == q;
    }
  }

  lemma SignProducts(q: int, d: int)
    ensures (-q) * d == -(q * d) && q * (-d) == -(q * d) && (-q) * (-d) == q * d
  {
  }

  /** The zero-latency divider. */
  function SimpleDivide(u: bool, a: Word, b: Word): (res: (Word, Word))
    ensures IsaDivRem(u, a, b, res.0, res.1)
  {
    if b == 0 then (MOD - 1, a)
    else
      var q, r := Magnitude(u, a) / Magnitude(u, b), Magnitude(u, a) % Magnitude(u, b);
      assert q <= Magnitude(u, a) by { QuotientBound(Magnitude(u, a), Magnitude(u, b), q, r); }
      CorrectedIsIsa(u, a, b, q, r);
      Corrected(false, SignBit(u, a), SignBit(u, b), q, r)
  }

  datatype Request = Request(u: bool, lhs: Word, rhs: Word) {
    function Unsigned(): Operands { Operands(Magnitude(u, lhs), Magnitude(u, rhs)) }
  }

  lemma Pow2Of32()
    ensures Pow2(32) == MOD
  {
    assert Pow2(8) == 0x100;
    assert Pow2(16) == 0x1_0000;
    assert Pow2(24) == 0x100_0000;
  }

  lemma ShiftCarried(r0: seq<bool>, signL: seq<bool>, signR: seq<bool>, history: seq<Request>, o: Request)
    requires |r0| == |signL| == |signR| >= 1 && Carried(r0, signL, signR, history)
    ensures var n := |r0| - 1;
      Carried([o.rhs == 0] + r0[..n], [SignBit(o.u, o.lhs)] + signL[..n], [SignBit(o.u, o.rhs)] + signR[..n],
              history + [o])
  {
  }

  /** Unsigned quotient and remainder as the restoring divider gives them. */
  function UnsignedResult(o: Operands): (r: (Word, Word))
    requires o.lhs < MOD
  {
    SmallResults(o);
    if o.rhs == 0 then (MOD - 1, o.lhs) else (o.lhs / o.rhs, o.lhs % o.rhs)
  }

  /** The results for `o`, corrected by the zero flag and signs of `f`. */
  function Answer(f: Request, o: Request): (Word, Word) {
    var r := UnsignedResult(o.Unsigned());
    Corrected(f.rhs == 0, SignBit(f.u, f.lhs), SignBit(f.u, f.rhs), r.0, r.1)
  }

  /** Results corrected by their own flags meet the ISA. */
  lemma AnswerIsIsa(o: Request)
    ensures IsaDivRem(o.u, o.lhs, o.rhs, Answer(o, o).0, Answer(o, o).1)
  {
    var r := UnsignedResult(o.Unsigned());
    CorrectedIsIsa(o.u, o.lhs, o.rhs, r.0, r.1);
  }

  class PipelinedDivider {
    const latency: nat
    const udiv: UDivider
    // Shift registers that carry the zero flag and the signs along with the operands.
    var r0: seq<bool>
    var rSignL: seq<bool>
    var rSignR: seq<bool>
    ghost var history: seq<Request>

    ghost predicate Valid()
      reads this, udiv, udiv.regs
    {
      && udiv.Valid() && udiv.width == 32 && latency >= 1
      && |r0| == |rSignL| == |rSignR| == latency
      && udiv.history == Operated(history)
      && Carried(r0, rSignL, rSignR, history)
    }

    /** Registers the operands pass through; the flags pass through `latency`. */
    ghost function Depth(): nat
      reads udiv
      requires |udiv.placement| == udiv.width + 1
    {
      udiv.Latency()
    }

    /** A divider with registers where the design's own rule puts them. */
    constructor (p: Plan)
      requires p.Ok() && p.width == 32
      ensures Valid() && history == [] && latency == p.latency && Depth() == Registers(p)
      ensures fresh(udiv) && fresh(udiv.regs)
    {
      latency := p.latency;
      udiv := new UDivider(32, Chosen(p));
      r0, rSignL, rSignR := seq(p.latency, _ => false), seq(p.latency, _ => false), seq(p.latency, _ => false);
      history := [];
    }

    /** One cycle.  The outputs combine the results of `Depth()` cycles ago with the flags of `latency`
        cycles ago; where the two agree they answer the request of that cycle. */
    method Clock(u: bool, lhs: Word, rhs: Word) returns (div: Word, mod: Word)
      requires Valid()
      modifies this, udiv, udiv.regs
      ensures Valid() && history == old(history) + [Request(u, lhs, rhs)]
      ensures latency < |history| && Depth() < |history| ==>
        (div, mod) == Answer(history[|history| - 1 - latency], history[|history| - 1 - Depth()])
      ensures latency < |history| && Depth() == latency ==>
        var o := history[|history| - 1 - latency]; IsaDivRem(o.u, o.lhs, o.rhs, div, mod)
    {
      hide IsaDivRem, Corrected, Magnitude, SignBit, Carried, Pow2, Answer, UnsignedResult, Operated, Before;
      Pow2Of32();
      var o := Request(u, lhs, rhs);
      ghost var before := history;
      history := before + [o];
      OperatedGrows(before, o);
      var uq, ur := udiv.Clock(o.Unsigned().lhs, o.Unsigned().rhs);
      var q, r := uq % MOD, ur % MOD;
      var fixed := Corrected(r0[latency - 1], rSignL[latency - 1], rSignR[latency - 1], q, r);
      div, mod := fixed.0, fixed.1;
      if latency < |history| && Depth() < |history| {
        var given := history[|history| - 1 - Depth()];
        UnsignedAnswer(given.Unsigned(), uq, ur);
        OutputIsAnswer(r0, rSignL, rSignR, before, given, q, r);
        AnswerIsIsa(given);
      }
      ShiftCarried(r0, rSignL, rSignR, before, o);
      Shift(o);
    }

    /** The flag registers at a rising edge. */
    method Shift(o: Request)
      requires latency >= 1 && |r0| == |rSignL| == |rSignR| == latency
      modifies `r0, `rSignL, `rSignR
      ensures r0 == [o.rhs == 0] + old(r0)[..latency - 1]
      ensures rSignL == [SignBit(o.u, o.lhs)] + old(rSignL)[..latency - 1]
      ensures rSignR == [SignBit(o.u, o.rhs)] + old(rSignR)[..latency - 1]
    {
      r0 := [o.rhs == 0] + r0[..latency - 1];
      rSignL := [SignBit(o.u, o.lhs)] + rSignL[..latency - 1];
      rSignR := [SignBit(o.u, o.rhs)] + rSignR[..latency - 1];
    }

    /** A division as EX does it: the operands stand still while EX stalls for `latency` cycles, and the
        outputs are taken in the cycle after. */
    method DivideInEx(u: bool, lhs: Word, rhs: Word) returns (div: Word, mod: Word)
      requires Valid() && Depth() <= latency
      modifies this, udiv, udiv.regs
      ensures Valid() && IsaDivRem(u, lhs, rhs, div, mod)
    {
      hide IsaDivRem, Answer;
      ghost var o := Request(u, lhs, rhs);
      AnswerIsIsa(o);
      ghost var start := |history|;
      for i := 0 to latency
        invariant Valid() && |history| == start + i
        invariant forall k | start <= k < |history| :: history[k] == o
      {
        div, mod := Clock(u, lhs, rhs);
      }
      div, mod := Clock(u, lhs, rhs);
    }
  }

  lemma OperatedGrows(history: seq<Request>, o: Request)
    ensures |Operated(history)| == |history| && Operated(history + [o]) == Operated(history) + [o.Unsigned()]
    ensures forall k | 0 <= k < |history| + 1 :: Operated(history + [o])[k] == (history + [o])[k].Unsigned()
  {
  }

  lemma UnsignedAnswer(o: Operands, q: nat, r: nat)
    requires o.lhs < MOD
    requires o.rhs > 0 ==> q == o.lhs / o.rhs && r == o.lhs % o.rhs
    requires o.rhs == 0 ==> q == MOD - 1 && r == o.lhs
    ensures (q % MOD, r % MOD) == UnsignedResult(o)
  {
    SmallResults(o);
  }

  /** The output correction, from the flags at the end of the shift registers. */
  lemma OutputIsAnswer(r0: seq<bool>, signL: seq<bool>, signR: seq<bool>, history: seq<Request>, given: Request,
                       q: Word, r: Word)
    requires 1 <= |r0| == |signL| == |signR| <= |history| && Carried(r0, signL, signR, history)
    requires (q, r) == UnsignedResult(given.Unsigned())
    ensures var n := |r0|;
      Corrected(r0[n - 1], signL[n - 1], signR[n - 1], q, r) == Answer(history[|history| - n], given)
  {
    hide Corrected, SignBit;
  }

  /** With "all" and one cycle of latency the operands pass two registers, and EX takes the quotient of
      the operands before: 7 / 1 after 0 / 1 comes out as 0. */
  method ShortStall() returns (div: Word, mod: Word)
    ensures div == 0
  {
    hide Answer, IsaDivRem, Registers, Chosen;
    var d := new PipelinedDivider(Plan(All, 1, 32));
    AllOne();
    div, mod := d.Clock(true, 0, 1);
    div, mod := d.Clock(true, 7, 1);
    div, mod := d.Clock(true, 7, 1);
    StaleAnswer();
  }

  lemma AllOne()
    ensures Registers(Plan(All, 1, 32)) == 2
  {
    var p := Plan(All, 1, 32);
    BeforeIsDropped(p, 32);
    assert Before(Chosen(p), 33) == Before(Chosen(p), 32) + if HasReg(p, 32) then 1 else 0;
  }

  lemma StaleAnswer()
    ensures Answer(Request(true, 7, 1), Request(true, 0, 1)).0 == 0
  {
  }

  lemma SmallResults(o: Operands)
    requires o.lhs < MOD
    ensures o.rhs > 0 ==> o.lhs / o.rhs < MOD && o.lhs % o.rhs < MOD
  {
    if o.rhs > 0 {
      QuotientBound(o.lhs, o.rhs, o.lhs / o.rhs, o.lhs % o.rhs);
    }
  }

  /** What the unsigned divider was given. */
  ghost function Operated(history: seq<Request>): seq<Operands> {
    seq(|history|, k requires 0 <= k < |history| => history[k].Unsigned())
  }

  /** Element k of each shift register describes the request k cycles before the newest. */
  ghost predicate Carried(r0: seq<bool>, signL: seq<bool>, signR: seq<bool>, history: seq<Request>)
    requires |r0| == |signL| == |signR|
  {
    forall k | 0 <= k < |r0| && k < |history| ::
      var o := history[|history| - 1 - k];
      r0[k] == (o.rhs == 0) && signL[k] == SignBit(o.u, o.lhs) && signR[k] == SignBit(o.u, o.rhs)
  }
}
