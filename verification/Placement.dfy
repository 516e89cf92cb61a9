/**
 Which divider stages get a pipeline register.  The design spreads `latency` registers by a running
 tally; here is exactly when that puts down as many registers as were asked for.
 */
module Placement {
  import opened Divider

  datatype Distribution = Begin | End | Center | All

  datatype Plan = Plan(dist: Distribution, latency: nat, width: nat) {
    /** The parameter range the core documents: up to width + 1 registers. */
    predicate Ok() { width >= 1 && 1 <= latency <= width + 1 }

    /** Registers left to spread after the fixed ones. */
    function Count(): int {
      match dist
      case Begin => latency - 1
      case End => latency - 1
      case Center => latency
      case All => latency - 2
    }

    /** Number of positions they are spread over. */
    function Span(): int {
      match dist
      case Begin => width
      case End => width
      case Center => width + 1
      case All => width - 1
    }

    predicate Fixed(stage: nat) {
      (stage == 0 && (dist == Begin || dist == All)) || (stage == width && (dist == End || dist == All))
    }
  }

  function Spacing(p: Plan): (r: real)
    requires p.Ok() && p.Count() >= 1
    ensures r * p.Span() as real == p.Count() as real
    ensures 0.0 < r <= 1.0
  {
    Ratio(p.Count() as real, p.Span() as real);
    p.Count() as real / p.Span() as real
  }

  lemma Ratio(a: real, b: real)
    requires 0.0 < a <= b
    ensures a / b * b == a && 0.0 < a / b <= 1.0
  {
    var r := a / b;
    assert r * b == a;
    if r <= 0.0 {
      NotPositive(r, b);
    } else if r > 1.0 {
      ScaleStrict(1.0, r, b);
    }
  }

  lemma NotPositive(r: real, b: real)
    requires r <= 0.0 < b
    ensures r * b <= 0.0
  {
  }

  /** The tally and the registers left after the loop has visited stages 0 to y-1. */
  datatype Tally = Tally(sum: real, left: int)

  predicate Drops(t: Tally, spacing: real) {
    t.sum + spacing >= 0.5 && t.left > 0
  }

  function Visit(p: Plan, y: nat): Tally
    requires p.Ok() && p.Count() >= 1
  {
    if y == 0 then Tally(0.0, p.Count())
    else
      var t := Visit(p, y - 1);
      if Drops(t, Spacing(p)) then Tally(t.sum + Spacing(p) - 1.0, t.left - 1)
      else Tally(t.sum + Spacing(p), t.left)
  }

  /** Whether the loop puts a register in front of stage `y`. */
  predicate Spread(p: Plan, y: nat)
    requires p.Ok()
  {
    p.Count() >= 1 && y < p.width && Drops(Visit(p, y), Spacing(p))
  }

  predicate HasReg(p: Plan, stage: nat)
    requires p.Ok()
  {
    p.Fixed(stage) || Spread(p, stage)
  }

  /** The design's own loop. */
  method ComputeHasReg(p: Plan, stage: nat) returns (r: bool)
    requires p.Ok() && stage <= p.width
    ensures r <==> HasReg(p, stage)
  {
    if p.Fixed(stage) {
      return true;
    }
    var left := p.Count();
    if left < 1 {
      return false;
    }
    var spacing := left as real / p.Span() as real;
    var tally := 0.0;
    for y := 0 to p.width
      invariant Tally(tally, left) == Visit(p, y)
      invariant y <= stage || !Spread(p, stage)
    {
      tally := tally + spacing;
      if tally >= 0.5 && left > 0 {
        tally, left := tally - 1.0, left - 1;
        if y == stage {
          return true;
        }
      }
    }
    return false;
  }

  /** `n` steps of size `s`. */
  function Times(n: nat, s: real): real {
    if n == 0 then 0.0 else Times(n - 1, s) + s
  }

  lemma RealStep(x: real, s: real)
    ensures (x + 1.0) * s == x * s + s
  {
  }

  lemma {:induction false} TimesIsProduct(n: nat, s: real)
    ensures Times(n, s) == n as real * s
  {
    if n > 0 {
      TimesIsProduct(n - 1, s);
      RealStep((n - 1) as real, s);
    }
  }

  /** The tally never drifts: it stays within half a register of the ideal position. */
  lemma {:induction false} TallyBounds(p: Plan, y: nat)
    requires p.Ok() && p.Count() >= 1
    ensures var t := Visit(p, y);
      && 0 <= t.left <= p.Count()
      && t.sum == Times(y, Spacing(p)) - (p.Count() - t.left) as real
      && -0.5 <= t.sum
      && (t.left > 0 ==> t.sum < 0.5)
  {
    if y > 0 {
      TallyBounds(p, y - 1);
      hide Spacing;
    }
  }

  function Chosen(p: Plan): (placement: seq<bool>)
    requires p.Ok()
    ensures |placement| == p.width + 1
  {
    seq(p.width + 1, x requires x >= 0 => HasReg(p, x))
  }

  /** Registers the loop has put down before stage `y`. */
  function Dropped(p: Plan, y: nat): int
    requires p.Ok()
  {
    if p.Count() >= 1 then p.Count() - Visit(p, y).left else 0
  }

  lemma {:induction false} BeforeIsDropped(p: Plan, y: nat)
    requires p.Ok() && y <= p.width
    ensures Before(Chosen(p), y) == Dropped(p, y) + (if y > 0 && p.Fixed(0) && !Spread(p, 0) then 1 else 0)
  {
    if y > 0 {
      BeforeIsDropped(p, y - 1);
    }
  }

  /** The loop always finishes its registers, except that "center" may fall one short. */
  lemma AllDropped(p: Plan)
    requires p.Ok()
    ensures p.Count() >= 0 ==> Dropped(p, p.width) <= p.Count()
    ensures p.Count() >= 0 ==>
      (Dropped(p, p.width) == p.Count() <==> (p.dist == Center ==> 2 * p.latency <= p.width + 1))
  {
    if p.Count() >= 1 {
      TallyBounds(p, p.width);
      FullSpan(p);
      HalfSpacing(p);
      hide Spacing, Visit;
    }
  }

  /** Over its whole span the tally would reach the count exactly. */
  lemma FullSpan(p: Plan)
    requires p.Ok() && p.Count() >= 1
    ensures var s := Spacing(p);
      match p.dist
      case Begin => Times(p.width, s) == p.Count() as real
      case End => Times(p.width, s) == p.Count() as real
      case Center => Times(p.width, s) == p.Count() as real - s
      case All => Times(p.width, s) == p.Count() as real + s
  {
    TimesIsProduct(p.Span(), Spacing(p));
    hide Spacing;
  }

  lemma HalfSpacing(p: Plan)
    requires p.Ok() && p.Count() >= 1
    ensures Spacing(p) >= 0.5 <==> 2 * p.Count() >= p.Span()
    ensures Spacing(p) <= 0.5 <==> 2 * p.Count() <= p.Span()
  {
    Half(Spacing(p), p.Span(), p.Count());
  }

  lemma Half(s: real, n: int, c: int)
    requires s * n as real == c as real && n >= 1
    ensures s >= 0.5 <==> 2 * c >= n
    ensures s <= 0.5 <==> 2 * c <= n
  {
    var m, k := n as real, c as real;
    assert s * m == k;
    if s > 0.5 {
      ScaleStrict(0.5, s, m);
      assert 2.0 * k > m;
    } else if s < 0.5 {
      ScaleStrict(s, 0.5, m);
      assert 2.0 * k < m;
    } else {
      assert s * m == 0.5 * m;
      assert 2.0 * k == m;
    }
    assert (2 * c) as real == 2.0 * k;
  }

  lemma ScaleStrict(x: real, y: real, n: real)
    requires x < y && n > 0.0
    ensures x * n < y * n
  {
    var d := y - x;
    PositiveProduct(d, n);
    DistributeReal(x, d, n);
    assert x + d == y;
  }

  lemma PositiveProduct(d: real, n: real)
    requires d > 0.0 && n > 0.0
    ensures d * n > 0.0
  {
  }

  lemma DistributeReal(x: real, d: real, n: real)
    ensures (x + d) * n == x * n + d * n
  {
  }

  /** When the registers put down are as many as asked for. */
  predicate Fits(p: Plan) {
    match p.dist
    case Begin => 2 * (p.latency - 1) < p.width
    case End => true
    case Center => 2 * p.latency <= p.width + 1
    case All => p.latency == 2 || (p.latency > 2 && 2 * (p.latency - 2) < p.width - 1)
  }

  /** Pipeline registers from input to output. */
  function Registers(p: Plan): nat
    requires p.Ok()
  {
    Before(Chosen(p), p.width + 1)
  }

  /** The stages chosen hold exactly `latency` registers if and only if the plan fits, and never more
      unless the two ends of "all" share one register's worth of latency.  In particular they fit
      whenever the latency is at most half the width. */
  lemma ChosenTotal(p: Plan)
    requires p.Ok()
    ensures Registers(p) == p.latency <==> Fits(p)
    ensures Registers(p) <= p.latency <==> !(p.dist == All && p.latency == 1)
    ensures 2 * p.latency <= p.width && (p.dist == All ==> p.latency >= 2) ==> Fits(p)
  {
    var w := p.width;
    BeforeIsDropped(p, w);
    AllDropped(p);
    assert Before(Chosen(p), w + 1) == Before(Chosen(p), w) + if HasReg(p, w) then 1 else 0;
    if p.Count() >= 1 {
      HalfSpacing(p);
      assert Spread(p, 0) <==> Spacing(p) >= 0.5 by { assert Visit(p, 0) == Tally(0.0, p.Count()); }
      hide Spacing, Visit, Dropped;
    }
  }

  /** Documented plans for 32 bits that put down one register too few, or one too many. */
  lemma MisfitsExist()
    ensures var p := Plan(Center, 17, 32); p.Ok() && Registers(p) < 17
    ensures var p := Plan(Begin, 17, 32); p.Ok() && Registers(p) < 17
    ensures var p := Plan(All, 1, 32); p.Ok() && Registers(p) > 1
  {
    hide Registers;
    ChosenTotal(Plan(Center, 17, 32));
    ChosenTotal(Plan(Begin, 17, 32));
    ChosenTotal(Plan(All, 1, 32));
  }
}
