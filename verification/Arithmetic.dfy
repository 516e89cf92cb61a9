/**
 One adder for sums, differences and every comparison, the adder of the atomic memory operations, and
 the multiplier, each against the arithmetic the instruction set asks for.
 */
module Arithmetic {
  const W: int := 0x1_0000_0000
  const H: int := 0x8000_0000
  type Word = w: int | 0 <= w < 0x1_0000_0000

  datatype Opcode = OP | OP_IMM | BRANCH
  type Funct3 = f: nat | f < 8

  /** The fields that steer the adder; `b25` and `b30` are bits of the instruction word. */
  datatype Insn = Insn(op: Opcode, funct3: Funct3, b25: bool, b30: bool) {
    predicate B12() { funct3 % 2 == 1 }
    predicate B13() { funct3 / 2 % 2 == 1 }
    predicate B14() { funct3 >= 4 }
    predicate IsOp() { op != BRANCH }
  }

  /* ---- What the instruction set says ---- */

  function Signed(x: Word): int { if x >= H then x - W else x }
  function Wrap(x: int): Word { x % W }
  function Flag(b: bool): Word { if b then 1 else 0 }

  datatype Condition = EQ | NE | LT | GE | LTU | GEU

  function FunctOf(c: Condition): Funct3 {
    match c case EQ => 0 case NE => 1 case LT => 4 case GE => 5 case LTU => 6 case GEU => 7
  }

  predicate Holds(c: Condition, a: Word, b: Word) {
    match c
    case EQ => a == b
    case NE => a != b
    case LT => Signed(a) < Signed(b)
    case GE => Signed(a) >= Signed(b)
    case LTU => a < b
    case GEU => a >= b
  }

  /* ---- The adder of EX ---- */

  predicate Msb(x: Word) { x >= H }
  function Low(x: Word): int { x % H }

  function Join(msb: bool, low: int): Word
    requires 0 <= low < H
  {
    low + if msb then H else 0
  }

  predicate Cmp(i: Insn) { i.op == BRANCH || (i.IsOp() && (i.funct3 == 2 || i.funct3 == 3)) }
  predicate Xorh(i: Insn) { Cmp(i) && (if i.IsOp() then !i.B12() else !i.B13()) }
  predicate Sub(i: Insn) { Cmp(i) || (i.op == OP && i.b30) }

  function AddLhs(i: Insn, a: Word): Word { Join(Msb(a) != Xorh(i), Low(a)) }

  function AddRhs(i: Insn, b: Word): Word {
    Join((Msb(b) != Xorh(i)) != Sub(i), if Sub(i) then H - 1 - Low(b) else Low(b))
  }

  /** All 33 bits of the sum. */
  function AddRes(i: Insn, a: Word, b: Word): (r: int)
    ensures 0 <= r < 2 * W
  {
    AddLhs(i, a) + AddRhs(i, b) + Flag(Sub(i))
  }

  predicate CmpEq(i: Insn, a: Word, b: Word) { AddRes(i, a, b) % W == 0 }
  predicate CmpLt(i: Insn, a: Word, b: Word) { !CmpEq(i, a, b) && AddRes(i, a, b) < W }
  predicate BranchCond(i: Insn, a: Word, b: Word) { i.B12() != if i.B14() then CmpLt(i, a, b) else CmpEq(i, a, b) }

  /** What EX puts out for a sum or comparison; a branch puts out nothing of use. */
  function AluOut(i: Insn, a: Word, b: Word): Word
    requires !(i.op == OP && i.b25) && i.funct3 in {0, 2, 3}
  {
    if i.funct3 == 0 then AddRes(i, a, b) % W else Flag(CmpLt(i, a, b))
  }

  /** The comparator, for every pair of operands. */
  lemma Comparator(i: Insn, a: Word, b: Word)
    requires Cmp(i)
    ensures CmpEq(i, a, b) <==> a == b
    ensures CmpLt(i, a, b) <==> if Xorh(i) then Signed(a) < Signed(b) else a < b
  {
  }

  /** Taking a word apart and putting it together again, as it is or inverted. */
  lemma Parts(x: Word)
    ensures Join(Msb(x), Low(x)) == x && Join(!Msb(x), H - 1 - Low(x)) == W - 1 - x
  {
  }

  lemma Difference(i: Insn, a: Word, b: Word)
    requires !Cmp(i)
    ensures AddRes(i, a, b) % W == Wrap(if Sub(i) then a - b else a + b)
  {
    Parts(a);
    Parts(b);
    hide Join, Msb, Low;
    if Sub(i) {
      ModAddsMultiple(a - b, 1, W);
    }
  }

  /** Every branch goes where its condition says. */
  lemma BranchesDecide(i: Insn, c: Condition, a: Word, b: Word)
    requires i.op == BRANCH && i.funct3 == FunctOf(c)
    ensures BranchCond(i, a, b) <==> Holds(c, a, b)
  {
    hide CmpEq, CmpLt;
    Comparator(i, a, b);
  }

  /** ADD, SUB, ADDI and the four set-less-thans. Bit 30 of ADDI is part of its immediate. */
  lemma SumsAndComparisons(i: Insn, a: Word, b: Word)
    requires i.IsOp() && !(i.op == OP && i.b25) && i.funct3 in {0, 2, 3}
    ensures AluOut(i, a, b) ==
      if i.funct3 == 0 then Wrap(if i.op == OP && i.b30 then a - b else a + b)
      else if i.funct3 == 2 then Flag(Signed(a) < Signed(b))
      else Flag(a < b)
  {
    hide CmpEq, CmpLt, AddRes;
    if i.funct3 == 0 {
      Difference(i, a, b);
    } else {
      Comparator(i, a, b);
    }
  }

  /* ---- The adder of the atomic operations ---- */

  datatype Rmw = ADD | XOR | OR | AND | MIN | MAX | MINU | MAXU

  predicate SubMode(m: Rmw) { m in {MIN, MAX, MINU, MAXU} }
  predicate InvMsb(m: Rmw) { m in {MIN, MAX} }

  /** The 33-bit sum, without the carry in that would make it a difference. */
  function RmwSum(m: Rmw, rdata: Word, wmask: Word): (r: int)
    ensures 0 <= r < 2 * W
  {
    var rhs: Word := if SubMode(m) then W - 1 - wmask else wmask;
    Join(Msb(rdata) != InvMsb(m), Low(rdata)) + Join(Msb(rhs) != InvMsb(m), Low(rhs))
  }

  /** Written back by an adding or comparing operation. */
  function RmwOut(m: Rmw, rdata: Word, wmask: Word): Word
    requires m == ADD || SubMode(m)
  {
    var ge := RmwSum(m, rdata, wmask) >= W;
    if m == ADD then RmwSum(m, rdata, wmask) % W
    else if m == MIN || m == MINU then (if ge then wmask else rdata)
    else (if ge then rdata else wmask)
  }

  /** The flag called "greater or equal" is strictly greater: one is missing from the difference. */
  lemma CarryIsGreater(m: Rmw, a: Word, b: Word)
    requires SubMode(m)
    ensures RmwSum(m, a, b) >= W <==> if InvMsb(m) then Signed(a) > Signed(b) else a > b
  {
  }

  /** Still the minimum and maximum, and nothing else. */
  lemma AtomicExtremes(m: Rmw, a: Word, b: Word)
    requires SubMode(m)
    ensures var r := RmwOut(m, a, b);
      && (r == a || r == b)
      && (match m
          case MIN => Signed(r) <= Signed(a) && Signed(r) <= Signed(b)
          case MAX => Signed(r) >= Signed(a) && Signed(r) >= Signed(b)
          case MINU => r <= a && r <= b
          case MAXU => r >= a && r >= b
          case _ => true)
  {
    hide RmwSum;
    CarryIsGreater(m, a, b);
  }

  lemma AtomicAdd(a: Word, b: Word)
    ensures RmwOut(ADD, a, b) == Wrap(a + b)
  {
  }

  /* ---- The multiplier ---- */

  const D: int := 0x1_0000_0000_0000_0000

  /** An operand extended to 64 bits. */
  function Extend(u: bool, x: Word): int { if !u && Msb(x) then x + (W - 1) * W else x }

  /** The 64-bit product, truncated. */
  function Product(uLhs: bool, uRhs: bool, a: Word, b: Word): (p: int)
    ensures 0 <= p < D
  {
    Extend(uLhs, a) * Extend(uRhs, b) % D
  }

  /** An operand as the number it stands for. */
  function Meaning(u: bool, x: Word): int { if u then x else Signed(x) }

  function MulOut(i: Insn, a: Word, b: Word): Word
    requires i.op == OP && i.b25 && i.funct3 < 4
  {
    var p := Product(i.B13() && i.B12(), i.B13(), a, b);
    if i.funct3 == 0 then p % W else p / W
  }

  lemma ModAddsMultiple(x: int, k: int, m: int)
    requires m > 0
    ensures (x + k * m) % m == x % m
  {
    var q, r := x / m, x % m;
    assert x + k * m == (q + k) * m + r by {
      assert (q + k) * m == q * m + k * m;
    }
    QuotientRemainder(x + k * m, q + k, r, m);
  }

  lemma QuotientRemainder(x: int, q: int, r: int, m: int)
    requires m > 0 && x == q * m + r && 0 <= r < m
    ensures x / m == q && x % m == r
  {
    var d := x / m - q;
    assert d * m == r - x % m by {
      assert (x / m - q) * m == x / m * m - q * m;
    }
    TimesAtLeast(d, m);
  }

  lemma TimesAtLeast(d: int, m: int)
    requires m > 0
    ensures (d > 0 ==> d * m >= m) && (d < 0 ==> d * m <= -m)
  {
  }

  /** Extending adds nothing modulo 2^64. */
  lemma ProductIsExact(uLhs: bool, uRhs: bool, a: Word, b: Word)
    ensures Product(uLhs, uRhs, a, b) == Meaning(uLhs, a) * Meaning(uRhs, b) % D
  {
    var x, y := Meaning(uLhs, a), Meaning(uRhs, b);
    var k, l := if !uLhs && Msb(a) then 1 else 0, if !uRhs && Msb(b) then 1 else 0;
    assert Extend(uLhs, a) == x + k * D && Extend(uRhs, b) == y + l * D;
    Expand(x, y, k, l, D);
    ModAddsMultiple(x * y, x * l + k * y + k * l * D, D);
  }

  lemma Expand(x: int, y: int, k: int, l: int, m: int)
    ensures (x + k * m) * (y + l * m) == x * y + (x * l + k * y + k * l * m) * m
  {
    calc {
      (x + k * m) * (y + l * m);
      x * (y + l * m) + k * m * (y + l * m);
      x * y + x * (l * m) + (k * m * y + k * m * (l * m));
      { assert x * (l * m) == x * l * m; assert k * m * y == k * y * m; assert k * m * (l * m) == k * l * m * m; }
      x * y + (x * l * m + k * y * m + k * l * m * m);
      { assert (x * l + k * y + k * l * m) * m == x * l * m + k * y * m + k * l * m * m; }
      x * y + (x * l + k * y + k * l * m) * m;
    }
  }

  /** The words of a number modulo 2^64. */
  lemma WordsOf(p: int)
    ensures p % D % W == p % W && p % D / W == p / W % W
  {
    var q, t := p / D, p % D;
    var r, s := t / W, t % W;
    assert p == q * D + t && t == r * W + s && 0 <= r < W;
    assert p == (q * W + r) * W + s;
    QuotientRemainder(p, q * W + r, s, W);
    ModAddsMultiple(r, q, W);
  }

  /** MUL, MULH, MULHSU and MULHU. */
  lemma Products(i: Insn, a: Word, b: Word)
    requires i.op == OP && i.b25 && i.funct3 < 4
    ensures MulOut(i, a, b) ==
      if i.funct3 == 0 then Wrap(a * b)
      else if i.funct3 == 1 then Wrap(Signed(a) * Signed(b) / W)
      else if i.funct3 == 2 then Wrap(Signed(a) * b / W)
      else Wrap(a * b / W)
  {
    hide Product;
    var u, v := i.B13() && i.B12(), i.B13();
    var p := Meaning(u, a) * Meaning(v, b);
    ProductIsExact(u, v, a, b);
    WordsOf(p);
    if i.funct3 == 0 {
      var k, l := if Msb(a) then 1 else 0, if Msb(b) then 1 else 0;
      assert a == Signed(a) + k * W && b == Signed(b) + l * W;
      Expand(Signed(a), Signed(b), k, l, W);
      ModAddsMultiple(Signed(a) * Signed(b), Signed(a) * l + k * Signed(b) + k * l * W, W);
    }
  }
}
