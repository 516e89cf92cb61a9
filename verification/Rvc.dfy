/**
 The expander for 16-bit RV32C instructions: every expansion, run through the decoders of ID and EX, has
 the effect chapter 16 of the RISC-V unprivileged ISA (20191213) gives the compressed instruction.

 Instruction words are bit sequences, least significant first, so `c[lo..hi + 1]` is the part-select
 `c[hi:lo]` and `b + a` the concatenation `{a, b}`.
 */
module Rvc {
  import opened Numbers

  type Bits = seq<bool>
  type W = w: int | 0 <= w < 0x1_0000_0000

  datatype Option<T> = None | Some(value: T)

  function Repeat(n: nat, b: bool): (r: Bits)
    ensures |r| == n && forall k | 0 <= k < n :: r[k] == b
  {
    seq(n, _ => b)
  }

  /** Weight `w` if bit `k` is there and set. */
  function V(s: Bits, k: nat, w: int): int { if k < |s| && s[k] then w else 0 }

  function Three(s: Bits, k: nat): (n: nat)
    ensures n < 8
  {
    V(s, k, 1) + V(s, k + 1, 2) + V(s, k + 2, 4)
  }

  function Five(s: Bits, k: nat): (n: nat)
    ensures n < 32
  {
    V(s, k, 1) + V(s, k + 1, 2) + V(s, k + 2, 4) + V(s, k + 3, 8) + V(s, k + 4, 16)
  }

  function Bin5(n: nat): (s: Bits)
    requires n < 32
    ensures |s| == 5 && Five(s, 0) == n
  {
    [n % 2 == 1, n / 2 % 2 == 1, n / 4 % 2 == 1, n / 8 % 2 == 1, n / 16 == 1]
  }

  function Bin3(n: nat): (s: Bits)
    requires n < 8
    ensures |s| == 3 && Three(s, 0) == n
  {
    [n % 2 == 1, n / 2 % 2 == 1, n / 4 == 1]
  }

  /* ---- Major opcodes and functions ---- */

  const LOAD := 0
  const OP_IMM := 4
  const STORE := 8
  const OP := 12
  const LUI := 13
  const BRANCH := 24
  const JALR := 25
  const JAL := 27
  const SYSTEM := 28

  const ADD := 0
  const SLL := 1
  const SLT := 2
  const SLTU := 3
  const XOR := 4
  const SRL := 5
  const OR := 6
  const AND := 7
  const BEQ := 0
  const BNE := 1
  const WORD := 2

  /* ---- The expander ---- */

  type Comp = c: Bits | |c| == 16 witness Repeat(16, false)
  type Insn = i: Bits | |i| == 32 witness Repeat(32, false)

  /** Assignment to a 32-bit vector cuts off what is too long and fills up what is too short. */
  function Fit(s: Bits): Insn { if |s| >= 32 then s[..32] else s + Repeat(32 - |s|, false) }

  function FormatI(imm: Bits, rs1: Bits, f3: Bits, rd: Bits, op: nat): Insn
    requires op < 32
  {
    Fit([true, true] + Bin5(op) + rd + f3 + rs1 + imm)
  }

  function FormatR(hi: Bits, rs2: Bits, rs1: Bits, f3: Bits, lo: Bits, op: nat): Insn
    requires op < 32
  {
    Fit([true, true] + Bin5(op) + lo + f3 + rs1 + rs2 + hi)
  }

  function FormatU(imm: Bits, rd: Bits, op: nat): Insn
    requires op < 32
  {
    Fit([true, true] + Bin5(op) + rd + imm)
  }

  function R3l(c: Comp): (r: Bits)
    ensures |r| == 5
  {
    c[2..5] + [true, false]
  }

  function R3h(c: Comp): (r: Bits)
    ensures |r| == 5
  {
    c[7..10] + [true, false]
  }

  function R5(c: Comp): Bits { c[7..12] }

  function JumpImm(c: Comp): (s: Bits)
    ensures |s| == 20
  {
    Repeat(8, c[12]) + [c[12]] + c[3..6] + [c[11], c[2], c[7], c[6]] + c[9..11] + [c[8], c[12]]
  }

  function BranchTo(c: Comp, f3: Bits): Insn {
    FormatR([c[2]] + c[5..7] + [c[12]] + Repeat(3, c[12]), Bin5(0), R3h(c), f3, [c[12]] + c[3..5] + c[10..12], BRANCH)
  }

  function Valid(b: bool, i: Insn): Option<Insn> { if b then Some(i) else None }

  /** Quadrant and function of a compressed instruction, as in `RV_OPC_*`. */
  predicate Is(c: Comp, b1: bool, b0: bool, b15: bool, b14: bool, b13: bool) {
    c[1] == b1 && c[0] == b0 && c[15] == b15 && c[14] == b14 && c[13] == b13
  }

  const O := false
  const I := true

  function ExpandQ0(c: Comp): Option<Insn> {
    if Is(c, O, O, O, O, O) then
      Valid(c[5..13] != Repeat(8, false),
            FormatI([O, O] + [c[6], c[5]] + c[11..13] + c[7..11] + [O, O], Bin5(2), Bin3(ADD), R3l(c), OP_IMM))
    else if Is(c, O, O, O, I, O) then
      Some(FormatI([O, O, c[6]] + c[10..13] + [c[5]] + Repeat(8, O), R3h(c), Bin3(WORD), R3l(c), LOAD))
    else if Is(c, O, O, I, I, O) then
      Some(FormatR([c[12], c[5]] + Repeat(8, O), R3l(c), R3h(c), Bin3(WORD), [O, O, c[6]] + c[10..12], STORE))
    else None
  }

  function ExpandAlu(c: Comp): Option<Insn> {
    if c[11] && !c[10] then
      Some(FormatI(c[2..7] + [c[12]] + Repeat(6, c[12]), R3h(c), Bin3(AND), R3h(c), OP_IMM))
    else if !c[11] then
      Valid(!c[12], FormatI(c[2..7] + [c[12]] + Repeat(4, O) + [c[10], O], R3h(c), Bin3(SRL), R3h(c), OP_IMM))
    else if !c[12] then
      Some(FormatR(Repeat(5, O) + [!c[6] && !c[5], O], R3l(c), R3h(c), [c[6] && c[5], c[6], c[6] || c[5]], R3h(c), OP))
    else None
  }

  function ExpandQ1(c: Comp): Option<Insn> {
    if Is(c, O, I, O, O, O) then Some(FormatI(c[2..7] + Repeat(7, c[12]), R5(c), Bin3(ADD), R5(c), OP_IMM))
    else if Is(c, O, I, O, O, I) then Some(FormatU(JumpImm(c), Bin5(1), JAL))
    else if Is(c, O, I, O, I, O) then Some(FormatI(c[2..7] + Repeat(7, c[12]), Bin5(0), Bin3(ADD), R5(c), OP_IMM))
    else if Is(c, O, I, O, I, I) then
      if R5(c) == Bin5(2) then
        Some(FormatI(Repeat(4, O) + [c[6], c[2], c[5]] + c[3..5] + Repeat(3, c[12]), R5(c), Bin3(ADD), R5(c), OP_IMM))
      else Some(FormatU(c[2..7] + [c[12]] + Repeat(14, c[12]), R5(c), LUI))
    else if Is(c, O, I, I, O, O) then ExpandAlu(c)
    else if Is(c, O, I, I, O, I) then Some(FormatU(JumpImm(c), Bin5(0), JAL))
    else if Is(c, O, I, I, I, O) then Some(BranchTo(c, Bin3(BEQ)))
    else if Is(c, O, I, I, I, I) then Some(BranchTo(c, Bin3(BNE)))
    else None
  }

  function ExpandCr(c: Comp): Option<Insn> {
    if !c[12] && c[2..7] == Bin5(0) then
      Valid(c[7..12] != Bin5(0), FormatI(Repeat(12, O), c[7..12], Bin3(ADD), Bin5(0), JALR))
    else if !c[12] then Some(FormatI(Repeat(12, O), c[2..7], Bin3(ADD), c[7..12], OP_IMM))
    else if c[2..12] == Repeat(10, O) then Some(FormatI([I] + Repeat(20, O), Bin5(0), Bin3(ADD), Bin5(0), SYSTEM))
    else if c[2..7] == Bin5(0) then
      Valid(c[7..12] != Bin5(0), FormatI(Repeat(12, O), c[7..12], Bin3(ADD), Bin5(1), JALR))
    else Some(FormatR(Repeat(7, O), c[2..7], c[7..12], Bin3(ADD), c[7..12], OP))
  }

  function ExpandQ2(c: Comp): Option<Insn> {
    if Is(c, I, O, O, O, O) then
      Valid(!c[12], FormatI(c[2..7] + [c[12]] + Repeat(4, O), R5(c), Bin3(SLL), R5(c), OP_IMM))
    else if Is(c, I, O, O, I, O) then
      Valid(c[7..12] != Bin5(0),
            FormatI([O, O] + c[4..7] + [c[12]] + c[2..4] + Repeat(4, O), Bin5(2), Bin3(WORD), R5(c), LOAD))
    else if Is(c, I, O, I, O, O) then ExpandCr(c)
    else if Is(c, I, O, I, I, O) then
      Some(FormatR([c[12]] + c[7..9] + Repeat(4, O), c[2..7], Bin5(2), Bin3(WORD), [O, O] + c[9..12], STORE))
    else None
  }

  function Expand(c: Comp): Option<Insn> {
    if !c[1] && !c[0] then ExpandQ0(c) else if !c[1] then ExpandQ1(c) else if !c[0] then ExpandQ2(c) else None
  }

  /* ---- What an instruction does ---- */

  /** Everything an instruction changes; register 0 is never written, so that an instruction may only go on. */
  datatype Effect =
    | Go(next: W)
    | Write(rd: nat, value: W, next: W)
    | Load(rd: nat, funct3: nat, addr: W, next: W)
    | Store(funct3: nat, addr: W, data: W, next: W)
    | Break
    | Other

  /** Register contents. */
  type Regs = seq<W>
  predicate RegsOk(x: Regs) { |x| == 32 && x[0] == 0 }

  function Put(rd: nat, value: W, next: W): Effect {
    if rd == 0 then Go(next) else Write(rd, value, next)
  }

  function Wrap(x: int): W { x % 0x1_0000_0000 }
  function Add(a: W, b: W): W { Wrap(a + b) }
  function Sub(a: W, b: W): W { Wrap(a - b) }
  function Even(a: W): W { a - a % 2 }
  function Signed(a: W): int { if a >= 0x8000_0000 then a - 0x1_0000_0000 else a }
  function And(a: W, b: W): W { Logic(AND, a, b, 32) }
  function Or(a: W, b: W): W { Logic(OR, a, b, 32) }
  function Xor(a: W, b: W): W { Logic(XOR, a, b, 32) }

  /** A gate for each of the lowest `n` binary digits. */
  function Logic(f: nat, a: nat, b: nat, n: nat): (r: nat)
    ensures r < Shl(1, n)
    ensures n == 32 ==> r < 0x1_0000_0000
  {
    assert Shl(1, 8) == 0x100;
    assert Shl(1, 16) == 0x1_0000;
    assert Shl(1, 24) == 0x100_0000;
    assert Shl(1, 32) == 0x1_0000_0000;
    if n == 0 then 0
    else
      var x, y := a % 2 == 1, b % 2 == 1;
      var z := if f == XOR then x != y else if f == OR then x || y else x && y;
      (if z then 1 else 0) + 2 * Logic(f, a / 2, b / 2, n - 1)
  }

  function ShiftLeft(a: W, k: nat): W
    decreases k
  {
    if k == 0 then a else Wrap(2 * ShiftLeft(a, k - 1))
  }

  function ShiftRight(a: W, k: nat, arith: bool): W
    decreases k
  {
    if k == 0 then a
    else
      var b := ShiftRight(a, k - 1, arith);
      b / 2 + if arith && b >= 0x8000_0000 then 0x8000_0000 else 0
  }

  /* ---- 32-bit instructions, as ID and EX decode them ---- */

  function Op(i: Insn): nat { Five(i, 2) }
  function Rd(i: Insn): nat { Five(i, 7) }
  function Funct3(i: Insn): nat { Three(i, 12) }
  function Rs1(i: Insn): nat { Five(i, 15) }
  function Rs2(i: Insn): nat { Five(i, 20) }

  /** Seven bits from `k` on as bits 5 to 11 of a number, the last one extended to the left. */
  function Upper(s: Bits, k: nat): (n: W)
    ensures n <= 0xFFFF_FFE0
  {
    V(s, k, 0x20) + V(s, k + 1, 0x40) + V(s, k + 2, 0x80) + V(s, k + 3, 0x100) + V(s, k + 4, 0x200) + V(s, k + 5, 0x400)
    + V(s, k + 6, 0x800) + V(s, k + 6, 0xFFFF_F000)
  }

  function ImmI(i: Insn): W { Five(i, 20) + Upper(i, 25) }
  function ImmS(i: Insn): W { Five(i, 7) + Upper(i, 25) }

  function Eight(s: Bits, k: nat): (n: W)
    ensures n < 0x10_0000
  {
    V(s, k, 0x1000) + V(s, k + 1, 0x2000) + V(s, k + 2, 0x4000) + V(s, k + 3, 0x8000) + V(s, k + 4, 0x1_0000)
    + V(s, k + 5, 0x2_0000) + V(s, k + 6, 0x4_0000) + V(s, k + 7, 0x8_0000)
  }

  /** Twenty bits from `k` on as bits 12 to 31. */
  function UpperImm(s: Bits, k: nat): W {
    Eight(s, k) + V(s, k + 8, 0x10_0000) + V(s, k + 9, 0x20_0000) + V(s, k + 10, 0x40_0000) + V(s, k + 11, 0x80_0000)
    + V(s, k + 12, 0x100_0000) + V(s, k + 13, 0x200_0000) + V(s, k + 14, 0x400_0000) + V(s, k + 15, 0x800_0000)
    + V(s, k + 16, 0x1000_0000) + V(s, k + 17, 0x2000_0000) + V(s, k + 18, 0x4000_0000) + V(s, k + 19, 0x8000_0000)
  }

  /** The branch target adder's second operand: for JAL from the bits from `k` on, */
  function JumpRhs(s: Bits, k: nat): W {
    V(s, k + 9, 2) + V(s, k + 10, 4) + V(s, k + 11, 8) + V(s, k + 12, 0x10) + V(s, k + 13, 0x20) + V(s, k + 14, 0x40)
    + V(s, k + 15, 0x80) + V(s, k + 16, 0x100) + V(s, k + 17, 0x200) + V(s, k + 18, 0x400) + V(s, k + 8, 0x800)
    + Eight(s, k) + V(s, k + 19, 0x10_0000) + V(s, k + 19, 0xFFE0_0000)
  }

  /** and for a branch from the two parts of its immediate. */
  function BranchRhs(s: Bits, k: nat, t: Bits, l: nat): W {
    V(s, k + 1, 2) + V(s, k + 2, 4) + V(s, k + 3, 8) + V(s, k + 4, 0x10) + V(t, l, 0x20) + V(t, l + 1, 0x40)
    + V(t, l + 2, 0x80) + V(t, l + 3, 0x100) + V(t, l + 4, 0x200) + V(t, l + 5, 0x400) + V(s, k, 0x800)
    + V(t, l + 6, 0x1000) + V(t, l + 6, 0x1F_E000) + V(t, l + 6, 0xFFE0_0000)
  }

  /** Adder, comparator, shifter and logic of EX; `sub` and `arith` come from bit 30. */
  function Alu(f: nat, sub: bool, arith: bool, a: W, b: W): W {
    if f == ADD then (if sub then Sub(a, b) else Add(a, b))
    else if f == SLL then ShiftLeft(a, b % 32)
    else if f == SLT then (if Signed(a) < Signed(b) then 1 else 0)
    else if f == SLTU then (if a < b then 1 else 0)
    else if f == XOR then Xor(a, b)
    else if f == SRL then ShiftRight(a, b % 32, arith)
    else if f == OR then Or(a, b)
    else And(a, b)
  }

  predicate Taken(f: nat, a: W, b: W) {
    var less := if f / 2 % 2 == 1 then a < b else Signed(a) < Signed(b);
    (f % 2 == 1) != if f / 4 % 2 == 1 then less else a == b
  }

  /** `full` is false for an instruction that took two bytes. Multiplications and the rest are Other. */
  function Execute(i: Insn, full: bool, pc: W, x: Regs): Effect
    requires RegsOk(x)
  {
    var next := Add(pc, if full then 4 else 2);
    var a, b := x[Rs1(i)], x[Rs2(i)];
    if Op(i) == LOAD then Load(Rd(i), Funct3(i), Add(a, ImmI(i)), next)
    else if Op(i) == STORE then Store(Funct3(i), Add(a, ImmS(i)), b, next)
    else if Op(i) == OP_IMM then Put(Rd(i), Alu(Funct3(i), false, i[30], a, ImmI(i)), next)
    else if Op(i) == OP && !i[25] then Put(Rd(i), Alu(Funct3(i), i[30], i[30], a, b), next)
    else if Op(i) == LUI then Put(Rd(i), UpperImm(i, 12), next)
    else if Op(i) == JAL then Put(Rd(i), next, Even(Add(pc, JumpRhs(i, 12))))
    else if Op(i) == JALR then Put(Rd(i), next, Even(Add(a, ImmI(i))))
    else if Op(i) == BRANCH then
      Go(if Taken(Funct3(i), a, b) then Even(Add(pc, BranchRhs(i, 7, i, 25))) else next)
    else if Op(i) == SYSTEM && Funct3(i) == ADD && ImmI(i) == 1 then Break
    else Other
  }

  /* ---- Chapter 16 ---- */

  /** rd', rs1' and rs2' name the registers from 8 on. */
  function Low(c: Comp): (r: nat)
    ensures 8 <= r < 16
  {
    8 + V(c, 2, 1) + V(c, 3, 2) + V(c, 4, 4)
  }

  function High(c: Comp): (r: nat)
    ensures 8 <= r < 16
  {
    8 + V(c, 7, 1) + V(c, 8, 2) + V(c, 9, 4)
  }

  function Full(c: Comp): (r: nat)
    ensures r < 32
  {
    Five(c, 7)
  }

  function Second(c: Comp): (r: nat)
    ensures r < 32
  {
    Five(c, 2)
  }

  /** The immediates: sums of weights, the sign bit's weight negative. */
  function SignedSix(c: Comp): int { Second(c) - V(c, 12, 32) }

  function JumpOffset(c: Comp): int {
    V(c, 3, 2) + V(c, 4, 4) + V(c, 5, 8) + V(c, 11, 16) + V(c, 2, 32) + V(c, 7, 64) + V(c, 6, 128) + V(c, 9, 256)
    + V(c, 10, 512) + V(c, 8, 1024) - V(c, 12, 2048)
  }

  function BranchOffset(c: Comp): int {
    V(c, 3, 2) + V(c, 4, 4) + V(c, 10, 8) + V(c, 11, 16) + V(c, 2, 32) + V(c, 5, 64) + V(c, 6, 128) - V(c, 12, 256)
  }

  function StackImm(c: Comp): W {
    V(c, 6, 4) + V(c, 5, 8) + V(c, 11, 16) + V(c, 12, 32) + V(c, 7, 64) + V(c, 8, 128) + V(c, 9, 256) + V(c, 10, 512)
  }

  function WordOffset(c: Comp): W { V(c, 6, 4) + V(c, 10, 8) + V(c, 11, 16) + V(c, 12, 32) + V(c, 5, 64) }

  function StackAdjust(c: Comp): int {
    V(c, 6, 16) + V(c, 2, 32) + V(c, 5, 64) + V(c, 3, 128) + V(c, 4, 256) - V(c, 12, 512)
  }

  function LoadStackOffset(c: Comp): W {
    V(c, 4, 4) + V(c, 5, 8) + V(c, 6, 16) + V(c, 12, 32) + V(c, 2, 64) + V(c, 3, 128)
  }

  function StoreStackOffset(c: Comp): W {
    V(c, 9, 4) + V(c, 10, 8) + V(c, 11, 16) + V(c, 12, 32) + V(c, 7, 64) + V(c, 8, 128)
  }

  /** Quadrant 0; None for reserved and floating-point encodings. */
  function Meaning0(c: Comp, pc: W, x: Regs): Option<Effect>
    requires RegsOk(x)
  {
    var next := (pc + 2) % 0x1_0000_0000;
    var at := (x[High(c)] + WordOffset(c)) % 0x1_0000_0000;
    match (c[15], c[14], c[13])
    case (false, false, false) =>
      if StackImm(c) == 0 then None else Some(Write(Low(c), (x[2] + StackImm(c)) % 0x1_0000_0000, next))
    case (false, true, false) => Some(Load(Low(c), 2, at, next))
    case (true, true, false) => Some(Store(2, at, x[Low(c)], next))
    case _ => None
  }

  /** C.SRLI, C.SRAI, C.ANDI, C.SUB, C.XOR, C.OR, C.AND. */
  function MeaningAlu(c: Comp, pc: W, x: Regs): Option<Effect>
    requires RegsOk(x)
  {
    var next := (pc + 2) % 0x1_0000_0000;
    var r: nat, a: int, b: int := High(c), x[High(c)], x[Low(c)];
    if !c[11] then (if c[12] then None else Some(Write(r, ShiftRight(a, Second(c), c[10]), next)))
    else if !c[10] then Some(Write(r, And(a, SignedSix(c) % 0x1_0000_0000), next))
    else if c[12] then None
    else match (c[6], c[5])
      case (false, false) => Some(Write(r, (a - b) % 0x1_0000_0000, next))
      case (false, true) => Some(Write(r, Xor(a, b), next))
      case (true, false) => Some(Write(r, Or(a, b), next))
      case (true, true) => Some(Write(r, And(a, b), next))
  }

  function Meaning1(c: Comp, pc: W, x: Regs): Option<Effect>
    requires RegsOk(x)
  {
    var next := (pc + 2) % 0x1_0000_0000;
    var branch := (pc + BranchOffset(c)) % 0x1_0000_0000;
    var jump := (pc + JumpOffset(c)) % 0x1_0000_0000;
    match (c[15], c[14], c[13])
    case (false, false, false) =>
      Some(if Full(c) == 0 then Go(next) else Write(Full(c), (x[Full(c)] + SignedSix(c)) % 0x1_0000_0000, next))
    case (false, false, true) => Some(Write(1, next, jump))
    case (false, true, false) =>
      Some(if Full(c) == 0 then Go(next) else Write(Full(c), SignedSix(c) % 0x1_0000_0000, next))
    case (false, true, true) =>
      if Full(c) == 2 then
        if StackAdjust(c) == 0 then None else Some(Write(2, (x[2] + StackAdjust(c)) % 0x1_0000_0000, next))
      else if SignedSix(c) == 0 then None
      else Some(if Full(c) == 0 then Go(next) else Write(Full(c), SignedSix(c) * 0x1000 % 0x1_0000_0000, next))
    case (true, false, false) => MeaningAlu(c, pc, x)
    case (true, false, true) => Some(Go(jump))
    case (true, true, false) => Some(Go(if x[High(c)] == 0 then branch else next))
    case (true, true, true) => Some(Go(if x[High(c)] != 0 then branch else next))
  }

  /** C.JR, C.MV, C.EBREAK, C.JALR, C.ADD. */
  function MeaningCr(c: Comp, pc: W, x: Regs): Option<Effect>
    requires RegsOk(x)
  {
    var next := (pc + 2) % 0x1_0000_0000;
    var r: nat, a: int, b: int := Full(c), x[Full(c)], x[Second(c)];
    if Second(c) != 0 then
      Some(if r == 0 then Go(next) else Write(r, if c[12] then (a + b) % 0x1_0000_0000 else b, next))
    else if r != 0 then Some(if c[12] then Write(1, next, a - a % 2) else Go(a - a % 2))
    else if c[12] then Some(Break)
    else None
  }

  function Meaning2(c: Comp, pc: W, x: Regs): Option<Effect>
    requires RegsOk(x)
  {
    var next := (pc + 2) % 0x1_0000_0000;
    match (c[15], c[14], c[13])
    case (false, false, false) =>
      if c[12] then None
      else Some(if Full(c) == 0 then Go(next) else Write(Full(c), ShiftLeft(x[Full(c)], Second(c)), next))
    case (false, true, false) =>
      if Full(c) == 0 then None else Some(Load(Full(c), 2, (x[2] + LoadStackOffset(c)) % 0x1_0000_0000, next))
    case (true, false, false) => MeaningCr(c, pc, x)
    case (true, true, false) => Some(Store(2, (x[2] + StoreStackOffset(c)) % 0x1_0000_0000, x[Second(c)], next))
    case _ => None
  }

  /** What chapter 16 says of a compressed instruction at `pc`; None if its encoding is reserved. */
  function Meaning(c: Comp, pc: W, x: Regs): Option<Effect>
    requires RegsOk(x)
  {
    if !c[1] && !c[0] then Meaning0(c, pc, x) else if !c[1] then Meaning1(c, pc, x)
    else if !c[0] then Meaning2(c, pc, x) else None
  }

  /* ---- Running what the formats make ---- */

  predicate Lengths(rs1: Bits, f3: Bits, rd: Bits) { |rs1| == |rd| == 5 && |f3| == 3 }

  /** From bit `k` on, `i` reads `s`. */
  ghost predicate Reads(i: Insn, k: nat, s: Bits, n: nat) {
    forall j, w: int | 0 <= j < n :: V(i, k + j, w) == V(s, j, w)
  }

  lemma FieldsI(imm: Bits, rs1: Bits, f3: Bits, rd: Bits, op: nat)
    requires Lengths(rs1, f3, rd) && op < 32
    ensures var i := FormatI(imm, rs1, f3, rd, op);
      && i[0] && i[1]
      && Reads(i, 2, Bin5(op), 5) && Reads(i, 7, rd, 5) && Reads(i, 12, f3, 3) && Reads(i, 15, rs1, 5)
      && Reads(i, 20, imm, 12)
  {
    var w := [true, true] + Bin5(op) + rd + f3 + rs1 + imm;
  }

  lemma FieldsR(hi: Bits, rs2: Bits, rs1: Bits, f3: Bits, lo: Bits, op: nat)
    requires Lengths(rs1, f3, lo) && |rs2| == 5 && op < 32
    ensures var i := FormatR(hi, rs2, rs1, f3, lo, op);
      && i[0] && i[1]
      && Reads(i, 2, Bin5(op), 5) && Reads(i, 7, lo, 5) && Reads(i, 12, f3, 3) && Reads(i, 15, rs1, 5)
      && Reads(i, 20, rs2, 5) && Reads(i, 25, hi, 7)
  {
  }

  lemma FieldsU(imm: Bits, rd: Bits, op: nat)
    requires |rd| == 5 && |imm| == 20 && op < 32
    ensures var i := FormatU(imm, rd, op);
      && i[0] && i[1]
      && Reads(i, 2, Bin5(op), 5) && Reads(i, 7, rd, 5) && Reads(i, 12, imm, 20)
  {
  }

  lemma ReadsAt(i: Insn, k: nat, s: Bits, n: nat, j: nat, w: int)
    requires Reads(i, k, s, n) && j < n
    ensures V(i, k + j, w) == V(s, j, w)
  {
  }

  lemma ReadsNumbers(i: Insn, k: nat, s: Bits, n: nat)
    requires Reads(i, k, s, n)
    ensures n >= 5 ==> Five(i, k) == Five(s, 0)
    ensures n >= 3 ==> Three(i, k) == Three(s, 0)
  {
    if n >= 3 {
      ReadsAt(i, k, s, n, 0, 1);
      ReadsAt(i, k, s, n, 1, 2);
      ReadsAt(i, k, s, n, 2, 4);
    }
    if n >= 5 {
      ReadsAt(i, k, s, n, 3, 8);
      ReadsAt(i, k, s, n, 4, 16);
    }
  }

  lemma ReadsUpper(i: Insn, k: nat, s: Bits, n: nat, m: nat)
    requires Reads(i, k, s, n) && n >= m + 7
    ensures Upper(i, k + m) == Upper(s, m)
  {
    ReadsAt(i, k, s, n, m, 0x20);
    ReadsAt(i, k, s, n, m + 1, 0x40);
    ReadsAt(i, k, s, n, m + 2, 0x80);
    ReadsAt(i, k, s, n, m + 3, 0x100);
    ReadsAt(i, k, s, n, m + 4, 0x200);
    ReadsAt(i, k, s, n, m + 5, 0x400);
    ReadsAt(i, k, s, n, m + 6, 0x800);
    ReadsAt(i, k, s, n, m + 6, 0xFFFF_F000);
  }

  predicate Bit(s: Bits, k: nat) { k < |s| && s[k] }

  /** The decoders give back what the formats were made from. */
  lemma DecodeI(imm: Bits, rs1: Bits, f3: Bits, rd: Bits, op: nat)
    requires Lengths(rs1, f3, rd) && op < 32
    ensures var i := FormatI(imm, rs1, f3, rd, op);
      && i[0] && i[1] && Op(i) == op && Rd(i) == Five(rd, 0) && Funct3(i) == Three(f3, 0) && Rs1(i) == Five(rs1, 0)
      && ImmI(i) == Five(imm, 0) + Upper(imm, 5) && i[30] == Bit(imm, 10)
  {
    hide Reads, FormatI, Five, Three, Upper, Bin5;
    var i := FormatI(imm, rs1, f3, rd, op);
    FieldsI(imm, rs1, f3, rd, op);
    ReadsNumbers(i, 2, Bin5(op), 5);
    ReadsNumbers(i, 7, rd, 5);
    ReadsNumbers(i, 12, f3, 3);
    ReadsNumbers(i, 15, rs1, 5);
    ReadsNumbers(i, 20, imm, 12);
    ReadsUpper(i, 20, imm, 12, 5);
    ReadsAt(i, 20, imm, 12, 10, 1);
  }

  lemma DecodeR(hi: Bits, rs2: Bits, rs1: Bits, f3: Bits, lo: Bits, op: nat)
    requires Lengths(rs1, f3, lo) && |rs2| == 5 && op < 32
    ensures var i := FormatR(hi, rs2, rs1, f3, lo, op);
      && i[0] && i[1] && Op(i) == op && Rd(i) == Five(lo, 0) && Funct3(i) == Three(f3, 0) && Rs1(i) == Five(rs1, 0)
      && Rs2(i) == Five(rs2, 0)
      && ImmS(i) == Five(lo, 0) + Upper(hi, 0) && BranchRhs(i, 7, i, 25) == BranchRhs(lo, 0, hi, 0)
      && i[25] == Bit(hi, 0) && i[30] == Bit(hi, 5)
  {
    hide Reads, FormatR, Five, Three, Upper, Bin5;
    var i := FormatR(hi, rs2, rs1, f3, lo, op);
    FieldsR(hi, rs2, rs1, f3, lo, op);
    ReadsNumbers(i, 2, Bin5(op), 5);
    ReadsNumbers(i, 7, lo, 5);
    ReadsNumbers(i, 12, f3, 3);
    ReadsNumbers(i, 15, rs1, 5);
    ReadsNumbers(i, 20, rs2, 5);
    ReadsUpper(i, 25, hi, 7, 0);
    ReadsAt(i, 25, hi, 7, 0, 1);
    ReadsAt(i, 25, hi, 7, 5, 1);
    ReadsBranch(i, lo, hi);
  }

  lemma ReadsBranch(i: Insn, lo: Bits, hi: Bits)
    requires Reads(i, 7, lo, 5) && Reads(i, 25, hi, 7)
    ensures BranchRhs(i, 7, i, 25) == BranchRhs(lo, 0, hi, 0)
  {
    hide V;
  }

  lemma DecodeU(imm: Bits, rd: Bits, op: nat)
    requires |rd| == 5 && |imm| == 20 && op < 32
    ensures var i := FormatU(imm, rd, op);
      && i[0] && i[1] && Op(i) == op && Rd(i) == Five(rd, 0)
      && UpperImm(i, 12) == UpperImm(imm, 0) && JumpRhs(i, 12) == JumpRhs(imm, 0)
  {
    hide FormatU, V, Bin5;
    FieldsU(imm, rd, op);
  }

  /** The expansion exists and does what chapter 16 says. */
  ghost predicate Faithful(c: Comp, pc: W, x: Regs)
    requires RegsOk(x)
  {
    match Meaning(c, pc, x)
    case None => true
    case Some(e) => Expand(c).Some? && Execute(Expand(c).value, false, pc, x) == e
  }

  /* ---- Fields of compressed instructions ---- */

  lemma Registers(c: Comp)
    ensures Five(R3l(c), 0) == Low(c) && Five(R3h(c), 0) == High(c)
    ensures Five(R5(c), 0) == Full(c) && Five(c[2..7], 0) == Second(c)
  {
  }

  lemma NamesRegister(s: Bits, n: nat)
    requires |s| == 5 && n < 32
    ensures s == Bin5(n) <==> Five(s, 0) == n
  {
    if Five(s, 0) == n {
      var b := Bin5(n);
      assert Five(b, 0) == Five(s, 0);
      assert s[0] == b[0] && s[1] == b[1] && s[2] == b[2] && s[3] == b[3] && s[4] == b[4];
    }
  }

  lemma Six(c: Comp, s: Bits)
    requires |s| == 12 && (forall k | 0 <= k < 5 :: s[k] == c[k + 2]) && (forall k | 5 <= k < 12 :: s[k] == c[12])
    ensures Five(s, 0) + Upper(s, 5) == TwosComplement(SignedSix(c))
  {
    assert Five(s, 0) == Second(c);
  }

  /** Instructions of format I: loads, immediate operations and jumps to registers. */
  lemma RunI(imm: Bits, rs1: Bits, f3: Bits, rd: Bits, op: nat, pc: W, x: Regs)
    requires Lengths(rs1, f3, rd) && op < 32 && RegsOk(x)
    ensures var e, a, n, next :=
        Execute(FormatI(imm, rs1, f3, rd, op), false, pc, x), x[Five(rs1, 0)], Five(imm, 0) + Upper(imm, 5), Add(pc, 2);
      && (op == LOAD ==> e == Load(Five(rd, 0), Three(f3, 0), Add(a, n), next))
      && (op == OP_IMM ==> e == Put(Five(rd, 0), Alu(Three(f3, 0), false, Bit(imm, 10), a, n), next))
      && (op == JALR ==> e == Put(Five(rd, 0), next, Even(Add(a, n))))
      && (op == SYSTEM && Three(f3, 0) == ADD && n == 1 ==> e == Break)
  {
    hide FormatI, Five, Three, Upper;
    DecodeI(imm, rs1, f3, rd, op);
  }

  lemma RunR(hi: Bits, rs2: Bits, rs1: Bits, f3: Bits, lo: Bits, op: nat, pc: W, x: Regs)
    requires Lengths(rs1, f3, lo) && |rs2| == 5 && op < 32 && RegsOk(x)
    ensures var e, a, b, next :=
        Execute(FormatR(hi, rs2, rs1, f3, lo, op), false, pc, x), x[Five(rs1, 0)], x[Five(rs2, 0)], Add(pc, 2);
      && (op == STORE ==> e == Store(Three(f3, 0), Add(a, Five(lo, 0) + Upper(hi, 0)), b, next))
      && (op == OP && !Bit(hi, 0) ==> e == Put(Five(lo, 0), Alu(Three(f3, 0), Bit(hi, 5), Bit(hi, 5), a, b), next))
      && (op == BRANCH ==>
        e == Go(if Taken(Three(f3, 0), a, b) then Even(Add(pc, BranchRhs(lo, 0, hi, 0))) else next))
  {
    hide FormatR, Five, Three, Upper, BranchRhs;
    DecodeR(hi, rs2, rs1, f3, lo, op);
  }

  lemma RunU(imm: Bits, rd: Bits, op: nat, pc: W, x: Regs)
    requires |rd| == 5 && |imm| == 20 && op < 32 && RegsOk(x)
    ensures var e := Execute(FormatU(imm, rd, op), false, pc, x);
      && (op == LUI ==> e == Put(Five(rd, 0), UpperImm(imm, 0), Add(pc, 2)))
      && (op == JAL ==> e == Put(Five(rd, 0), Add(pc, 2), Even(Add(pc, JumpRhs(imm, 0)))))
  {
    hide FormatU, Five, UpperImm, JumpRhs;
    DecodeU(imm, rd, op);
  }

  lemma StackImmBits(c: Comp)
    ensures var s := [O, O] + [c[6], c[5]] + c[11..13] + c[7..11] + [O, O]; Five(s, 0) + Upper(s, 5) == StackImm(c)
    ensures c[5..13] == Repeat(8, false) <==> StackImm(c) == 0
  {
    if StackImm(c) == 0 {
      assert c[5..13] == Repeat(8, false);
    }
    if c[5..13] == Repeat(8, false) {
      assert c[5..13][0] == c[5] && c[5..13][1] == c[6] && c[5..13][2] == c[7] && c[5..13][3] == c[8];
      assert c[5..13][4] == c[9] && c[5..13][5] == c[10] && c[5..13][6] == c[11] && c[5..13][7] == c[12];
    }
  }

  lemma WordOffsetBits(c: Comp)
    ensures var s := [O, O, c[6]] + c[10..13] + [c[5]] + Repeat(8, O); Five(s, 0) + Upper(s, 5) == WordOffset(c)
    ensures Five([O, O, c[6]] + c[10..12], 0) + Upper([c[12], c[5]] + Repeat(8, O), 0) == WordOffset(c)
  {
  }

  lemma Quadrant0(c: Comp, pc: W, x: Regs)
    requires RegsOk(x) && !c[1] && !c[0]
    ensures Faithful(c, pc, x)
  {
    hide FormatI, FormatR, Five, Upper, Bin5, Bin3, Three, R3l, R3h, Low, High;
    Registers(c);
    StackImmBits(c);
    WordOffsetBits(c);
    if Is(c, O, O, O, O, O) {
      RunI([O, O] + [c[6], c[5]] + c[11..13] + c[7..11] + [O, O], Bin5(2), Bin3(ADD), R3l(c), OP_IMM, pc, x);
    } else if Is(c, O, O, O, I, O) {
      RunI([O, O, c[6]] + c[10..13] + [c[5]] + Repeat(8, O), R3h(c), Bin3(WORD), R3l(c), LOAD, pc, x);
    } else if Is(c, O, O, I, I, O) {
      RunR([c[12], c[5]] + Repeat(8, O), R3l(c), R3h(c), Bin3(WORD), [O, O, c[6]] + c[10..12], STORE, pc, x);
    }
  }

  lemma LogicImmBits(c: Comp)
    ensures var s := c[2..7] + [c[12]] + Repeat(6, c[12]); Five(s, 0) + Upper(s, 5) == TwosComplement(SignedSix(c))
    ensures var s := c[2..7] + Repeat(7, c[12]); Five(s, 0) + Upper(s, 5) == TwosComplement(SignedSix(c))
  {
    Six(c, c[2..7] + [c[12]] + Repeat(6, c[12]));
    Six(c, c[2..7] + Repeat(7, c[12]));
  }

  lemma ShiftImmBits(c: Comp)
    requires !c[12]
    ensures var s := c[2..7] + [c[12]] + Repeat(4, O) + [c[10], O];
      Five(s, 0) + Upper(s, 5) == Second(c) + V(c, 10, 0x400) && Bit(s, 10) == c[10]
    ensures var s := c[2..7] + [c[12]] + Repeat(4, O); Five(s, 0) + Upper(s, 5) == Second(c)
  {
  }

  lemma AluFunction(c: Comp)
    ensures Three([c[6] && c[5], c[6], c[6] || c[5]], 0)
         == if !c[6] && !c[5] then ADD else if !c[6] then XOR else if !c[5] then OR else AND
    ensures var s := Repeat(5, O) + [!c[6] && !c[5], O]; !Bit(s, 0) && Bit(s, 5) == (!c[6] && !c[5])
  {
  }

  lemma ShiftAmount(c: Comp)
    ensures (Second(c) + V(c, 10, 0x400)) % 32 == Second(c)
  {
  }

  lemma AluImmediates(c: Comp, pc: W, x: Regs)
    requires RegsOk(x) && Is(c, O, I, I, O, O) && !(c[11] && c[10])
    ensures Faithful(c, pc, x)
  {
    hide FormatI, Five, Upper, Bin5, Bin3, Three, R3h, High, Second, ShiftRight, And, Or, Xor, V, SignedSix;
    Registers(c);
    if c[11] {
      LogicImmBits(c);
      SixIsSmall(c);
      WrapSmall(SignedSix(c));
      RunI(c[2..7] + [c[12]] + Repeat(6, c[12]), R3h(c), Bin3(AND), R3h(c), OP_IMM, pc, x);
    } else if !c[12] {
      ShiftImmBits(c);
      ShiftAmount(c);
      RunI(c[2..7] + [c[12]] + Repeat(4, O) + [c[10], O], R3h(c), Bin3(SRL), R3h(c), OP_IMM, pc, x);
    }
  }

  lemma AluRegisters(c: Comp, pc: W, x: Regs)
    requires RegsOk(x) && Is(c, O, I, I, O, O) && c[11] && c[10]
    ensures Faithful(c, pc, x)
  {
    hide FormatR, Five, Three, R3l, R3h, Low, High, And, Or, Xor;
    Registers(c);
    AluFunction(c);
    if !c[12] {
      RunR(Repeat(5, O) + [!c[6] && !c[5], O], R3l(c), R3h(c), [c[6] && c[5], c[6], c[6] || c[5]], R3h(c), OP, pc, x);
    }
  }

  function TwosComplement(v: int): int { if v < 0 then v + 0x1_0000_0000 else v }

  lemma JumpDigits(c: Comp)
    ensures var s := JumpImm(c);
      && (forall k | 0 <= k < 9 :: s[k] == c[12]) && s[9] == c[3] && s[10] == c[4] && s[11] == c[5] && s[12] == c[11]
      && s[13] == c[2] && s[14] == c[7] && s[15] == c[6] && s[16] == c[9] && s[17] == c[10]
      && s[18] == c[8] && s[19] == c[12]
  {
  }

  lemma JumpSign(c: Comp)
    ensures Eight(JumpImm(c), 0) == V(c, 12, 0xF_F000)
  {
    hide JumpImm;
    JumpDigits(c);
  }

  lemma JumpImmBits(c: Comp)
    ensures JumpRhs(JumpImm(c), 0) == TwosComplement(JumpOffset(c))
    ensures -0x1000 < JumpOffset(c) < 0x1000
  {
    hide JumpImm, Eight;
    JumpDigits(c);
    JumpSign(c);
  }

  lemma JumpOffsetIsEven(c: Comp)
    ensures JumpOffset(c) % 2 == 0
  {
    assert JumpOffset(c) == 2 * (V(c, 3, 1) + V(c, 4, 2) + V(c, 5, 4) + V(c, 11, 8) + V(c, 2, 16) + V(c, 7, 32)
      + V(c, 6, 64) + V(c, 9, 128) + V(c, 10, 256) + V(c, 8, 512) - V(c, 12, 1024));
  }

  lemma BranchImmBits(c: Comp)
    ensures BranchRhs([c[12]] + c[3..5] + c[10..12], 0, [c[2]] + c[5..7] + [c[12]] + Repeat(3, c[12]), 0)
         == TwosComplement(BranchOffset(c))
    ensures -0x1000 < BranchOffset(c) < 0x1000
  {
  }

  lemma BranchOffsetIsEven(c: Comp)
    ensures BranchOffset(c) % 2 == 0
  {
    assert BranchOffset(c) == 2 * (V(c, 3, 1) + V(c, 4, 2) + V(c, 10, 4) + V(c, 11, 8) + V(c, 2, 16) + V(c, 5, 32)
      + V(c, 6, 64) - V(c, 12, 128));
  }

  lemma StackAdjustBits(c: Comp)
    ensures var s := Repeat(4, O) + [c[6], c[2], c[5]] + c[3..5] + Repeat(3, c[12]);
      Five(s, 0) + Upper(s, 5) == TwosComplement(StackAdjust(c))
    ensures -0x1000 < StackAdjust(c) < 0x1000
  {
  }

  lemma LuiBits(c: Comp)
    ensures UpperImm(c[2..7] + [c[12]] + Repeat(14, c[12]), 0) == TwosComplement(SignedSix(c) * 0x1000)
  {
  }

  lemma WrapSmall(v: int)
    requires -0x1_0000_0000 <= v < 0x1_0000_0000
    ensures Wrap(v) == TwosComplement(v)
  {
  }

  /** The 32-bit sums of the decoders, written out. */
  lemma Sums()
    ensures forall a: W, b: W :: Add(a, b) == (a + b) % 0x1_0000_0000
    ensures forall a: W, b: W :: Sub(a, b) == (a - b) % 0x1_0000_0000
    ensures forall v: int :: Wrap(v) == v % 0x1_0000_0000
    ensures forall a: W :: Even(a) == a - a % 2
  {
  }

  /** Jumping by an even offset. */
  lemma Target(pc: W, offset: int)
    requires pc % 2 == 0 && offset % 2 == 0 && -0x1000 < offset < 0x1000
    ensures Even(Add(pc, TwosComplement(offset))) == Wrap(pc + offset)
  {
    AddWrapped(pc, offset);
    WrapSum(pc, offset);
  }

  lemma WrapSum(pc: W, d: int)
    requires -0x1000 < d < 0x1_0000_0000
    ensures Wrap(pc + d) == if pc + d < 0 then pc + d + 0x1_0000_0000
                            else if pc + d >= 0x1_0000_0000 then pc + d - 0x1_0000_0000 else pc + d
  {
  }

  lemma Quadrant1(c: Comp, pc: W, x: Regs)
    requires RegsOk(x) && !c[1] && c[0] && pc % 2 == 0
    ensures Faithful(c, pc, x)
  {
    hide FormatI, FormatR, FormatU, Five, Upper, Bin5, Bin3, Three, R3h, High, JumpImm;
    hide JumpRhs, BranchRhs, JumpOffset, BranchOffset;
    hide UpperImm, Faithful;
    if Is(c, O, I, I, O, O) {
      if c[11] && c[10] {
        AluRegisters(c, pc, x);
      } else {
        AluImmediates(c, pc, x);
      }
    } else if Is(c, O, I, O, I, I) {
      StackOrLui(c, pc, x);
    } else if c[15] && c[14] {
      Branches(c, pc, x);
    } else if !c[14] && c[13] {
      Jumps(c, pc, x);
    } else {
      AddImmediates(c, pc, x);
    }
  }

  lemma AddImmediates(c: Comp, pc: W, x: Regs)
    requires RegsOk(x) && (Is(c, O, I, O, O, O) || Is(c, O, I, O, I, O))
    ensures Faithful(c, pc, x)
  {
    hide FormatI, Five, Upper, Bin5, Bin3, Three, And, Or, Xor, SignedSix;
    hide Add, Wrap, ShiftLeft, ShiftRight, TwosComplement;
    Registers(c);
    LogicImmBits(c);
    SixIsSmall(c);
    WrapSmall(SignedSix(c));
    AddZero(Wrap(SignedSix(c)));
    AddWrapped(x[Full(c)], SignedSix(c));
    Sums();
    RunI(c[2..7] + Repeat(7, c[12]), if c[14] then Bin5(0) else R5(c), Bin3(ADD), R5(c), OP_IMM, pc, x);
  }

  lemma SixIsSmall(c: Comp)
    ensures -32 <= SignedSix(c) < 32
  {
  }

  lemma StackOrLui(c: Comp, pc: W, x: Regs)
    requires RegsOk(x) && Is(c, O, I, O, I, I)
    ensures Faithful(c, pc, x)
  {
    hide FormatI, FormatU, Five, Upper, Bin5, Bin3, Three, UpperImm, And, Or, Xor, SignedSix, StackAdjust, Add;
    Registers(c);
    Sums();
    NamesRegister(R5(c), 2);
    if R5(c) == Bin5(2) {
      StackAdjustBits(c);
      AddWrapped(x[2], StackAdjust(c));
      RunI(Repeat(4, O) + [c[6], c[2], c[5]] + c[3..5] + Repeat(3, c[12]), R5(c), Bin3(ADD), R5(c), OP_IMM, pc, x);
    } else {
      LuiBits(c);
      SixIsSmall(c);
      WrapSmall(SignedSix(c) * 0x1000);
      RunU(c[2..7] + [c[12]] + Repeat(14, c[12]), R5(c), LUI, pc, x);
    }
  }

  lemma AddWrapped(a: W, d: int)
    requires -0x1000 < d < 0x1000
    ensures Wrap(d) == TwosComplement(d) && Add(a, TwosComplement(d)) == Wrap(a + d)
  {
    WrapSmall(d);
    WrapSum(a, d);
    WrapSum(a, TwosComplement(d));
  }

  lemma Jumps(c: Comp, pc: W, x: Regs)
    requires RegsOk(x) && (Is(c, O, I, O, O, I) || Is(c, O, I, I, O, I)) && pc % 2 == 0
    ensures Faithful(c, pc, x)
  {
    hide FormatU, Five, Bin5, JumpImm, JumpRhs, JumpOffset, Add, Even, Wrap;
    JumpImmBits(c);
    JumpOffsetIsEven(c);
    Target(pc, JumpOffset(c));
    Sums();
    RunU(JumpImm(c), if c[15] then Bin5(0) else Bin5(1), JAL, pc, x);
  }

  lemma Branches(c: Comp, pc: W, x: Regs)
    requires RegsOk(x) && !c[1] && c[0] && c[15] && c[14] && pc % 2 == 0
    ensures Faithful(c, pc, x)
  {
    hide FormatR, Five, Bin5, Bin3, Three, R3h, High, BranchRhs, BranchOffset, Add, Even, Wrap;
    Registers(c);
    BranchImmBits(c);
    BranchOffsetIsEven(c);
    Target(pc, BranchOffset(c));
    Sums();
    var f3 := Bin3(if c[13] then BNE else BEQ);
    RunR([c[2]] + c[5..7] + [c[12]] + Repeat(3, c[12]), Bin5(0), R3h(c), f3,
         [c[12]] + c[3..5] + c[10..12], BRANCH, pc, x);
  }

  lemma StackOffsetBits(c: Comp)
    ensures var s := [O, O] + c[4..7] + [c[12]] + c[2..4] + Repeat(4, O); Five(s, 0) + Upper(s, 5) == LoadStackOffset(c)
    ensures Five([O, O] + c[9..12], 0) + Upper([c[12]] + c[7..9] + Repeat(4, O), 0) == StoreStackOffset(c)
  {
  }

  lemma NoImmediate()
    ensures var s := Repeat(12, O); Five(s, 0) + Upper(s, 5) == 0
    ensures var s := [I] + Repeat(20, O); Five(s, 0) + Upper(s, 5) == 1
    ensures var s := Repeat(7, O); !Bit(s, 0) && !Bit(s, 5)
  {
  }

  lemma Quadrant2(c: Comp, pc: W, x: Regs)
    requires RegsOk(x) && c[1] && !c[0]
    ensures Faithful(c, pc, x)
  {
    hide Faithful, Bin5;
    if !Is(c, I, O, I, O, O) {
      StackAccesses(c, pc, x);
    } else if c[2..7] != Bin5(0) {
      RegisterMoves(c, pc, x);
    } else if c[7..12] != Bin5(0) {
      JumpsToRegisters(c, pc, x);
    } else {
      Breaks(c, pc, x);
    }
  }

  lemma StackAccesses(c: Comp, pc: W, x: Regs)
    requires RegsOk(x) && c[1] && !c[0] && !Is(c, I, O, I, O, O)
    ensures Faithful(c, pc, x)
  {
    hide FormatI, FormatR, Five, Upper, Bin5, Bin3, Three, ShiftLeft, Second;
    hide LoadStackOffset, StoreStackOffset, And, Or, Xor;
    Registers(c);
    StackOffsetBits(c);
    NamesRegister(c[7..12], 0);
    if Is(c, I, O, O, O, O) && !c[12] {
      ShiftImmBits(c);
      RunI(c[2..7] + [c[12]] + Repeat(4, O), R5(c), Bin3(SLL), R5(c), OP_IMM, pc, x);
    } else if Is(c, I, O, O, I, O) {
      RunI([O, O] + c[4..7] + [c[12]] + c[2..4] + Repeat(4, O), Bin5(2), Bin3(WORD), R5(c), LOAD, pc, x);
    } else if Is(c, I, O, I, I, O) {
      RunR([c[12]] + c[7..9] + Repeat(4, O), c[2..7], Bin5(2), Bin3(WORD), [O, O] + c[9..12], STORE, pc, x);
    }
  }

  lemma AddZero(a: W)
    ensures Add(a, 0) == a && Add(0, a) == a
  {
  }

  lemma JumpsToRegisters(c: Comp, pc: W, x: Regs)
    requires RegsOk(x) && Is(c, I, O, I, O, O) && c[2..7] == Bin5(0) && c[7..12] != Bin5(0)
    ensures Faithful(c, pc, x)
  {
    hide FormatI, Five, Upper, Bin5, Bin3, Three, Alu, Add, Even;
    Registers(c);
    NoImmediate();
    NamesRegister(c[7..12], 0);
    NamesRegister(c[2..7], 0);
    AllZero(c);
    AddZero(x[Full(c)]);
    Sums();
    RunI(Repeat(12, O), c[7..12], Bin3(ADD), if c[12] then Bin5(1) else Bin5(0), JALR, pc, x);
  }

  lemma Breaks(c: Comp, pc: W, x: Regs)
    requires RegsOk(x) && Is(c, I, O, I, O, O) && c[2..7] == Bin5(0) && c[7..12] == Bin5(0)
    ensures Faithful(c, pc, x)
  {
    hide FormatI, Five, Upper, Bin5, Bin3, Three, Alu, Add, Even;
    Registers(c);
    NoImmediate();
    NamesRegister(c[7..12], 0);
    NamesRegister(c[2..7], 0);
    AllZero(c);
    RunI([I] + Repeat(20, O), Bin5(0), Bin3(ADD), Bin5(0), SYSTEM, pc, x);
  }

  lemma RegisterMoves(c: Comp, pc: W, x: Regs)
    requires RegsOk(x) && Is(c, I, O, I, O, O) && c[2..7] != Bin5(0)
    ensures Faithful(c, pc, x)
  {
    hide FormatI, FormatR, Five, Upper, Bin5, Bin3, Three, And, Or, Xor, Add;
    Registers(c);
    NoImmediate();
    NamesRegister(c[2..7], 0);
    AllZero(c);
    Sums();
    if c[12] {
      RunR(Repeat(7, O), c[2..7], c[7..12], Bin3(ADD), c[7..12], OP, pc, x);
    } else {
      AddZero(x[Second(c)]);
      RunI(Repeat(12, O), c[2..7], Bin3(ADD), c[7..12], OP_IMM, pc, x);
    }
  }

  lemma ZeroBits(s: Bits, n: nat)
    requires |s| == n
    ensures s == Repeat(n, O) <==> forall k | 0 <= k < n :: !s[k]
    ensures n == 5 ==> Repeat(n, O) == Bin5(0)
  {
  }

  lemma AllZero(c: Comp)
    ensures c[2..12] == Repeat(10, O) <==> c[2..7] == Bin5(0) && c[7..12] == Bin5(0)
  {
    hide Repeat, Bin5;
    ZeroBits(c[2..12], 10);
    ZeroBits(c[2..7], 5);
    ZeroBits(c[7..12], 5);
    assert forall k | 0 <= k < 5 :: c[2..7][k] == c[2..12][k];
    assert forall k | 5 <= k < 10 :: c[7..12][k - 5] == c[2..12][k];
    assert forall k | 0 <= k < 5 :: c[7..12][k] == c[2..12][k + 5];
  }

  /** Every compressed instruction that is not reserved, at every address and in every register state. */
  lemma ExpansionKeepsMeaning(c: Comp, pc: W, x: Regs)
    requires RegsOk(x) && pc % 2 == 0
    ensures Meaning(c, pc, x).Some? ==>
      Expand(c).Some? && Some(Execute(Expand(c).value, false, pc, x)) == Meaning(c, pc, x)
  {
    hide Execute;
    if !c[1] && !c[0] {
      Quadrant0(c, pc, x);
    } else if !c[1] {
      Quadrant1(c, pc, x);
    } else if !c[0] {
      Quadrant2(c, pc, x);
    }
  }

  /** The reserved encodings the expander lets through: C.LUI and C.ADDI16SP with a zero immediate. */
  predicate ZeroUpper(c: Comp) {
    Is(c, O, I, O, I, I) && if Full(c) == 2 then StackAdjust(c) == 0 else SignedSix(c) == 0
  }

  /** All other reserved encodings are refused. */
  lemma RefusedExactly(c: Comp, pc: W, x: Regs)
    requires RegsOk(x)
    ensures Expand(c).Some? <==> Meaning(c, pc, x).Some? || ZeroUpper(c)
  {
    hide FormatI, FormatR, FormatU, Five, Bin5, Bin3, Upper, Three, Second, SignedSix, StackAdjust;
    Registers(c);
    StackImmBits(c);
    NamesRegister(c[7..12], 0);
    NamesRegister(c[2..7], 0);
    NamesRegister(c[7..12], 2);
    AllZero(c);
  }
}
