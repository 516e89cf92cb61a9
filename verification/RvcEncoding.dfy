/**
 The expansions of compressed instructions as 32-bit numbers, laid out as the formats of chapter 2 of the
 RISC-V unprivileged ISA (20191213) are, and what the shifts and gates of the decoders compute.
 */
module RvcEncoding {
  import opened Rvc

  /* ---- Shifts and gates ---- */

  /** Binary digit `k`. */
  predicate Digit(v: nat, k: nat) { if k == 0 then v % 2 == 1 else Digit(v / 2, k - 1) }

  lemma {:induction false} LogicDigit(f: nat, a: nat, b: nat, n: nat, k: nat)
    requires k < n
    ensures f == 4 ==> (Digit(Logic(f, a, b, n), k) <==> Digit(a, k) != Digit(b, k))
    ensures f == 6 ==> (Digit(Logic(f, a, b, n), k) <==> Digit(a, k) || Digit(b, k))
    ensures f == 7 ==> (Digit(Logic(f, a, b, n), k) <==> Digit(a, k) && Digit(b, k))
  {
    hide Logic, Digit;
    LogicStep(f, a, b, n);
    if k > 0 {
      LogicDigit(f, a / 2, b / 2, n - 1, k - 1);
      LaterDigit(a, k);
      LaterDigit(b, k);
      LaterDigit(Logic(f, a, b, n), k);
    }
  }

  lemma LogicStep(f: nat, a: nat, b: nat, n: nat)
    requires n > 0
    ensures Logic(f, a, b, n) / 2 == Logic(f, a / 2, b / 2, n - 1)
    ensures f == 4 ==> (Digit(Logic(f, a, b, n), 0) <==> Digit(a, 0) != Digit(b, 0))
    ensures f == 6 ==> (Digit(Logic(f, a, b, n), 0) <==> Digit(a, 0) || Digit(b, 0))
    ensures f == 7 ==> (Digit(Logic(f, a, b, n), 0) <==> Digit(a, 0) && Digit(b, 0))
  {
  }

  lemma LaterDigit(v: nat, k: nat)
    requires k > 0
    ensures Digit(v, k) == Digit(v / 2, k - 1)
  {
  }

  /** The gates work on each of the 32 digits. */
  lemma GatesAreBitwise(a: W, b: W, k: nat)
    requires k < 32
    ensures Digit(And(a, b), k) <==> Digit(a, k) && Digit(b, k)
    ensures Digit(Or(a, b), k) <==> Digit(a, k) || Digit(b, k)
    ensures Digit(Xor(a, b), k) <==> Digit(a, k) != Digit(b, k)
  {
    hide Logic, Digit;
    LogicDigit(4, a, b, 32, k);
    LogicDigit(6, a, b, 32, k);
    LogicDigit(7, a, b, 32, k);
  }

  /** `v` doubled `k` times. */
  function Doubled(v: int, k: nat): int { if k == 0 then v else 2 * Doubled(v, k - 1) }

  lemma {:induction false} DoubledFirst(v: int, k: nat)
    ensures Doubled(2 * v, k) == 2 * Doubled(v, k)
  {
    if k > 0 { DoubledFirst(v, k - 1); }
  }

  lemma {:induction false} DoubledOrder(u: int, v: int, k: nat)
    requires u <= v
    ensures Doubled(u, k) <= Doubled(v, k)
  {
    if k > 0 { DoubledOrder(u, v, k - 1); }
  }

  /** A number in two's complement. */
  function Meant(a: W): int { if a < 0x8000_0000 then a else a - 0x1_0000_0000 }

  /**
   A left shift multiplies by a power of two and keeps 32 digits; a right shift divides and rounds down,
   the arithmetic one dividing the signed number.
   */
  lemma {:induction false} ShiftsScale(a: W, k: nat)
    ensures ShiftLeft(a, k) == Doubled(a, k) % 0x1_0000_0000
    ensures Doubled(ShiftRight(a, k, false), k) <= a < Doubled(ShiftRight(a, k, false) + 1, k)
    ensures Doubled(Meant(ShiftRight(a, k, true)), k) <= Meant(a) < Doubled(Meant(ShiftRight(a, k, true)) + 1, k)
    decreases k
  {
    hide ShiftLeft, ShiftRight, Doubled, Meant;
    if k > 0 {
      ShiftsScale(a, k - 1);
      LeftByOne(a, k);
      HalfLogical(a, k);
      HalfArithmetic(a, k);
      RightByOne(ShiftRight(a, k - 1, false), ShiftRight(a, k, false), a, k);
      RightByOne(Meant(ShiftRight(a, k - 1, true)), Meant(ShiftRight(a, k, true)), Meant(a), k);
    } else {
      NoShift(a);
    }
  }

  lemma NoShift(a: W)
    ensures ShiftLeft(a, 0) == ShiftRight(a, 0, false) == ShiftRight(a, 0, true) == a
    ensures forall v: int :: Doubled(v, 0) == v
  {
  }

  lemma LeftByOne(a: W, k: nat)
    requires k > 0 && ShiftLeft(a, k - 1) == Doubled(a, k - 1) % 0x1_0000_0000
    ensures ShiftLeft(a, k) == Doubled(a, k) % 0x1_0000_0000
  {
    DoubleWrapped(Doubled(a, k - 1));
  }

  lemma DoubleWrapped(v: int)
    ensures 2 * (v % 0x1_0000_0000) % 0x1_0000_0000 == 2 * v % 0x1_0000_0000
  {
    var q, r := v / 0x1_0000_0000, v % 0x1_0000_0000;
    var carry := if r < 0x8000_0000 then 0 else 1;
    Quotient(2 * v, 2 * q + carry, 2 * r - carry * 0x1_0000_0000, 0x1_0000_0000);
    Quotient(2 * r, carry, 2 * r - carry * 0x1_0000_0000, 0x1_0000_0000);
  }

  lemma HalfLogical(a: W, k: nat)
    requires k > 0
    ensures 2 * ShiftRight(a, k, false) <= ShiftRight(a, k - 1, false) <= 2 * ShiftRight(a, k, false) + 1
  {
  }

  lemma HalfArithmetic(a: W, k: nat)
    requires k > 0
    ensures var before, after := Meant(ShiftRight(a, k - 1, true)), Meant(ShiftRight(a, k, true));
      2 * after <= before <= 2 * after + 1
  {
  }

  lemma RightByOne(before: int, after: int, v: int, k: nat)
    requires k > 0 && 2 * after <= before <= 2 * after + 1
    requires Doubled(before, k - 1) <= v < Doubled(before + 1, k - 1)
    ensures Doubled(after, k) <= v < Doubled(after + 1, k)
  {
    DoubledFirst(after, k - 1);
    DoubledFirst(after + 1, k - 1);
    DoubledOrder(2 * after, before, k - 1);
    DoubledOrder(before + 1, 2 * after + 2, k - 1);
  }

  /** Set-less-than, and what each branch decides. */
  lemma Comparisons(a: W, b: W)
    ensures Alu(2, false, false, a, b) == (if Meant(a) < Meant(b) then 1 else 0)
    ensures Alu(3, false, false, a, b) == (if a < b then 1 else 0)
    ensures (Taken(0, a, b) <==> a == b) && (Taken(1, a, b) <==> a != b)
    ensures (Taken(4, a, b) <==> Meant(a) < Meant(b)) && (Taken(5, a, b) <==> Meant(a) >= Meant(b))
    ensures (Taken(6, a, b) <==> a < b) && (Taken(7, a, b) <==> a >= b)
  {
  }

  /* ---- Instruction words as numbers ---- */

  function Number(s: Bits): nat {
    if s == [] then 0 else (if s[0] then 1 else 0) + 2 * Number(s[1..])
  }

  lemma NextDigit(s: Bits, k: nat)
    requires k < |s|
    ensures Number(s[k..]) == V(s, k, 1) + 2 * Number(s[k + 1..])
  {
    assert s[k..][1..] == s[k + 1..];
  }

  lemma CutThree(s: Bits, k: nat)
    requires k + 3 <= |s|
    ensures Number(s[k..]) == Three(s, k) + 8 * Number(s[k + 3..])
  {
    hide Number;
    NextDigit(s, k);
    NextDigit(s, k + 1);
    NextDigit(s, k + 2);
  }

  lemma CutFive(s: Bits, k: nat)
    requires k + 5 <= |s|
    ensures Number(s[k..]) == Five(s, k) + 32 * Number(s[k + 5..])
  {
    hide Number;
    NextDigit(s, k);
    NextDigit(s, k + 1);
    NextDigit(s, k + 2);
    NextDigit(s, k + 3);
    NextDigit(s, k + 4);
  }

  function Seven(s: Bits, k: nat): (n: nat)
    ensures n < 128
  {
    V(s, k, 1) + V(s, k + 1, 2) + V(s, k + 2, 4) + V(s, k + 3, 8) + V(s, k + 4, 16) + V(s, k + 5, 32) + V(s, k + 6, 64)
  }

  lemma UpperIsSeven(s: Bits, k: nat)
    ensures Upper(s, k) == 32 * Seven(s, k) + V(s, k + 6, 0xFFFF_F000)
  {
  }

  /** The fields of any instruction word. */
  lemma NumberOfFields(i: Insn)
    requires i[0] && i[1]
    ensures Number(i) == 3 + 4 * Op(i) + 0x80 * Rd(i) + 0x1000 * Funct3(i) + 0x8000 * Rs1(i)
                         + 0x10_0000 * Rs2(i) + 0x200_0000 * Seven(i, 25)
  {
    hide Number, Five, Three, Seven;
    assert i[0..] == i;
    NextDigit(i, 0);
    NextDigit(i, 1);
    CutFive(i, 2);
    CutFive(i, 7);
    CutThree(i, 12);
    CutFive(i, 15);
    CutFive(i, 20);
    LastSeven(i);
  }

  lemma LastSeven(i: Insn)
    ensures Number(i[25..]) == Seven(i, 25)
  {
    hide Number;
    CutFive(i, 25);
    NextDigit(i, 30);
    NextDigit(i, 31);
    Nothing(i[32..]);
  }

  lemma Nothing(s: Bits)
    requires s == []
    ensures Number(s) == 0
  {
  }

  /* ---- The formats ---- */

  function TypeI(imm: int, rs1: nat, funct3: nat, rd: nat, opcode: nat): int {
    imm % 0x1000 * 0x10_0000 + rs1 * 0x8000 + funct3 * 0x1000 + rd * 0x80 + opcode
  }

  function TypeR(funct7: nat, rs2: nat, rs1: nat, funct3: nat, rd: nat, opcode: nat): int {
    funct7 * 0x200_0000 + rs2 * 0x10_0000 + rs1 * 0x8000 + funct3 * 0x1000 + rd * 0x80 + opcode
  }

  function TypeS(imm: int, rs2: nat, rs1: nat, funct3: nat, opcode: nat): int {
    imm / 32 % 128 * 0x200_0000 + rs2 * 0x10_0000 + rs1 * 0x8000 + funct3 * 0x1000 + imm % 32 * 0x80 + opcode
  }

  function TypeB(offset: int, rs2: nat, rs1: nat, funct3: nat, opcode: nat): int {
    offset / 0x1000 % 2 * 0x8000_0000 + offset / 32 % 64 * 0x200_0000 + rs2 * 0x10_0000 + rs1 * 0x8000
    + funct3 * 0x1000 + offset / 2 % 16 * 0x100 + offset / 0x800 % 2 * 0x80 + opcode
  }

  function TypeU(upper: int, rd: nat, opcode: nat): int { upper % 0x10_0000 * 0x1000 + rd * 0x80 + opcode }

  function TypeJ(offset: int, rd: nat, opcode: nat): int {
    offset / 0x10_0000 % 2 * 0x8000_0000 + offset / 2 % 0x400 * 0x20_0000 + offset / 0x800 % 2 * 0x10_0000
    + offset / 0x1000 % 0x100 * 0x1000 + rd * 0x80 + opcode
  }

  /** The 32-bit instruction for each compressed one; of no meaning for reserved encodings. */
  function Encoding(c: Comp): int {
    match (c[1], c[0], c[15], c[14], c[13])
    case (false, false, false, _, false) =>
      if c[14] then TypeI(WordOffset(c), High(c), 2, Low(c), 0x03) else TypeI(StackImm(c), 2, 0, Low(c), 0x13)
    case (false, false, true, true, false) => TypeS(WordOffset(c), Low(c), High(c), 2, 0x23)
    case (false, true, false, false, false) => TypeI(SignedSix(c), Full(c), 0, Full(c), 0x13)
    case (false, true, false, false, true) => TypeJ(JumpOffset(c), 1, 0x6F)
    case (false, true, false, true, false) => TypeI(SignedSix(c), 0, 0, Full(c), 0x13)
    case (false, true, false, true, true) =>
      if Full(c) == 2 then TypeI(StackAdjust(c), 2, 0, 2, 0x13) else TypeU(SignedSix(c), Full(c), 0x37)
    case (false, true, true, false, false) => EncodingAlu(c)
    case (false, true, true, false, true) => TypeJ(JumpOffset(c), 0, 0x6F)
    case (false, true, true, true, _) => TypeB(BranchOffset(c), 0, High(c), if c[13] then 1 else 0, 0x63)
    case (true, false, false, false, false) => TypeI(Second(c), Full(c), 1, Full(c), 0x13)
    case (true, false, false, true, false) => TypeI(LoadStackOffset(c), 2, 2, Full(c), 0x03)
    case (true, false, true, false, false) => EncodingCr(c)
    case (true, false, true, true, false) => TypeS(StoreStackOffset(c), Second(c), 2, 2, 0x23)
    case _ => 0
  }

  function EncodingAlu(c: Comp): int {
    if !c[11] then TypeI(Second(c) + if c[10] then 0x400 else 0, High(c), 5, High(c), 0x13)
    else if !c[10] then TypeI(SignedSix(c), High(c), 7, High(c), 0x13)
    else
      match (c[6], c[5])
      case (false, false) => TypeR(0x20, Low(c), High(c), 0, High(c), 0x33)
      case (false, true) => TypeR(0, Low(c), High(c), 4, High(c), 0x33)
      case (true, false) => TypeR(0, Low(c), High(c), 6, High(c), 0x33)
      case (true, true) => TypeR(0, Low(c), High(c), 7, High(c), 0x33)
  }

  /** C.MV becomes an ADDI of 0. */
  function EncodingCr(c: Comp): int {
    if Second(c) != 0 then
      if c[12] then TypeR(0, Second(c), Full(c), 0, Full(c), 0x33) else TypeI(0, Second(c), 0, Full(c), 0x13)
    else if Full(c) != 0 then TypeI(0, Full(c), 0, if c[12] then 1 else 0, 0x67)
    else 0x0010_0073
  }

  /* ---- What the format makers produce ---- */

  lemma MakesI(imm: Bits, rs1: Bits, f3: Bits, rd: Bits, op: nat)
    requires Lengths(rs1, f3, rd) && op < 32
    ensures Number(FormatI(imm, rs1, f3, rd, op))
         == TypeI(Five(imm, 0) + Upper(imm, 5), Five(rs1, 0), Three(f3, 0), Five(rd, 0), 4 * op + 3)
  {
    hide FormatI, Five, Three, Upper, Seven, Number;
    var i := FormatI(imm, rs1, f3, rd, op);
    DecodeI(imm, rs1, f3, rd, op);
    NumberOfFields(i);
    UpperIsSeven(i, 25);
    CutI(Five(i, 20), Seven(i, 25), V(i, 31, 0xFFFF_F000));
  }

  lemma CutI(low: nat, high: nat, sign: nat)
    requires low < 32 && high < 128 && (sign == 0 || sign == 0xFFFF_F000)
    ensures (low + (32 * high + sign)) % 0x1000 == low + 32 * high
    ensures (low + (32 * high + sign)) % 32 == low && (low + (32 * high + sign)) / 32 % 128 == high
  {
  }

  lemma MakesR(hi: Bits, rs2: Bits, rs1: Bits, f3: Bits, lo: Bits, op: nat)
    requires Lengths(rs1, f3, lo) && |rs2| == 5 && op < 32
    ensures var n := Number(FormatR(hi, rs2, rs1, f3, lo, op));
      && n == TypeR(Seven(hi, 0), Five(rs2, 0), Five(rs1, 0), Three(f3, 0), Five(lo, 0), 4 * op + 3)
      && n == TypeS(Five(lo, 0) + Upper(hi, 0), Five(rs2, 0), Five(rs1, 0), Three(f3, 0), 4 * op + 3)
      && n == TypeB(BranchRhs(lo, 0, hi, 0), Five(rs2, 0), Five(rs1, 0), Three(f3, 0), 4 * op + 3)
  {
    hide FormatR, Five, Three, Upper, Seven, Number, BranchRhs;
    var i := FormatR(hi, rs2, rs1, f3, lo, op);
    DecodeR(hi, rs2, rs1, f3, lo, op);
    NumberOfFields(i);
    FieldsR(hi, rs2, rs1, f3, lo, op);
    ReadsSeven(i, 25, hi);
    UpperIsSeven(hi, 0);
    CutI(Five(lo, 0), Seven(hi, 0), V(hi, 6, 0xFFFF_F000));
    BranchFields(lo, hi);
  }

  lemma ReadsSeven(i: Insn, k: nat, s: Bits)
    requires Reads(i, k, s, 7)
    ensures Seven(i, k) == Seven(s, 0)
  {
    hide V;
  }

  /** Weights factor out. */
  lemma Weights(s: Bits)
    ensures forall k: nat, w: int :: V(s, k, w) == w * V(s, k, 1)
    ensures forall k: nat :: 0 <= V(s, k, 1) <= 1
  {
  }

  lemma BranchFields(lo: Bits, hi: Bits)
    ensures var offset := BranchRhs(lo, 0, hi, 0);
      && offset / 0x1000 % 2 * 64 + offset / 32 % 64 == Seven(hi, 0)
      && offset / 2 % 16 * 2 + offset / 0x800 % 2 == Five(lo, 0)
  {
    hide V;
    Weights(lo);
    Weights(hi);
    var four := V(lo, 1, 1) + 2 * V(lo, 2, 1) + 4 * V(lo, 3, 1) + 8 * V(lo, 4, 1);
    var six := V(hi, 0, 1) + 2 * V(hi, 1, 1) + 4 * V(hi, 2, 1) + 8 * V(hi, 3, 1) + 16 * V(hi, 4, 1) + 32 * V(hi, 5, 1);
    CutBranch(four, six, V(lo, 0, 1), V(hi, 6, 1));
  }

  lemma CutBranch(four: nat, six: nat, bit: nat, sign: nat)
    requires four < 16 && six < 64 && bit < 2 && sign < 2
    ensures var offset := 2 * four + 32 * six + 0x800 * bit + 0x1000 * sign + 0xFFFF_E000 * sign;
      && offset / 2 % 16 == four && offset / 32 % 64 == six && offset / 0x800 % 2 == bit && offset / 0x1000 % 2 == sign
  {
    var offset := 2 * four + 32 * six + 0x800 * bit + 0x1000 * sign + 0xFFFF_E000 * sign;
    Field(offset, 0, four, six + 64 * bit + 0x800_0000 * sign - 128 * sign, 2, 16);
    Field(offset, 2 * four, six, bit + 0x1F_FFFE * sign, 32, 64);
    Field(offset, 2 * four + 32 * six, bit, 0xF_FFFF * sign, 0x800, 2);
    Field(offset, 2 * four + 32 * six + 0x800 * bit, sign, 0x7_FFFF * sign, 0x1000, 2);
  }

  /** Cutting a field out of a number. */
  lemma Field(v: int, low: nat, x: nat, rest: int, d: nat, m: nat)
    requires v == low + d * (x + m * rest) && low < d && x < m
    ensures v / d % m == x
  {
    Quotient(v, x + m * rest, low, d);
    Quotient(x + m * rest, rest, x, m);
  }

  lemma Quotient(v: int, q: int, r: nat, d: nat)
    requires v == r + d * q && r < d
    ensures v / d == q && v % d == r
  {
    var k := q - v / d;
    assert d * k == v % d - r;
    Multiple(d, k);
  }

  lemma {:induction false} Multiple(d: int, k: int)
    requires d >= 0
    ensures k > 0 ==> d * k >= d
    ensures k < 0 ==> d * k <= -d
    decreases if k < 0 then -k else k
  {
    if k > 1 {
      Multiple(d, k - 1);
      assert d * k == d * (k - 1) + d;
    } else if k < -1 {
      Multiple(d, k + 1);
      assert d * k == d * (k + 1) - d;
    }
  }

  lemma MakesU(imm: Bits, rd: Bits, op: nat)
    requires |rd| == 5 && |imm| == 20 && op < 32
    ensures var n := Number(FormatU(imm, rd, op));
      && n == UpperImm(imm, 0) + Five(rd, 0) * 0x80 + 4 * op + 3
      && n == TypeJ(JumpRhs(imm, 0), Five(rd, 0), 4 * op + 3)
  {
    hide FormatU, Five, Three, Seven, Number, UpperImm, JumpRhs;
    var i := FormatU(imm, rd, op);
    DecodeU(imm, rd, op);
    NumberOfFields(i);
    UpperFields(i);
    JumpFields(imm);
  }

  lemma UpperFields(i: Insn)
    ensures UpperImm(i, 12)
         == 0x1000 * Funct3(i) + 0x8000 * Rs1(i) + 0x10_0000 * Rs2(i) + 0x200_0000 * Seven(i, 25)
  {
    hide V;
    Weights(i);
  }

  lemma JumpFields(imm: Bits)
    requires |imm| == 20
    ensures var offset := JumpRhs(imm, 0);
      UpperImm(imm, 0) == offset / 0x10_0000 % 2 * 0x8000_0000 + offset / 2 % 0x400 * 0x20_0000
        + offset / 0x800 % 2 * 0x10_0000 + offset / 0x1000 % 0x100 * 0x1000
  {
    hide V, Seven, Five, Three;
    Weights(imm);
    var eight := V(imm, 0, 1) + 2 * V(imm, 1, 1) + 4 * V(imm, 2, 1) + 8 * V(imm, 3, 1) + 16 * V(imm, 4, 1)
      + 32 * V(imm, 5, 1) + 64 * V(imm, 6, 1) + 128 * V(imm, 7, 1);
    var ten := V(imm, 9, 1) + 2 * V(imm, 10, 1) + 4 * V(imm, 11, 1) + 8 * V(imm, 12, 1) + 16 * V(imm, 13, 1)
      + 32 * V(imm, 14, 1) + 64 * V(imm, 15, 1) + 128 * V(imm, 16, 1) + 256 * V(imm, 17, 1) + 512 * V(imm, 18, 1);
    CutJump(ten, V(imm, 8, 1), eight, V(imm, 19, 1));
  }

  lemma CutJump(ten: nat, bit: nat, eight: nat, sign: nat)
    requires ten < 0x400 && bit < 2 && eight < 0x100 && sign < 2
    ensures var offset := 2 * ten + 0x800 * bit + 0x1000 * eight + 0x10_0000 * sign + 0xFFE0_0000 * sign;
      && offset / 2 % 0x400 == ten && offset / 0x800 % 2 == bit
      && offset / 0x1000 % 0x100 == eight && offset / 0x10_0000 % 2 == sign
  {
    var offset := 2 * ten + 0x800 * bit + 0x1000 * eight + 0x10_0000 * sign + 0xFFE0_0000 * sign;
    Field(offset, 0, ten, bit + 2 * eight + 0x1F_FE00 * sign, 2, 0x400);
    Field(offset, 2 * ten, bit, eight + 0xF_FF00 * sign, 0x800, 2);
    Field(offset, 2 * ten + 0x800 * bit, eight, 0xFFF * sign, 0x1000, 0x100);
    Field(offset, 2 * ten + 0x800 * bit + 0x1000 * eight, sign, 0x7FF * sign, 0x10_0000, 2);
  }

  /* ---- The theorem ---- */

  /** Wrapping an immediate to 32 bits does not change its fields. */
  lemma FieldsOfWrapped(v: int)
    requires -0x1000 < v < 0x1000
    ensures TwosComplement(v) % 0x1000 == v % 0x1000
    ensures TwosComplement(v) / 2 % 16 == v / 2 % 16 && TwosComplement(v) / 32 % 64 == v / 32 % 64
    ensures TwosComplement(v) / 2 % 0x400 == v / 2 % 0x400 && TwosComplement(v) / 0x800 % 2 == v / 0x800 % 2
    ensures TwosComplement(v) / 0x1000 % 2 == v / 0x1000 % 2
    ensures TwosComplement(v) / 0x1000 % 0x100 == v / 0x1000 % 0x100
    ensures TwosComplement(v) / 0x10_0000 % 2 == v / 0x10_0000 % 2
  {
    hide TwosComplement;
    Wrapped(v, 1, 0x1000, 0x10_0000);
    Wrapped(v, 2, 16, 0x800_0000);
    Wrapped(v, 32, 64, 0x20_0000);
    Wrapped(v, 2, 0x400, 0x20_0000);
    Wrapped(v, 0x800, 2, 0x10_0000);
    Wrapped(v, 0x1000, 2, 0x8_0000);
    Wrapped(v, 0x1000, 0x100, 0x1000);
    Wrapped(v, 0x10_0000, 2, 0x800);
  }

  lemma Wrapped(v: int, d: nat, m: nat, n: nat)
    requires d > 0 && m > 0 && d * (m * n) == 0x1_0000_0000
    ensures TwosComplement(v) / d % m == v / d % m
  {
    var low, x, rest := v % d, v / d % m, v / d / m;
    assert v / d == x + m * rest;
    Field(v, low, x, rest, d, m);
    if v < 0 {
      assert m * (rest + n) == m * rest + m * n;
      assert d * (x + m * (rest + n)) == d * (x + m * rest) + d * (m * n);
      Field(v + 0x1_0000_0000, low, x, rest + n, d, m);
    }
  }

  /** What an expansion looks like. */
  ghost predicate Encodes(c: Comp) {
    match Expand(c)
    case None => true
    case Some(i) => Number(i) == Encoding(c)
  }

  lemma Encodes0(c: Comp)
    requires !c[1] && !c[0]
    ensures Encodes(c)
  {
    hide FormatI, FormatR, Number, Five, Three, Upper, Seven, Bin5, Bin3, BranchRhs, R3l, R3h, Low, High;
    hide TypeI, TypeR, TypeS, TypeB;
    Registers(c);
    StackImmBits(c);
    WordOffsetBits(c);
    MakesI([O, O] + [c[6], c[5]] + c[11..13] + c[7..11] + [O, O], Bin5(2), Bin3(ADD), R3l(c), OP_IMM);
    MakesI([O, O, c[6]] + c[10..13] + [c[5]] + Repeat(8, O), R3h(c), Bin3(WORD), R3l(c), LOAD);
    MakesR([c[12], c[5]] + Repeat(8, O), R3l(c), R3h(c), Bin3(WORD), [O, O, c[6]] + c[10..12], STORE);
  }

  lemma WrappedI(v: int, rs1: nat, funct3: nat, rd: nat, opcode: nat)
    requires -0x1000 < v < 0x1000
    ensures TypeI(TwosComplement(v), rs1, funct3, rd, opcode) == TypeI(v, rs1, funct3, rd, opcode)
  {
    hide TwosComplement;
    FieldsOfWrapped(v);
  }

  lemma WrappedB(v: int, rs2: nat, rs1: nat, funct3: nat, opcode: nat)
    requires -0x1000 < v < 0x1000
    ensures TypeB(TwosComplement(v), rs2, rs1, funct3, opcode) == TypeB(v, rs2, rs1, funct3, opcode)
  {
    hide TwosComplement;
    FieldsOfWrapped(v);
  }

  lemma WrappedJ(v: int, rd: nat, opcode: nat)
    requires -0x1000 < v < 0x1000
    ensures TypeJ(TwosComplement(v), rd, opcode) == TypeJ(v, rd, opcode)
  {
    hide TwosComplement;
    FieldsOfWrapped(v);
  }

  lemma EncodesImmediates(c: Comp)
    requires Is(c, O, I, O, O, O) || Is(c, O, I, O, I, O)
    ensures Encodes(c)
  {
    hide FormatI, Number, Five, Three, Upper, Bin5, Bin3, TypeI, SignedSix, TwosComplement;
    Registers(c);
    LogicImmBits(c);
    SixIsSmall(c);
    var rs1 := if c[14] then Bin5(0) else R5(c);
    WrappedI(SignedSix(c), Five(rs1, 0), 0, Full(c), 0x13);
    MakesI(c[2..7] + Repeat(7, c[12]), rs1, Bin3(ADD), R5(c), OP_IMM);
  }

  lemma EncodesJumps(c: Comp)
    requires Is(c, O, I, O, O, I) || Is(c, O, I, I, O, I)
    ensures Encodes(c)
  {
    hide FormatU, Number, Five, Bin5, JumpImm, JumpRhs, JumpOffset, UpperImm, TypeJ, TwosComplement;
    JumpImmBits(c);
    var rd := if c[15] then 0 else 1;
    WrappedJ(JumpOffset(c), rd, 0x6F);
    MakesU(JumpImm(c), Bin5(rd), JAL);
  }

  lemma EncodesBranches(c: Comp)
    requires !c[1] && c[0] && c[15] && c[14]
    ensures Encodes(c)
  {
    hide FormatR, Number, Five, Bin5, Bin3, Three, R3h, High, BranchRhs, BranchOffset, TwosComplement;
    hide TypeR, TypeS, TypeB, Upper, Seven;
    Registers(c);
    BranchImmBits(c);
    var f3 := if c[13] then BNE else BEQ;
    WrappedB(BranchOffset(c), 0, High(c), f3, 0x63);
    MakesR([c[2]] + c[5..7] + [c[12]] + Repeat(3, c[12]), Bin5(0), R3h(c), Bin3(f3),
           [c[12]] + c[3..5] + c[10..12], BRANCH);
  }

  lemma EncodesUpper(c: Comp)
    requires Is(c, O, I, O, I, I)
    ensures Encodes(c)
  {
    hide FormatI, FormatU, Number, Five, Upper, Bin5, Bin3, Three, UpperImm, SignedSix, StackAdjust, TypeI, TypeJ;
    Registers(c);
    NamesRegister(R5(c), 2);
    if R5(c) == Bin5(2) {
      StackAdjustBits(c);
      WrappedI(StackAdjust(c), 2, 0, 2, 0x13);
      MakesI(Repeat(4, O) + [c[6], c[2], c[5]] + c[3..5] + Repeat(3, c[12]), R5(c), Bin3(ADD), R5(c), OP_IMM);
    } else {
      LuiBits(c);
      SixIsSmall(c);
      MakesU(c[2..7] + [c[12]] + Repeat(14, c[12]), R5(c), LUI);
    }
  }

  lemma EncodesAlu(c: Comp)
    requires Is(c, O, I, I, O, O)
    ensures Encodes(c)
  {
    if c[11] && c[10] {
      EncodesAluRegisters(c);
    } else {
      EncodesAluImmediates(c);
    }
  }

  lemma EncodesAluImmediates(c: Comp)
    requires Is(c, O, I, I, O, O) && !(c[11] && c[10])
    ensures Encodes(c)
  {
    hide FormatI, Number, Five, Upper, Bin5, Bin3, Three, R3h, High, Second, V, SignedSix, TypeI, TwosComplement;
    Registers(c);
    if c[11] {
      LogicImmBits(c);
      SixIsSmall(c);
      WrappedI(SignedSix(c), High(c), 7, High(c), 0x13);
      MakesI(c[2..7] + [c[12]] + Repeat(6, c[12]), R3h(c), Bin3(AND), R3h(c), OP_IMM);
    } else if !c[12] {
      ShiftImmBits(c);
      Weight(c, 10, 0x400);
      MakesI(c[2..7] + [c[12]] + Repeat(4, O) + [c[10], O], R3h(c), Bin3(SRL), R3h(c), OP_IMM);
    }
  }

  lemma Weight(c: Comp, k: nat, w: int)
    requires k < 16
    ensures V(c, k, w) == if c[k] then w else 0
  {
  }

  lemma EncodesAluRegisters(c: Comp)
    requires Is(c, O, I, I, O, O) && c[11] && c[10]
    ensures Encodes(c)
  {
    hide FormatR, Number, Five, Three, R3l, R3h, Low, High, Seven, TypeR, TypeS, TypeB, Upper, BranchRhs;
    Registers(c);
    AluFunction(c);
    FunctionSeven(!c[6] && !c[5]);
    if !c[12] {
      MakesR(Repeat(5, O) + [!c[6] && !c[5], O], R3l(c), R3h(c), [c[6] && c[5], c[6], c[6] || c[5]], R3h(c), OP);
    }
  }

  lemma FunctionSeven(sub: bool)
    ensures Seven(Repeat(5, O) + [sub, O], 0) == if sub then 0x20 else 0
    ensures Seven(Repeat(7, O), 0) == 0
  {
  }

  lemma EncodesMoves(c: Comp)
    requires Is(c, I, O, I, O, O)
    ensures Encodes(c)
  {
    hide FormatI, FormatR, Number, Five, Upper, Bin5, Bin3, Three, Seven, TypeR, TypeS, TypeB, BranchRhs;
    Registers(c);
    NoImmediate();
    FunctionSeven(false);
    NamesRegister(c[7..12], 0);
    NamesRegister(c[2..7], 0);
    AllZero(c);
    if c[2..7] == Bin5(0) {
      MakesI(Repeat(12, O), c[7..12], Bin3(ADD), if c[12] then Bin5(1) else Bin5(0), JALR);
      MakesI([I] + Repeat(20, O), Bin5(0), Bin3(ADD), Bin5(0), SYSTEM);
    } else {
      MakesR(Repeat(7, O), c[2..7], c[7..12], Bin3(ADD), c[7..12], OP);
      MakesI(Repeat(12, O), c[2..7], Bin3(ADD), c[7..12], OP_IMM);
    }
  }

  lemma EncodesStack(c: Comp)
    requires c[1] && !c[0] && !Is(c, I, O, I, O, O)
    ensures Encodes(c)
  {
    hide FormatI, FormatR, Number, Five, Upper, Bin5, Bin3, Three, Second, LoadStackOffset, StoreStackOffset;
    hide TypeI, TypeR, TypeS, TypeB, BranchRhs, Seven;
    Registers(c);
    StackOffsetBits(c);
    if Is(c, I, O, O, O, O) && !c[12] {
      ShiftImmBits(c);
      MakesI(c[2..7] + [c[12]] + Repeat(4, O), R5(c), Bin3(SLL), R5(c), OP_IMM);
    } else if Is(c, I, O, O, I, O) {
      MakesI([O, O] + c[4..7] + [c[12]] + c[2..4] + Repeat(4, O), Bin5(2), Bin3(WORD), R5(c), LOAD);
    } else if Is(c, I, O, I, I, O) {
      MakesR([c[12]] + c[7..9] + Repeat(4, O), c[2..7], Bin5(2), Bin3(WORD), [O, O] + c[9..12], STORE);
    }
  }

  /** Every expansion is the instruction the base ISA's formats give for it. */
  lemma ExpansionIsEncoded(c: Comp)
    ensures Expand(c).Some? ==> Number(Expand(c).value) == Encoding(c)
  {
    hide ExpandQ0, ExpandQ1, ExpandQ2, Encoding, Number;
    if !c[1] && !c[0] {
      Encodes0(c);
    } else if !c[1] {
      if Is(c, O, I, O, O, O) || Is(c, O, I, O, I, O) {
        EncodesImmediates(c);
      } else if Is(c, O, I, O, O, I) || Is(c, O, I, I, O, I) {
        EncodesJumps(c);
      } else if Is(c, O, I, O, I, I) {
        EncodesUpper(c);
      } else if Is(c, O, I, I, O, O) {
        EncodesAlu(c);
      } else {
        EncodesBranches(c);
      }
    } else if !c[0] {
      if Is(c, I, O, I, O, O) {
        EncodesMoves(c);
      } else {
        EncodesStack(c);
      }
    }
  }
}
