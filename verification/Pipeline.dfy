/**
 The ID, EX, MEM and WB stages with their forwarding and stalling network, for straight-line code
 without traps, and the proof that they retire what one-at-a-time execution would.

 What the functional units compute is left open: the theorem holds for every ALU, multiplier,
 divider and data memory, so nothing here depends on the values themselves.
 */
module Pipeline {
  type Word = w: int | 0 <= w < 0x1_0000_0000
  type Reg = r: nat | r < 32
  type Memory = map<Word, int>

  /** CSR accesses and all else occur only as words nobody has asked for. */
  datatype Opcode = OP | OP_IMM | LUI | AUIPC | LOAD | STORE | CSR | OTHER

  /** The decoded fields of an instruction word the network looks at, and the word itself. */
  datatype Insn = Insn(op: Opcode, rd: Reg, rs1: Reg, rs2: Reg, bit25: bool, funct3: nat, word: Word) {
    predicate Plain() { op != CSR && op != OTHER }
    /** The register decoder: does it write rd? */
    predicate UsesRd() { op != STORE }
    /** Operands needed by the time the instruction enters EX. */
    predicate ExUsesRs1() { op == OP || op == OP_IMM || op == LOAD || op == STORE }
    predicate ExUsesRs2() { op == OP }
    /** Operands needed only when it enters MEM. */
    predicate MemUsesRs2() { op == STORE }
    predicate IsMul() { op == OP && bit25 && funct3 < 4 }
    predicate IsDiv() { op == OP && bit25 && funct3 >= 4 }
  }

  /** Functional units and memory: `alu` covers everything combinational, addresses included. */
  datatype Units = Units(
    alu: (Insn, Word, Word, Word) -> Word,
    multiply: (Insn, Word, Word) -> Word,
    divide: (Insn, Word, Word) -> Word,
    load: (Memory, Word, nat) -> Word,
    store: (Memory, Word, nat, Word) -> Memory,
    mulLatency: nat, divLatency: nat)

  /* ---- One instruction at a time ---- */

  datatype Slot = Slot(pc: Word, insn: Insn)
  datatype Arch = Arch(regs: seq<Word>, mem: Memory)

  predicate ArchOk(a: Arch) { |a.regs| == 32 && a.regs[0] == 0 }

  /** What an instruction computes from its operands. */
  function Compute(u: Units, s: Slot, a: Word, b: Word): Word {
    var i := s.insn;
    if i.op == OP && i.bit25 then (if i.funct3 < 4 then u.multiply(i, a, b) else u.divide(i, a, b))
    else match i.op
      case OP => u.alu(i, s.pc, a, b)
      case OP_IMM => u.alu(i, s.pc, a, 0)
      case LOAD => u.alu(i, s.pc, a, 0)
      case STORE => u.alu(i, s.pc, a, 0)
      case _ => u.alu(i, s.pc, 0, 0)
  }

  /** The value an instruction leaves in rd. */
  function Value(u: Units, a: Arch, s: Slot): Word
    requires ArchOk(a)
  {
    var x := Compute(u, s, a.regs[s.insn.rs1], a.regs[s.insn.rs2]);
    if s.insn.op.LOAD? then u.load(a.mem, x, s.insn.funct3) else x
  }

  function Execute(u: Units, a: Arch, s: Slot): (a': Arch)
    requires ArchOk(a)
    ensures ArchOk(a')
  {
    if s.insn.op.STORE? then
      a.(mem := u.store(a.mem, Compute(u, s, a.regs[s.insn.rs1], a.regs[s.insn.rs2]),
                              s.insn.funct3, a.regs[s.insn.rs2]))
    else
      a.(regs := if s.insn.rd == 0 then a.regs else a.regs[s.insn.rd := Value(u, a, s)])
  }

  /** Architectural state after the first `n` instructions. */
  function After(u: Units, a: Arch, prog: seq<Slot>, n: nat): (a': Arch)
    requires ArchOk(a) && n <= |prog|
    ensures ArchOk(a')
  {
    if n == 0 then a else Execute(u, After(u, a, prog, n - 1), prog[n - 1])
  }

  /* ---- The pipeline registers ---- */

  datatype IdReg = IdReg(valid: bool, slot: Slot)
  datatype ExReg = ExReg(valid: bool, slot: Slot, useRd: bool, rs1: Word, rs2: Word)
  /** `re` and `we` are the latched access of the same instruction. */
  datatype MemReg = MemReg(valid: bool, insn: Insn, useRd: bool, rs1: Word, rs2: Word, re: bool, we: bool)
  datatype WbReg = WbReg(valid: bool, useRd: bool, val: Word, insn: Insn)

  /** A unit with `|line|` result registers and the timer that stalls EX while they fill. */
  datatype Delay = Delay(timer: nat, line: seq<Word>)

  datatype Regs = Regs(
    id: IdReg, ex: ExReg, mem: MemReg, wb: WbReg, storage: seq<Word>,
    mul: Delay, div: Delay, csrRe: bool, csrVal: Word, dmem: Memory)

  /** The register file's write port. */
  function WriteReg(regs: seq<Word>, rd: Reg, v: Word): seq<Word>
    requires |regs| == 32
  {
    if rd == 0 then regs else regs[rd := v]
  }

  /** The ALU behind its operand muxes, which pass a register only if the instruction uses it. */
  function Alu(u: Units, s: Slot, a: Word, b: Word): Word {
    u.alu(s.insn, s.pc, if s.insn.ExUsesRs1() then a else 0, if s.insn.ExUsesRs2() then b else 0)
  }

  /** Output of a delayed unit whose input currently produces `now`. */
  function Oldest(line: seq<Word>, now: Word): Word {
    if line == [] then now else line[|line| - 1]
  }

  /** The timer restarts when a new operation enters EX; the result line always shifts. */
  function DelayEdge(d: Delay, trig: bool, now: Word): Delay {
    Delay(if trig && d.timer == 0 then |d.line| else if d.timer != 0 then d.timer - 1 else 0,
          if d.line == [] then [] else [now] + d.line[..|d.line| - 1])
  }

  /** Stall requests, forwarded operands and stage outputs of one cycle. */
  datatype Wires = Wires(
    stallMem: bool, stallEx: bool, stallId: bool,
    exValid: bool, exOut: Word, memOut: Word,
    idRs1: Word, idRs2: Word, memRs2: Word)

  function ExOut(u: Units, p: Regs): Word {
    var i, a, b := p.ex.slot.insn, p.ex.rs1, p.ex.rs2;
    if i.IsMul() then Oldest(p.mul.line, u.multiply(i, a, b))
    else if i.IsDiv() then Oldest(p.div.line, u.divide(i, a, b))
    else Alu(u, p.ex.slot, a, b)
  }

  function Network(u: Units, p: Regs, ready: bool): Wires
    requires |p.storage| == 32
  {
    var i, x, m, w := p.id.slot.insn, p.ex.slot.insn, p.mem.insn, p.wb.insn;
    var memStall := (p.mem.re || p.mem.we) && !ready;
    var exStall := p.mul.timer != 0 || p.div.timer != 0;
    var exValid := p.ex.valid && !exStall;
    // EX forwards what it has finished; a load only has an address there.
    var fwRdEx := !x.op.LOAD? && !x.op.STORE? && p.ex.valid && p.ex.useRd;
    var exOut := ExOut(u, p);
    var memOut := if p.csrRe then p.csrVal
                  else if p.mem.re then u.load(p.dmem, p.mem.rs1, m.funct3) else p.mem.rs1;
    // Hazard comparators.
    var rs1Ex := i.ExUsesRs1() && p.id.valid && exValid && p.ex.useRd && i.rs1 != 0 && i.rs1 == x.rd;
    var rs2Ex := i.ExUsesRs2() && p.id.valid && exValid && p.ex.useRd && i.rs2 != 0 && i.rs2 == x.rd;
    var rs1Mem := i.ExUsesRs1() && p.id.valid && p.mem.valid && p.mem.useRd && i.rs1 != 0 && i.rs1 == m.rd;
    var rs2Mem := i.ExUsesRs2() && p.id.valid && p.mem.valid && p.mem.useRd && i.rs2 != 0 && i.rs2 == m.rd;
    var stMem := x.MemUsesRs2() && exValid && p.mem.valid && p.mem.useRd && x.rs2 != 0 && x.rs2 == m.rd;
    var stWb := x.MemUsesRs2() && exValid && p.wb.valid && p.wb.useRd && x.rs2 != 0 && x.rs2 == w.rd;
    // Stalls propagate from MEM back to ID.
    var stallEx := exStall || memStall;
    Wires(memStall, stallEx, stallEx || (rs1Ex && !fwRdEx) || (rs2Ex && !fwRdEx),
          exValid, exOut, memOut,
          if rs1Ex && fwRdEx then exOut else if rs1Mem then memOut else p.storage[i.rs1],
          if rs2Ex && fwRdEx then exOut else if rs2Mem then memOut else p.storage[i.rs2],
          if stMem then memOut else if stWb then p.wb.val else p.ex.rs2)
  }

  /** What the rest of the core contributes in a cycle: the next instruction if `fetched`, else any word
      whatever; the CSR data bus; and whether ID is held back for a reason of its own. */
  datatype Input = Input(fetched: bool, slot: Slot, csr: Word, hold: bool)

  /** What multiplier and divider make of the operands in EX. */
  function UnitInputs(u: Units, p: Regs): (Word, Word) {
    (u.multiply(p.ex.slot.insn, p.ex.rs1, p.ex.rs2), u.divide(p.ex.slot.insn, p.ex.rs1, p.ex.rs2))
  }

  /** Data memory after a store with the data `v` is taken over at the address EX puts out. */
  function Stored(u: Units, mem: Memory, i: Insn, addr: Word, v: Word): Memory {
    u.store(mem, addr, i.funct3, v)
  }

  /* What each stage's registers take at a rising edge. */

  function IdEdge(p: Regs, w: Wires, input: Input): IdReg {
    if w.stallId || input.hold then p.id else IdReg(input.fetched, input.slot)
  }

  predicate EnterEx(p: Regs, w: Wires, input: Input) { p.id.valid && !w.stallId && !input.hold }
  predicate EnterMem(w: Wires) { w.exValid && !w.stallEx }

  function ExEdge(p: Regs, w: Wires, input: Input): ExReg {
    if w.stallEx then p.ex
    else ExReg(EnterEx(p, w, input), p.id.slot, p.id.slot.insn.UsesRd(), w.idRs1, w.idRs2)
  }

  function MemEdge(p: Regs, w: Wires): MemReg {
    var x, enter := p.ex.slot.insn, EnterMem(w);
    if w.stallMem then p.mem
    else MemReg(enter, x, p.ex.useRd, w.exOut, w.memRs2, enter && x.op.LOAD?, enter && x.op.STORE?)
  }

  function WbEdge(p: Regs, w: Wires): WbReg {
    if w.stallMem then p.wb else WbReg(p.mem.valid, p.mem.useRd, w.memOut, p.mem.insn)
  }

  function StorageEdge(p: Regs, w: Wires): seq<Word>
    requires |p.storage| == 32
  {
    if p.mem.valid && p.mem.useRd && !w.stallMem then WriteReg(p.storage, p.mem.insn.rd, w.memOut) else p.storage
  }

  /** A ready memory accepts the access EX presents. */
  function DmemEdge(u: Units, p: Regs, w: Wires): Memory {
    if EnterMem(w) && p.ex.slot.insn.op.STORE? then Stored(u, p.dmem, p.ex.slot.insn, w.exOut, w.memRs2) else p.dmem
  }

  /** All registers after a rising edge. */
  function Next(u: Units, p: Regs, input: Input, ready: bool): Regs
    requires |p.storage| == 32
  {
    var w := Network(u, p, ready);
    var (mulNow, divNow) := UnitInputs(u, p);
    Regs(IdEdge(p, w, input), ExEdge(p, w, input), MemEdge(p, w), WbEdge(p, w), StorageEdge(p, w),
         DelayEdge(p.mul, EnterEx(p, w, input) && p.id.slot.insn.IsMul(), mulNow),
         DelayEdge(p.div, EnterEx(p, w, input) && p.id.slot.insn.IsDiv(), divNow),
         // The CSR port looks at the word in EX, valid or not, stalled or not.
         p.ex.slot.insn.op.CSR?, input.csr,
         DmemEdge(u, p, w))
  }

  /* ---- What the pipeline holds, in terms of sequential execution ---- */

  function Count(b: bool): nat { if b then 1 else 0 }

  /** Index of the instruction next to be fetched, when `r` have retired. */
  function Fetches(p: Regs, r: nat): nat {
    r + Count(p.mem.valid) + Count(p.ex.valid) + Count(p.id.valid)
  }

  /** While its timer runs down the unit's newest results belong to the instruction in EX. */
  predicate DelayOk(d: Delay, latency: nat, mine: bool, now: Word) {
    && |d.line| == latency && d.timer <= latency
    && (d.timer != 0 ==> mine)
    && (mine ==> forall j | 0 <= j < latency - d.timer :: d.line[j] == now)
  }

  /** Sequential state after the instruction in a stage, if there is one. */
  function Plus(u: Units, a: Arch, valid: bool, prog: seq<Slot>, n: nat): (a': Arch)
    requires ArchOk(a) && (valid ==> n < |prog|)
    ensures ArchOk(a')
  {
    if valid then Execute(u, a, prog[n]) else a
  }

  predicate Straight(prog: seq<Slot>) { forall k | 0 <= k < |prog| :: prog[k].insn.Plain() }

  /** A load retires while the CSR port answers a word in EX that was never fetched. */
  predicate Clash(p: Regs, ready: bool) { p.csrRe && p.mem.re && p.mem.insn.rd != 0 && ready }

  /** And the two data differ. */
  predicate Wrong(u: Units, p: Regs, ready: bool) {
    Clash(p, ready) && p.csrVal != u.load(p.dmem, p.mem.rs1, p.mem.insn.funct3)
  }

  ghost predicate Inv(u: Units, prog: seq<Slot>, p: Regs, r: nat, done: Arch) {
    && ArchOk(done) && Straight(prog)
    && Fetches(p, r) <= |prog|
    && (p.csrRe && p.mem.valid ==> p.mem.re || p.mem.we)
    && var e := r + Count(p.mem.valid);
    && var mid := Plus(u, done, p.mem.valid, prog, r);
    && p.storage == done.regs && p.dmem == mid.mem
    && (if p.mem.valid then MemHolds(u, p.mem, done, prog[r]) else !p.mem.re && !p.mem.we)
    && WbHolds(p.wb, done.regs)
    && (p.ex.valid ==> p.ex.slot == prog[e] && ExHolds(p.ex, p.wb, done.regs, mid.regs))
    && (p.id.valid ==> p.id.slot == prog[e + Count(p.ex.valid)])
    && DelayHolds(u, p.ex, p.mul, p.div)
  }

  /** The instruction in MEM has its result, or the address of its access. */
  predicate MemHolds(u: Units, m: MemReg, done: Arch, s: Slot)
    requires ArchOk(done)
  {
    && m.insn == s.insn && m.useRd == s.insn.UsesRd()
    && m.re == s.insn.op.LOAD? && m.we == s.insn.op.STORE?
    && m.rs1 == Compute(u, s, done.regs[s.insn.rs1], done.regs[s.insn.rs2])
  }

  /** WB remembers the last value written to the register file. */
  predicate WbHolds(wb: WbReg, done: seq<Word>)
    requires |done| == 32
  {
    wb.valid && wb.useRd && wb.insn.rd != 0 ==> wb.val == done[wb.insn.rd]
  }

  /** Operands in EX are current; only the data of a store may still be on its way from MEM or WB. */
  predicate ExHolds(ex: ExReg, wb: WbReg, done: seq<Word>, mid: seq<Word>)
    requires |done| == |mid| == 32
  {
    var i := ex.slot.insn;
    && ex.useRd == i.UsesRd()
    && (i.ExUsesRs1() ==> ex.rs1 == mid[i.rs1])
    && (i.ExUsesRs2() ==> ex.rs2 == mid[i.rs2])
    && (i.MemUsesRs2() ==>
          ex.rs2 == done[i.rs2] || (wb.valid && wb.useRd && i.rs2 != 0 && wb.insn.rd == i.rs2))
  }

  ghost predicate DelayHolds(u: Units, ex: ExReg, mul: Delay, div: Delay) {
    var i, a, b := ex.slot.insn, ex.rs1, ex.rs2;
    && DelayOk(mul, u.mulLatency, ex.valid && i.IsMul(), u.multiply(i, a, b))
    && DelayOk(div, u.divLatency, ex.valid && i.IsDiv(), u.divide(i, a, b))
  }

  lemma ExecuteRegs(u: Units, a: Arch, s: Slot, k: Reg)
    requires ArchOk(a)
    ensures Execute(u, a, s).regs[k] ==
            if s.insn.UsesRd() && k != 0 && k == s.insn.rd then Value(u, a, s) else a.regs[k]
  {
  }

  /** EX drops its stall only when the delayed result of its own instruction is on the output. */
  lemma ExOutIsCompute(u: Units, p: Regs, mid: seq<Word>)
    requires |mid| == 32 && DelayHolds(u, p.ex, p.mul, p.div)
    requires p.ex.valid && p.mul.timer == 0 && p.div.timer == 0
    requires p.ex.slot.insn.ExUsesRs1() ==> p.ex.rs1 == mid[p.ex.slot.insn.rs1]
    requires p.ex.slot.insn.ExUsesRs2() ==> p.ex.rs2 == mid[p.ex.slot.insn.rs2]
    ensures ExOut(u, p) == Compute(u, p.ex.slot, mid[p.ex.slot.insn.rs1], mid[p.ex.slot.insn.rs2])
  {
    var i := p.ex.slot.insn;
    if i.IsMul() && p.mul.line != [] {
      assert p.mul.line[|p.mul.line| - 1] == u.multiply(i, p.ex.rs1, p.ex.rs2);
    } else if i.IsDiv() && p.div.line != [] {
      assert p.div.line[|p.div.line| - 1] == u.divide(i, p.ex.rs1, p.ex.rs2);
    }
  }

  /** An unstalled MEM stage outputs the value sequential execution writes back. */
  lemma MemOutIsValue(u: Units, prog: seq<Slot>, p: Regs, r: nat, done: Arch, ready: bool)
    requires Inv(u, prog, p, r, done) && p.mem.valid && p.mem.useRd
    requires !Network(u, p, ready).stallMem && !Wrong(u, p, ready) && p.mem.insn.rd != 0
    ensures Network(u, p, ready).memOut == Value(u, done, prog[r])
  {
    hide ExOut, DelayHolds, Compute;
  }

  /** Behind MEM, register `k` is in MEM's output or in the register file. */
  lemma ValueBehindMem(u: Units, prog: seq<Slot>, p: Regs, r: nat, done: Arch, ready: bool, k: Reg)
    requires Inv(u, prog, p, r, done) && !Network(u, p, ready).stallMem && !Wrong(u, p, ready)
    ensures var inMem := p.mem.valid && p.mem.useRd && k != 0 && k == p.mem.insn.rd;
      Plus(u, done, p.mem.valid, prog, r).regs[k] == if inMem then Network(u, p, ready).memOut else p.storage[k]
  {
    hide ExOut, DelayHolds, Compute, Network, Execute;
    if p.mem.valid {
      ExecuteRegs(u, done, prog[r], k);
      if p.mem.useRd && p.mem.insn.rd != 0 {
        MemOutIsValue(u, prog, p, r, done, ready);
      }
    }
  }

  /** Behind EX, it is in EX's output unless EX does not write it, or still has to load it. */
  lemma ValueBehindEx(u: Units, prog: seq<Slot>, p: Regs, r: nat, done: Arch, k: Reg)
    requires Inv(u, prog, p, r, done)
    requires p.mul.timer == 0 && p.div.timer == 0
    ensures var inEx := p.ex.valid && p.ex.useRd && k != 0 && k == p.ex.slot.insn.rd;
      var newest := Plus(u, Plus(u, done, p.mem.valid, prog, r), p.ex.valid, prog, r + Count(p.mem.valid)).regs[k];
      && (inEx && !p.ex.slot.insn.op.LOAD? ==> newest == ExOut(u, p))
      && (!inEx ==> newest == Plus(u, done, p.mem.valid, prog, r).regs[k])
  {
    hide ExOut, DelayHolds, Compute, Execute;
    var mid := Plus(u, done, p.mem.valid, prog, r);
    if p.ex.valid {
      ExOutIsCompute(u, p, mid.regs);
      ExecuteRegs(u, mid, prog[r + Count(p.mem.valid)], k);
    }
  }

  /** What leaves ID has the operands sequential execution would read. */
  lemma IdOperands(u: Units, prog: seq<Slot>, p: Regs, r: nat, done: Arch, ready: bool)
    requires Inv(u, prog, p, r, done)
    requires p.id.valid && !Network(u, p, ready).stallId && !Wrong(u, p, ready)
    ensures var w, i := Network(u, p, ready), p.id.slot.insn;
      var mid := Plus(u, done, p.mem.valid, prog, r);
      var regs := Plus(u, mid, p.ex.valid, prog, r + Count(p.mem.valid)).regs;
      && (i.ExUsesRs1() ==> w.idRs1 == regs[i.rs1])
      && (i.ExUsesRs2() ==> w.idRs2 == regs[i.rs2])
      && (i.MemUsesRs2() ==> w.idRs2 == p.storage[i.rs2])
  {
    hide ExOut, DelayHolds, MemHolds, Plus;
    var i := p.id.slot.insn;
    ValueBehindMem(u, prog, p, r, done, ready, i.rs1);
    ValueBehindMem(u, prog, p, r, done, ready, i.rs2);
    ValueBehindEx(u, prog, p, r, done, i.rs1);
    ValueBehindEx(u, prog, p, r, done, i.rs2);
  }

  /** A store leaving EX carries the data sequential execution would store. */
  lemma StoreData(u: Units, prog: seq<Slot>, p: Regs, r: nat, done: Arch, ready: bool)
    requires Inv(u, prog, p, r, done) && !Network(u, p, ready).stallMem && !Wrong(u, p, ready)
    requires Network(u, p, ready).exValid && p.ex.slot.insn.op.STORE?
    ensures Network(u, p, ready).memRs2 == Plus(u, done, p.mem.valid, prog, r).regs[p.ex.slot.insn.rs2]
  {
    hide ExOut, DelayHolds, MemHolds, Plus;
    ValueBehindMem(u, prog, p, r, done, ready, p.ex.slot.insn.rs2);
  }

  lemma DelayStep(d: Delay, latency: nat, mine: bool, now: Word, trig: bool, mine': bool, now': Word)
    requires DelayOk(d, latency, mine, now)
    requires d.timer != 0 ==> !trig && mine' && now' == now
    requires mine' ==> trig || (mine && now' == now)
    requires trig ==> mine'
    ensures DelayOk(DelayEdge(d, trig, now), latency, mine', now')
  {
  }

  /** The environment: fetch offers the program in order.  Memory may be ready or not in any cycle. */
  predicate Legal(prog: seq<Slot>, p: Regs, r: nat, input: Input) {
    input.fetched ==> Fetches(p, r) < |prog| && input.slot == prog[Fetches(p, r)]
  }

  /** Whether this edge retires the instruction in MEM. */
  predicate Retires(p: Regs, ready: bool) {
    p.mem.valid && (p.mem.re || p.mem.we ==> ready)
  }

  /** Stalls only ever hold back the stages behind them. */
  lemma StallOrder(u: Units, p: Regs, ready: bool)
    requires |p.storage| == 32
    ensures var w := Network(u, p, ready);
      && w.stallMem == ((p.mem.re || p.mem.we) && !ready)
      && (w.stallMem ==> w.stallEx) && (w.stallEx ==> w.stallId)
      && w.exValid == (p.ex.valid && p.mul.timer == 0 && p.div.timer == 0)
      && w.stallEx == (w.stallMem || p.mul.timer != 0 || p.div.timer != 0)
      && w.exOut == ExOut(u, p)
  {
    hide ExOut;
  }

  /** When MEM moves on, the register file gets its instruction's result and WB keeps a copy. */
  lemma StepRetire(u: Units, prog: seq<Slot>, p: Regs, r: nat, done: Arch, input: Input, ready: bool)
    requires Inv(u, prog, p, r, done)
    requires !Network(u, p, ready).stallMem && !Wrong(u, p, ready)
    ensures var p', mid := Next(u, p, input, ready), Plus(u, done, p.mem.valid, prog, r);
      p'.storage == mid.regs && WbHolds(p'.wb, mid.regs)
  {
    var w := Network(u, p, ready);
    hide ExOut, DelayHolds, ExHolds, Compute, Value;
    if p.mem.valid && p.mem.useRd && p.mem.insn.rd != 0 {
      MemOutIsValue(u, prog, p, r, done, ready);
    }
    hide Network;
  }

  /** When MEM moves on, it takes EX's instruction, and a store reaches memory with its data. */
  lemma StepIntoMem(u: Units, prog: seq<Slot>, p: Regs, r: nat, done: Arch, input: Input, ready: bool)
    requires Inv(u, prog, p, r, done)
    requires !Network(u, p, ready).stallMem && !Wrong(u, p, ready)
    ensures var p', e, mid := Next(u, p, input, ready), r + Count(p.mem.valid), Plus(u, done, p.mem.valid, prog, r);
      && (if p'.mem.valid then e < |prog| && MemHolds(u, p'.mem, mid, prog[e]) else !p'.mem.re && !p'.mem.we)
      && p'.dmem == Plus(u, mid, p'.mem.valid, prog, e).mem
  {
    StallOrder(u, p, ready);
    var w, mid, e := Network(u, p, ready), Plus(u, done, p.mem.valid, prog, r), r + Count(p.mem.valid);
    hide ExOut, DelayHolds, Compute, Network;
    if w.exValid {
      ExOutIsCompute(u, p, mid.regs);
      if p.ex.slot.insn.op.STORE? {
        StoreData(u, prog, p, r, done, ready);
        assert Execute(u, mid, prog[e]).mem == Next(u, p, input, ready).dmem;
      } else {
        assert Execute(u, mid, prog[e]).mem == mid.mem;
      }
    }
    hide Execute;
  }

  /** A clock edge at which EX takes the instruction from ID, with its operands. */
  lemma StepEx(u: Units, prog: seq<Slot>, p: Regs, r: nat, done: Arch, input: Input, ready: bool)
    requires Inv(u, prog, p, r, done)
    requires !Network(u, p, ready).stallEx && !Wrong(u, p, ready)
    ensures var p', mid := Next(u, p, input, ready), Plus(u, done, p.mem.valid, prog, r);
      p'.ex.valid ==>
        && p'.ex.slot == p.id.slot
        && ExHolds(p'.ex, p'.wb, mid.regs, Plus(u, mid, p.ex.valid, prog, r + Count(p.mem.valid)).regs)
  {
    StallOrder(u, p, ready);
    var w := Network(u, p, ready);
    if p.id.valid && !w.stallId && !input.hold {
      IdOperands(u, prog, p, r, done, ready);
      ValueBehindMem(u, prog, p, r, done, ready, p.id.slot.insn.rs2);
    }
    hide ExOut, DelayHolds, Network, Compute, Plus, MemHolds;
  }

  lemma StepDelays(u: Units, p: Regs, input: Input, ready: bool)
    requires |p.storage| == 32 && DelayHolds(u, p.ex, p.mul, p.div)
    ensures var p' := Next(u, p, input, ready); DelayHolds(u, p'.ex, p'.mul, p'.div)
  {
    StallOrder(u, p, ready);
    var p' := Next(u, p, input, ready);
    var w, x, i, i' := Network(u, p, ready), p.id.slot.insn, p.ex.slot.insn, p'.ex.slot.insn;
    var enter := p.id.valid && !w.stallId && !input.hold;
    hide Network, ExOut;
    DelayStep(p.mul, u.mulLatency, p.ex.valid && i.IsMul(), u.multiply(i, p.ex.rs1, p.ex.rs2),
              enter && x.IsMul(), p'.ex.valid && i'.IsMul(), u.multiply(i', p'.ex.rs1, p'.ex.rs2));
    DelayStep(p.div, u.divLatency, p.ex.valid && i.IsDiv(), u.divide(i, p.ex.rs1, p.ex.rs2),
              enter && x.IsDiv(), p'.ex.valid && i'.IsDiv(), u.divide(i', p'.ex.rs1, p'.ex.rs2));
  }

  /** Which stages hold an instruction after a clock edge, and where it came from. */
  lemma StepShape(u: Units, p: Regs, input: Input, ready: bool)
    requires |p.storage| == 32
    ensures var p', w := Next(u, p, input, ready), Network(u, p, ready);
      && w.stallMem == ((p.mem.re || p.mem.we) && !ready)
      && (w.stallMem ==> w.stallEx) && (w.stallEx ==> w.stallId)
      && w.stallEx == (w.stallMem || p.mul.timer != 0 || p.div.timer != 0)
      && (if w.stallMem then p'.mem == p.mem else p'.mem.valid == (p.ex.valid && !w.stallEx))
      && var stallId := w.stallId || input.hold;
      && (if w.stallEx then p'.ex == p.ex else p'.ex.valid == (p.id.valid && !stallId))
      && (stallId ==> p'.id == p.id)
      && (!stallId ==> p'.id.valid == input.fetched && (input.fetched ==> p'.id.slot == input.slot))
      && p'.csrRe == p.ex.slot.insn.op.CSR?
  {
    StallOrder(u, p, ready);
    hide Network, ExOut;
  }

  ghost predicate StepOk(u: Units, prog: seq<Slot>, p: Regs, r: nat, done: Arch, input: Input, ready: bool)
    requires Inv(u, prog, p, r, done)
  {
    Inv(u, prog, Next(u, p, input, ready), r + Count(Retires(p, ready)), Plus(u, done, Retires(p, ready), prog, r))
  }

  lemma RetiresUnlessStalled(u: Units, p: Regs, ready: bool)
    requires |p.storage| == 32 && !Network(u, p, ready).stallMem
    ensures Retires(p, ready) == p.mem.valid
  {
    StallOrder(u, p, ready);
    hide Network;
  }

  /** Nothing stalls EX: every stage from EX on moves. */
  lemma StepFlow(u: Units, prog: seq<Slot>, p: Regs, r: nat, done: Arch, input: Input, ready: bool)
    requires Inv(u, prog, p, r, done) && Legal(prog, p, r, input) && !Wrong(u, p, ready)
    requires !Network(u, p, ready).stallEx
    ensures StepOk(u, prog, p, r, done, input, ready)
  {
    hide DelayHolds, ExHolds, Execute, MemHolds, WbHolds, Plus, Network, ExOut, Next, Retires, Compute;
    StallOrder(u, p, ready);
    RetiresUnlessStalled(u, p, ready);
    StepShape(u, p, input, ready);
    StepDelays(u, p, input, ready);
    StepEx(u, prog, p, r, done, input, ready);
    StepRetire(u, prog, p, r, done, input, ready);
    StepIntoMem(u, prog, p, r, done, input, ready);
  }

  lemma WaitingIsSlow(u: Units, ex: ExReg, mul: Delay, div: Delay)
    requires DelayHolds(u, ex, mul, div) && (mul.timer != 0 || div.timer != 0)
    ensures ex.valid && ex.slot.insn.op.OP?
  {
  }

  lemma WaitingKeepsOperands(ex: ExReg, wb: WbReg, wb': WbReg, done: seq<Word>, mid: seq<Word>)
    requires |done| == |mid| == 32 && ExHolds(ex, wb, done, mid) && ex.slot.insn.op.OP?
    ensures ExHolds(ex, wb', mid, mid)
  {
  }

  lemma NothingToAdd(u: Units, a: Arch, prog: seq<Slot>, n: nat)
    requires ArchOk(a)
    ensures Plus(u, a, false, prog, n) == a
  {
  }

  /** EX waits for a unit while MEM moves on, leaving a bubble. */
  lemma StepExWaits(u: Units, prog: seq<Slot>, p: Regs, r: nat, done: Arch, input: Input, ready: bool)
    requires Inv(u, prog, p, r, done) && Legal(prog, p, r, input) && !Wrong(u, p, ready)
    requires Network(u, p, ready).stallEx && !Network(u, p, ready).stallMem
    ensures StepOk(u, prog, p, r, done, input, ready)
  {
    hide Execute, MemHolds, WbHolds, DelayHolds, ExHolds, Plus, Network, ExOut, Next, Retires, Compute;
    StallOrder(u, p, ready);
    RetiresUnlessStalled(u, p, ready);
    StepShape(u, p, input, ready);
    StepDelays(u, p, input, ready);
    StepRetire(u, prog, p, r, done, input, ready);
    StepIntoMem(u, prog, p, r, done, input, ready);
    var mid := Plus(u, done, p.mem.valid, prog, r);
    WaitingIsSlow(u, p.ex, p.mul, p.div);
    WaitingKeepsOperands(p.ex, p.wb, Next(u, p, input, ready).wb, done.regs, mid.regs);
    NothingToAdd(u, mid, prog, r + Count(p.mem.valid));
  }

  /** MEM waits for memory: nothing moves. */
  lemma StepMemWaits(u: Units, prog: seq<Slot>, p: Regs, r: nat, done: Arch, input: Input, ready: bool)
    requires Inv(u, prog, p, r, done) && Legal(prog, p, r, input)
    requires Network(u, p, ready).stallMem
    ensures StepOk(u, prog, p, r, done, input, ready)
  {
    hide DelayHolds, ExHolds, Execute, MemHolds, WbHolds, Network, ExOut, Plus, Legal, Next, Retires;
    assert |p.storage| == 32;
    StepShape(u, p, input, ready);
    StepDelays(u, p, input, ready);
    MemWaitKeeps(u, p, input, ready);
    NothingToAdd(u, done, prog, r);
  }

  lemma MemWaitKeeps(u: Units, p: Regs, input: Input, ready: bool)
    requires |p.storage| == 32 && Network(u, p, ready).stallMem
    ensures var p' := Next(u, p, input, ready);
      p'.id == p.id && p'.ex == p.ex && p'.mem == p.mem && p'.wb == p.wb && p'.storage == p.storage && p'.dmem == p.dmem
    ensures !Retires(p, ready)
  {
    StallOrder(u, p, ready);
    hide Network, ExOut;
  }

  /** One clock edge retires at most one instruction, with exactly its sequential effect. */
  lemma StepInv(u: Units, prog: seq<Slot>, p: Regs, r: nat, done: Arch, input: Input, ready: bool)
    requires Inv(u, prog, p, r, done) && Legal(prog, p, r, input) && !Wrong(u, p, ready)
    ensures StepOk(u, prog, p, r, done, input, ready)
  {
    assert |p.storage| == 32;
    hide StepOk, Inv;
    if Network(u, p, ready).stallMem {
      StepMemWaits(u, prog, p, r, done, input, ready);
    } else if Network(u, p, ready).stallEx {
      StepExWaits(u, prog, p, r, done, input, ready);
    } else {
      StepFlow(u, prog, p, r, done, input, ready);
    }
  }

  /* ---- Whole runs ---- */

  /** What the environment chooses in one cycle. */
  datatype Tick = Tick(input: Input, ready: bool)

  predicate LegalRun(u: Units, prog: seq<Slot>, p: Regs, r: nat, ticks: seq<Tick>)
    requires |p.storage| == 32
    decreases |ticks|
  {
    ticks == [] ||
    var t := ticks[0];
    && Legal(prog, p, r, t.input)
    && LegalRun(u, prog, Next(u, p, t.input, t.ready), r + Count(Retires(p, t.ready)), ticks[1..])
  }

  /** The registers at the end of a run, and how many instructions have retired by then. */
  function Run(u: Units, p: Regs, r: nat, ticks: seq<Tick>): (Regs, nat)
    requires |p.storage| == 32
    decreases |ticks|
  {
    if ticks == [] then (p, r)
    else Run(u, Next(u, p, ticks[0].input, ticks[0].ready), r + Count(Retires(p, ticks[0].ready)), ticks[1..])
  }

  lemma InvBounds(u: Units, prog: seq<Slot>, p: Regs, r: nat, done: Arch)
    requires Inv(u, prog, p, r, done)
    ensures |p.storage| == 32 && Fetches(p, r) <= |prog|
  {
  }

  /** No load retires with CSR data in its place. */
  predicate NoneWrong(u: Units, p: Regs, ticks: seq<Tick>)
    requires |p.storage| == 32
    decreases |ticks|
  {
    ticks == [] ||
    (!Wrong(u, p, ticks[0].ready) && NoneWrong(u, Next(u, p, ticks[0].input, ticks[0].ready), ticks[1..]))
  }

  /** Over any run, under any memory waits and unit stalls, the pipeline is always some number of
      instructions into the sequential execution. */
  lemma {:induction false} RunIsSequential(u: Units, a0: Arch, prog: seq<Slot>, p: Regs, r: nat, ticks: seq<Tick>)
    requires ArchOk(a0) && r <= |prog| && Inv(u, prog, p, r, After(u, a0, prog, r))
    requires LegalRun(u, prog, p, r, ticks) && NoneWrong(u, p, ticks)
    ensures var (p', r') := Run(u, p, r, ticks);
      r' <= |prog| && Inv(u, prog, p', r', After(u, a0, prog, r'))
    decreases |ticks|
  {
    hide Inv, Next, Execute, Legal, Network, Wrong;
    if ticks != [] {
      var t, done := ticks[0], After(u, a0, prog, r);
      InvBounds(u, prog, p, r, done);
      StepInv(u, prog, p, r, done, t.input, t.ready);
      var p1, r1 := Next(u, p, t.input, t.ready), r + Count(Retires(p, t.ready));
      InvBounds(u, prog, p1, r1, Plus(u, done, Retires(p, t.ready), prog, r));
      RunIsSequential(u, a0, prog, p1, r1, ticks[1..]);
    }
  }

  /** Registers are those after the retired instructions, memory those after the one in MEM as well. */
  predicate InStep(u: Units, a0: Arch, prog: seq<Slot>, p: Regs, r: nat)
    requires ArchOk(a0)
  {
    && r + Count(p.mem.valid) <= |prog|
    && p.storage == After(u, a0, prog, r).regs
    && p.dmem == After(u, a0, prog, r + Count(p.mem.valid)).mem
  }

  /** In every cycle of the run. */
  predicate AlwaysInStep(u: Units, a0: Arch, prog: seq<Slot>, p: Regs, r: nat, ticks: seq<Tick>)
    requires ArchOk(a0) && |p.storage| == 32
    decreases |ticks|
  {
    && InStep(u, a0, prog, p, r)
    && (ticks == [] ||
        var t := ticks[0];
        AlwaysInStep(u, a0, prog, Next(u, p, t.input, t.ready), r + Count(Retires(p, t.ready)), ticks[1..]))
  }

  lemma InvInStep(u: Units, a0: Arch, prog: seq<Slot>, p: Regs, r: nat)
    requires ArchOk(a0) && r <= |prog| && Inv(u, prog, p, r, After(u, a0, prog, r))
    ensures InStep(u, a0, prog, p, r)
  {
    hide Execute, MemHolds, ExHolds, WbHolds, DelayHolds;
    assert p.mem.valid ==> After(u, a0, prog, r + 1) == Plus(u, After(u, a0, prog, r), true, prog, r);
  }

  /** A load that retires wrong leaves a register the sequential execution does not have. */
  lemma WrongShows(u: Units, a0: Arch, prog: seq<Slot>, p: Regs, r: nat, input: Input, ready: bool)
    requires ArchOk(a0) && r <= |prog| && Inv(u, prog, p, r, After(u, a0, prog, r)) && Wrong(u, p, ready)
    ensures Retires(p, ready) && r < |prog|
    ensures !InStep(u, a0, prog, Next(u, p, input, ready), r + 1)
  {
    var done, rd := After(u, a0, prog, r), p.mem.insn.rd;
    hide ExHolds, WbHolds, DelayHolds, ExOut, Compute;
    assert After(u, a0, prog, r + 1) == Execute(u, done, prog[r]);
    ExecuteRegs(u, done, prog[r], rd);
    assert Value(u, done, prog[r]) == u.load(p.dmem, p.mem.rs1, p.mem.insn.funct3);
    assert Next(u, p, input, ready).storage[rd] == p.csrVal by {
      hide Value, Execute, MemHolds;
    }
  }

  /** A run stays in step with sequential execution, in every cycle, exactly if no load retires wrong:
      none retires right after a cycle it waited in with a CSR access, never fetched, behind it in EX,
      unless the two happen to yield the same word. */
  lemma {:induction false} RunExactly(u: Units, a0: Arch, prog: seq<Slot>, p: Regs, r: nat, ticks: seq<Tick>)
    requires ArchOk(a0) && r <= |prog| && Inv(u, prog, p, r, After(u, a0, prog, r)) && |p.storage| == 32
    requires LegalRun(u, prog, p, r, ticks)
    ensures AlwaysInStep(u, a0, prog, p, r, ticks) <==> NoneWrong(u, p, ticks)
    decreases |ticks|
  {
    hide Inv, Next, Execute, Legal, Network, Wrong, InStep;
    InvInStep(u, a0, prog, p, r);
    if ticks != [] {
      var t, done := ticks[0], After(u, a0, prog, r);
      InvBounds(u, prog, p, r, done);
      var p1, r1 := Next(u, p, t.input, t.ready), r + Count(Retires(p, t.ready));
      if Wrong(u, p, t.ready) {
        WrongShows(u, a0, prog, p, r, t.input, t.ready);
      } else {
        StepInv(u, prog, p, r, done, t.input, t.ready);
        InvBounds(u, prog, p1, r1, Plus(u, done, Retires(p, t.ready), prog, r));
        RunExactly(u, a0, prog, p1, r1, ticks[1..]);
      }
    }
  }

  /* ---- Everything fetched retires ---- */

  /** What a run needs to make progress, whatever the data. */
  ghost predicate Steady(u: Units, prog: seq<Slot>, p: Regs, r: nat) {
    && |p.storage| == 32 && DelayHolds(u, p.ex, p.mul, p.div)
    && (p.mem.re || p.mem.we ==> p.mem.valid)
    && Fetches(p, r) <= |prog|
  }

  lemma InvSteady(u: Units, prog: seq<Slot>, p: Regs, r: nat, done: Arch)
    requires Inv(u, prog, p, r, done)
    ensures Steady(u, prog, p, r)
  {
    hide MemHolds, ExHolds, WbHolds, DelayHolds, Plus;
    assert p.mem.valid || (!p.mem.re && !p.mem.we);
  }

  function Longest(u: Units): nat { if u.mulLatency > u.divLatency then u.mulLatency else u.divLatency }

  /** `n` instructions of `c` cycles each. */
  function Costs(n: nat, c: nat): nat { if n == 0 then 0 else c + Costs(n - 1, c) }

  /** At most so many cycles, the unproductive ones aside, until everything has retired: one for an
      instruction in MEM, two and its stall in EX, three and the longest stall in ID, four before that. */
  function Left(u: Units, prog: seq<Slot>, p: Regs, r: nat): nat
    requires Fetches(p, r) <= |prog|
  {
    Weight(p.mem.valid, p.ex.valid, p.mul.timer + p.div.timer, p.id.valid, |prog| - Fetches(p, r), Longest(u))
  }

  function Weight(mem: bool, ex: bool, stall: nat, id: bool, rest: nat, longest: nat): nat {
    (if mem then 1 else 0) + (if ex then 2 + stall else 0) + (if id then 3 + longest else 0) + Costs(rest, 4 + longest)
  }

  /** Moving on costs weight, and something moves in a productive cycle. */
  lemma WeightFalls(mem: bool, ex: bool, stall: nat, id: bool, rest: nat, mem': bool, ex': bool, stall': nat, id': bool,
                    rest': nat, longest: nat, stallMem: bool, stallEx: bool, stallId: bool, fetched: bool, good: bool)
    requires (stallMem ==> stallEx && mem && mem') && (!stallMem ==> mem' == (ex && !stallEx))
    requires (stallEx ==> stallId && ex' == ex) && (!stallEx ==> ex' == (id && !stallId))
    requires (stallId ==> id' == id && rest' == rest) && (!stallId ==> id' == fetched)
    requires !stallId ==> rest == rest' + if fetched then 1 else 0
    requires if stall > 0 then ex && stallEx && stall' == stall - 1 else stall' <= if id && !stallId then longest else 0
    requires good ==> !stallMem && (stallEx ==> stall > 0) && (stallId ==> stallEx || ex) && (fetched || rest == 0)
    ensures Weight(mem', ex', stall', id', rest', longest) <= Weight(mem, ex, stall, id, rest, longest)
    ensures good && Weight(mem, ex, stall, id, rest, longest) > 0 ==>
      Weight(mem', ex', stall', id', rest', longest) < Weight(mem, ex, stall, id, rest, longest)
  {
  }

  /** Memory is ready, ID is not held back, and fetch has the next instruction if there is one. */
  predicate Productive(prog: seq<Slot>, p: Regs, r: nat, t: Tick) {
    t.ready && !t.input.hold && (t.input.fetched || Fetches(p, r) == |prog|)
  }

  /** The stall timers run down, and start only with an instruction that enters EX. */
  lemma StepTimers(u: Units, p: Regs, input: Input, ready: bool)
    requires |p.storage| == 32 && DelayHolds(u, p.ex, p.mul, p.div)
    ensures var p', w := Next(u, p, input, ready), Network(u, p, ready);
      var stalled := p.mul.timer + p.div.timer;
      && (stalled > 0 ==> p.ex.valid && w.stallEx && p'.mul.timer + p'.div.timer == stalled - 1)
      && (stalled == 0 ==>
            p'.mul.timer + p'.div.timer <= if p.id.valid && !w.stallId && !input.hold then Longest(u) else 0)
  {
    StallOrder(u, p, ready);
    hide Network, ExOut, UnitInputs;
  }

  /** EX keeps its instruction from moving on only while memory or a timer does; ID besides only behind a load. */
  lemma StallReasons(u: Units, p: Regs, ready: bool)
    requires |p.storage| == 32
    ensures var w := Network(u, p, ready);
      && (ready ==> !w.stallMem)
      && (w.stallEx <==> w.stallMem || p.mul.timer != 0 || p.div.timer != 0)
      && (w.stallId ==> w.stallEx || p.ex.valid)
  {
    hide ExOut;
  }

  /** An instruction comes in with each fetch ID accepts, and none is lost. */
  lemma FetchesCount(u: Units, prog: seq<Slot>, p: Regs, r: nat, t: Tick)
    requires |p.storage| == 32 && Legal(prog, p, r, t.input) && (p.mem.re || p.mem.we ==> p.mem.valid)
    requires Fetches(p, r) <= |prog|
    ensures var p', r' := Next(u, p, t.input, t.ready), r + Count(Retires(p, t.ready));
      var taken := t.input.fetched && !Network(u, p, t.ready).stallId && !t.input.hold;
      Fetches(p', r') == Fetches(p, r) + Count(taken) <= |prog|
  {
    StepShape(u, p, t.input, t.ready);
    hide Next, Network;
  }

  lemma StepSteady(u: Units, prog: seq<Slot>, p: Regs, r: nat, t: Tick)
    requires Steady(u, prog, p, r) && Legal(prog, p, r, t.input)
    ensures Steady(u, prog, Next(u, p, t.input, t.ready), r + Count(Retires(p, t.ready)))
  {
    FetchesCount(u, prog, p, r, t);
    StepDelays(u, p, t.input, t.ready);
    StepAccess(u, p, t.input, t.ready);
    hide Next, Network, DelayHolds, Legal, Retires;
  }

  /** The count never rises, and falls in every productive cycle. */
  lemma Advance(u: Units, prog: seq<Slot>, p: Regs, r: nat, t: Tick)
    requires Steady(u, prog, p, r) && Legal(prog, p, r, t.input)
    ensures var p', r' := Next(u, p, t.input, t.ready), r + Count(Retires(p, t.ready));
      && Steady(u, prog, p', r') && Left(u, prog, p', r') <= Left(u, prog, p, r)
      && (Productive(prog, p, r, t) && Left(u, prog, p, r) > 0 ==> Left(u, prog, p', r') < Left(u, prog, p, r))
  {
    hide Next, Network, DelayHolds, Weight, Legal, Retires, Fetches, Longest;
    FetchesCount(u, prog, p, r, t);
    StepSteady(u, prog, p, r, t);
    StepShape(u, p, t.input, t.ready);
    StepTimers(u, p, t.input, t.ready);
    StallReasons(u, p, t.ready);
    hide Steady;
    var p', w := Next(u, p, t.input, t.ready), Network(u, p, t.ready);
    var r' := r + Count(Retires(p, t.ready));
    StallIsWait(p, w, t.ready);
    WeightFalls(p.mem.valid, p.ex.valid, p.mul.timer + p.div.timer, p.id.valid, |prog| - Fetches(p, r),
                p'.mem.valid, p'.ex.valid, p'.mul.timer + p'.div.timer, p'.id.valid, |prog| - Fetches(p', r'),
                Longest(u), w.stallMem, w.stallEx, w.stallId || t.input.hold, t.input.fetched,
                Productive(prog, p, r, t));
  }

  lemma StallIsWait(p: Regs, w: Wires, ready: bool)
    requires w.stallMem == ((p.mem.re || p.mem.we) && !ready) && (p.mem.re || p.mem.we ==> p.mem.valid)
    ensures w.stallMem ==> p.mem.valid
  {
  }

  lemma StepAccess(u: Units, p: Regs, input: Input, ready: bool)
    requires |p.storage| == 32 && (p.mem.re || p.mem.we ==> p.mem.valid)
    ensures var p' := Next(u, p, input, ready);
      && (p'.mem.re || p'.mem.we ==> p'.mem.valid) && |p'.storage| == 32
      && (p'.ex.valid && p'.ex != p.ex ==> p.id.valid)
  {
    hide Network;
  }

  /** How many cycles of a run are productive. */
  function Effort(u: Units, prog: seq<Slot>, p: Regs, r: nat, ticks: seq<Tick>): nat
    requires |p.storage| == 32
    decreases |ticks|
  {
    if ticks == [] then 0
    else
      var t := ticks[0];
      (if Productive(prog, p, r, t) then 1 else 0)
      + Effort(u, prog, Next(u, p, t.input, t.ready), r + Count(Retires(p, t.ready)), ticks[1..])
  }

  predicate Drained(p: Regs) { !p.id.valid && !p.ex.valid && !p.mem.valid }

  /** After enough productive cycles, among however many others, every instruction has retired. */
  lemma {:induction false} EverythingRetires(u: Units, prog: seq<Slot>, p: Regs, r: nat, ticks: seq<Tick>)
    requires Steady(u, prog, p, r) && LegalRun(u, prog, p, r, ticks)
    requires Effort(u, prog, p, r, ticks) >= Left(u, prog, p, r)
    ensures var (p', n) := Run(u, p, r, ticks); n == |prog| && Drained(p')
    decreases |ticks|
  {
    hide Next, Legal, Productive, Steady, Left, Drained, Retires;
    SteadySize(u, prog, p, r);
    if ticks == [] {
      NothingLeft(u, prog, p, r);
    } else {
      var t := ticks[0];
      Advance(u, prog, p, r, t);
      var p1, r1 := Next(u, p, t.input, t.ready), r + Count(Retires(p, t.ready));
      if Left(u, prog, p, r) == 0 {
        AllRetired(u, prog, p, r, ticks);
      } else {
        EverythingRetires(u, prog, p1, r1, ticks[1..]);
      }
    }
  }

  lemma SteadySize(u: Units, prog: seq<Slot>, p: Regs, r: nat)
    requires Steady(u, prog, p, r)
    ensures |p.storage| == 32 && Fetches(p, r) <= |prog|
  {
  }

  lemma NothingLeft(u: Units, prog: seq<Slot>, p: Regs, r: nat)
    requires Steady(u, prog, p, r) && Left(u, prog, p, r) == 0
    ensures r == |prog| && Drained(p)
  {
  }

  lemma {:induction false} AllRetired(u: Units, prog: seq<Slot>, p: Regs, r: nat, ticks: seq<Tick>)
    requires Steady(u, prog, p, r) && LegalRun(u, prog, p, r, ticks) && Left(u, prog, p, r) == 0
    ensures var (p', n) := Run(u, p, r, ticks); n == |prog| && Drained(p')
    decreases |ticks|
  {
    hide Next, Legal, Productive, Steady, Left, Drained, Retires;
    SteadySize(u, prog, p, r);
    NothingLeft(u, prog, p, r);
    if ticks != [] {
      var t := ticks[0];
      Advance(u, prog, p, r, t);
      AllRetired(u, prog, Next(u, p, t.input, t.ready), r + Count(Retires(p, t.ready)), ticks[1..]);
    }
  }

  lemma {:induction false} CostsIsProduct(n: nat, c: nat)
    ensures Costs(n, c) == n * c
  {
    if n > 0 {
      CostsIsProduct(n - 1, c);
      assert n * c == (n - 1) * c + c;
    }
  }

  /** A pipeline just out of reset: no instruction anywhere, timers stopped. */
  predicate Empty(u: Units, p: Regs) {
    && !p.id.valid && !p.ex.valid && !p.mem.valid && !p.mem.re && !p.mem.we && !p.wb.valid
    && p.mul.timer == p.div.timer == 0 && |p.mul.line| == u.mulLatency && |p.div.line| == u.divLatency
  }

  lemma EmptyInv(u: Units, prog: seq<Slot>, p: Regs)
    requires Empty(u, p) && Straight(prog) && |p.storage| == 32 && p.storage[0] == 0
    ensures Inv(u, prog, p, 0, After(u, Arch(p.storage, p.dmem), prog, 0))
  {
  }

  /** Where a run from `p` has got to: the register file holds the state after the retired instructions,
      memory additionally the effect of the one in MEM, and a drained pipeline all that was fetched. */
  ghost predicate Reached(u: Units, prog: seq<Slot>, a0: Arch, p: Regs, n: nat)
    requires ArchOk(a0)
  {
    && Fetches(p, n) <= |prog|
    && p.storage == After(u, a0, prog, n).regs
    && p.dmem == After(u, a0, prog, n + Count(p.mem.valid)).mem
    && (!p.id.valid && !p.ex.valid && !p.mem.valid ==>
          Arch(p.storage, p.dmem) == After(u, a0, prog, Fetches(p, n)))
  }

  /** From reset, the register file always holds the state after the retired instructions, memory
      additionally the effect of the one in MEM; once the pipeline has drained, every fetched
      instruction has taken effect and nothing else has. */
  lemma ResetRunIsSequential(u: Units, prog: seq<Slot>, p: Regs, ticks: seq<Tick>)
    requires Empty(u, p) && Straight(prog) && |p.storage| == 32 && p.storage[0] == 0
    requires LegalRun(u, prog, p, 0, ticks) && NoneWrong(u, p, ticks)
    ensures var (p', n) := Run(u, p, 0, ticks); Reached(u, prog, Arch(p.storage, p.dmem), p', n)
  {
    hide Execute, LegalRun, Run, MemHolds, ExHolds, WbHolds, DelayHolds, Empty, NoneWrong, Straight;
    var a0 := Arch(p.storage, p.dmem);
    EmptyInv(u, prog, p);
    RunIsSequential(u, a0, prog, p, 0, ticks);
    var (p', n) := Run(u, p, 0, ticks);
    InvBounds(u, prog, p', n, After(u, a0, prog, n));
    assert p'.mem.valid ==> After(u, a0, prog, n + 1) == Plus(u, After(u, a0, prog, n), true, prog, n);
  }

  /** And the whole program has taken effect, and nothing else, after four productive cycles for each
      instruction and the longest stall besides. */
  lemma ResetRunFinishes(u: Units, prog: seq<Slot>, p: Regs, ticks: seq<Tick>)
    requires Empty(u, p) && Straight(prog) && |p.storage| == 32 && p.storage[0] == 0
    requires LegalRun(u, prog, p, 0, ticks)
    requires Effort(u, prog, p, 0, ticks) >= |prog| * (4 + Longest(u))
    ensures var (p', n) := Run(u, p, 0, ticks);
      && n == |prog| && Drained(p')
      && (NoneWrong(u, p, ticks) ==>
            Arch(p'.storage, p'.dmem) == After(u, Arch(p.storage, p.dmem), prog, |prog|))
  {
    hide LegalRun, Run, NoneWrong, Straight, Effort, Inv, Steady, After, Execute;
    EmptyInv(u, prog, p);
    InvSteady(u, prog, p, 0, After(u, Arch(p.storage, p.dmem), prog, 0));
    CostsIsProduct(|prog|, 4 + Longest(u));
    EverythingRetires(u, prog, p, 0, ticks);
    if NoneWrong(u, p, ticks) {
      ResetRunIsSequential(u, prog, p, ticks);
    }
  }

  /** And it stays in step over the whole run exactly if no load retires wrong. */
  lemma ResetRunExactly(u: Units, prog: seq<Slot>, p: Regs, ticks: seq<Tick>)
    requires Empty(u, p) && Straight(prog) && |p.storage| == 32 && p.storage[0] == 0
    requires LegalRun(u, prog, p, 0, ticks)
    ensures AlwaysInStep(u, Arch(p.storage, p.dmem), prog, p, 0, ticks) <==> NoneWrong(u, p, ticks)
  {
    hide Inv, LegalRun, AlwaysInStep, NoneWrong;
    EmptyInv(u, prog, p);
    RunExactly(u, Arch(p.storage, p.dmem), prog, p, 0, ticks);
  }

  predicate NoAccess(p: Regs) { !p.mem.valid && !p.mem.re && !p.mem.we }

  lemma LoadIntoId(u: Units, load: Slot, p: Regs)
    requires Unstalled(p) && !p.id.valid && !p.ex.valid && NoAccess(p)
    ensures var q := Next(u, p, Input(true, load, 0, false), true);
      q.id == IdReg(true, load) && !q.ex.valid && NoAccess(q) && Unstalled(q)
  {
  }

  lemma LoadIntoEx(u: Units, load: Slot, input: Input, p: Regs)
    requires Unstalled(p) && p.id == IdReg(true, load) && !p.ex.valid && NoAccess(p)
    requires load.insn.op.LOAD? && !input.fetched && !input.hold
    ensures var q := Next(u, p, input, true);
      q.id == IdReg(false, input.slot) && q.ex.valid && q.ex.slot == load && NoAccess(q) && Unstalled(q)
  {
  }

  lemma LoadIntoMem(u: Units, load: Slot, input: Input, p: Regs)
    requires Unstalled(p) && !p.id.valid && p.ex.valid && p.ex.slot == load && NoAccess(p)
    requires load.insn.op.LOAD? && !input.fetched && !input.hold
    ensures var q := Next(u, p, input, true);
      && q.mem.valid && q.mem.re && q.mem.insn == load.insn && q.ex.slot == p.id.slot && !q.ex.valid && !q.id.valid
      && Unstalled(q)
  {
  }

  lemma LoadWaits(u: Units, input: Input, p: Regs)
    requires Unstalled(p) && p.mem.re && p.ex.slot.insn.op.CSR?
    ensures var q := Next(u, p, input, false); q.mem == p.mem && q.dmem == p.dmem && q.csrRe && q.csrVal == input.csr
    ensures |Next(u, p, input, false).storage| == 32
  {
  }

  /** Such a run exists for any load: one wait state, and a CSR access on the undefined wires behind it. */
  lemma StrayCsrWord(u: Units, load: Slot, word: Slot, p: Regs) returns (ticks: seq<Tick>)
    requires Empty(u, p) && |p.storage| == 32 && p.storage[0] == 0
    requires load.insn.op.LOAD? && load.insn.rd != 0 && word.insn.op.CSR?
    ensures Straight([load]) && LegalRun(u, [load], p, 0, ticks)
    ensures !NoneWrong(u, p, ticks) && !AlwaysInStep(u, Arch(p.storage, p.dmem), [load], p, 0, ticks)
  {
    hide Next, LegalRun, NoneWrong, AlwaysInStep;
    var nothing := Input(false, word, 0, false);
    LoadIntoId(u, load, p);
    var p1 := Next(u, p, Input(true, load, 0, false), true);
    LoadIntoEx(u, load, nothing, p1);
    var p2 := Next(u, p1, nothing, true);
    LoadIntoMem(u, load, nothing, p2);
    var p3 := Next(u, p2, nothing, true);
    var right := u.load(p3.dmem, p3.mem.rs1, load.insn.funct3);
    var waits := Input(false, word, if right == 0 then 1 else 0, false);
    LoadWaits(u, waits, p3);
    var p4 := Next(u, p3, waits, false);
    assert Wrong(u, p4, true);
    hide Wrong;
    var t0, t1, t3 := Tick(Input(true, load, 0, false), true), Tick(nothing, true), Tick(waits, false);
    ticks := [t0, t1, t1, t3, t1];
    OneTick(u, [load], p4, 0, [t1]);
    OneTick(u, [load], p3, 0, [t3, t1]);
    OneTick(u, [load], p2, 0, [t1, t3, t1]);
    OneTick(u, [load], p1, 0, [t1, t1, t3, t1]);
    OneTick(u, [load], p, 0, ticks);
    LegalNothing(u, p4, t1);
    ResetRunExactly(u, [load], p, ticks);
  }

  lemma LegalNothing(u: Units, p: Regs, t: Tick)
    requires |p.storage| == 32
    ensures forall prog, r :: LegalRun(u, prog, Next(u, p, t.input, t.ready), r, [])
  {
  }

  predicate Unstalled(p: Regs) { p.mul.timer == 0 && p.div.timer == 0 && |p.storage| == 32 }

  lemma OneTick(u: Units, prog: seq<Slot>, p: Regs, r: nat, ticks: seq<Tick>)
    requires ticks != [] && |p.storage| == 32
    ensures var t := ticks[0];
      var p' := Next(u, p, t.input, t.ready);
      && (LegalRun(u, prog, p, r, ticks) <==>
            Legal(prog, p, r, t.input) && LegalRun(u, prog, p', r + Count(Retires(p, t.ready)), ticks[1..]))
      && (NoneWrong(u, p, ticks) <==> !Wrong(u, p, t.ready) && NoneWrong(u, p', ticks[1..]))
  {
    hide Next, Network, Wrong, Legal, Retires;
  }

  /** The clocked registers. */
  class Core {
    const u: Units
    var id: IdReg
    var ex: ExReg
    var mem: MemReg
    var wb: WbReg
    var storage: seq<Word>
    var mul: Delay
    var div: Delay
    var csrRe: bool
    var csrVal: Word

    function Registers(dmem: Memory): Regs
      reads this
    {
      Regs(id, ex, mem, wb, storage, mul, div, csrRe, csrVal, dmem)
    }

    /** One rising edge, next to a data memory that accepts the access EX presents when ready. */
    method Clock(input: Input, ready: bool, dmem: Memory) returns (dmem': Memory)
      requires |storage| == 32
      modifies this
      ensures Registers(dmem') == old(Next(u, Registers(dmem), input, ready))
    {
      hide Network, IdEdge, ExEdge, MemEdge, WbEdge, StorageEdge, DmemEdge, DelayEdge, UnitInputs, EnterEx;
      // Right-hand sides, all from the registers before the edge.
      var p := Registers(dmem);
      var w, inputs := Network(u, p, ready), UnitInputs(u, p);
      var enterEx := EnterEx(p, w, input);
      dmem' := DmemEdge(u, p, w);
      id, ex, mem := IdEdge(p, w, input), ExEdge(p, w, input), MemEdge(p, w);
      wb, storage := WbEdge(p, w), StorageEdge(p, w);
      mul := DelayEdge(p.mul, enterEx && p.id.slot.insn.IsMul(), inputs.0);
      div := DelayEdge(p.div, enterEx && p.id.slot.insn.IsDiv(), inputs.1);
      csrRe, csrVal := p.ex.slot.insn.op.CSR?, input.csr;
    }

    /** A whole run of the registers from reset; `n` counts the instructions that have retired. */
    method RunProgram(prog: seq<Slot>, ticks: seq<Tick>, dmem: Memory) returns (dmem': Memory, n: nat)
      requires |storage| == 32 && storage[0] == 0 && Empty(u, Registers(dmem)) && Straight(prog)
      requires LegalRun(u, prog, Registers(dmem), 0, ticks)
      modifies this
      ensures (Registers(dmem'), n) == old(Run(u, Registers(dmem), 0, ticks))
      ensures old(NoneWrong(u, Registers(dmem), ticks)) ==>
        Reached(u, prog, old(Arch(storage, dmem)), Registers(dmem'), n)
      ensures old(Effort(u, prog, Registers(dmem), 0, ticks)) >= |prog| * (4 + Longest(u)) ==>
        n == |prog| && Drained(Registers(dmem'))
    {
      hide Next, LegalRun, NoneWrong, Reached, Empty, Retires, Effort, Drained;
      ghost var start, a0 := Registers(dmem), Arch(storage, dmem);
      if NoneWrong(u, start, ticks) {
        ResetRunIsSequential(u, prog, start, ticks);
      }
      if Effort(u, prog, start, 0, ticks) >= |prog| * (4 + Longest(u)) {
        ResetRunFinishes(u, prog, start, ticks);
      }
      dmem', n := dmem, 0;
      for i := 0 to |ticks|
        invariant |storage| == 32
        invariant Run(u, Registers(dmem'), n, ticks[i..]) == Run(u, start, 0, ticks)
      {
        assert ticks[i..][0] == ticks[i] && ticks[i..][1..] == ticks[i + 1..];
        NextKeepsSize(u, Registers(dmem'), ticks[i].input, ticks[i].ready);
        if Retires(Registers(dmem'), ticks[i].ready) {
          n := n + 1;
        }
        dmem' := Clock(ticks[i].input, ticks[i].ready, dmem');
      }
    }
  }

  lemma NextKeepsSize(u: Units, p: Regs, input: Input, ready: bool)
    requires |p.storage| == 32
    ensures |Next(u, p, input, ready).storage| == 32
  {
    hide Network;
  }
}
