/**
 The registers and combinational logic of the cache, and the proof that one clock edge of them is
 one step of the phase machine in CacheSpec.
 */
module CacheRtl {
  import opened Words
  import opened CacheSpec

  /** An address of the cache data RAM. */
  datatype Cell = Cell(index: nat, off: nat)

  /** The registers of the machine that copies lines to and from external memory. */
  datatype Copier = Copier(
    xmToCache: bool, cacheToXm: bool, pcacheToXm: bool,
    xmAddr: Addr, cmAddr: Cell, xmPaddr: Addr, cmPaddr: Cell,
    xmWay: nat, xmPwdata: Word)

  /** Every register: access buffer, write-first tag and data RAMs with their read address
      registers, and the copier. */
  datatype Regs = Regs(
    ab: Request,
    tags: seq<Row>, tagRaddr: nat,
    data: map<Slot, Word>, dataRaddr: Cell,
    c: Copier)

  /** Everything the combinational blocks drive. */
  datatype Wires = Wires(
    ready: bool, rdata: Word,
    xmRe: bool, xmWe: Enables, xmAddr: Addr, xmWdata: Word,
    cacheWe: Enables, cacheSlot: Slot, cacheWdata: Word,
    tagWe: bool, tagWay: nat, tag: Line, wnext: nat,
    cacheRaddr: Cell)

  /** Increment of a counter that wraps at `n`. */
  function Wrap(k: nat, n: nat): nat {
    if k + 1 == n then 0 else k + 1
  }

  /** The phase that the copy flags and counters stand for. */
  function PhaseOf(r: Regs): Phase {
    if r.c.xmToCache then Fill(r.c.xmWay, r.c.cmAddr.off)
    else if r.c.cacheToXm then Evict(r.c.xmWay, r.c.xmAddr.off, r.c.xmPaddr)
    else if r.c.pcacheToXm then Drain(r.c.xmPaddr)
    else Serve
  }

  function Abstract(r: Regs): State {
    State(r.ab, r.tags, r.data, PhaseOf(r), r.c.xmPwdata)
  }

  /** How the RAM read addresses, the address counters and the hold registers follow the phase. */
  ghost predicate Valid(g: Geometry, r: Regs) {
    && Shaped(g, Abstract(r))
    && (forall i | 0 <= i < g.lines :: RowInv(r.tags[i]))
    && r.tagRaddr < g.lines && r.dataRaddr.index < g.lines && r.dataRaddr.off < g.lineSize && r.c.xmWay < 2
    && !(r.c.xmToCache && (r.c.cacheToXm || r.c.pcacheToXm))
    && (r.c.cacheToXm && r.c.xmAddr.off > 0 ==> r.c.pcacheToXm)
    && if r.ab.Active() then Coupled(g, r) else PhaseOf(r) == Serve
  }

  ghost predicate Coupled(g: Geometry, r: Regs)
    requires Shaped(g, Abstract(r)) && r.c.xmWay < 2
  {
    var s, i, n, v := Abstract(r), r.ab.addr.index, g.lineSize, r.c.xmWay;
    var row, tag := Row0(s), r.ab.addr.tag;
    && r.tagRaddr == i
    && match PhaseOf(r)
       case Serve =>
         && r.dataRaddr == Cell(i, r.ab.addr.off)
         && (!row.Hit(tag) ==> r.c.xmAddr.off == 0 && r.c.cmAddr == Cell(i, 0))
       case Drain(_) =>
         && !row.Hit(tag) && v == row.wnext && !row.lines[v].dirty
         && r.c.xmAddr.off == 0
         && r.c.cmPaddr == r.dataRaddr == Cell(i, r.ab.addr.off)
       case Evict(_, k, _) =>
         && !row.Hit(tag) && v == row.wnext && !row.lines[v].dirty
         && r.c.xmAddr == VictimAt(g, s, v, k)
         && r.c.cmPaddr == r.dataRaddr == Cell(i, k) && r.c.cmAddr == Cell(i, Wrap(k, n))
       case Fill(_, k) =>
         && row.Match(v, tag)
         && r.c.cmAddr == Cell(i, k)
         && r.c.xmAddr == At(s, Wrap(k, n)) && r.c.xmPaddr == At(s, k)
  }

  predicate TagValid(r: Regs)
    requires r.tagRaddr < |r.tags| && |r.tags[r.tagRaddr].lines| == 2
  {
    r.tags[r.tagRaddr].Hit(r.ab.addr.tag)
  }

  /** The combinational blocks.  `any` supplies the value of outputs the design leaves unspecified. */
  function Drive(g: Geometry, r: Regs, bus: Request, xm: XmIn, any: Wires): Wires
    requires r.tagRaddr < |r.tags| && r.tags[r.tagRaddr].Ok(g)
    requires forall w | 0 <= w < 2 :: Slot(w, r.dataRaddr.index, r.dataRaddr.off) in r.data
    requires r.c.xmWay < 2
  {
    var a, row := r.ab.addr, r.tags[r.tagRaddr];
    var access, hit, way := r.ab.Active(), TagValid(r), row.HitWay(a.tag);
    var victim := row.lines[row.wnext];
    var rcache := (w: nat) requires w < 2 => r.data[Slot(w, r.dataRaddr.index, r.dataRaddr.off)];
    var idle := any.(xmRe := false, xmWe := NO_WRITE, cacheWe := NO_WRITE, tagWe := false);
    // External memory access and RAM writes.
    var o :=
      if r.c.xmToCache then
        idle.(xmRe := !xm.ready || r.c.xmAddr.off != 0, xmAddr := if xm.ready then r.c.xmAddr else r.c.xmPaddr,
              cacheWe := if xm.ready then WRITE_ALL else NO_WRITE,
              cacheSlot := Slot(r.c.xmWay, r.c.cmAddr.index, r.c.cmAddr.off), cacheWdata := xm.rdata)
      else if r.c.cacheToXm || (!xm.ready && r.c.pcacheToXm) then
        idle.(xmWe := WRITE_ALL, xmAddr := if xm.ready then r.c.xmAddr else r.c.xmPaddr,
              xmWdata := if xm.ready then rcache(r.c.xmWay) else r.c.xmPwdata)
      else if r.ab.we.Any() && hit then
        idle.(cacheWe := r.ab.we, cacheSlot := Slot(way, a.index, a.off), cacheWdata := r.ab.wdata,
              tagWe := true, tagWay := way, tag := Line(true, true, a.tag), wnext := row.wnext)
      else if access && !hit && victim.dirty then
        idle.(tagWe := true, tagWay := row.wnext, tag := Line(true, false, victim.tag), wnext := row.wnext)
      else if access && !hit then
        idle.(xmRe := true, xmAddr := bus.addr.(off := 0),
              tagWe := true, tagWay := row.wnext, tag := Line(true, false, a.tag), wnext := 1 - row.wnext)
      else idle;
    // Client response.
    var o :=
      if r.c.xmToCache || r.c.cacheToXm then o.(ready := !access)
      else if access && hit then o.(ready := true, rdata := rcache(way))
      else o.(ready := !access);
    // Data RAM read address.
    o.(cacheRaddr :=
      if r.c.pcacheToXm && !xm.ready then r.c.cmPaddr
      else if r.c.cacheToXm && r.c.cmAddr.off != 0 then (if xm.ready then r.c.cmAddr else r.c.cmPaddr)
      else if access && !hit && victim.dirty then r.c.cmAddr
      else Cell(bus.addr.index, bus.addr.off))
  }

  /** The copier at a clock edge; `row` is the tag RAM output. */
  function EdgeCopy(g: Geometry, c: Copier, ab: Request, row: Row, bus: Request,
                      xm: XmIn, w: Wires, anyWay: nat): Copier
    requires row.Ok(g)
  {
    var victim := row.lines[row.wnext];
    var xmNext := w.xmAddr.(off := Wrap(c.xmAddr.off, g.lineSize));
    var cmNext := Cell(w.cacheRaddr.index, Wrap(c.cmAddr.off, g.lineSize));
    var pcache' := c.cacheToXm || (c.pcacheToXm && !xm.ready);
    if !xm.ready && (c.xmToCache || c.cacheToXm || c.pcacheToXm) then
      c.(pcacheToXm := pcache')
    else if c.xmToCache then
      Copier(c.xmAddr.off != 0, false, pcache',
             if c.xmAddr.off != 0 then xmNext else bus.addr.(off := 0), cmNext,
             w.xmAddr, w.cacheRaddr, c.xmWay, c.xmPwdata)
    else if c.cacheToXm then
      Copier(false, c.cmAddr.off != 0, pcache',
             xmNext, if c.cmAddr.off != 0 then cmNext else Cell(bus.addr.index, 0),
             w.xmAddr, w.cacheRaddr, c.xmWay, w.xmWdata)
    else if ab.Active() && !row.Hit(ab.addr.tag) then
      Copier(!victim.dirty, victim.dirty, pcache',
             if victim.dirty then Addr(victim.tag, ab.addr.index, 0) else xmNext,
             if victim.dirty then cmNext else Cell(ab.addr.index, 0),
             w.xmAddr, w.cacheRaddr, row.wnext, c.xmPwdata)
    else
      Copier(false, false, pcache', bus.addr.(off := 0), Cell(bus.addr.index, 0),
             w.xmAddr, w.cacheRaddr, anyWay, c.xmPwdata)
  }

  /** The RAM ports and the access buffer at a clock edge. */
  function EdgeRams(r: Regs, bus: Request, w: Wires, c': Copier): Regs
    requires r.tagRaddr < |r.tags| && r.ab.addr.index < |r.tags|
    requires w.tagWe ==> w.tagWay < |r.tags[r.tagRaddr].lines|
    requires w.cacheWe.Any() ==> w.cacheSlot in r.data
  {
    r.(tags := if w.tagWe
               then r.tags[r.ab.addr.index := Row(r.tags[r.tagRaddr].lines[w.tagWay := w.tag], w.wnext)]
               else r.tags,
       data := if w.cacheWe.Any()
               then r.data[w.cacheSlot := Merge(r.data[w.cacheSlot], w.cacheWdata, w.cacheWe)]
               else r.data,
       tagRaddr := bus.addr.index, dataRaddr := w.cacheRaddr, ab := bus, c := c')
  }

  /** The outputs the rest of the world sees agree with the phase machine's. */
  ghost predicate Agrees(o: Outcome, w: Wires) {
    && (w.ready <==> o.answer != Wait)
    && (o.answer.Done? ==> w.rdata == o.answer.rdata)
    && (w.xmRe <==> o.xm.Read?)
    && w.xmWe == (if o.xm.Write? then WRITE_ALL else NO_WRITE)
    && (!o.xm.NoAccess? ==> w.xmAddr == o.xm.addr)
    && (o.xm.Write? ==> w.xmWdata == o.xm.wdata)
  }

  /** The client repeats its request; external memory may be ready or not in any cycle. */
  ghost predicate InputsOk(g: Geometry, r: Regs, bus: Request, any: Wires, anyWay: nat)
    requires Valid(g, r)
  {
    && bus.addr.In(g) && any.xmAddr.In(g) && anyWay < 2
    && (Busy(g, Abstract(r)) ==> bus == r.ab)
  }

  ghost predicate StepOk(g: Geometry, r: Regs, bus: Request, xm: XmIn, any: Wires, anyWay: nat)
    requires Valid(g, r)
  {
    var w := Drive(g, r, bus, xm, any);
    var o := Next(g, Abstract(r), bus, xm, any.xmAddr);
    && (w.tagWe ==> w.tagWay < 2)
    && (w.cacheWe.Any() ==> w.cacheSlot in r.data)
    && Agrees(o, w)
    && var r' := EdgeRams(r, bus, w, EdgeCopy(g, r.c, r.ab, r.tags[r.tagRaddr], bus, xm, w, anyWay));
       Valid(g, r') && Abstract(r') == o.next
  }

  lemma IdleStep(g: Geometry, r: Regs, bus: Request, xm: XmIn, any: Wires, anyWay: nat)
    requires Valid(g, r) && InputsOk(g, r, bus, any, anyWay)
    requires PhaseOf(r).Serve? && !r.ab.Active()
    ensures StepOk(g, r, bus, xm, any, anyWay)
  {
  }

  lemma HitStep(g: Geometry, r: Regs, bus: Request, xm: XmIn, any: Wires, anyWay: nat)
    requires Valid(g, r) && InputsOk(g, r, bus, any, anyWay)
    requires PhaseOf(r).Serve? && r.ab.Active() && TagValid(r)
    ensures StepOk(g, r, bus, xm, any, anyWay)
  {
  }

  lemma DirtyMissStep(g: Geometry, r: Regs, bus: Request, xm: XmIn, any: Wires, anyWay: nat)
    requires Valid(g, r) && InputsOk(g, r, bus, any, anyWay)
    requires PhaseOf(r).Serve? && r.ab.Active() && !TagValid(r)
    requires r.tags[r.tagRaddr].lines[r.tags[r.tagRaddr].wnext].dirty
    ensures StepOk(g, r, bus, xm, any, anyWay)
  {
  }

  lemma CleanMissStep(g: Geometry, r: Regs, bus: Request, xm: XmIn, any: Wires, anyWay: nat)
    requires Valid(g, r) && InputsOk(g, r, bus, any, anyWay)
    requires PhaseOf(r).Serve? && r.ab.Active() && !TagValid(r)
    requires !r.tags[r.tagRaddr].lines[r.tags[r.tagRaddr].wnext].dirty
    ensures StepOk(g, r, bus, xm, any, anyWay)
  {
  }

  lemma DrainWaits(g: Geometry, r: Regs, bus: Request, xm: XmIn, any: Wires, anyWay: nat)
    requires Valid(g, r) && InputsOk(g, r, bus, any, anyWay)
    requires PhaseOf(r).Drain? && !xm.ready
    ensures StepOk(g, r, bus, xm, any, anyWay)
  {
  }

  /** The wires of the cycle in which the last evicted word is done: those of a clean miss. */
  lemma EndDrives(g: Geometry, r: Regs, bus: Request, xm: XmIn, any: Wires)
    requires Valid(g, r) && PhaseOf(r).Drain? && xm.ready
    ensures var row := r.tags[r.tagRaddr];
      Drive(g, r, bus, xm, any) ==
        any.(xmRe := true, xmWe := NO_WRITE, xmAddr := bus.addr.(off := 0), cacheWe := NO_WRITE,
             tagWe := true, tagWay := row.wnext, tag := Line(true, false, r.ab.addr.tag), wnext := 1 - row.wnext,
             ready := false, cacheRaddr := Cell(bus.addr.index, bus.addr.off))
  {
  }

  /** What the copier makes of them: the first word of the refill is on its way. */
  lemma EndCopies(g: Geometry, r: Regs, bus: Request, xm: XmIn, w: Wires, anyWay: nat)
    requires Valid(g, r) && PhaseOf(r).Drain? && xm.ready
    requires w.xmAddr == bus.addr.(off := 0) && w.cacheRaddr == Cell(bus.addr.index, bus.addr.off)
    ensures var row := r.tags[r.tagRaddr];
      EdgeCopy(g, r.c, r.ab, row, bus, xm, w, anyWay) ==
        Copier(true, false, false, bus.addr.(off := 1), Cell(r.ab.addr.index, 0), bus.addr.(off := 0), w.cacheRaddr,
               row.wnext, r.c.xmPwdata)
  {
  }

  /** The registers in the first cycle of a refill. */
  lemma EndIsValid(g: Geometry, r: Regs, r': Regs)
    requires Valid(g, r) && PhaseOf(r).Drain? && r'.ab == r.ab
    requires var a, v := r.ab.addr, r.tags[r.tagRaddr].wnext;
      && r'.tags == r.tags[a.index := Row(r.tags[r.tagRaddr].lines[v := Line(true, false, a.tag)], 1 - v)]
      && r'.data == r.data && r'.tagRaddr == a.index && r'.dataRaddr == Cell(a.index, a.off)
      && r'.c == Copier(true, false, false, a.(off := 1), Cell(a.index, 0), a.(off := 0), r'.dataRaddr, v, r.c.xmPwdata)
    ensures Valid(g, r')
  {
    assert RowInv(r.tags[r.ab.addr.index]);
  }

  lemma DrainEnds(g: Geometry, r: Regs, bus: Request, xm: XmIn, any: Wires, anyWay: nat)
    requires Valid(g, r) && InputsOk(g, r, bus, any, anyWay)
    requires PhaseOf(r).Drain? && xm.ready
    ensures StepOk(g, r, bus, xm, any, anyWay)
  {
    var w := Drive(g, r, bus, xm, any);
    EndDrives(g, r, bus, xm, any);
    EndCopies(g, r, bus, xm, w, anyWay);
    assert bus == r.ab && Row0(Abstract(r)) == r.tags[r.tagRaddr] && !Row0(Abstract(r)).Hit(bus.addr.tag);
    assert r.ab.Active() && !Row0(Abstract(r)).lines[Row0(Abstract(r)).wnext].dirty;
    hide Drive, EdgeCopy;
    var r' := EdgeRams(r, bus, w, EdgeCopy(g, r.c, r.ab, r.tags[r.tagRaddr], bus, xm, w, anyWay));
    EndIsValid(g, r, r');
    hide Valid, InputsOk, Coupled;
  }

  lemma EvictStep(g: Geometry, r: Regs, bus: Request, xm: XmIn, any: Wires, anyWay: nat)
    requires Valid(g, r) && InputsOk(g, r, bus, any, anyWay)
    requires PhaseOf(r).Evict?
    ensures StepOk(g, r, bus, xm, any, anyWay)
  {
  }

  lemma FillStep(g: Geometry, r: Regs, bus: Request, xm: XmIn, any: Wires, anyWay: nat)
    requires Valid(g, r) && InputsOk(g, r, bus, any, anyWay)
    requires PhaseOf(r).Fill?
    ensures StepOk(g, r, bus, xm, any, anyWay)
  {
  }

  /** One clock edge of the registers is one step of the phase machine. */
  lemma EdgeIsStep(g: Geometry, r: Regs, bus: Request, xm: XmIn, any: Wires, anyWay: nat)
    requires Valid(g, r) && InputsOk(g, r, bus, any, anyWay)
    ensures StepOk(g, r, bus, xm, any, anyWay)
  {
    match PhaseOf(r)
    case Serve =>
      if !r.ab.Active() {
        IdleStep(g, r, bus, xm, any, anyWay);
      } else if TagValid(r) {
        HitStep(g, r, bus, xm, any, anyWay);
      } else if r.tags[r.tagRaddr].lines[r.tags[r.tagRaddr].wnext].dirty {
        DirtyMissStep(g, r, bus, xm, any, anyWay);
      } else {
        CleanMissStep(g, r, bus, xm, any, anyWay);
      }
    case Drain(_) =>
      if xm.ready {
        DrainEnds(g, r, bus, xm, any, anyWay);
      } else {
        DrainWaits(g, r, bus, xm, any, anyWay);
      }
    case Evict(_, _, _) => EvictStep(g, r, bus, xm, any, anyWay);
    case Fill(_, _) => FillStep(g, r, bus, xm, any, anyWay);
  }

  /** What undefined outputs, and the way register of an idle cache, are taken to be in a cycle. */
  datatype Undriven = Undriven(wires: Wires, way: nat)

  lemma AnsweredOnlyIfAsked(g: Geometry, r: Regs, s: System, t: Tick)
    requires Valid(g, r) && s.cache == Abstract(r) && Sound(g, s)
    ensures var answer := Cycle(g, s, t).1; answer.Done? <==> answer != Wait && s.cache.req.Active()
  {
  }

  class Cache {
    const g: Geometry
    // Access buffer.
    var ab: Request
    // Tag RAM and data RAM, each with the register holding its read address.
    var tags: seq<Row>
    var tagRaddr: nat
    var data: map<Slot, Word>
    var dataRaddr: Cell
    // Copy state machine.
    var xmToCache: bool
    var cacheToXm: bool
    var pcacheToXm: bool
    var xmAddr: Addr
    var cmAddr: Cell
    var xmPaddr: Addr
    var cmPaddr: Cell
    var xmWay: nat
    var xmPwdata: Word

    ghost function Registers(): Regs
      reads this
    {
      Regs(ab, tags, tagRaddr, data, dataRaddr, CopyRegs())
    }

    /** This cache with an external memory beside it. */
    ghost function Sys(mem: map<Addr, Word>, pend: XmOut): System
      reads this
    {
      System(Abstract(Registers()), mem, pend)
    }

    function CopyRegs(): Copier
      reads this
    {
      Copier(xmToCache, cacheToXm, pcacheToXm, xmAddr, cmAddr, xmPaddr, cmPaddr, xmWay, xmPwdata)
    }

    /** An all-invalid cache with nothing buffered; the data RAM holds arbitrary words. */
    constructor (g: Geometry, data: map<Slot, Word>, bus: Request)
      requires g.Ok() && bus.addr.In(g) && !bus.Active()
      requires forall w, i, o | 0 <= w < 2 && 0 <= i < g.lines && 0 <= o < g.lineSize :: Slot(w, i, o) in data
      ensures this.g == g && Valid(g, Registers())
      ensures forall mem: map<Addr, Word> | forall a: Addr | a.In(g) :: a in mem ::
                Blank(g, System(Abstract(Registers()), mem, NoAccess))
    {
      this.g, this.data, ab := g, data, bus;
      tags := seq(g.lines, _ => Row([Line(false, false, 0), Line(false, false, 0)], 0));
      tagRaddr, dataRaddr := 0, Cell(0, 0);
      xmToCache, cacheToXm, pcacheToXm := false, false, false;
      xmAddr, xmPaddr, cmAddr, cmPaddr := Addr(0, 0, 0), Addr(0, 0, 0), Cell(0, 0), Cell(0, 0);
      xmWay, xmPwdata := 0, bus.wdata;
    }

    /** The non-blocking assignments of the copy machine. */
    method ClockCopy(bus: Request, xm: XmIn, w: Wires, anyWay: nat)
      requires tagRaddr < |tags| && tags[tagRaddr].Ok(g)
      modifies `xmToCache, `cacheToXm, `pcacheToXm, `xmAddr, `cmAddr, `xmPaddr, `cmPaddr, `xmWay, `xmPwdata
      ensures CopyRegs() == old(EdgeCopy(g, CopyRegs(), ab, tags[tagRaddr], bus, xm, w, anyWay))
    {
      var row := tags[tagRaddr];
      var victim := row.lines[row.wnext];
      var xmNext := w.xmAddr.(off := Wrap(xmAddr.off, g.lineSize));
      var cmNext := Cell(w.cacheRaddr.index, Wrap(cmAddr.off, g.lineSize));
      // Right-hand sides, all from the registers before the edge.
      var fill, evict, way, xm', cm', data' := xmToCache, cacheToXm, xmWay, xmAddr, cmAddr, xmPwdata;
      var held := !xm.ready && (xmToCache || cacheToXm || pcacheToXm);
      if held {
        // Waiting for external memory.
      } else if xmToCache {
        fill, evict := xmAddr.off != 0, false;
        xm', cm' := if xmAddr.off != 0 then xmNext else bus.addr.(off := 0), cmNext;
      } else if cacheToXm {
        evict, data' := cmAddr.off != 0, w.xmWdata;
        xm', cm' := xmNext, if cmAddr.off != 0 then cmNext else Cell(bus.addr.index, 0);
      } else if ab.Active() && !row.Hit(ab.addr.tag) {
        fill, evict, way := !victim.dirty, victim.dirty, row.wnext;
        xm' := if victim.dirty then Addr(victim.tag, ab.addr.index, 0) else xmNext;
        cm' := if victim.dirty then cmNext else Cell(ab.addr.index, 0);
      } else {
        way, xm', cm' := anyWay, bus.addr.(off := 0), Cell(bus.addr.index, 0);
      }
      // Registers after the edge.
      pcacheToXm := cacheToXm || (pcacheToXm && !xm.ready);
      xmToCache, cacheToXm, xmWay, xmAddr, cmAddr, xmPwdata := fill, evict, way, xm', cm', data';
      if !held {
        xmPaddr, cmPaddr := w.xmAddr, w.cacheRaddr;
      }
    }

    /** The non-blocking assignments of the RAM ports and the access buffer. */
    method ClockRams(bus: Request, w: Wires)
      requires tagRaddr < |tags| && ab.addr.index < |tags|
      requires w.tagWe ==> w.tagWay < |tags[tagRaddr].lines|
      requires w.cacheWe.Any() ==> w.cacheSlot in data
      modifies `tags, `data, `tagRaddr, `dataRaddr, `ab
      ensures Registers() == EdgeRams(old(Registers()), bus, w, CopyRegs())
    {
      if w.tagWe {
        tags := tags[ab.addr.index := Row(tags[tagRaddr].lines[w.tagWay := w.tag], w.wnext)];
      }
      if w.cacheWe.Any() {
        data := data[w.cacheSlot := Merge(data[w.cacheSlot], w.cacheWdata, w.cacheWe)];
      }
      tagRaddr, dataRaddr, ab := bus.addr.index, w.cacheRaddr, bus;
    }

    /** One cycle: the wires settle, then the registers clock.  The effect is one step of the phase
        machine, and the outputs are the ones it asks for. */
    method Step(bus: Request, xm: XmIn, any: Wires, anyWay: nat) returns (w: Wires)
      requires Valid(g, Registers()) && InputsOk(g, Registers(), bus, any, anyWay)
      modifies this
      ensures Valid(g, Registers())
      ensures Abstract(Registers()) == Next(g, old(Abstract(Registers())), bus, xm, any.xmAddr).next
      ensures Agrees(Next(g, old(Abstract(Registers())), bus, xm, any.xmAddr), w)
    {
      hide Drive, EdgeCopy, Agrees, Next;
      ghost var r := Registers();
      w := Drive(g, Regs(ab, tags, tagRaddr, data, dataRaddr, CopyRegs()), bus, xm, any);
      assert StepOk(g, r, bus, xm, any, anyWay) by {
        EdgeIsStep(g, r, bus, xm, any, anyWay);
      }
      ClockCopy(bus, xm, w, anyWay);
      ghost var c' := EdgeCopy(g, r.c, r.ab, r.tags[r.tagRaddr], bus, xm, w, anyWay);
      assert Registers() == r.(c := c');
      ClockRams(bus, w);
      assert Registers() == EdgeRams(r, bus, w, c');
    }

    /** One cycle of the registers next to an external memory: a cycle of the verified system. */
    method Tick(t: Tick, mem: map<Addr, Word>, pend: XmOut, any: Wires, anyWay: nat)
      returns (w: Wires, mem': map<Addr, Word>, pend': XmOut)
      requires Valid(g, Registers()) && anyWay < 2 && any.xmAddr == t.junk
      requires Sound(g, Sys(mem, pend)) && Legal(g, Sys(mem, pend), t)
      modifies this
      ensures Valid(g, Registers())
      ensures var (s', answer) := Cycle(g, old(Sys(mem, pend)), t);
        && Sys(mem', pend') == s'
        && (w.ready <==> answer != Wait) && (answer.Done? ==> w.rdata == answer.rdata)
    {
      var xm := XmIn(t.ready, if t.ready && pend.Read? then mem[pend.addr] else t.noise);
      w := Step(t.bus, xm, any, anyWay);
      var asked := if w.xmRe then Read(w.xmAddr)
                   else if w.xmWe.Any() then Write(w.xmAddr, w.xmWdata) else NoAccess;
      var taken := t.ready || (pend == NoAccess && t.takes);
      mem' := if taken && asked.Write? then mem[asked.addr := asked.wdata] else mem;
      pend' := if taken then asked else pend;
    }

    /** A whole run of the registers, with new values on the undefined wires in every cycle: the
        accesses it completes are those of the verified system, and those of one flat memory if memory's
        timing is safe. */
    method Run(ticks: seq<Tick>, mem: map<Addr, Word>, undriven: seq<Undriven>) returns (log: seq<Event>)
      requires Valid(g, Registers()) && Blank(g, Sys(mem, NoAccess))
      requires Sound(g, Sys(mem, NoAccess)) && LegalRun(g, Sys(mem, NoAccess), ticks)
      requires |undriven| == |ticks|
      requires forall i | 0 <= i < |ticks| :: undriven[i].way < 2 && undriven[i].wires.xmAddr == ticks[i].junk
      modifies this
      ensures log == Log(g, old(Sys(mem, NoAccess)), ticks)
      ensures old(AllSafe(g, Sys(mem, NoAccess), ticks)) ==>
        && FlatLog(mem, log)
        && forall i, k | 0 <= i < |log| && 0 <= k < 4 :: SeesLatest(mem, log, i, k)
    {
      hide Valid, Sound, Legal, LegalRun, Log, FlatLog, Cycle, Blank, AllSafe, After;
      ghost var whole := Log(g, Sys(mem, NoAccess), ticks);
      BlankRunIsFlat(g, Sys(mem, NoAccess), ticks);
      var m, pend := mem, NoAccess;
      log := [];
      for i := 0 to |ticks|
        invariant Valid(g, Registers())
        invariant Sound(g, Sys(m, pend)) && LegalRun(g, Sys(m, pend), ticks[i..])
        invariant log + Log(g, Sys(m, pend), ticks[i..]) == whole
      {
        assert ticks[i..][0] == ticks[i] && ticks[i..][1..] == ticks[i + 1..];
        RunUnfolds(g, Sys(m, pend), ticks[i..]);
        AnsweredOnlyIfAsked(g, Registers(), Sys(m, pend), ticks[i]);
        var req, w := ab, undriven[i].wires;
        w, m, pend := Tick(ticks[i], m, pend, undriven[i].wires, undriven[i].way);
        if w.ready && req.Active() {
          log := log + [Event(req, w.rdata)];
        }
      }
      RunOfNothing(g, Sys(m, pend));
      FlatLogBytes(mem, log);
    }
  }
}
