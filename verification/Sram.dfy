/**
 The byte lanes of the MEM stage over the 8-bit SRAM controller: loads and stores of any size behave as
 on a little-endian byte array, and every access takes four SRAM cycles.
 */
module Sram {
  import opened Words

  /* ---- The controller ---- */

  /** A word access on the internal bus; `addr` counts words. */
  datatype Request = Request(re: bool, we: Enables, addr: nat, wdata: Word) {
    predicate Any() { re || we.Any() }
  }

  datatype Regs = Regs(ab: Request, rd0: Byte, rd1: Byte, rd2: Byte, busy: bool, subaddr: nat, ready: bool) {
    predicate Ok(words: nat) { subaddr < 4 && (busy ==> ab.addr < words) }
    function XmAddr(): nat { 4 * ab.addr + subaddr }
    predicate XmWe()
      requires subaddr < 4
    {
      busy && Enabled(ab.we, subaddr)
    }
    predicate XmRe() { busy && ab.re }
  }

  /** One rising edge, with `q` on the SRAM's data lines. */
  function Edge(r: Regs, bus: Request, q: Byte): Regs {
    if r.busy && r.subaddr == 3 then
      // Finishing; the next request is taken over at once.
      r.(subaddr := 0, ready := !bus.Any(), busy := bus.Any(), ab := if bus.Any() then bus else r.ab)
    else if r.busy then
      Regs(r.ab,
           if r.subaddr == 0 then q else r.rd0,
           if r.subaddr == 1 then q else r.rd1,
           if r.subaddr == 2 then q else r.rd2,
           true, r.subaddr + 1, r.subaddr >= 2)
    else
      r.(ab := bus, subaddr := 0, busy := bus.Any(), ready := !bus.Any())
  }

  /** What the SRAM holds after the edge. */
  function Stored(r: Regs, m: seq<Byte>): seq<Byte>
    requires |m| % 4 == 0 && r.Ok(|m| / 4)
  {
    if r.XmWe() then m[r.XmAddr() := Lane(r.ab.wdata, r.subaddr)] else m
  }

  /** The data lines: driven by the SRAM on a plain read, floating otherwise. */
  function DataLines(r: Regs, m: seq<Byte>, floating: Byte): Byte
    requires |m| % 4 == 0 && r.Ok(|m| / 4)
  {
    if r.XmRe() && !r.XmWe() then m[r.XmAddr()] else floating
  }

  class Controller {
    var abRe: bool
    var abWe: Enables
    var abAddr: nat
    var abWdata: Word
    var rd0: Byte
    var rd1: Byte
    var rd2: Byte
    var busy: bool
    var subaddr: nat
    var ready: bool
    /** The SRAM chip. */
    const storage: array<Byte>

    ghost predicate Valid()
      reads this, storage
    {
      storage.Length % 4 == 0 && subaddr < 4 && (busy ==> abAddr < storage.Length / 4)
    }

    ghost function State(): Regs
      reads this
    {
      Regs(Request(abRe, abWe, abAddr, abWdata), rd0, rd1, rd2, busy, subaddr, ready)
    }

    constructor (chip: array<Byte>)
      requires chip.Length % 4 == 0
      ensures Valid() && storage == chip && !busy && ready
    {
      storage := chip;
      abRe, abWe, abAddr, abWdata := false, NO_WRITE, 0, Word(0, 0, 0, 0);
      rd0, rd1, rd2 := 0, 0, 0;
      busy, subaddr, ready := false, 0, true;
    }

    /** The SRAM chip at a rising edge. */
    method ClockChip()
      requires Valid()
      modifies storage
      ensures storage[..] == Stored(State(), old(storage[..]))
    {
      if busy && Enabled(abWe, subaddr) {
        storage[4 * abAddr + subaddr] := Lane(abWdata, subaddr);
      }
    }

    /** The registers at a rising edge, with `q` on the data lines. */
    method ClockRegs(bus: Request, q: Byte)
      requires Valid() && bus.addr < storage.Length / 4
      modifies this
      ensures Valid() && State() == Edge(old(State()), bus, q)
    {
      if busy && subaddr == 3 {
        subaddr := 0;
        ready := !bus.Any();
        busy := bus.Any();
        if bus.Any() {
          abRe, abWe, abAddr, abWdata := bus.re, bus.we, bus.addr, bus.wdata;
        }
      } else if busy {
        if subaddr == 0 {
          rd0 := q;
        } else if subaddr == 1 {
          rd1 := q;
        } else {
          rd2 := q;
        }
        ready := subaddr >= 2;
        subaddr := subaddr + 1;
      } else {
        // Start an access, or idle.
        abRe, abWe, abAddr, abWdata := bus.re, bus.we, bus.addr, bus.wdata;
        subaddr := 0;
        busy := bus.Any();
        ready := !bus.Any();
      }
    }

    /** One rising edge of controller and chip. */
    method Clock(bus: Request, floating: Byte)
      requires Valid() && bus.addr < storage.Length / 4
      modifies this, storage
      ensures Valid()
      ensures State() == Edge(old(State()), bus, DataLines(old(State()), old(storage[..]), floating))
      ensures storage[..] == Stored(old(State()), old(storage[..]))
    {
      hide Edge, Stored;
      var q := floating;
      if busy && abRe && !Enabled(abWe, subaddr) {
        q := storage[4 * abAddr + subaddr];
      }
      ClockChip();
      ClockRegs(bus, q);
    }
  }

  /* ---- The byte lanes ---- */

  datatype Size = Byte8 | Half | Full

  /** An instruction's access: a load if `load`, else a store. */
  datatype Access = Access(load: bool, sign: bool, size: Size, addr: nat, data: Word) {
    function Width(): nat { match size case Byte8 => 1 case Half => 2 case Full => 4 }
    predicate Aligned() { match size case Byte8 => true case Half => addr % 2 == 0 case Full => addr % 4 == 0 }
    predicate Ok(bytes: nat) { Aligned() && addr + Width() <= bytes && bytes % 4 == 0 }
  }

  /** Write enables and replicated data of an aligned access. */
  function Lanes(a: Access): Request {
    var low, we := a.addr % 4, !a.load;
    match a.size
    case Byte8 =>
      Request(a.load, Enables(we && low == 0, we && low == 1, we && low == 2, we && low == 3), a.addr / 4,
              Word(a.data.b0, a.data.b0, a.data.b0, a.data.b0))
    case Half =>
      Request(a.load && low % 2 == 0,
              Enables(we && low == 0, we && low == 0, we && low == 2, we && low == 2), a.addr / 4,
              Word(a.data.b0, a.data.b1, a.data.b0, a.data.b1))
    case Full =>
      Request(a.load && low == 0, Enables(we && low == 0, we && low == 0, we && low == 0, we && low == 0),
              a.addr / 4, a.data)
  }

  function Fill(sign: bool, top: Byte): Byte { if sign && top >= 128 then 255 else 0 }

  /** The register value picked out of the bus word. */
  function Extract(a: Access, w: Word): Word {
    match a.size
    case Byte8 =>
      var b := Lane(w, a.addr % 4);
      Word(b, Fill(a.sign, b), Fill(a.sign, b), Fill(a.sign, b))
    case Half =>
      var lo, hi := if a.addr % 4 < 2 then w.b0 else w.b2, if a.addr % 4 < 2 then w.b1 else w.b3;
      Word(lo, hi, Fill(a.sign, hi), Fill(a.sign, hi))
    case Full => w
  }

  /* ---- The little-endian byte array ---- */

  function Number(w: Word): nat { w.b0 + 256 * w.b1 + 65536 * w.b2 + 16777216 * w.b3 }

  /** The number in `n` bytes from `at` on. */
  function LittleEndian(m: seq<Byte>, at: nat, n: nat): nat
    requires at + n <= |m|
    decreases n
  {
    if n == 0 then 0 else (var b: int := m[at]; b + 256 * LittleEndian(m, at + 1, n - 1))
  }

  function HalfRange(n: nat): nat { if n == 1 then 128 else if n == 2 then 32768 else 0x8000_0000 }

  /** A loaded register: the number, or the two's complement number, modulo 2^32. */
  function Load(m: seq<Byte>, a: Access): int
    requires a.Ok(|m|)
  {
    var n := a.Width();
    var v := LittleEndian(m, a.addr, n);
    if a.sign && n < 4 && v >= HalfRange(n) then v - 2 * HalfRange(n) + 0x1_0000_0000 else v
  }

  function Store(m: seq<Byte>, a: Access): (m': seq<Byte>)
    requires a.Ok(|m|)
    ensures |m'| == |m|
  {
    match a.size
    case Byte8 => m[a.addr := a.data.b0]
    case Half => m[a.addr := a.data.b0][a.addr + 1 := a.data.b1]
    case Full => m[a.addr := a.data.b0][a.addr + 1 := a.data.b1][a.addr + 2 := a.data.b2][a.addr + 3 := a.data.b3]
  }

  function Perform(m: seq<Byte>, a: Access): (m': seq<Byte>)
    requires a.Ok(|m|)
    ensures |m'| == |m|
  {
    if a.load then m else Store(m, a)
  }

  predicate AllOk(s: seq<Access>, bytes: nat) { forall i | 0 <= i < |s| :: s[i].Ok(bytes) }

  /** The byte array after some accesses. */
  function Memory(m: seq<Byte>, s: seq<Access>): (m': seq<Byte>)
    requires AllOk(s, |m|)
    ensures |m'| == |m|
  {
    if s == [] then m else Perform(Memory(m, s[..|s| - 1]), s[|s| - 1])
  }

  /* ---- Lanes against the byte array ---- */

  /** The SRAM after the first `k` byte cycles of a request. */
  function Partial(m: seq<Byte>, r: Request, k: nat): (m': seq<Byte>)
    requires k <= 4 && 4 * r.addr + 3 < |m|
    ensures |m'| == |m|
  {
    if k == 0 then m
    else
      var p := Partial(m, r, k - 1);
      if Enabled(r.we, k - 1) then p[4 * r.addr + k - 1 := Lane(r.wdata, k - 1)] else p
  }

  lemma WordRoom(addr: nat, bytes: nat)
    requires addr < bytes && bytes % 4 == 0
    ensures 4 * (addr / 4) + 3 < bytes && addr / 4 < bytes / 4 && addr == 4 * (addr / 4) + addr % 4
  {
    var q, l, n := addr / 4, addr % 4, bytes / 4;
    assert addr == 4 * q + l && 0 <= l < 4 && bytes == 4 * n;
    if q >= n {
      assert false;
    }
  }

  lemma AlignedLow(a: Access)
    requires a.Aligned()
    ensures a.addr % 4 + a.Width() <= 4
  {
    var q, l := a.addr / 4, a.addr % 4;
    assert a.addr == 4 * q + l && 0 <= l < 4;
    if a.size.Half? {
      assert a.addr == 2 * (a.addr / 2);
      assert l != 3;
    }
  }

  lemma InWord(a: Access, bytes: nat)
    requires a.Ok(bytes)
    ensures 4 * (a.addr / 4) + 3 < bytes && a.addr / 4 < bytes / 4
    ensures a.addr == 4 * (a.addr / 4) + a.addr % 4 && a.addr % 4 + a.Width() <= 4
  {
    WordRoom(a.addr, bytes);
    AlignedLow(a);
  }

  lemma PartialUnfolds(m: seq<Byte>, r: Request)
    requires 4 * r.addr + 3 < |m|
    ensures Partial(m, r, 4) ==
      var m1 := if r.we.w0 then m[4 * r.addr := r.wdata.b0] else m;
      var m2 := if r.we.w1 then m1[4 * r.addr + 1 := r.wdata.b1] else m1;
      var m3 := if r.we.w2 then m2[4 * r.addr + 2 := r.wdata.b2] else m2;
      if r.we.w3 then m3[4 * r.addr + 3 := r.wdata.b3] else m3
  {
    assert Partial(m, r, 1) == if r.we.w0 then m[4 * r.addr := r.wdata.b0] else m;
    var m2 := Partial(m, r, 2);
    var m3 := Partial(m, r, 3);
  }

  /** Four byte cycles through the lanes are the store. */
  lemma LanesStore(m: seq<Byte>, a: Access)
    requires a.Ok(|m|)
    ensures 4 * Lanes(a).addr + 3 < |m| && Partial(m, Lanes(a), 4) == Perform(m, a)
  {
    hide Partial;
    InWord(a, |m|);
    PartialUnfolds(m, Lanes(a));
    match a.size
    case Byte8 => ByteLanes(a, a.addr % 4); hide Lanes;
    case Half => HalfLanes(a); hide Lanes;
    case Full => FullLanes(a); hide Lanes;
  }

  lemma ByteLanes(a: Access, low: nat)
    requires a.size.Byte8? && low == a.addr % 4
    ensures var we, b := !a.load, a.data.b0;
      && Lanes(a).addr == a.addr / 4
      && Lanes(a).we == Enables(we && low == 0, we && low == 1, we && low == 2, we && low == 3)
      && Lanes(a).wdata == Word(b, b, b, b)
  {
  }

  lemma FullLanes(a: Access)
    requires a.size.Full? && a.Aligned()
    ensures var we := !a.load;
      Lanes(a).addr == a.addr / 4 && Lanes(a).we == Enables(we, we, we, we) && Lanes(a).wdata == a.data
  {
  }

  lemma HalfLanes(a: Access)
    requires a.size.Half? && a.Aligned()
    ensures var low, we := a.addr == 4 * (a.addr / 4), !a.load;
      && (low || a.addr == 4 * (a.addr / 4) + 2)
      && Lanes(a).addr == a.addr / 4
      && Lanes(a).we == Enables(we && low, we && low, we && !low, we && !low)
      && Lanes(a).wdata == Word(a.data.b0, a.data.b1, a.data.b0, a.data.b1)
  {
  }

  lemma {:induction false} LoadsDoNotStore(m: seq<Byte>, a: Access, k: nat)
    requires a.Ok(|m|) && a.load && k <= 4
    ensures 4 * Lanes(a).addr + 3 < |m| && Partial(m, Lanes(a), k) == m
  {
    InWord(a, |m|);
    if k > 0 {
      LoadsDoNotStore(m, a, k - 1);
    }
  }

  /** The word read through the lanes is the loaded number. */
  lemma LanesLoad(m: seq<Byte>, a: Access, w: Word)
    requires a.Ok(|m|) && a.load
    requires forall k | 0 <= k < 4 && 4 * (a.addr / 4) + k < |m| :: Lane(w, k) == m[4 * (a.addr / 4) + k]
    ensures Number(Extract(a, w)) == Load(m, a)
  {
    InWord(a, |m|);
    var base, low := 4 * (a.addr / 4), a.addr % 4;
    assert Lane(w, 0) == m[base] && Lane(w, 1) == m[base + 1] && Lane(w, 2) == m[base + 2] && Lane(w, 3) == m[base + 3];
    LittleEndianUnfolds(m, a.addr, a.Width());
    ExtractLanes(a, w, low);
    hide Extract, LittleEndian;
    assert a.addr == base + low;
  }

  lemma ExtractLanes(a: Access, w: Word, low: nat)
    requires a.Aligned() && low == a.addr % 4
    ensures low + a.Width() <= 4
    ensures Extract(a, w) ==
      match a.size
      case Byte8 => var f := Fill(a.sign, Lane(w, low)); Word(Lane(w, low), f, f, f)
      case Half => var f := Fill(a.sign, Lane(w, low + 1)); Word(Lane(w, low), Lane(w, low + 1), f, f)
      case Full => Word(Lane(w, low), Lane(w, low + 1), Lane(w, low + 2), Lane(w, low + 3))
  {
  }

  lemma LittleEndianUnfolds(m: seq<Byte>, at: nat, n: nat)
    requires n in {1, 2, 4} && at + n <= |m|
    ensures LittleEndian(m, at, n) == Number(
      if n == 1 then Word(m[at], 0, 0, 0)
      else if n == 2 then Word(m[at], m[at + 1], 0, 0)
      else Word(m[at], m[at + 1], m[at + 2], m[at + 3]))
    decreases n
  {
    if n == 4 {
      LittleEndianUnfolds(m, at + 2, 2);
    } else if n == 2 {
      LittleEndianUnfolds(m, at + 1, 1);
    }
  }

  /* ---- Whole runs ---- */

  /** What the MEM stage offers in a cycle: an access, or nothing (`valid` false). */
  datatype Offer = Offer(valid: bool, a: Access)

  /** `held` is the request last presented: the one being served while `held.valid`. */
  datatype Machine = Machine(regs: Regs, store: seq<Byte>, held: Offer)

  datatype Accepted = Accepted(at: nat, a: Access)
  datatype Answer = Answer(at: nat, value: int)
  datatype Log = Log(now: nat, accepted: seq<Accepted>, answers: seq<Answer>)

  datatype Stimulus = Stimulus(offer: Offer, floating: Byte)

  predicate MachineOk(s: Machine) { |s.store| % 4 == 0 && s.regs.Ok(|s.store| / 4) }
  predicate StimulusOk(x: Stimulus, bytes: nat) { bytes % 4 == 0 && x.offer.a.Ok(bytes) }

  /** The request is repeated until it is ready. */
  function Presented(s: Machine, offer: Offer): Offer {
    if s.held.valid && !s.regs.ready then s.held else offer
  }

  function BusRequest(o: Offer): Request {
    if o.valid then Lanes(o.a) else Lanes(o.a).(re := false, we := NO_WRITE)
  }

  function Cycle(s: Machine, x: Stimulus): Machine
    requires MachineOk(s)
  {
    var q := DataLines(s.regs, s.store, x.floating);
    var p := Presented(s, x.offer);
    Machine(Edge(s.regs, BusRequest(p), q), Stored(s.regs, s.store), p)
  }

  function Record(s: Machine, l: Log, x: Stimulus): Log
    requires MachineOk(s)
  {
    var q := DataLines(s.regs, s.store, x.floating);
    Log(l.now + 1,
        if x.offer.valid && (!s.held.valid || s.regs.ready) then l.accepted + [Accepted(l.now, x.offer.a)]
        else l.accepted,
        if s.held.valid && s.regs.ready
        then l.answers + [Answer(l.now, Number(Extract(s.held.a, Word(s.regs.rd0, s.regs.rd1, s.regs.rd2, q))))]
        else l.answers)
  }

  function Accesses(s: seq<Accepted>): (r: seq<Access>)
    ensures |r| == |s| && forall i | 0 <= i < |s| :: r[i] == s[i].a
  {
    seq(|s|, i requires 0 <= i < |s| => s[i].a)
  }

  /** The log so far agrees with the byte array `m`, each answer four cycles after its acceptance. */
  ghost predicate LogOk(m: seq<Byte>, l: Log) {
    && AllOk(Accesses(l.accepted), |m|)
    && |l.answers| <= |l.accepted|
    && (forall i | 0 <= i < |l.answers| ::
      && l.answers[i].at == l.accepted[i].at + 4 < l.now
      && (l.accepted[i].a.load ==>
        l.answers[i].value == Load(Memory(m, Accesses(l.accepted)[..i]), l.accepted[i].a)))
  }

  /** The bytes read so far are those of the array. */
  ghost predicate Gathered(r: Regs, m: seq<Byte>, w: nat) {
    && 4 * w + 3 < |m|
    && (r.subaddr > 0 ==> r.rd0 == m[4 * w])
    && (r.subaddr > 1 ==> r.rd1 == m[4 * w + 1])
    && (r.subaddr > 2 ==> r.rd2 == m[4 * w + 2])
  }

  /** In the middle of access `a`, begun at array `before`. */
  ghost predicate Serving(s: Machine, before: seq<Byte>, a: Access) {
    && s.held == Offer(true, a) && a.Ok(|before|) && |s.store| == |before|
    && s.regs.busy && s.regs.subaddr < 4 && s.regs.ab == Lanes(a)
    && s.regs.ready == (s.regs.subaddr == 3)
    && 4 * Lanes(a).addr + 3 < |before|
    && s.store == Partial(before, Lanes(a), s.regs.subaddr)
    && (a.load ==> Gathered(s.regs, before, Lanes(a).addr))
  }

  ghost predicate Idle(s: Machine, m: seq<Byte>) {
    !s.held.valid && !s.regs.busy && s.regs.ready && s.regs.subaddr == 0 && s.store == m && |m| % 4 == 0
  }

  ghost predicate Inv(m: seq<Byte>, s: Machine, l: Log) {
    && LogOk(m, l)
    && (if s.held.valid then
          && |l.answers| + 1 == |l.accepted|
          && var last := l.accepted[|l.accepted| - 1];
          && last.at + 1 + s.regs.subaddr == l.now
          && Serving(s, Memory(m, Accesses(l.accepted)[..|l.answers|]), last.a)
        else
          && |l.answers| == |l.accepted|
          && Idle(s, Memory(m, Accesses(l.accepted))))
  }

  lemma AnyOfLanes(a: Access)
    requires a.Aligned()
    ensures Lanes(a).Any()
  {
  }

  /** Where an edge leads. */
  lemma Begin(s: Machine, m: seq<Byte>, x: Stimulus)
    requires Idle(s, m) && StimulusOk(x, |m|)
    ensures MachineOk(s)
    ensures if x.offer.valid then Serving(Cycle(s, x), m, x.offer.a) && Cycle(s, x).regs.subaddr == 0
            else Idle(Cycle(s, x), m)
  {
    hide Lanes;
    InOrder(x.offer.a, |m|);
    AnyOfLanes(x.offer.a);
  }

  lemma InOrder(a: Access, bytes: nat)
    requires a.Ok(bytes)
    ensures Lanes(a).addr == a.addr / 4 && 4 * Lanes(a).addr + 3 < bytes && Lanes(a).addr < bytes / 4
  {
  }

  lemma Continue(s: Machine, m: seq<Byte>, a: Access, x: Stimulus)
    requires Serving(s, m, a) && s.regs.subaddr < 3
    ensures MachineOk(s)
    ensures Serving(Cycle(s, x), m, a) && Cycle(s, x).regs.subaddr == s.regs.subaddr + 1
  {
    hide Lanes;
    InOrder(a, |m|);
    if a.load {
      LoadsDoNotStore(m, a, s.regs.subaddr);
      LoadEnables(a);
    }
  }

  lemma LoadEnables(a: Access)
    requires a.load && a.Aligned()
    ensures Lanes(a).we == NO_WRITE && Lanes(a).re
  {
  }

  lemma Finish(s: Machine, m: seq<Byte>, a: Access, x: Stimulus)
    requires Serving(s, m, a) && s.regs.subaddr == 3 && StimulusOk(x, |m|)
    ensures MachineOk(s)
    ensures if x.offer.valid then Serving(Cycle(s, x), Perform(m, a), x.offer.a) && Cycle(s, x).regs.subaddr == 0
            else Idle(Cycle(s, x), Perform(m, a))
    ensures a.load ==>
      Number(Extract(a, Word(s.regs.rd0, s.regs.rd1, s.regs.rd2, DataLines(s.regs, s.store, x.floating)))) == Load(m, a)
  {
    hide Lanes, Extract, Perform, Load;
    InOrder(a, |m|);
    InOrder(x.offer.a, |m|);
    AnyOfLanes(x.offer.a);
    LanesStore(m, a);
    if a.load {
      LoadsDoNotStore(m, a, 3);
      LoadEnables(a);
      LanesLoad(m, a, Word(s.regs.rd0, s.regs.rd1, s.regs.rd2, DataLines(s.regs, s.store, x.floating)));
    }
  }

  lemma MemoryGrows(m: seq<Byte>, s: seq<Accepted>, e: Accepted)
    requires AllOk(Accesses(s), |m|) && e.a.Ok(|m|)
    ensures AllOk(Accesses(s + [e]), |m|)
    ensures Accesses(s + [e]) == Accesses(s) + [e.a]
    ensures forall i | 0 <= i <= |s| :: Accesses(s + [e])[..i] == Accesses(s)[..i]
    ensures Memory(m, Accesses(s + [e])) == Perform(Memory(m, Accesses(s)), e.a)
  {
    var t := Accesses(s + [e]);
    assert t == Accesses(s) + [e.a];
    assert t[..|t| - 1] == Accesses(s);
  }

  /** A newly accepted access starts where the log's memory stands. */
  lemma Accept(m: seq<Byte>, s: Machine, l: Log, e: Accepted)
    requires LogOk(m, l) && |l.answers| == |l.accepted|
    requires e.a.Ok(|m|) && e.at + 1 + s.regs.subaddr == l.now
    requires s.held.valid && Serving(s, Memory(m, Accesses(l.accepted)), e.a)
    ensures Inv(m, s, l.(accepted := l.accepted + [e]))
  {
    hide Serving, Memory, LogOk;
    LogAccepts(m, l, e);
  }

  lemma LogAccepts(m: seq<Byte>, l: Log, e: Accepted)
    requires LogOk(m, l) && e.a.Ok(|m|)
    ensures LogOk(m, l.(accepted := l.accepted + [e]))
    ensures Accesses(l.accepted + [e])[..|l.accepted|] == Accesses(l.accepted)
  {
    hide Load, Memory;
    MemoryGrows(m, l.accepted, e);
    var l' := l.(accepted := l.accepted + [e]);
    forall i | 0 <= i < |l.answers|
      ensures l'.accepted[i] == l.accepted[i] && Accesses(l'.accepted)[..i] == Accesses(l.accepted)[..i]
    {
    }
  }

  /** An answer four cycles after its acceptance, with the loaded number, keeps the log right. */
  lemma Reply(m: seq<Byte>, l: Log, value: int)
    requires LogOk(m, l) && |l.answers| + 1 == |l.accepted|
    requires var e, n := l.accepted[|l.answers|], |l.answers|;
      l.now == e.at + 4 && (e.a.load ==> value == Load(Memory(m, Accesses(l.accepted)[..n]), e.a))
    ensures LogOk(m, l.(answers := l.answers + [Answer(l.now, value)], now := l.now + 1))
    ensures Memory(m, Accesses(l.accepted)) ==
      Perform(Memory(m, Accesses(l.accepted)[..|l.answers|]), l.accepted[|l.answers|].a)
  {
    hide Load, Perform;
  }

  /** Every cycle keeps the invariant. */
  lemma StepInv(m: seq<Byte>, s: Machine, l: Log, x: Stimulus)
    requires Inv(m, s, l) && StimulusOk(x, |m|)
    ensures MachineOk(s)
    ensures Inv(m, Cycle(s, x), Record(s, l, x))
  {
    hide Cycle, Load, Lanes, Extract, Perform, Memory;
    if !s.held.valid {
      Begin(s, Memory(m, Accesses(l.accepted)), x);
      if x.offer.valid {
        Accept(m, Cycle(s, x), l.(now := l.now + 1), Accepted(l.now, x.offer.a));
      }
    } else {
      var n := |l.answers|;
      var before, a := Memory(m, Accesses(l.accepted)[..n]), l.accepted[n].a;
      if s.regs.subaddr < 3 {
        Continue(s, before, a, x);
      } else {
        Finish(s, before, a, x);
        var value := Number(Extract(a, Word(s.regs.rd0, s.regs.rd1, s.regs.rd2,
          DataLines(s.regs, s.store, x.floating))));
        Reply(m, l, value);
        var l' := l.(answers := l.answers + [Answer(l.now, value)], now := l.now + 1);
        if x.offer.valid {
          Accept(m, Cycle(s, x), l', Accepted(l.now, x.offer.a));
        }
      }
    }
  }

  /** The machine and its log after some cycles from idle. */
  ghost function Run(m: seq<Byte>, xs: seq<Stimulus>): (r: (Machine, Log))
    requires |m| % 4 == 0 && forall i | 0 <= i < |xs| :: StimulusOk(xs[i], |m|)
    ensures Inv(m, r.0, r.1) && r.1.now == |xs|
  {
    if xs == [] then
      var s := Machine(Regs(Request(false, NO_WRITE, 0, Word(0, 0, 0, 0)), 0, 0, 0, false, 0, true), m,
                       Offer(false, Access(true, false, Byte8, 0, Word(0, 0, 0, 0))));
      (s, Log(0, [], []))
    else
      var p := Run(m, xs[..|xs| - 1]);
      StepInv(m, p.0, p.1, xs[|xs| - 1]);
      (Cycle(p.0, xs[|xs| - 1]), Record(p.0, p.1, xs[|xs| - 1]))
  }

  /**
   Whatever is offered and whatever floats on the data lines: every access accepted at cycle t is
   answered at t + 4, a load with the number the byte array holds after the accesses before it.
   */
  lemma RunIsByteArray(m: seq<Byte>, xs: seq<Stimulus>, i: nat)
    requires |m| % 4 == 0 && forall k | 0 <= k < |xs| :: StimulusOk(xs[k], |m|)
    ensures var l := Run(m, xs).1;
      i < |l.accepted| ==>
        && (i < |l.answers| <==> l.accepted[i].at + 4 < |xs|)
        && (i < |l.answers| ==> l.answers[i].at == l.accepted[i].at + 4)
        && (i < |l.answers| && l.accepted[i].a.load ==>
          AllOk(Accesses(l.accepted), |m|)
          && l.answers[i].value == Load(Memory(m, Accesses(l.accepted)[..i]), l.accepted[i].a))
  {
    hide Load, Memory, Gathered, Cycle, Record, Idle;
    var (s, l) := Run(m, xs);
    assert Inv(m, s, l);
    assert s.held.valid ==> s.regs.subaddr < 4;
    hide Serving;
  }
}
