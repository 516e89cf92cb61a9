/**
 The write-back cache as a phase machine over cache lines, together with the external memory it
 talks to, and the proof that the pair is indistinguishable from one flat memory.

 An address is kept as the three bit fields the cache slices it into: tag, line index, word offset.
 */
module CacheSpec {
  import opened Words

  /** Cache shape: words per line, lines per way, and number of distinct tags. */
  datatype Geometry = Geometry(lineSize: nat, lines: nat, tags: nat) {
    predicate Ok() { 2 <= lineSize && 2 <= lines && 1 <= tags }
  }

  datatype Addr = Addr(tag: nat, index: nat, off: nat) {
    predicate In(g: Geometry) { tag < g.tags && index < g.lines && off < g.lineSize }
  }

  datatype Request = Request(re: bool, we: Enables, addr: Addr, wdata: Word) {
    predicate Active() { re || we.Any() }
  }

  datatype Line = Line(valid: bool, dirty: bool, tag: nat)

  /** One set of the 2-way cache: both tags and the way to evict next. */
  datatype Row = Row(lines: seq<Line>, wnext: nat) {
    predicate Ok(g: Geometry) {
      && |lines| == 2 && wnext < 2
      && lines[0].tag < g.tags && lines[1].tag < g.tags
    }

    predicate Match(w: nat, tag: nat)
      requires w < |lines|
    {
      lines[w].valid && lines[w].tag == tag
    }

    predicate Hit(tag: nat)
      requires |lines| == 2
    {
      Match(0, tag) || Match(1, tag)
    }

    function HitWay(tag: nat): (w: nat)
      requires |lines| == 2
      ensures w < 2
      ensures Hit(tag) ==> Match(w, tag)
    {
      if Match(1, tag) then 1 else 0
    }
  }

  datatype Slot = Slot(way: nat, index: nat, off: nat)

  /** Serve: answering hits.  Evict(w, k): word k of way w goes out next.  Drain: the last evicted
      word is still being written.  Fill(w, k): word k of the new line is being read.  `held` is the
      address driven while external memory is unready. */
  datatype Phase = Serve | Evict(way: nat, k: nat, held: Addr) | Drain(held: Addr) | Fill(way: nat, k: nat)

  /** `last` is the word most recently written out. */
  datatype State = State(req: Request, rows: seq<Row>, data: map<Slot, Word>, phase: Phase, last: Word)

  /** What the external memory drives, and what the cache asks of it. */
  datatype XmIn = XmIn(ready: bool, rdata: Word)
  datatype XmOut = NoAccess | Read(addr: Addr) | Write(addr: Addr, wdata: Word)

  /** What the cache tells its client: wait, nothing was asked, or access complete. */
  datatype Answer = Wait | Idle | Done(rdata: Word)

  datatype Outcome = Outcome(next: State, answer: Answer, xm: XmOut)

  ghost predicate Shaped(g: Geometry, s: State) {
    && g.Ok()
    && |s.rows| == g.lines
    && (forall i | 0 <= i < g.lines :: s.rows[i].Ok(g))
    && (forall w, i, o | 0 <= w < 2 && 0 <= i < g.lines && 0 <= o < g.lineSize :: Slot(w, i, o) in s.data)
    && s.req.addr.In(g)
    && match s.phase {
      case Evict(w, k, held) => w < 2 && k < g.lineSize && held.In(g)
      case Drain(held) => held.In(g)
      case Fill(w, k) => w < 2 && k < g.lineSize
      case Serve => true
    }
  }

  function Row0(s: State): Row
    requires s.req.addr.index < |s.rows|
  {
    s.rows[s.req.addr.index]
  }

  function At(s: State, off: nat): Addr {
    s.req.addr.(off := off)
  }

  /** The client must hold its request while this is true. */
  ghost predicate Busy(g: Geometry, s: State)
    requires Shaped(g, s)
  {
    s.req.Active() && !(s.phase.Serve? && Row0(s).Hit(s.req.addr.tag))
  }

  /** Address of word `off` of the line being evicted. */
  ghost function VictimAt(g: Geometry, s: State, w: nat, off: nat): Addr
    requires Shaped(g, s) && w < 2
  {
    Addr(Row0(s).lines[w].tag, s.req.addr.index, off)
  }

  ghost function SetLine(g: Geometry, s: State, w: nat, line: Line, wnext: nat): seq<Row>
    requires Shaped(g, s) && w < 2
  {
    s.rows[s.req.addr.index := Row(Row0(s).lines[w := line], wnext)]
  }

  /** Answer the buffered request, or start making room for it.  The address to hold for the first
      evicted word is latched from an address bus nobody drives: `junk`. */
  ghost function ServeStep(g: Geometry, s: State, bus: Request, junk: Addr): Outcome
    requires Shaped(g, s)
  {
    var a, row := s.req.addr, Row0(s);
    var v := row.wnext;
    if !s.req.Active() then
      Outcome(s.(req := bus, phase := Serve), Idle, NoAccess)
    else if row.Hit(a.tag) then
      var slot := Slot(row.HitWay(a.tag), a.index, a.off);
      var s' := if s.req.we.Any() then
                  s.(data := s.data[slot := Merge(s.data[slot], s.req.wdata, s.req.we)],
                     rows := SetLine(g, s, slot.way, Line(true, true, a.tag), row.wnext))
                else s;
      Outcome(s'.(req := bus, phase := Serve), Done(s.data[slot]), NoAccess)
    else if row.lines[v].dirty then
      Outcome(s.(rows := SetLine(g, s, v, Line(true, false, row.lines[v].tag), v), phase := Evict(v, 0, junk)),
              Wait, NoAccess)
    else
      Outcome(s.(rows := SetLine(g, s, v, Line(true, false, a.tag), 1 - v), phase := Fill(v, 0)),
              Wait, Read(At(s, 0)))
  }

  /** One clock edge of the phase machine. */
  ghost function Next(g: Geometry, s: State, bus: Request, xm: XmIn, junk: Addr): Outcome
    requires Shaped(g, s)
  {
    var last := g.lineSize - 1;
    match s.phase
    case Serve => ServeStep(g, s, bus, junk)
    case Drain(held) =>
      if xm.ready then ServeStep(g, s, bus, junk) else Outcome(s, Wait, Write(held, s.last))
    case Evict(w, k, held) =>
      if !xm.ready then Outcome(s, Wait, Write(held, s.last))
      else
        var a, v := VictimAt(g, s, w, k), s.data[Slot(w, s.req.addr.index, k)];
        Outcome(s.(phase := if k == last then Drain(a) else Evict(w, k + 1, a), last := v), Wait, Write(a, v))
    case Fill(w, k) =>
      if !xm.ready then Outcome(s, Wait, Read(At(s, k)))
      else
        var s' := s.(data := s.data[Slot(w, s.req.addr.index, k) := xm.rdata]);
        if k == last then Outcome(s'.(phase := Serve), Wait, NoAccess)
        else Outcome(s'.(phase := Fill(w, k + 1)), Wait, Read(At(s, k + 1)))
  }

  /* ---- The cache together with an external memory of unknown speed ---- */

  /** `pend` is the access the memory has taken over and not yet finished. */
  datatype System = System(cache: State, mem: map<Addr, Word>, pend: XmOut)

  /** What the environment chooses in one cycle.  `ready` finishes the pending access and takes over
      the one presented; with nothing pending an unready memory may take one over too, if it `takes`.
      `noise` and `junk` are what undriven data and address buses carry. */
  datatype Tick = Tick(bus: Request, ready: bool, takes: bool, noise: Word, junk: Addr)

  /** Memory and pending access stay within the address space. */
  ghost predicate Sound(g: Geometry, s: System) {
    && Shaped(g, s.cache)
    && (forall a: Addr | a.In(g) :: a in s.mem)
    && (s.pend.Read? ==> s.pend.addr.In(g))
  }

  /** One clock edge of cache and memory. */
  ghost function Cycle(g: Geometry, s: System, t: Tick): (System, Answer)
    requires Sound(g, s)
  {
    var rdata := if t.ready && s.pend.Read? then s.mem[s.pend.addr] else t.noise;
    var r := Next(g, s.cache, t.bus, XmIn(t.ready, rdata), t.junk);
    var taken := t.ready || (s.pend == NoAccess && t.takes);
    var mem' := if taken && r.xm.Write? then s.mem[r.xm.addr := r.xm.wdata] else s.mem;
    (System(r.next, mem', if taken then r.xm else s.pend), r.answer)
  }

  /** The memory takes over what the cache drives in an unready first cycle of an eviction. */
  ghost predicate Stray(s: System, t: Tick) {
    s.cache.phase.Evict? && s.cache.phase.k == 0 && s.pend == NoAccess && !t.ready && t.takes
  }

  /** The memory shows ready to a cache that waits for a read it has not taken over. */
  ghost predicate Hollow(s: System, t: Tick) {
    s.cache.phase.Fill? && s.pend == NoAccess && t.ready
  }

  ghost predicate Unsafe(s: System, t: Tick) { Stray(s, t) || Hollow(s, t) }

  /** How many leading words of a line are settled: all, except in the line being moved. */
  ghost function Settled(g: Geometry, s: State, w: nat, i: nat): nat {
    match s.phase
    case Evict(v, k, _) => if v == w && i == s.req.addr.index then k else g.lineSize
    case Fill(v, k) => if v == w && i == s.req.addr.index then k else g.lineSize
    case _ => g.lineSize
  }

  /** The first `n` words of a way equal external memory. */
  ghost predicate Synced(g: Geometry, s: State, mem: map<Addr, Word>, w: nat, i: nat, n: nat)
    requires Shaped(g, s) && w < 2 && i < g.lines
  {
    forall o | 0 <= o < n <= g.lineSize ::
      Addr(s.rows[i].lines[w].tag, i, o) in mem &&
      s.data[Slot(w, i, o)] == mem[Addr(s.rows[i].lines[w].tag, i, o)]
  }

  /** The way to evict next is the last one to be filled. */
  ghost predicate RowInv(row: Row)
    requires |row.lines| == 2 && row.wnext < 2
  {
    && (row.lines[row.wnext].valid ==> row.lines[1 - row.wnext].valid)
    && (row.lines[0].valid && row.lines[1].valid ==> row.lines[0].tag != row.lines[1].tag)
    && (row.lines[0].dirty ==> row.lines[0].valid)
    && (row.lines[1].dirty ==> row.lines[1].valid)
  }

  /** A clean line equals external memory, as far as it is settled. */
  ghost predicate CleanInv(g: Geometry, s: System, i: nat, w: nat)
    requires Shaped(g, s.cache) && i < g.lines && w < 2
  {
    var line := s.cache.rows[i].lines[w];
    line.valid && !line.dirty ==> Synced(g, s.cache, s.mem, w, i, Settled(g, s.cache, w, i))
  }

  /** What each phase knows: the line it moves, and the one access that may be pending. */
  ghost predicate PhaseInv(g: Geometry, s: System)
    requires Shaped(g, s.cache)
  {
    var c := s.cache;
    var row, tag := Row0(c), c.req.addr.tag;
    match c.phase
    case Serve => s.pend == NoAccess
    case Evict(w, k, held) =>
      && c.req.Active() && !row.Hit(tag) && w == row.wnext
      && row.lines[w].valid && !row.lines[w].dirty
      && (if k == 0 then s.pend == NoAccess || s.pend == Write(held, c.last)
          else
            && held == VictimAt(g, c, w, k - 1) && c.last == c.data[Slot(w, c.req.addr.index, k - 1)]
            && s.pend == Write(held, c.last))
    case Drain(held) =>
      var w := row.wnext;
      && c.req.Active() && !row.Hit(tag) && row.lines[w].valid && !row.lines[w].dirty
      && held == VictimAt(g, c, w, g.lineSize - 1) && c.last == c.data[Slot(w, c.req.addr.index, g.lineSize - 1)]
      && s.pend == Write(held, c.last)
    case Fill(w, k) =>
      && c.req.Active() && row.Match(w, tag) && !row.lines[w].dirty
      && (s.pend == Read(At(c, k)) || (k == 0 && s.pend == NoAccess))
  }

  ghost predicate Inv(g: Geometry, s: System) {
    && Sound(g, s)
    && (forall i | 0 <= i < g.lines :: RowInv(s.cache.rows[i]))
    && (forall i, w | 0 <= i < g.lines && 0 <= w < 2 :: CleanInv(g, s, i, w))
    && PhaseInv(g, s)
  }

  /** The flat memory the system implements: the cached word if resident, else external memory. */
  ghost function View(g: Geometry, s: System, a: Addr): Word
    requires Inv(g, s) && a.In(g)
  {
    var row := s.cache.rows[a.index];
    if row.Hit(a.tag) && a.off < Settled'(s.cache, row.HitWay(a.tag), a)
    then s.cache.data[Slot(row.HitWay(a.tag), a.index, a.off)]
    else s.mem[a]
  }

  /** Words below this offset of the resident line hold data; only a line being filled has a limit. */
  ghost function Settled'(s: State, w: nat, a: Addr): nat {
    if s.phase.Fill? && s.phase.way == w && a.index == s.req.addr.index then s.phase.k else a.off + 1
  }

  /** What a request does to one word of a flat memory. */
  function Effect(req: Request, a: Addr, w: Word): Word {
    if a == req.addr then Merge(w, req.wdata, req.we) else w
  }

  /** The client repeats a request until it is answered.  Memory may do as it likes. */
  ghost predicate Legal(g: Geometry, s: System, t: Tick)
    requires Shaped(g, s.cache)
  {
    && t.bus.addr.In(g) && t.junk.In(g)
    && (Busy(g, s.cache) ==> t.bus == s.cache.req)
  }

  ghost predicate Refines(g: Geometry, s: System, s': System, answer: Answer)
    requires Inv(g, s)
  {
    && Inv(g, s')
    && (forall a: Addr | a.In(g) ::
          View(g, s', a) == if answer.Done? then Effect(s.cache.req, a, View(g, s, a)) else View(g, s, a))
    && (answer.Done? ==> answer.rdata == View(g, s, s.cache.req.addr))
  }

  lemma ServeShaped(g: Geometry, s: State, bus: Request, junk: Addr)
    requires Shaped(g, s) && bus.addr.In(g) && junk.In(g)
    ensures var o := ServeStep(g, s, bus, junk); Shaped(g, o.next) && (!o.xm.NoAccess? ==> o.xm.addr.In(g))
  {
  }

  lemma CycleSound(g: Geometry, s: System, t: Tick)
    requires Sound(g, s) && Legal(g, s, t)
    ensures Sound(g, Cycle(g, s, t).0)
  {
    hide ServeStep;
    ServeShaped(g, s.cache, t.bus, t.junk);
  }

  /** An unready memory holds the cache up unless it is serving hits; a late taken-over read is still
      the right one. */
  lemma HoldRefines(g: Geometry, s: System, t: Tick)
    requires Inv(g, s) && Legal(g, s, t) && !t.ready && !s.cache.phase.Serve? && !Stray(s, t)
    ensures var (s', answer) := Cycle(g, s, t);
      Refines(g, s, s', answer) && s'.cache == s.cache && s'.mem == s.mem && answer == Wait
  {
    var s' := Cycle(g, s, t).0;
    forall i, w | 0 <= i < g.lines && 0 <= w < 2 ensures CleanInv(g, s', i, w) {
      assert CleanInv(g, s, i, w);
    }
  }

  lemma IdleRefines(g: Geometry, s: System, t: Tick)
    requires Inv(g, s) && Legal(g, s, t)
    requires s.cache.phase.Serve? && !s.cache.req.Active()
    ensures var (s', answer) := Cycle(g, s, t); Refines(g, s, s', answer)
  {
    var s' := Cycle(g, s, t).0;
    assert Inv(g, s') by {
      forall i, w | 0 <= i < g.lines && 0 <= w < 2 ensures CleanInv(g, s', i, w) {
        assert CleanInv(g, s, i, w);
      }
    }
  }

  lemma HitInv(g: Geometry, s: System, t: Tick)
    requires Inv(g, s) && Legal(g, s, t)
    requires s.cache.phase.Serve? && s.cache.req.Active() && Row0(s.cache).Hit(s.cache.req.addr.tag)
    ensures Inv(g, Cycle(g, s, t).0)
  {
    var s' := Cycle(g, s, t).0;
    forall i, w | 0 <= i < g.lines && 0 <= w < 2 ensures CleanInv(g, s', i, w) {
      assert CleanInv(g, s, i, w);
    }
  }

  lemma HitRefines(g: Geometry, s: System, t: Tick)
    requires Inv(g, s) && Legal(g, s, t)
    requires s.cache.phase.Serve? && s.cache.req.Active() && Row0(s.cache).Hit(s.cache.req.addr.tag)
    ensures var (s', answer) := Cycle(g, s, t); Refines(g, s, s', answer)
  {
    HitInv(g, s, t);
  }

  lemma DirtyMissInv(g: Geometry, s: System, t: Tick)
    requires Inv(g, s) && Legal(g, s, t)
    requires s.cache.phase.Serve? && s.cache.req.Active() && !Row0(s.cache).Hit(s.cache.req.addr.tag)
    requires Row0(s.cache).lines[Row0(s.cache).wnext].dirty
    ensures Inv(g, Cycle(g, s, t).0)
  {
    var s' := Cycle(g, s, t).0;
    forall i, w | 0 <= i < g.lines && 0 <= w < 2 ensures CleanInv(g, s', i, w) {
      assert CleanInv(g, s, i, w);
    }
  }

  lemma DirtyMissRefines(g: Geometry, s: System, t: Tick)
    requires Inv(g, s) && Legal(g, s, t)
    requires s.cache.phase.Serve? && s.cache.req.Active() && !Row0(s.cache).Hit(s.cache.req.addr.tag)
    requires Row0(s.cache).lines[Row0(s.cache).wnext].dirty
    ensures var (s', answer) := Cycle(g, s, t); Refines(g, s, s', answer)
  {
    DirtyMissInv(g, s, t);
  }

  lemma CleanMissInv(g: Geometry, s: System, t: Tick)
    requires Inv(g, s) && Legal(g, s, t)
    requires s.cache.phase.Serve? || (s.cache.phase.Drain? && t.ready)
    requires s.cache.req.Active() && !Row0(s.cache).Hit(s.cache.req.addr.tag)
    requires !Row0(s.cache).lines[Row0(s.cache).wnext].dirty
    ensures Inv(g, Cycle(g, s, t).0)
  {
    var s' := Cycle(g, s, t).0;
    forall i, w | 0 <= i < g.lines && 0 <= w < 2 ensures CleanInv(g, s', i, w) {
      assert CleanInv(g, s, i, w);
    }
  }

  lemma CleanMissRefines(g: Geometry, s: System, t: Tick)
    requires Inv(g, s) && Legal(g, s, t)
    requires s.cache.phase.Serve? || (s.cache.phase.Drain? && t.ready)
    requires s.cache.req.Active() && !Row0(s.cache).Hit(s.cache.req.addr.tag)
    requires !Row0(s.cache).lines[Row0(s.cache).wnext].dirty
    ensures var (s', answer) := Cycle(g, s, t); Refines(g, s, s', answer)
  {
    CleanMissInv(g, s, t);
    var s' := Cycle(g, s, t).0;
    forall a: Addr | a.In(g) ensures View(g, s', a) == View(g, s, a) {
      var row := s.cache.rows[a.index];
      assert RowInv(row) && CleanInv(g, s, a.index, row.HitWay(a.tag));
      if row.Hit(a.tag) {
        assert Slot(row.HitWay(a.tag), a.index, a.off) in s.cache.data;
      }
      if a.index == s.cache.req.addr.index && row.Hit(a.tag) && row.HitWay(a.tag) == row.wnext {
        assert a == Addr(row.lines[row.wnext].tag, a.index, a.off);
      }
    }
  }

  lemma EvictInv(g: Geometry, s: System, t: Tick)
    requires Inv(g, s) && Legal(g, s, t)
    requires s.cache.phase.Evict? && t.ready
    ensures Inv(g, Cycle(g, s, t).0)
  {
    var s' := Cycle(g, s, t).0;
    forall i, w | 0 <= i < g.lines && 0 <= w < 2 ensures CleanInv(g, s', i, w) {
      assert CleanInv(g, s, i, w);
    }
  }

  lemma EvictRefines(g: Geometry, s: System, t: Tick)
    requires Inv(g, s) && Legal(g, s, t)
    requires s.cache.phase.Evict? && t.ready
    ensures var (s', answer) := Cycle(g, s, t); Refines(g, s, s', answer)
  {
    EvictInv(g, s, t);
    var s' := Cycle(g, s, t).0;
    assert s'.cache.rows == s.cache.rows && s'.cache.data == s.cache.data;
    forall a: Addr | a.In(g) ensures View(g, s', a) == View(g, s, a) {
      assert RowInv(s.cache.rows[a.index]);
    }
  }

  lemma FillInv(g: Geometry, s: System, t: Tick)
    requires Inv(g, s) && Legal(g, s, t)
    requires s.cache.phase.Fill? && t.ready && !Hollow(s, t)
    ensures Inv(g, Cycle(g, s, t).0)
  {
    var s' := Cycle(g, s, t).0;
    forall i, w | 0 <= i < g.lines && 0 <= w < 2 ensures CleanInv(g, s', i, w) {
      assert CleanInv(g, s, i, w);
    }
  }

  lemma FillRefines(g: Geometry, s: System, t: Tick)
    requires Inv(g, s) && Legal(g, s, t)
    requires s.cache.phase.Fill? && t.ready && !Hollow(s, t)
    ensures var (s', answer) := Cycle(g, s, t); Refines(g, s, s', answer)
  {
    var s' := Cycle(g, s, t).0;
    FillInv(g, s, t);
    forall a: Addr | a.In(g) ensures View(g, s', a) == View(g, s, a) {
      var row := s.cache.rows[a.index];
      assert s'.cache.rows[a.index] == row && RowInv(row);
      if a.index == s.cache.req.addr.index && row.HitWay(a.tag) == s.cache.phase.way && row.Hit(a.tag) {
        assert a.tag == s.cache.req.addr.tag;
      } else if row.Hit(a.tag) {
        var slot := Slot(row.HitWay(a.tag), a.index, a.off);
        assert s'.cache.data[slot] == s.cache.data[slot];
      }
    }
  }

  /** One cycle, whatever the phase: the invariant is kept, the flat memory changes exactly by the
      access that completes, and a completed read returns its old contents. */
  lemma CycleRefines(g: Geometry, s: System, t: Tick)
    requires Inv(g, s) && Legal(g, s, t) && !Unsafe(s, t)
    ensures var (s', answer) := Cycle(g, s, t); Refines(g, s, s', answer)
  {
    if !t.ready && !s.cache.phase.Serve? {
      HoldRefines(g, s, t);
    } else if s.cache.phase.Evict? {
      EvictRefines(g, s, t);
    } else if s.cache.phase.Fill? {
      FillRefines(g, s, t);
    } else if !s.cache.req.Active() {
      IdleRefines(g, s, t);
    } else if Row0(s.cache).Hit(s.cache.req.addr.tag) {
      HitRefines(g, s, t);
    } else if Row0(s.cache).lines[Row0(s.cache).wnext].dirty {
      DirtyMissRefines(g, s, t);
    } else {
      CleanMissRefines(g, s, t);
    }
  }

  /** The first of the remaining cases: whatever word the undriven address names, if it is not resident, becomes the
      last word of an earlier eviction. */
  lemma StrayWrites(g: Geometry, s: System, t: Tick)
    requires Inv(g, s) && Legal(g, s, t) && Stray(s, t)
    requires var a := s.cache.phase.held; !s.cache.rows[a.index].Hit(a.tag)
    ensures var (s', answer) := Cycle(g, s, t);
      && answer == Wait && s'.cache == s.cache && Inv(g, s')
      && forall a: Addr | a.In(g) ::
           View(g, s', a) == if a == s.cache.phase.held then s.cache.last else View(g, s, a)
  {
    var s' := Cycle(g, s, t).0;
    forall i, w | 0 <= i < g.lines && 0 <= w < 2 ensures CleanInv(g, s', i, w) {
      assert CleanInv(g, s, i, w);
    }
  }

  /** The second: it is as if external memory held what its idle data bus carried. */
  lemma HollowFills(g: Geometry, s: System, t: Tick)
    requires Inv(g, s) && Legal(g, s, t) && Hollow(s, t)
    ensures var (s', answer) := Cycle(g, s, t);
      var a := At(s.cache, 0);
      var shadow := s'.(mem := s.mem[a := t.noise]);
      && answer == Wait && s'.mem == s.mem && a.In(g) && Inv(g, shadow)
      && s'.cache.phase == Fill(s.cache.phase.way, 1) && s'.pend == Read(At(s.cache, 1))
      && s'.cache.req == s.cache.req
      && forall x: Addr | x.In(g) :: View(g, shadow, x) == if x == a then t.noise else View(g, s, x)
  {
    var s' := Cycle(g, s, t).0;
    var a := At(s.cache, 0);
    var shadow := s'.(mem := s.mem[a := t.noise]);
    forall i, w | 0 <= i < g.lines && 0 <= w < 2 ensures CleanInv(g, shadow, i, w) {
      assert CleanInv(g, s, i, w) && RowInv(s.cache.rows[i]);
    }
    assert Inv(g, shadow);
    forall x: Addr | x.In(g) ensures View(g, shadow, x) == if x == a then t.noise else View(g, s, x) {
      assert RowInv(s.cache.rows[x.index]);
    }
  }

  /** Byte by byte: a completed access puts down the enabled bytes of its data and leaves every other
      byte of memory as it was. */
  lemma AccessWritesBytes(g: Geometry, s: System, t: Tick, a: Addr, k: nat)
    requires Inv(g, s) && Legal(g, s, t) && !Unsafe(s, t) && Cycle(g, s, t).1.Done? && a.In(g) && k < 4
    ensures var s', req := Cycle(g, s, t).0, s.cache.req;
      Inv(g, s') && Lane(View(g, s', a), k) ==
        if a == req.addr && Enabled(req.we, k) then Lane(req.wdata, k) else Lane(View(g, s, a), k)
  {
    CycleRefines(g, s, t);
    MergeLanes(View(g, s, a), s.cache.req.wdata, s.cache.req.we, k);
    hide Inv, View, Cycle, Merge;
  }

  /* ---- Whole runs ---- */

  /** A completed access and the data the client saw with it. */
  datatype Event = Event(req: Request, rdata: Word)

  /** The environment keeps to both bus protocols throughout the run. */
  ghost predicate LegalRun(g: Geometry, s: System, ticks: seq<Tick>)
    requires Sound(g, s)
    decreases |ticks|
  {
    ticks == [] ||
    (Legal(g, s, ticks[0]) && (CycleSound(g, s, ticks[0]); LegalRun(g, Cycle(g, s, ticks[0]).0, ticks[1..])))
  }

  /** The system after a run. */
  ghost function After(g: Geometry, s: System, ticks: seq<Tick>): (s': System)
    requires Sound(g, s) && LegalRun(g, s, ticks)
    ensures Sound(g, s')
    decreases |ticks|
  {
    if ticks == [] then s
    else
      CycleSound(g, s, ticks[0]);
      After(g, Cycle(g, s, ticks[0]).0, ticks[1..])
  }

  /** Memory takes over no first cycle of an eviction while unready, and is ready to no read it has not
      taken over. */
  ghost predicate AllSafe(g: Geometry, s: System, ticks: seq<Tick>)
    requires Sound(g, s) && LegalRun(g, s, ticks)
    decreases |ticks|
  {
    ticks == [] ||
    (!Unsafe(s, ticks[0]) && (CycleSound(g, s, ticks[0]); AllSafe(g, Cycle(g, s, ticks[0]).0, ticks[1..])))
  }

  function Entry(req: Request, answer: Answer): seq<Event> {
    if answer.Done? then [Event(req, answer.rdata)] else []
  }

  /** The accesses a run completes, in order. */
  ghost function Log(g: Geometry, s: System, ticks: seq<Tick>): seq<Event>
    requires Sound(g, s) && LegalRun(g, s, ticks)
    decreases |ticks|
  {
    if ticks == [] then []
    else
      CycleSound(g, s, ticks[0]);
      var (s', answer) := Cycle(g, s, ticks[0]);
      Entry(s.cache.req, answer) + Log(g, s', ticks[1..])
  }

  lemma RunUnfolds(g: Geometry, s: System, ticks: seq<Tick>)
    requires Sound(g, s) && LegalRun(g, s, ticks) && ticks != []
    ensures var t := ticks[0];
      var (s', answer) := Cycle(g, s, t);
      && Legal(g, s, t) && Sound(g, s') && LegalRun(g, s', ticks[1..])
      && Log(g, s, ticks) == Entry(s.cache.req, answer) + Log(g, s', ticks[1..])
      && After(g, s, ticks) == After(g, s', ticks[1..])
      && (AllSafe(g, s, ticks) <==> !Unsafe(s, t) && AllSafe(g, s', ticks[1..]))
  {
    CycleSound(g, s, ticks[0]);
  }

  lemma RunOfNothing(g: Geometry, s: System)
    requires Sound(g, s)
    ensures LegalRun(g, s, []) && Log(g, s, []) == [] && AllSafe(g, s, []) && After(g, s, []) == s
  {
  }

  /** A log a flat memory could have produced: every access sees the latest written bytes. */
  ghost predicate FlatLog(flat: map<Addr, Word>, log: seq<Event>)
    decreases |log|
  {
    log == [] ||
    var Event(req, rdata) := log[0];
    && req.addr in flat
    && rdata == flat[req.addr]
    && FlatLog(flat[req.addr := Merge(rdata, req.wdata, req.we)], log[1..])
  }

  /** Byte `k` at `a` after some accesses: that of the latest write to it, or memory's own. */
  function LatestByte(mem: map<Addr, Word>, log: seq<Event>, a: Addr, k: nat): Byte
    requires a in mem && k < 4
  {
    if log == [] then Lane(mem[a], k)
    else
      var req := log[|log| - 1].req;
      if req.addr == a && Enabled(req.we, k) then Lane(req.wdata, k) else LatestByte(mem, log[..|log| - 1], a, k)
  }

  /** Byte `k` of the data of access `i`. */
  ghost predicate SeesLatest(mem: map<Addr, Word>, log: seq<Event>, i: nat, k: nat)
    requires i < |log| && k < 4
  {
    log[i].req.addr in mem && Lane(log[i].rdata, k) == LatestByte(mem, log[..i], log[i].req.addr, k)
  }

  lemma {:induction false} LatestFirst(mem: map<Addr, Word>, log: seq<Event>, a: Addr, k: nat)
    requires log != [] && a in mem && k < 4
    ensures var req := log[0].req;
      req.addr in mem ==>
        LatestByte(mem, log, a, k) ==
          LatestByte(mem[req.addr := Merge(mem[req.addr], req.wdata, req.we)], log[1..], a, k)
  {
    var req, n := log[0].req, |log| - 1;
    if req.addr in mem {
      if n == 0 {
        assert log[..0] == [] && log[1..] == [];
        MergeLanes(mem[req.addr], req.wdata, req.we, k);
      } else {
        LatestFirst(mem, log[..n], a, k);
        assert log[..n][1..] == log[1..][..n - 1] && log[..n][0] == log[0] && log[1..][n - 1] == log[n];
      }
    }
  }

  /** A log is that of a flat memory exactly if every byte of every access is the one the latest write
      put there. */
  lemma {:induction false} FlatLogBytes(mem: map<Addr, Word>, log: seq<Event>)
    ensures FlatLog(mem, log) <==> forall i, k | 0 <= i < |log| && 0 <= k < 4 :: SeesLatest(mem, log, i, k)
    decreases |log|
  {
    if log != [] {
      var Event(req, rdata) := log[0];
      FirstSees(mem, log);
      if req.addr in mem && rdata == mem[req.addr] {
        var mem' := mem[req.addr := Merge(rdata, req.wdata, req.we)];
        FlatLogBytes(mem', log[1..]);
        forall i, k | 1 <= i < |log| && 0 <= k < 4
          ensures SeesLatest(mem, log, i, k) <==> SeesLatest(mem', log[1..], i - 1, k)
        {
          assert log[..i][0] == log[0] && log[..i][1..] == log[1..][..i - 1];
          if log[i].req.addr in mem {
            LatestFirst(mem, log[..i], log[i].req.addr, k);
          }
        }
        Shifted(mem, mem', log);
      }
    }
  }

  lemma FirstSees(mem: map<Addr, Word>, log: seq<Event>)
    requires log != []
    ensures var Event(req, rdata) := log[0];
      (req.addr in mem && rdata == mem[req.addr]) <==> forall k | 0 <= k < 4 :: SeesLatest(mem, log, 0, k)
  {
    var Event(req, rdata) := log[0];
    assert log[..0] == [];
    if forall k | 0 <= k < 4 :: SeesLatest(mem, log, 0, k) {
      assert SeesLatest(mem, log, 0, 0);
      forall k | 0 <= k < 4 ensures Lane(rdata, k) == Lane(mem[req.addr], k) {
        assert SeesLatest(mem, log, 0, k);
      }
      SameLanes(rdata, mem[req.addr]);
    }
  }

  lemma Shifted(mem: map<Addr, Word>, mem': map<Addr, Word>, log: seq<Event>)
    requires log != [] && forall k | 0 <= k < 4 :: SeesLatest(mem, log, 0, k)
    requires forall i, k | 1 <= i < |log| && 0 <= k < 4 ::
      SeesLatest(mem, log, i, k) <==> SeesLatest(mem', log[1..], i - 1, k)
    ensures (forall i, k | 0 <= i < |log| && 0 <= k < 4 :: SeesLatest(mem, log, i, k))
       <==> (forall i, k | 0 <= i < |log[1..]| && 0 <= k < 4 :: SeesLatest(mem', log[1..], i, k))
  {
    hide SeesLatest;
    if forall i, k | 0 <= i < |log| && 0 <= k < 4 :: SeesLatest(mem, log, i, k) {
      forall i, k | 0 <= i < |log[1..]| && 0 <= k < 4 ensures SeesLatest(mem', log[1..], i, k) {
        assert SeesLatest(mem, log, i + 1, k);
      }
    }
    if forall i, k | 0 <= i < |log[1..]| && 0 <= k < 4 :: SeesLatest(mem', log[1..], i, k) {
      forall i, k | 0 <= i < |log| && 0 <= k < 4 ensures SeesLatest(mem, log, i, k) {
        if i > 0 {
          assert SeesLatest(mem', log[1..], i - 1, k);
        }
      }
    }
  }

  ghost predicate Shows(g: Geometry, s: System, flat: map<Addr, Word>)
    requires Inv(g, s)
  {
    forall a: Addr | a.In(g) :: a in flat && flat[a] == View(g, s, a)
  }

  /** The flat memory after a cycle. */
  function Kept(flat: map<Addr, Word>, req: Request, answer: Answer): map<Addr, Word> {
    if answer.Done? && req.addr in flat
    then flat[req.addr := Merge(flat[req.addr], req.wdata, req.we)]
    else flat
  }

  lemma ShowsNext(g: Geometry, s: System, s': System, answer: Answer, flat: map<Addr, Word>)
    requires Inv(g, s) && Refines(g, s, s', answer) && Shows(g, s, flat)
    ensures Shows(g, s', Kept(flat, s.cache.req, answer))
    ensures answer.Done? ==> s.cache.req.addr in flat && answer.rdata == flat[s.cache.req.addr]
  {
    hide Inv, View;
    assert s.cache.req.addr.In(g) by { InvShape(g, s); }
  }

  lemma InvShape(g: Geometry, s: System)
    requires Inv(g, s)
    ensures Sound(g, s) && s.cache.req.addr.In(g)
  {
  }

  lemma FlatEntry(flat: map<Addr, Word>, req: Request, answer: Answer, log: seq<Event>)
    requires answer.Done? ==> req.addr in flat && answer.rdata == flat[req.addr]
    ensures FlatLog(flat, Entry(req, answer) + log) <==> FlatLog(Kept(flat, req, answer), log)
  {
    if answer.Done? {
      var whole := Entry(req, answer) + log;
      assert whole[0] == Event(req, answer.rdata) && whole[1..] == log;
    } else {
      assert Entry(req, answer) + log == log;
    }
  }

  /** Over any run of safe cycles, whatever the wait states and however late accesses are taken over,
      the completed accesses are those of one flat memory. */
  lemma {:induction false} RunIsFlat(g: Geometry, s: System, ticks: seq<Tick>, flat: map<Addr, Word>)
    requires Inv(g, s) && LegalRun(g, s, ticks) && AllSafe(g, s, ticks) && Shows(g, s, flat)
    ensures FlatLog(flat, Log(g, s, ticks)) && Inv(g, After(g, s, ticks))
    decreases |ticks|
  {
    if ticks == [] {
      RunOfNothing(g, s);
    } else {
      hide LegalRun, Log, After, AllSafe, Inv, Cycle, Legal, Unsafe, Shows, FlatLog, Refines;
      InvShape(g, s);
      var t := ticks[0];
      RunUnfolds(g, s, ticks);
      CycleRefines(g, s, t);
      var (s', answer) := Cycle(g, s, t);
      RefinesInv(g, s, s', answer);
      ShowsNext(g, s, s', answer, flat);
      RunIsFlat(g, s', ticks[1..], Kept(flat, s.cache.req, answer));
      FlatEntry(flat, s.cache.req, answer, Log(g, s', ticks[1..]));
    }
  }

  lemma RefinesInv(g: Geometry, s: System, s': System, answer: Answer)
    requires Inv(g, s) && Refines(g, s, s', answer)
    ensures Inv(g, s')
  {
  }

  /** A cache with every line invalid and no request buffered, in front of an idle memory. */
  ghost predicate Blank(g: Geometry, s: System) {
    && Shaped(g, s.cache) && s.cache.phase == Serve && !s.cache.req.Active()
    && (forall i | 0 <= i < g.lines :: forall w | 0 <= w < 2 ::
          !s.cache.rows[i].lines[w].valid && !s.cache.rows[i].lines[w].dirty)
    && s.pend == NoAccess
    && (forall a: Addr | a.In(g) :: a in s.mem)
  }

  lemma BlankInv(g: Geometry, s: System)
    requires Blank(g, s)
    ensures Inv(g, s) && Shows(g, s, s.mem)
  {
    forall i, w | 0 <= i < g.lines && 0 <= w < 2 ensures CleanInv(g, s, i, w) {
    }
  }

  /** Started blank, the cache serves external memory's own contents. */
  lemma BlankRunIsFlat(g: Geometry, s: System, ticks: seq<Tick>)
    requires Blank(g, s)
    ensures Inv(g, s)
    ensures LegalRun(g, s, ticks) && AllSafe(g, s, ticks) ==> FlatLog(s.mem, Log(g, s, ticks))
  {
    BlankInv(g, s);
    if LegalRun(g, s, ticks) && AllSafe(g, s, ticks) {
      RunIsFlat(g, s, ticks, s.mem);
    }
  }

  /** Cycles left before the buffered request is answered, those aside in which memory holds it up. */
  ghost function Remaining(g: Geometry, s: State): nat
    requires Shaped(g, s)
  {
    var n, row := g.lineSize, Row0(s);
    match s.phase
    case Serve =>
      if row.Hit(s.req.addr.tag) then 0
      else if row.lines[row.wnext].dirty then 2 * n + 2 else n + 1
    case Drain(_) => n + 1
    case Evict(_, k, _) => n - k + n + 1
    case Fill(_, k) => n - k
  }

  /** Every request is answered after exactly the counted number of cycles in which memory is ready or
      not needed, never more than two line transfers and two; until then it stays buffered, and
      afterwards the next one is. */
  lemma Progress(g: Geometry, s: System, t: Tick)
    requires Inv(g, s) && Legal(g, s, t) && !Unsafe(s, t)
    ensures Remaining(g, s.cache) <= 2 * g.lineSize + 2
    ensures var (s', answer) := Cycle(g, s, t);
      && Inv(g, s')
      && s'.cache.req == (if answer == Wait then s.cache.req else t.bus)
      && (answer == Idle <==> !s.cache.req.Active())
      && (if !t.ready && !s.cache.phase.Serve? then answer == Wait && s'.cache == s.cache
          else if s.cache.req.Active() then
            && (answer.Done? <==> Remaining(g, s.cache) == 0)
            && (answer == Wait ==> Remaining(g, s'.cache) == Remaining(g, s.cache) - 1)
          else true)
  {
    CycleRefines(g, s, t);
  }

  /** A request is one that reads, or writes any byte. */
  lemma RequestsByte(req: Request)
    ensures req.Active() <==> req.re || exists k :: 0 <= k < 4 && Enabled(req.we, k)
  {
    AnyLane(req.we);
  }
}
