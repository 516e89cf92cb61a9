/**
 Exactly when the cache behaves as one flat memory.  Two timings spoil a word: a memory that is unready
 and takes over what the cache drives in the first cycle of an eviction, a write with address and data
 left over from before; and a memory that is ready to a read it has not taken over.
 */
module CacheStrays {
  import opened Words
  import opened CacheSpec

  /** The part of a cycle's inputs that steers the cache: everything but data and undriven wires. */
  datatype Control = Control(re: bool, we: Enables, addr: Addr, ready: bool, takes: bool)

  function ControlOf(t: Tick): Control {
    Control(t.bus.re, t.bus.we, t.bus.addr, t.ready, t.takes)
  }

  /** The run keeps to the schedule as far as it goes. */
  predicate Follows(ticks: seq<Tick>, plan: seq<Control>) {
    |ticks| <= |plan| && forall i | 0 <= i < |ticks| :: ControlOf(ticks[i]) == plan[i]
  }

  /** A run from a blank cache that keeps to the schedule and then goes on safely. */
  ghost predicate Continues(g: Geometry, plan: seq<Control>, s: System, ticks: seq<Tick>, more: seq<Tick>) {
    && Blank(g, s) && Sound(g, s) && Follows(ticks, plan)
    && LegalRun(g, s, ticks) && LegalRun(g, After(g, s, ticks), more) && LegalRun(g, s, ticks + more)
    && AllSafe(g, After(g, s, ticks), more)
  }

  /** Whatever the data and the undriven wires, such runs complete their accesses as a flat memory. */
  ghost predicate FlatUnder(g: Geometry, plan: seq<Control>) {
    forall s, ticks, more | Continues(g, plan, s, ticks, more) :: FlatLog(s.mem, Log(g, s, ticks + more))
  }

  /** Under the schedule every cycle is safe. */
  ghost predicate SafeUnder(g: Geometry, plan: seq<Control>) {
    forall s, ticks | Continues(g, plan, s, ticks, []) :: AllSafe(g, s, ticks)
  }

  /* ---- Runs in parts ---- */

  lemma {:induction false} RunInParts(g: Geometry, s: System, a: seq<Tick>, b: seq<Tick>)
    requires Sound(g, s) && LegalRun(g, s, a) && LegalRun(g, After(g, s, a), b)
    ensures LegalRun(g, s, a + b)
    ensures Log(g, s, a + b) == Log(g, s, a) + Log(g, After(g, s, a), b)
    ensures AllSafe(g, s, a + b) <==> AllSafe(g, s, a) && AllSafe(g, After(g, s, a), b)
    ensures After(g, s, a + b) == After(g, After(g, s, a), b)
    decreases |a|
  {
    hide Cycle, Legal, Sound, Unsafe, Log, After, AllSafe;
    if a == [] {
      assert a + b == b;
      RunOfNothing(g, s);
      assert Log(g, s, a) + Log(g, After(g, s, a), b) == Log(g, s, b);
    } else {
      RunUnfolds(g, s, a);
      var s' := Cycle(g, s, a[0]).0;
      RunInParts(g, s', a[1..], b);
      assert (a + b)[0] == a[0] && (a + b)[1..] == a[1..] + b;
      RunUnfolds(g, s, a + b);
    }
  }

  /** Where the first unsafe cycle of a run is. */
  lemma {:induction false} FirstUnsafe(g: Geometry, s: System, ticks: seq<Tick>) returns (k: nat)
    requires Inv(g, s) && LegalRun(g, s, ticks) && !AllSafe(g, s, ticks)
    ensures k < |ticks| && LegalRun(g, s, ticks[..k]) && AllSafe(g, s, ticks[..k])
    ensures var z := After(g, s, ticks[..k]); Inv(g, z) && Legal(g, z, ticks[k]) && Unsafe(z, ticks[k])
    decreases |ticks|
  {
    hide Cycle, Legal, Inv, Unsafe, Log, After, AllSafe, Refines;
    InvShape(g, s);
    RunOfNothing(g, s);
    RunUnfolds(g, s, ticks);
    if Unsafe(s, ticks[0]) {
      k := 0;
      assert ticks[..0] == [];
    } else {
      var (s', answer) := Cycle(g, s, ticks[0]);
      CycleRefines(g, s, ticks[0]);
      RefinesInv(g, s, s', answer);
      k := FirstUnsafe(g, s', ticks[1..]);
      k := k + 1;
      assert ticks[..k][0] == ticks[0] && ticks[..k][1..] == ticks[1..][..k - 1];
      RunUnfolds(g, s, ticks[..k]);
    }
  }

  /* ---- Data that makes every difference visible ---- */

  const ZEROES := Word(0, 0, 0, 0)
  const ONES := Word(255, 255, 255, 255)

  /** Every address keeps one value for ever: ones in the last word of a line, zeroes elsewhere. */
  function Paint(g: Geometry, a: Addr): Word { if a.off + 1 == g.lineSize then ONES else ZEROES }

  function PaintRequest(g: Geometry, r: Request): Request { r.(wdata := Paint(g, r.addr)) }

  /** The same cycle with painted data, `a` on the undriven address bus and ones on an idle data bus. */
  function PaintTick(g: Geometry, a: Addr, t: Tick): Tick {
    t.(bus := PaintRequest(g, t.bus), noise := ONES, junk := a)
  }

  function PaintTicks(g: Geometry, a: Addr, ticks: seq<Tick>): (r: seq<Tick>)
    ensures |r| == |ticks| && forall i | 0 <= i < |r| :: r[i] == PaintTick(g, a, ticks[i])
  {
    seq(|ticks|, i requires 0 <= i < |ticks| => PaintTick(g, a, ticks[i]))
  }

  ghost predicate SamePhase(p: Phase, q: Phase) {
    match p
    case Serve => q.Serve?
    case Evict(w, k, _) => q.Evict? && q.way == w && q.k == k
    case Drain(_) => q.Drain?
    case Fill(w, k) => q == p
  }

  ghost predicate SamePend(p: XmOut, q: XmOut) {
    match p
    case NoAccess => q.NoAccess?
    case Read(a) => q == p
    case Write(_, _) => q.Write?
  }

  /** `z` is `s` but for data and left-over addresses. */
  ghost predicate Twins(s: System, z: System) {
    && s.cache.rows == z.cache.rows && SamePhase(s.cache.phase, z.cache.phase) && SamePend(s.pend, z.pend)
    && s.cache.req.(wdata := z.cache.req.wdata) == z.cache.req
  }

  /** All data painted; what a stray would write is a one, and where is `a`. */
  ghost predicate Painted(g: Geometry, a: Addr, z: System) {
    && Inv(g, z)
    && (forall x: Addr | x.In(g) :: View(g, z, x) == Paint(g, x))
    && z.cache.req.wdata == Paint(g, z.cache.req.addr)
    && match z.cache.phase
       case Evict(_, k, held) => k == 0 ==> held == a && z.cache.last == ONES
       case _ => z.cache.last == ONES
  }

  lemma TwinLegal(g: Geometry, a: Addr, s: System, z: System, t: Tick)
    requires Sound(g, s) && Painted(g, a, z) && Twins(s, z) && a.In(g)
    ensures Stray(s, t) <==> Stray(z, PaintTick(g, a, t))
    ensures Hollow(s, t) <==> Hollow(z, PaintTick(g, a, t))
    ensures Legal(g, s, t) ==> Legal(g, z, PaintTick(g, a, t))
  {
  }

  lemma TwinServe(g: Geometry, a: Addr, s: State, z: State, t: Tick)
    requires Shaped(g, s) && Shaped(g, z) && s.rows == z.rows && s.req.(wdata := z.req.wdata) == z.req
    ensures var p, q := ServeStep(g, s, t.bus, t.junk), ServeStep(g, z, PaintRequest(g, t.bus), a);
      && p.next.rows == q.next.rows && SamePhase(p.next.phase, q.next.phase) && SamePend(p.xm, q.xm)
      && p.next.req.(wdata := q.next.req.wdata) == q.next.req
  {
  }

  /** Twins stay twins: no data ever steers the cache. */
  lemma TwinCycle(g: Geometry, a: Addr, s: System, z: System, t: Tick)
    requires Sound(g, s) && Sound(g, z) && Twins(s, z) && Legal(g, s, t) && a.In(g)
    ensures Twins(Cycle(g, s, t).0, Cycle(g, z, PaintTick(g, a, t)).0)
  {
    hide ServeStep;
    TwinServe(g, a, s.cache, z.cache, t);
  }

  lemma MergeSame(w: Word, we: Enables)
    ensures Merge(w, w, we) == w
  {
  }

  lemma PaintedLeftovers(g: Geometry, a: Addr, z: System, t: Tick)
    requires Painted(g, a, z) && Legal(g, z, t) && !Unsafe(z, t) && t.junk == a
    ensures var c := Cycle(g, z, t).0.cache;
      match c.phase
      case Evict(_, k, held) => k == 0 ==> held == a && c.last == ONES
      case _ => c.last == ONES
  {
    if z.cache.phase.Evict? {
      VictimIsPainted(g, a, z);
    }
  }

  lemma VictimIsPainted(g: Geometry, a: Addr, z: System)
    requires Painted(g, a, z) && z.cache.phase.Evict?
    ensures var Evict(w, k, _) := z.cache.phase;
      z.cache.data[Slot(w, z.cache.req.addr.index, k)] == Paint(g, VictimAt(g, z.cache, w, k))
  {
    var Evict(w, k, _) := z.cache.phase;
    var x := VictimAt(g, z.cache, w, k);
    assert RowInv(z.cache.rows[x.index]);
    assert View(g, z, x) == Paint(g, x);
  }

  lemma PaintedCycle(g: Geometry, a: Addr, z: System, t: Tick)
    requires Painted(g, a, z) && Legal(g, z, t) && !Unsafe(z, t)
    requires t.junk == a && t.bus.wdata == Paint(g, t.bus.addr)
    ensures var (z', answer) := Cycle(g, z, t);
      Painted(g, a, z') && (answer.Done? ==> answer.rdata == Paint(g, z.cache.req.addr))
  {
    CycleRefines(g, z, t);
    Progress(g, z, t);
    PaintedLeftovers(g, a, z, t);
    MergeSame(Paint(g, z.cache.req.addr), z.cache.req.we);
  }

  /** The twin of a run is painted throughout and takes the same course. */
  lemma {:induction false} TwinRun(g: Geometry, a: Addr, s: System, z: System, ticks: seq<Tick>)
    requires Sound(g, s) && LegalRun(g, s, ticks) && AllSafe(g, s, ticks) && a.In(g)
    requires Painted(g, a, z) && Twins(s, z)
    ensures LegalRun(g, z, PaintTicks(g, a, ticks)) && AllSafe(g, z, PaintTicks(g, a, ticks))
    ensures var z' := After(g, z, PaintTicks(g, a, ticks)); Painted(g, a, z') && Twins(After(g, s, ticks), z')
    decreases |ticks|
  {
    hide Cycle, Legal, Log, After, AllSafe, Sound, Twins, Paint, Inv, View, LegalRun;
    var painted := PaintTicks(g, a, ticks);
    PaintedShape(g, a, z);
    if ticks == [] {
      RunOfNothing(g, s);
      RunOfNothing(g, z);
    } else {
      var t := ticks[0];
      RunUnfolds(g, s, ticks);
      TwinLegal(g, a, s, z, t);
      TwinCycle(g, a, s, z, t);
      PaintedCycle(g, a, z, painted[0]);
      var z1 := Cycle(g, z, painted[0]).0;
      PaintedShape(g, a, z1);
      assert painted[1..] == PaintTicks(g, a, ticks[1..]);
      TwinRun(g, a, Cycle(g, s, t).0, z1, ticks[1..]);
      LegalFirst(g, z, painted);
      RunUnfolds(g, z, painted);
    }
  }

  lemma PaintedShape(g: Geometry, a: Addr, z: System)
    requires Painted(g, a, z)
    ensures Inv(g, z) && Sound(g, z)
  {
  }

  lemma LegalFirst(g: Geometry, s: System, ticks: seq<Tick>)
    requires Sound(g, s) && ticks != [] && Legal(g, s, ticks[0])
    requires Sound(g, Cycle(g, s, ticks[0]).0) && LegalRun(g, Cycle(g, s, ticks[0]).0, ticks[1..])
    ensures LegalRun(g, s, ticks)
  {
  }

  /** On painted data a log is flat from here on if it is flat altogether. */
  lemma {:induction false} PaintedLog(g: Geometry, a: Addr, z: System, ticks: seq<Tick>,
                                     more: seq<Event>, flat: map<Addr, Word>)
    requires Painted(g, a, z) && LegalRun(g, z, ticks) && AllSafe(g, z, ticks)
    requires forall i | 0 <= i < |ticks| :: ticks[i].junk == a && ticks[i].bus.wdata == Paint(g, ticks[i].bus.addr)
    requires forall x: Addr | x.In(g) :: x in flat && flat[x] == Paint(g, x)
    requires FlatLog(flat, Log(g, z, ticks) + more)
    ensures FlatLog(flat, more)
    decreases |ticks|
  {
    hide Cycle, Legal, Unsafe, Log, AllSafe, Sound, Paint, Inv, View, LegalRun, FlatLog;
    PaintedShape(g, a, z);
    if ticks == [] {
      RunOfNothing(g, z);
      assert Log(g, z, ticks) + more == more;
    } else {
      RunUnfolds(g, z, ticks);
      PaintedCycle(g, a, z, ticks[0]);
      InvShape(g, z);
      var (z', answer) := Cycle(g, z, ticks[0]);
      var req, rest := z.cache.req, Log(g, z', ticks[1..]);
      PaintedKept(g, a, z, flat, answer);
      assert Log(g, z, ticks) + more == Entry(req, answer) + (rest + more);
      FlatEntry(flat, req, answer, rest + more);
      PaintedLog(g, a, z', ticks[1..], more, flat);
    }
  }

  lemma PaintedKept(g: Geometry, a: Addr, z: System, flat: map<Addr, Word>, answer: Answer)
    requires Painted(g, a, z) && z.cache.req.addr.In(g)
    requires forall x: Addr | x.In(g) :: x in flat && flat[x] == Paint(g, x)
    ensures Kept(flat, z.cache.req, answer) == flat
  {
    hide Paint;
    MergeSame(Paint(g, z.cache.req.addr), z.cache.req.we);
  }

  /* ---- Making a stray visible ---- */

  /** Two resident lines and the one asked for make three tags: with fewer nothing is ever evicted. */
  lemma EvictionNeedsThreeTags(g: Geometry, s: System)
    requires Inv(g, s) && s.cache.phase.Evict?
    ensures g.tags >= 3
  {
    assert RowInv(Row0(s.cache));
  }

  /** During an eviction some first word of a line is not resident and not about to become so. */
  lemma AbsentWord(g: Geometry, s: System) returns (a: Addr)
    requires Inv(g, s) && s.cache.phase.Evict?
    ensures a.In(g) && !s.cache.rows[a.index].Hit(a.tag) && a.index != s.cache.req.addr.index && a.off == 0
  {
    var i := s.cache.req.addr.index;
    EvictionNeedsThreeTags(g, s);
    var j := if i == 0 then 1 else 0;
    var other := s.cache.rows[j];
    var tag := if !other.Hit(0) then 0 else if !other.Hit(1) then 1 else 2;
    a := Addr(tag, j, 0);
  }

  /** The set a request leaves behind. */
  function Filled(row: Row, tag: nat, dirty: bool): Row
    requires |row.lines| == 2 && row.wnext < 2
  {
    if row.Hit(tag) then
      var w := row.HitWay(tag);
      row.(lines := row.lines[w := Line(true, dirty || row.lines[w].dirty, tag)])
    else Row(row.lines[row.wnext := Line(true, dirty, tag)], 1 - row.wnext)
  }

  ghost function RowsFilled(g: Geometry, s: State): seq<Row>
    requires Shaped(g, s)
  {
    s.rows[s.req.addr.index := Filled(Row0(s), s.req.addr.tag, s.req.we.Any())]
  }

  lemma RowsOnTheWay(g: Geometry, s: System, t: Tick)
    requires Inv(g, s) && Legal(g, s, t) && t.ready && !Unsafe(s, t) && s.cache.req.Active()
    ensures var (z, answer) := Cycle(g, s, t);
      if answer.Done? then z.cache.rows == RowsFilled(g, s.cache)
      else Shaped(g, z.cache) && RowsFilled(g, z.cache) == RowsFilled(g, s.cache)
  {
    var c, i := s.cache, s.cache.req.addr.index;
    var row, tag, dirty := Row0(c), c.req.addr.tag, c.req.we.Any();
    Progress(g, s, t);
    VictimIsValid(g, s);
    FilledRows(row, tag, dirty);
    var (z, answer) := Cycle(g, s, t);
    assert Shaped(g, z.cache);
    if c.phase.Evict? || c.phase.Fill? {
      assert z.cache.rows == c.rows;
    } else {
      ServeRows(g, c, t);
      hide Cycle, ServeStep;
    }
    hide Filled, Inv;
  }

  lemma VictimIsValid(g: Geometry, s: System)
    requires Inv(g, s)
    ensures var row := Row0(s.cache);
      && (row.lines[row.wnext].dirty ==> row.lines[row.wnext].valid)
      && (s.cache.phase.Drain? ==> !row.Hit(s.cache.req.addr.tag))
  {
    assert RowInv(Row0(s.cache));
  }

  /** What serving does to the set of the request. */
  lemma ServeRows(g: Geometry, s: State, t: Tick)
    requires Shaped(g, s) && s.req.Active()
    ensures var row, tag, z := Row0(s), s.req.addr.tag, ServeStep(g, s, t.bus, t.junk).next;
      var v := row.wnext;
      && z.rows == s.rows[s.req.addr.index :=
           if row.Hit(tag) then
             (if s.req.we.Any() then row.(lines := row.lines[row.HitWay(tag) := Line(true, true, tag)]) else row)
           else if row.lines[v].dirty then Row(row.lines[v := Line(true, false, row.lines[v].tag)], v)
           else Row(row.lines[v := Line(true, false, tag)], 1 - v)]
      && (ServeStep(g, s, t.bus, t.junk).answer.Done? <==> row.Hit(tag))
      && (!row.Hit(tag) ==> z.req == s.req)
  {
  }

  lemma FilledRows(row: Row, tag: nat, dirty: bool)
    requires |row.lines| == 2 && row.wnext < 2
    ensures row.Hit(tag) ==>
      var w := row.HitWay(tag);
      Filled(row, tag, dirty) == if dirty then row.(lines := row.lines[w := Line(true, true, tag)]) else row
    ensures !row.Hit(tag) ==>
      var v := row.wnext;
      var clean := Row(row.lines[v := Line(true, false, row.lines[v].tag)], v);
      && (row.lines[v].valid ==> Filled(clean, tag, dirty) == Filled(row, tag, dirty))
      && Filled(Row(row.lines[v := Line(true, false, tag)], 1 - v), tag, dirty) == Filled(row, tag, dirty)
  {
    if row.Hit(tag) {
      var w := row.HitWay(tag);
      assert row.lines[w := row.lines[w]] == row.lines;
    } else {
      var v := row.wnext;
      var ls := row.lines[v := Line(true, false, tag)];
      assert ls[v := Line(true, dirty, tag)] == row.lines[v := Line(true, dirty, tag)];
      var clean := row.lines[v := Line(true, false, row.lines[v].tag)];
      assert clean[v := Line(true, dirty, tag)] == row.lines[v := Line(true, dirty, tag)];
    }
  }

  /** With a ready memory the buffered request is answered and the next one buffered. */
  lemma {:induction false} Answered(g: Geometry, s: System, next: Request) returns (ticks: seq<Tick>)
    requires Inv(g, s) && s.cache.req.Active() && next.addr.In(g)
    requires s.cache.phase.Fill? ==> s.pend != NoAccess
    ensures LegalRun(g, s, ticks) && AllSafe(g, s, ticks)
    ensures forall i | 0 <= i < |ticks| :: ticks[i].ready && (ticks[i].bus == s.cache.req || ticks[i].bus == next)
    ensures Log(g, s, ticks) == [Event(s.cache.req, View(g, s, s.cache.req.addr))]
    ensures var z := After(g, s, ticks);
      && Inv(g, z) && z.cache.req == next && z.cache.phase.Serve? && z.cache.rows == RowsFilled(g, s.cache)
      && forall x: Addr | x.In(g) :: View(g, z, x) == Effect(s.cache.req, x, View(g, s, x))
    decreases Remaining(g, s.cache)
  {
    hide Legal, LegalRun, Log, AllSafe, After, Inv, RowsFilled, Cycle, Unsafe, View, Remaining;
    InvShape(g, s);
    var done := Remaining(g, s.cache) == 0;
    var t := Tick(if done then next else s.cache.req, true, false, ZEROES, s.cache.req.addr);
    ReadyIsLegal(g, s, t, done);
    CycleRefines(g, s, t);
    Progress(g, s, t);
    RowsOnTheWay(g, s, t);
    var (z, answer) := Cycle(g, s, t);
    InvShape(g, z);
    RunOfNothing(g, z);
    if done {
      ticks := [t];
      assert ticks[1..] == [];
      LegalFirst(g, s, ticks);
      RunUnfolds(g, s, ticks);
      DoneServes(g, s, t);
    } else {
      ReadyFills(g, s, t);
      var rest := Answered(g, z, next);
      ticks := [t] + rest;
      assert ticks[1..] == rest;
      LegalFirst(g, s, ticks);
      RunUnfolds(g, s, ticks);
    }
  }

  lemma ReadyIsLegal(g: Geometry, s: System, t: Tick, done: bool)
    requires Inv(g, s) && (s.cache.phase.Fill? ==> s.pend != NoAccess)
    requires t.bus.addr.In(g) && t.junk.In(g) && done == (Remaining(g, s.cache) == 0)
      && (!done ==> t.bus == s.cache.req) && t.ready
    ensures Legal(g, s, t) && !Unsafe(s, t)
  {
  }

  lemma DoneServes(g: Geometry, s: System, t: Tick)
    requires Sound(g, s) && Cycle(g, s, t).1.Done?
    ensures Cycle(g, s, t).0.cache.phase.Serve?
  {
  }

  lemma ReadyFills(g: Geometry, s: System, t: Tick)
    requires Inv(g, s) && t.ready && Cycle(g, s, t).1.Wait?
    ensures Cycle(g, s, t).0.cache.phase.Fill? ==> Cycle(g, s, t).0.pend != NoAccess
  {
  }

  function ReadOf(a: Addr): Request { Request(true, NO_WRITE, a, ZEROES) }

  lemma StrayStarts(g: Geometry, a: Addr, z: System, t: Tick)
    requires Painted(g, a, z) && Legal(g, z, t) && Stray(z, t) && a.In(g)
    requires !z.cache.rows[a.index].Hit(a.tag) && a.index != z.cache.req.addr.index && a.off == 0
    ensures var req, z1 := z.cache.req, Cycle(g, z, t).0;
      && Inv(g, z1) && z1.cache == z.cache && z1.cache.phase.Evict? && req.addr.In(g) && req.Active()
      && View(g, z1, req.addr) == Paint(g, req.addr) && View(g, z1, a) == ONES
  {
    StrayWrites(g, z, t);
  }

  /** After a stray in a painted system the pending access and a read of the spoilt word complete, and
      the read returns ones where zeroes were. */
  lemma StrayIsRead(g: Geometry, a: Addr, z: System, t: Tick) returns (more: seq<Tick>)
    requires Painted(g, a, z) && Legal(g, z, t) && Stray(z, t) && a.In(g)
    requires !z.cache.rows[a.index].Hit(a.tag) && a.index != z.cache.req.addr.index && a.off == 0
    ensures var z' := Cycle(g, z, t).0;
      && Sound(g, z') && LegalRun(g, z', more) && AllSafe(g, z', more)
      && Log(g, z', more) ==
           [Event(z.cache.req, Paint(g, z.cache.req.addr)), Event(ReadOf(a), ONES)]
  {
    hide LegalRun, Log, AllSafe, After, Painted, Stray, Legal, Cycle, View, Inv, RowsFilled;
    PaintedShape(g, a, z);
    StrayStarts(g, a, z, t);
    var z1 := Cycle(g, z, t).0;
    InvShape(g, z1);
    var m1 := Answered(g, z1, ReadOf(a));
    var z2 := After(g, z1, m1);
    var m2 := Answered(g, z2, ReadOf(a));
    more := m1 + m2;
    RunInParts(g, z1, m1, m2);
  }

  /* ---- Making a hollow read visible ---- */

  /** Buffered is a request to the line that begins at `a`, which is resident but for words not yet read. */
  ghost predicate InLine(g: Geometry, a: Addr, s: System)
    requires Shaped(g, s.cache)
  {
    var c := s.cache;
    && a.off == 0 && At(c, 0) == a
    && match c.phase
       case Serve => Row0(c).Hit(a.tag)
       case Fill(w, k) => k > 0 && Row0(c).Match(w, a.tag) && s.pend == Read(At(c, k))
       case _ => false
  }

  /** While requests stay in that line nobody looks at external memory's word at `a`. */
  lemma ShadowCycle(g: Geometry, a: Addr, y: System, v: Word, t: Tick)
    requires Inv(g, y) && InLine(g, a, y) && t.ready && t.bus.addr.(off := 0) == a && Legal(g, y, t) && !Unsafe(y, t)
    ensures var z := y.(mem := y.mem[a := v]);
      var (y', answer) := Cycle(g, y, t);
      && Sound(g, z) && Legal(g, z, t) && !Unsafe(z, t)
      && Cycle(g, z, t) == (y'.(mem := y'.mem[a := v]), answer)
      && Sound(g, y') && InLine(g, a, y')
  {
    CycleSound(g, y, t);
    var z := y.(mem := y.mem[a := v]);
    var (z', answer) := Cycle(g, z, t);
    assert z'.mem == Cycle(g, y, t).0.mem[a := v];
  }

  lemma {:induction false} ShadowRun(g: Geometry, a: Addr, y: System, v: Word, ticks: seq<Tick>)
    requires Inv(g, y) && InLine(g, a, y) && LegalRun(g, y, ticks) && AllSafe(g, y, ticks) && a.In(g)
    requires forall i | 0 <= i < |ticks| :: ticks[i].ready && ticks[i].bus.addr.(off := 0) == a
    ensures var z := y.(mem := y.mem[a := v]);
      Sound(g, z) && LegalRun(g, z, ticks) && AllSafe(g, z, ticks) && Log(g, z, ticks) == Log(g, y, ticks)
    decreases |ticks|
  {
    hide Cycle, Legal, Unsafe, Log, AllSafe, LegalRun, InLine, Inv, After, Refines;
    InvShape(g, y);
    var z := y.(mem := y.mem[a := v]);
    if ticks == [] {
      RunOfNothing(g, y);
      RunOfNothing(g, z);
    } else {
      var t := ticks[0];
      RunUnfolds(g, y, ticks);
      ShadowCycle(g, a, y, v, t);
      CycleRefines(g, y, t);
      var (y', answer) := Cycle(g, y, t);
      RefinesInv(g, y, y', answer);
      ShadowRun(g, a, y', v, ticks[1..]);
      LegalFirst(g, z, ticks);
      RunUnfolds(g, z, ticks);
    }
  }

  /** The system after a hollow read, with external memory as if it held what was read. */
  ghost function Shadow(g: Geometry, z: System, t: Tick): System
    requires Sound(g, z)
  {
    Cycle(g, z, t).0.(mem := z.mem[At(z.cache, 0) := t.noise])
  }

  lemma ShadowStarts(g: Geometry, j: Addr, z: System, t: Tick)
    requires Painted(g, j, z) && Legal(g, z, t) && Hollow(z, t) && t.noise == ONES
    ensures var z1, y, a, req := Cycle(g, z, t).0, Shadow(g, z, t), At(z.cache, 0), z.cache.req;
      && Inv(g, y) && InLine(g, a, y) && y.cache.phase.Fill? && y.pend != NoAccess && y.cache.req == req
      && req.Active() && req.addr.In(g) && req.addr.(off := 0) == a && a.In(g)
      && View(g, y, req.addr) == (if req.addr == a then ONES else Paint(g, req.addr)) && View(g, y, a) == ONES
      && Cycle(g, z, t).1 == Wait && z1 == y.(mem := y.mem[a := z.mem[a]])
  {
    HollowFills(g, z, t);
    assert Shadow(g, z, t).mem[At(z.cache, 0) := z.mem[At(z.cache, 0)]] == z.mem;
  }

  /** After a hollow read the line's first word shows what the idle data bus carried. */
  lemma HollowIsRead(g: Geometry, j: Addr, z: System, t: Tick) returns (more: seq<Tick>, r2: Word)
    requires Painted(g, j, z) && Legal(g, z, t) && Hollow(z, t) && t.noise == ONES
    ensures var z', a, req := Cycle(g, z, t).0, At(z.cache, 0), z.cache.req;
      && a.In(g) && Cycle(g, z, t).1 == Wait && Sound(g, z') && LegalRun(g, z', more) && AllSafe(g, z', more)
      && Log(g, z', more) == [Event(req, if req.addr == a then ONES else Paint(g, req.addr)), Event(ReadOf(a), r2)]
      && (req.addr != a ==> r2 == ONES)
  {
    hide LegalRun, Log, AllSafe, After, Painted, Hollow, Legal, Cycle, View, InLine, Shadow, Inv;
    PaintedShape(g, j, z);
    ShadowStarts(g, j, z, t);
    var a, y := At(z.cache, 0), Shadow(g, z, t);
    InvShape(g, y);
    var m1 := Answered(g, y, ReadOf(a));
    var y2 := After(g, y, m1);
    r2 := View(g, y2, a);
    var m2 := Answered(g, y2, ReadOf(a));
    more := m1 + m2;
    RunInParts(g, y, m1, m2);
    ShadowRun(g, a, y, z.mem[a], more);
  }

  /* ---- Either way no flat memory ---- */

  /** One of the two answers is not what a painted memory holds. */
  predicate Betrays(g: Geometry, b: Addr, req: Request, r1: Word, r2: Word) {
    if req.addr == b then r1 == ONES else r2 == ONES && r1 == Paint(g, req.addr)
  }

  lemma NotFlat(g: Geometry, b: Addr, req: Request, r1: Word, r2: Word, flat: map<Addr, Word>)
    requires g.Ok() && forall x: Addr | x.In(g) :: x in flat && flat[x] == Paint(g, x)
    requires b.In(g) && b.off == 0 && req.addr.In(g) && req.wdata == Paint(g, req.addr)
    requires Betrays(g, b, req, r1, r2)
    ensures !FlatLog(flat, [Event(req, r1), Event(ReadOf(b), r2)])
  {
    var log := [Event(req, r1), Event(ReadOf(b), r2)];
    if req.addr != b {
      MergeSame(r1, req.we);
      assert flat[req.addr := Merge(r1, req.wdata, req.we)] == flat;
      assert log[1..] == [Event(ReadOf(b), r2)];
      assert !FlatLog(flat, log[1..]);
    }
  }

  /** Either unsafe cycle, in a painted system, can be followed by reads that betray it. */
  lemma UnsafeIsRead(g: Geometry, a: Addr, z: System, t: Tick)
    returns (b: Addr, more: seq<Tick>, r1: Word, r2: Word)
    requires Painted(g, a, z) && Legal(g, z, t) && Unsafe(z, t) && t.noise == ONES && a.In(g)
    requires Stray(z, t) ==>
      !z.cache.rows[a.index].Hit(a.tag) && a.index != z.cache.req.addr.index && a.off == 0
    ensures var z', req := Cycle(g, z, t).0, z.cache.req;
      && b.In(g) && b.off == 0 && Betrays(g, b, req, r1, r2)
      && Cycle(g, z, t).1 == Wait && Sound(g, z') && LegalRun(g, z', more) && AllSafe(g, z', more)
      && Log(g, z', more) == [Event(req, r1), Event(ReadOf(b), r2)]
  {
    if Stray(z, t) {
      more := StrayIsRead(g, a, z, t);
      StrayWaits(g, z, t);
      b, r1, r2 := a, Paint(g, z.cache.req.addr), ONES;
    } else {
      more, r2 := HollowIsRead(g, a, z, t);
      b := At(z.cache, 0);
      r1 := if z.cache.req.addr == b then ONES else Paint(g, z.cache.req.addr);
    }
  }

  /** The blank system `s` with painted data. */
  ghost function PaintBlank(g: Geometry, s: System): System {
    System(s.cache.(last := ONES, req := PaintRequest(g, s.cache.req)), map x | x in s.mem :: Paint(g, x), NoAccess)
  }

  lemma BlankIsPainted(g: Geometry, a: Addr, s: System)
    requires Blank(g, s)
    ensures var z := PaintBlank(g, s); Blank(g, z) && Painted(g, a, z) && Twins(s, z)
  {
    BlankInv(g, PaintBlank(g, s));
  }

  /** A schedule with an unsafe cycle has a run that is not flat. */
  lemma UnsafeIsVisible(g: Geometry, plan: seq<Control>, s: System, ticks: seq<Tick>)
    requires Continues(g, plan, s, ticks, []) && !AllSafe(g, s, ticks)
    ensures !FlatUnder(g, plan)
  {
    hide LegalRun, AllSafe, After, Inv, Blank, Stray, Hollow, Legal, FlatUnder, Log;
    BlankInv(g, s);
    InvShape(g, s);
    var k := FirstUnsafe(g, s, ticks);
    var sk := After(g, s, ticks[..k]);
    InvShape(g, sk);
    var a := sk.cache.req.addr;
    if Stray(sk, ticks[k]) {
      StrayEvicts(sk, ticks[k]);
      a := AbsentWord(g, sk);
    }
    BlankIsPainted(g, a, s);
    TwinIsSpoilt(g, plan, s, PaintBlank(g, s), ticks, k, a);
  }

  /** The painted twin of a run up to its first unsafe cycle goes on to show it. */
  lemma TwinIsSpoilt(g: Geometry, plan: seq<Control>, s: System, z: System, ticks: seq<Tick>, k: nat, a: Addr)
    requires Sound(g, s) && Blank(g, z) && Painted(g, a, z) && Twins(s, z) && a.In(g)
    requires Follows(ticks, plan) && k < |ticks| && LegalRun(g, s, ticks[..k]) && AllSafe(g, s, ticks[..k])
    requires var sk := After(g, s, ticks[..k]);
      && Legal(g, sk, ticks[k]) && Unsafe(sk, ticks[k])
      && (Stray(sk, ticks[k]) ==>
        !sk.cache.rows[a.index].Hit(a.tag) && a.index != sk.cache.req.addr.index && a.off == 0)
    ensures !FlatUnder(g, plan)
  {
    hide LegalRun, Log, AllSafe, After, Painted, Inv, Blank, Twins, Stray, Hollow, Legal, FlatLog, FlatUnder, Follows;
    hide Betrays;
    var sk := After(g, s, ticks[..k]);
    PaintedShape(g, a, z);
    TwinRun(g, a, s, z, ticks[..k]);
    var painted, t := PaintTicks(g, a, ticks[..k]), PaintTick(g, a, ticks[k]);
    var zk := After(g, z, painted);
    TwinLegal(g, a, sk, zk, ticks[k]);
    TwinRows(sk, zk);
    PaintedShape(g, a, zk);
    var b, more, r1, r2 := UnsafeIsRead(g, a, zk, t);
    OneMoreTick(g, z, painted, t);
    RunInParts(g, z, painted + [t], more);
    PaintedRequest(g, a, zk);
    SpoiltLog(g, a, z, painted, zk.cache.req, b, r1, r2);
    assert Log(g, z, painted) + [] == Log(g, z, painted);
    SamePlan(g, a, ticks, plan, k);
    Exhibit(g, plan, z, painted + [t], more);
  }

  lemma StrayEvicts(s: System, t: Tick)
    requires Stray(s, t)
    ensures s.cache.phase.Evict?
  {
  }

  lemma TwinRows(s: System, z: System)
    requires Twins(s, z)
    ensures s.cache.rows == z.cache.rows && s.cache.req.addr == z.cache.req.addr
  {
  }

  lemma OneMoreTick(g: Geometry, z: System, ticks: seq<Tick>, t: Tick)
    requires Sound(g, z) && LegalRun(g, z, ticks) && Legal(g, After(g, z, ticks), t)
    ensures LegalRun(g, z, ticks + [t]) && Sound(g, Cycle(g, After(g, z, ticks), t).0)
    ensures After(g, z, ticks + [t]) == Cycle(g, After(g, z, ticks), t).0
    ensures Log(g, z, ticks + [t]) ==
      Log(g, z, ticks) + Entry(After(g, z, ticks).cache.req, Cycle(g, After(g, z, ticks), t).1)
  {
    var z' := After(g, z, ticks);
    CycleSound(g, z', t);
    assert [t][1..] == [];
    LegalFirst(g, z', [t]);
    RunUnfolds(g, z', [t]);
    RunInParts(g, z, ticks, [t]);
  }

  lemma SamePlan(g: Geometry, a: Addr, ticks: seq<Tick>, plan: seq<Control>, k: nat)
    requires Follows(ticks, plan) && k < |ticks|
    ensures Follows(PaintTicks(g, a, ticks[..k]) + [PaintTick(g, a, ticks[k])], plan)
  {
  }

  /** A log that starts painted and ends with the spoilt word is not flat. */
  lemma SpoiltLog(g: Geometry, a: Addr, z: System, painted: seq<Tick>, req: Request, b: Addr, r1: Word, r2: Word)
    requires Blank(g, z) && Painted(g, a, z) && LegalRun(g, z, painted) && AllSafe(g, z, painted)
    requires forall i | 0 <= i < |painted| ::
      painted[i].junk == a && painted[i].bus.wdata == Paint(g, painted[i].bus.addr)
    requires req.addr.In(g) && req.wdata == Paint(g, req.addr)
    requires b.In(g) && b.off == 0 && Betrays(g, b, req, r1, r2)
    ensures Sound(g, z)
    ensures !FlatLog(z.mem, Log(g, z, painted) + [Event(req, r1), Event(ReadOf(b), r2)])
  {
    hide LegalRun, Log, AllSafe, After, FlatLog, Cycle, Inv, View, Betrays;
    PaintedShape(g, a, z);
    PaintedMemory(g, a, z);
    PaintedRequest(g, a, z);
    var tail := [Event(req, r1), Event(ReadOf(b), r2)];
    if FlatLog(z.mem, Log(g, z, painted) + tail) {
      PaintedLog(g, a, z, painted, tail, z.mem);
      NotFlat(g, b, req, r1, r2, z.mem);
      assert false;
    }
  }

  lemma StrayWaits(g: Geometry, z: System, t: Tick)
    requires Sound(g, z) && Stray(z, t)
    ensures Cycle(g, z, t).1 == Wait
  {
  }

  lemma PaintedMemory(g: Geometry, a: Addr, z: System)
    requires Blank(g, z) && Painted(g, a, z)
    ensures forall x: Addr | x.In(g) :: x in z.mem && z.mem[x] == Paint(g, x)
  {
  }

  lemma PaintedRequest(g: Geometry, a: Addr, z: System)
    requires Painted(g, a, z)
    ensures g.Ok() && z.cache.req.addr.In(g) && z.cache.req.wdata == Paint(g, z.cache.req.addr)
  {
  }

  lemma Exhibit(g: Geometry, plan: seq<Control>, s: System, ticks: seq<Tick>, more: seq<Tick>)
    requires Continues(g, plan, s, ticks, more) && !FlatLog(s.mem, Log(g, s, ticks + more))
    ensures !FlatUnder(g, plan)
  {
  }

  /** The cache is one flat memory under exactly those schedules in which no eviction's first cycle is
      taken over while external memory is unready. */
  lemma FlatExactly(g: Geometry, plan: seq<Control>)
    ensures FlatUnder(g, plan) <==> SafeUnder(g, plan)
  {
    hide LegalRun, Log, AllSafe, After, Blank, FlatLog;
    if SafeUnder(g, plan) {
      forall s, ticks, more | Continues(g, plan, s, ticks, more) ensures FlatLog(s.mem, Log(g, s, ticks + more)) {
        RunOfNothing(g, After(g, s, ticks));
        assert ticks + [] == ticks;
        assert Continues(g, plan, s, ticks, []);
        RunInParts(g, s, ticks, more);
        BlankRunIsFlat(g, s, ticks + more);
      }
    } else {
      var s, ticks :| Continues(g, plan, s, ticks, []) && !AllSafe(g, s, ticks);
      UnsafeIsVisible(g, plan, s, ticks);
    }
  }

  function WriteTo(tag: nat): Request { Request(false, WRITE_ALL, Addr(tag, 0, 0), ONES) }

  lemma FirstRequest(g: Geometry, s: System, t: Tick)
    requires Blank(g, s) && t.bus.addr.In(g) && t.junk.In(g)
    ensures Inv(g, s) && Legal(g, s, t)
    ensures var (z, answer) := Cycle(g, s, t);
      Inv(g, z) && z.cache.req == t.bus && z.cache.phase.Serve? && z.cache.rows == s.cache.rows
  {
    BlankInv(g, s);
    CycleRefines(g, s, t);
  }

  /** A miss on a dirty line can stray: if memory is unready in the next cycle and takes over. */
  lemma DirtyMissCanStray(g: Geometry, s: System, t: Tick, u: Tick)
    requires Inv(g, s) && Legal(g, s, t)
    requires s.cache.phase.Serve? && s.cache.req.Active() && !Row0(s.cache).Hit(s.cache.req.addr.tag)
    requires Row0(s.cache).lines[Row0(s.cache).wnext].dirty
    requires u.bus == s.cache.req && u.junk.In(g) && !u.ready && u.takes
    ensures var z := Cycle(g, s, t).0; Sound(g, z) && Legal(g, z, u) && Stray(z, u) && z.cache.phase.held == t.junk
    ensures LegalRun(g, s, [t, u]) && !AllSafe(g, s, [t, u])
  {
    CycleSound(g, s, t);
    var z := Cycle(g, s, t).0;
    CycleSound(g, z, u);
    assert [t, u][1..] == [u] && [u][1..] == [];
    LegalFirst(g, z, [u]);
    LegalFirst(g, s, [t, u]);
    RunUnfolds(g, z, [u]);
    RunUnfolds(g, s, [t, u]);
  }

  /** Three writes to one set are enough, in any geometry with three tags and from any blank cache. */
  lemma StraysAreReachable(g: Geometry, s: System) returns (ticks: seq<Tick>)
    requires Blank(g, s) && g.tags >= 3
    ensures Sound(g, s) && LegalRun(g, s, ticks) && !AllSafe(g, s, ticks)
  {
    var t := Tick(WriteTo(0), true, false, ZEROES, WriteTo(0).addr);
    FirstRequest(g, s, t);
    var row := s.cache.rows[0];
    var s1 := Cycle(g, s, t).0;
    assert row.Ok(g) && !row.lines[0].valid && !row.lines[1].valid;
    hide LegalRun, AllSafe, Log, After, Blank, Cycle, Legal, Stray, Inv;
    InvShape(g, s);
    InvShape(g, s1);
    var m1 := Answered(g, s1, WriteTo(1));
    var s2 := After(g, s1, m1);
    InvShape(g, s2);
    var m2 := Answered(g, s2, WriteTo(2));
    var s3 := After(g, s2, m2);
    InvShape(g, s3);
    FullOfDirt(row);
    var miss := Tick(WriteTo(2), true, false, ZEROES, WriteTo(0).addr);
    SameRequest(g, s3, miss);
    var end := [miss, miss.(ready := false, takes := true)];
    DirtyMissCanStray(g, s3, end[0], end[1]);
    RunInParts(g, s2, m2, end);
    RunInParts(g, s1, m1, m2 + end);
    ticks := [t] + (m1 + (m2 + end));
    assert ticks[1..] == m1 + (m2 + end);
    LegalFirst(g, s, ticks);
    RunUnfolds(g, s, ticks);
  }

  lemma CleanMissCanBeHollow(g: Geometry, s: System, t: Tick, u: Tick)
    requires Inv(g, s) && Legal(g, s, t) && !t.ready && !t.takes
    requires s.cache.phase.Serve? && s.cache.req.Active() && !Row0(s.cache).Hit(s.cache.req.addr.tag)
    requires !Row0(s.cache).lines[Row0(s.cache).wnext].dirty
    requires u.bus == s.cache.req && u.junk.In(g) && u.ready
    ensures LegalRun(g, s, [t, u]) && !AllSafe(g, s, [t, u])
  {
    CycleSound(g, s, t);
    var z := Cycle(g, s, t).0;
    CycleSound(g, z, u);
    assert [t, u][1..] == [u] && [u][1..] == [];
    LegalFirst(g, z, [u]);
    LegalFirst(g, s, [t, u]);
    RunUnfolds(g, z, [u]);
    RunUnfolds(g, s, [t, u]);
  }

  /** One access is enough for a hollow read, in any geometry. */
  lemma HollowsAreReachable(g: Geometry, s: System) returns (ticks: seq<Tick>)
    requires Blank(g, s)
    ensures Sound(g, s) && LegalRun(g, s, ticks) && !AllSafe(g, s, ticks)
  {
    var t := Tick(WriteTo(0), true, false, ZEROES, WriteTo(0).addr);
    FirstRequest(g, s, t);
    var s1 := Cycle(g, s, t).0;
    var row := s.cache.rows[0];
    assert row.Ok(g) && !row.lines[0].valid && !row.lines[1].valid && !row.lines[0].dirty && !row.lines[1].dirty;
    hide LegalRun, AllSafe, Log, After, Blank, Cycle, Legal, Inv;
    InvShape(g, s);
    InvShape(g, s1);
    var unready := t.(ready := false);
    SameRequest(g, s1, unready);
    CleanMissCanBeHollow(g, s1, unready, t);
    ticks := [t, unready, t];
    assert ticks[1..] == [unready, t];
    LegalFirst(g, s, ticks);
    RunUnfolds(g, s, ticks);
  }

  lemma SameRequest(g: Geometry, s: System, t: Tick)
    requires Sound(g, s) && s.cache.phase.Serve? && t.bus == s.cache.req && t.bus.addr.In(g) && t.junk.In(g)
    ensures Legal(g, s, t)
  {
  }

  lemma FullOfDirt(row: Row)
    requires |row.lines| == 2 && row.wnext < 2 && !row.lines[0].valid && !row.lines[1].valid
    ensures var full := Filled(Filled(row, 0, true), 1, true);
      |full.lines| == 2 && full.wnext < 2 && full.lines[full.wnext].dirty && !full.Hit(2)
  {
  }

  /** So in every such geometry some schedule spoils memory. */
  lemma SpoilingScheduleExists(g: Geometry, s: System) returns (plan: seq<Control>)
    requires Blank(g, s) && g.tags >= 3
    ensures !SafeUnder(g, plan) && !FlatUnder(g, plan)
  {
    var ticks := StraysAreReachable(g, s);
    hide LegalRun, AllSafe, After;
    plan := seq(|ticks|, i requires 0 <= i < |ticks| => ControlOf(ticks[i]));
    RunOfNothing(g, After(g, s, ticks));
    assert ticks + [] == ticks;
    assert Continues(g, plan, s, ticks, []);
    FlatExactly(g, plan);
  }
}
