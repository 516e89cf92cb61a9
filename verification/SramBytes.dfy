/**
 What the SRAM's users see, byte by byte and cycle by cycle: which bytes a store changes, which number a
 load gives, that a store is loaded back, and when an access is taken over.
 */
module SramBytes {
  import opened Words
  import opened Sram

  /* ---- Bytes ---- */

  function Bytes(size: Size): nat { match size case Byte8 => 1 case Half => 2 case Full => 4 }

  /** A store changes the bytes of its operand, lowest first, and no others. */
  lemma StoredBytes(m: seq<Byte>, a: Access, k: nat)
    requires a.Ok(|m|) && !a.load && k < |m|
    ensures Perform(m, a)[k] == if a.addr <= k < a.addr + Bytes(a.size) then Lane(a.data, k - a.addr) else m[k]
  {
  }

  /** The number a load leaves in a 32-bit register, from the bytes it covers. */
  lemma LoadedNumber(m: seq<Byte>, a: Access)
    requires a.Ok(|m|)
    ensures a.addr + Bytes(a.size) <= |m|
    ensures var at := a.addr;
      Load(m, a) ==
        match a.size
        case Byte8 => var b: int := m[at]; if a.sign && b >= 0x80 then 0xFFFF_FF00 + b else b
        case Half =>
          var b: int, top: int := m[at], m[at + 1];
          if a.sign && top >= 0x80 then 0xFFFF_0000 + 0x100 * top + b else 0x100 * top + b
        case Full =>
          var b: int, c: int, d: int, top: int := m[at], m[at + 1], m[at + 2], m[at + 3];
          0x100_0000 * top + 0x1_0000 * d + 0x100 * c + b
  {
    LittleEndianUnfolds(m, a.addr, a.Width());
    hide LittleEndian;
  }

  /** The lowest bytes of a register. */
  function LowBytes(w: Word, size: Size): int {
    match size
    case Byte8 => w.b0
    case Half => w.b0 + 0x100 * w.b1
    case Full => w.b0 + 0x100 * w.b1 + 0x1_0000 * w.b2 + 0x100_0000 * w.b3
  }

  /** What was stored is loaded back from the same place; any other access, or none between, leaves it there. */
  lemma LoadsWhatWasStored(m: seq<Byte>, a: Access, between: Access, b: Access)
    requires a.Ok(|m|) && !a.load && between.Ok(|m|) && b.Ok(|m|)
    requires b.load && !b.sign && b.size == a.size && b.addr == a.addr
    requires between.load || between.addr + Bytes(between.size) <= a.addr || a.addr + Bytes(a.size) <= between.addr
    ensures Load(Perform(Perform(m, a), between), b) == LowBytes(a.data, a.size)
  {
    var m1 := Perform(m, a);
    var m2 := Perform(m1, between);
    forall k: nat | a.addr <= k < a.addr + Bytes(a.size) ensures m2[k] == Lane(a.data, k - a.addr) {
      StoredBytes(m, a, k);
      if !between.load {
        StoredBytes(m1, between, k);
      }
    }
    LoadedNumber(m2, b);
    hide Perform, Load;
    assert m2[a.addr] == Lane(a.data, 0);
    assert !a.size.Byte8? ==> m2[a.addr + 1] == Lane(a.data, 1);
    assert a.size.Full? ==> m2[a.addr + 2] == Lane(a.data, 2) && m2[a.addr + 3] == Lane(a.data, 3);
  }

  /* ---- Cycles ---- */

  predicate StimuliOk(xs: seq<Stimulus>, bytes: nat) { forall k | 0 <= k < |xs| :: StimulusOk(xs[k], bytes) }

  /** The accesses taken over during a run from idle, and when. */
  ghost function TakenOver(m: seq<Byte>, xs: seq<Stimulus>): seq<Accepted>
    requires |m| % 4 == 0 && StimuliOk(xs, |m|)
  {
    Run(m, xs).1.accepted
  }

  lemma OneMoreCycle(m: seq<Byte>, xs: seq<Stimulus>, x: Stimulus)
    requires |m| % 4 == 0 && StimuliOk(xs, |m|) && StimulusOk(x, |m|)
    ensures StimuliOk(xs + [x], |m|) && Inv(m, Run(m, xs).0, Run(m, xs).1) && MachineOk(Run(m, xs).0)
    ensures Run(m, xs).1.now == |xs| && Run(m, xs + [x]).1 == Record(Run(m, xs).0, Run(m, xs).1, x)
  {
    hide Cycle, Record, LogOk, Serving, Idle;
    StepInv(m, Run(m, xs).0, Run(m, xs).1, x);
    assert (xs + [x])[..|xs|] == xs;
  }

  /** The controller is free exactly if nothing was taken over in the last three cycles. */
  lemma FreeAfterFour(m: seq<Byte>, s: Machine, l: Log)
    requires Inv(m, s, l)
    ensures !s.held.valid || s.regs.ready <==> l.accepted == [] || l.accepted[|l.accepted| - 1].at + 4 <= l.now
  {
    hide Load, Memory, Gathered, AllOk, Accesses, Lanes, Partial;
    if l.accepted != [] && !s.held.valid {
      assert l.answers[|l.answers| - 1].at == l.accepted[|l.answers| - 1].at + 4;
    }
  }

  /** An offered access is taken over exactly if none was taken over in the last three cycles. */
  lemma AcceptsExactly(m: seq<Byte>, xs: seq<Stimulus>, x: Stimulus)
    requires |m| % 4 == 0 && StimuliOk(xs, |m|) && StimulusOk(x, |m|)
    ensures StimuliOk(xs + [x], |m|)
    ensures var before := TakenOver(m, xs);
      TakenOver(m, xs + [x]) ==
        if x.offer.valid && (before == [] || before[|before| - 1].at + 4 <= |xs|)
        then before + [Accepted(|xs|, x.offer.a)] else before
  {
    hide Run, Inv, StimulusOk;
    OneMoreCycle(m, xs, x);
    FreeAfterFour(m, Run(m, xs).0, Run(m, xs).1);
  }

  /** The accesses of every fourth cycle. */
  function EveryFourth(xs: seq<Stimulus>): seq<Accepted> {
    seq((|xs| + 3) / 4, i requires 0 <= i < (|xs| + 3) / 4 => Accepted(4 * i, xs[4 * i].offer.a))
  }

  lemma OneMoreOffer(xs: seq<Stimulus>, x: Stimulus)
    ensures var s := EveryFourth(xs);
      EveryFourth(xs + [x]) ==
        if s == [] || s[|s| - 1].at + 4 <= |xs| then s + [Accepted(|xs|, x.offer.a)] else s
  {
    var q, r := |xs| / 4, |xs| % 4;
    assert (|xs| + 3) / 4 == if r == 0 then q else q + 1;
    assert (|xs| + 4) / 4 == q + 1;
  }

  /** Under a steady stream of offers every fourth one is taken over: the controller is never idle. */
  lemma {:induction false} EveryFourthCycle(m: seq<Byte>, xs: seq<Stimulus>)
    requires |m| % 4 == 0 && StimuliOk(xs, |m|) && forall k | 0 <= k < |xs| :: xs[k].offer.valid
    ensures TakenOver(m, xs) == EveryFourth(xs)
  {
    hide StimulusOk, TakenOver, EveryFourth;
    if xs == [] {
      Nothing(m);
    } else {
      var n := |xs| - 1;
      EveryFourthCycle(m, xs[..n]);
      AcceptsExactly(m, xs[..n], xs[n]);
      OneMoreOffer(xs[..n], xs[n]);
      assert xs[..n] + [xs[n]] == xs;
    }
  }

  lemma Nothing(m: seq<Byte>)
    requires |m| % 4 == 0
    ensures StimuliOk([], |m|) && TakenOver(m, []) == EveryFourth([])
  {
  }
}
