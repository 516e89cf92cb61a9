/**
 Two UARTs back to back: transmit FIFO, transmitter, wire, receiver, receive FIFO.  As long as the
 two clock dividers agree closely enough and the receive FIFO is not overrun, what is read at one
 end is exactly what was written at the other.
 */
module UartLink {
  import opened Fifo
  import opened Uart
  import Divider

  datatype Config = Config(txDiv: nat, rxDiv: nat, txCap: nat, rxCap: nat)

  datatype Link = Link(txq: seq<Octet>, wire: Wire, rx: Receiving, rxq: seq<Octet>)

  /** What the two bus masters do in one cycle: write a byte at one end, read one at the other. */
  datatype Tick = Tick(push: bool, data: Octet, pop: bool)

  function LinkEdge(c: Config, l: Link, t: Tick): Link
    requires l.wire.Ok() && l.rx.sampler.Ok()
  {
    var head := if l.txq != [] then l.txq[0] else t.data;
    var ack := l.wire.Ack();
    Link(QueueEdge(l.txq, c.txCap, false, t.push, t.data, ack),
         WireEdge(l.wire, c.txDiv, head, l.txq != [] && !ack),
         SamplerEdge(l.rx, c.rxDiv, l.rx.trig, l.wire.Level()),
         QueueEdge(l.rxq, c.rxCap, true, l.rx.trig, l.rx.byte, t.pop))
  }

  /** Cycle, counted from the start bit, in which the receiver takes sample `k`. */
  function SampleAt(c: Config, k: nat): nat {
    Half(c.rxDiv) + k * Reload(c.rxDiv)
  }

  /** Every sample falls inside the bit it is meant for. */
  ghost predicate Compatible(c: Config) {
    forall k | 0 <= k < 10 :: k * Reload(c.txDiv) <= SampleAt(c, k) < (k + 1) * Reload(c.txDiv)
  }

  /** Any two equal dividers of at least two are compatible. */
  lemma EqualDividersAreCompatible(c: Config)
    requires c.txDiv == c.rxDiv >= 2
    ensures Compatible(c)
  {
    var d, h := c.txDiv, Half(c.rxDiv);
    forall k | 0 <= k < 10 ensures k * d <= SampleAt(c, k) < (k + 1) * d {
      assert (k + 1) * d == k * d + d;
    }
  }

  /** Cycles since the start bit began. */
  function Age(c: Config, j: nat, left: nat): int {
    j * Reload(c.txDiv) + Reload(c.txDiv) - left
  }

  ghost predicate Inv(c: Config, l: Link) {
    var d := Reload(c.txDiv);
    && l.wire.Ok() && l.rx.sampler.Ok() && l.wire.left <= d
    && |l.txq| <= c.txCap && |l.rxq| <= c.rxCap && 1 <= c.rxCap
    && FrameInv(c, l.wire, l.rx.sampler, l.txq)
  }

  /** The byte the receiver announces in this cycle. */
  function Announced(l: Link): seq<Octet> {
    if l.rx.trig then [l.rx.byte] else []
  }

  /** The byte being received. */
  function OnWire(l: Link): seq<Octet> {
    if l.rx.sampler.Await? && l.wire.Frame? then [l.wire.byte] else []
  }

  /** Every byte accepted at one end and not yet read at the other, oldest first. */
  function Held(l: Link): seq<Octet> {
    l.rxq + Announced(l) + OnWire(l) + l.txq
  }

  /** The receive FIFO has room for a byte announced in this cycle. */
  predicate NoOverrun(c: Config, l: Link, t: Tick) {
    l.rx.trig && |l.rxq| == c.rxCap ==> t.pop
  }

  /** A sample taken now is a sample of the bit on the wire now. */
  lemma SampleIsCurrentBit(c: Config, k: nat, j: nat, left: nat)
    requires Compatible(c) && k < 10 && 0 < left <= Reload(c.txDiv)
    requires SampleAt(c, k) == Age(c, j, left)
    ensures j == k
  {
    var d := Reload(c.txDiv);
    assert k * d <= SampleAt(c, k) < (k + 1) * d == k * d + d;
    if j < k {
      Divider.MulOrder(j, k, d);
    } else if k < j {
      Divider.MulOrder(k, j, d);
    }
  }

  /** The receiver is done with a frame before the transmitter is. */
  lemma SampleBeforeEnd(c: Config, k: nat)
    requires Compatible(c) && k < 10
    ensures SampleAt(c, k) <= Age(c, 9, 1)
  {
    var d := Reload(c.txDiv);
    assert SampleAt(c, k) < (k + 1) * d == k * d + d;
    if k < 9 {
      Divider.MulOrder(k, 9, d);
    }
  }

  lemma AgeAdvances(c: Config, j: nat)
    ensures Age(c, j + 1, Reload(c.txDiv)) == Age(c, j, 1) + 1
    ensures Age(c, 0, Reload(c.txDiv)) == 0
    ensures forall left: nat | left > 0 :: Age(c, j, left - 1) == Age(c, j, left) + 1
  {
    var d := Reload(c.txDiv);
    assert (j + 1) * d == j * d + d;
  }

  /** Cycles until the next sample, as the age of the frame goes up by one. */
  lemma DueAdvances(c: Config, k: nat, j: nat, left: nat)
    requires Compatible(c) && k < 10 && j < 10 && 0 < left <= Reload(c.txDiv)
    requires SampleAt(c, k) > Age(c, j, left)
    ensures j == 9 ==> left > 1
    ensures left == 1 ==> Age(c, j + 1, Reload(c.txDiv)) == Age(c, j, left) + 1
    ensures left > 1 ==> Age(c, j, left - 1) == Age(c, j, left) + 1
  {
    SampleBeforeEnd(c, k);
    AgeAdvances(c, j);
  }

  lemma NextSample(c: Config, k: nat)
    ensures SampleAt(c, k + 1) == SampleAt(c, k) + Reload(c.rxDiv)
    ensures SampleAt(c, 0) == Half(c.rxDiv)
  {
    assert (k + 1) * Reload(c.rxDiv) == k * Reload(c.rxDiv) + Reload(c.rxDiv);
  }

  /** The frame part of the invariant, for the wire and sampler after an edge. */
  ghost predicate FrameInv(c: Config, w: Wire, s: Sampler, txq: seq<Octet>) {
    match w
    case Quiet(_) => s.Listening?
    case Frame(b, j, left, ack) =>
      && (ack <==> j == 0 && left == Reload(c.txDiv))
      && (ack ==> txq != [] && txq[0] == b)
      && match s {
        case Listening => ack || j == 9
        case Await(due, got) =>
          && !ack
          && due == SampleAt(c, |got|) - Age(c, j, left) + 1
          && (forall k | 0 <= k < |got| :: got[k] == FrameBit(b, k))
      }
  }

  lemma StepFrame(c: Config, l: Link, t: Tick)
    requires Inv(c, l) && Compatible(c)
    ensures var l' := LinkEdge(c, l, t);
      FrameInv(c, l'.wire, l'.rx.sampler, l'.txq)
  {
    hide Compatible, SampleAt, Age, Reload, Half;
    AgeAdvances(c, 0);
    NextSample(c, 0);
    if l.wire.Frame? && l.rx.sampler.Await? {
      var k := |l.rx.sampler.got|;
      NextSample(c, k);
      if l.rx.sampler.left == 1 {
        SampleIsCurrentBit(c, k, l.wire.j, l.wire.left);
        AgeAdvances(c, k);
        assert k < 9 ==> l.wire.left > 1 || l.wire.j < 9;
      } else {
        DueAdvances(c, k, l.wire.j, l.wire.left);
      }
    }
  }

  /** The frame on the wire is accounted for from acknowledgement to announcement. */
  lemma WireConserves(c: Config, l: Link, t: Tick)
    requires Inv(c, l) && Compatible(c)
    ensures var l' := LinkEdge(c, l, t);
      Announced(l') + OnWire(l') == OnWire(l) + (if l.wire.Ack() then [l.txq[0]] else [])
  {
    StepFrame(c, l, t);
    hide Compatible, SampleAt, Age, Half;
    if l.wire.Frame? && l.rx.sampler.Await? {
      var k := |l.rx.sampler.got|;
      if l.rx.sampler.left == 1 {
        SampleIsCurrentBit(c, k, l.wire.j, l.wire.left);
        if k == 9 {
          assert l.rx.sampler.got[1..] == l.wire.byte;
        }
      } else {
        DueAdvances(c, k, l.wire.j, l.wire.left);
      }
    }
  }

  /** What one edge does to the two FIFOs. */
  lemma StepQueues(c: Config, l: Link, t: Tick)
    requires Inv(c, l) && NoOverrun(c, l, t)
    ensures var l' := LinkEdge(c, l, t);
      var head := if l.wire.Ack() then 1 else 0;
      && |l.txq| >= head
      && l'.txq == l.txq[head..] + Pushed(c, l, t) && |l'.txq| <= c.txCap
      && l'.rxq == l.rxq[Taken(l, t)..] + Announced(l) && |l'.rxq| <= c.rxCap
  {
    hide Compatible, SampleAt, Age, Half, FrameBit, WireEdge, SamplerEdge;
  }

  function Pushed(c: Config, l: Link, t: Tick): seq<Octet> {
    if t.push && |l.txq| < c.txCap then [t.data] else []
  }

  function Taken(l: Link, t: Tick): (n: nat)
    ensures n <= |l.rxq|
  {
    if t.pop && l.rxq != [] then 1 else 0
  }

  lemma StepInv(c: Config, l: Link, t: Tick)
    requires Inv(c, l) && Compatible(c) && NoOverrun(c, l, t)
    ensures Inv(c, LinkEdge(c, l, t))
  {
    StepFrame(c, l, t);
    StepQueues(c, l, t);
    hide FrameInv, QueueEdge, Compatible;
  }

  /** One cycle moves the oldest held byte out if the reader takes it, appends an accepted write, and
      changes nothing else about the bytes on their way. */
  lemma StepConserves(c: Config, l: Link, t: Tick)
    requires Inv(c, l) && Compatible(c) && NoOverrun(c, l, t)
    ensures l.rxq <= Held(l)
    ensures Held(LinkEdge(c, l, t)) == Held(l)[Taken(l, t)..] + Pushed(c, l, t)
  {
    var l' := LinkEdge(c, l, t);
    StepQueues(c, l, t);
    WireConserves(c, l, t);
    hide Inv, LinkEdge, Pushed, Taken;
    // The head of the transmit FIFO leaves it in the cycle it is acknowledged.
    var n := if l.wire.Ack() then 1 else 0;
    assert l.txq == l.txq[..n] + l.txq[n..];
    Regroup(l.rxq, Announced(l), OnWire(l), l.txq[..n], l.txq[n..], Announced(l'), OnWire(l'),
            Pushed(c, l, t), Taken(l, t));
  }

  lemma Regroup(q: seq<Octet>, a: seq<Octet>, f: seq<Octet>, head: seq<Octet>, rest: seq<Octet>,
                a': seq<Octet>, f': seq<Octet>, pushed: seq<Octet>, taken: nat)
    requires taken <= |q| && a' + f' == f + head
    ensures q[taken..] + a + a' + f' + (rest + pushed) == (q + a + f + (head + rest))[taken..] + pushed
  {
    assert q[taken..] + a + a' + f' == q[taken..] + a + (a' + f');
    assert (q + a + f + (head + rest))[taken..] == q[taken..] + a + (f + head) + rest;
  }

  /* ---- Whole runs ---- */

  ghost predicate NoOverruns(c: Config, l: Link, ticks: seq<Tick>)
    requires l.wire.Ok() && l.rx.sampler.Ok()
    decreases |ticks|
  {
    ticks == [] || (NoOverrun(c, l, ticks[0]) && NoOverruns(c, LinkEdge(c, l, ticks[0]), ticks[1..]))
  }

  /** The link after a run, the bytes accepted for sending, and the bytes read. */
  function Run(c: Config, l: Link, ticks: seq<Tick>): (Link, seq<Octet>, seq<Octet>)
    requires l.wire.Ok() && l.rx.sampler.Ok()
    decreases |ticks|
  {
    if ticks == [] then (l, [], [])
    else
      var t := ticks[0];
      var (l', sent, got) := Run(c, LinkEdge(c, l, t), ticks[1..]);
      (l',
       Pushed(c, l, t) + sent,
       l.rxq[..Taken(l, t)] + got)
  }

  /** Bytes read, followed by bytes still on their way, are the bytes sent, in order. */
  lemma {:induction false} RunConserves(c: Config, l: Link, ticks: seq<Tick>)
    requires Inv(c, l) && Compatible(c) && NoOverruns(c, l, ticks)
    ensures var (l', sent, got) := Run(c, l, ticks);
      Inv(c, l') && got + Held(l') == Held(l) + sent
    decreases |ticks|
  {
    if ticks != [] {
      var t := ticks[0];
      var l1 := LinkEdge(c, l, t);
      StepConserves(c, l, t);
      StepInv(c, l, t);
      hide Inv, LinkEdge, Held, NoOverruns, Pushed, Taken;
      RunConserves(c, l1, ticks[1..]);
      var (l', sent', got') := Run(c, l1, ticks[1..]);
      Chain(Held(l), l.rxq[..Taken(l, t)], Taken(l, t), Pushed(c, l, t), Held(l1), got', Held(l'), sent');
    }
  }

  lemma Chain(held: seq<Octet>, popped: seq<Octet>, taken: nat, pushed: seq<Octet>, held': seq<Octet>,
              got: seq<Octet>, end: seq<Octet>, sent: seq<Octet>)
    requires taken <= |held| && popped == held[..taken]
    requires held' == held[taken..] + pushed && got + end == held' + sent
    ensures popped + got + end == held + (pushed + sent)
  {
    assert popped + got + end == popped + (got + end);
  }

  const IDLE := Receiving(Listening, false, [true, true, true, true, true, true, true, true])

  /** From reset, once nothing is on its way any more, exactly the bytes sent have been read. */
  lemma RoundTrip(c: Config, ticks: seq<Tick>)
    requires Compatible(c) && c.rxCap >= 1
    requires NoOverruns(c, Link([], Quiet(1), IDLE, []), ticks)
    ensures var (l, sent, got) := Run(c, Link([], Quiet(1), IDLE, []), ticks);
      got <= sent && (Held(l) == [] ==> got == sent)
  {
    RunConserves(c, Link([], Quiet(1), IDLE, []), ticks);
    var (l, sent, got) := Run(c, Link([], Quiet(1), IDLE, []), ticks);
    assert got + Held(l) == sent;
  }

  /** `n` periods of length `d`. */
  function Periods(n: nat, d: nat): nat {
    if n == 0 then 0 else d + Periods(n - 1, d)
  }

  /** Cycles after which, with no further writes, every held byte has reached the receive FIFO. */
  function Left(c: Config, l: Link): nat
    requires l.wire.Ok()
  {
    var d := Reload(c.txDiv);
    match l.wire
    case Quiet(left) =>
      (if l.txq == [] then 0 else left + 1 + Periods(|l.txq|, Periods(10, d))) + if l.rx.trig then 1 else 0
    case Frame(_, j, left, ack) =>
      left + Periods(9 - j, d) + 1 + Periods(if ack && l.txq != [] then |l.txq| - 1 else |l.txq|, Periods(10, d))
  }

  /** Without further writes the count runs down to zero, and at zero nothing is left in between:
      back-to-back bytes take ten bit times each. */
  lemma Delivery(c: Config, l: Link, t: Tick)
    requires Inv(c, l) && Compatible(c) && NoOverrun(c, l, t) && !t.push
    ensures Inv(c, LinkEdge(c, l, t))
    ensures Left(c, l) > 0 ==> Left(c, LinkEdge(c, l, t)) < Left(c, l)
    ensures Left(c, l) == 0 ==> Held(l) == l.rxq && Left(c, LinkEdge(c, l, t)) == 0
  {
    StepInv(c, l, t);
    hide Compatible, SampleAt, Age, Half, FrameBit;
    assert Periods(10, Reload(c.txDiv)) == Reload(c.txDiv) + Periods(9, Reload(c.txDiv));
  }

  /** So over a run without writes that lasts as long as the count, every byte not yet read ends up in
      the receive FIFO. */
  lemma {:induction false} Delivered(c: Config, l: Link, ticks: seq<Tick>)
    requires Inv(c, l) && Compatible(c) && NoOverruns(c, l, ticks)
    requires forall i | 0 <= i < |ticks| :: !ticks[i].push
    requires Left(c, l) <= |ticks|
    ensures var (l', sent, got) := Run(c, l, ticks);
      Inv(c, l') && Held(l') == l'.rxq && sent == [] && got + l'.rxq == Held(l)
    decreases |ticks|
  {
    RunConserves(c, l, ticks);
    hide Compatible, Left, Held, LinkEdge, Inv;
    if ticks == [] {
      Settled(c, l);
    } else {
      var l1 := LinkEdge(c, l, ticks[0]);
      Delivery(c, l, ticks[0]);
      Delivered(c, l1, ticks[1..]);
    }
  }

  lemma Settled(c: Config, l: Link)
    requires Inv(c, l) && Left(c, l) == 0
    ensures Held(l) == l.rxq
  {
  }

  /* ---- The link built from the registers ---- */

  ghost predicate Wired(c: Config, txFifo: ParamFifo<Octet>, tx: Transmitter, rx: Receiver, rxFifo: ParamFifo<Octet>)
    reads txFifo, tx, rx, rxFifo
  {
    && txFifo.Valid() && tx.Valid() && rx.Valid() && rxFifo.Valid()
    && txFifo != rxFifo && txFifo.storage != rxFifo.storage
    && txFifo.storage.Length == c.txCap + 1 && rxFifo.storage.Length == c.rxCap + 1
    && !txFifo.allowFullWe && rxFifo.allowFullWe
  }

  ghost function LinkOf(txFifo: ParamFifo<Octet>, tx: Transmitter, rx: Receiver, rxFifo: ParamFifo<Octet>): Link
    reads txFifo, txFifo.storage, tx, rx, rxFifo, rxFifo.storage
    requires txFifo.Valid() && rxFifo.Valid()
  {
    Link(txFifo.Contents(), tx.wire, rx.View(), rxFifo.Contents())
  }

  /** One clock edge of the two peripherals' FIFOs and serial units, wired together. */
  method Cycle(c: Config, txFifo: ParamFifo<Octet>, tx: Transmitter, rx: Receiver, rxFifo: ParamFifo<Octet>, t: Tick)
    requires Wired(c, txFifo, tx, rx, rxFifo)
    modifies txFifo, txFifo.storage, tx, rx, rxFifo, rxFifo.storage
    ensures Wired(c, txFifo, tx, rx, rxFifo)
    ensures LinkOf(txFifo, tx, rx, rxFifo) == LinkEdge(c, old(LinkOf(txFifo, tx, rx, rxFifo)), t)
  {
    hide QueueEdge, WireEdge, SamplerEdge;
    // Wires of this cycle, all from the registers before the edge.
    var txd, ack, hasDat, head := tx.Txd(), tx.txAck, txFifo.HasDat(), txFifo.Rdata();
    var trig, byte := rx.rxTrig, rx.rxByte;
    txFifo.Clock(t.push, t.data, ack);
    tx.Clock(c.txDiv, if hasDat then head else t.data, hasDat && !ack);
    rx.Clock(c.rxDiv, trig, txd);
    rxFifo.Clock(trig, byte, t.pop);
  }
}
