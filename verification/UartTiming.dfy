/**
 When bits are on the wire and when they are sampled, in clock cycles: the transmitter and receiver over
 whole frames, in terms of the divider alone.
 */
module UartTiming {
  import opened Uart
  import opened UartLink

  /* ---- The transmitter ---- */

  /** What the transmitter is given in a cycle. */
  datatype TxIn = TxIn(byte: Octet, trig: bool)

  function Sent(w: Wire, clkDiv: nat, ins: seq<TxIn>): (w': Wire)
    requires w.Ok()
    ensures w'.Ok()
  {
    if ins == [] then w
    else WireEdge(Sent(w, clkDiv, ins[..|ins| - 1]), clkDiv, ins[|ins| - 1].byte, ins[|ins| - 1].trig)
  }

  /** The wire in the first cycle of a frame. */
  function Started(clkDiv: nat, b: Octet): (w: Wire)
    ensures w.Ok()
  {
    WireEdge(Quiet(1), clkDiv, b, true)
  }

  lemma {:induction false} WithinFrame(clkDiv: nat, b: Octet, ins: seq<TxIn>, j: nat, i: nat)
    requires clkDiv >= 1 && j < 10 && i < clkDiv && |ins| == j * clkDiv + i
    ensures var w := Sent(Started(clkDiv, b), clkDiv, ins);
      w.Frame? && w.byte == b && w.j == j && w.left == clkDiv - i
    decreases |ins|
  {
    if i > 0 {
      WithinFrame(clkDiv, b, ins[..|ins| - 1], j, i - 1);
    } else if j > 0 {
      assert j * clkDiv == (j - 1) * clkDiv + clkDiv;
      WithinFrame(clkDiv, b, ins[..|ins| - 1], j - 1, clkDiv - 1);
    }
  }

  /** From cycle j * clkDiv to cycle (j + 1) * clkDiv of a frame the wire shows bit j: a zero, the byte
      from its first bit on, and a one. */
  lemma BitTimes(clkDiv: nat, b: Octet, ins: seq<TxIn>, j: nat, i: nat)
    requires clkDiv >= 1 && j < 10 && i < clkDiv && |ins| == j * clkDiv + i
    ensures Sent(Started(clkDiv, b), clkDiv, ins).Level() == ([false] + b + [true])[j]
  {
    WithinFrame(clkDiv, b, ins, j, i);
  }

  /** A frame takes ten bit times; then the wire idles, or shows the start bit of a byte that waits. */
  lemma FrameEnds(clkDiv: nat, b: Octet, ins: seq<TxIn>)
    requires clkDiv >= 1 && |ins| == 10 * clkDiv
    ensures var w, last := Sent(Started(clkDiv, b), clkDiv, ins), ins[|ins| - 1];
      if last.trig then w == Started(clkDiv, last.byte) else w == Quiet(clkDiv)
  {
    WithinFrame(clkDiv, b, ins[..|ins| - 1], 9, clkDiv - 1);
  }

  /** A divider of zero counts as one. */
  lemma ZeroIsOne(w: Wire, r: Receiving, b: Octet, x: bool, y: bool)
    requires w.Ok() && r.sampler.Ok()
    ensures WireEdge(w, 0, b, x) == WireEdge(w, 1, b, x)
    ensures SamplerEdge(r, 0, x, y) == SamplerEdge(r, 1, x, y)
  {
  }

  /* ---- The receiver ---- */

  datatype RxIn = RxIn(rxd: bool, ack: bool)

  function Seen(r: Receiving, clkDiv: nat, ins: seq<RxIn>): (r': Receiving)
    requires r.sampler.Ok()
    ensures r'.sampler.Ok()
  {
    if ins == [] then r
    else SamplerEdge(Seen(r, clkDiv, ins[..|ins| - 1]), clkDiv, ins[|ins| - 1].ack, ins[|ins| - 1].rxd)
  }

  /** Half a bit time, but at least one cycle. */
  function FirstSample(clkDiv: nat): nat { if clkDiv / 2 >= 1 then clkDiv / 2 else 1 }

  /** The cycle in which sample `k` is taken; cycle 0 is the first of the start bit. */
  function SampleCycle(clkDiv: nat, k: nat): nat { FirstSample(clkDiv) + k * clkDiv }

  /** `got` holds the samples due so far. */
  ghost predicate Taken(clkDiv: nat, ins: seq<RxIn>, got: seq<bool>) {
    forall m | 0 <= m < |got| :: SampleCycle(clkDiv, m) < |ins| && got[m] == ins[SampleCycle(clkDiv, m)].rxd
  }

  lemma TakenEarlier(clkDiv: nat, ins: seq<RxIn>, got: seq<bool>)
    requires ins != [] && Taken(clkDiv, ins[..|ins| - 1], got)
    ensures Taken(clkDiv, ins, got)
  {
    hide SampleCycle;
  }

  lemma NextSample(clkDiv: nat, k: nat)
    ensures SampleCycle(clkDiv, k + 1) == SampleCycle(clkDiv, k) + clkDiv
    ensures SampleCycle(clkDiv, 0) == FirstSample(clkDiv)
  {
    assert (k + 1) * clkDiv == k * clkDiv + clkDiv;
  }

  /** `i` cycles after sample `k - 1`, or after the line has gone low. */
  lemma {:induction false} SamplesTaken(r: Receiving, clkDiv: nat, ins: seq<RxIn>, k: nat, i: nat)
    requires clkDiv >= 1 && r.sampler.Listening? && k < 10 && ins != [] && !ins[0].rxd
    requires i < if k == 0 then FirstSample(clkDiv) else clkDiv
    requires |ins| == 1 + i + if k == 0 then 0 else SampleCycle(clkDiv, k - 1)
    ensures var s := Seen(r, clkDiv, ins).sampler;
      && s.Await? && |s.got| == k && s.left == (if k == 0 then FirstSample(clkDiv) else clkDiv) - i
      && Taken(clkDiv, ins, s.got)
    decreases |ins|
  {
    hide SampleCycle, Taken, FirstSample;
    var front := ins[..|ins| - 1];
    if i > 0 {
      SamplesTaken(r, clkDiv, front, k, i - 1);
      TakenEarlier(clkDiv, ins, Seen(r, clkDiv, front).sampler.got);
    } else if k == 0 {
      assert front == [];
      StartSeen(r, clkDiv, ins);
    } else {
      LastCycle(clkDiv, k);
      var due := if k == 1 then FirstSample(clkDiv) else clkDiv;
      SamplesTaken(r, clkDiv, front, k - 1, due - 1);
      OneMoreSample(clkDiv, ins, Seen(r, clkDiv, front).sampler.got);
    }
  }

  lemma StartSeen(r: Receiving, clkDiv: nat, ins: seq<RxIn>)
    requires r.sampler.Listening? && |ins| == 1 && !ins[0].rxd
    ensures Seen(r, clkDiv, ins).sampler == Await(FirstSample(clkDiv), []) && Taken(clkDiv, ins, [])
  {
    assert Seen(r, clkDiv, ins[..0]) == r;
  }

  lemma LastCycle(clkDiv: nat, k: nat)
    requires clkDiv >= 1 && k > 0
    ensures FirstSample(clkDiv) >= 1
    ensures SampleCycle(clkDiv, k - 1) ==
      (if k == 1 then 0 else SampleCycle(clkDiv, k - 2)) + if k == 1 then FirstSample(clkDiv) else clkDiv
  {
    NextSample(clkDiv, k - 1);
    if k > 1 {
      NextSample(clkDiv, k - 2);
    }
    hide SampleCycle;
  }

  lemma OneMoreSample(clkDiv: nat, ins: seq<RxIn>, got: seq<bool>)
    requires ins != [] && Taken(clkDiv, ins[..|ins| - 1], got) && SampleCycle(clkDiv, |got|) == |ins| - 1
    ensures Taken(clkDiv, ins, got + [ins[|ins| - 1].rxd])
  {
    hide SampleCycle;
  }

  /** The receiver samples at half a bit time and then once a bit time.  If the tenth sample is a one it
      announces the second to the ninth as its byte; else it drops the frame. */
  lemma FrameSeen(r: Receiving, clkDiv: nat, ins: seq<RxIn>)
    requires clkDiv >= 1 && r.sampler.Listening?
    requires |ins| == 1 + FirstSample(clkDiv) + 9 * clkDiv && !ins[0].rxd
    ensures var z, h := Seen(r, clkDiv, ins), FirstSample(clkDiv);
      && z.sampler.Listening?
      && (ins[h + 9 * clkDiv].rxd ==>
            z.trig && forall m | 0 <= m < 8 ::
              h + (m + 1) * clkDiv < |ins| && z.byte[m] == ins[h + (m + 1) * clkDiv].rxd)
      && (!ins[h + 9 * clkDiv].rxd ==> z.byte == Seen(r, clkDiv, ins[..|ins| - 1]).byte)
  {
    var front, h := ins[..|ins| - 1], FirstSample(clkDiv);
    LastCycle(clkDiv, 10);
    assert SampleCycle(clkDiv, 9) == h + 9 * clkDiv;
    SamplesTaken(r, clkDiv, front, 9, clkDiv - 1);
    var got := Seen(r, clkDiv, front).sampler.got;
    forall m | 0 <= m < 8 ensures h + (m + 1) * clkDiv < |ins| && got[1..][m] == ins[h + (m + 1) * clkDiv].rxd {
      assert SampleCycle(clkDiv, m + 1) == h + (m + 1) * clkDiv;
      assert got[m + 1] == front[SampleCycle(clkDiv, m + 1)].rxd;
    }
  }

  /* ---- How far apart two dividers may be ---- */

  /** Sample k falls into bit k, for every k. */
  predicate Agree(txDiv: nat, rxDiv: nat) {
    forall k | 0 <= k < 10 :: k * txDiv <= FirstSample(rxDiv) + k * rxDiv <= (k + 1) * txDiv - 1
  }

  lemma AgreeingIsCompatible(c: Config)
    requires c.txDiv >= 1 && c.rxDiv >= 1
    ensures Compatible(c) <==> Agree(c.txDiv, c.rxDiv)
  {
    assert Reload(c.txDiv) == c.txDiv && Reload(c.rxDiv) == c.rxDiv && Half(c.rxDiv) == FirstSample(c.rxDiv);
    if Compatible(c) {
      forall k | 0 <= k < 10 ensures k * c.txDiv <= FirstSample(c.rxDiv) + k * c.rxDiv <= (k + 1) * c.txDiv - 1 {
        assert k * Reload(c.txDiv) <= SampleAt(c, k) < (k + 1) * Reload(c.txDiv);
      }
    }
  }

  /** The round trip, for two dividers that agree. */
  lemma AgreeingRoundTrip(c: Config, ticks: seq<Tick>)
    requires c.txDiv >= 1 && c.rxDiv >= 1 && Agree(c.txDiv, c.rxDiv) && c.rxCap >= 1
    requires NoOverruns(c, Link([], Quiet(1), IDLE, []), ticks)
    ensures var (l, sent, got) := Run(c, Link([], Quiet(1), IDLE, []), ticks);
      got <= sent && (Held(l) == [] ==> got == sent)
  {
    AgreeingIsCompatible(c);
    RoundTrip(c, ticks);
  }
}
