/**
 The byte-driven packet receivers of bootloader and programmer: a state variable, a header buffer, a
 data buffer and a running checksum, proved to collect frames as Framing describes.
 */
module Receiver {
  import opened Words
  import opened Framing

  type Memory = map<U32, Byte>

  function At(addr: U32, i: nat): U32 { (addr + i) % 0x1_0000_0000 }

  /** Memory after the bytes `s` have been stored from `addr` on, wrapping at the end. */
  function Overlay(mem: Memory, addr: U32, s: Bytes): Memory {
    if s == [] then mem
    else Overlay(mem, addr, s[..|s| - 1])[At(addr, |s| - 1) := s[|s| - 1]]
  }

  /** The bytes at `n` addresses from `addr` on. */
  function Fetch(mem: Memory, addr: U32, n: nat): Bytes
    requires forall i | 0 <= i < n :: At(addr, i) in mem
  {
    seq(n, i requires 0 <= i < n => mem[At(addr, i)])
  }

  lemma {:induction false} OverlayAt(mem: Memory, addr: U32, s: Bytes)
    requires |s| < 0x1_0000_0000
    ensures forall i | 0 <= i < |s| ::
      At(addr, i) in Overlay(mem, addr, s) && Overlay(mem, addr, s)[At(addr, i)] == s[i]
  {
    if s != [] {
      var n := |s| - 1;
      OverlayAt(mem, addr, s[..n]);
      forall i | 0 <= i < |s|
        ensures At(addr, i) in Overlay(mem, addr, s) && Overlay(mem, addr, s)[At(addr, i)] == s[i]
      {
        if i < n {
          assert s[..n][i] == s[i];
          AtDistinct(addr, i, n);
        }
      }
    }
  }

  lemma AtDistinct(addr: U32, i: nat, j: nat)
    requires i < j < 0x1_0000_0000
    ensures At(addr, i) != At(addr, j)
  {
  }

  datatype Option<T> = None | Some(value: T)

  datatype RxType = RX_NONE | RX_PHDR | RX_DATA | RX_XSUM | RX_NCAP

  class Parser {
    const c: Config
    var rxType: RxType
    var rxLen: nat
    const header: array<Byte>
    const data: array<Byte>
    var xsum: Byte
    // Where a direct receiver puts P_WDATA.
    var mem: Memory
    var waddr: U32
    /** The frame so far, and memory as it was when the frame began. */
    ghost var got: Bytes
    ghost var base: Memory

    ghost predicate Direct()
      reads this
    {
      |got| >= 9 && c.direct && Kind(got) == P_WDATA
    }

    /** The header has arrived; what is still to come, and where the payload went. */
    ghost predicate Beyond()
      reads this, header, data
    {
      && 9 <= |got| <= 9 + Length(got)
      && header.Length == HEADER && header[..] == got[1..9]
      && var fits := c.Fits(Kind(got), Length(got));
      && (rxType == RX_XSUM <==> |got| == 9 + Length(got))
      && (rxType == RX_NCAP ==> !fits) && (rxType == RX_DATA ==> fits)
      && (rxType != RX_XSUM ==> rxLen == |got| - 9)
      && (fits && !Direct() ==> |got| - 9 <= data.Length && data[..|got| - 9] == got[9..])
    }

    ghost predicate Valid()
      reads this, header, data
    {
      && header.Length == HEADER && data.Length == c.capacity < 0x1_0000_0000 && header != data
      && (got != [] ==> got[0] == START && xsum == Sum(got) % 256)
      && mem == (if Direct() then Overlay(base, waddr, got[9..]) else base)
      && match rxType {
        case RX_NONE => got == []
        case RX_PHDR => 1 <= |got| <= HEADER && rxLen == |got| - 1 && header[..rxLen] == got[1..]
        case _ => Beyond()
      }
    }

    /** What one more byte `b` does to the frame `f`, and to memory if it ends it. */
    ghost predicate Took(f: Bytes, m: Memory, b: Byte, event: Option<Event>)
      reads this
    {
      && var p := Take(c, Progress(f, []), b);
      && got == p.got
      && event == (if p.events == [] then None else Some(p.events[0]))
      && base == (if event.None? then m else mem)
      && (event.Some? ==>
            && Framed(f + [b])
            && mem == if c.direct && Kind(f + [b]) == P_WDATA then Overlay(m, waddr, f[9..]) else m)
    }

    constructor (c: Config, mem: Memory, waddr: U32)
      requires c.capacity < 0x1_0000_0000
      ensures Valid() && got == [] && this.mem == base == mem && this.waddr == waddr && this.c == c
      ensures fresh(header) && fresh(data)
    {
      this.c, this.mem, this.waddr := c, mem, waddr;
      rxType, rxLen, xsum := RX_NONE, 0, 0;
      header, data := new Byte[HEADER](_ => 0), new Byte[c.capacity](_ => 0);
      got, base := [], mem;
    }

    function HeaderType(): U32
      reads this, header
      requires header.Length == HEADER
    {
      FromLe32(header[..4])
    }

    function HeaderLength(): U32
      reads this, header
      requires header.Length == HEADER
    {
      FromLe32(header[4..])
    }

    /** A byte of the header. */
    method OnHeader(rxd: Byte)
      requires Valid() && rxType == RX_PHDR
      modifies this, header
      ensures Valid() && waddr == old(waddr) && Took(old(got), old(base), rxd, None)
    {
      hide FromLe32, Sum;
      header[rxLen] := rxd;
      rxLen := rxLen + 1;
      xsum := (xsum + rxd) % 256;
      SumAppend(got, rxd);
      got := got + [rxd];
      assert header[..rxLen] == got[1..];
      if rxLen == HEADER {
        rxLen := 0;
        assert header[..] == got[1..9] && header[..4] == got[1..5] && header[4..] == got[5..9];
        if HeaderLength() == 0 {
          rxType := RX_XSUM;
        } else if c.direct && HeaderType() == P_WDATA {
          rxType := RX_DATA;
        } else if HeaderLength() > c.capacity {
          rxType := RX_NCAP;
        } else {
          rxType := RX_DATA;
        }
      }
    }

    lemma HeaderKept(rxd: Byte)
      requires Beyond()
      ensures var f := got + [rxd];
        && (rxType != RX_XSUM ==> |got| < 9 + Length(got))
        && f[1..9] == got[1..9]
        && Kind(f) == Kind(got) == HeaderType() && Length(f) == Length(got) == HeaderLength()
        && f[9..] == got[9..] + [rxd]
    {
      var f := got + [rxd];
      assert f[1..5] == got[1..5] == header[..4] && f[5..9] == got[5..9] == header[4..];
    }

    /** A byte of a payload there is no room for. */
    method OnSkipped(rxd: Byte)
      requires Valid() && rxType == RX_NCAP
      modifies this
      ensures Valid() && waddr == old(waddr) && Took(old(got), old(base), rxd, None)
    {
      hide FromLe32, Sum, Overlay;
      HeaderKept(rxd);
      xsum := (xsum + rxd) % 256;
      rxLen := rxLen + 1;
      if rxLen == HeaderLength() {
        rxType := RX_XSUM;
      }
      SumAppend(got, rxd);
      got := got + [rxd];
    }

    /** A byte of the payload: into the buffer, or straight into memory. */
    method OnData(rxd: Byte)
      requires Valid() && rxType == RX_DATA
      modifies this, data
      ensures Valid() && waddr == old(waddr) && Took(old(got), old(base), rxd, None)
    {
      hide FromLe32, Sum, Overlay;
      HeaderKept(rxd);
      if c.direct && HeaderType() == P_WDATA {
        OverlayAppend(base, waddr, got[9..], rxd);
        mem := mem[At(waddr, rxLen) := rxd];
      } else {
        data[rxLen] := rxd;
        assert data[..rxLen + 1] == got[9..] + [rxd];
      }
      rxLen := rxLen + 1;
      xsum := (xsum + rxd) % 256;
      if rxLen == HeaderLength() {
        rxType := RX_XSUM;
      }
      SumAppend(got, rxd);
      got := got + [rxd];
    }

    /** The checksum byte. */
    method OnChecksum(rxd: Byte) returns (event: Option<Event>)
      requires Valid() && rxType == RX_XSUM
      modifies this
      ensures Valid() && waddr == old(waddr) && event.Some? && Took(old(got), old(base), rxd, event)
    {
      hide FromLe32, Sum, Overlay;
      HeaderKept(rxd);
      ghost var f := got + [rxd];
      assert f[..|f| - 1] == got && f[9..|f| - 1] == got[9..];
      var direct := c.direct && HeaderType() == P_WDATA;
      if xsum != rxd {
        event := Some(BadSum(rxd, xsum));
      } else if !direct && HeaderLength() > c.capacity {
        event := Some(TooLong);
      } else {
        if direct {
          OverlayAt(base, waddr, got[9..]);
          assert Fetch(mem, waddr, HeaderLength()) == got[9..];
        }
        var payload := if direct then Fetch(mem, waddr, HeaderLength()) else data[..HeaderLength()];
        event := Some(Accepted(Packet(HeaderType(), payload)));
      }
      rxType := RX_NONE;
      got, base := [], mem;
    }

    /** Handle a received byte.  Returns what the frame amounts to, if this byte ends it. */
    method HandleRx(rxd: Byte) returns (event: Option<Event>)
      requires Valid()
      modifies this, header, data
      ensures Valid() && waddr == old(waddr) && Took(old(got), old(base), rxd, event)
    {
      event := None;
      if rxType == RX_NONE {
        xsum := rxd;
        if rxd == START {
          rxLen, rxType := 0, RX_PHDR;
          got := [rxd];
          SumOfStart();
        }
      } else if rxType == RX_PHDR {
        OnHeader(rxd);
      } else if rxType == RX_NCAP {
        OnSkipped(rxd);
      } else if rxType == RX_DATA {
        OnData(rxd);
      } else {
        event := OnChecksum(rxd);
      }
    }
  }

  lemma OverlayAppend(mem: Memory, addr: U32, s: Bytes, b: Byte)
    ensures Overlay(mem, addr, s + [b]) == Overlay(mem, addr, s)[At(addr, |s|) := b]
  {
    assert (s + [b])[..|s|] == s;
  }
}
