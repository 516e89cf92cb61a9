/**
 Uploading a memory image over the protocol: the bootloader's answers, the programmer's retries, and
 what ends up in device memory when frames are garbled on the way.
 */
module Upload {
  import opened Words
  import opened Framing
  import opened Receiver

  const A_ACK: U32 := 0
  const A_XSUM: U32 := 2
  const A_NCAP: U32 := 3

  const DEVICE := Config(16, true)
  const HOST := Config(65536, false)
  const RETRY_COUNT := 3
  const BLOCK_SIZE := 1024

  function Ack(status: U32, cause: U32): Packet {
    Packet(P_ACK, Le32(status) + Le32(cause))
  }

  /* ---- The device ---- */

  datatype Dev = Dev(mem: Memory, waddr: U32)

  /** Answer to a frame that passed its checks, with the new write address.  Packets whose handlers
      are not modelled leave `reply` empty. */
  datatype Answer = Answer(reply: Option<Packet>, waddr: U32)

  function Handle(p: Packet, waddr: U32): Answer {
    if p.kind == P_WRITE then
      if |p.payload| == 8 then Answer(Some(Ack(A_ACK, 0)), FromLe32(p.payload[..4]))
      else Answer(Some(Ack(A_NCAP, 0)), waddr)
    else if p.kind == P_WDATA then Answer(Some(Ack(A_ACK, 0)), waddr)
    else if p.kind == P_PING then
      Answer(Some(if |p.payload| == 16 then Packet(P_PONG, p.payload) else Ack(A_NCAP, 0)), waddr)
    else Answer(None, waddr)
  }

  function Respond(e: Event, waddr: U32): Answer {
    match e
    case BadSum(sent, computed) => Answer(Some(Ack(A_XSUM, sent * 256 + computed)), waddr)
    case TooLong => Answer(Some(Ack(A_NCAP, 0)), waddr)
    case Accepted(p) => Handle(p, waddr)
  }

  /** A whole frame arriving at the device.  The payload of P_WDATA is stored as it comes in. */
  function Deliver(d: Dev, f: Bytes): (Dev, Option<Packet>)
    requires Framed(f)
  {
    var mem := if Kind(f) == P_WDATA then Overlay(d.mem, d.waddr, f[9..|f| - 1]) else d.mem;
    var a := Respond(Verdict(DEVICE, f), d.waddr);
    (Dev(mem, a.waddr), a.reply)
  }

  class Bootloader {
    const rx: Parser

    ghost predicate Valid()
      reads this, rx, rx.header, rx.data
    {
      rx.Valid() && rx.c == DEVICE
    }

    constructor (mem: Memory, waddr: U32)
      ensures Valid() && rx.got == [] && rx.mem == mem && rx.waddr == waddr
      ensures fresh(rx) && fresh(rx.header) && fresh(rx.data)
    {
      rx := new Parser(DEVICE, mem, waddr);
    }

    /** One received byte, and the packet sent in answer if it ends a frame. */
    method HandleByte(rxd: Byte) returns (reply: Option<Packet>)
      requires Valid()
      modifies rx, rx.header, rx.data
      ensures Valid()
      ensures var p := Take(DEVICE, Progress(old(rx.got), []), rxd);
        && rx.got == p.got
        && if p.events == [] then reply == None && rx.base == old(rx.base) && rx.waddr == old(rx.waddr)
           else var f := old(rx.got) + [rxd];
             && Framed(f) && rx.base == rx.mem
             && (Dev(rx.mem, rx.waddr), reply) == Deliver(Dev(old(rx.base), old(rx.waddr)), f)
    {
      var event := rx.HandleRx(rxd);
      reply := None;
      if event.Some? {
        var a := Respond(event.value, rx.waddr);
        reply, rx.waddr := a.reply, a.waddr;
      }
    }

    /** A whole frame, byte by byte. */
    method Receive(f: Bytes) returns (reply: Option<Packet>)
      requires Valid() && rx.got == [] && Framed(f)
      modifies rx, rx.header, rx.data
      ensures Valid() && rx.got == []
      ensures (Dev(rx.mem, rx.waddr), reply) == Deliver(Dev(old(rx.mem), old(rx.waddr)), f)
    {
      reply := None;
      for i := 0 to |f|
        invariant Valid() && 0 <= i <= |f|
        invariant i < |f| ==> rx.got == f[..i] && rx.base == old(rx.mem) && rx.waddr == old(rx.waddr)
        invariant i == |f| ==>
          rx.got == [] && (Dev(rx.mem, rx.waddr), reply) == Deliver(Dev(old(rx.mem), old(rx.waddr)), f)
      {
        TakeNext(DEVICE, f, i);
        reply := HandleByte(f[i]);
      }
    }
  }

  lemma TakeNext(c: Config, f: Bytes, i: nat)
    requires Framed(f) && i < |f|
    ensures var p := Take(c, Progress(f[..i], []), f[i]);
      if i == |f| - 1 then p == Progress([], [Verdict(c, f)]) && f[..i] + [f[i]] == f
      else p == Progress(f[..i + 1], [])
  {
    assert f[..i] + [f[i]] == f[..i + 1];
    if i >= 8 {
      assert f[..i + 1][5..9] == f[5..9];
    }
    if i == |f| - 1 {
      assert f[..i + 1] == f;
    }
  }

  /* ---- The programmer ---- */

  /** What the line does to one exchange: the frame or its answer may arrive garbled. */
  datatype Try = Try(up: Option<Bytes>, down: Option<Bytes>)

  /** `g` is `f` with some bytes changed, the start byte and the length field not among them, and no
      longer adds up. */
  predicate Garbled(f: Bytes, g: Bytes) {
    Framed(f) && Framed(g) && |g| == |f| && Verdict(HOST, g).BadSum?
  }

  predicate TryOk(p: Packet, t: Try)
    requires p.Ok()
  {
    && (t.up.Some? ==> Garbled(Print(p), t.up.value))
    && (t.down.Some? ==> Framed(t.down.value) && Verdict(HOST, t.down.value).BadSum?)
  }

  predicate Sendable(p: Packet) { p.Ok() && (p.kind == P_WRITE || p.kind == P_WDATA) }

  function Sent(p: Packet, t: Try): (f: Bytes)
    requires p.Ok() && TryOk(p, t)
    ensures Framed(f) && |f| == 10 + |p.payload|
  {
    PrintedFields(p);
    if t.up.Some? then t.up.value else Print(p)
  }

  lemma AlwaysAnswered(d: Dev, p: Packet, t: Try)
    requires Sendable(p) && TryOk(p, t)
    ensures Deliver(d, Sent(p, t)).1.Some? && Deliver(d, Sent(p, t)).1.value.Ok()
  {
    PrintedVerdict(DEVICE, p);
  }

  /** One transmission of `p`: the device afterwards, and what the programmer makes of the answer. */
  function Exchange(d: Dev, p: Packet, t: Try): (Dev, Event)
    requires Sendable(p) && TryOk(p, t)
  {
    AlwaysAnswered(d, p, t);
    var (d', reply) := Deliver(d, Sent(p, t));
    PrintedFields(reply.value);
    (d', Verdict(HOST, if t.down.Some? then t.down.value else Print(reply.value)))
  }

  predicate IsAck(p: Packet, status: U32) {
    p.kind == P_ACK && |p.payload| == 8 && FromLe32(p.payload[..4]) == status
  }

  /** An answer that ends the retries. */
  predicate Settles(e: Event) { e.Accepted? && !IsAck(e.packet, A_XSUM) }

  /** Transmit until an answer settles the matter, at most RETRY_COUNT + 1 times. */
  function Await(d: Dev, p: Packet, tries: seq<Try>, k: nat): (Dev, Option<Packet>)
    requires Sendable(p) && |tries| > RETRY_COUNT && forall t | t in tries :: TryOk(p, t)
    decreases |tries| - k
  {
    if k > RETRY_COUNT then (d, None)
    else
      var (d', e) := Exchange(d, p, tries[k]);
      if Settles(e) then (d', Some(e.packet)) else Await(d', p, tries, k + 1)
  }

  function WriteCommand(addr: U32, n: U32): Packet {
    Packet(P_WRITE, Le32(addr) + Le32(n))
  }

  function WriteData(s: Bytes): Packet { Packet(P_WDATA, s) }

  /** The line's behaviour during one block: retries of the command, then of the data. */
  datatype Script = Script(command: seq<Try>, data: seq<Try>)

  predicate ScriptOk(addr: U32, s: Bytes, c: Script) {
    && |s| < 0x1_0000_0000
    && |c.command| > RETRY_COUNT && |c.data| > RETRY_COUNT
    && (forall t | t in c.command :: TryOk(WriteCommand(addr, |s|), t))
    && (forall t | t in c.data :: TryOk(WriteData(s), t))
  }

  function WriteBlock(d: Dev, addr: U32, s: Bytes, c: Script): (Dev, bool)
    requires ScriptOk(addr, s, c)
  {
    var (d1, r1) := Await(d, WriteCommand(addr, |s|), c.command, 0);
    if r1.None? || !IsAck(r1.value, A_ACK) then (d1, false)
    else
      var (d2, r2) := Await(d1, WriteData(s), c.data, 0);
      (d2, r2.Some? && IsAck(r2.value, A_ACK))
  }

  /** A garbled command that the device takes for data. */
  predicate Stray(t: Try) { t.up.Some? && |t.up.value| >= 9 && Kind(t.up.value) == P_WDATA }

  /* ---- What retries do to the device ---- */

  lemma {:induction false} OverlayAbsorbs(mem: Memory, addr: U32, g: Bytes, s: Bytes)
    requires |g| <= |s| < 0x1_0000_0000
    ensures Overlay(Overlay(mem, addr, g), addr, s) == Overlay(mem, addr, s)
  {
    OverlayPoint(mem, addr, g);
    OverlayPoint(mem, addr, s);
    OverlayPoint(Overlay(mem, addr, g), addr, s);
  }

  /** How far `x` lies beyond `addr`, going round the end of the address space. */
  function Offset(x: U32, addr: U32): nat {
    if x >= addr then x - addr else x - addr + 0x1_0000_0000
  }

  lemma OffsetAt(addr: U32, x: U32, i: nat)
    requires i < 0x1_0000_0000
    ensures At(addr, i) == x <==> i == Offset(x, addr)
  {
  }

  /** Exactly the addresses of the range change. */
  lemma {:induction false} OverlayPoint(mem: Memory, addr: U32, s: Bytes)
    requires |s| < 0x1_0000_0000
    ensures forall x: U32 :: x in Overlay(mem, addr, s) <==> x in mem || Offset(x, addr) < |s|
    ensures forall x: U32 | x in Overlay(mem, addr, s) ::
      Overlay(mem, addr, s)[x] == if Offset(x, addr) < |s| then s[Offset(x, addr)] else mem[x]
  {
    if s != [] {
      var n := |s| - 1;
      OverlayPoint(mem, addr, s[..n]);
      forall x: U32 ensures At(addr, n) == x <==> n == Offset(x, addr) {
        OffsetAt(addr, x, n);
      }
      hide At, Offset;
    }
  }

  /* ---- Retries leave the range to be written, and the write address ---- */

  /** An exchange of data: wherever it ends, sending the data again makes up for it. */
  lemma DataExchange(d: Dev, s: Bytes, t: Try)
    requires |s| < 0x1_0000_0000 && TryOk(WriteData(s), t)
    ensures var (d', e) := Exchange(d, WriteData(s), t);
      && d'.waddr == d.waddr
      && Overlay(d'.mem, d.waddr, s) == Overlay(d.mem, d.waddr, s)
      && (Settles(e) ==> d'.mem == Overlay(d.mem, d.waddr, s) && e == Accepted(Ack(A_ACK, 0)))
  {
    var f := Sent(WriteData(s), t);
    DeliverAbsorbed(d, f, s);
    if t.up.Some? {
      GarbledIsRefused(d, f);
      hide Overlay, Deliver, Sum;
    } else {
      DeliverIntact(d, s);
      AckVerdict(A_ACK, 0);
      hide Overlay, Deliver, Print;
    }
  }

  lemma DeliverIntact(d: Dev, s: Bytes)
    requires WriteData(s).Ok()
    ensures Framed(Print(WriteData(s)))
    ensures Deliver(d, Print(WriteData(s))) == (Dev(Overlay(d.mem, d.waddr, s), d.waddr), Some(Ack(A_ACK, 0)))
  {
    PrintedFields(WriteData(s));
    PrintedVerdict(DEVICE, WriteData(s));
    hide Overlay;
  }

  /** Any frame of the right length stores nothing outside the range. */
  lemma DeliverAbsorbed(d: Dev, f: Bytes, s: Bytes)
    requires Framed(f) && |f| == 10 + |s| < 10 + 0x1_0000_0000
    ensures Overlay(Deliver(d, f).0.mem, d.waddr, s) == Overlay(d.mem, d.waddr, s)
  {
    OverlayAbsorbs(d.mem, d.waddr, f[9..|f| - 1], s);
    hide Overlay;
  }

  /** What the programmer makes of an acknowledgement. */
  lemma AckVerdict(status: U32, cause: U32)
    ensures Verdict(HOST, Print(Ack(status, cause))) == Accepted(Ack(status, cause))
    ensures IsAck(Ack(status, cause), status)
    ensures forall other: U32 | other != status :: !IsAck(Ack(status, cause), other)
  {
    PrintedVerdict(HOST, Ack(status, cause));
    Le32RoundTrip(status);
    assert Ack(status, cause).payload[..4] == Le32(status);
  }

  /** A frame that does not add up is answered with a request to send it again. */
  lemma GarbledIsRefused(d: Dev, f: Bytes)
    requires Framed(f) && Verdict(HOST, f).BadSum?
    ensures Verdict(DEVICE, f).BadSum? && Deliver(d, f).0.waddr == d.waddr
    ensures var reply := Deliver(d, f).1; reply.Some? && !Settles(Verdict(HOST, Print(reply.value)))
  {
    var v := Verdict(DEVICE, f);
    AckVerdict(A_XSUM, v.sent * 256 + v.computed);
  }

  /** An exchange of a command: memory is untouched unless the device takes it for data. */
  lemma CommandExchange(d: Dev, addr: U32, n: U32, t: Try)
    requires TryOk(WriteCommand(addr, n), t)
    ensures var (d', e) := Exchange(d, WriteCommand(addr, n), t);
      && (!Stray(t) ==> d'.mem == d.mem)
      && (Settles(e) ==> d' == Dev(d.mem, addr) && e == Accepted(Ack(A_ACK, 0)))
  {
    var p := WriteCommand(addr, n);
    PrintedFields(p);
    PrintedVerdict(DEVICE, p);
    Le32RoundTrip(addr);
    assert p.payload[..4] == Le32(addr);
    AckVerdict(A_ACK, 0);
    if t.up.Some? {
      GarbledIsRefused(d, t.up.value);
    }
  }

  lemma {:induction false} AwaitData(d: Dev, s: Bytes, tries: seq<Try>, k: nat)
    requires |s| < 0x1_0000_0000 && |tries| > RETRY_COUNT && forall t | t in tries :: TryOk(WriteData(s), t)
    ensures var (d', r) := Await(d, WriteData(s), tries, k);
      && d'.waddr == d.waddr
      && Overlay(d'.mem, d.waddr, s) == Overlay(d.mem, d.waddr, s)
      && (r.Some? ==> d'.mem == Overlay(d.mem, d.waddr, s) && IsAck(r.value, A_ACK))
    decreases |tries| - k
  {
    if k <= RETRY_COUNT {
      DataExchange(d, s, tries[k]);
      AckVerdict(A_ACK, 0);
      hide Exchange, Overlay;
      AwaitData(Exchange(d, WriteData(s), tries[k]).0, s, tries, k + 1);
    }
  }

  lemma {:induction false} AwaitCommand(d: Dev, addr: U32, n: U32, tries: seq<Try>, k: nat)
    requires |tries| > RETRY_COUNT && forall t | t in tries :: TryOk(WriteCommand(addr, n), t) && !Stray(t)
    ensures var (d', r) := Await(d, WriteCommand(addr, n), tries, k);
      && d'.mem == d.mem
      && (r.Some? ==> d'.waddr == addr && IsAck(r.value, A_ACK))
    decreases |tries| - k
  {
    if k <= RETRY_COUNT {
      CommandExchange(d, addr, n, tries[k]);
      AckVerdict(A_ACK, 0);
      hide Exchange, WriteCommand;
      AwaitCommand(Exchange(d, WriteCommand(addr, n), tries[k]).0, addr, n, tries, k + 1);
    }
  }

  /* ---- The whole image ---- */

  function BlockLength(image: Bytes, i: nat): (n: nat)
    requires i < |image|
    ensures 0 < n <= BLOCK_SIZE && i + n <= |image|
  {
    if BLOCK_SIZE < |image| - i then BLOCK_SIZE else |image| - i
  }

  function Block(image: Bytes, i: nat): Bytes
    requires i < |image|
  {
    image[i..i + BlockLength(image, i)]
  }

  /** One script per block, in order. */
  predicate ScriptsOk(addr: U32, image: Bytes, i: nat, scripts: seq<Script>)
    decreases |scripts|
  {
    if i >= |image| then scripts == []
    else
      && scripts != [] && ScriptOk(At(addr, i), Block(image, i), scripts[0])
      && ScriptsOk(addr, image, i + BLOCK_SIZE, scripts[1..])
  }

  /** Write the image from byte `i` on; the flag tells whether every block was acknowledged. */
  function WriteMem(d: Dev, addr: U32, image: Bytes, i: nat, scripts: seq<Script>): (Dev, bool)
    requires ScriptsOk(addr, image, i, scripts)
    decreases |scripts|
  {
    if i >= |image| then (d, true)
    else
      var (d1, ok1) := WriteBlock(d, At(addr, i), Block(image, i), scripts[0]);
      var (d2, ok2) := WriteMem(d1, addr, image, i + BLOCK_SIZE, scripts[1..]);
      (d2, ok1 && ok2)
  }

  predicate NoStrays(scripts: seq<Script>) {
    forall c | c in scripts :: forall t | t in c.command :: !Stray(t)
  }

  lemma BlockWritten(d: Dev, addr: U32, s: Bytes, c: Script)
    requires ScriptOk(addr, s, c) && forall t | t in c.command :: !Stray(t)
    requires WriteBlock(d, addr, s, c).1
    ensures WriteBlock(d, addr, s, c).0.mem == Overlay(d.mem, addr, s)
  {
    AwaitCommand(d, addr, |s|, c.command, 0);
    var d1 := Await(d, WriteCommand(addr, |s|), c.command, 0).0;
    AwaitData(d1, s, c.data, 0);
    hide Overlay, Await;
  }

  lemma {:induction false} OverlaySplit(mem: Memory, addr: U32, s: Bytes, t: Bytes)
    ensures Overlay(Overlay(mem, addr, s), At(addr, |s|), t) == Overlay(mem, addr, s + t)
  {
    if t == [] {
      assert s + t == s;
    } else {
      var n := |t| - 1;
      OverlaySplit(mem, addr, s, t[..n]);
      assert (s + t)[..|s| + n] == s + t[..n];
      AtAdds(addr, |s|, n);
      hide At;
    }
  }

  lemma AtAdds(addr: U32, i: nat, j: nat)
    ensures At(At(addr, i), j) == At(addr, i + j)
  {
  }

  /** The part of the image from byte `i` on: the blocks tile it exactly. */
  function Rest(image: Bytes, i: nat): Bytes {
    if i <= |image| then image[i..] else []
  }

  lemma BlocksTile(image: Bytes, i: nat)
    requires i < |image|
    ensures Rest(image, i) == Block(image, i) + Rest(image, i + BLOCK_SIZE)
    ensures |Block(image, i)| == BLOCK_SIZE || Rest(image, i + BLOCK_SIZE) == []
  {
  }

  /** If every block is acknowledged and no garbled command passes for data, the image is in memory
      and nothing else has changed, whatever was sent again and however it was garbled. */
  lemma {:induction false} UploadIsCorrect(d: Dev, addr: U32, image: Bytes, i: nat, scripts: seq<Script>)
    requires ScriptsOk(addr, image, i, scripts) && NoStrays(scripts)
    requires WriteMem(d, addr, image, i, scripts).1
    ensures WriteMem(d, addr, image, i, scripts).0.mem == Overlay(d.mem, At(addr, i), Rest(image, i))
    decreases |scripts|
  {
    if i < |image| {
      var s, rest := Block(image, i), Rest(image, i + BLOCK_SIZE);
      BlockWritten(d, At(addr, i), s, scripts[0]);
      var d1 := WriteBlock(d, At(addr, i), s, scripts[0]).0;
      UploadIsCorrect(d1, addr, image, i + BLOCK_SIZE, scripts[1..]);
      BlocksTile(image, i);
      NextBlock(d.mem, addr, i, s, rest);
      hide Overlay, WriteBlock, ScriptOk, At, Block, Rest;
    }
  }

  lemma NextBlock(mem: Memory, addr: U32, i: nat, s: Bytes, rest: Bytes)
    requires |s| == BLOCK_SIZE || rest == []
    ensures Overlay(Overlay(mem, At(addr, i), s), At(addr, i + BLOCK_SIZE), rest) == Overlay(mem, At(addr, i), s + rest)
  {
    if rest == [] {
      assert s + rest == s;
    } else {
      AtAdds(addr, i, BLOCK_SIZE);
      OverlaySplit(mem, At(addr, i), s, rest);
    }
  }

  lemma WholeImage(d: Dev, addr: U32, image: Bytes, scripts: seq<Script>)
    requires ScriptsOk(addr, image, 0, scripts) && NoStrays(scripts) && WriteMem(d, addr, image, 0, scripts).1
    ensures WriteMem(d, addr, image, 0, scripts).0.mem == Overlay(d.mem, addr, image)
  {
    hide Overlay, WriteMem, ScriptsOk, NoStrays;
    assert Rest(image, 0) == image && At(addr, 0) == addr;
    UploadIsCorrect(d, addr, image, 0, scripts);
  }

  /* ---- Exactly which lines are safe ---- */

  /** The garbled frames of a script are ones that `line` may turn the sent frames into. */
  ghost predicate From(line: (Bytes, Bytes) -> bool, addr: U32, image: Bytes, i: nat, scripts: seq<Script>)
    requires ScriptsOk(addr, image, i, scripts)
    decreases |scripts|
  {
    i >= |image| ||
    var s, c := Block(image, i), scripts[0];
    && (forall t | t in c.command && t.up.Some? :: line(Print(WriteCommand(At(addr, i), |s|)), t.up.value))
    && (forall t | t in c.data && t.up.Some? :: line(Print(WriteData(s)), t.up.value))
    && From(line, addr, image, i + BLOCK_SIZE, scripts[1..])
  }

  /** Every acknowledged upload over the line leaves exactly the image. */
  ghost predicate UploadLaw(line: (Bytes, Bytes) -> bool) {
    forall d, addr, image, scripts |
      ScriptsOk(addr, image, 0, scripts) && From(line, addr, image, 0, scripts)
      && WriteMem(d, addr, image, 0, scripts).1 ::
      WriteMem(d, addr, image, 0, scripts).0.mem == Overlay(d.mem, addr, image)
  }

  /** The line never turns a write command into something of type P_WDATA. */
  ghost predicate KeepsCommands(line: (Bytes, Bytes) -> bool) {
    forall addr: U32, n: U32, g: Bytes | 1 <= n <= BLOCK_SIZE && Garbled(Print(WriteCommand(addr, n)), g) ::
      line(Print(WriteCommand(addr, n)), g) ==> Kind(g) != P_WDATA
  }

  lemma {:induction false} KeptCommandsDontStray(line: (Bytes, Bytes) -> bool, addr: U32, image: Bytes,
                                                i: nat, scripts: seq<Script>)
    requires KeepsCommands(line) && ScriptsOk(addr, image, i, scripts) && From(line, addr, image, i, scripts)
    ensures NoStrays(scripts)
    decreases |scripts|
  {
    if i < |image| {
      KeptCommandsDontStray(line, addr, image, i + BLOCK_SIZE, scripts[1..]);
      forall t | t in scripts[0].command ensures !Stray(t) {
        if t.up.Some? {
          assert TryOk(WriteCommand(At(addr, i), |Block(image, i)|), t);
        }
      }
    }
  }

  /** One flipped bit in the type of a write command is enough. */
  lemma OneBitStrays(addr: U32, n: U32)
    ensures var f := Print(WriteCommand(addr, n));
      f[1] == 0x10 && Garbled(f, f[1 := 0x12]) && Kind(f[1 := 0x12]) == P_WDATA
  {
    var p := WriteCommand(addr, n);
    var f := Print(p);
    var g := f[1 := 0x12];
    PrintedFields(p);
    assert f[1..5] == Le32(P_WRITE) by { assert f[..17] == Body(p); }
    assert g[1..5] == Le32(P_WDATA) && g[5..9] == f[5..9];
    CorruptionIsRejected(HOST, [], p, 1, 0x12);
    FeedFrame(HOST, [], g);
  }

  const CLEAN := Try(None, None)

  /** The upload that goes wrong: one block of `n` zeros, whose command first arrives as `g`, at a
      device whose write address was left just behind the block by earlier traffic. */
  function Spoiled(g: Bytes): Script {
    Script([Try(Some(g), None), CLEAN, CLEAN, CLEAN], [CLEAN, CLEAN, CLEAN, CLEAN])
  }

  function Bystander(addr: U32, n: U32, g: Bytes): Dev
    requires |g| > 9
  {
    Dev(map[At(addr, n) := if g[9] == 0 then 1 else 0], At(addr, n))
  }

  function Zeros(n: U32): Bytes { seq(n, _ => 0) }

  lemma SpoiledBlock(d: Dev, addr: U32, n: U32, g: Bytes)
    requires 1 <= n <= BLOCK_SIZE && Garbled(Print(WriteCommand(addr, n)), g) && Kind(g) == P_WDATA
    ensures ScriptOk(addr, Zeros(n), Spoiled(g))
    ensures WriteBlock(d, addr, Zeros(n), Spoiled(g)) ==
      (Dev(Overlay(Overlay(d.mem, d.waddr, g[9..|g| - 1]), addr, Zeros(n)), addr), true)
  {
    hide Await, Overlay, Garbled, Verdict, Print, Le32, FromLe32, TryOk, Kind, IsAck;
    var d1 := SpoiledCommand(d, addr, n, g);
    var d2 := CleanData(d1, Zeros(n), Spoiled(g).data);
    AckVerdict(A_ACK, 0);
  }

  lemma OneBlock(d: Dev, addr: U32, image: Bytes, c: Script)
    requires 1 <= |image| <= BLOCK_SIZE && ScriptOk(addr, image, c)
    ensures ScriptsOk(addr, image, 0, [c])
    ensures WriteMem(d, addr, image, 0, [c]) == WriteBlock(d, addr, image, c)
  {
    hide WriteBlock, ScriptOk;
    assert Block(image, 0) == image && At(addr, 0) == addr;
    var (d1, ok1) := WriteBlock(d, addr, image, c);
    assert [c][0] == c && [c][1..] == [];
    assert ScriptsOk(addr, image, BLOCK_SIZE, []);
    assert WriteMem(d1, addr, image, BLOCK_SIZE, []) == (d1, true);
  }

  /** Bytes stored just behind the image are still there after it, and were not there before. */
  lemma StrayVisible(mem: Memory, addr: U32, image: Bytes, stored: Bytes)
    requires |image| <= BLOCK_SIZE && 1 <= |stored| <= 8
    requires var x := At(addr, |image|); x in mem && mem[x] != stored[0]
    ensures Overlay(Overlay(mem, At(addr, |image|), stored), addr, image) != Overlay(mem, addr, image)
  {
    var x := At(addr, |image|);
    OffsetAt(addr, x, |image|);
    OffsetAt(x, x, 0);
    hide At;
    OverlayPoint(mem, x, stored);
    OverlayPoint(Overlay(mem, x, stored), addr, image);
    OverlayPoint(mem, addr, image);
    hide Overlay;
    assert Offset(x, addr) == |image| && Offset(x, x) == 0;
    assert Overlay(mem, addr, image)[x] == mem[x];
    assert Overlay(Overlay(mem, x, stored), addr, image)[x] == stored[0];
  }

  lemma GarbledLength(addr: U32, n: U32, g: Bytes)
    requires Garbled(Print(WriteCommand(addr, n)), g)
    ensures |g| == 18
  {
  }

  lemma StrayCorrupts(addr: U32, n: U32, g: Bytes)
    requires 1 <= n <= BLOCK_SIZE && Garbled(Print(WriteCommand(addr, n)), g) && Kind(g) == P_WDATA
    ensures var d, scripts := Bystander(addr, n, g), [Spoiled(g)];
      && ScriptsOk(addr, Zeros(n), 0, scripts)
      && WriteMem(d, addr, Zeros(n), 0, scripts).1
      && WriteMem(d, addr, Zeros(n), 0, scripts).0.mem != Overlay(d.mem, addr, Zeros(n))
  {
    hide Garbled, Print, WriteCommand, WriteMem, WriteBlock, ScriptsOk, ScriptOk, Overlay, At, Kind, Spoiled;
    GarbledLength(addr, n, g);
    var d := Bystander(addr, n, g);
    SpoiledBlock(d, addr, n, g);
    OneBlock(d, addr, Zeros(n), Spoiled(g));
    StrayVisible(d.mem, addr, Zeros(n), g[9..|g| - 1]);
  }

  lemma SpoiledCommand(d: Dev, addr: U32, n: U32, g: Bytes) returns (d1: Dev)
    requires 1 <= n <= BLOCK_SIZE && Garbled(Print(WriteCommand(addr, n)), g) && Kind(g) == P_WDATA
    ensures ScriptOk(addr, Zeros(n), Spoiled(g))
    ensures d1 == Dev(Overlay(d.mem, d.waddr, g[9..|g| - 1]), addr)
    ensures Await(d, WriteCommand(addr, n), Spoiled(g).command, 0) == (d1, Some(Ack(A_ACK, 0)))
  {
    var p, c := WriteCommand(addr, n), Spoiled(g);
    d1 := Dev(Overlay(d.mem, d.waddr, g[9..|g| - 1]), addr);
    var d0 := Dev(d1.mem, d.waddr);
    GarbledIsRefused(d, g);
    CleanCommand(d0, addr, n);
    SpoiledScript(addr, n, g);
    hide Overlay, WriteCommand, WriteData, Garbled, Verdict, Print, Settles, TryOk, Handle, Respond;
    AwaitSecond(d, d0, d1, p, c.command, Ack(A_ACK, 0));
  }

  lemma SpoiledScript(addr: U32, n: U32, g: Bytes)
    requires 1 <= n <= BLOCK_SIZE && Garbled(Print(WriteCommand(addr, n)), g)
    ensures var p, c := WriteCommand(addr, n), Spoiled(g);
      ScriptOk(addr, Zeros(n), c) && TryOk(p, c.command[0]) && Sent(p, c.command[0]) == g
  {
    assert TryOk(WriteData(Zeros(n)), CLEAN);
  }

  lemma AwaitSecond(d: Dev, d0: Dev, d1: Dev, p: Packet, tries: seq<Try>, r: Packet)
    requires Sendable(p) && |tries| > RETRY_COUNT && forall t | t in tries :: TryOk(p, t)
    requires Exchange(d, p, tries[0]).0 == d0 && !Settles(Exchange(d, p, tries[0]).1)
    requires Exchange(d0, p, tries[1]) == (d1, Accepted(r)) && Settles(Accepted(r))
    ensures Await(d, p, tries, 0) == (d1, Some(r))
  {
    hide Exchange, Settles, TryOk;
    assert Await(d0, p, tries, 1) == (d1, Some(r));
  }

  lemma CleanCommand(d: Dev, addr: U32, n: U32)
    ensures TryOk(WriteCommand(addr, n), CLEAN)
    ensures Exchange(d, WriteCommand(addr, n), CLEAN) == (Dev(d.mem, addr), Accepted(Ack(A_ACK, 0)))
    ensures Settles(Accepted(Ack(A_ACK, 0)))
  {
    var p := WriteCommand(addr, n);
    PrintedFields(p);
    PrintedVerdict(DEVICE, p);
    Le32RoundTrip(addr);
    assert p.payload[..4] == Le32(addr);
    AckVerdict(A_ACK, 0);
  }

  lemma CleanData(d: Dev, s: Bytes, tries: seq<Try>) returns (d': Dev)
    requires |s| < 0x1_0000_0000 && tries == [CLEAN, CLEAN, CLEAN, CLEAN]
    ensures d' == Dev(Overlay(d.mem, d.waddr, s), d.waddr)
    ensures Await(d, WriteData(s), tries, 0) == (d', Some(Ack(A_ACK, 0)))
  {
    d' := Dev(Overlay(d.mem, d.waddr, s), d.waddr);
    DeliverIntact(d, s);
    AckVerdict(A_ACK, 0);
    assert Exchange(d, WriteData(s), CLEAN) == (d', Accepted(Ack(A_ACK, 0)));
  }

  lemma KeptUpload(line: (Bytes, Bytes) -> bool, d: Dev, addr: U32, image: Bytes, scripts: seq<Script>)
    requires KeepsCommands(line) && ScriptsOk(addr, image, 0, scripts) && From(line, addr, image, 0, scripts)
    requires WriteMem(d, addr, image, 0, scripts).1
    ensures WriteMem(d, addr, image, 0, scripts).0.mem == Overlay(d.mem, addr, image)
  {
    KeptCommandsDontStray(line, addr, image, 0, scripts);
    WholeImage(d, addr, image, scripts);
  }

  lemma KeptCommandsGiveLaw(line: (Bytes, Bytes) -> bool)
    requires KeepsCommands(line)
    ensures UploadLaw(line)
  {
    hide Overlay, WriteMem, ScriptsOk, From, KeepsCommands;
    forall d, addr, image, scripts |
      ScriptsOk(addr, image, 0, scripts) && From(line, addr, image, 0, scripts)
      && WriteMem(d, addr, image, 0, scripts).1
      ensures WriteMem(d, addr, image, 0, scripts).0.mem == Overlay(d.mem, addr, image)
    {
      KeptUpload(line, d, addr, image, scripts);
    }
  }

  lemma LawKeepsCommand(line: (Bytes, Bytes) -> bool, addr: U32, n: U32, g: Bytes)
    requires UploadLaw(line)
    requires 1 <= n <= BLOCK_SIZE && Garbled(Print(WriteCommand(addr, n)), g) && line(Print(WriteCommand(addr, n)), g)
    ensures Kind(g) != P_WDATA
  {
    if Kind(g) == P_WDATA {
      StrayCorrupts(addr, n, g);
      SpoiledFrom(line, addr, n, g);
      hide Overlay, WriteMem, ScriptsOk, From, Garbled, Bystander;
      assert false;
    }
  }

  lemma SpoiledFrom(line: (Bytes, Bytes) -> bool, addr: U32, n: U32, g: Bytes)
    requires 1 <= n <= BLOCK_SIZE && line(Print(WriteCommand(addr, n)), g)
    requires ScriptsOk(addr, Zeros(n), 0, [Spoiled(g)])
    ensures From(line, addr, Zeros(n), 0, [Spoiled(g)])
  {
    var scripts: seq<Script> := [Spoiled(g)];
    assert Block(Zeros(n), 0) == Zeros(n) && At(addr, 0) == addr;
    assert scripts[1..] == [];
  }

  /** The upload law holds on exactly the lines that never turn a write command into data. */
  lemma UploadLawExactly(line: (Bytes, Bytes) -> bool)
    ensures UploadLaw(line) <==> KeepsCommands(line)
  {
    if KeepsCommands(line) {
      KeptCommandsGiveLaw(line);
    }
    if UploadLaw(line) {
      hide UploadLaw;
      forall addr: U32, n: U32, g: Bytes |
        1 <= n <= BLOCK_SIZE && Garbled(Print(WriteCommand(addr, n)), g) && line(Print(WriteCommand(addr, n)), g)
        ensures Kind(g) != P_WDATA
      {
        LawKeepsCommand(line, addr, n, g);
      }
    }
  }

  /* ---- The programmer's own loops ---- */

  class Programmer {
    const rx: Parser

    ghost predicate Valid()
      reads this, rx, rx.header, rx.data
    {
      rx.Valid() && rx.c == HOST && rx.got == []
    }

    /** Everything a programmer and a device, which share nothing, may change. */
    ghost predicate Apart(dev: Bootloader)
      reads this, rx, dev, dev.rx
    {
      rx != dev.rx && {rx.header, rx.data} !! {dev.rx.header, dev.rx.data}
    }

    constructor ()
      ensures Valid() && fresh(rx) && fresh(rx.header) && fresh(rx.data)
    {
      rx := new Parser(HOST, map[], 0);
    }

    /** Bytes of an answer, up to its end. */
    method ReceiveAnswer(f: Bytes) returns (event: Event)
      requires Valid() && Framed(f)
      modifies rx, rx.header, rx.data
      ensures Valid() && event == Verdict(HOST, f)
    {
      var last := None;
      for i := 0 to |f|
        invariant rx.Valid() && rx.c == HOST
        invariant if i < |f| then rx.got == f[..i] else rx.got == [] && last == Some(Verdict(HOST, f))
      {
        TakeNext(HOST, f, i);
        last := rx.HandleRx(f[i]);
      }
      event := last.value;
    }

    /** One transmission of a packet, and its answer. */
    method Transmit(dev: Bootloader, p: Packet, t: Try) returns (event: Event)
      requires Valid() && dev.Valid() && dev.rx.got == [] && Apart(dev)
      requires Sendable(p) && TryOk(p, t)
      modifies rx, rx.header, rx.data, dev.rx, dev.rx.header, dev.rx.data
      ensures Valid() && dev.Valid() && dev.rx.got == []
      ensures (Dev(dev.rx.mem, dev.rx.waddr), event) == Exchange(old(Dev(dev.rx.mem, dev.rx.waddr)), p, t)
    {
      AlwaysAnswered(Dev(dev.rx.mem, dev.rx.waddr), p, t);
      PrintedFields(p);
      hide Deliver, Verdict, Print, Framed, Garbled;
      var frame := SendPacket(p);
      var reply := dev.Receive(if t.up.Some? then t.up.value else frame);
      PrintedFields(reply.value);
      var answer := SendPacket(reply.value);
      event := ReceiveAnswer(if t.down.Some? then t.down.value else answer);
    }

    /** Send a packet until it is answered other than by a checksum complaint. */
    method AwaitPacket(dev: Bootloader, p: Packet, tries: seq<Try>) returns (answer: Option<Packet>)
      requires Valid() && dev.Valid() && dev.rx.got == [] && Apart(dev)
      requires Sendable(p) && |tries| > RETRY_COUNT && forall t | t in tries :: TryOk(p, t)
      modifies rx, rx.header, rx.data, dev.rx, dev.rx.header, dev.rx.data
      ensures Valid() && dev.Valid() && dev.rx.got == []
      ensures (Dev(dev.rx.mem, dev.rx.waddr), answer) == Await(old(Dev(dev.rx.mem, dev.rx.waddr)), p, tries, 0)
    {
      hide Exchange, TryOk, Sendable;
      ghost var d0 := Dev(dev.rx.mem, dev.rx.waddr);
      var try := 0;
      while true
        invariant 0 <= try <= RETRY_COUNT + 1
        invariant Valid() && dev.Valid() && dev.rx.got == []
        invariant Await(Dev(dev.rx.mem, dev.rx.waddr), p, tries, try) == Await(d0, p, tries, 0)
        decreases RETRY_COUNT + 1 - try
      {
        if try > RETRY_COUNT {
          return None;
        }
        var event := Transmit(dev, p, tries[try]);
        if event.Accepted? && !IsAck(event.packet, A_XSUM) {
          return Some(event.packet);
        }
        try := try + 1;
      }
    }

    method WriteMemBlock(dev: Bootloader, addr: U32, s: Bytes, c: Script) returns (ok: bool)
      requires Valid() && dev.Valid() && dev.rx.got == [] && Apart(dev) && ScriptOk(addr, s, c)
      modifies rx, rx.header, rx.data, dev.rx, dev.rx.header, dev.rx.data
      ensures Valid() && dev.Valid() && dev.rx.got == []
      ensures (Dev(dev.rx.mem, dev.rx.waddr), ok) == WriteBlock(old(Dev(dev.rx.mem, dev.rx.waddr)), addr, s, c)
    {
      hide Await, TryOk;
      var r := AwaitPacket(dev, WriteCommand(addr, |s|), c.command);
      if r.None? || !IsAck(r.value, A_ACK) {
        return false;
      }
      r := AwaitPacket(dev, WriteData(s), c.data);
      return r.Some? && IsAck(r.value, A_ACK);
    }

    /** Write an image block by block.  Like the programmer it carries on after a failed block; `ok`
        tells whether there was none. */
    method WriteImage(dev: Bootloader, addr: U32, image: Bytes, scripts: seq<Script>) returns (ok: bool)
      requires Valid() && dev.Valid() && dev.rx.got == [] && Apart(dev) && ScriptsOk(addr, image, 0, scripts)
      modifies rx, rx.header, rx.data, dev.rx, dev.rx.header, dev.rx.data
      ensures Valid() && dev.Valid() && dev.rx.got == []
      ensures (Dev(dev.rx.mem, dev.rx.waddr), ok) ==
        WriteMem(old(Dev(dev.rx.mem, dev.rx.waddr)), addr, image, 0, scripts)
      ensures ok && NoStrays(scripts) ==> dev.rx.mem == Overlay(old(dev.rx.mem), addr, image)
    {
      hide WriteBlock, ScriptOk, Overlay, NoStrays, Block;
      ghost var d0 := Dev(dev.rx.mem, dev.rx.waddr);
      ok := true;
      var i, b := 0, 0;
      while i < |image|
        invariant b <= |scripts| && ScriptsOk(addr, image, i, scripts[b..])
        invariant Valid() && dev.Valid() && dev.rx.got == []
        invariant var (d, rest) := WriteMem(Dev(dev.rx.mem, dev.rx.waddr), addr, image, i, scripts[b..]);
          (d, ok && rest) == WriteMem(d0, addr, image, 0, scripts)
      {
        assert scripts[b..][0] == scripts[b] && scripts[b..][1..] == scripts[b + 1..];
        var done := WriteMemBlock(dev, At(addr, i), Block(image, i), scripts[b]);
        ok := ok && done;
        i, b := i + BLOCK_SIZE, b + 1;
      }
      if ok && NoStrays(scripts) {
        WholeImage(d0, addr, image, scripts);
      }
    }
  }
}
