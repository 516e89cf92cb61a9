/**
 When an upload succeeds, and what it leaves behind when it does not: which blocks are acknowledged, and
 what is in device memory block by block.
 */
module UploadOutcome {
  import opened Words
  import opened Framing
  import opened Receiver
  import opened Upload

  /* ---- Which exchanges end the retries ---- */

  /** Frame and answer both arrive as they were sent. */
  predicate Intact(t: Try) { t.up.None? && t.down.None? }

  lemma AnswerSettles(d: Dev, p: Packet, t: Try)
    requires Sendable(p) && TryOk(p, t)
    requires t.up.None? ==> Deliver(d, Print(p)).1 == Some(Ack(A_ACK, 0))
    ensures Settles(Exchange(d, p, t).1) <==> Intact(t)
    ensures Intact(t) ==> Exchange(d, p, t).1 == Accepted(Ack(A_ACK, 0))
  {
    hide Deliver, Print, Garbled;
    AckVerdict(A_ACK, 0);
    if t.up.Some? {
      SentIsFramed(p, t);
      GarbledIsRefused(d, t.up.value);
    }
  }

  lemma SentIsFramed(p: Packet, t: Try)
    requires p.Ok() && TryOk(p, t) && t.up.Some?
    ensures Framed(t.up.value) && Verdict(HOST, t.up.value).BadSum? && Sent(p, t) == t.up.value
  {
  }

  lemma CommandSettles(d: Dev, addr: U32, n: U32, t: Try)
    requires TryOk(WriteCommand(addr, n), t)
    ensures var e := Exchange(d, WriteCommand(addr, n), t).1;
      (Settles(e) <==> Intact(t)) && (Intact(t) ==> e == Accepted(Ack(A_ACK, 0)))
  {
    var p := WriteCommand(addr, n);
    assert Deliver(d, Print(p)).1 == Some(Ack(A_ACK, 0)) by {
      PrintedFields(p);
      PrintedVerdict(DEVICE, p);
    }
    AnswerSettles(d, p, t);
  }

  lemma DataSettles(d: Dev, s: Bytes, t: Try)
    requires |s| < 0x1_0000_0000 && TryOk(WriteData(s), t)
    ensures var e := Exchange(d, WriteData(s), t).1;
      (Settles(e) <==> Intact(t)) && (Intact(t) ==> e == Accepted(Ack(A_ACK, 0)))
  {
    DeliverIntact(d, s);
    AnswerSettles(d, WriteData(s), t);
  }

  /** One of the four transmissions from number `k` on arrives and is answered. */
  predicate GetsThrough(tries: seq<Try>, k: nat) {
    exists j :: k <= j < 4 && j < |tries| && Intact(tries[j])
  }

  lemma GetsThroughNext(tries: seq<Try>, k: nat)
    requires |tries| > 3 && k < 4
    ensures GetsThrough(tries, k) <==> Intact(tries[k]) || GetsThrough(tries, k + 1)
  {
  }

  lemma {:induction false} CommandAwaited(d: Dev, addr: U32, n: U32, tries: seq<Try>, k: nat)
    requires |tries| > RETRY_COUNT && forall t | t in tries :: TryOk(WriteCommand(addr, n), t)
    ensures var r := Await(d, WriteCommand(addr, n), tries, k).1;
      (r.Some? <==> GetsThrough(tries, k)) && (r.Some? ==> IsAck(r.value, A_ACK))
    decreases |tries| - k
  {
    hide Exchange, GetsThrough, Intact;
    if k <= RETRY_COUNT {
      CommandSettles(d, addr, n, tries[k]);
      AckVerdict(A_ACK, 0);
      GetsThroughNext(tries, k);
      CommandAwaited(Exchange(d, WriteCommand(addr, n), tries[k]).0, addr, n, tries, k + 1);
    } else {
      TooLate(tries, k);
    }
  }

  lemma TooLate(tries: seq<Try>, k: nat)
    requires k > 3
    ensures !GetsThrough(tries, k)
  {
  }

  lemma {:induction false} DataAwaited(d: Dev, s: Bytes, tries: seq<Try>, k: nat)
    requires |s| < 0x1_0000_0000 && |tries| > RETRY_COUNT && forall t | t in tries :: TryOk(WriteData(s), t)
    ensures var r := Await(d, WriteData(s), tries, k).1;
      (r.Some? <==> GetsThrough(tries, k)) && (r.Some? ==> IsAck(r.value, A_ACK))
    decreases |tries| - k
  {
    hide Exchange, GetsThrough, Intact;
    if k <= RETRY_COUNT {
      DataSettles(d, s, tries[k]);
      AckVerdict(A_ACK, 0);
      GetsThroughNext(tries, k);
      DataAwaited(Exchange(d, WriteData(s), tries[k]).0, s, tries, k + 1);
    } else {
      TooLate(tries, k);
    }
  }

  /* ---- Which uploads succeed ---- */

  /** Command and data of the block both get through. */
  predicate Reached(c: Script) { GetsThrough(c.command, 0) && GetsThrough(c.data, 0) }

  lemma BlockSucceeds(d: Dev, addr: U32, s: Bytes, c: Script)
    requires ScriptOk(addr, s, c)
    ensures WriteBlock(d, addr, s, c).1 <==> Reached(c)
  {
    hide Await, GetsThrough;
    CommandAwaited(d, addr, |s|, c.command, 0);
    DataAwaited(Await(d, WriteCommand(addr, |s|), c.command, 0).0, s, c.data, 0);
  }

  /** An upload is acknowledged throughout exactly if every block is reached. */
  lemma {:induction false} UploadSucceedsExactly(d: Dev, addr: U32, image: Bytes, i: nat, scripts: seq<Script>)
    requires ScriptsOk(addr, image, i, scripts)
    ensures WriteMem(d, addr, image, i, scripts).1 <==> forall b | 0 <= b < |scripts| :: Reached(scripts[b])
    decreases |scripts|
  {
    hide WriteBlock, Reached, Block;
    if i < |image| {
      BlockSucceeds(d, At(addr, i), Block(image, i), scripts[0]);
      var d1 := WriteBlock(d, At(addr, i), Block(image, i), scripts[0]).0;
      UploadSucceedsExactly(d1, addr, image, i + BLOCK_SIZE, scripts[1..]);
      AllReached(scripts);
    }
  }

  lemma AllReached(scripts: seq<Script>)
    requires scripts != []
    ensures (forall b | 0 <= b < |scripts| :: Reached(scripts[b]))
       <==> Reached(scripts[0]) && forall b | 0 <= b < |scripts[1..]| :: Reached(scripts[1..][b])
  {
    hide Reached;
    if Reached(scripts[0]) && forall b | 0 <= b < |scripts[1..]| :: Reached(scripts[1..][b]) {
      forall b | 0 <= b < |scripts| ensures Reached(scripts[b]) {
        if b > 0 {
          assert Reached(scripts[1..][b - 1]);
        }
      }
    }
    if forall b | 0 <= b < |scripts| :: Reached(scripts[b]) {
      forall b | 0 <= b < |scripts[1..]| ensures Reached(scripts[1..][b]) {
        assert Reached(scripts[b + 1]);
      }
    }
  }

  /** If every block is reached, and no command passes for data, the whole image is in memory. */
  lemma ReachedUpload(d: Dev, addr: U32, image: Bytes, scripts: seq<Script>)
    requires ScriptsOk(addr, image, 0, scripts) && NoStrays(scripts)
    requires forall b | 0 <= b < |scripts| :: Reached(scripts[b])
    ensures WriteMem(d, addr, image, 0, scripts) ==
      (WriteMem(d, addr, image, 0, scripts).0, true)
    ensures WriteMem(d, addr, image, 0, scripts).0.mem == Overlay(d.mem, addr, image)
  {
    hide WriteMem, Reached, NoStrays, ScriptsOk, Overlay;
    UploadSucceedsExactly(d, addr, image, 0, scripts);
    WholeImage(d, addr, image, scripts);
  }

  /* ---- Block by block ---- */

  /** Memory is the same but for the bytes `lo` to `hi` counted from `addr`. */
  ghost predicate Confined(m: Memory, m': Memory, addr: U32, lo: nat, hi: nat) {
    forall a: U32 | !(lo <= Offset(a, addr) < hi) :: (a in m' <==> a in m) && (a in m ==> m'[a] == m[a])
  }

  /** Bytes `lo` to `hi` of the image are in place. */
  ghost predicate InPlace(m: Memory, addr: U32, image: Bytes, lo: nat, hi: nat)
    requires hi <= |image|
  {
    forall x | lo <= x < hi :: At(addr, x) in m && m[At(addr, x)] == image[x]
  }

  lemma OffsetFrom(addr: U32, i: nat, a: U32, n: nat)
    requires i + n < 0x1_0000_0000
    ensures Offset(a, At(addr, i)) < n <==> i <= Offset(a, addr) < i + n
    ensures i <= Offset(a, addr) < i + n ==> Offset(a, At(addr, i)) == Offset(a, addr) - i
  {
  }

  lemma SameOverlayConfines(m: Memory, m': Memory, addr: U32, i: nat, s: Bytes)
    requires i + |s| < 0x1_0000_0000 && Overlay(m', At(addr, i), s) == Overlay(m, At(addr, i), s)
    ensures Confined(m, m', addr, i, i + |s|)
  {
    var a := At(addr, i);
    OverlayPoint(m', a, s);
    OverlayPoint(m, a, s);
    hide Overlay;
    forall x: U32 | !(i <= Offset(x, addr) < i + |s|) ensures (x in m' <==> x in m) && (x in m ==> m'[x] == m[x]) {
      OffsetFrom(addr, i, x, |s|);
      assert x in Overlay(m', a, s) <==> x in m';
    }
  }

  lemma OverlayInPlace(m: Memory, addr: U32, image: Bytes, i: nat, s: Bytes)
    requires i + |s| <= |image| < 0x1_0000_0000 && s == image[i..i + |s|]
    ensures InPlace(Overlay(m, At(addr, i), s), addr, image, i, i + |s|)
  {
    hide Overlay, At, Offset;
    OverlayPoint(m, At(addr, i), s);
    forall x | i <= x < i + |s|
      ensures var m' := Overlay(m, At(addr, i), s); At(addr, x) in m' && m'[At(addr, x)] == image[x]
    {
      var y := At(addr, x);
      OffsetAt(addr, y, x);
      OffsetFrom(addr, i, y, |s|);
      assert Offset(y, At(addr, i)) == x - i && s[x - i] == image[x];
    }
  }

  lemma BlockConfined(d: Dev, addr: U32, i: nat, s: Bytes, c: Script)
    requires i + |s| < 0x1_0000_0000
    requires ScriptOk(At(addr, i), s, c) && forall t | t in c.command :: !Stray(t)
    ensures Confined(d.mem, WriteBlock(d, At(addr, i), s, c).0.mem, addr, i, i + |s|)
  {
    hide WriteBlock, ScriptOk, Overlay, Stray, Confined, At;
    BlockKeepsRest(d, At(addr, i), s, c);
    SameOverlayConfines(d.mem, WriteBlock(d, At(addr, i), s, c).0.mem, addr, i, s);
  }

  lemma BlockInPlace(d: Dev, addr: U32, image: Bytes, i: nat, s: Bytes, c: Script)
    requires i + |s| <= |image| < 0x1_0000_0000 && s == image[i..i + |s|] && Reached(c)
    requires ScriptOk(At(addr, i), s, c) && forall t | t in c.command :: !Stray(t)
    ensures InPlace(WriteBlock(d, At(addr, i), s, c).0.mem, addr, image, i, i + |s|)
  {
    hide WriteBlock, Reached, ScriptOk, Overlay, Stray, InPlace, At;
    BlockSucceeds(d, At(addr, i), s, c);
    BlockWritten(d, At(addr, i), s, c);
    OverlayInPlace(d.mem, addr, image, i, s);
  }

  /** Whatever becomes of a block, nothing outside it changes; if it is reached, it is in place. */
  lemma BlockOutcome(d: Dev, addr: U32, image: Bytes, i: nat, c: Script)
    requires i < |image| < 0x1_0000_0000
    requires ScriptOk(At(addr, i), Block(image, i), c) && forall t | t in c.command :: !Stray(t)
    ensures var m, hi := WriteBlock(d, At(addr, i), Block(image, i), c).0.mem, i + BlockLength(image, i);
      Confined(d.mem, m, addr, i, hi) && (Reached(c) ==> InPlace(m, addr, image, i, hi))
  {
    hide WriteBlock, Reached, ScriptOk, Stray, Confined, InPlace, At;
    BlockConfined(d, addr, i, Block(image, i), c);
    if Reached(c) {
      BlockInPlace(d, addr, image, i, Block(image, i), c);
    }
  }

  lemma BlockKeepsRest(d: Dev, addr: U32, s: Bytes, c: Script)
    requires ScriptOk(addr, s, c) && forall t | t in c.command :: !Stray(t)
    ensures Overlay(WriteBlock(d, addr, s, c).0.mem, addr, s) == Overlay(d.mem, addr, s)
  {
    hide Overlay, Await, Stray, TryOk;
    AwaitCommand(d, addr, |s|, c.command, 0);
    var d1 := Await(d, WriteCommand(addr, |s|), c.command, 0).0;
    AwaitData(d1, s, c.data, 0);
  }

  /** Offset of block `b`, 1024 bytes after the block before it. */
  function BlockStart(i: nat, b: nat): nat { i + 1024 * b }

  /** A block that is reached is in place at the end, whether or not blocks before or after it are; and
      nothing outside the image changes. */
  lemma {:induction false} EveryReachedBlock(d: Dev, addr: U32, image: Bytes, i: nat, scripts: seq<Script>, b: nat)
    requires ScriptsOk(addr, image, i, scripts) && NoStrays(scripts) && i <= |image| + BLOCK_SIZE
      && |image| < 0x1_0000_0000
    ensures var m := WriteMem(d, addr, image, i, scripts).0.mem;
      && Confined(d.mem, m, addr, i, |image|)
      && (b < |scripts| ==>
            && BlockStart(i, b) < |image|
            && (Reached(scripts[b]) ==>
                  InPlace(m, addr, image, BlockStart(i, b), BlockStart(i, b) + BlockLength(image, BlockStart(i, b)))))
    decreases |scripts|
  {
    hide WriteBlock, Reached, Block, Confined, InPlace, ScriptOk, Stray;
    if i >= |image| {
      ConfinedSelf(d.mem, addr, i, |image|);
    } else {
      BlockOutcome(d, addr, image, i, scripts[0]);
      var d1 := WriteBlock(d, At(addr, i), Block(image, i), scripts[0]).0;
      var hi := i + BlockLength(image, i);
      var m := WriteMem(d1, addr, image, i + BLOCK_SIZE, scripts[1..]).0.mem;
      EveryReachedBlock(d1, addr, image, i + BLOCK_SIZE, scripts[1..], if b > 0 then b - 1 else 0);
      ConfinedJoin(d.mem, d1.mem, m, addr, i, hi, i + BLOCK_SIZE, |image|);
      if b == 0 && Reached(scripts[0]) {
        StillInPlace(d1.mem, m, addr, image, i, hi, i + BLOCK_SIZE);
      }
    }
  }

  lemma ConfinedSelf(m: Memory, addr: U32, lo: nat, hi: nat)
    ensures Confined(m, m, addr, lo, hi)
  {
  }

  lemma ConfinedJoin(m: Memory, m1: Memory, m2: Memory, addr: U32, lo: nat, mid: nat, from: nat, hi: nat)
    requires Confined(m, m1, addr, lo, mid) && Confined(m1, m2, addr, from, hi) && lo <= mid <= hi && lo <= from
    ensures Confined(m, m2, addr, lo, hi)
  {
    hide Offset;
  }

  lemma StillInPlace(m1: Memory, m2: Memory, addr: U32, image: Bytes, lo: nat, hi: nat, from: nat)
    requires hi <= |image| < 0x1_0000_0000 && hi <= from
    requires InPlace(m1, addr, image, lo, hi) && Confined(m1, m2, addr, from, |image|)
    ensures InPlace(m2, addr, image, lo, hi)
  {
    forall x | lo <= x < hi ensures At(addr, x) in m2 && m2[At(addr, x)] == image[x] {
      OffsetAt(addr, At(addr, x), x);
      assert At(addr, x) in m1;
    }
  }

  /* ---- Frames and answers, byte for byte ---- */

  function Number(s: Bytes): int
    requires |s| == 4
  {
    var b0: int, b1: int, b2: int, b3: int := s[0], s[1], s[2], s[3];
    b0 + 0x100 * b1 + 0x1_0000 * b2 + 0x100_0000 * b3
  }

  /** A two, type and length from the lowest byte up, the payload, and the checksum. */
  lemma FrameBytes(p: Packet)
    requires p.Ok()
    ensures var f := Print(p);
      && |f| == 10 + |p.payload| && f[0] == 2 && Number(f[1..5]) == p.kind && Number(f[5..9]) == |p.payload|
      && f[9..9 + |p.payload|] == p.payload && f[9 + |p.payload|] == Sum(f[..9 + |p.payload|]) % 256
  {
    PrintedFields(p);
    assert Print(p)[1..5] == Le32(p.kind) && Print(p)[5..9] == Le32(|p.payload|) by { hide Sum; }
  }

  /** A write command says 0x10, eight bytes, and address and length from the lowest byte up; data says
      0x12. */
  lemma CommandBytes(addr: U32, n: U32, s: Bytes)
    requires |s| < 0x1_0000_0000
    ensures var c := WriteCommand(addr, n);
      && c.kind == 0x10 && |c.payload| == 8 && Number(c.payload[..4]) == addr && Number(c.payload[4..]) == n
      && WriteData(s).kind == 0x12 && WriteData(s).payload == s
  {
    var c := WriteCommand(addr, n);
    assert c.payload[..4] == Le32(addr) && c.payload[4..] == Le32(n);
  }

  /** An answer: type 2, status and cause. */
  predicate Says(reply: Option<Packet>, status: int, cause: int) {
    && reply.Some? && reply.value.kind == 2 && |reply.value.payload| == 8
    && Number(reply.value.payload[..4]) == status && Number(reply.value.payload[4..]) == cause
  }

  lemma AckSays(status: U32, cause: U32)
    ensures Says(Some(Ack(status, cause)), status, cause)
  {
    var p := Ack(status, cause);
    assert p.payload[..4] == Le32(status) && p.payload[4..] == Le32(cause);
  }

  /** What the device says to a frame: 2 with both sums if they differ, 3 if its sixteen bytes of buffer
      are too few or the length is wrong, the same sixteen bytes to a ping, and 0 to a write. */
  lemma DeviceAnswers(d: Dev, f: Bytes)
    requires Framed(f)
    ensures var (d', reply) := Deliver(d, f);
      var n := |f| - 1;
      var kind, length, sum, payload := Number(f[1..5]), Number(f[5..9]), Sum(f[..n]) % 256, f[9..n];
      && (sum != f[n] ==> Says(reply, 2, (f[n] as int) * 256 + sum) && d'.waddr == d.waddr)
      && (sum == f[n] && kind != 0x12 && length > 16 ==> Says(reply, 3, 0) && d'.waddr == d.waddr)
      && (sum == f[n] && kind == 0x12 ==> Says(reply, 0, 0) && d'.waddr == d.waddr)
      && (sum == f[n] && kind == 0x10 && length == 8 ==> Says(reply, 0, 0) && d'.waddr == Number(payload[..4]))
      && (sum == f[n] && kind == 0x10 && length != 8 ==> Says(reply, 3, 0) && d'.waddr == d.waddr)
      && (sum == f[n] && kind == 0x00 && length == 16 ==> reply == Some(Packet(0x01, payload)))
      && (sum == f[n] && kind == 0x00 && length != 16 ==> Says(reply, 3, 0))
      && (kind != 0x12 ==> d'.mem == d.mem)
  {
    var n := |f| - 1;
    var sum: int := Sum(f[..n]) % 256;
    hide Sum, Overlay, Says, Ack;
    AckSays(A_ACK, 0);
    AckSays(A_NCAP, 0);
    AckSays(A_XSUM, f[n] * 256 + sum);
  }

  /** The device takes packets of up to sixteen bytes, and data of any length; */
  lemma DeviceCapacity(p: Packet)
    requires p.Ok()
    ensures Expected(DEVICE, p) == if |p.payload| <= 16 || p.kind == 0x12 then Accepted(p) else TooLong
  {
  }

  /** the programmer packets of up to 64 KiB of every kind. */
  lemma HostCapacity(p: Packet)
    requires p.Ok()
    ensures Expected(HOST, p) == if |p.payload| <= 0x1_0000 then Accepted(p) else TooLong
  {
  }
}
