/**
 The packet format both ends of the bootloader protocol speak: a start byte, type and length as
 little-endian words, the payload, and the sum of everything before as a checksum.
 */
module Framing {
  import opened Words

  type Bytes = seq<Byte>
  type U32 = n: int | 0 <= n < 0x1_0000_0000

  const START: Byte := 2
  const HEADER := 8

  // Packet types that matter here.
  const P_PING: U32 := 0x00
  const P_PONG: U32 := 0x01
  const P_ACK: U32 := 0x02
  const P_WRITE: U32 := 0x10
  const P_WDATA: U32 := 0x12

  datatype Packet = Packet(kind: U32, payload: Bytes) {
    predicate Ok() { |payload| < 0x1_0000_0000 }
  }

  function Low(n: nat): Byte { n % 256 }

  function Le32(n: U32): (s: Bytes)
    ensures |s| == 4
  {
    [Low(n), Low(n / 256), Low(n / 256 / 256), Low(n / 256 / 256 / 256)]
  }

  function FromLe32(s: Bytes): U32
    requires |s| == 4
  {
    var b0: int, b1: int, b2: int, b3: int := s[0], s[1], s[2], s[3];
    b0 + 256 * b1 + 65536 * b2 + 16777216 * b3
  }

  lemma Le32RoundTrip(n: U32)
    ensures FromLe32(Le32(n)) == n
  {
  }

  function Sum(s: Bytes): nat {
    if s == [] then 0 else Sum(s[..|s| - 1]) + s[|s| - 1]
  }

  /** The packet printer. */
  function Body(p: Packet): Bytes
    requires p.Ok()
  {
    [START] + Le32(p.kind) + Le32(|p.payload|) + p.payload
  }

  function Print(p: Packet): (f: Bytes)
    requires p.Ok()
    ensures |f| == 10 + |p.payload|
  {
    Body(p) + [Sum(Body(p)) % 256]
  }

  lemma SumAppend(s: Bytes, b: Byte)
    ensures Sum(s + [b]) == Sum(s) + b
  {
    assert (s + [b])[..|s|] == s;
  }

  /** The running checksum, modulo 256. */
  lemma ChecksumAppend(s: Bytes, x: Byte, b: Byte)
    requires x == Sum(s) % 256
    ensures (x + b) % 256 == Sum(s + [b]) % 256
  {
    SumAppend(s, b);
  }

  lemma OneMoreByte(head: Bytes, tail: Bytes, i: nat)
    requires i < |tail|
    ensures head + tail[..i] + [tail[i]] == head + tail[..i + 1]
  {
  }

  method SendPacket(p: Packet) returns (out: Bytes)
    requires p.Ok()
    ensures out == Print(p)
  {
    hide Sum, Le32;
    out := [START];
    var xsum: Byte := START;
    SumOfStart();
    var header := Le32(p.kind) + Le32(|p.payload|);
    for i := 0 to HEADER
      invariant out == [START] + header[..i] && xsum == Sum(out) % 256
    {
      ChecksumAppend(out, xsum, header[i]);
      OneMoreByte([START], header, i);
      xsum := (xsum + header[i]) % 256;
      out := out + [header[i]];
    }
    ghost var head := out;
    assert head == [START] + Le32(p.kind) + Le32(|p.payload|);
    for i := 0 to |p.payload|
      invariant out == head + p.payload[..i] && xsum == Sum(out) % 256
    {
      ChecksumAppend(out, xsum, p.payload[i]);
      OneMoreByte(head, p.payload, i);
      xsum := (xsum + p.payload[i]) % 256;
      out := out + [p.payload[i]];
    }
    assert out == Body(p);
    out := out + [xsum];
  }

  lemma SumOfStart()
    ensures Sum([START]) == START
  {
    assert [START][..0] == [];
  }

  /* ---- What a receiver makes of a byte stream ---- */

  /** The fields of a frame, or of as much of it as has arrived. */
  function Kind(f: Bytes): U32
    requires |f| >= 9
  {
    FromLe32(f[1..5])
  }

  function Length(f: Bytes): U32
    requires |f| >= 9
  {
    FromLe32(f[5..9])
  }

  /** What a receiver concludes at the end of a frame. */
  datatype Event = BadSum(sent: Byte, computed: Byte) | TooLong | Accepted(packet: Packet)

  /** `capacity` is the size of the receiver's buffer; `direct` receivers put P_WDATA elsewhere. */
  datatype Config = Config(capacity: nat, direct: bool) {
    predicate Fits(kind: U32, length: U32) { length <= capacity || (direct && kind == P_WDATA) }
  }

  predicate Complete(f: Bytes) { |f| >= 10 && |f| == 10 + Length(f) }

  function Verdict(c: Config, f: Bytes): Event
    requires Complete(f)
  {
    var n := |f| - 1;
    var xsum := Sum(f[..n]) % 256;
    if xsum != f[n] then BadSum(f[n], xsum)
    else if !c.Fits(Kind(f), Length(f)) then TooLong
    else Accepted(Packet(Kind(f), f[9..n]))
  }

  /** The bytes of the frame being received, and the events so far. */
  datatype Progress = Progress(got: Bytes, events: seq<Event>)

  function Take(c: Config, p: Progress, b: Byte): Progress {
    var got := p.got + [b];
    if p.got == [] && b != START then p
    else if Complete(got) then Progress([], p.events + [Verdict(c, got)])
    else Progress(got, p.events)
  }

  function Feed(c: Config, p: Progress, bytes: Bytes): Progress {
    if bytes == [] then p
    else Take(c, Feed(c, p, bytes[..|bytes| - 1]), bytes[|bytes| - 1])
  }

  lemma {:induction false} FeedConcat(c: Config, p: Progress, a: Bytes, b: Bytes)
    ensures Feed(c, p, a + b) == Feed(c, Feed(c, p, a), b)
  {
    hide Take;
    if b == [] {
      assert a + b == a;
    } else {
      var n := |b| - 1;
      FeedConcat(c, p, a, b[..n]);
      assert (a + b)[..|a + b| - 1] == a + b[..n];
    }
  }

  lemma {:induction false} FeedJunk(c: Config, e: seq<Event>, junk: Bytes)
    requires START !in junk
    ensures Feed(c, Progress([], e), junk) == Progress([], e)
  {
    if junk != [] {
      FeedJunk(c, e, junk[..|junk| - 1]);
    }
  }

  /** A frame whose start byte and length field are intact. */
  predicate Framed(f: Bytes) { Complete(f) && f[0] == START }

  lemma PrefixIsIncomplete(f: Bytes, k: nat)
    requires Framed(f) && k < |f|
    ensures !Complete(f[..k])
  {
    if k >= 9 {
      assert f[..k][5..9] == f[5..9];
    }
  }

  lemma FeedOneMore(c: Config, p: Progress, bytes: Bytes, b: Byte)
    ensures Feed(c, p, bytes + [b]) == Take(c, Feed(c, p, bytes), b)
  {
    assert (bytes + [b])[..|bytes|] == bytes;
  }

  lemma {:induction false} FeedPrefix(c: Config, e: seq<Event>, f: Bytes, k: nat)
    requires Framed(f) && k < |f|
    ensures Feed(c, Progress([], e), f[..k]) == Progress(f[..k], e)
  {
    if k > 0 {
      hide Verdict, Complete, Feed;
      FeedPrefix(c, e, f, k - 1);
      PrefixIsIncomplete(f, k);
      assert f[0] == START by { StartsFrame(f); }
      assert f[..k - 1] + [f[k - 1]] == f[..k];
      FeedOneMore(c, Progress([], e), f[..k - 1], f[k - 1]);
    } else {
      assert f[..0] == [];
    }
  }

  lemma StartsFrame(f: Bytes)
    requires Framed(f)
    ensures f != [] && f[0] == START
  {
  }

  /** Whatever its other bytes, such a frame produces exactly its verdict, and nothing is left over. */
  lemma FeedFrame(c: Config, e: seq<Event>, f: Bytes)
    requires Framed(f)
    ensures Feed(c, Progress([], e), f) == Progress([], e + [Verdict(c, f)])
  {
    var n := |f| - 1;
    FeedPrefix(c, e, f, n);
    assert f[..n] + [f[n]] == f;
  }

  lemma PrintedFields(p: Packet)
    requires p.Ok()
    ensures var f := Print(p);
      Framed(f) && Kind(f) == p.kind && Length(f) == |p.payload| && f[9..|f| - 1] == p.payload
      && f[..|f| - 1] == Body(p)
  {
    var f := Print(p);
    assert f[1..5] == Le32(p.kind) && f[5..9] == Le32(|p.payload|);
    Le32RoundTrip(p.kind);
    Le32RoundTrip(|p.payload|);
  }

  function Expected(c: Config, p: Packet): Event
    requires p.Ok()
  {
    if c.Fits(p.kind, |p.payload|) then Accepted(p) else TooLong
  }

  lemma PrintedVerdict(c: Config, p: Packet)
    requires p.Ok()
    ensures Framed(Print(p)) && Verdict(c, Print(p)) == Expected(c, p)
  {
    PrintedFields(p);
  }

  function PrintAll(ps: seq<Packet>): Bytes
    requires forall p | p in ps :: p.Ok()
  {
    if ps == [] then [] else PrintAll(ps[..|ps| - 1]) + Print(ps[|ps| - 1])
  }

  function ExpectedAll(c: Config, ps: seq<Packet>): seq<Event>
    requires forall p | p in ps :: p.Ok()
  {
    if ps == [] then [] else ExpectedAll(c, ps[..|ps| - 1]) + [Expected(c, ps[|ps| - 1])]
  }

  /** One printed packet more. */
  lemma FeedPrinted(c: Config, e: seq<Event>, before: Bytes, p: Packet)
    requires p.Ok() && Feed(c, Progress([], []), before) == Progress([], e)
    ensures Feed(c, Progress([], []), before + Print(p)) == Progress([], e + [Expected(c, p)])
  {
    PrintedVerdict(c, p);
    hide Feed, Print, Verdict, Expected, Framed;
    FeedConcat(c, Progress([], []), before, Print(p));
    FeedFrame(c, e, Print(p));
  }

  /** After any line noise without a start byte, every printed packet is delivered, in order, once,
      with its type, length and payload; over-long ones are refused but consumed whole. */
  lemma {:induction false} StreamRoundTrip(c: Config, junk: Bytes, ps: seq<Packet>)
    requires START !in junk && forall p | p in ps :: p.Ok()
    ensures Feed(c, Progress([], []), junk + PrintAll(ps)) == Progress([], ExpectedAll(c, ps))
  {
    hide Feed, Print, Verdict, Expected;
    if ps == [] {
      FeedJunk(c, [], junk);
      assert junk + PrintAll(ps) == junk;
    } else {
      var front, p := ps[..|ps| - 1], ps[|ps| - 1];
      assert forall q | q in front :: q.Ok();
      StreamRoundTrip(c, junk, front);
      FeedPrinted(c, ExpectedAll(c, front), junk + PrintAll(front), p);
      assert junk + (PrintAll(front) + Print(p)) == junk + PrintAll(front) + Print(p);
    }
  }

  lemma {:induction false} SumUpdate(s: Bytes, i: nat, b: Byte)
    requires i < |s|
    ensures Sum(s[i := b]) == Sum(s) - s[i] + b
  {
    var n := |s| - 1;
    if i < n {
      SumUpdate(s[..n], i, b);
      assert s[i := b][..n] == s[..n][i := b];
    } else {
      assert s[i := b][..n] == s[..n];
    }
  }

  /** Any change to one byte outside the start byte and the length field is noticed. */
  lemma CorruptionIsRejected(c: Config, e: seq<Event>, p: Packet, i: nat, b: Byte)
    requires p.Ok() && 0 < i < 10 + |p.payload| && !(5 <= i < 9) && b != Print(p)[i]
    ensures var r := Feed(c, Progress([], e), Print(p)[i := b]);
      r.got == [] && |r.events| == |e| + 1 && r.events[..|e|] == e && r.events[|e|].BadSum?
  {
    var f, n := Print(p), 9 + |p.payload|;
    var f' := f[i := b];
    PrintedFields(p);
    assert f'[5..9] == f[5..9];
    FeedFrame(c, e, f');
    if i < n {
      SumUpdate(Body(p), i, b);
      assert f'[..n] == Body(p)[i := b];
    } else {
      assert f'[..n] == Body(p);
    }
  }
}
