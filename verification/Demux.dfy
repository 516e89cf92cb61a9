/**
 The memory demultiplexer with its round-robin arbiter: who has custody of the memory port, what reaches
 the memory, and what any history of requests keeps.
 */
module Demux {
  /** A CPU's side of the memory bus. */
  datatype Port = Port(re: bool, we: bv4, addr: bv32, wdata: bv32) {
    predicate Requests() { re || we != 0 }
  }

  const QUIET := Port(false, 0, 0, 0)

  function Combine(a: Port, b: Port): Port {
    Port(a.re || b.re, a.we | b.we, a.addr | b.addr, a.wdata | b.wdata)
  }

  type Lines = seq<bool>

  /** Exactly line `c` is up. */
  predicate OneHot(l: Lines, c: nat) {
    c < |l| && forall i | 0 <= i < |l| :: l[i] == (i == c)
  }

  predicate Quiet(l: Lines) { forall i | 0 <= i < |l| :: !l[i] }

  /* ---- The arbiter ---- */

  /** Wire `j` of the chain that runs twice around the ports. */
  function Chain(cur: Lines, req: Lines, j: nat): bool
    requires |cur| == |req| > 0 && j < 2 * |cur|
  {
    if j == 0 then false
    else
      var i := if j - 1 < |cur| then j - 1 else j - 1 - |cur|;
      cur[i] || (Chain(cur, req, j - 1) && !req[i])
  }

  function Next(cur: Lines, req: Lines, hold: bool): (next: Lines)
    requires |cur| == |req| > 0
    ensures |next| == |cur|
  {
    seq(|cur|, i requires 0 <= i < |cur| =>
      if hold then cur[i] else (Chain(cur, req, i) || Chain(cur, req, i + |cur|)) && req[i])
  }

  predicate Overlap(cur: Lines, req: Lines)
    requires |cur| == |req|
  {
    exists i :: 0 <= i < |cur| && cur[i] && req[i]
  }

  /** Custody for the next cycle. */
  function NextOwner(cur: Lines, req: Lines, hold: bool): (next: Lines)
    requires |cur| == |req| > 0
    ensures |next| == |cur|
  {
    if Overlap(cur, req) then cur else Next(cur, req, hold)
  }

  /** How far port `i` is behind port `c`, going round `n` ports; `c` itself comes last. */
  function Distance(c: nat, i: nat, n: nat): (d: nat)
    requires c < n && i < n
    ensures 1 <= d <= n
  {
    if i > c then i - c else i + n - c
  }

  /** No port nearer behind `c` than port `i` requests. */
  predicate FirstAfter(req: Lines, c: nat, i: nat)
    requires c < |req| && i < |req|
  {
    forall k | 0 <= k < |req| && Distance(c, k, |req|) < Distance(c, i, |req|) :: !req[k]
  }

  /** In the first turn a wire is up from the owner to the first requester behind it. */
  lemma {:induction false} ChainFirstTurn(cur: Lines, req: Lines, c: nat, j: nat)
    requires |cur| == |req| && OneHot(cur, c) && j <= c + |cur| && j < 2 * |cur|
    ensures Chain(cur, req, j) <==> j > c && forall k | 0 <= k < |cur| && Distance(c, k, |cur|) < j - c :: !req[k]
  {
    if j > 0 {
      ChainFirstTurn(cur, req, c, j - 1);
      var n := |cur|;
      var i := if j - 1 < n then j - 1 else j - 1 - n;
      if j - 1 > c {
        assert Distance(c, i, n) == j - 1 - c;
        assert forall k | 0 <= k < n && Distance(c, k, n) == j - 1 - c :: k == i;
      }
    }
  }

  /** The second turn, past the owner again, repeats the first. */
  lemma {:induction false} ChainSecondTurn(cur: Lines, req: Lines, c: nat, j: nat)
    requires |cur| == |req| && OneHot(cur, c) && c + |cur| < j < 2 * |cur|
    ensures Chain(cur, req, j) <==> Chain(cur, req, j - |cur|)
  {
    if j > c + |cur| + 1 {
      ChainSecondTurn(cur, req, c, j - 1);
    }
  }

  /** From idle, the winner is the first requester after the last owner. */
  lemma WinnerIsFirstAfter(cur: Lines, req: Lines, c: nat, i: nat)
    requires |cur| == |req| && OneHot(cur, c) && i < |cur|
    ensures Next(cur, req, false)[i] <==> req[i] && FirstAfter(req, c, i)
  {
    hide Chain;
    ChainFirstTurn(cur, req, c, i);
    if i <= c {
      ChainFirstTurn(cur, req, c, i + |cur|);
    } else {
      ChainSecondTurn(cur, req, c, i + |cur|);
    }
  }

  /** Some requester comes first. */
  lemma {:induction false} FirstExists(req: Lines, c: nat, i: nat) returns (w: nat)
    requires c < |req| && i < |req| && req[i]
    ensures w < |req| && req[w] && FirstAfter(req, c, w)
    decreases Distance(c, i, |req|)
  {
    if FirstAfter(req, c, i) {
      w := i;
    } else {
      var k :| 0 <= k < |req| && Distance(c, k, |req|) < Distance(c, i, |req|) && req[k];
      w := FirstExists(req, c, k);
    }
  }

  /** The owner chosen in a cycle, as a port number; none if nobody requests from idle. */
  ghost predicate Chosen(cur: Lines, req: Lines, hold: bool, c: nat, w: nat)
    requires |cur| == |req| && OneHot(cur, c)
  {
    w < |req| && if req[c] || hold then w == c else req[w] && FirstAfter(req, c, w)
  }

  /** Custody is never split, and lapses only when nobody requests from idle. */
  lemma OwnerIsUnique(cur: Lines, req: Lines, hold: bool, c: nat) returns (w: nat)
    requires |cur| == |req| && OneHot(cur, c)
    ensures if Quiet(req) && !hold then Quiet(NextOwner(cur, req, hold))
            else Chosen(cur, req, hold, c, w) && OneHot(NextOwner(cur, req, hold), w)
  {
    hide Chain, Next;
    w := c;
    assert Overlap(cur, req) <==> req[c] by {
      if req[c] { assert cur[c] && req[c]; }
    }
    if !req[c] && hold {
      HoldKeeps(cur, req);
    } else if !req[c] {
      forall i | 0 <= i < |cur| ensures Next(cur, req, false)[i] <==> req[i] && FirstAfter(req, c, i) {
        WinnerIsFirstAfter(cur, req, c, i);
      }
      if !Quiet(req) {
        var i :| 0 <= i < |req| && req[i];
        w := FirstExists(req, c, i);
        FirstIsUnique(req, c, w);
      }
    }
  }

  lemma HoldKeeps(cur: Lines, req: Lines)
    requires |cur| == |req| > 0
    ensures Next(cur, req, true) == cur
  {
  }

  lemma FirstIsUnique(req: Lines, c: nat, w: nat)
    requires c < |req| && w < |req| && req[w] && FirstAfter(req, c, w)
    ensures forall i | 0 <= i < |req| && req[i] && FirstAfter(req, c, i) :: i == w
  {
    forall i | 0 <= i < |req| && req[i] && FirstAfter(req, c, i) ensures i == w {
      assert Distance(c, i, |req|) == Distance(c, w, |req|);
    }
  }

  /* ---- The clocked demultiplexer ---- */

  function Requests(ports: seq<Port>): (req: Lines)
    ensures |req| == |ports|
  {
    seq(|ports|, i requires 0 <= i < |ports| => ports[i].Requests())
  }

  /** A port asks by its read enable or any of its four write enables. */
  lemma WhoAsks(ports: seq<Port>)
    ensures forall i | 0 <= i < |ports| :: Requests(ports)[i] <==> ports[i].re || ports[i].we != 0
    ensures Quiet(Requests(ports)) <==> forall i | 0 <= i < |ports| :: !ports[i].re && ports[i].we == 0
  {
    var req := Requests(ports);
    if Quiet(req) {
      forall i | 0 <= i < |ports| ensures !ports[i].re && ports[i].we == 0 {
        assert !req[i];
      }
    }
  }

  /** What the owner asks for, or nothing. */
  function Granted(ports: seq<Port>, owner: Lines, k: nat): Port
    requires |owner| == |ports| && k < |ports|
  {
    if owner[k] then ports[k] else QUIET
  }

  datatype State = State(cur: Lines, hold: bool)

  /** One rising edge without reset. */
  function Edge(s: State, req: Lines): (s': State)
    requires |s.cur| == |req| > 0
    ensures |s'.cur| == |req|
  {
    var next := NextOwner(s.cur, req, s.hold);
    State(if Quiet(next) then s.cur else next, !Quiet(req))
  }

  method Any(l: Lines) returns (b: bool)
    ensures b == !Quiet(l)
  {
    b := false;
    for i := 0 to |l|
      invariant b == exists k :: 0 <= k < i && l[k]
    {
      b := b || l[i];
    }
  }

  /** ORing the masked requests puts the owner's request, and nobody else's, on the memory port. */
  method Drive(ports: seq<Port>, owner: Lines) returns (mem: Port)
    requires |owner| == |ports|
    ensures Quiet(owner) ==> mem == QUIET
    ensures forall w: nat | OneHot(owner, w) :: mem == ports[w]
  {
    mem := QUIET;
    for i := 0 to |ports|
      invariant (forall k | 0 <= k < i :: !owner[k]) ==> mem == QUIET
      invariant forall w: nat | OneHot(owner, w) && w < i :: mem == ports[w]
    {
      mem := Combine(mem, Granted(ports, owner, i));
    }
  }

  /** Where an edge leaves custody. */
  lemma EdgeCustody(s: State, req: Lines, c: nat) returns (w: nat)
    requires |s.cur| == |req| && OneHot(s.cur, c)
    ensures OneHot(Edge(s, req).cur, w)
    ensures var next := NextOwner(s.cur, req, s.hold); Quiet(next) || OneHot(next, w)
    ensures req[c] ==> w == c && NextOwner(s.cur, req, s.hold) == s.cur
  {
    hide Next, Chain, Chosen;
    w := OwnerIsUnique(s.cur, req, s.hold, c);
    var next := NextOwner(s.cur, req, s.hold);
    if req[c] {
      assert s.cur[c] && req[c];
      w := c;
    } else if Quiet(next) {
      w := c;
    }
  }

  class MemDemux {
    var cur: Lines
    var hold: bool

    ghost function Regs(): State
      reads this
    {
      State(cur, hold)
    }

    ghost predicate Valid()
      reads this
    {
      exists c: nat :: OneHot(cur, c)
    }

    constructor (cpus: nat)
      requires cpus > 0
      ensures Valid() && |cur| == cpus && OneHot(cur, 0) && !hold
    {
      cur := seq(cpus, i => i == 0);
      hold := false;
      new;
      assert OneHot(cur, 0);
    }

    /** A cycle: what reaches the memory, who is told it is ready, and the edge that ends it. */
    method Clock(ports: seq<Port>, memReady: bool) returns (mem: Port, ready: Lines)
      requires Valid() && |ports| == |cur|
      modifies this
      ensures Valid() && Regs() == Edge(old(Regs()), Requests(ports))
      ensures exists w: nat :: (OneHot(cur, w)
        && mem == if Quiet(NextOwner(old(cur), Requests(ports), old(hold))) then QUIET else ports[w])
      ensures forall c: nat | OneHot(old(cur), c) && (ports[c].re || ports[c].we != 0) ::
        mem == ports[c] && cur == old(cur)
      ensures |ready| == |ports| && forall i | 0 <= i < |ports| :: ready[i] == (old(cur[i]) && memReady)
    {
      hide NextOwner, Granted;
      var req := Requests(ports);
      var next := NextOwner(cur, req, hold);
      ghost var c: nat :| OneHot(cur, c);
      ghost var w := EdgeCustody(Regs(), req, c);
      ready := seq(|ports|, i requires 0 <= i < |ports| reads this requires |cur| == |ports| => cur[i] && memReady);
      mem := Drive(ports, next);
      var given := Any(next);
      if given {
        cur := next;
      }
      hold := Any(req);
      assert OneHot(cur, w);
      assert forall c': nat | OneHot(old(cur), c') :: c' == c by {
        assert old(cur)[c];
      }
    }
  }

  /* ---- Any history of requests ---- */

  predicate HistoryOk(reqs: seq<Lines>, n: nat) { forall i | 0 <= i < |reqs| :: |reqs[i]| == n }

  function Run(s: State, reqs: seq<Lines>): (s': State)
    requires |s.cur| > 0 && HistoryOk(reqs, |s.cur|)
    ensures |s'.cur| == |s.cur|
  {
    if reqs == [] then s else Edge(Run(s, reqs[..|reqs| - 1]), reqs[|reqs| - 1])
  }

  /** There is always exactly one owner. */
  lemma {:induction false} OneOwner(s: State, reqs: seq<Lines>, c: nat) returns (w: nat)
    requires OneHot(s.cur, c) && HistoryOk(reqs, |s.cur|)
    ensures OneHot(Run(s, reqs).cur, w)
  {
    w := c;
    if reqs != [] {
      var b := OneOwner(s, reqs[..|reqs| - 1], c);
      w := EdgeCustody(Run(s, reqs[..|reqs| - 1]), reqs[|reqs| - 1], b);
    }
  }

  /** An owner that keeps requesting keeps custody, however long and whatever the others ask for. */
  lemma {:induction false} RequestingOwnerKeepsCustody(s: State, reqs: seq<Lines>, c: nat)
    requires OneHot(s.cur, c) && HistoryOk(reqs, |s.cur|)
    requires forall i | 0 <= i < |reqs| :: reqs[i][c]
    ensures Run(s, reqs).cur == s.cur
  {
    if reqs != [] {
      RequestingOwnerKeepsCustody(s, reqs[..|reqs| - 1], c);
      var req := reqs[|reqs| - 1];
      assert s.cur[c] && req[c];
      assert Overlap(s.cur, req);
      assert !Quiet(s.cur);
    }
  }

  /**
   After a quiet cycle the next requester in turn gets the port. The port that last had custody is
   last in turn, unless it asks itself: then it keeps the port.
   */
  lemma RoundRobinFromIdle(s: State, reqs: seq<Lines>, c: nat, req: Lines) returns (w: nat)
    requires OneHot(s.cur, c) && HistoryOk(reqs, |s.cur|) && reqs != [] && Quiet(reqs[|reqs| - 1])
    requires |req| == |s.cur| && !Quiet(req)
    ensures HistoryOk(reqs + [req], |s.cur|) && OneHot(Run(s, reqs + [req]).cur, w) && req[w]
    ensures exists b: nat :: OneHot(Run(s, reqs).cur, b) && if req[b] then w == b else FirstAfter(req, b, w)
  {
    var b := OneOwner(s, reqs, c);
    var before := Run(s, reqs);
    assert (reqs + [req])[..|reqs|] == reqs;
    w := OwnerIsUnique(before.cur, req, before.hold, b);
    var next := NextOwner(before.cur, req, before.hold);
    assert OneHot(next, w) && next[w];
    assert Run(s, reqs + [req]) == Edge(before, req);
    assert Edge(before, req).cur == next;
  }

  /** Quiet cycles leave custody with the port last served, and clear the hold. */
  lemma {:induction false} QuietKeepsOwner(s: State, quiet: seq<Lines>, c: nat)
    requires OneHot(s.cur, c) && HistoryOk(quiet, |s.cur|)
    requires forall i | 0 <= i < |quiet| :: Quiet(quiet[i])
    ensures Run(s, quiet).cur == s.cur && (quiet != [] ==> !Run(s, quiet).hold)
  {
    hide Next, NextOwner;
    if quiet != [] {
      var before := quiet[..|quiet| - 1];
      QuietKeepsOwner(s, before, c);
      QuietEdge(Run(s, before), quiet[|quiet| - 1], c);
    }
  }

  lemma QuietEdge(s: State, req: Lines, c: nat)
    requires OneHot(s.cur, c) && |req| == |s.cur| && Quiet(req)
    ensures Edge(s, req) == State(s.cur, false)
  {
    hide Chain, Next;
    if s.hold {
      HoldKeeps(s.cur, req);
    } else {
      var w := OwnerIsUnique(s.cur, req, s.hold, c);
    }
  }

  /** Of those who ask, `w` has the lowest number above `c`, or the lowest of all if nobody above `c` asks. */
  predicate NextInTurn(req: Lines, c: nat, w: nat) {
    && w < |req| && req[w]
    && (forall k | c < k < |req| && req[k] :: c < w <= k)
    && (forall k | 0 <= k < |req| && req[k] && !(c < w) :: w <= k)
  }

  /**
   After the port was idle for a while, the port last served keeps it if it asks; otherwise the ports have
   their turn in the order of their numbers, from the one behind the port last served on.
   */
  lemma TurnAfterQuiet(s: State, quiet: seq<Lines>, req: Lines, c: nat) returns (w: nat)
    requires OneHot(s.cur, c) && HistoryOk(quiet, |s.cur|) && quiet != []
    requires forall i | 0 <= i < |quiet| :: Quiet(quiet[i])
    requires |req| == |s.cur| && !Quiet(req)
    ensures HistoryOk(quiet + [req], |s.cur|) && OneHot(Run(s, quiet + [req]).cur, w)
    ensures if req[c] then w == c else NextInTurn(req, c, w)
  {
    hide NextInTurn;
    QuietKeepsOwner(s, quiet, c);
    w := AnyTurn(s, quiet, req, c);
    if !req[c] {
      FirstIsNextInTurn(req, c, w);
    }
  }

  lemma AnyTurn(s: State, quiet: seq<Lines>, req: Lines, c: nat) returns (w: nat)
    requires OneHot(s.cur, c) && HistoryOk(quiet, |s.cur|) && quiet != []
    requires |req| == |s.cur| && !Quiet(req) && Quiet(quiet[|quiet| - 1]) && Run(s, quiet).cur == s.cur
    ensures HistoryOk(quiet + [req], |s.cur|) && OneHot(Run(s, quiet + [req]).cur, w) && req[w]
    ensures if req[c] then w == c else FirstAfter(req, c, w)
  {
    hide Run, FirstAfter;
    w := RoundRobinFromIdle(s, quiet, c, req);
    var b: nat :| OneHot(s.cur, b) && if req[b] then w == b else FirstAfter(req, b, w);
    assert s.cur[c];
  }

  lemma FirstIsNextInTurn(req: Lines, c: nat, w: nat)
    requires c < |req| && w < |req| && !req[c] && req[w] && FirstAfter(req, c, w)
    ensures NextInTurn(req, c, w)
  {
    forall k | 0 <= k < |req| && req[k] ensures Distance(c, w, |req|) <= Distance(c, k, |req|) {
    }
  }

  /**
   Not fair: once anybody asks, custody is pinned for as long as somebody keeps asking, even when the
   owner itself asks for nothing.
   */
  lemma {:induction false} BusyPortsPinTheOwner(s: State, reqs: seq<Lines>, c: nat)
    requires OneHot(s.cur, c) && s.hold && HistoryOk(reqs, |s.cur|)
    requires forall i | 0 <= i < |reqs| :: !Quiet(reqs[i])
    ensures Run(s, reqs).cur == s.cur && Run(s, reqs).hold
  {
    if reqs != [] {
      BusyPortsPinTheOwner(s, reqs[..|reqs| - 1], c);
      HoldKeeps(s.cur, reqs[|reqs| - 1]);
      assert s.cur[c];
    }
  }

  /**
   A port that asks from idle and was not the last owner has its request passed on in the same cycle,
   while it still sees the memory as unready.
   */
  lemma TakenOverWhileUnready(s: State, req: Lines, c: nat, w: nat)
    requires OneHot(s.cur, c) && |req| == |s.cur| && !s.hold && OneHot(req, w) && w != c
    ensures OneHot(NextOwner(s.cur, req, s.hold), w) && !s.cur[w]
  {
    assert req[w];
    var o := OwnerIsUnique(s.cur, req, s.hold, c);
  }
}
