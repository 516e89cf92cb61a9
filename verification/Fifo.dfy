/** The circular buffer of the UART, proved to be a queue of capacity depth - 1. */
module Fifo {

  /** One clock edge of the queue.  A write into a full FIFO is dropped, or, where the design accepts
      it, empties the FIFO; a read in the same cycle makes room. */
  function QueueEdge<T>(q: seq<T>, capacity: nat, allowFullWe: bool, we: bool, wdata: T, re: bool): seq<T> {
    var kept := if re && q != [] then q[1..] else q;
    if !we || (|q| == capacity && !allowFullWe) then kept
    else if |kept| == capacity then []
    else kept + [wdata]
  }

  function Wrapped(pos: nat, depth: nat): nat {
    if pos + 1 == depth then 0 else pos + 1
  }

  /** The elements from `rpos` up to `wpos`, going round the end of the buffer. */
  function Ring<T>(s: seq<T>, rpos: nat, wpos: nat): seq<T>
    requires rpos < |s| && wpos < |s|
  {
    if rpos <= wpos then s[rpos..wpos] else s[rpos..] + s[..wpos]
  }

  lemma PopRing<T>(s: seq<T>, rpos: nat, wpos: nat)
    requires rpos < |s| && wpos < |s| && rpos != wpos
    ensures Ring(s, rpos, wpos) == [s[rpos]] + Ring(s, Wrapped(rpos, |s|), wpos)
  {
  }

  lemma PushRing<T>(s: seq<T>, rpos: nat, wpos: nat, x: T)
    requires rpos < |s| && wpos < |s| && Wrapped(wpos, |s|) != rpos
    ensures Ring(s[wpos := x], rpos, Wrapped(wpos, |s|)) == Ring(s, rpos, wpos) + [x]
  {
    var s' := s[wpos := x];
    if rpos <= wpos && wpos + 1 < |s| {
      assert s'[rpos..wpos + 1] == s[rpos..wpos] + [x];
    } else if rpos <= wpos {
      assert s'[rpos..] + s'[..0] == s[rpos..wpos] + [x];
    } else {
      assert s'[rpos..] == s[rpos..] && s'[..wpos + 1] == s[..wpos] + [x];
    }
  }

  /** The queue after writing `xs`, one a cycle, without a read. */
  function Written<T>(q: seq<T>, xs: seq<T>, capacity: nat, allowFullWe: bool): seq<T> {
    if xs == [] then q
    else QueueEdge(Written(q, xs[..|xs| - 1], capacity, allowFullWe), capacity, allowFullWe, true, xs[|xs| - 1], false)
  }

  /** As many elements as there is room for are all kept, in order. */
  lemma {:induction false} FillsUp<T>(q: seq<T>, xs: seq<T>, capacity: nat, allowFullWe: bool)
    requires |q| + |xs| <= capacity
    ensures Written(q, xs, capacity, allowFullWe) == q + xs
  {
    if xs != [] {
      FillsUp(q, xs[..|xs| - 1], capacity, allowFullWe);
      assert xs == xs[..|xs| - 1] + [xs[|xs| - 1]];
    }
  }

  /** One more is dropped or, where full writes are accepted, empties the queue unless one is read as well. */
  lemma OneTooMany<T>(q: seq<T>, xs: seq<T>, x: T, capacity: nat)
    requires |q| + |xs| == capacity > 0
    ensures Written(q, xs + [x], capacity, false) == q + xs && Written(q, xs + [x], capacity, true) == []
    ensures QueueEdge(q + xs, capacity, false, true, x, true) == (q + xs)[1..]
    ensures QueueEdge(q + xs, capacity, true, true, x, true) == (q + xs)[1..] + [x]
  {
    FillsUp(q, xs, capacity, false);
    FillsUp(q, xs, capacity, true);
    assert (xs + [x])[..|xs|] == xs;
  }

  class ParamFifo<T(0)> {
    const allowFullWe: bool
    const storage: array<T>
    var wpos: nat
    var rpos: nat

    ghost predicate Valid()
      reads this
    {
      2 <= storage.Length && wpos < storage.Length && rpos < storage.Length
    }

    /** The bytes waiting, oldest first. */
    ghost function Contents(): seq<T>
      reads this, storage
      requires Valid()
    {
      Ring(storage[..], rpos, wpos)
    }

    constructor (depth: nat, allowFullWe: bool)
      requires 2 <= depth
      ensures Valid() && storage.Length == depth && this.allowFullWe == allowFullWe && Contents() == []
      ensures fresh(storage)
    {
      this.allowFullWe, storage := allowFullWe, new T[depth];
      wpos, rpos := 0, 0;
    }

    predicate HasDat()
      reads this
      requires Valid()
      ensures HasDat() <==> Contents() != []
    {
      rpos != wpos
    }

    predicate Full()
      reads this
      requires Valid()
      ensures Full() <==> |Contents()| == storage.Length - 1
    {
      rpos == Wrapped(wpos, storage.Length)
    }

    function Rdata(): T
      reads this, storage
      requires Valid()
      ensures HasDat() ==> Rdata() == Contents()[0]
    {
      storage[rpos]
    }

    method Clock(we: bool, wdata: T, re: bool)
      requires Valid()
      modifies this, storage
      ensures Valid()
      ensures Contents() == QueueEdge(old(Contents()), storage.Length - 1, allowFullWe, we, wdata, re)
    {
      var full, hasDat := Full(), HasDat();
      if re && hasDat {
        PopRing(storage[..], rpos, wpos);
        rpos := Wrapped(rpos, storage.Length);
      }
      if we && (!full || allowFullWe) {
        if Wrapped(wpos, storage.Length) != rpos {
          PushRing(storage[..], rpos, wpos, wdata);
        }
        storage[wpos] := wdata;
        wpos := Wrapped(wpos, storage.Length);
      }
    }
  }
}
