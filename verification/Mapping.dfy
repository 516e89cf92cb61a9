/**
 Bit mappings: moving the bits of integers, inverting, composing, and the list of runs that describes a
 mapping. Dictionaries are visited in an unspecified order, so every result here holds for any order.
 */
module Mappings {
  import opened Numbers

  type Links = map<nat, nat>

  ghost predicate Injective(m: Links) { forall a, b | a in m && b in m && m[a] == m[b] :: a == b }

  /* ---- Bits of integers ---- */

  /** Bit `s` of a number, negative ones in two's complement. */
  predicate Bit(x: int, s: nat)
    decreases s
  {
    if s == 0 then x % 2 == 1 else Bit(x / 2, s - 1)
  }

  lemma {:induction false} OrBit(x: nat, y: nat, s: nat)
    ensures Bit(Or(x, y), s) == (Bit(x, s) || Bit(y, s))
  {
    if x == 0 && y == 0 {
      ZeroBit(s);
    } else if s > 0 {
      OrBit(x / 2, y / 2, s - 1);
    }
  }

  lemma {:induction false} ZeroBit(s: nat)
    ensures !Bit(0, s)
  {
    if s > 0 {
      ZeroBit(s - 1);
    }
  }

  lemma {:induction false} ShlBit(v: nat, d: nat, s: nat)
    requires v < 2
    ensures Bit(Shl(v, d), s) == (v == 1 && s == d)
  {
    if d > 0 && s > 0 {
      ShlBit(v, d - 1, s - 1);
    } else if s > 0 {
      ZeroBit(s - 1);
    }
  }

  lemma {:induction false} DifferingBit(x: nat, y: nat) returns (d: nat)
    requires x != y
    ensures Bit(x, d) != Bit(y, d)
    decreases x + y
  {
    d := 0;
    if x % 2 == y % 2 {
      d := DifferingBit(x / 2, y / 2);
      d := d + 1;
    }
  }

  /* ---- Moving bits ---- */

  /** Some link puts a set bit of `x` at position `d`. */
  ghost predicate Hit(m: Links, x: int, d: nat) {
    exists s :: s in m && m[s] == d && Bit(x, s)
  }

  /** `r` has exactly the bits the mapping moves there. */
  ghost predicate Moves(m: Links, x: int, r: nat) {
    forall d: nat :: Bit(r, d) <==> Hit(m, x, d)
  }

  lemma MovesOnce(m: Links, x: int, r: nat, r': nat)
    requires Moves(m, x, r) && Moves(m, x, r')
    ensures r == r'
  {
    if r != r' {
      var d := DifferingBit(r, r');
      assert false;
    }
  }

  /** What a link adds. */
  function Moved1(x: int, s: nat, d: nat, r: nat): nat {
    Or(r, Shl(if Bit(x, s) then 1 else 0, d))
  }

  lemma OneMoreLink(m: Links, x: int, r: nat, s: nat, d: nat)
    requires Moves(m, x, r) && s !in m
    ensures Moves(m[s := d], x, Moved1(x, s, d, r))
  {
    var m' := m[s := d];
    var v: nat := if Bit(x, s) then 1 else 0;
    forall k: nat ensures Bit(Moved1(x, s, d, r), k) <==> Hit(m', x, k) {
      OrBit(r, Shl(v, d), k);
      ShlBit(v, d, k);
      assert Bit(r, k) <==> Hit(m, x, k);
      if Hit(m, x, k) {
        var t :| t in m && m[t] == k && Bit(x, t);
        assert t in m' && m'[t] == k;
      }
      if Bit(x, s) && k == d {
        assert s in m' && m'[s] == k;
      }
    }
  }

  ghost function Moved(m: Links, x: int): (r: nat)
    ensures Moves(m, x, r)
    decreases |m|
  {
    if m == map[] then
      assert forall d: nat :: !Bit(0, d) by { forall d: nat ensures !Bit(0, d) { ZeroBit(d); } }
      0
    else
      var s :| s in m;
      var rest := m - {s};
      OneMoreLink(rest, x, Moved(rest, x), s, m[s]);
      assert rest[s := m[s]] == m;
      Moved1(x, s, m[s], Moved(rest, x))
  }

  /* ---- Inverse and composite ---- */

  /** Every destination leads back to one of its sources. */
  ghost predicate IsInverse(m: Links, r: Links) {
    (forall d | d in r :: r[d] in m && m[r[d]] == d) && (forall s | s in m :: m[s] in r)
  }

  /** Inverting twice gives the mapping back exactly when it is injective. */
  lemma InvertTwice(m: Links, r: Links, t: Links)
    requires IsInverse(m, r) && IsInverse(r, t)
    ensures t == m <==> Injective(m)
  {
    if Injective(m) {
      forall s | s in m ensures s in t && t[s] == m[s] {
        assert m[s] in r && m[r[m[s]]] == m[s];
      }
      forall s | s in t ensures s in m {
        assert r[t[s]] == s;
      }
    }
    if t == m {
      forall a, b | a in m && b in m && m[a] == m[b] ensures a == b {
        assert r[t[a]] == a && r[t[b]] == b;
      }
    }
  }

  /** `s` passes through both mappings. */
  predicate Through(f: Links, g: Links, s: nat) { s in f && f[s] in g }

  /** `c` keeps, for every destination reached through both mappings, exactly one of its sources. */
  ghost predicate IsComposite(f: Links, g: Links, c: Links) {
    && Injective(c)
    && (forall s | s in c :: Through(f, g, s) && c[s] == g[f[s]])
    && (forall s | Through(f, g, s) :: exists s' :: s' in c && c[s'] == g[f[s]])
  }

  ghost predicate InjectiveThrough(f: Links, g: Links) {
    forall a, b | a in f && b in f && f[a] in g && f[b] in g && g[f[a]] == g[f[b]] :: a == b
  }

  /** Hitting a position through `g` after `f`. */
  lemma HitThrough(f: Links, g: Links, x: int, y: nat, d: nat)
    requires Moves(f, x, y)
    ensures Hit(g, y, d) <==> exists s :: Through(f, g, s) && g[f[s]] == d && Bit(x, s)
  {
    if Hit(g, y, d) {
      var i :| i in g && g[i] == d && Bit(y, i);
      assert Bit(y, i) <==> Hit(f, x, i);
      var s :| s in f && f[s] == i && Bit(x, s);
      assert Through(f, g, s);
    }
    if exists s :: Through(f, g, s) && g[f[s]] == d && Bit(x, s) {
      var s :| Through(f, g, s) && g[f[s]] == d && Bit(x, s);
      assert Hit(f, x, f[s]);
      assert Bit(y, f[s]) <==> Hit(f, x, f[s]);
    }
  }

  /** The composition law, for mappings that are injective where they meet. */
  lemma CompositeMoves(f: Links, g: Links, c: Links, x: int)
    requires IsComposite(f, g, c) && InjectiveThrough(f, g)
    ensures Moved(c, x) == Moved(g, Moved(f, x))
  {
    hide Moved;
    var y := Moved(f, x);
    var r := Moved(g, y);
    forall d: nat ensures Bit(r, d) <==> Hit(c, x, d) {
      HitThrough(f, g, x, y, d);
      if Hit(g, y, d) {
        var s :| Through(f, g, s) && g[f[s]] == d && Bit(x, s);
        var s' :| s' in c && c[s'] == g[f[s]];
        assert s' == s;
      }
      if Hit(c, x, d) {
        var s :| s in c && c[s] == d && Bit(x, s);
        assert Through(f, g, s);
      }
    }
    MovesOnce(c, x, Moved(c, x), r);
  }

  /** Of two sources for one destination the composite keeps one, so the other's bit is lost. */
  lemma LostBit(f: Links, g: Links, c: Links, a: nat, b: nat)
    requires IsComposite(f, g, c)
    requires Through(f, g, a) && Through(f, g, b) && a != b && g[f[a]] == g[f[b]]
    ensures exists x: int :: Moved(c, x) != Moved(g, Moved(f, x))
  {
    hide Moved;
    var lost := if a in c then b else a;
    var d := g[f[a]];
    assert lost !in c;
    var x := Shl(1, lost);
    var y := Moved(f, x);
    ShlBit(1, lost, lost);
    HitThrough(f, g, x, y, d);
    assert Through(f, g, lost);
    assert Bit(Moved(g, y), d) <==> Hit(g, y, d);
    assert Bit(Moved(c, x), d) <==> Hit(c, x, d);
    if Hit(c, x, d) {
      var s :| s in c && c[s] == d && Bit(x, s);
      ShlBit(1, lost, s);
      assert false;
    }
  }

  /** The composition law holds for all integers exactly when no two bits meet. */
  lemma CompositionLawExactly(f: Links, g: Links, c: Links)
    requires IsComposite(f, g, c)
    ensures (forall x: int :: Moved(c, x) == Moved(g, Moved(f, x))) <==> InjectiveThrough(f, g)
  {
    hide Moved;
    if InjectiveThrough(f, g) {
      forall x: int ensures Moved(c, x) == Moved(g, Moved(f, x)) {
        CompositeMoves(f, g, c, x);
      }
    } else {
      var a, b :| a in f && b in f && f[a] in g && f[b] in g && g[f[a]] == g[f[b]] && a != b;
      LostBit(f, g, c, a, b);
    }
  }

  /** Injective mappings meet the law. */
  lemma InjectiveMappingsCompose(f: Links, g: Links, c: Links, x: int)
    requires Injective(f) && Injective(g) && IsComposite(f, g, c)
    ensures Moved(c, x) == Moved(g, Moved(f, x))
    ensures forall s | Through(f, g, s) :: s in c
  {
    CompositeMoves(f, g, c, x);
  }

  /* ---- Runs ---- */

  /** Sources `si`, `si + 1`, ... go to `so`, `so + 1`, ..., `len` of them. */
  datatype Run = Run(si: nat, so: nat, len: nat) {
    predicate Has(s: nat) { si <= s < si + len }
  }

  /** A run of links that could not be any longer at its upper end. */
  ghost predicate Maximal(m: Links, r: Run) {
    && r.len > 0
    && (forall s: nat | r.Has(s) :: s in m && m[s] == r.so + s - r.si)
    && !(r.si + r.len in m && m[r.si + r.len] == r.so + r.len)
  }

  /** Runs in descending order without overlap. */
  ghost predicate Descending(rs: seq<Run>) {
    forall i, j | 0 <= i < j < |rs| :: rs[j].si + rs[j].len <= rs[i].si
  }

  ghost predicate Covered(m: Links, rs: seq<Run>, below: nat) {
    forall s | s in m && s < below :: exists r :: r in rs && r.Has(s)
  }

  /** The runs cover the links below `below`, each once. */
  ghost predicate RunsUpTo(m: Links, rs: seq<Run>, below: nat) {
    && Descending(rs)
    && (forall r | r in rs :: Maximal(m, r) && r.si + r.len <= below)
    && Covered(m, rs, below)
  }

  ghost predicate RunsOf(m: Links, rs: seq<Run>) {
    && Descending(rs)
    && (forall r | r in rs :: Maximal(m, r))
    && (forall s: nat :: s in m <==> exists r :: r in rs && r.Has(s))
  }

  /** Nor could a run start any lower. */
  lemma MaximalBelow(m: Links, rs: seq<Run>, r: Run)
    requires RunsOf(m, rs) && r in rs && r.si > 0 && r.si - 1 in m
    ensures m[r.si - 1] + 1 != m[r.si]
  {
    var q :| q in rs && q.Has(r.si - 1);
    var i :| 0 <= i < |rs| && rs[i] == r;
    var j :| 0 <= j < |rs| && rs[j] == q;
    assert Maximal(m, r) && Maximal(m, q);
    assert Descending(rs);
    hide RunsOf, Descending;
    assert r.Has(r.si);
    if i != j {
      InTurn(rs, i, j);
      assert q.si + q.len == r.si;
    } else {
      assert false;
    }
  }

  lemma InTurn(rs: seq<Run>, i: nat, j: nat)
    requires Descending(rs) && i < |rs| && j < |rs| && i != j
    ensures rs[j].si + rs[j].len <= rs[i].si || rs[i].si + rs[i].len <= rs[j].si
  {
  }

  lemma AppendRun(m: Links, rs: seq<Run>, r: Run)
    requires RunsUpTo(m, rs, r.si) && Maximal(m, r)
    ensures RunsUpTo(m, [r] + rs, r.si + r.len)
  {
    var rs' := [r] + rs;
    forall s | s in m && s < r.si + r.len ensures exists q :: q in rs' && q.Has(s) {
      if s < r.si {
        var q :| q in rs && q.Has(s);
        assert q in rs';
      } else {
        assert r in rs' && r.Has(s);
      }
    }
  }

  method Extremes(s: set<nat>) returns (lo: nat, hi: nat)
    requires s != {}
    ensures lo in s && hi in s && forall x | x in s :: lo <= x <= hi
  {
    lo :| lo in s;
    hi := lo;
    var rest := s - {lo};
    while rest != {}
      invariant rest <= s && lo in s && hi in s
      invariant forall x | x in s && x !in rest :: lo <= x <= hi
    {
      var x :| x in rest;
      lo, hi := if x < lo then x else lo, if x > hi then x else hi;
      rest := rest - {x};
    }
  }

  ghost predicate OpenRun(m: Links, si: nat, so: nat, i: nat) {
    forall s: nat | si <= s < i :: s in m && m[s] == so + s - si
  }

  lemma CloseRun(m: Links, si: nat, so: nat, i: nat)
    requires si < i && OpenRun(m, si, so, i) && (i !in m || m[i] != so + i - si)
    ensures Maximal(m, Run(si, so, i - si))
  {
  }

  lemma NoRuns(m: Links, lo: nat)
    requires forall s | s in m :: s >= lo
    ensures RunsUpTo(m, [], lo)
  {
  }

  lemma SkipGap(m: Links, rs: seq<Run>, i: nat)
    requires RunsUpTo(m, rs, i) && i !in m
    ensures RunsUpTo(m, rs, i + 1)
  {
  }

  lemma UpToAllIsAll(m: Links, rs: seq<Run>, above: nat)
    requires RunsUpTo(m, rs, above) && forall s | s in m :: s < above
    ensures RunsOf(m, rs)
  {
  }

  /* ---- The loops over a dictionary ---- */

  method InvertLinks(m: Links) returns (tmp: Links)
    ensures IsInverse(m, tmp)
  {
    tmp := map[];
    var rest := m.Keys;
    while rest != {}
      invariant rest <= m.Keys
      invariant forall d | d in tmp :: tmp[d] in m && m[tmp[d]] == d
      invariant forall s | s in m && s !in rest :: m[s] in tmp
    {
      var s :| s in rest;
      tmp := tmp[m[s] := s];
      rest := rest - {s};
    }
  }

  method MoveBits(m: Links, x: int) returns (tmp: nat)
    ensures tmp == Moved(m, x)
  {
    hide Moved1;
    tmp := 0;
    var rest := m.Keys;
    ghost var done: Links := map[];
    assert Moved(done, x) == 0;
    while rest != {}
      invariant rest <= m.Keys && done == m - rest
      invariant Moves(done, x, tmp)
    {
      var s :| s in rest;
      OneMoreLink(done, x, tmp, s, m[s]);
      tmp := Moved1(x, s, m[s], tmp);
      rest := rest - {s};
      done := done[s := m[s]];
    }
    assert done == m;
    MovesOnce(m, x, tmp, Moved(m, x));
  }

  /** For each source of `g` that `back` knows, where it goes and where it came from. */
  method Route(g: Links, back: Links) returns (tmp: Links)
    ensures IsRoute(g, back, tmp)
  {
    tmp := map[];
    var rest := g.Keys;
    while rest != {}
      invariant rest <= g.Keys
      invariant forall d | d in tmp :: exists i :: i in g && i in back && g[i] == d && tmp[d] == back[i]
      invariant forall i | i in g && i in back && i !in rest :: g[i] in tmp
    {
      var i :| i in rest;
      if i in back {
        tmp := tmp[g[i] := back[i]];
      }
      rest := rest - {i};
    }
  }

  ghost predicate IsRoute(g: Links, back: Links, tmp: Links) {
    && (forall d | d in tmp :: exists i :: i in g && i in back && g[i] == d && tmp[d] == back[i])
    && (forall i | i in g && i in back :: g[i] in tmp)
  }

  lemma NothingThrough(f: Links, g: Links, back: Links, tmp: Links)
    requires IsInverse(f, back) && IsRoute(g, back, tmp)
    ensures tmp == map[] <==> forall s :: !Through(f, g, s)
  {
    if tmp != map[] {
      var d :| d in tmp;
      var i :| i in g && i in back && g[i] == d && tmp[d] == back[i];
      assert Through(f, g, back[i]);
    }
    if s :| Through(f, g, s) {
      assert g[f[s]] in tmp;
    }
  }

  /** The route, turned round, is the composite. */
  lemma RouteIsComposite(f: Links, g: Links, back: Links, tmp: Links, c: Links)
    requires IsInverse(f, back) && IsRoute(g, back, tmp) && IsInverse(tmp, c)
    ensures IsComposite(f, g, c)
  {
    forall d | d in tmp ensures Through(f, g, tmp[d]) && g[f[tmp[d]]] == d {
      var i :| i in g && i in back && g[i] == d && tmp[d] == back[i];
    }
    forall s | s in c ensures Through(f, g, s) && c[s] == g[f[s]] {
      assert c[s] in tmp && tmp[c[s]] == s;
    }
    forall s | Through(f, g, s) ensures exists s' :: s' in c && c[s'] == g[f[s]] {
      var d := g[f[s]];
      assert f[s] in back && d in tmp;
      assert tmp[d] in c && tmp[c[tmp[d]]] == tmp[d];
      assert c[tmp[d]] == d;
    }
  }

  datatype Option<T> = None | Some(value: T)

  class Mapping {
    var links: Links
    var runs: seq<Run>

    ghost predicate Valid()
      reads this
    {
      links != map[] && RunsOf(links, runs)
    }

    constructor (raw: Links)
      requires raw != map[]
      ensures Valid() && links == raw
    {
      links := raw;
      runs := [];
      new;
      GenRuns();
    }

    method GenRuns()
      requires links != map[]
      modifies this`runs
      ensures RunsOf(links, runs)
    {
      hide Maximal, Descending;
      var lo, hi := Extremes(links.Keys);
      runs := [];
      NoRuns(links, lo);
      var si: Option<nat> := Some(lo);
      var so: nat := links[lo];
      for i := lo + 1 to hi + 2
        invariant si.Some? ==> si.value < i && OpenRun(links, si.value, so, i)
        invariant RunsUpTo(links, runs, if si.Some? then si.value else i)
        invariant i == hi + 2 ==> si.None?
      {
        if si.Some? && (i !in links || links[i] != so + i - si.value) {
          CloseRun(links, si.value, so, i);
          AppendRun(links, runs, Run(si.value, so, i - si.value));
          runs := [Run(si.value, so, i - si.value)] + runs;
          si := None;
        }
        if si.None? && i in links {
          si := Some(i);
          so := links[i];
        } else if si.None? {
          SkipGap(links, runs, i);
        }
      }
      UpToAllIsAll(links, runs, hi + 2);
    }

    method Invert() returns (r: Mapping)
      requires Valid()
      ensures fresh(r) && r.Valid() && IsInverse(links, r.links)
    {
      var tmp := InvertLinks(links);
      r := new Mapping(tmp);
    }

    /** Where the bits of an integer go. */
    method ApplyInt(to: int) returns (tmp: nat)
      requires Valid()
      ensures tmp == Moved(links, to)
    {
      tmp := MoveBits(links, to);
    }

    /** This mapping after `to`; None if no source passes through both. */
    method ApplyMapping(to: Mapping) returns (r: Option<Mapping>)
      requires Valid() && to.Valid()
      ensures r.None? <==> forall s :: !Through(to.links, links, s)
      ensures r.Some? ==> fresh(r.value) && r.value.Valid() && IsComposite(to.links, links, r.value.links)
    {
      var back := InvertLinks(to.links);
      var tmp := Route(links, back);
      NothingThrough(to.links, links, back, tmp);
      if tmp == map[] {
        return None;
      }
      var m := new Mapping(tmp);
      var c := m.Invert();
      RouteIsComposite(to.links, links, back, tmp, c.links);
      return Some(c);
    }
  }
}
