/**
 Physical memory protection: the CSR write and lock rules, the address match and the access check,
 and what a lock guarantees over any sequence of CSR writes.
 */
module Pmp {
  import opened Divider

  /** Addresses are bit vectors, least significant first, without the `grain` ignored bits. */
  type Bits = seq<bool>

  datatype Mode = OFF | TOR | NA4 | NAPOT
  datatype Cfg = Cfg(r: bool, w: bool, x: bool, mode: Mode)
  datatype Entry = Entry(lock: bool, cfg: Cfg, addr: Bits)

  /** `width` address bits above `grain`, and `depth` entries. */
  datatype Shape = Shape(width: nat, grain: nat, depth: nat) {
    predicate Ok() { 2 <= grain && 2 <= width && depth > 0 && depth % 4 == 0 }
  }

  ghost predicate BankOk(s: Shape, b: seq<Entry>) {
    s.Ok() && |b| == s.depth && forall i | 0 <= i < s.depth :: |b[i].addr| == s.width
  }

  /* ---- Address match ---- */

  /** The mask chain: ones as long as every digit so far is one. */
  function MaskBit(p: Bits, x: nat): bool
    requires x < |p|
  {
    if x == 0 then p[0] else MaskBit(p, x - 1) && p[x]
  }

  /** The first zero above the mask. */
  function StopBit(p: Bits, x: nat): bool
    requires x < |p|
  {
    if x == 0 then !p[0] else MaskBit(p, x - 1) && !p[x]
  }

  predicate NapotMatch(a: Bits, p: Bits)
    requires |a| == |p|
  {
    forall x | 0 <= x < |p| :: (a[x] || MaskBit(p, x) || StopBit(p, x)) == (p[x] || StopBit(p, x))
  }

  /** Whether entry `e`, with `base` the address of the entry before it, covers `a`. */
  predicate Contains(s: Shape, e: Entry, base: Bits, a: Bits)
    requires |a| == |e.addr|
  {
    match e.cfg.mode
    case OFF => false
    case TOR => Value(base) <= Value(a) < Value(e.addr)
    case NA4 => s.grain == 2 && e.addr == a
    case NAPOT => NapotMatch(a, e.addr)
  }

  function Base(s: Shape, b: seq<Entry>, i: nat): Bits
    requires BankOk(s, b) && i < s.depth
  {
    if i == 0 then Zeros(s.width) else b[i - 1].addr
  }

  predicate Covers(s: Shape, b: seq<Entry>, i: nat, a: Bits)
    requires BankOk(s, b) && i < s.depth && |a| == s.width
  {
    Contains(s, b[i], Base(s, b, i), a)
  }

  /* ---- Access check ---- */

  datatype Permission = Permission(r: bool, w: bool, x: bool)

  /** An entry applies in M-mode only if it is locked. */
  predicate Applies(s: Shape, b: seq<Entry>, i: nat, a: Bits, mMode: bool)
    requires BankOk(s, b) && i < s.depth && |a| == s.width
  {
    Covers(s, b, i, a) && (!mMode || b[i].lock)
  }

  /** The verdict of the first entry from `i` on that applies. */
  function FirstMatch(s: Shape, b: seq<Entry>, i: nat, a: Bits, mMode: bool): Permission
    requires BankOk(s, b) && i <= s.depth && |a| == s.width
    decreases s.depth - i
  {
    if i == s.depth then Permission(mMode, mMode, mMode)
    else if Applies(s, b, i, a, mMode) then Permission(b[i].cfg.r, b[i].cfg.w, b[i].cfg.x)
    else FirstMatch(s, b, i + 1, a, mMode)
  }

  /** The checker: entry i is active if it applies and none before it does; active entries are ORed. */
  method Check(s: Shape, b: seq<Entry>, a: Bits, mMode: bool) returns (p: Permission)
    requires BankOk(s, b) && |a| == s.width
    ensures p == FirstMatch(s, b, 0, a, mMode)
  {
    p := Permission(false, false, false);
    var any := false;
    for i := 0 to s.depth
      invariant any <==> exists j :: 0 <= j < i && Applies(s, b, j, a, mMode)
      invariant !any ==> p == Permission(false, false, false)
      invariant FirstMatch(s, b, 0, a, mMode) == if any then p else FirstMatch(s, b, i, a, mMode)
    {
      var applies := Applies(s, b, i, a, mMode);
      var active := applies && !any;
      p := Permission(p.r || (active && b[i].cfg.r), p.w || (active && b[i].cfg.w), p.x || (active && b[i].cfg.x));
      any := any || applies;
    }
    if !any && mMode {
      p := Permission(true, true, true);
    }
  }

  /* ---- CSR writes ---- */

  /** One byte of a configuration CSR. */
  datatype Field = Field(lock: bool, cfg: Cfg)

  /** Writes to configuration register `k`, to address register `i`, or to some other CSR. */
  datatype CsrWrite = ToCfg(k: nat, fields: seq<Field>) | ToAddr(i: nat, addr: Bits) | Elsewhere

  predicate WriteOk(s: Shape, w: CsrWrite) {
    match w
    case ToCfg(k, fields) => 4 * k < s.depth && |fields| == 4
    case ToAddr(i, addr) => i < s.depth && |addr| == s.width
    case Elsewhere => true
  }

  predicate Writeable(s: Shape, b: seq<Entry>, i: nat)
    requires |b| == s.depth && i < s.depth
  {
    !b[i].lock && !(i + 1 < s.depth && b[i + 1].lock && b[i + 1].cfg.mode == TOR)
  }

  /** With a coarser grain than four bytes, NA4 is stored as NAPOT. */
  function Coarse(s: Shape, c: Cfg): Cfg {
    if s.grain != 2 && c.mode == NA4 then c.(mode := NAPOT) else c
  }

  /** What a write makes of entry `i`. */
  function Written(s: Shape, b: seq<Entry>, w: CsrWrite, i: nat): Entry
    requires |b| == s.depth && i < s.depth && WriteOk(s, w)
  {
    match w
    case ToCfg(k, fields) =>
      if i / 4 != k then b[i]
      else
        var f := fields[i % 4];
        Entry(b[i].lock || f.lock, if Writeable(s, b, i) then Coarse(s, f.cfg) else b[i].cfg, b[i].addr)
    case ToAddr(j, addr) => if i == j && Writeable(s, b, i) then b[i].(addr := addr) else b[i]
    case Elsewhere => b[i]
  }

  function WriteCsr(s: Shape, b: seq<Entry>, w: CsrWrite): (b': seq<Entry>)
    requires BankOk(s, b) && WriteOk(s, w)
    ensures BankOk(s, b')
  {
    seq(s.depth, i requires 0 <= i < s.depth => Written(s, b, w, i))
  }

  class PmpUnit {
    const s: Shape
    const lock: array<bool>
    const cfg: array<Cfg>
    const addr: array<Bits>

    ghost predicate Valid()
      reads this, lock, cfg, addr
    {
      && s.Ok() && lock.Length == cfg.Length == addr.Length == s.depth
      && (forall i | 0 <= i < s.depth :: |addr[i]| == s.width)
    }

    ghost function Bank(): seq<Entry>
      reads this, lock, cfg, addr
      requires Valid()
    {
      seq(s.depth, i requires 0 <= i < s.depth reads this, lock, cfg, addr requires Valid() =>
        Entry(lock[i], cfg[i], addr[i]))
    }

    predicate CanWrite(i: nat)
      reads this, lock, cfg
      requires lock.Length == cfg.Length == s.depth && i < s.depth
    {
      !lock[i] && !(i + 1 < s.depth && lock[i + 1] && cfg[i + 1].mode == TOR)
    }

    /** All entries unlocked and cleared. */
    constructor (shape: Shape)
      requires shape.Ok()
      ensures Valid() && fresh(lock) && fresh(cfg) && fresh(addr) && s == shape
      ensures forall i | 0 <= i < s.depth :: Bank()[i] == Entry(false, Cfg(false, false, false, OFF), Zeros(s.width))
    {
      s := shape;
      lock := new bool[shape.depth](_ => false);
      cfg := new Cfg[shape.depth](_ => Cfg(false, false, false, OFF));
      addr := new Bits[shape.depth](_ => Zeros(shape.width));
    }

    /** One entry's share of a write to its configuration register. */
    method WriteField(i: nat, f: Field, enabled: bool)
      requires Valid() && i < s.depth
      modifies lock, cfg
      ensures forall x | 0 <= x < s.depth && x != i :: lock[x] == old(lock[x]) && cfg[x] == old(cfg[x])
      ensures lock[i] == (old(lock[i]) || f.lock)
      ensures cfg[i] == if enabled then Coarse(s, f.cfg) else old(cfg[i])
    {
      if enabled {
        cfg[i] := Coarse(s, f.cfg);
      }
      lock[i] := lock[i] || f.lock;
    }

    /** A write to the register of entries `c` to `c + 3`; all four enables are read before the edge. */
    method WriteCfg(c: nat, fields: seq<Field>)
      requires Valid() && c + 4 <= s.depth && |fields| == 4
      modifies lock, cfg
      ensures forall i | 0 <= i < s.depth && !(c <= i < c + 4) :: lock[i] == old(lock[i]) && cfg[i] == old(cfg[i])
      ensures forall i | c <= i < c + 4 ::
        && lock[i] == (old(lock[i]) || fields[i - c].lock)
        && cfg[i] == if old(CanWrite(i)) then Coarse(s, fields[i - c].cfg) else old(cfg[i])
    {
      hide Coarse;
      var e0, e1, e2, e3 := CanWrite(c), CanWrite(c + 1), CanWrite(c + 2), CanWrite(c + 3);
      WriteField(c, fields[0], e0);
      WriteField(c + 1, fields[1], e1);
      WriteField(c + 2, fields[2], e2);
      WriteField(c + 3, fields[3], e3);
    }

    /** One rising edge with a CSR write on the bus and no reset. */
    method Write(w: CsrWrite)
      requires Valid() && WriteOk(s, w)
      modifies lock, cfg, addr
      ensures Valid() && Bank() == WriteCsr(s, old(Bank()), w)
    {
      match w {
        case ToCfg(k, fields) =>
          WriteCfg(4 * k, fields);
        case ToAddr(i, a) =>
          if CanWrite(i) {
            addr[i] := a;
          }
        case Elsewhere =>
      }
    }
  }

  /* ---- What locks guarantee ---- */

  function Run(s: Shape, b: seq<Entry>, ws: seq<CsrWrite>): (b': seq<Entry>)
    requires BankOk(s, b) && forall w | w in ws :: WriteOk(s, w)
    ensures BankOk(s, b')
  {
    if ws == [] then b else WriteCsr(s, Run(s, b, ws[..|ws| - 1]), ws[|ws| - 1])
  }

  /** A locked entry, and the bound a locked TOR entry takes from its predecessor, never change. */
  ghost predicate Kept(s: Shape, b: seq<Entry>, b': seq<Entry>)
    requires BankOk(s, b) && BankOk(s, b')
  {
    forall i | 0 <= i < s.depth && b[i].lock ::
      b'[i] == b[i] && (b[i].cfg.mode == TOR ==> Base(s, b', i) == Base(s, b, i))
  }

  lemma {:induction false} LocksArePermanent(s: Shape, b: seq<Entry>, ws: seq<CsrWrite>)
    requires BankOk(s, b) && forall w | w in ws :: WriteOk(s, w)
    ensures Kept(s, b, Run(s, b, ws))
  {
    if ws != [] {
      LocksArePermanent(s, b, ws[..|ws| - 1]);
    }
  }

  /** The set of addresses a locked entry covers is fixed. */
  lemma LockedSetIsFixed(s: Shape, b: seq<Entry>, ws: seq<CsrWrite>, i: nat, a: Bits)
    requires BankOk(s, b) && (forall w | w in ws :: WriteOk(s, w)) && i < s.depth && |a| == s.width
    requires b[i].lock
    ensures Covers(s, Run(s, b, ws), i, a) == Covers(s, b, i, a)
  {
    LocksArePermanent(s, b, ws);
  }

  /** An M-mode verdict given by entry `j`, with every entry up to `j` locked, is final. */
  lemma {:induction false} LockedVerdictIsFinal(s: Shape, b: seq<Entry>, ws: seq<CsrWrite>, i: nat, j: nat, a: Bits)
    requires BankOk(s, b) && (forall w | w in ws :: WriteOk(s, w)) && i <= j < s.depth && |a| == s.width
    requires forall k | 0 <= k <= j :: b[k].lock
    requires Covers(s, b, j, a)
    ensures FirstMatch(s, Run(s, b, ws), i, a, true) == FirstMatch(s, b, i, a, true)
    decreases j - i
  {
    LocksArePermanent(s, b, ws);
    LockedSetIsFixed(s, b, ws, i, a);
    if i < j {
      LockedVerdictIsFinal(s, b, ws, i + 1, j, a);
    }
  }
}
