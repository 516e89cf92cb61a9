/**
 Memory images: the writer that turns a binary into comma-separated hexadecimal words, and the loader
 of the block RAM that reads them back.
 */
module Image {
  import opened Numbers

  type Octet = b: int | 0 <= b < 256
  const WORD := 4
  const W := 0x1_0000_0000

  /* ---- What the words of an image are ---- */

  /** Byte `j` of an image, zero beyond its end. */
  function ByteAt(raw: seq<Octet>, j: nat): nat { if j < |raw| then raw[j] else 0 }

  /** Word `k` of an image, little-endian. */
  function PackedWord(raw: seq<Octet>, k: nat): (w: nat)
    ensures w < W
  {
    ByteAt(raw, 4 * k) + 0x100 * ByteAt(raw, 4 * k + 1)
    + 0x1_0000 * ByteAt(raw, 4 * k + 2) + 0x100_0000 * ByteAt(raw, 4 * k + 3)
  }

  function Depth(n: nat): nat { (n + WORD - 1) / WORD }

  /* ---- The writer ---- */

  /** ORing a byte in above the bytes already there. */
  lemma PackByte(prior: nat, b: Octet, p: nat)
    requires p < 4 && prior < Unit(p)
    ensures Or(prior, Shl(b, 8 * p)) == prior + Unit(p) * b
  {
    UnitIsShl(p);
    ShlTimes(b, 8 * p);
    OrDisjoint(b, prior, 8 * p);
  }

  /** The weight of byte `p`. */
  function Unit(p: nat): nat
    requires p < 4
  {
    if p == 0 then 1 else if p == 1 then 0x100 else if p == 2 then 0x1_0000 else 0x100_0000
  }

  lemma UnitIsShl(p: nat)
    requires p < 4
    ensures Shl(1, 8 * p) == Unit(p)
  {
    assert Shl(1, 8) == 0x100;
    assert Shl(1, 16) == 0x1_0000;
    assert Shl(1, 24) == 0x100_0000;
  }

  /** One more byte changes one word, by that byte's weight. */
  lemma NextByte(raw: seq<Octet>, i: nat, k: nat)
    requires i < |raw|
    ensures k != i / 4 ==> PackedWord(raw[..i + 1], k) == PackedWord(raw[..i], k)
    ensures k == i / 4 ==>
      && PackedWord(raw[..i], k) < Unit(i % 4)
      && PackedWord(raw[..i + 1], k) == PackedWord(raw[..i], k) + Unit(i % 4) * raw[i]
  {
    OneMoreByte(raw, i, 4 * k);
    OneMoreByte(raw, i, 4 * k + 1);
    OneMoreByte(raw, i, 4 * k + 2);
    OneMoreByte(raw, i, 4 * k + 3);
  }

  lemma OneMoreByte(raw: seq<Octet>, i: nat, j: nat)
    requires i < |raw|
    ensures ByteAt(raw[..i + 1], j) == if j == i then raw[i] else ByteAt(raw[..i], j)
  {
  }

  method Pack(raw: seq<Octet>) returns (data: seq<nat>)
    ensures |data| == Depth(|raw|)
    ensures forall k | 0 <= k < |data| :: data[k] == PackedWord(raw, k)
  {
    hide Or, Shl, PackedWord;
    data := seq(Depth(|raw|), _ => 0);
    forall k | 0 <= k < |data| ensures PackedWord(raw[..0], k) == 0 {
      NoBytes(k);
    }
    for i := 0 to |raw|
      invariant |data| == Depth(|raw|)
      invariant forall k | 0 <= k < |data| :: data[k] == PackedWord(raw[..i], k)
    {
      forall k | 0 <= k < |data|
        ensures k != i / 4 ==> PackedWord(raw[..i + 1], k) == PackedWord(raw[..i], k)
      {
        NextByte(raw, i, k);
      }
      NextByte(raw, i, i / 4);
      PackByte(data[i / 4], raw[i], i % 4);
      data := data[i / WORD := Or(data[i / WORD], Shl(raw[i], 8 * (i % WORD)))];
    }
    assert raw[..|raw|] == raw;
  }

  lemma NoBytes(k: nat)
    ensures PackedWord([], k) == 0
  {
  }

  function HexDigit(d: nat): char
    requires d < 16
  {
    if d < 10 then ('0' as int + d) as char else ('a' as int + d - 10) as char
  }

  /** Lower-case hexadecimal without leading zeroes. */
  function Hex(n: nat): string {
    if n < 16 then [HexDigit(n)] else Hex(n / 16) + [HexDigit(n % 16)]
  }

  /** The file: the words in hexadecimal, separated by commas. */
  function Text(data: seq<nat>): string {
    if |data| == 0 then ""
    else if |data| == 1 then Hex(data[0])
    else Text(data[..|data| - 1]) + "," + Hex(data[|data| - 1])
  }

  method Write(raw: seq<Octet>) returns (text: string)
    ensures text == Text(Words(raw))
  {
    var data := Pack(raw);
    assert data == Words(raw);
    text := "";
    for i := 0 to |data|
      invariant text == if i == 0 then "" else if i == |data| then Text(data) else Text(data[..i]) + ","
    {
      if i > 0 {
        assert data[..i + 1][..i] == data[..i];
      }
      assert i + 1 == |data| ==> data[..i + 1] == data;
      text := text + Hex(data[i]) + if i == |data| - 1 then "" else ",";
    }
  }

  function Words(raw: seq<Octet>): (data: seq<nat>)
    ensures |data| == Depth(|raw|) && forall k | 0 <= k < |data| :: data[k] == PackedWord(raw, k)
  {
    seq(Depth(|raw|), k requires k >= 0 => PackedWord(raw, k))
  }

  /** As many words as the bytes need, and no more. */
  lemma WordCount(raw: seq<Octet>)
    ensures 4 * |Words(raw)| - 4 < |raw| <= 4 * |Words(raw)|
  {
  }

  /* ---- The loader ---- */

  /** `tmp` is a 32-bit variable. */
  datatype Loader = Loader(tmp: nat, waddr: nat, storage: seq<nat>)

  /** A write beyond the end of the storage is lost. */
  function Put(s: seq<nat>, a: nat, v: nat): (s': seq<nat>)
    ensures |s'| == |s|
  {
    if a < |s| then s[a := v] else s
  }

  datatype Option<T> = None | Some(value: T)

  function DigitOf(c: char): Option<nat> {
    if '0' <= c <= '9' then Some(c as int - '0' as int)
    else if 'A' <= c <= 'F' then Some(c as int - 'A' as int + 10)
    else if 'a' <= c <= 'f' then Some(c as int - 'a' as int + 10)
    else None
  }

  /** One character; None stops the simulation. */
  function Feed(l: Loader, c: char): Option<Loader> {
    if DigitOf(c).Some? then Some(l.(tmp := Or(Shl(l.tmp, 4) % W, DigitOf(c).value)))
    else if c == ',' then Some(Loader(0, l.waddr + 1, Put(l.storage, l.waddr, l.tmp)))
    else if c as int > 32 then None
    else Some(l)
  }

  function FeedAll(l: Loader, text: string): Option<Loader> {
    if text == "" then Some(l)
    else
      var l' := FeedAll(l, text[..|text| - 1]);
      if l'.None? then None else Feed(l'.value, text[|text| - 1])
  }

  /** The storage after loading a text: zeroes, the words as they end, and the last word. */
  function Loaded(depth: nat, text: string): Option<seq<nat>> {
    var l := FeedAll(Loader(0, 0, seq(depth, _ => 0)), text);
    if l.None? then None else Some(Put(l.value.storage, l.value.waddr, l.value.tmp))
  }

  class BlockRam {
    const storage: array<nat>

    constructor (depth: nat)
      ensures fresh(storage) && storage.Length == depth
    {
      storage := new nat[depth];
    }

    /** False if the simulation stops at an unexpected character. */
    method Load(data: string) returns (ok: bool)
      modifies storage
      ensures ok == Loaded(storage.Length, data).Some?
      ensures ok ==> storage[..] == Loaded(storage.Length, data).value
    {
      hide Or, Shl;
      for i := 0 to storage.Length
        invariant forall k | 0 <= k < i :: storage[k] == 0
      {
        storage[i] := 0;
      }
      ghost var start := Loader(0, 0, seq(storage.Length, _ => 0));
      var tmp: nat, waddr: nat := 0, 0;
      assert data[..0] == "" && storage[..] == start.storage;
      for i := 0 to |data|
        invariant FeedAll(start, data[..i]) == Some(Loader(tmp, waddr, storage[..]))
      {
        assert data[..i + 1][..i] == data[..i];
        var ord := data[i];
        var digit := DigitOf(ord);
        if digit.Some? {
          tmp := Or(Shl(tmp, 4) % W, digit.value);
        } else if ord == ',' {
          if waddr < storage.Length {
            storage[waddr] := tmp;
          }
          waddr := waddr + 1;
          tmp := 0;
        } else if ord as int > 32 {
          StuckStaysStuck(start, data, i + 1);
          return false;
        }
      }
      assert data[..|data|] == data;
      if waddr < storage.Length {
        storage[waddr] := tmp;
      }
      return true;
    }
  }

  lemma {:induction false} StuckStaysStuck(l: Loader, text: string, i: nat)
    requires i <= |text| && FeedAll(l, text[..i]).None?
    ensures FeedAll(l, text).None?
    decreases |text| - i
  {
    if i < |text| {
      assert text[..i + 1][..i] == text[..i];
      StuckStaysStuck(l, text, i + 1);
    } else {
      assert text[..i] == text;
    }
  }

  /* ---- Round trip ---- */

  lemma {:induction false} FeedJoins(l: Loader, s: string, t: string)
    requires FeedAll(l, s).Some?
    ensures FeedAll(l, s + t) == FeedAll(FeedAll(l, s).value, t)
  {
    if t == "" {
      assert s + t == s;
    } else {
      FeedJoins(l, s, t[..|t| - 1]);
      assert (s + t)[..|s + t| - 1] == s + t[..|t| - 1];
    }
  }

  lemma NibbleUp(m: nat)
    ensures Shl(m, 4) == 16 * m
  {
    assert Shl(m, 1) == 2 * m;
    assert Shl(m, 2) == 4 * m;
    assert Shl(m, 3) == 8 * m;
  }

  lemma HexDigitReads(l: Loader, d: nat)
    requires d < 16 && l.tmp < W / 16
    ensures Feed(l, HexDigit(d)) == Some(l.(tmp := 16 * l.tmp + d))
  {
    hide DigitOf, HexDigit, Or, Shl;
    DigitReads(d);
    NibbleUp(l.tmp);
    NibbleUp(1);
    OrDisjoint(l.tmp, d, 4);
  }

  lemma DigitReads(d: nat)
    requires d < 16
    ensures DigitOf(HexDigit(d)) == Some(d)
  {
  }

  lemma {:induction false} HexReads(l: Loader, n: nat)
    requires n < W && l.tmp == 0
    ensures FeedAll(l, Hex(n)) == Some(l.(tmp := n))
  {
    hide Feed;
    if n < 16 {
      HexDigitReads(l, n);
      assert FeedAll(l, []) == Some(l);
      assert Hex(n)[..0] == [];
    } else {
      HexReads(l, n / 16);
      HexDigitReads(l.(tmp := n / 16), n % 16);
      assert Hex(n)[..|Hex(n)| - 1] == Hex(n / 16);
    }
  }

  const DIGITS := "0123456789abcdef"
  const CAPITALS := "0123456789ABCDEF"

  /** Digits are written in lower case and read in either. */
  lemma Digits(c: char, d: nat)
    requires d < 16
    ensures HexDigit(d) == DIGITS[d]
    ensures DigitOf(c) == Some(d) <==> c == DIGITS[d] || c == CAPITALS[d]
  {
  }

  /** A number other than zero is written without leading zeroes. */
  lemma {:induction false} NoLeadingZero(n: nat)
    requires n > 0
    ensures Hex(n) != "" && Hex(n)[0] != '0'
  {
    if n < 16 {
      Digits('0', n);
    } else {
      NoLeadingZero(n / 16);
    }
  }

  /** Space anywhere in the text changes nothing; a character of no other meaning stops the simulation. */
  lemma OtherCharacters(depth: nat, s: string, c: char, t: string)
    ensures c as int <= 32 ==> Loaded(depth, s + [c] + t) == Loaded(depth, s + t)
    ensures c as int > 32 && c != ',' && c !in DIGITS && c !in CAPITALS ==> Loaded(depth, s + [c] + t).None?
  {
    hide Put;
    var l := Loader(0, 0, seq(depth, _ => 0));
    assert (s + [c])[..|s|] == s;
    assert s + [c] + t == s + ([c] + t);
    assert (s + [c] + t)[..|s|] == (s + t)[..|s|] == s;
    assert (s + [c] + t)[..|s| + 1] == s + [c];
    if c !in DIGITS && c !in CAPITALS && DigitOf(c).Some? {
      Digits(c, DigitOf(c).value);
    }
    if FeedAll(l, s).None? {
      StuckStaysStuck(l, s + t, |s|);
      StuckStaysStuck(l, s + [c] + t, |s|);
    } else if FeedAll(l, s + [c]).None? {
      StuckStaysStuck(l, s + [c] + t, |s| + 1);
    } else {
      FeedJoins(l, s, t);
      FeedJoins(l, s + [c], t);
    }
  }

  /** `storage` with the first `n` words written. */
  function Filled(data: seq<nat>, n: nat, storage: seq<nat>): (s: seq<nat>)
    requires n <= |data|
    ensures |s| == |storage|
  {
    seq(|storage|, k requires 0 <= k < |storage| => if k < n then data[k] else storage[k])
  }

  lemma CommaReads(l: Loader)
    ensures FeedAll(l, ",") == Some(Loader(0, l.waddr + 1, Put(l.storage, l.waddr, l.tmp)))
  {
    assert ","[..0] == "";
    assert FeedAll(l, "") == Some(l);
  }

  lemma {:induction false} TextReads(data: seq<nat>, storage: seq<nat>)
    requires data != [] && forall k | 0 <= k < |data| :: data[k] < W
    ensures FeedAll(Loader(0, 0, storage), Text(data))
         == Some(Loader(data[|data| - 1], |data| - 1, Filled(data, |data| - 1, storage)))
  {
    var n := |data|;
    var start := Loader(0, 0, storage);
    hide Feed, FeedAll, Hex;
    if n == 1 {
      HexReads(start, data[0]);
      assert Filled(data, 0, storage) == storage;
    } else {
      var front := data[..n - 1];
      TextReads(front, storage);
      var before := Loader(data[n - 2], n - 2, Filled(front, n - 2, storage));
      var after := Loader(0, n - 1, Filled(data, n - 1, storage));
      CommaReads(before);
      assert Put(before.storage, n - 2, data[n - 2]) == after.storage;
      HexReads(after, data[n - 1]);
      FeedJoins(start, Text(front), ",");
      FeedJoins(start, Text(front) + ",", Hex(data[n - 1]));
    }
  }

  /** Loading what was written puts the packed words into the storage, and zeroes after them. */
  lemma ImageRoundTrip(raw: seq<Octet>, depth: nat)
    ensures Loaded(depth, Text(Words(raw))).Some?
    ensures var s := Loaded(depth, Text(Words(raw))).value;
      |s| == depth && forall k | 0 <= k < depth :: s[k] == PackedWord(raw, k)
  {
    var zeroes := seq(depth, _ => 0);
    var data := Words(raw);
    if data == [] {
      assert FeedAll(Loader(0, 0, zeroes), "") == Some(Loader(0, 0, zeroes));
    } else {
      TextReads(data, zeroes);
    }
  }
}
