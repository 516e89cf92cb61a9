/** Bytes, 32-bit words seen as four byte lanes, and byte-enabled writes. */
module Words {
  type Byte = b: int | 0 <= b < 256

  /** A 32-bit bus word, least significant lane first. */
  datatype Word = Word(b0: Byte, b1: Byte, b2: Byte, b3: Byte)

  /** The four write-enable bits of the memory bus. */
  datatype Enables = Enables(w0: bool, w1: bool, w2: bool, w3: bool) {
    predicate Any() { w0 || w1 || w2 || w3 }
  }

  const NO_WRITE := Enables(false, false, false, false)
  const WRITE_ALL := Enables(true, true, true, true)

  /** The word left behind when the enabled lanes of `data` are written over `old`. */
  function Merge(prior: Word, data: Word, we: Enables): Word {
    Word(if we.w0 then data.b0 else prior.b0,
         if we.w1 then data.b1 else prior.b1,
         if we.w2 then data.b2 else prior.b2,
         if we.w3 then data.b3 else prior.b3)
  }

  /** Byte lane `k` of a word, and its write-enable bit. */
  function Lane(w: Word, k: nat): Byte
    requires k < 4
  {
    if k == 0 then w.b0 else if k == 1 then w.b1 else if k == 2 then w.b2 else w.b3
  }

  function Enabled(we: Enables, k: nat): bool
    requires k < 4
  {
    if k == 0 then we.w0 else if k == 1 then we.w1 else if k == 2 then we.w2 else we.w3
  }

  /** Writing changes the enabled lanes and no others. */
  lemma MergeLanes(prior: Word, data: Word, we: Enables, k: nat)
    requires k < 4
    ensures Lane(Merge(prior, data, we), k) == if Enabled(we, k) then Lane(data, k) else Lane(prior, k)
  {
  }

  lemma AnyLane(we: Enables)
    ensures we.Any() <==> exists k :: 0 <= k < 4 && Enabled(we, k)
  {
    assert we.w0 ==> Enabled(we, 0);
    assert we.w1 ==> Enabled(we, 1);
    assert we.w2 ==> Enabled(we, 2);
    assert we.w3 ==> Enabled(we, 3);
  }

  /** A word is its four lanes. */
  lemma SameLanes(v: Word, w: Word)
    requires forall k | 0 <= k < 4 :: Lane(v, k) == Lane(w, k)
    ensures v == w
  {
    assert Lane(v, 0) == Lane(w, 0) && Lane(v, 1) == Lane(w, 1) && Lane(v, 2) == Lane(w, 2) && Lane(v, 3) == Lane(w, 3);
  }
}
