/** Sequence numbers: 32-bit arithmetic against absolute stream positions. */
module TcpSequence {
  import opened Arith

  const MOD := 0x1_0000_0000

  type Seq32 = x: int | 0 <= x < MOD witness 0

  function DiffSeq(a: Seq32, b: Seq32): Seq32 { (a - b) % MOD }

  function AddSeq(a: Seq32, b: nat): Seq32 { (a + b) % MOD }

  /** Sequence number of absolute position p in a stream whose position 0 has number isn. */
  function SeqOf(isn: Seq32, p: nat): Seq32 { (isn + p) % MOD }

  lemma AddSeqOf(isn: Seq32, p: nat, n: nat)
    ensures AddSeq(SeqOf(isn, p), n) == SeqOf(isn, p + n)
  {
  }

  /** Modular difference recovers the distance of two positions less than 2^32 apart. */
  lemma DiffSeqOf(isn: Seq32, p: nat, q: nat)
    ensures q <= p < q + MOD ==> DiffSeq(SeqOf(isn, p), SeqOf(isn, q)) == p - q
    ensures p < q <= p + MOD ==> DiffSeq(SeqOf(isn, p), SeqOf(isn, q)) == p - q + MOD
  {
  }

  lemma SeqOfInjective(isn: Seq32, p: nat, q: nat)
    requires q <= p < q + MOD
    ensures SeqOf(isn, p) == SeqOf(isn, q) <==> p == q
  {
    DiffSeqOf(isn, p, q);
  }

  // ---------- ring slots ----------

  /** Slot of the d-th sequence number of a window of size w that begins at b. */
  function Slot(b: Seq32, d: nat, w: nat): nat
    requires w > 0
  {
    AddSeq(b, d) % w
  }

  ghost predicate SlotsDistinct(w: nat)
    requires w > 0
  {
    forall b: Seq32, d: nat, e: nat :: d < e < w ==> Slot(b, d, w) != Slot(b, e, w)
  }

  /** When the window divides 2^32 the wrap of the sequence number does not disturb the slot. */
  lemma SlotIgnoresWrap(b: nat, w: nat)
    requires w > 0 && MOD % w == 0
    ensures (b % MOD) % w == b % w
  {
    var m := MOD / w;
    assert MOD == m * w;
    var k := b / MOD;
    assert b == b % MOD + k * (m * w);
    assert k * (m * w) == (k * m) * w;
    ModAddMultiple(b % MOD, w, k * m);
  }

  lemma DivisorKeepsSlotsApart(b: Seq32, d: nat, e: nat, w: nat)
    requires 0 < w <= MOD && MOD % w == 0 && d < e < w
    ensures Slot(b, d, w) != Slot(b, e, w)
  {
    SlotIgnoresWrap(b + d, w);
    SlotIgnoresWrap(b + e, w);
    if (b + d) % w == (b + e) % w { SameSlotFar(b + d, b + e, w); }
  }

  /** Otherwise the last number before the wrap shares its slot with one after it. */
  lemma NonDivisorSharesSlot(w: nat, r: nat)
    requires 0 < w <= MOD && r == MOD % w && r != 0
    ensures Slot(MOD - 1, 0, w) == Slot(MOD - 1, r, w)
  {
    var q := MOD / w;
    assert MOD == q * w + r;
    ModIsUnique(MOD - 1, w, q, r - 1);
    ModIsUnique(r - 1, w, 0, r - 1);
  }

  /** The ring never shares a slot inside one window exactly when its size divides 2^32. */
  lemma SlotsDistinctIffDivides(w: nat)
    requires 0 < w <= MOD
    ensures SlotsDistinct(w) <==> MOD % w == 0
  {
    if MOD % w == 0 {
      forall b: Seq32, d: nat, e: nat | d < e < w ensures Slot(b, d, w) != Slot(b, e, w) {
        DivisorKeepsSlotsApart(b, d, e, w);
      }
    } else {
      NonDivisorSharesSlot(w, MOD % w);
    }
  }
}
