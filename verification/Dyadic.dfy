/** Powers of two, alignment and the single-bit exclusive-or that finds a buddy.
    Everything is defined by halving, so the proofs stay in linear arithmetic;
    `AlignedIsDivisible` ties the recursive form back to the remainder operator. */
module Dyadic {

  function Pow2(k: nat): (p: nat)
    ensures p >= 1
  {
    if k == 0 then 1 else 2 * Pow2(k - 1)
  }

  /** The k lowest bits of i are zero. */
  predicate Aligned(i: nat, k: nat) {
    k == 0 || (i % 2 == 0 && Aligned(i / 2, k - 1))
  }

  /** Bit k of i. */
  predicate Bit(i: nat, k: nat) {
    if k == 0 then i % 2 == 1 else Bit(i / 2, k - 1)
  }

  /** `i ^ (1 << k)`. */
  function FlipBit(i: nat, k: nat): (j: nat) {
    if k == 0 then (if i % 2 == 1 then i - 1 else i + 1)
    else 2 * FlipBit(i / 2, k - 1) + i % 2
  }

  lemma {:induction false} FlipBitMoves(i: nat, k: nat)
    ensures Bit(i, k) ==> i >= Pow2(k)
    ensures FlipBit(i, k) == if Bit(i, k) then i - Pow2(k) else i + Pow2(k)
    ensures Bit(FlipBit(i, k), k) == !Bit(i, k)
    ensures FlipBit(FlipBit(i, k), k) == i
  {
    if k > 0 { FlipBitMoves(i / 2, k - 1); }
  }

  lemma {:induction false} AlignedFlip(i: nat, k: nat)
    requires Aligned(i, k)
    ensures Aligned(FlipBit(i, k), k)
  {
    if k > 0 {
      AlignedFlip(i / 2, k - 1);
      var j := FlipBit(i / 2, k - 1);
      assert FlipBit(i, k) == 2 * j;
      assert (2 * j) % 2 == 0 && (2 * j) / 2 == j;
    }
  }

  lemma {:induction false} AlignedZero(k: nat)
    ensures Aligned(0, k) && !Bit(0, k)
  {
    if k > 0 { AlignedZero(k - 1); }
  }

  lemma {:induction false} AlignedWeaken(i: nat, k: nat, j: nat)
    requires Aligned(i, k) && j <= k
    ensures Aligned(i, j)
    ensures j < k ==> !Bit(i, j)
  {
    if j > 0 { AlignedWeaken(i / 2, k - 1, j - 1); }
  }

  /** One more aligned bit is exactly one more zero bit. */
  lemma {:induction false} AlignedSucc(i: nat, k: nat)
    requires Aligned(i, k)
    ensures Aligned(i, k + 1) <==> !Bit(i, k)
  {
    if k > 0 { AlignedSucc(i / 2, k - 1); }
  }

  lemma {:induction false} AlignedAdd(i: nat, k: nat)
    requires Aligned(i, k)
    ensures Aligned(i + Pow2(k), k)
  {
    if k > 0 {
      AlignedAdd(i / 2, k - 1);
      assert (i + Pow2(k)) / 2 == i / 2 + Pow2(k - 1);
    }
  }

  lemma {:induction false} Pow2Mono(a: nat, b: nat)
    requires a <= b
    ensures Pow2(a) <= Pow2(b)
    ensures a < b ==> 2 * Pow2(a) <= Pow2(b)
  {
    if a < b { Pow2Mono(a, b - 1); }
  }

  /** Aligned dyadic ranges are nested or disjoint. */
  lemma {:induction false} Laminar(i: nat, a: nat, j: nat, b: nat)
    requires Aligned(i, a) && Aligned(j, b) && a <= b
    ensures i < j ==> i + Pow2(a) <= j
    ensures j <= i < j + Pow2(b) ==> i + Pow2(a) <= j + Pow2(b)
  {
    if a > 0 { Laminar(i / 2, a - 1, j / 2, b - 1); }
  }

  /** A nonzero index has exactly one order that is its number of trailing zeros. */
  lemma {:induction false} TrailingZerosUnique(i: nat, a: nat, b: nat)
    requires Aligned(i, a) && Bit(i, a) && Aligned(i, b) && Bit(i, b)
    ensures a == b
  {
    if a < b { AlignedWeaken(i, b, a); }
    if b < a { AlignedWeaken(i, a, b); }
  }

  /** The recursive definition is divisibility. */
  lemma {:induction false} AlignedIsDivisible(i: nat, k: nat)
    ensures Aligned(i, k) <==> exists q: nat :: i == q * Pow2(k)
  {
    if k == 0 {
      assert i == i * Pow2(0);
    } else {
      AlignedIsDivisible(i / 2, k - 1);
      if Aligned(i, k) {
        var q: nat :| i / 2 == q * Pow2(k - 1);
        assert i == q * Pow2(k) by { assert q * Pow2(k) == 2 * (q * Pow2(k - 1)); }
      }
      if exists q: nat :: i == q * Pow2(k) {
        var q: nat :| i == q * Pow2(k);
        assert q * Pow2(k) == 2 * (q * Pow2(k - 1));
        assert i / 2 == q * Pow2(k - 1);
      }
    }
  }
}
