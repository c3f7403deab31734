/** Multiplication and remainder facts the solver does not find by itself. */
module Arith {

  lemma {:induction false} ModAddMultiple(x: nat, w: nat, k: nat)
    requires w > 0
    ensures (x + k * w) % w == x % w
  {
    if k > 0 {
      ModAddMultiple(x, w, k - 1);
      assert x + k * w == (x + (k - 1) * w) + w;
      ModAddOnce(x + (k - 1) * w, w);
    }
  }

  lemma ModAddOnce(x: nat, w: nat)
    requires w > 0
    ensures (x + w) % w == x % w
  {
    var q := x / w;
    assert x == q * w + x % w;
    assert x + w == (q + 1) * w + x % w;
    ModIsUnique(x + w, w, q + 1, x % w);
  }

  lemma ModIsUnique(x: nat, w: nat, q: nat, r: nat)
    requires w > 0 && x == q * w + r && r < w
    ensures x % w == r
  {
    var p := x / w;
    assert x == p * w + x % w;
    if p < q { MulGap(p, q, w); }
    if q < p { MulGap(q, p, w); }
  }

  lemma {:induction false} MulGap(a: nat, b: nat, w: nat)
    requires a < b
    ensures a * w + w <= b * w
  {
    assert b * w == (b - 1) * w + w;
    if a + 1 < b { MulGap(a, b - 1, w); }
  }

  lemma MulSwap(a: nat, b: nat, c: nat)
    ensures a * (b * c) == b * (a * c) == (a * b) * c
  {
  }

  lemma MulMono(a: nat, b: nat, c: nat)
    requires a <= b
    ensures a * c <= b * c
  {
    if a < b { MulGap(a, b, c); }
  }

  lemma SameSlotFar(x: nat, y: nat, w: nat)
    requires w > 0 && x < y && x % w == y % w
    ensures y >= x + w
  {
    var p, q := x / w, y / w;
    DivMod(x, w);
    DivMod(y, w);
    if q < p { MulGap(q, p, w); }
    if p < q { MulGap(p, q, w); }
  }

  lemma DivMod(x: nat, w: nat)
    requires w > 0
    ensures x == (x / w) * w + x % w
  {
  }

  // ---------- sums ----------

  ghost function Sum(ns: seq<nat>): nat {
    if ns == [] then 0 else Sum(ns[..|ns| - 1]) + ns[|ns| - 1]
  }

  lemma {:induction false} SumUpdate(ns: seq<nat>, i: nat, n: nat)
    requires i < |ns|
    ensures Sum(ns[i := n]) + ns[i] == Sum(ns) + n
  {
    var k := |ns| - 1;
    if i == k {
      assert ns[i := n][..k] == ns[..k];
    } else {
      SumUpdate(ns[..k], i, n);
      assert ns[i := n][..k] == ns[..k][i := n];
    }
  }

  lemma {:induction false} SumAtLeast(ns: seq<nat>, i: nat)
    requires i < |ns|
    ensures ns[i] <= Sum(ns)
  {
    if i < |ns| - 1 { SumAtLeast(ns[..|ns| - 1], i); }
  }

  lemma {:induction false} SumAtLeastTwo(ns: seq<nat>, i: nat, j: nat)
    requires i < j < |ns|
    ensures ns[i] + ns[j] <= Sum(ns)
  {
    if j < |ns| - 1 { SumAtLeastTwo(ns[..|ns| - 1], i, j); }
    else { SumAtLeast(ns[..|ns| - 1], i); }
  }

  lemma {:induction false} SumZero(ns: seq<nat>)
    requires forall i :: 0 <= i < |ns| ==> ns[i] == 0
    ensures Sum(ns) == 0
  {
    if ns != [] { SumZero(ns[..|ns| - 1]); }
  }
}
