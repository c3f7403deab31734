/** What soundness of the free lists means for the whole arena: aligned free runs
    are never fragmented, and the free side is determined by the live side. */
module BuddyTheorems {
  import opened Common
  import opened Dyadic
  import opened Buddy

  ghost predicate FreeHeadOver(s: Blocks, h: nat, i: nat) {
    h < |s.order| && InQueue(s, h) && h <= i < h + Span(s.order[h])
  }

  /** Index i lies in a free block. */
  ghost predicate FreeAt(s: Blocks, i: nat) {
    exists h: nat :: FreeHeadOver(s, h, i)
  }

  lemma QueuedIsHead(s: Blocks, h: nat)
    requires Listed(s) && InQueue(s, h)
    ensures Head(s.order, h)
  {
  }

  /** Every index is in exactly one of a live block and a free block. */
  lemma LiveOrFree(s: Blocks, i: nat) returns (h: nat)
    requires Sound(s) && i < |s.order|
    ensures Head(s.order, h) && h <= i < h + Span(s.order[h])
    ensures h in Live(s) || FreeHeadOver(s, h, i)
    ensures h in Live(s) <==> !FreeAt(s, i)
  {
    h := CoveringHead(s.order, i);
    if g: nat :| FreeHeadOver(s, g, i) {
      QueuedIsHead(s, g);
      Partition(s.order, i);
    }
    if h !in Live(s) { assert FreeHeadOver(s, h, i); }
  }

  /** The halves of an aligned run are not both free blocks of half its size. */
  lemma HalvesDiffer(s: Blocks, a: nat, k: nat, e: nat)
    requires Coalesced(s) && k > 0 && Aligned(a, k) && k + MIN_ORDER <= MAX_ORDER && e == a + Pow2(k - 1)
    requires a < |s.order| && e < |s.order| && InQueue(s, a) && InQueue(s, e)
    ensures s.order[a] == k - 1 + MIN_ORDER ==> s.order[e] != s.order[a]
  {
    hide InQueue, FlipBit;
    AlignedWeaken(a, k, k - 1);
    FlipBitMoves(a, k - 1);
    assert !Uncoalesced(s, a);
  }

  /** Two free halves of an aligned run are one free block, by coalescing. */
  lemma JoinHalves(s: Blocks, a: nat, k: nat, g: nat, e: nat) returns (h: nat)
    requires Laid(s.order) && Coalesced(s) && k > 0 && Aligned(a, k) && a + Pow2(k) <= |s.order|
    requires k + MIN_ORDER <= MAX_ORDER
    requires g < |s.order| && InQueue(s, g) && g <= a && a + Pow2(k - 1) <= g + Span(s.order[g])
    requires e < |s.order| && InQueue(s, e) && e <= a + Pow2(k - 1) && a + Pow2(k) <= e + Span(s.order[e])
    requires s.order[g] >= k - 1 + MIN_ORDER && s.order[e] >= k - 1 + MIN_ORDER
    ensures h < |s.order| && InQueue(s, h) && h <= a && a + Pow2(k) <= h + Span(s.order[h])
    ensures s.order[h] >= k + MIN_ORDER
  {
    hide InQueue, FlipBit, Bit, Coalesced;
    h := if s.order[g] - MIN_ORDER >= k then g else e;
    if g == a && e == a + Pow2(k - 1) { HalvesDiffer(s, a, k, e); }
    Laminar(a, k, h, s.order[h] - MIN_ORDER);
  }

  /** Full coalescing: an aligned run that is wholly free lies inside one free block. */
  lemma {:induction false} FreeRunIsOneBlock(s: Blocks, a: nat, k: nat) returns (h: nat)
    requires Sound(s) && Aligned(a, k) && k + MIN_ORDER <= MAX_ORDER && a + Pow2(k) <= |s.order|
    requires forall i: nat :: a <= i < a + Pow2(k) ==> FreeAt(s, i)
    ensures h < |s.order| && InQueue(s, h) && h <= a && a + Pow2(k) <= h + Span(s.order[h])
    ensures s.order[h] >= k + MIN_ORDER
    decreases k
  {
    if k == 0 {
      assert FreeAt(s, a);
      h :| FreeHeadOver(s, h, a);
    } else {
      AlignedWeaken(a, k, k - 1);
      AlignedAdd(a, k - 1);
      var g := FreeRunIsOneBlock(s, a, k - 1);
      var e := FreeRunIsOneBlock(s, a + Pow2(k - 1), k - 1);
      h := JoinHalves(s, a, k, g, e);
    }
  }

  lemma SameLiveSameFreeAt(s: Blocks, t: Blocks, i: nat)
    requires Sound(s) && Sound(t) && |s.order| == |t.order| && Live(s) == Live(t) && i < |s.order|
    ensures FreeAt(s, i) <==> FreeAt(t, i)
  {
    var g := LiveOrFree(s, i);
    var h := LiveOrFree(t, i);
    if g in Live(s) {
      assert Live(t)[g] == s.order[g];
      Partition(t.order, i);
    }
    if h in Live(t) {
      assert Live(s)[h] == t.order[h];
      Partition(s.order, i);
    }
  }

  /** A free block of one state lies in a free block of any other state with the same live blocks. */
  lemma FreeBlockTransfers(s: Blocks, t: Blocks, h: nat) returns (g: nat)
    requires Sound(s) && Sound(t) && |s.order| == |t.order| && Live(s) == Live(t)
    requires h < |s.order| && InQueue(s, h)
    ensures g < |t.order| && InQueue(t, g) && g <= h && h + Span(s.order[h]) <= g + Span(t.order[g])
  {
    QueuedIsHead(s, h);
    forall i: nat | h <= i < h + Span(s.order[h]) ensures FreeAt(t, i) {
      assert FreeHeadOver(s, h, i);
      SameLiveSameFreeAt(s, t, i);
    }
    g := FreeRunIsOneBlock(t, h, s.order[h] - MIN_ORDER);
  }

  lemma SameLiveSameQueued(s: Blocks, t: Blocks, h: nat)
    requires Sound(s) && Sound(t) && |s.order| == |t.order| && Live(s) == Live(t)
    requires h < |s.order| && InQueue(s, h)
    ensures InQueue(t, h) && t.order[h] == s.order[h]
  {
    var g := FreeBlockTransfers(s, t, h);
    var f := FreeBlockTransfers(t, s, g);
    QueuedIsHead(s, h);
    QueuedIsHead(s, f);
    Partition(s.order, h);
    assert f == h;
    if s.order[h] < t.order[g] { Pow2Mono(s.order[h] - MIN_ORDER, t.order[g] - MIN_ORDER); }
    if t.order[g] < s.order[h] { Pow2Mono(t.order[g] - MIN_ORDER, s.order[h] - MIN_ORDER); }
  }

  lemma HeadsAreLiveOrQueued(s: Blocks, i: nat)
    requires Sound(s) && i < |s.order|
    ensures Head(s.order, i) <==> i in Live(s) || InQueue(s, i)
  {
    if InQueue(s, i) { QueuedIsHead(s, i); }
  }

  lemma SameLiveSameOrderAt(s: Blocks, t: Blocks, i: nat)
    requires Sound(s) && Sound(t) && |s.order| == |t.order| && Live(s) == Live(t) && i < |s.order|
    ensures s.order[i] == t.order[i] && (InQueue(s, i) <==> InQueue(t, i))
  {
    HeadsAreLiveOrQueued(s, i);
    HeadsAreLiveOrQueued(t, i);
    if i in Live(s) {
      assert Live(t)[i] == t.order[i];
    } else if InQueue(s, i) {
      SameLiveSameQueued(s, t, i);
    } else if InQueue(t, i) {
      SameLiveSameQueued(t, s, i);
    } else {
      TrailingZerosUnique(i, s.order[i] - MIN_ORDER, t.order[i] - MIN_ORDER);
    }
  }

  /** Canonical form: the live blocks determine the whole order array and every free
      list up to its own order, whatever the history of allocations and releases. */
  lemma LiveDeterminesState(s: Blocks, t: Blocks)
    requires Sound(s) && Sound(t) && |s.order| == |t.order| && Live(s) == Live(t)
    ensures s.order == t.order
    ensures forall i: nat :: InQueue(s, i) <==> InQueue(t, i)
  {
    forall i: nat | i < |s.order| ensures s.order[i] == t.order[i] { SameLiveSameOrderAt(s, t, i); }
    forall i: nat ensures InQueue(s, i) <==> InQueue(t, i) {
      if i < |s.order| { SameLiveSameOrderAt(s, t, i); }
      else {
        if InQueue(s, i) { QueuedIsHead(s, i); }
        if InQueue(t, i) { QueuedIsHead(t, i); }
      }
    }
  }

  // ---------- free size ----------

  /** Minimal blocks on the free lists. */
  ghost function Total(f: seq<seq<nat>>): nat {
    if f == [] then 0 else Total(f[..|f| - 1]) + |f[|f| - 1]| * Pow2(|f| - 1)
  }

  lemma {:induction false} TotalUpdate(f: seq<seq<nat>>, q: nat, l: seq<nat>)
    requires q < |f|
    ensures Total(f[q := l]) + |f[q]| * Pow2(q) == Total(f) + |l| * Pow2(q)
  {
    var n := |f| - 1;
    if q == n {
      assert f[q := l][..n] == f[..n];
    } else {
      TotalUpdate(f[..n], q, l);
      assert f[q := l][..n] == f[..n][q := l];
    }
  }

  lemma PushTotal(s: Blocks, i: nat)
    requires i < |s.order| && |s.free| == LISTS
    ensures Total(Push(s, i).free) == Total(s.free) + Span(s.order[i])
  {
    var q := s.order[i] - MIN_ORDER;
    TotalUpdate(s.free, q, [i] + s.free[q]);
    assert (1 + |s.free[q]|) * Pow2(q) == Pow2(q) + |s.free[q]| * Pow2(q);
  }

  lemma UnlinkTotal(s: Blocks, i: nat)
    requires Listed(s) && i < |s.order| && InQueue(s, i)
    ensures Total(Unlink(s, i).free) + Span(s.order[i]) == Total(s.free)
  {
    var q := s.order[i] - MIN_ORDER;
    var w := Without(s.free[q], i);
    assert |w| + 1 == |s.free[q]| by {
      InOwnList(s, i);
      WithoutSpec(s.free[q], i);
    }
    TotalUpdate(s.free, q, w);
    assert (|w| + 1) * Pow2(q) == |w| * Pow2(q) + Pow2(q);
  }
}
