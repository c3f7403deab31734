/** The block manager itself: the loops that split, merge and search, proved
    against the value-level steps of module Buddy. */
module BuddyManager {
  import opened Arith
  import opened Common
  import opened Dyadic
  import opened Buddy
  import opened BuddyTheorems

  const MIN_BLOCK_SIZE := 4096
  const MAX_BLOCK_SIZE := 0x4000_0000

  /** Size of a block in bytes. */
  function Bytes(o: Order): nat { MIN_BLOCK_SIZE * Span(o) }

  lemma {:induction false} BytesIsPow2(k: nat)
    ensures Pow2(k + 12) == MIN_BLOCK_SIZE * Pow2(k)
  {
    if k == 0 {
      assert Pow2(12) == 4096 by { assert Pow2(4) == 16; assert Pow2(8) == 256; }
    } else {
      BytesIsPow2(k - 1);
    }
  }

  ghost function OrderFrom(s: nat, i: Order): (r: int)
    ensures i <= r <= MAX_ORDER + 1
    decreases MAX_ORDER - i
  {
    if Bytes(i) >= s then i else if i == MAX_ORDER then MAX_ORDER + 1 else OrderFrom(s, i + 1)
  }

  /** Least order whose block holds s bytes, or one past the maximum. */
  ghost function CeilOrder(s: nat): (r: int)
    ensures MIN_ORDER <= r <= MAX_ORDER + 1
  {
    OrderFrom(s, MIN_ORDER)
  }

  lemma {:induction false} OrderFromSpec(s: nat, i: Order)
    ensures OrderFrom(s, i) <= MAX_ORDER ==> s <= Bytes(OrderFrom(s, i))
    ensures forall o: Order :: i <= o < OrderFrom(s, i) ==> Bytes(o) < s
    decreases MAX_ORDER - i
  {
    if Bytes(i) < s && i < MAX_ORDER { OrderFromSpec(s, i + 1); }
  }

  /** Head of the n-th block of a run of blocks of order o starting at b. */
  ghost function At(b: nat, o: Order, n: nat): nat {
    if n == 0 then b else At(b, o, n - 1) + Span(o)
  }

  /** Minimal blocks in n blocks of order o. */
  function RunSpan(n: nat, o: Order): nat { n * Span(o) }

  lemma {:induction false} AtIsMultiple(b: nat, o: Order, n: nat)
    ensures At(b, o, n) == b + RunSpan(n, o)
  {
    if n > 0 {
      AtIsMultiple(b, o, n - 1);
      assert n * Span(o) == (n - 1) * Span(o) + Span(o);
    }
  }

  /** Blocks handed out by one allocation: n blocks of order o, one after another. */
  ghost function AddRun(live: map<nat, Order>, b: nat, o: Order, n: nat): map<nat, Order> {
    if n == 0 then live else AddRun(live, b, o, n - 1)[At(b, o, n - 1) := o]
  }

  function DivCeil(a: nat, b: nat): nat
    requires b > 0
  {
    (a + b - 1) / b
  }

  lemma DivCeilZero(b: nat)
    requires b > 0
    ensures DivCeil(0, b) == 0
  {
  }

  lemma DivCeilBound(a: nat, b: nat, m: nat)
    requires b > 0 && a <= m * b
    ensures DivCeil(a, b) <= m
  {
    var d := DivCeil(a, b);
    DivMod(a + b - 1, b);
    if d > m { MulGap(m, d, b); }
  }

  /** A block of order o holds a whole number of blocks of a smaller order. */
  lemma {:induction false} SpanMultiple(o: Order, so: Order) returns (m: nat)
    requires so <= o
    ensures Span(o) == m * Span(so) && m > 0
  {
    if so == o {
      m := 1;
    } else {
      var h := SpanMultiple(o - 1, so);
      m := 2 * h;
      MulSwap(2, h, Span(so));
    }
  }

  class MemoryBlockManager {
    var order: seq<Order>
    var free: seq<seq<nat>>
    var freeSize: nat

    ghost function View(): Blocks
      reads this
    {
      Blocks(order, free)
    }

    ghost predicate Valid()
      reads this
    {
      Sound(View()) && freeSize == MIN_BLOCK_SIZE * Total(free)
    }

    /** Every block starts as a live block of the minimal order. */
    constructor (blockCount: nat)
      ensures Valid() && |order| == blockCount && freeSize == 0
      ensures forall i: nat :: i in Live(View()) <==> i < blockCount
      ensures forall i: nat :: i < blockCount ==> order[i] == MIN_ORDER
    {
      order := seq(blockCount, _ => MIN_ORDER);
      free := seq(LISTS, _ => []);
      freeSize := 0;
      new;
      EmptyTotal(free);
    }

    /** Back to n blocks in the state the constructor leaves them in. */
    method ResetBlockArray(n: nat)
      requires n <= |order| && |free| == LISTS
      modifies this
      ensures Valid() && |order| == n && freeSize == 0
      ensures forall i: nat :: i in Live(View()) <==> i < n
      ensures forall i: nat :: i < n ==> order[i] == MIN_ORDER
    {
      order := order[..n];
      freeSize := 0;
      for i := 0 to n
        invariant |order| == n && |free| == LISTS && freeSize == 0
        invariant forall j: nat :: j < i ==> order[j] == MIN_ORDER
      {
        order := order[i := MIN_ORDER];
      }
      for i := 0 to LISTS
        invariant |order| == n && |free| == LISTS && freeSize == 0
        invariant forall j: nat :: j < n ==> order[j] == MIN_ORDER
        invariant forall j: nat :: j < i ==> free[j] == []
      {
        free := free[i := []];
      }
      EmptyTotal(free);
    }

    /** Index of the buddy, unless it falls outside the arena. */
    function GetBuddy(b: nat): (r: Option<nat>)
      requires b < |order|
      reads this
      ensures r.Some? ==> r.value < |order| && (r.value == b + Span(order[b]) || b == r.value + Span(order[b]))
      ensures r.None? ==> b + Span(order[b]) >= |order|
    {
      FlipBitMoves(b, order[b] - MIN_ORDER);
      var buddy := FlipBit(b, order[b] - MIN_ORDER);
      if buddy >= |order| then None else Some(buddy)
    }

    /** Blocks of equal order are each other's buddies. */
    lemma BuddiesPair(b: nat)
      requires b < |order| && GetBuddy(b).Some? && order[GetBuddy(b).value] == order[b]
      ensures GetBuddy(b).value != b && GetBuddy(GetBuddy(b).value) == Some(b)
    {
      FlipBitMoves(b, order[b] - MIN_ORDER);
    }

    method AddToQueue(i: nat)
      requires i < |order| && |free| == LISTS
      modifies this`free
      ensures View() == Push(old(View()), i)
    {
      var q := order[i] - MIN_ORDER;
      free := free[q := [i] + free[q]];
    }

    method RemoveFromQueue(i: nat)
      requires i < |order| && |free| == LISTS
      modifies this`free
      ensures View() == Unlink(old(View()), i)
    {
      var q := order[i] - MIN_ORDER;
      free := free[q := Without(free[q], i)];
    }

    /** Search upward from an order: the head of the first nonempty list. */
    method FindFreeBlock(minOrder: Order) returns (r: Option<nat>)
      requires |free| == LISTS
      ensures r.None? <==> NoneFree(View(), minOrder - MIN_ORDER)
      ensures r.Some? ==> IsFirstFit(View(), minOrder - MIN_ORDER, r.value)
    {
      var q := minOrder - MIN_ORDER;
      while q + MIN_ORDER <= MAX_ORDER
        invariant minOrder - MIN_ORDER <= q <= LISTS
        invariant forall p :: minOrder - MIN_ORDER <= p < q ==> free[p] == []
      {
        if free[q] != [] {
          return Some(free[q][0]);
        }
        q := q + 1;
      }
      return None;
    }

    /** Halves a taken block down to order so, freeing each upper half. */
    method SplitDown(b: nat, so: Order, ghost s0: Blocks, ghost b0: nat, ghost end: nat, ghost n: nat)
      requires b == At(b0, so, n) && Halving(s0, b0, so, end, View(), n)
      modifies this
      ensures Halving(s0, b0, so, end, View(), n) && b < |order| && order[b] == so
      ensures freeSize == old(freeSize)
    {
      hide Sound, Live, InQueue, Total, AddRun, RunFresh, FreeTail, At, FlipBit;
      ghost var s := View();
      while order[b] != so
        invariant View() == s && b < |order| && |free| == LISTS && Halving(s0, b0, so, end, s, n)
        invariant freeSize == old(freeSize)
        decreases order[b]
      {
        ghost var c := FlipBit(b, order[b] - 1 - MIN_ORDER);
        CarveHalve(s0, b0, so, end, s, n, b, c);
        s := Push(SetOrder(s, b, s.order[b] - 1), c);
        order := order[b := order[b] - 1];
        var buddy := GetBuddy(b);
        assert buddy.Some? && buddy.value > b && order[buddy.value] == order[b];
        AddToQueue(buddy.value);
      }
    }

    /** One run of blocks of order so from the smallest free block that holds size bytes. */
    method AllocateBlock(size: nat, splitSize: nat) returns (r: Option<nat>)
      requires Valid()
      requires splitSize >= size || exists o: Order :: splitSize == Bytes(o)
      modifies this
      ensures Valid() && |order| == old(|order|)
      ensures r.None? || size == 0 ==> View() == old(View()) && freeSize == old(freeSize)
      ensures r.None? <==> CeilOrder(size) > MAX_ORDER || NoneFree(old(View()), CeilOrder(size) - MIN_ORDER)
      ensures r.Some? ==> IsFirstFit(old(View()), CeilOrder(size) - MIN_ORDER, r.value)
      ensures r.Some? ==>
                var so := SplitOrder(size, splitSize);
                var n := DivCeil(size, Bytes(so));
                && Live(View()) == AddRun(old(Live(View())), r.value, so, n)
                && RunFresh(old(Live(View())), r.value, so, n)
                && freeSize + MIN_BLOCK_SIZE * RunSpan(n, so) == old(freeSize)
    {
      hide DivCeil, Live, Total, Pow2;
      var ao := CeilAllocateOrder(size);
      if ao > MAX_ORDER { return None; }
      r := FindFreeBlock(ao);
      if r.None? { return; }
      var so: Order := ao;
      if splitSize < size { so := CeilAllocateOrder(splitSize); }
      OrderFromSpec(size, MIN_ORDER);
      if splitSize < size {
        ghost var o: Order :| splitSize == Bytes(o);
        CeilOrderExact(o, size);
      }
      FirstFitIsFree(View(), ao - MIN_ORDER, r.value);
      RunFits(order[r.value], ao, so, size);
      DivCeilZero(Bytes(so));
      CarveRun(r.value, so, DivCeil(size, Bytes(so)));
    }

    /** Takes count blocks of order so, one after another, out of the free block b0. */
    method CarveRun(b0: nat, so: Order, count: nat)
      requires Valid() && b0 < |order| && InQueue(View(), b0)
      requires so <= order[b0] && RunSpan(count, so) <= Span(order[b0])
      modifies this
      ensures Valid() && |order| == old(|order|)
      ensures Live(View()) == AddRun(old(Live(View())), b0, so, count)
      ensures RunFresh(old(Live(View())), b0, so, count)
      ensures freeSize + MIN_BLOCK_SIZE * RunSpan(count, so) == old(freeSize)
      ensures count == 0 ==> View() == old(View()) && freeSize == old(freeSize)
    {
      hide Sound, Live, InQueue, Total, FreeTail, RunFresh, AddRun, At;
      ghost var s0, s := View(), View();
      ghost var end := b0 + Span(order[b0]);
      AtIsMultiple(b0, so, count);
      CarveStart(s0, b0, so);
      var n := 0;
      while n < count
        invariant 0 <= n <= count && View() == s && |free| == LISTS && Carved(s0, b0, so, end, s, n)
        invariant freeSize == old(freeSize) && (n == 0 ==> s == s0)
      {
        AtIsMultiple(b0, so, n);
        AtMono(b0, so, n, count);
        var b := b0 + RunSpan(n, so);
        CarveTake(s0, b0, so, end, s, n);
        assert InQueue(Blocks(order, free), b);
        RemoveFromQueue(b);
        SplitDown(b, so, s0, b0, end, n);
        s := View();
        CarveNext(s0, b0, so, end, s, n);
        n := n + 1;
      }
      freeSize := freeSize - MIN_BLOCK_SIZE * RunSpan(count, so);
    }

    method MergeWithBuddy(b: nat, c: nat) returns (lo: nat)
      requires b < |order| && c < |order| && |free| == LISTS && order[if b < c then b else c] < MAX_ORDER
      modifies this`order, this`free
      ensures lo == (if b < c then b else c) && View() == Merge(old(View()), b, c)
    {
      RemoveFromQueue(c);
      lo := if b < c then b else c;
      order := order[lo := order[lo] + 1];
    }

    /** Frees a live block, merging upward as long as the buddy is free and equal. */
    method ReleaseBlock(b0: nat)
      requires Valid() && b0 in Live(View())
      modifies this
      ensures Valid() && |order| == old(|order|)
      ensures Live(View()) == old(Live(View())) - {b0}
      ensures freeSize == old(freeSize) + Bytes(old(order)[b0])
    {
      hide Sound, Live, InQueue, Total, FlipBit, Releasing;
      ghost var s0 := View();
      ReleaseStarts(s0, b0);
      freeSize := freeSize + Bytes(order[b0]);
      var b := MergeUp(b0);
      ReleasePuts(s0, b0, View(), b);
      AddToQueue(b);
    }

    /** Merges a live block with its buddy until it cannot merge any more. */
    method MergeUp(b0: nat) returns (b: nat)
      requires b0 < |order| && |free| == LISTS && Releasing(View(), b0, View(), b0)
      modifies this`order, this`free
      ensures |order| == old(|order|) && |free| == LISTS && b < |order|
      ensures Releasing(old(View()), b0, View(), b) && CannotMerge(View(), b)
    {
      hide Sound, Live, InQueue, Total, FlipBit, Releasing, Span;
      b := b0;
      ghost var s0, s := View(), View();
      while order[b] < MAX_ORDER
        invariant View() == s && b < |order| == |s0.order| && |free| == LISTS && Releasing(s0, b0, s, b)
        decreases MAX_ORDER - order[b]
      {
        var buddy := GetBuddy(b);
        if buddy.None? { break; }
        var c := buddy.value;
        ReleaseBuddy(s0, b0, s, b);
        assert order[c] <= order[b];
        if !InQueue(Blocks(order, free), c) || order[c] != order[b] { break; }
        ReleaseMerges(s0, b0, s, b);
        s := Merge(s, b, c);
        b := MergeWithBuddy(b, c);
      }
    }
  }

  /** The split size as the allocator rounds it. */
  ghost function SplitOrder(size: nat, splitSize: nat): (o: Order)
    requires CeilOrder(size) <= MAX_ORDER
  {
    if splitSize >= size || CeilOrder(splitSize) > MAX_ORDER then CeilOrder(size) else CeilOrder(splitSize)
  }

  ghost predicate NoneFree(s: Blocks, k: nat)
    requires |s.free| == LISTS
  {
    forall q :: k <= q < LISTS ==> s.free[q] == []
  }

  /** b is the most recently freed block of the smallest order that is large enough. */
  ghost predicate IsFirstFit(s: Blocks, k: nat, b: nat)
    requires |s.free| == LISTS
  {
    exists q :: k <= q < LISTS && s.free[q] != [] && b == s.free[q][0] &&
                forall p :: k <= p < q ==> s.free[p] == []
  }

  method CeilAllocateOrder(s: nat) returns (r: int)
    ensures r == CeilOrder(s)
    ensures r > MAX_ORDER <==> s > MAX_BLOCK_SIZE
  {
    hide Pow2;
    MaxBlockIsMaxOrder();
    OrderFromSpec(s, MIN_ORDER);
    if CeilOrder(s) <= MAX_ORDER { Pow2Mono(CeilOrder(s) - MIN_ORDER, MAX_ORDER - MIN_ORDER); }
    if s > MAX_BLOCK_SIZE { return MAX_ORDER + 1; }
    r := MIN_ORDER;
    BytesIsPow2(r - 12);
    while Pow2(r) < s
      invariant MIN_ORDER <= r <= MAX_ORDER && OrderFrom(s, r) == CeilOrder(s)
      invariant Pow2(r) == Bytes(r)
      decreases MAX_ORDER - r
    {
      BytesIsPow2(r + 1 - 12);
      r := r + 1;
    }
  }

  lemma MaxBlockIsMaxOrder()
    ensures Bytes(MAX_ORDER) == MAX_BLOCK_SIZE
  {
    assert Pow2(6) == 64 && Pow2(12) == 4096 && Pow2(18) == 262144;
  }

  lemma BytesMono(o: Order, p: Order)
    requires o < p
    ensures Bytes(o) < Bytes(p) && Span(o) < Span(p)
  {
    Pow2Mono(o - MIN_ORDER, p - MIN_ORDER);
  }

  /** An exact block size rounds to its own order, and rounding is monotone. */
  lemma CeilOrderExact(o: Order, size: nat)
    ensures CeilOrder(Bytes(o)) == o
    ensures CeilOrder(size) <= MAX_ORDER && Bytes(o) < size ==> o < CeilOrder(size)
  {
    var r := CeilOrder(Bytes(o));
    OrderFromSpec(Bytes(o), MIN_ORDER);
    if r < o { BytesMono(r, o); }
    var a := CeilOrder(size);
    OrderFromSpec(size, MIN_ORDER);
    if a < o { BytesMono(a, o); }
  }

  lemma FirstFitIsFree(s: Blocks, k: nat, b: nat)
    requires Listed(s) && IsFirstFit(s, k, b)
    ensures b < |s.order| && InQueue(s, b) && s.order[b] >= k + MIN_ORDER
  {
    var q :| k <= q < LISTS && s.free[q] != [] && b == s.free[q][0];
    assert b in s.free[q] && Head(s.order, b);
  }

  lemma SpanMono(o: Order, p: Order)
    requires o <= p
    ensures Span(o) <= Span(p)
  {
    Pow2Mono(o - MIN_ORDER, p - MIN_ORDER);
  }

  /** The blocks needed for size bytes fit in a block large enough for size bytes. */
  lemma RunFits(o: Order, ao: Order, so: Order, size: nat)
    requires so <= ao <= o && size <= Bytes(ao)
    ensures RunSpan(DivCeil(size, Bytes(so)), so) <= Span(o)
  {
    hide DivCeil;
    var m := SpanMultiple(ao, so);
    MulSwap(m, MIN_BLOCK_SIZE, Span(so));
    var n := DivCeil(size, Bytes(so));
    DivCeilBound(size, Bytes(so), m);
    MulMono(n, m, Span(so));
    SpanMono(ao, o);
  }

  lemma {:induction false} AtMono(b: nat, o: Order, n: nat, m: nat)
    requires n < m
    ensures At(b, o, n) < At(b, o, m)
  {
    if n + 1 < m { AtMono(b, o, n, m - 1); }
  }

  /** An allocation fails exactly when no aligned run of its rounded size is wholly free. */
  lemma FailsOnlyWithoutRun(s: Blocks, k: nat)
    requires Sound(s) && k < LISTS
    ensures NoneFree(s, k) <==> !exists a: nat :: FreeRun(s, a, k)
  {
    if a: nat :| FreeRun(s, a, k) {
      var h := FreeRunIsOneBlock(s, a, k);
      InOwnList(s, h);
    }
    if !NoneFree(s, k) {
      var q :| k <= q < LISTS && s.free[q] != [];
      var h := s.free[q][0];
      assert h in s.free[q] && InQueue(s, h) && Head(s.order, h);
      AlignedWeaken(h, q, k);
      Pow2Mono(k, q);
      forall i: nat | h <= i < h + Pow2(k) ensures FreeAt(s, i) { assert FreeHeadOver(s, h, i); }
      assert FreeRun(s, h, k);
    }
  }

  /** 2^k minimal blocks from a are aligned and wholly free. */
  ghost predicate FreeRun(s: Blocks, a: nat, k: nat) {
    Aligned(a, k) && a + Pow2(k) <= |s.order| && forall i: nat :: a <= i < a + Pow2(k) ==> FreeAt(s, i)
  }

  // ---------- carving a run of blocks out of one free block ----------

  /** None of the run's heads was live before. */
  ghost predicate RunFresh(live: map<nat, Order>, b: nat, o: Order, n: nat) {
    n == 0 || (RunFresh(live, b, o, n - 1) && At(b, o, n - 1) !in live)
  }

  lemma {:induction false} AddRunKeeps(live: map<nat, Order>, b: nat, o: Order, n: nat)
    ensures live.Keys <= AddRun(live, b, o, n).Keys
  {
    if n > 0 { AddRunKeeps(live, b, o, n - 1); }
  }

  /** Every head in [p, end) is free and at least as large as the split order. */
  ghost predicate FreeTail(s: Blocks, so: Order, p: nat, end: nat) {
    && (forall h: nat :: Head(s.order, h) && p <= h < end ==> InQueue(s, h) && s.order[h] >= so)
    && (end == |s.order| || Head(s.order, end))
  }

  /** n blocks of order so have been carved off the front of [b0, end). */
  ghost predicate Carved(s0: Blocks, b0: nat, so: Order, end: nat, s: Blocks, n: nat) {
    var p := At(b0, so, n);
    && |s.order| == |s0.order| && |s.free| == LISTS && p <= end <= |s.order| && Sound(s)
    && Live(s) == AddRun(Live(s0), b0, so, n) && RunFresh(Live(s0), b0, so, n)
    && Total(s.free) + p == Total(s0.free) + b0
    && (p < end ==> Head(s.order, p)) && FreeTail(s, so, p, end)
  }

  /** The next block, at p, has been taken and is being halved down to order so. */
  ghost predicate Halving(s0: Blocks, b0: nat, so: Order, end: nat, s: Blocks, n: nat) {
    var p := At(b0, so, n);
    && |s.order| == |s0.order| && |s.free| == LISTS && p < end <= |s.order| && s.order[p] >= so
    && Sound(s) && p in Live(s)
    && Live(s) == AddRun(Live(s0), b0, so, n)[p := s.order[p]]
    && RunFresh(Live(s0), b0, so, n) && p !in Live(s0)
    && Total(s.free) + p + Span(s.order[p]) == Total(s0.free) + b0
    && FreeTail(s, so, p + 1, end)
  }

  lemma CarveStart(s: Blocks, b0: nat, so: Order)
    requires Sound(s) && b0 < |s.order| && InQueue(s, b0) && so <= s.order[b0]
    ensures Carved(s, b0, so, b0 + Span(s.order[b0]), s, 0)
  {
    QueuedIsHead(s, b0);
    var end := b0 + Span(s.order[b0]);
    if end < |s.order| { NextIsHead(s.order, b0); }
    forall h: nat | Head(s.order, h) && b0 <= h < end ensures h == b0 {
      if h != b0 { NestedInHead(s.order, b0, h); }
    }
  }

  lemma CarveTake(s0: Blocks, b0: nat, so: Order, end: nat, s: Blocks, n: nat)
    requires Carved(s0, b0, so, end, s, n) && At(b0, so, n) < end
    ensures InQueue(s, At(b0, so, n))
    ensures Halving(s0, b0, so, end, Unlink(s, At(b0, so, n)), n)
  {
    var p := At(b0, so, n);
    assert InQueue(s, p);
    TakeStep(s, p);
    UnlinkTotal(s, p);
    AddRunKeeps(Live(s0), b0, so, n);
    assert FreeTail(Unlink(s, p), so, p + 1, end);
  }

  lemma CarveHalve(s0: Blocks, b0: nat, so: Order, end: nat, s: Blocks, n: nat, p: nat, c: nat)
    requires Halving(s0, b0, so, end, s, n) && p == At(b0, so, n) && s.order[p] > so
    requires c == FlipBit(p, s.order[p] - 1 - MIN_ORDER)
    ensures c < |s.order| && c > p && !InQueue(s, c) && s.order[c] == s.order[p] - 1
    ensures Halving(s0, b0, so, end, Push(SetOrder(s, p, s.order[p] - 1), c), n)
  {
    hide Sound, Head, InQueue, AddRun, RunFresh, Total;
    SplitStep(s, p, c);
    PushTotal(SetOrder(s, p, s.order[p] - 1), c);
    HalveTail(s, Split(s, p), so, p, c, end);
  }

  lemma HalveTail(s: Blocks, t: Blocks, so: Order, p: nat, c: nat, end: nat)
    requires FreeTail(s, so, p + 1, end) && p < |s.order| && s.order[p] > so
    requires t.order == s.order[p := s.order[p] - 1] && c < |s.order| && s.order[c] == s.order[p] - 1
    requires forall j: nat :: Head(t.order, j) <==> Head(s.order, j) || j == c
    requires forall j :: InQueue(t, j) <==> InQueue(s, j) || j == c
    ensures FreeTail(t, so, p + 1, end)
  {
  }

  lemma CarveNext(s0: Blocks, b0: nat, so: Order, end: nat, s: Blocks, n: nat)
    requires Halving(s0, b0, so, end, s, n) && s.order[At(b0, so, n)] == so
    ensures Carved(s0, b0, so, end, s, n + 1)
  {
    var p := At(b0, so, n);
    assert p + Span(so) <= end;
    if p + Span(so) < end { NextIsHead(s.order, p); }
  }

  /** Invariant of the release loop: b stands for the block being released. */
  ghost predicate Releasing(s0: Blocks, b0: nat, s: Blocks, b: nat)
    requires b0 < |s0.order|
  {
    && Sound(s) && |s.order| == |s0.order| && b in Live(s)
    && Live(s) - {b} == Live(s0) - {b0}
    && Total(s.free) + Span(s.order[b]) == Total(s0.free) + Span(s0.order[b0])
  }

  lemma ReleaseMerges(s0: Blocks, b0: nat, s: Blocks, b: nat)
    requires b0 < |s0.order| && Releasing(s0, b0, s, b) && s.order[b] < MAX_ORDER && BuddyOf(s, b) < |s.order|
    requires InQueue(s, BuddyOf(s, b)) && s.order[BuddyOf(s, b)] == s.order[b]
    ensures var c := BuddyOf(s, b);
            Releasing(s0, b0, Merge(s, b, c), if b < c then b else c)
  {
    hide Sound, Live, InQueue, FlipBit, Total;
    MergeStep(s, b);
    ReleaseBuddy(s0, b0, s, b);
    UnlinkTotal(s, BuddyOf(s, b));
  }

  lemma ReleaseStarts(s0: Blocks, b0: nat)
    requires Sound(s0) && b0 in Live(s0)
    ensures b0 < |s0.order| && |s0.free| == LISTS && Releasing(s0, b0, s0, b0)
  {
  }

  lemma ReleaseBuddy(s0: Blocks, b0: nat, s: Blocks, b: nat)
    requires b0 < |s0.order| && Releasing(s0, b0, s, b)
    ensures b < |s.order| && |s.free| == LISTS && Listed(s) && (BuddyOf(s, b) < |s.order| ==> s.order[BuddyOf(s, b)] <= s.order[b])
  {
    if BuddyOf(s, b) < |s.order| { BuddyIsHead(s.order, b); }
  }

  lemma ReleasePuts(s0: Blocks, b0: nat, s: Blocks, b: nat)
    requires b0 < |s0.order| && Releasing(s0, b0, s, b) && CannotMerge(s, b)
    ensures Sound(Push(s, b)) && Live(Push(s, b)) == Live(s0) - {b0}
    ensures Total(Push(s, b).free) == Total(s0.free) + Span(s0.order[b0])
  {
    PutStep(s, b);
    PushTotal(s, b);
  }

  lemma {:induction false} EmptyTotal(f: seq<seq<nat>>)
    requires forall q :: 0 <= q < |f| ==> f[q] == []
    ensures Total(f) == 0
  {
    if f != [] { EmptyTotal(f[..|f| - 1]); }
  }
}
