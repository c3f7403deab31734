/** The buddy allocator as a value: the order recorded for every index and the
    free list of every order.  A block head is an index no earlier block reaches
    past; every other index is covered and keeps the order it had when it was
    merged away, which later splits rely on. */
module Buddy {
  import opened Common
  import opened Dyadic

  const MIN_ORDER := 12
  const MAX_ORDER := 30
  const LISTS := MAX_ORDER - MIN_ORDER + 1

  type Order = o: int | MIN_ORDER <= o <= MAX_ORDER witness MIN_ORDER

  /** Number of minimal blocks in a block of order o. */
  function Span(o: Order): nat { Pow2(o - MIN_ORDER) }

  datatype Blocks = Blocks(order: seq<Order>, free: seq<seq<nat>>)

  // ---------- layout: what the recorded orders mean ----------

  ghost predicate Head(ord: seq<Order>, i: nat) {
    i < |ord| && forall j: nat :: j < i ==> j + Span(ord[j]) <= i
  }

  lemma HeadsInRange(ord: seq<Order>)
    ensures forall j: nat :: Head(ord, j) ==> j < |ord|
  {
  }

  ghost predicate Laid(ord: seq<Order>) {
    && (forall i: nat :: i < |ord| ==> Aligned(i, ord[i] - MIN_ORDER) && i + Span(ord[i]) <= |ord|)
    && (forall i: nat :: i < |ord| && !Head(ord, i) ==> Bit(i, ord[i] - MIN_ORDER))
  }

  /** The range of any index inside a head's block stays inside that block. */
  lemma NestedInHead(ord: seq<Order>, h: nat, i: nat)
    requires Laid(ord) && Head(ord, h) && h <= i < h + Span(ord[h])
    ensures i < |ord| && i + Span(ord[i]) <= h + Span(ord[h])
    ensures i != h ==> !Head(ord, i) && ord[i] < ord[h]
  {
    if i != h {
      assert !Head(ord, i);
      if ord[i] >= ord[h] { Laminar(h, ord[h] - MIN_ORDER, i, ord[i] - MIN_ORDER); }
      Laminar(i, ord[i] - MIN_ORDER, h, ord[h] - MIN_ORDER);
    }
  }

  /** Some head covers every index. */
  lemma {:induction false} CoveringHead(ord: seq<Order>, i: nat) returns (h: nat)
    requires Laid(ord) && i < |ord|
    ensures h <= i && Head(ord, h) && i < h + Span(ord[h])
  {
    if Head(ord, i) {
      h := i;
    } else {
      var j: nat :| j < i && j + Span(ord[j]) > i;
      h := CoveringHead(ord, j);
      NestedInHead(ord, h, j);
    }
  }

  /** Block heads partition the index range. */
  lemma Partition(ord: seq<Order>, i: nat)
    requires Laid(ord) && i < |ord|
    ensures exists h: nat :: h <= i && Head(ord, h) && i < h + Span(ord[h])
    ensures forall g: nat, h: nat ::
              Head(ord, g) && Head(ord, h) && g <= i < g + Span(ord[g]) && h <= i < h + Span(ord[h]) ==> g == h
  {
    var h := CoveringHead(ord, i);
  }

  lemma NextIsHead(ord: seq<Order>, h: nat)
    requires Laid(ord) && Head(ord, h) && h + Span(ord[h]) < |ord|
    ensures Head(ord, h + Span(ord[h]))
  {
    var n := h + Span(ord[h]);
    var g := CoveringHead(ord, n);
    assert h < g ==> n <= g;
  }

  /** The buddy of a head is itself a head and never larger. */
  lemma BuddyIsHead(ord: seq<Order>, b: nat)
    requires Laid(ord) && Head(ord, b) && FlipBit(b, ord[b] - MIN_ORDER) < |ord|
    ensures var c := FlipBit(b, ord[b] - MIN_ORDER);
            Head(ord, c) && ord[c] <= ord[b]
  {
    var k := ord[b] - MIN_ORDER;
    var c := FlipBit(b, k);
    FlipBitMoves(b, k);
    AlignedFlip(b, k);
    AlignedSucc(b, k);
    AlignedSucc(c, k);
    var low := if b < c then b else c;
    assert Aligned(low, k + 1);
    var h := CoveringHead(ord, c);
    var oh := ord[h] - MIN_ORDER;
    if oh > k { Laminar(low, k + 1, h, oh); }
    if h != c {
      NestedInHead(ord, h, c);
      if ord[c] - MIN_ORDER < k { AlignedWeaken(c, k, ord[c] - MIN_ORDER); }
    }
  }

  /** The upper half of a head is covered and its stale order is the one a split needs. */
  lemma SplitPoint(ord: seq<Order>, i: nat)
    requires Laid(ord) && Head(ord, i) && ord[i] > MIN_ORDER
    ensures var c := FlipBit(i, ord[i] - 1 - MIN_ORDER);
            && c == i + Span(ord[i] - 1) && c + Span(ord[i] - 1) == i + Span(ord[i])
            && c < |ord| && ord[c] == ord[i] - 1 && !Head(ord, c)
  {
    var k := ord[i] - 1 - MIN_ORDER;
    var c := FlipBit(i, k);
    AlignedWeaken(i, k + 1, k);
    FlipBitMoves(i, k);
    AlignedFlip(i, k);
    NestedInHead(ord, i, c);
    TrailingZerosUnique(c, k, ord[c] - MIN_ORDER);
  }

  /** No index below the split point reaches past it once the head is halved. */
  lemma SplitBelow(ord: seq<Order>, i: nat, c: nat, m: nat)
    requires Laid(ord) && Head(ord, i) && ord[i] > MIN_ORDER
    requires c == i + Span(ord[i] - 1) && c < |ord| && ord[c] == ord[i] - 1
    requires m < c && m != i
    ensures m + Span(ord[m]) <= c
  {
    var k := ord[c] - MIN_ORDER;
    if i < m {
      NestedInHead(ord, i, m);
      AlignedWeaken(i, k + 1, k);
      if ord[m] - MIN_ORDER >= k { Laminar(i, k, m, ord[m] - MIN_ORDER); }
      Laminar(m, ord[m] - MIN_ORDER, c, k);
    }
  }

  /** Halving a head uncovers exactly its upper half. */
  lemma SplitHeads(ord: seq<Order>, i: nat, c: nat, j: nat)
    requires Laid(ord) && Head(ord, i) && ord[i] > MIN_ORDER
    requires c == i + Span(ord[i] - 1) && c + Span(ord[i] - 1) == i + Span(ord[i])
    requires c < |ord| && ord[c] == ord[i] - 1
    ensures Head(ord[i := ord[i] - 1], j) <==> Head(ord, j) || j == c
  {
    var ord' := ord[i := ord[i] - 1];
    assert forall m: nat :: m < |ord| && m != i ==> ord'[m] == ord[m];
    if j == c {
      forall m: nat | m < c ensures m + Span(ord'[m]) <= c {
        if m != i { SplitBelow(ord, i, c, m); }
      }
    } else if Head(ord', j) {
      assert i < j ==> i + Span(ord'[i]) <= j;
      assert c < j ==> c + Span(ord'[c]) <= j;
    }
  }

  lemma SplitLayout(ord: seq<Order>, i: nat)
    requires Laid(ord) && Head(ord, i) && ord[i] > MIN_ORDER
    ensures var c := FlipBit(i, ord[i] - 1 - MIN_ORDER);
            var ord' := ord[i := ord[i] - 1];
            && c == i + Span(ord[i] - 1) && c < |ord| && ord[c] == ord[i] - 1 && !Head(ord, c)
            && Laid(ord')
            && forall j: nat :: Head(ord', j) <==> Head(ord, j) || j == c
  {
    var c := FlipBit(i, ord[i] - 1 - MIN_ORDER);
    var ord' := ord[i := ord[i] - 1];
    SplitPoint(ord, i);
    forall j: nat ensures Head(ord', j) <==> Head(ord, j) || j == c { SplitHeads(ord, i, c, j); }
    AlignedWeaken(i, ord[i] - MIN_ORDER, ord[i] - 1 - MIN_ORDER);
    RelaidOne(ord, i, ord[i] - 1, {});
  }

  /** Changing the order of one head keeps the layout, given what happened to the heads. */
  lemma RelaidOne(ord: seq<Order>, i: nat, o: Order, gone: set<nat>)
    requires Laid(ord) && Head(ord, i) && Aligned(i, o - MIN_ORDER) && i + Span(o) <= |ord| && i !in gone
    requires forall j: nat :: Head(ord, j) && j !in gone ==> Head(ord[i := o], j)
    requires forall j: nat :: j in gone && j < |ord| ==> Bit(j, ord[j] - MIN_ORDER)
    ensures Laid(ord[i := o])
  {
    hide Head, Span, Aligned, Bit;
    HeadsInRange(ord);
    var ord' := ord[i := o];
    forall j: nat | j < |ord'|
      ensures Aligned(j, ord'[j] - MIN_ORDER) && j + Span(ord'[j]) <= |ord'|
      ensures !Head(ord', j) ==> Bit(j, ord'[j] - MIN_ORDER)
    {
      if j != i { assert ord'[j] == ord[j]; }
    }
  }

  /** Doubling the lower of two equal buddies covers exactly the upper one. */
  lemma MergeHeads(ord: seq<Order>, lo: nat, hi: nat, j: nat)
    requires Laid(ord) && Head(ord, lo) && Head(ord, hi) && ord[lo] == ord[hi] < MAX_ORDER
    requires hi == lo + Span(ord[lo])
    ensures Head(ord[lo := ord[lo] + 1], j) <==> Head(ord, j) && j != hi
  {
    var ord' := ord[lo := ord[lo] + 1];
    assert forall m: nat :: m < |ord| && m != lo ==> ord'[m] == ord[m];
    assert Span(ord'[lo]) == 2 * Span(ord[lo]);
    if Head(ord', j) {
      assert lo < j ==> lo + Span(ord'[lo]) <= j;
    }
  }

  lemma MergeLayout(ord: seq<Order>, lo: nat, hi: nat)
    requires Laid(ord) && Head(ord, lo) && Head(ord, hi) && ord[lo] == ord[hi] < MAX_ORDER
    requires lo < hi == FlipBit(lo, ord[lo] - MIN_ORDER)
    ensures var ord' := ord[lo := ord[lo] + 1];
            Laid(ord') && forall j: nat :: Head(ord', j) <==> Head(ord, j) && j != hi
  {
    hide Head, FlipBit, Bit, Aligned;
    HeadsInRange(ord);
    var k := ord[lo] - MIN_ORDER;
    var ord' := ord[lo := ord[lo] + 1];
    FlipBitMoves(lo, k);
    AlignedSucc(lo, k);
    forall j: nat ensures Head(ord', j) <==> Head(ord, j) && j != hi { MergeHeads(ord, lo, hi, j); }
    RelaidOne(ord, lo, ord[lo] + 1, {hi});
  }

  lemma GrowLayout(ord: seq<Order>)
    requires Laid(ord)
    ensures Laid(ord + [MIN_ORDER])
    ensures forall j: nat :: Head(ord + [MIN_ORDER], j) <==> Head(ord, j) || j == |ord|
  {
    var ord' := ord + [MIN_ORDER];
    assert forall m: nat :: m < |ord| ==> ord'[m] == ord[m];
  }

  // ---------- free lists ----------

  /** `IS_IN_DQUEUE`: the block is linked into some free list. */
  predicate InQueue(s: Blocks, i: nat) {
    exists q :: 0 <= q < |s.free| && i in s.free[q]
  }

  /** Each free list holds heads of its own order, each once. */
  ghost predicate Listed(s: Blocks) {
    && |s.free| == LISTS
    && (forall q, x :: 0 <= q < LISTS && x in s.free[q] ==> Head(s.order, x) && s.order[x] == q + MIN_ORDER)
    && (forall q :: 0 <= q < LISTS ==> NoDup(s.free[q]))
  }

  function BuddyOf(s: Blocks, i: nat): nat
    requires i < |s.order|
  {
    FlipBit(i, s.order[i] - MIN_ORDER)
  }

  /** A free block whose buddy is free and of the same order. */
  ghost predicate Uncoalesced(s: Blocks, i: nat) {
    && i < |s.order| && InQueue(s, i) && s.order[i] < MAX_ORDER
    && BuddyOf(s, i) < |s.order| && InQueue(s, BuddyOf(s, i)) && s.order[BuddyOf(s, i)] == s.order[i]
  }

  /** No free block below the maximum order has a free buddy of the same order. */
  ghost predicate Coalesced(s: Blocks) {
    forall i: nat :: !Uncoalesced(s, i)
  }

  ghost predicate Sound(s: Blocks) {
    Laid(s.order) && Listed(s) && Coalesced(s)
  }

  /** The blocks handed out: heads that are not free, with their order. */
  ghost function Live(s: Blocks): map<nat, Order> {
    map i: nat | i < |s.order| && Head(s.order, i) && !InQueue(s, i) :: s.order[i]
  }

  function Push(s: Blocks, i: nat): Blocks
    requires i < |s.order| && |s.free| == LISTS
  {
    var q := s.order[i] - MIN_ORDER;
    s.(free := s.free[q := [i] + s.free[q]])
  }

  function Unlink(s: Blocks, i: nat): Blocks
    requires i < |s.order| && |s.free| == LISTS
  {
    var q := s.order[i] - MIN_ORDER;
    s.(free := s.free[q := Without(s.free[q], i)])
  }

  function SetOrder(s: Blocks, i: nat, o: Order): Blocks
    requires i < |s.order|
  {
    s.(order := s.order[i := o])
  }

  lemma QueuedAreHeads(s: Blocks)
    requires Listed(s)
    ensures |s.free| == LISTS && forall j: nat :: InQueue(s, j) ==> Head(s.order, j) && j < |s.order|
  {
    forall j: nat | InQueue(s, j) ensures Head(s.order, j) && j < |s.order| {
      var q :| 0 <= q < |s.free| && j in s.free[q];
    }
  }

  /** Changing the order of a block that is not free disturbs no list. */
  lemma Relisted(s: Blocks, i: nat, o: Order)
    requires Listed(s) && i < |s.order| && !InQueue(s, i)
    requires forall j: nat :: Head(s.order, j) ==> Head(s.order[i := o], j)
    ensures Listed(SetOrder(s, i, o)) && forall j :: InQueue(SetOrder(s, i, o), j) <==> InQueue(s, j)
  {
    hide Head;
    var r := SetOrder(s, i, o);
    HeadsInRange(r.order);
    assert forall j :: InQueue(r, j) <==> InQueue(s, j);
    forall q, x | 0 <= q < LISTS && x in r.free[q] ensures Head(r.order, x) && r.order[x] == q + MIN_ORDER {
      assert InQueue(s, x) && Head(s.order, x);
    }
  }

  lemma InOwnList(s: Blocks, i: nat)
    requires Listed(s) && i < |s.order|
    ensures InQueue(s, i) <==> i in s.free[s.order[i] - MIN_ORDER]
  {
  }

  lemma PushSpec(s: Blocks, i: nat)
    requires Listed(s) && Head(s.order, i) && !InQueue(s, i)
    ensures Listed(Push(s, i))
    ensures forall j :: InQueue(Push(s, i), j) <==> InQueue(s, j) || j == i
  {
    var t, q := Push(s, i), s.order[i] - MIN_ORDER;
    assert i in t.free[q];
    forall j ensures InQueue(t, j) <==> InQueue(s, j) || j == i {
      if InQueue(s, j) {
        var p :| 0 <= p < |s.free| && j in s.free[p];
        assert j in t.free[p];
      }
    }
  }

  lemma UnlinkSpec(s: Blocks, i: nat)
    requires Listed(s) && i < |s.order| && InQueue(s, i)
    ensures Listed(Unlink(s, i))
    ensures forall j :: InQueue(Unlink(s, i), j) <==> InQueue(s, j) && j != i
  {
    var t, q := Unlink(s, i), s.order[i] - MIN_ORDER;
    WithoutSpec(s.free[q], i);
    forall j ensures InQueue(t, j) <==> InQueue(s, j) && j != i {
      if InQueue(s, j) && j != i {
        var p :| 0 <= p < |s.free| && j in s.free[p];
        assert j in t.free[p];
      }
    }
  }

  // ---------- the elementary steps and what each keeps ----------

  /** Taking a free block off its list makes it live. */
  lemma TakeStep(s: Blocks, i: nat)
    requires Sound(s) && i < |s.order| && InQueue(s, i)
    ensures var t := Unlink(s, i);
            && Sound(t) && i !in Live(s) && Live(t) == Live(s)[i := s.order[i]]
            && forall j :: InQueue(t, j) <==> InQueue(s, j) && j != i
  {
    UnlinkSpec(s, i);
    var t := Unlink(s, i);
    forall j: nat ensures !Uncoalesced(t, j) { assert !Uncoalesced(s, j); }
  }

  /** Splitting a live block leaves the lower half live and frees the upper half. */
  ghost function Split(s: Blocks, i: nat): Blocks
    requires i < |s.order| && s.order[i] > MIN_ORDER && |s.free| == LISTS
    requires FlipBit(i, s.order[i] - 1 - MIN_ORDER) < |s.order|
  {
    Push(SetOrder(s, i, s.order[i] - 1), FlipBit(i, s.order[i] - 1 - MIN_ORDER))
  }

  lemma SplitQueues(s: Blocks, i: nat, c: nat)
    requires Sound(s) && i in Live(s) && s.order[i] > MIN_ORDER
    requires c == FlipBit(i, s.order[i] - 1 - MIN_ORDER) && c < |s.order| && c != i && !Head(s.order, c)
    requires forall j: nat :: Head(s.order[i := s.order[i] - 1], j) <==> Head(s.order, j) || j == c
    ensures Listed(Split(s, i)) && !InQueue(s, c)
    ensures forall j :: InQueue(Split(s, i), j) <==> InQueue(s, j) || j == c
  {
    hide Head, FlipBit, Laid, Coalesced, Listed, InQueue;
    var r := SetOrder(s, i, s.order[i] - 1);
    QueuedAreHeads(s);
    Relisted(s, i, s.order[i] - 1);
    PushSpec(r, c);
  }

  lemma SplitCoalesced(s: Blocks, i: nat, c: nat)
    requires Coalesced(s) && i < |s.order| && !InQueue(s, i) && s.order[i] > MIN_ORDER && |s.free| == LISTS
    requires c == FlipBit(i, s.order[i] - 1 - MIN_ORDER) && c < |s.order| && s.order[c] == s.order[i] - 1
    requires forall j :: InQueue(Split(s, i), j) <==> InQueue(s, j) || j == c
    ensures Coalesced(Split(s, i))
  {
    hide InQueue, FlipBit, Pow2;
    var t := Split(s, i);
    FlipBitMoves(i, s.order[i] - 1 - MIN_ORDER);
    forall j: nat | j < |s.order| ensures !Uncoalesced(t, j) {
      FlipBitMoves(j, t.order[j] - MIN_ORDER);
      assert !Uncoalesced(s, j);
    }
  }

  lemma SplitLive(s: Blocks, t: Blocks, i: nat, c: nat, o: Order)
    requires i in Live(s) && t.order == s.order[i := o] && !Head(s.order, c)
    requires forall j: nat :: Head(t.order, j) <==> Head(s.order, j) || j == c
    requires forall j :: InQueue(t, j) <==> InQueue(s, j) || j == c
    requires i != c
    ensures Live(t) == Live(s)[i := o]
  {
    hide InQueue, Head;
  }

  lemma SplitStep(s: Blocks, i: nat, c: nat)
    requires Sound(s) && i in Live(s) && s.order[i] > MIN_ORDER
    requires c == FlipBit(i, s.order[i] - 1 - MIN_ORDER)
    ensures c < |s.order| && c == i + Span(s.order[i] - 1) && s.order[c] == s.order[i] - 1 && !InQueue(s, c)
    ensures Sound(Split(s, i)) && Live(Split(s, i)) == Live(s)[i := s.order[i] - 1]
    ensures forall j: nat :: Head(Split(s, i).order, j) <==> Head(s.order, j) || j == c
    ensures forall j :: InQueue(Split(s, i), j) <==> InQueue(s, j) || j == c
  {
    hide Laid, Coalesced, Head, InQueue, FlipBit;
    HeadsInRange(s.order);
    SplitLayout(s.order, i);
    SplitQueues(s, i, c);
    SplitCoalesced(s, i, c);
    SplitLive(s, Split(s, i), i, c, s.order[i] - 1);
  }

  /** Merging a live block with its free buddy of equal order leaves the lower one live. */
  ghost function Merge(s: Blocks, b: nat, c: nat): Blocks
    requires b < |s.order| && c < |s.order| && |s.free| == LISTS
    requires s.order[if b < c then b else c] < MAX_ORDER
  {
    var lo := if b < c then b else c;
    SetOrder(Unlink(s, c), lo, s.order[lo] + 1)
  }

  lemma MergeQueues(s: Blocks, b: nat, c: nat)
    requires Listed(s) && b < |s.order| && c < |s.order| && b != c && InQueue(s, c) && !InQueue(s, b)
    requires s.order[b] == s.order[c] < MAX_ORDER
    requires var lo := if b < c then b else c;
             forall j: nat :: Head(s.order[lo := s.order[lo] + 1], j) <==> Head(s.order, j) && j != b + c - lo
    ensures Listed(Merge(s, b, c))
    ensures forall j :: InQueue(Merge(s, b, c), j) <==> InQueue(s, j) && j != c
  {
    hide Head, Without;
    UnlinkSpec(s, c);
    var u, t := Unlink(s, c), Merge(s, b, c);
    HeadsInRange(t.order);
    assert forall j :: InQueue(t, j) <==> InQueue(u, j);
    forall q, x | 0 <= q < LISTS && x in t.free[q] ensures Head(t.order, x) && t.order[x] == q + MIN_ORDER {
      assert x in u.free[q] && InQueue(u, x) && InQueue(s, x);
      assert x != b && x != c;
      assert Head(u.order, x) && u.order == s.order;
    }
  }

  lemma MergeCoalesced(s: Blocks, b: nat, c: nat)
    requires Coalesced(s) && |s.free| == LISTS && b < |s.order| && c < |s.order| && !InQueue(s, b)
    requires s.order[c] == s.order[b] < MAX_ORDER
    requires forall j :: InQueue(Merge(s, b, c), j) <==> InQueue(s, j) && j != c
    ensures Coalesced(Merge(s, b, c))
  {
    hide InQueue, FlipBit;
    var t := Merge(s, b, c);
    forall j: nat ensures !Uncoalesced(t, j) { assert !Uncoalesced(s, j); }
  }

  lemma MergeLive(s: Blocks, t: Blocks, b: nat, c: nat, lo: nat)
    requires b in Live(s) && InQueue(s, c) && (lo == b || lo == c) && b != c && Head(s.order, lo)
    requires s.order[lo] < MAX_ORDER && t.order == s.order[lo := s.order[lo] + 1]
    requires forall j: nat :: Head(t.order, j) <==> Head(s.order, j) && j != b + c - lo
    requires forall j :: InQueue(t, j) <==> InQueue(s, j) && j != c
    ensures lo in Live(t) && Live(t) - {lo} == Live(s) - {b}
  {
    hide InQueue, Head;
    HeadsInRange(s.order);
  }

  lemma MergeStep(s: Blocks, b: nat)
    requires Sound(s) && b in Live(s) && s.order[b] < MAX_ORDER && BuddyOf(s, b) < |s.order|
    requires InQueue(s, BuddyOf(s, b)) && s.order[BuddyOf(s, b)] == s.order[b]
    ensures var c := BuddyOf(s, b);
            var lo := if b < c then b else c;
            var t := Merge(s, b, c);
            && Sound(t) && lo in Live(t) && t.order[lo] == s.order[b] + 1
            && Live(t) - {lo} == Live(s) - {b}
            && (forall j :: InQueue(t, j) <==> InQueue(s, j) && j != c)
  {
    hide Laid, Listed, Coalesced, Head, InQueue, FlipBit;
    var c := BuddyOf(s, b);
    QueuedAreHeads(s);
    var lo, hi := if b < c then b else c, if b < c then c else b;
    FlipBitMoves(b, s.order[b] - MIN_ORDER);
    MergeLayout(s.order, lo, hi);
    MergeQueues(s, b, c);
    MergeCoalesced(s, b, c);
    MergeLive(s, Merge(s, b, c), b, c, lo);
  }

  /** The condition on which the release loop stops. */
  ghost predicate CannotMerge(s: Blocks, b: nat)
    requires b < |s.order|
  {
    s.order[b] == MAX_ORDER || BuddyOf(s, b) >= |s.order| ||
    !InQueue(s, BuddyOf(s, b)) || s.order[BuddyOf(s, b)] != s.order[b]
  }

  lemma PutCoalesced(s: Blocks, b: nat)
    requires Coalesced(s) && |s.free| == LISTS && b < |s.order| && CannotMerge(s, b)
    requires forall j :: InQueue(Push(s, b), j) <==> InQueue(s, j) || j == b
    ensures Coalesced(Push(s, b))
  {
    hide InQueue, FlipBit, Pow2;
    var t := Push(s, b);
    forall j: nat | j < |s.order| ensures !Uncoalesced(t, j) {
      FlipBitMoves(j, t.order[j] - MIN_ORDER);
      assert !Uncoalesced(s, j);
    }
  }

  /** Linking a live block that cannot merge frees it. */
  lemma PutStep(s: Blocks, b: nat)
    requires Sound(s) && b in Live(s) && CannotMerge(s, b)
    ensures var t := Push(s, b);
            Sound(t) && Live(t) == Live(s) - {b} && (forall j :: InQueue(t, j) <==> InQueue(s, j) || j == b)
  {
    PushSpec(s, b);
    PutCoalesced(s, b);
  }

  /** A new last block starts live. */
  ghost function Grow(s: Blocks): Blocks { s.(order := s.order + [MIN_ORDER]) }

  lemma GrowCoalesced(s: Blocks)
    requires Listed(s) && Coalesced(s)
    ensures Coalesced(Grow(s))
  {
    hide Head, FlipBit;
    var t := Grow(s);
    QueuedAreHeads(s);
    assert forall j :: InQueue(t, j) <==> InQueue(s, j);
    forall j: nat | j < |t.order| ensures !Uncoalesced(t, j) {
      assert !Uncoalesced(s, j);
    }
  }

  lemma GrowStep(s: Blocks)
    requires Sound(s)
    ensures var t := Grow(s);
            && Sound(t) && |s.order| !in Live(s) && Live(t) == Live(s)[|s.order| := MIN_ORDER]
            && forall j :: InQueue(t, j) <==> InQueue(s, j)
  {
    var t := Grow(s);
    GrowLayout(s.order);
    GrowCoalesced(s);
    GrowListed(s);
    GrowLive(s, t);
  }

  lemma GrowListed(s: Blocks)
    requires Listed(s)
    requires forall j: nat :: Head(s.order + [MIN_ORDER], j) <==> Head(s.order, j) || j == |s.order|
    ensures Listed(Grow(s)) && !InQueue(s, |s.order|)
    ensures forall j :: InQueue(Grow(s), j) <==> InQueue(s, j)
  {
    assert forall j :: InQueue(Grow(s), j) <==> InQueue(s, j);
    assert !Head(s.order, |s.order|);
  }

  lemma GrowLive(s: Blocks, t: Blocks)
    requires t.order == s.order + [MIN_ORDER] && !InQueue(s, |s.order|)
    requires forall j: nat :: Head(t.order, j) <==> Head(s.order, j) || j == |s.order|
    requires forall j :: InQueue(t, j) <==> InQueue(s, j)
    ensures Live(t) == Live(s)[|s.order| := MIN_ORDER]
  {
    assert Live(t).Keys == Live(s).Keys + {|s.order|};
  }
}
