/** Linear address blocks: a growable buddy arena whose blocks carry a status. */
module LinearBlock {
  import opened Arith
  import opened Common
  import opened Dyadic
  import opened Buddy
  import opened BuddyTheorems
  import opened BuddyManager

  datatype Status = FreeOrCovered | Using | Locked

  /** `CEIL(a, b)`. */
  function Ceil(a: nat, b: nat): nat
    requires b > 0
  {
    ((a + (b - 1)) / b) * b
  }

  lemma CeilSpec(a: nat, k: nat)
    ensures a <= Ceil(a, Pow2(k)) < a + Pow2(k) && Aligned(Ceil(a, Pow2(k)), k)
  {
    AlignedIsDivisible(Ceil(a, Pow2(k)), k);
  }

  // ---------- lemmas about the walk, the sweep and growth ----------

  /** From a covered index, the buddy is lower and its recorded order is larger, and it stays in the block. */
  lemma WalkStep(ord: seq<Order>, h: nat, i: nat)
    requires Laid(ord) && Head(ord, h) && h < i < h + Span(ord[h])
    ensures var c := FlipBit(i, ord[i] - MIN_ORDER);
            h <= c < i && ord[c] > ord[i] && c < h + Span(ord[h])
  {
    hide FlipBit, Aligned;
    var k := ord[i] - MIN_ORDER;
    var c := FlipBit(i, k);
    NestedInHead(ord, h, i);
    FlipBitMoves(i, k);
    AlignedFlip(i, k);
    AlignedSucc(c, k);
    Laminar(c, k + 1, h, ord[h] - MIN_ORDER);
    if c != h {
      NestedInHead(ord, h, c);
      if ord[c] <= ord[i] { AlignedWeaken(c, k + 1, ord[c] - MIN_ORDER); }
    }
  }

  /** The one head that covers an index. */
  lemma UniqueCover(s: Blocks, i: nat) returns (h: nat)
    requires Sound(s) && i < |s.order|
    ensures Laid(s.order) && Head(s.order, h) && h < |s.order| && h <= i < h + Span(s.order[h])
    ensures forall g: nat :: Head(s.order, g) && g < |s.order| && g <= i < g + Span(s.order[g]) ==> g == h
  {
    h := CoveringHead(s.order, i);
    Partition(s.order, i);
  }

  /** At the head the walk stops; anywhere else in the block it moves down inside the block. */
  lemma WalkDecides(ord: seq<Order>, h: nat, i: nat)
    requires Laid(ord) && Head(ord, h) && h <= i < h + Span(ord[h]) && i < |ord|
    ensures var c := FlipBit(i, ord[i] - MIN_ORDER);
            && (i == h ==> c >= |ord| || ord[c] <= ord[i])
            && (i != h ==> h <= c < i && c < |ord| && ord[c] > ord[i] && c < h + Span(ord[h]))
  {
    if i == h {
      if FlipBit(i, ord[i] - MIN_ORDER) < |ord| { BuddyIsHead(ord, i); }
    } else {
      WalkStep(ord, h, i);
    }
  }

  ghost predicate LiveFrom(s: Blocks, i: nat) {
    forall g: nat :: g in Live(s) ==> i <= g
  }

  /** Stepping by the recorded order of an index that is not live skips no live block. */
  lemma SweepStep(s: Blocks, i: nat)
    requires Sound(s) && i < |s.order| && i !in Live(s) && LiveFrom(s, i)
    ensures i + Span(s.order[i]) <= |s.order| && LiveFrom(s, i + Span(s.order[i]))
  {
    var h := LiveOrFree(s, i);
    NestedInHead(s.order, h, i);
    forall g: nat | g in Live(s) ensures i + Span(s.order[i]) <= g {
      if g < i + Span(s.order[i]) && g != h { NestedInHead(s.order, h, g); }
    }
  }

  /** Indices added beyond the live blocks are free. */
  lemma GrownIsFree(s0: Blocks, s: Blocks, i: nat)
    requires Sound(s0) && Sound(s) && Live(s) == Live(s0) && |s0.order| <= i < |s.order|
    ensures FreeAt(s, i)
  {
    var h: nat := LiveOrFree(s, i);
  }

  /** After growing past the next aligned run of the rounded size, the allocation finds a block. */
  lemma GrowthSuffices(s0: Blocks, s: Blocks, k: nat)
    requires Sound(s0) && Sound(s) && Live(s) == Live(s0) && k < LISTS
    requires |s.order| >= Ceil(|s0.order|, Pow2(k)) + Pow2(k)
    ensures !NoneFree(s, k)
  {
    var a := Ceil(|s0.order|, Pow2(k));
    CeilSpec(|s0.order|, k);
    forall i: nat | a <= i < a + Pow2(k) ensures FreeAt(s, i) { GrownIsFree(s0, s, i); }
    assert FreeRun(s, a, k);
    FailsOnlyWithoutRun(s, k);
  }

  /** With nothing live, every index is in a free block. */
  lemma NothingLive(s: Blocks, i: nat)
    requires Sound(s) && LiveFrom(s, |s.order|) && i < |s.order|
    ensures FreeAt(s, i)
  {
    var h := LiveOrFree(s, i);
  }

  lemma SweptIsEmpty(s: Blocks)
    requires LiveFrom(s, |s.order|)
    ensures Live(s) == map[]
  {
    assert Live(s).Keys == {};
  }

  /** Index and address translation are inverse on block boundaries. */
  lemma AddressRoundTrip(begin: nat, i: nat)
    requires begin % MIN_BLOCK_SIZE == 0
    ensures var a := begin + i * MIN_BLOCK_SIZE;
            a % MIN_BLOCK_SIZE == 0 && (a - begin) / MIN_BLOCK_SIZE == i
  {
  }

  class LinearMemoryBlockManager {
    const b: MemoryBlockManager
    const beginAddress: nat
    const initialBlockCount: nat
    const maxBlockCount: nat
    var status: seq<Status>
    var mappedSize: seq<nat>

    /** The status of an index says exactly whether it heads a live block. */
    ghost predicate Valid()
      reads this, b
    {
      && b.Valid() && |status| == |b.order| == |mappedSize| && |status| <= maxBlockCount
      && initialBlockCount <= |status| && beginAddress % MIN_BLOCK_SIZE == 0
      && forall i: nat :: i < |status| ==> (status[i] == FreeOrCovered <==> i !in Live(b.View()))
    }

    constructor (begin: nat, blocks: nat, maxBlocks: nat)
      requires blocks <= maxBlocks && begin % MIN_BLOCK_SIZE == 0
      ensures Valid() && fresh(b) && |status| == blocks && b.freeSize == 0
      ensures forall i: nat :: i < blocks ==> status[i] == Using
    {
      b := new MemoryBlockManager(blocks);
      beginAddress, initialBlockCount, maxBlockCount := begin, blocks, maxBlocks;
      status := seq(blocks, _ => Using);
      mappedSize := seq(blocks, _ => MIN_BLOCK_SIZE);
    }

    function IsAddressInRange(address: nat): bool
      reads this, b
    {
      && address % MIN_BLOCK_SIZE == 0 && address >= beginAddress
      && (address - beginAddress) / MIN_BLOCK_SIZE < |b.order|
    }

    /** From n blocks, an aligned run of order o still fits under the maximum. */
    ghost predicate CanGrow(n: nat, o: Order) { Ceil(n, Span(o)) + Span(o) <= maxBlockCount }

    /** Blocks to add so that an aligned run of the rounded size fits, or 0. */
    method GetExtendBlockCount(size: nat) returns (r: nat)
      requires Valid()
      ensures r == 0 <==> CeilOrder(size) > MAX_ORDER || !CanGrow(|b.order|, CeilOrder(size))
      ensures r > 0 ==> CeilOrder(size) <= MAX_ORDER
                        && |b.order| + r == Ceil(|b.order|, Span(CeilOrder(size))) + Span(CeilOrder(size))
    {
      var i := CeilAllocateOrder(size);
      if i > MAX_ORDER { return 0; }
      var add := Span(i);
      CeilSpec(|b.order|, i - MIN_ORDER);
      var newBlockCount := add + Ceil(|b.order|, add);
      if newBlockCount > maxBlockCount { return 0; }
      return newBlockCount - |b.order|;
    }

    /** The next free block at the end of the arena; its record is already mapped. */
    method AppendFreeBlock()
      requires Valid() && |b.order| < maxBlockCount
      modifies this, b
      ensures Valid() && Live(b.View()) == old(Live(b.View())) && |b.order| == old(|b.order|) + 1
      ensures status == old(status) + [FreeOrCovered] && mappedSize == old(mappedSize) + [MIN_BLOCK_SIZE]
    {
      hide Sound, InQueue, Total;
      ghost var s := b.View();
      var last := |b.order|;
      GrowStep(s);
      b.order := b.order + [MIN_ORDER];
      status := status + [FreeOrCovered];
      mappedSize := mappedSize + [MIN_BLOCK_SIZE];
      assert b.View() == Grow(s);
      b.ReleaseBlock(last);
      assert Live(b.View()) == Live(s);
    }

    /** An unsplit allocation hands out exactly one block of the rounded order. */
    method AllocateOne(size: nat) returns (r: Option<nat>)
      requires Valid() && size > 0
      modifies b
      ensures b.Valid() && |b.order| == old(|b.order|)
      ensures r.None? ==> b.View() == old(b.View()) && Valid()
      ensures r.None? <==> CeilOrder(size) > MAX_ORDER || NoneFree(old(b.View()), CeilOrder(size) - MIN_ORDER)
      ensures r.Some? ==>
                && r.value < |b.order| && r.value !in old(Live(b.View())) && CeilOrder(size) <= MAX_ORDER
                && Live(b.View()) == old(Live(b.View()))[r.value := CeilOrder(size)]
    {
      r := b.AllocateBlock(size, size);
      if r.Some? {
        OneBlock(size, CeilOrder(size), old(Live(b.View())), r.value);
      }
    }

    /** The block just taken out of the arena is locked until its pages are mapped. */
    method LockNew(i: nat, size: nat, ghost live: map<nat, Order>)
      requires b.Valid() && |status| == |b.order| == |mappedSize| <= maxBlockCount && initialBlockCount <= |status|
      requires beginAddress % MIN_BLOCK_SIZE == 0 && i < |status| && i !in live
      requires forall j: nat :: j < |status| ==> (status[j] == FreeOrCovered <==> j !in live)
      requires i in Live(b.View()) && Live(b.View()) == live[i := Live(b.View())[i]]
      modifies this
      ensures Valid() && status == old(status)[i := Locked] && mappedSize == old(mappedSize)[i := size]
    {
      hide Live;
      assert status[i] == FreeOrCovered;
      status, mappedSize := status[i := Locked], mappedSize[i := size];
    }

    /** A request for no bytes: the block found is locked although it stays in its free list, so statuses and free lists
        disagree and the next request of that order is offered the locked block. */
    method AllocateNothing() returns (r: Option<nat>)
      requires Valid()
      modifies this, b
      ensures r.None? <==> NoneFree(old(b.View()), 0)
      ensures b.View() == old(b.View()) && (r.None? ==> Valid() && status == old(status) && mappedSize == old(mappedSize))
      ensures r.Some? ==> r.value < |status| == |old(status)| && status == old(status)[r.value := Locked] && !Valid()
      ensures r.Some? ==> IsFirstFit(b.View(), 0, r.value) && status[r.value] != FreeOrCovered
      ensures r.Some? ==> r.value < |old(mappedSize)| && mappedSize == old(mappedSize)[r.value := 0]
    {
      r := b.AllocateBlock(0, 0);
      if r.Some? {
        FirstFitIsFree(b.View(), 0, r.value);
        assert r.value !in Live(b.View());
        status, mappedSize := status[r.value := Locked], mappedSize[r.value := 0];
      }
    }

    method CommitAllocatingLinearBlock(i: nat)
      requires Valid() && i < |status| && status[i] == Locked
      modifies this
      ensures Valid() && status == old(status)[i := Using] && mappedSize == old(mappedSize)
    {
      status := status[i := Using];
    }

    method ReleaseLinearBlock(i: nat)
      requires Valid() && i < |status| && status[i] != FreeOrCovered
      modifies this, b
      ensures Valid() && |b.order| == old(|b.order|)
      ensures Live(b.View()) == old(Live(b.View())) - {i}
      ensures status == old(status)[i := FreeOrCovered] && mappedSize == old(mappedSize)
    {
      status := status[i := FreeOrCovered];
      b.ReleaseBlock(i);
    }

    /** Walks up the buddies to the head covering index i and reads its status. */
    method IsUsingBlock(i: nat) returns (r: bool)
      requires Valid() && i < |status|
      ensures forall h: nat :: Head(b.order, h) && h <= i < h + Span(b.order[h]) ==> (r <==> status[h] == Using)
    {
      hide Head, Sound, Live, FlipBit, Laid, Pow2;
      ghost var ord := b.order;
      ghost var h := UniqueCover(b.View(), i);
      var b1 := i;
      while true
        invariant h <= b1 < h + Span(ord[h]) && b1 <= i
        decreases b1
      {
        WalkDecides(ord, h, b1);
        var b2 := b.GetBuddy(b1);
        if b2.None? || b.order[b2.value] <= b.order[b1] { break; }
        assert b2.value < b1;
        b1 := b2.value;
      }
      r := status[b1] == Using;
    }

    /** Whether a block may be released, with the assertions the source makes on the way. */
    method IsReleasableBlock(i: nat) returns (r: bool)
      requires Valid() && i < |status|
      ensures r <==> status[i] == Using
    {
      var b2 := b.GetBuddy(i);
      match status[i] {
        case Using =>
          if b2.Some? {
            BuddyIsHead(b.order, i);
            assert b.order[b2.value] <= b.order[i];
          }
          r := true;
        case FreeOrCovered =>
          if !Head(b.order, i) {
            ghost var h := CoveringHead(b.order, i);
            WalkStep(b.order, h, i);
          }
          assert InQueue(b.View(), i) || (b2.Some? && b2.value < i && b.order[b2.value] > b.order[i]);
          r := false;
        case Locked => r := false;
      }
    }

    /** A block about to be released is locked first. */
    method LockBlock(i: nat)
      requires Valid() && i < |status| && status[i] == Using
      modifies this
      ensures Valid() && status == old(status)[i := Locked] && mappedSize == old(mappedSize)
    {
      status := status[i := Locked];
    }

    /** Back to the initial blocks, all of them in use as after construction. */
    method ResetBlocks()
      requires Valid()
      modifies this, b
      ensures Valid() && |status| == initialBlockCount && b.freeSize == 0
      ensures forall i: nat :: i < initialBlockCount ==> status[i] == Using
    {
      b.ResetBlockArray(initialBlockCount);
      status := seq(initialBlockCount, _ => Using);
      mappedSize := seq(initialBlockCount, _ => MIN_BLOCK_SIZE);
    }
  }

  lemma OneBlock(size: nat, o: Order, live: map<nat, Order>, h: nat)
    requires size > 0 && o == CeilOrder(size)
    ensures DivCeil(size, Bytes(o)) == 1 && SplitOrder(size, size) == o
    ensures AddRun(live, h, o, 1) == live[h := o] && h in AddRun(live, h, o, 1)
    ensures RunFresh(live, h, o, 1) ==> h !in live
  {
    hide Bytes, DivCeil, OrderFrom;
    OrderFromSpec(size, MIN_ORDER);
    assert At(h, o, 0) == h;
    assert AddRun(live, h, o, 0) == live;
    DivCeilOne(size, Bytes(o));
  }

  lemma DivCeilOne(a: nat, b: nat)
    requires 0 < a <= b
    ensures DivCeil(a, b) == 1
  {
    DivCeilBound(a, b, 1);
    DivMod(a + b - 1, b);
  }
}
