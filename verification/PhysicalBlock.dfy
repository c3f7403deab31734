/** Reference-counted physical blocks on top of the buddy allocator. */
module PhysicalBlock {
  import opened Common
  import opened Dyadic
  import opened Buddy
  import opened BuddyTheorems
  import opened BuddyManager

  const MAX_REFERENCE_COUNT := 0xffff_ffff

  /** References after handing out n blocks of order o from b, one reference each. */
  ghost function AddRefs(counts: map<nat, nat>, b: nat, o: Order, n: nat): map<nat, nat> {
    if n == 0 then counts else AddRefs(counts, b, o, n - 1)[At(b, o, n - 1) := 1]
  }

  /** A count is positive exactly for the heads of live blocks. */
  ghost predicate CountsLive(count: seq<nat>, live: map<nat, Order>) {
    && (forall i: nat :: i < |count| ==> (count[i] > 0 <==> i in live) && count[i] <= MAX_REFERENCE_COUNT)
    && (forall i: nat :: i in live ==> i < |count|)
  }

  ghost function Positive(count: seq<nat>): map<nat, nat> {
    map i: nat | i < |count| && count[i] > 0 :: count[i]
  }

  class PhysicalMemoryBlockManager {
    const b: MemoryBlockManager
    var referenceCount: seq<nat>

    ghost predicate Valid()
      reads this, b
    {
      b.Valid() && |referenceCount| == |b.order| && CountsLive(referenceCount, Live(b.View()))
    }

    /** Live blocks and their reference counts. */
    ghost function Counts(): map<nat, nat>
      reads this
    {
      Positive(referenceCount)
    }

    constructor (blocks: nat)
      ensures Valid() && fresh(b) && |referenceCount| == blocks
      ensures forall i: nat :: i < blocks ==> referenceCount[i] == 1
    {
      b := new MemoryBlockManager(blocks);
      referenceCount := seq(blocks, _ => 1);
    }

    /** Whether a frame belongs to this manager; other frames are never counted. */
    predicate InRange(frame: nat)
      reads this
    {
      frame < |referenceCount|
    }

    /** Takes blocks for size bytes, each of them with one reference. */
    method AllocatePhysicalBlock(size: nat, splitSize: nat) returns (r: Option<nat>)
      requires Valid()
      requires splitSize >= size || exists o: Order :: splitSize == Bytes(o)
      modifies this, b
      ensures Valid() && |referenceCount| == old(|referenceCount|)
      ensures r.None? <==> CeilOrder(size) > MAX_ORDER || NoneFree(old(b.View()), CeilOrder(size) - MIN_ORDER)
      ensures r.None? ==> Counts() == old(Counts()) && b.View() == old(b.View())
      ensures r.Some? ==>
                var so := SplitOrder(size, splitSize);
                var n := DivCeil(size, Bytes(so));
                && Counts() == AddRefs(old(Counts()), r.value, so, n)
                && Live(b.View()) == AddRun(old(Live(b.View())), r.value, so, n)
                && RunFresh(old(Live(b.View())), r.value, so, n)
                && r.value < |referenceCount| && (size > 0 ==> r.value in Counts())
    {
      ghost var live := Live(b.View());
      r := b.AllocateBlock(size, splitSize);
      if r.None? { return; }
      FirstFitIsFree(old(b.View()), CeilOrder(size) - MIN_ORDER, r.value);
      if size == 0 { return; }
      ghost var so := SplitOrder(size, splitSize);
      ghost var n := DivCeil(size, Bytes(so));
      SplitSteps(size, splitSize, so);
      SetReferences(r.value, size, splitSize, live, so, n);
    }

    /** The loop that gives each block of the run its first reference. */
    method SetReferences(b0: nat, size: nat, splitSize: nat, ghost live: map<nat, Order>, ghost so: Order, ghost n: nat)
      requires |referenceCount| == |b.order| && size > 0 && splitSize > 0
      requires CountsLive(referenceCount, live) && Live(b.View()) == AddRun(live, b0, so, n) && RunFresh(live, b0, so, n)
      requires (splitSize >= size && n == 1) || (splitSize == Bytes(so) && n == DivCeil(size, splitSize))
      modifies this
      ensures |referenceCount| == |b.order| && CountsLive(referenceCount, Live(b.View()))
      ensures Counts() == AddRefs(old(Counts()), b0, so, n)
      ensures b0 < |referenceCount| && b0 in Counts()
    {
      hide AddRun, RunFresh, At, Live, Sound, CountsLive, Positive, AddRefs;
      ghost var live' := Live(b.View());
      var i := 0;
      ghost var k := 0;
      RefsStart(referenceCount, live, b0, so);
      LiveInRange(b.View());
      while i < size
        invariant |referenceCount| == |b.order| && Live(b.View()) == live' && 0 <= k <= n
        invariant i == k * splitSize && (i < size ==> k < n) && (i >= size ==> k == n) && (k == 0 <==> i == 0)
        invariant CountsLive(referenceCount, AddRun(live, b0, so, k))
        invariant Counts() == AddRefs(old(Counts()), b0, so, k)
        invariant k > 0 ==> b0 < |referenceCount| && b0 in Counts()
        decreases size - i
      {
        var index := b0 + i / MIN_BLOCK_SIZE;
        IndexInRun(b0, i, splitSize, so, k, n, size);
        RefsStep(referenceCount, live, live', b0, so, k, n);
        AddRefsStep(old(Counts()), b0, so, k);
        assert referenceCount[index] == 0;
        referenceCount := referenceCount[index := 1];
        k := k + 1;
        i := i + splitSize;
      }
    }

    /** One more reference, unless the counter is at its maximum; unmanaged frames always succeed. */
    method AddPhysicalBlockReference(frame: nat) returns (ok: bool)
      requires Valid() && (InRange(frame) ==> frame in Counts())
      modifies this
      ensures Valid() && |referenceCount| == old(|referenceCount|)
      ensures ok <==> !InRange(frame) || old(Counts())[frame] < MAX_REFERENCE_COUNT
      ensures Counts() == if ok && InRange(frame) then old(Counts())[frame := old(Counts())[frame] + 1] else old(Counts())
    {
      ok := true;
      if InRange(frame) {
        assert referenceCount[frame] > 0;
        ok := referenceCount[frame] < MAX_REFERENCE_COUNT;
        if ok { referenceCount := referenceCount[frame := referenceCount[frame] + 1]; }
      }
    }

    /** One reference less; the block is freed exactly when that was the last one. */
    method ReleasePhysicalBlock(frame: nat)
      requires Valid() && (InRange(frame) ==> frame in Counts())
      modifies this, b
      ensures Valid() && |referenceCount| == old(|referenceCount|)
      ensures !InRange(frame) ==> Counts() == old(Counts()) && Live(b.View()) == old(Live(b.View()))
      ensures InRange(frame) ==>
                var n := old(Counts())[frame];
                && Counts() == (if n > 1 then old(Counts())[frame := n - 1] else old(Counts()) - {frame})
                && Live(b.View()) == (if n > 1 then old(Live(b.View())) else old(Live(b.View())) - {frame})
    {
      hide Sound, Live, Total;
      if InRange(frame) {
        assert referenceCount[frame] > 0;
        referenceCount := referenceCount[frame := referenceCount[frame] - 1];
        if referenceCount[frame] == 0 {
          b.ReleaseBlock(frame);
        }
      }
    }
  }

  /** How many steps the loop over split blocks takes. */
  lemma SplitSteps(size: nat, splitSize: nat, so: Order)
    requires size > 0 && CeilOrder(size) <= MAX_ORDER
    requires splitSize >= size || exists o: Order :: splitSize == Bytes(o)
    requires so == SplitOrder(size, splitSize)
    ensures splitSize > 0
    ensures var n := DivCeil(size, Bytes(so));
            (splitSize >= size && n == 1) || (splitSize == Bytes(so) && n == DivCeil(size, splitSize))
  {
    if splitSize >= size {
      OrderFromSpec(size, MIN_ORDER);
      DivCeilBound(size, Bytes(so), 1);
    } else {
      var o: Order :| splitSize == Bytes(o);
      CeilOrderExact(o, size);
    }
  }

  lemma RefsStart(count: seq<nat>, live: map<nat, Order>, b0: nat, so: Order)
    requires CountsLive(count, live)
    ensures CountsLive(count, AddRun(live, b0, so, 0)) && Positive(count) == AddRefs(Positive(count), b0, so, 0)
  {
  }

  /** The byte offset of the k-th split block, in minimal blocks. */
  lemma IndexInRun(b0: nat, i: nat, splitSize: nat, so: Order, k: nat, n: nat, size: nat)
    requires splitSize > 0 && i == k * splitSize && i < size && k < n
    requires (splitSize >= size && n == 1) || (splitSize == Bytes(so) && n == DivCeil(size, splitSize))
    ensures b0 + i / MIN_BLOCK_SIZE == At(b0, so, k)
    ensures (k + 1) * splitSize == i + splitSize
    ensures i + splitSize < size ==> k + 1 < n
    ensures i + splitSize >= size ==> k + 1 == n
  {
    hide DivCeil, Span, At, Pow2;
    AtIsMultiple(b0, so, k);
    MulSucc(k, splitSize);
    if splitSize >= size && n == 1 {
      assert k == 0;
    } else {
      MulOut(k, Span(so));
      LastStep(k, splitSize, size, n);
    }
  }

  lemma MulSucc(k: nat, d: nat)
    ensures (k + 1) * d == k * d + d && 0 * d == 0
  {
  }

  lemma MulOut(k: nat, x: nat)
    ensures (k * (MIN_BLOCK_SIZE * x)) / MIN_BLOCK_SIZE == k * x
  {
    assert k * (MIN_BLOCK_SIZE * x) == MIN_BLOCK_SIZE * (k * x);
  }

  lemma LastStep(k: nat, d: nat, size: nat, n: nat)
    requires d > 0 && k < n == DivCeil(size, d) && k * d < size
    ensures k * d + d < size ==> k + 1 < n
    ensures k * d + d >= size ==> k + 1 == n
  {
    MulSucc(k, d);
    if k * d + d >= size { DivCeilBound(size, d, k + 1); }
    if k + 1 == n { CeilReaches(size, d, n); }
  }

  lemma CeilReaches(a: nat, b: nat, n: nat)
    requires b > 0 && n == DivCeil(a, b)
    ensures n * b >= a
  {
    assert a + b - 1 == n * b + (a + b - 1) % b;
  }

  lemma {:induction false} RunFreshAt(live: map<nat, Order>, b: nat, o: Order, n: nat, k: nat)
    requires RunFresh(live, b, o, n) && k < n
    ensures At(b, o, k) !in live
  {
    if k < n - 1 { RunFreshAt(live, b, o, n - 1, k); }
  }

  lemma {:induction false} AddRunHas(live: map<nat, Order>, b: nat, o: Order, n: nat, k: nat)
    requires k < n
    ensures At(b, o, k) in AddRun(live, b, o, n)
  {
    if k < n - 1 { AddRunHas(live, b, o, n - 1, k); }
  }

  lemma {:induction false} AddRunBelow(live: map<nat, Order>, b: nat, o: Order, k: nat, x: nat)
    requires x in AddRun(live, b, o, k) && x !in live
    ensures x < At(b, o, k)
  {
    if k > 0 && x in AddRun(live, b, o, k - 1) { AddRunBelow(live, b, o, k - 1, x); }
  }

  lemma LiveInRange(s: Blocks)
    ensures forall i: nat :: i in Live(s) ==> i < |s.order|
  {
  }

  /** The next block of the run has no reference yet; giving it one extends the run. */
  lemma RefsStep(count: seq<nat>, live: map<nat, Order>, live': map<nat, Order>, b0: nat, so: Order, k: nat, n: nat)
    requires k < n && live' == AddRun(live, b0, so, n) && RunFresh(live, b0, so, n)
    requires CountsLive(count, AddRun(live, b0, so, k)) && forall i: nat :: i in live' ==> i < |count|
    ensures var x := At(b0, so, k);
            && x < |count| && count[x] == 0 && (k == 0 ==> x == b0)
            && CountsLive(count[x := 1], AddRun(live, b0, so, k + 1))
            && Positive(count[x := 1]) == Positive(count)[x := 1]
  {
    var x := At(b0, so, k);
    RunFreshAt(live, b0, so, n, k);
    AddRunHas(live, b0, so, n, k);
    if x in AddRun(live, b0, so, k) { AddRunBelow(live, b0, so, k, x); }
    assert AddRun(live, b0, so, k + 1) == AddRun(live, b0, so, k)[x := so];
  }

  lemma AddRefsStep(counts: map<nat, nat>, b: nat, o: Order, k: nat)
    ensures AddRefs(counts, b, o, k + 1) == AddRefs(counts, b, o, k)[At(b, o, k) := 1]
  {
  }
}
