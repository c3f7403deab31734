/** Linear blocks, page tables and frames together: each call maps everything or nothing. */
module MemoryManager {
  import opened Common
  import opened Dyadic
  import opened Buddy
  import opened BuddyTheorems
  import opened BuddyManager
  import opened LinearBlock
  import opened PhysicalBlock
  import opened Paging

  function Pages(size: nat): nat { size / PAGE_SIZE }

  /** Page l is one of the mapped pages of the live block at h. */
  ghost predicate PageOf(live: map<nat, Order>, mappedSize: seq<nat>, h: nat, l: nat) {
    h in live && h < |mappedSize| && h <= l < h + Pages(mappedSize[h]) && Pages(mappedSize[h]) <= Span(live[h])
  }

  /** Every mapped page belongs to a live block. */
  ghost predicate PagesOwned(t: Table, live: map<nat, Order>, mappedSize: seq<nat>) {
    forall l: nat :: l in t ==> exists h: nat :: PageOf(live, mappedSize, h, l)
  }

  /** Every block in use has all its pages mapped. */
  ghost predicate BlocksMapped(t: Table, status: seq<Status>, mappedSize: seq<nat>, live: map<nat, Order>) {
    |status| == |mappedSize| &&
    forall h: nat :: h < |status| && status[h] == Using ==>
      MappedRange(t, h, h + Pages(mappedSize[h])) && h in live && Pages(mappedSize[h]) <= Span(live[h])
  }

  /** The rounded block holds the pages asked for. */
  lemma PagesFit(size: nat)
    requires CeilOrder(size) <= MAX_ORDER
    ensures Pages(size) <= Span(CeilOrder(size))
  {
    OrderFromSpec(size, MIN_ORDER);
  }

  /** A block that has just become live has no mapped page in it. */
  lemma FreshRange(s: Blocks, t: Table, live: map<nat, Order>, ms: seq<nat>, h: nat, o: Order, n: nat)
    requires Sound(s) && Live(s) == live[h := o] && h !in live && PagesOwned(t, live, ms) && n <= Span(o)
    ensures UnmappedRange(t, h, h + n)
  {
    forall k: nat | h <= k < h + n ensures k !in t {
      if k in t {
        var g: nat :| PageOf(live, ms, g, k);
        assert g in Live(s) && h in Live(s) && Live(s)[g] == live[g];
        LiveDisjoint(s, g, h, k);
      }
    }
  }

  /** Ownership after a block and its pages were added. */
  lemma OwnedAfterMap(t0: Table, t: Table, live: map<nat, Order>, ms0: seq<nat>, ms: seq<nat>, h: nat, o: Order, n: nat)
    requires PagesOwned(t0, live, ms0) && Extends(t0, t, h, h + n) && h !in live
    requires |ms0| <= |ms| && h < |ms| && n <= Pages(ms[h]) <= Span(o)
    requires forall i: nat :: i < |ms0| && i != h ==> ms[i] == ms0[i]
    ensures PagesOwned(t, live[h := o], ms)
  {
    var live' := live[h := o];
    forall l: nat | l in t ensures exists g: nat :: PageOf(live', ms, g, l) {
      if h <= l < h + n {
        assert PageOf(live', ms, h, l);
      } else {
        assert l in Cleared(t, h, h + n);
        var g: nat :| PageOf(live, ms0, g, l);
        assert PageOf(live', ms, g, l);
      }
    }
  }

  /** Ownership when one more page of a live block is mapped. */
  lemma OneMoreOwned(t0: Table, t: Table, live: map<nat, Order>, ms: seq<nat>, h: nat, k: nat)
    requires PagesOwned(t0, live, ms) && Extends(t0, t, k, k + 1) && PageOf(live, ms, h, k)
    ensures PagesOwned(t, live, ms)
  {
    forall l: nat | l in t ensures exists g: nat :: PageOf(live, ms, g, l) {
      if l != k { assert l in Cleared(t, k, k + 1); }
    }
  }

  lemma OwnedAfterGrow(t: Table, live: map<nat, Order>, ms0: seq<nat>, ms: seq<nat>)
    requires PagesOwned(t, live, ms0) && |ms0| <= |ms| && forall i: nat :: i < |ms0| && i in live ==> ms[i] == ms0[i]
    ensures PagesOwned(t, live, ms)
  {
    forall l: nat | l in t ensures exists g: nat :: PageOf(live, ms, g, l) {
      var g: nat :| PageOf(live, ms0, g, l);
      assert PageOf(live, ms, g, l);
    }
  }

  /** Blocks in use keep their pages while the arena grows and a locked block is added. */
  lemma MappedAfterGrow(t: Table, st0: seq<Status>, ms0: seq<nat>, live0: map<nat, Order>, st: seq<Status>, ms: seq<nat>,
                        live: map<nat, Order>, r: Option<nat>)
    requires BlocksMapped(t, st0, ms0, live0) && |st0| <= |st| == |ms|
    requires forall i: nat :: i < |st0| && r != Some(i) ==> st[i] == st0[i] && ms[i] == ms0[i]
    requires forall i: nat :: i < |st| && r == Some(i) ==> st[i] == Locked
    requires forall i: nat :: i in live0 && r != Some(i) ==> i in live && live[i] == live0[i]
    requires forall i: nat :: |st0| <= i < |st| && r != Some(i) ==> st[i] == FreeOrCovered
    ensures BlocksMapped(t, st, ms, live)
  {
    forall h: nat | h < |st| && st[h] == Using
      ensures MappedRange(t, h, h + Pages(ms[h])) && h in live && Pages(ms[h]) <= Span(live[h])
    {
      assert h < |st0| && st0[h] == Using;
    }
  }

  /** Blocks in use keep their pages while others are mapped. */
  lemma MappedAfterExtend(t0: Table, t: Table, st: seq<Status>, ms: seq<nat>, live: map<nat, Order>, lo: nat, hi: nat)
    requires BlocksMapped(t0, st, ms, live) && Extends(t0, t, lo, hi)
    ensures BlocksMapped(t, st, ms, live)
  {
    forall g: nat | g < |st| && st[g] == Using
      ensures MappedRange(t, g, g + Pages(ms[g])) && g in live && Pages(ms[g]) <= Span(live[g])
    {
      forall k: nat | g <= k < g + Pages(ms[g]) ensures Mapped(t, k) {
        assert Mapped(t0, k);
        assert k in Cleared(t, lo, hi);
      }
    }
  }

  lemma MappedAfterCommit(t0: Table, t: Table, st: seq<Status>, ms: seq<nat>, live: map<nat, Order>, h: nat, n: nat)
    requires BlocksMapped(t0, st, ms, live) && Extends(t0, t, h, h + n) && h < |st| && Pages(ms[h]) == n
    requires h in live && n <= Span(live[h])
    ensures BlocksMapped(t, st[h := Using], ms, live)
  {
    MappedAfterExtend(t0, t, st, ms, live, h, h + n);
    forall g: nat | g < |st| && st[h := Using][g] == Using
      ensures MappedRange(t, g, g + Pages(ms[g])) && g in live && Pages(ms[g]) <= Span(live[g])
    {
      assert g != h ==> st[g] == Using;
    }
  }

  lemma MappedAfterLock(t: Table, st: seq<Status>, ms: seq<nat>, live: map<nat, Order>, h: nat)
    requires BlocksMapped(t, st, ms, live) && h < |st|
    ensures BlocksMapped(t, st[h := Locked], ms, live)
  {
    forall g: nat | g < |st| && st[h := Locked][g] == Using
      ensures MappedRange(t, g, g + Pages(ms[g])) && g in live && Pages(ms[g]) <= Span(live[g])
    {
      assert st[g] == Using;
    }
  }

  // ---------- pages under a block in use ----------

  /** Page l lies under the block in use at h. */
  ghost predicate InUse(live: map<nat, Order>, status: seq<Status>, h: nat, l: nat) {
    h in live && h < |status| && status[h] == Using && h <= l < h + Span(live[h])
  }

  /** ... and is one of the pages asked for. */
  ghost predicate UsingPage(live: map<nat, Order>, status: seq<Status>, mappedSize: seq<nat>, h: nat, l: nat) {
    InUse(live, status, h, l) && h < |mappedSize| && l < h + Pages(mappedSize[h])
  }

  /** ... or one of the pages that rounding up added. */
  ghost predicate TailPage(live: map<nat, Order>, status: seq<Status>, mappedSize: seq<nat>, h: nat, l: nat) {
    InUse(live, status, h, l) && h < |mappedSize| && l >= h + Pages(mappedSize[h])
  }

  ghost predicate IsInUse(live: map<nat, Order>, status: seq<Status>, l: nat) {
    exists h: nat :: InUse(live, status, h, l)
  }

  ghost predicate IsUsingPage(live: map<nat, Order>, status: seq<Status>, mappedSize: seq<nat>, l: nat) {
    exists h: nat :: UsingPage(live, status, mappedSize, h, l)
  }

  ghost predicate IsTailPage(live: map<nat, Order>, status: seq<Status>, mappedSize: seq<nat>, l: nat) {
    exists h: nat :: TailPage(live, status, mappedSize, h, l)
  }

  ghost predicate AllUsing(live: map<nat, Order>, status: seq<Status>, mappedSize: seq<nat>, l: nat, n: nat) {
    forall k: nat :: l <= k < l + n ==> IsUsingPage(live, status, mappedSize, k)
  }

  /** A page of a block in use lies under that block's head and is mapped. */
  lemma UsingIsFound(s: Blocks, t: Table, st: seq<Status>, ms: seq<nat>, h: nat, l: nat)
    requires Sound(s) && BlocksMapped(t, st, ms, Live(s)) && UsingPage(Live(s), st, ms, h, l)
    ensures Head(s.order, h) && h <= l < h + Span(s.order[h]) && l < |s.order| && Mapped(t, l)
  {
    assert MappedRange(t, h, h + Pages(ms[h]));
    NestedInHead(s.order, h, l);
  }

  /** Under a block in use, a page is mapped exactly when it was asked for: the tail is not. */
  lemma InUseMappedIff(s: Blocks, t: Table, st: seq<Status>, ms: seq<nat>, h: nat, l: nat)
    requires Sound(s) && PagesOwned(t, Live(s), ms) && BlocksMapped(t, st, ms, Live(s)) && InUse(Live(s), st, h, l)
    ensures l in t <==> l < h + Pages(ms[h])
    ensures l in t ==> t[l].flags.present
  {
    if l < h + Pages(ms[h]) { UsingIsFound(s, t, st, ms, h, l); }
    if l in t {
      var g: nat :| PageOf(Live(s), ms, g, l);
      LiveDisjoint(s, g, h, l);
    }
  }

  /** A page is under no block in use, or asked for and mapped, or in the tail and unmapped. */
  lemma PageCases(s: Blocks, t: Table, st: seq<Status>, ms: seq<nat>, l: nat)
    requires Sound(s) && PagesOwned(t, Live(s), ms) && BlocksMapped(t, st, ms, Live(s))
    ensures IsUsingPage(Live(s), st, ms, l) <==> IsInUse(Live(s), st, l) && l in t
    ensures IsTailPage(Live(s), st, ms, l) <==> IsInUse(Live(s), st, l) && l !in t
    ensures IsInUse(Live(s), st, l) && l in t ==> t[l].flags.present
  {
    hide Sound, Live, PagesOwned, BlocksMapped;
    forall h: nat | InUse(Live(s), st, h, l)
      ensures h < |ms| && (l in t <==> l < h + Pages(ms[h])) && (l in t ==> t[l].flags.present)
    {
      SameLength(t, st, ms, Live(s));
      InUseMappedIff(s, t, st, ms, h, l);
    }
    if IsInUse(Live(s), st, l) {
      var h: nat :| InUse(Live(s), st, h, l);
      assert UsingPage(Live(s), st, ms, h, l) || TailPage(Live(s), st, ms, h, l);
    }
  }

  lemma SameLength(t: Table, st: seq<Status>, ms: seq<nat>, live: map<nat, Order>)
    requires BlocksMapped(t, st, ms, live)
    ensures |st| == |ms|
  {
  }

  /** What the walk to the covering head finds out. */
  lemma CoverDecides(s: Blocks, st: seq<Status>, l: nat, using: bool)
    requires Sound(s) && |st| == |s.order| && l < |st|
    requires forall i: nat :: i < |st| ==> (st[i] == FreeOrCovered <==> i !in Live(s))
    requires forall g: nat :: Head(s.order, g) && g <= l < g + Span(s.order[g]) ==> (using <==> st[g] == Using)
    ensures using <==> IsInUse(Live(s), st, l)
  {
    var h := CoveringHead(s.order, l);
    if using { assert InUse(Live(s), st, h, l); }
  }

  lemma OutsideNotInUse(s: Blocks, st: seq<Status>, l: nat)
    requires Sound(s) && l >= |s.order|
    ensures !IsInUse(Live(s), st, l)
  {
    forall h: nat ensures !InUse(Live(s), st, h, l) {
      assert h in Live(s) ==> h + Span(s.order[h]) <= |s.order|;
    }
  }

  /** The same blocks are in use, with the same sizes. */
  ghost predicate SameUse(live0: map<nat, Order>, st0: seq<Status>, ms0: seq<nat>, live: map<nat, Order>, st: seq<Status>, ms: seq<nat>) {
    forall h: nat ::
      && (h in live0 && h < |st0| && st0[h] == Using <==> h in live && h < |st| && st[h] == Using)
      && (h in live0 && h < |st0| && st0[h] == Using ==> live[h] == live0[h] && h < |ms0| && h < |ms| && ms[h] == ms0[h])
  }

  lemma SameUsePages(live0: map<nat, Order>, st0: seq<Status>, ms0: seq<nat>, live: map<nat, Order>, st: seq<Status>, ms: seq<nat>, l: nat)
    requires SameUse(live0, st0, ms0, live, st, ms)
    ensures IsUsingPage(live0, st0, ms0, l) <==> IsUsingPage(live, st, ms, l)
    ensures IsTailPage(live0, st0, ms0, l) <==> IsTailPage(live, st, ms, l)
    ensures IsInUse(live0, st0, l) <==> IsInUse(live, st, l)
  {
    forall h: nat
      ensures InUse(live0, st0, h, l) <==> InUse(live, st, h, l)
      ensures UsingPage(live0, st0, ms0, h, l) <==> UsingPage(live, st, ms, h, l)
      ensures TailPage(live0, st0, ms0, h, l) <==> TailPage(live, st, ms, h, l)
    {
    }
  }

  lemma SameUseSelf(live: map<nat, Order>, st: seq<Status>, ms: seq<nat>, t: Table)
    requires BlocksMapped(t, st, ms, live)
    ensures SameUse(live, st, ms, live, st, ms)
  {
  }

  /** Growing the arena and adding a locked block changes no block in use. */
  lemma UseAfterGrow(st0: seq<Status>, ms0: seq<nat>, live0: map<nat, Order>, st: seq<Status>, ms: seq<nat>,
                     live: map<nat, Order>, r: Option<nat>)
    requires |st0| == |ms0| <= |st| == |ms| && (r.Some? ==> r.value !in live0)
    requires forall i: nat :: i < |st0| && r != Some(i) ==> st[i] == st0[i] && ms[i] == ms0[i]
    requires forall i: nat :: i < |st| && r == Some(i) ==> st[i] == Locked
    requires forall i: nat :: r != Some(i) ==> (i in live0 <==> i in live) && (i in live0 ==> live[i] == live0[i] && i < |st0|)
    ensures SameUse(live0, st0, ms0, live, st, ms)
  {
  }

  /** A block of three pages is one of order 14; its fourth page is in use and not mapped. */
  lemma TailPageExists(s: Blocks, t: Table, st: seq<Status>, ms: seq<nat>)
    requires s == Blocks([14, 12, 13, 12], seq(LISTS, _ => []))
    requires t == map[0 := Entry(7, USER_READ_ONLY_PAGE), 1 := Entry(8, USER_READ_ONLY_PAGE), 2 := Entry(9, USER_READ_ONLY_PAGE)]
    requires st == [Using, FreeOrCovered, FreeOrCovered, FreeOrCovered] && ms == [3 * PAGE_SIZE, 0, 0, 0]
    ensures Sound(s) && PagesOwned(t, Live(s), ms) && BlocksMapped(t, st, ms, Live(s))
    ensures CeilOrder(3 * PAGE_SIZE) == 14 && IsTailPage(Live(s), st, ms, 3) && 3 !in t
  {
    hide Sound, Live, CeilOrder, Span;
    TailLayout(s);
    ThreePages();
    assert forall l: nat :: l in t ==> PageOf(Live(s), ms, 0, l);
    assert TailPage(Live(s), st, ms, 0, 3);
  }

  lemma ThreePages()
    ensures CeilOrder(3 * PAGE_SIZE) == 14
  {
    assert Pow2(1) == 2 && Pow2(2) == 4;
    assert OrderFrom(3 * PAGE_SIZE, 14) == 14;
    assert OrderFrom(3 * PAGE_SIZE, 13) == 14;
  }

  lemma TailLayout(s: Blocks)
    requires s == Blocks([14, 12, 13, 12], seq(LISTS, _ => []))
    ensures Sound(s) && Span(14) == 4 && Live(s) == map[0 := 14]
  {
    assert Pow2(1) == 2 && Pow2(2) == 4;
    assert Span(s.order[0]) == 4;
    assert forall i :: !InQueue(s, i);
    forall i: nat | i < 4 ensures Head(s.order, i) <==> i == 0 {
      assert 0 + Span(s.order[0]) > i;
    }
    AlignedZero(2);
    assert Aligned(2, 1) && Bit(2, 1) && Bit(1, 0) && Bit(3, 0);
  }

  /** The n pages from h show the frames of the n pages of t0 from l. */
  ghost predicate SameFrames(t: Table, h: nat, n: nat, t0: Table, l: nat) {
    forall k: nat :: h <= k < h + n ==> k in t && l + (k - h) in t0 && t[k].frame == t0[l + (k - h)].frame
  }

  /** The n pages from h show what the page-table entries of the n pages from l hold, mapped or not. */
  ghost predicate ShowsRaw(t: Table, h: nat, n: nat, a: Attribute, t0: Table, left0: Table, l: nat) {
    forall k: nat :: h <= k < h + n ==> k in t && t[k] == Entry(RawEntry(t0, left0, l + (k - h)).frame, a)
  }

  lemma RawNone(t: Table, h: nat, a: Attribute, t0: Table, left0: Table, l: nat)
    ensures ShowsRaw(t, h, 0, a, t0, left0, l)
  {
  }

  lemma RawOne(t1: Table, t: Table, h: nat, n: nat, a: Attribute, t0: Table, left0: Table, l: nat)
    requires ShowsRaw(t1, h, n, a, t0, left0, l) && forall k: nat :: k in t1 ==> k in t && t[k] == t1[k]
    requires h + n in t && t[h + n] == Entry(RawEntry(t0, left0, l + n).frame, a)
    ensures ShowsRaw(t, h, n + 1, a, t0, left0, l)
  {
  }

  /** An entry outside the range holds what it held. */
  lemma RawOutside(t0: Table, t: Table, left: Table, lo: nat, hi: nat, l: nat)
    requires Extends(t0, t, lo, hi) && !(lo <= l < hi)
    ensures RawEntry(t, left, l) == RawEntry(t0, left, l)
  {
    assert l in t <==> l in Cleared(t, lo, hi);
  }

  lemma PutExtends(t: Table, k: nat, e: Entry)
    requires k !in t && e.flags.present
    ensures Extends(t, Put(t, k, e), k, k + 1)
  {
    ExtendNone(t, k);
    ExtendOne(t, t, k, k, e);
  }

  lemma OneShown(t0: Table, t1: Table, h: nat, s: nat, a: Attribute, ts: Table, ls: Table, l: nat)
    requires Extends(t0, t1, h, h + s) && ShowsRaw(t1, h, s, a, ts, ls, l) && h + s !in t1 && a.present
    ensures var t := Put(t1, h + s, Entry(RawEntry(ts, ls, l + s).frame, a));
            Extends(t0, t, h, h + s + 1) && Extends(t1, t, h + s, h + s + 1) && ShowsRaw(t, h, s + 1, a, ts, ls, l)
  {
    hide Extends, ShowsRaw;
    var t := Put(t1, h + s, Entry(RawEntry(ts, ls, l + s).frame, a));
    PutExtends(t1, h + s, t[h + s]);
    ExtendAppend(t0, t1, t, h, h + s);
    RawOne(t1, t, h, s, a, ts, ls, l);
  }

  lemma SameSelf(left: Table, lo: nat, hi: nat)
    ensures SameOutside(left, left, lo, hi)
  {
  }

  /** With nothing live nothing is mapped. */
  lemma NothingOwned(t: Table, ms: seq<nat>)
    requires PagesOwned(t, map[], ms)
    ensures t == map[]
  {
    assert t.Keys == {};
  }

  /** Two blocks do not share a page. */
  lemma InUseNotLocked(s: Blocks, st: seq<Status>, h: nat, n: nat, l: nat)
    requires Sound(s) && IsInUse(Live(s), st, l) && h in Live(s) && h < |st| && st[h] != Using && n <= Span(s.order[h])
    ensures !(h <= l < h + n)
  {
    var g: nat :| InUse(Live(s), st, g, l);
    if h <= l < h + n { LiveDisjoint(s, g, h, l); }
  }

  lemma MappedAfterAbort(t: Table, st: seq<Status>, ms: seq<nat>, live: map<nat, Order>, h: nat)
    requires BlocksMapped(t, st, ms, live) && h < |st| && st[h] != Using
    ensures BlocksMapped(t, st[h := FreeOrCovered], ms, live - {h})
  {
    forall g: nat | g < |st| && st[h := FreeOrCovered][g] == Using
      ensures MappedRange(t, g, g + Pages(ms[g])) && g in live - {h} && Pages(ms[g]) <= Span((live - {h})[g])
    {
      assert g != h && st[g] == Using;
    }
  }

  lemma LiveIsOrder(s: Blocks, h: nat)
    requires h in Live(s)
    ensures h < |s.order| && Live(s)[h] == s.order[h]
  {
  }

  /** Ownership after a block's pages and then the block were removed. */
  lemma OwnedAfterUnmap(t: Table, live: map<nat, Order>, ms: seq<nat>, h: nat)
    requires PagesOwned(t, live, ms) && h < |ms|
    ensures PagesOwned(Cleared(t, h, h + Pages(ms[h])), live - {h}, ms)
  {
    var u, live' := Cleared(t, h, h + Pages(ms[h])), live - {h};
    forall l: nat | l in u ensures exists g: nat :: PageOf(live', ms, g, l) {
      var g: nat :| PageOf(live, ms, g, l);
      assert PageOf(live', ms, g, l);
    }
  }

  /** Blocks other than h keep their pages when h's are cleared. */
  lemma MappedAfterUnmap(s: Blocks, t: Table, status: seq<Status>, ms: seq<nat>, h: nat)
    requires Sound(s) && BlocksMapped(t, status, ms, Live(s)) && h < |status| && h in Live(s)
    requires Pages(ms[h]) <= Span(s.order[h])
    ensures BlocksMapped(Cleared(t, h, h + Pages(ms[h])), status[h := FreeOrCovered], ms, Live(s) - {h})
  {
    var u := Cleared(t, h, h + Pages(ms[h]));
    forall g: nat | g < |status| && status[h := FreeOrCovered][g] == Using
      ensures MappedRange(u, g, g + Pages(ms[g])) && g in Live(s) - {h} && Pages(ms[g]) <= Span((Live(s) - {h})[g])
    {
      assert g != h && status[g] == Using && Live(s)[g] == s.order[g] && Live(s)[h] == s.order[h];
      forall k: nat | g <= k < g + Pages(ms[g]) ensures Mapped(u, k) {
        assert Mapped(t, k);
        if h <= k < h + Pages(ms[h]) { LiveDisjoint(s, g, h, k); }
      }
    }
  }

  // ---------- fresh pages ----------

  /** Pages on frames nobody referred to: consecutive ones, or each its own. */
  ghost predicate FreshPages(t: Table, lo: nat, hi: nat, a: Attribute, contiguous: bool, c0: map<nat, nat>, c: map<nat, nat>) {
    if contiguous then exists f0: nat :: ContiguousFrames(t, lo, hi, a, f0, c0) else OwnFrames(t, lo, hi, a, c0, c)
  }

  lemma FreshRun(t: Table, lo: nat, hi: nat, a: Attribute, f0: nat, c0: map<nat, nat>, c: map<nat, nat>)
    requires ContiguousFrames(t, lo, hi, a, f0, c0)
    ensures FreshPages(t, lo, hi, a, true, c0, c)
  {
  }

  lemma FreshOwn(t: Table, lo: nat, hi: nat, a: Attribute, c0: map<nat, nat>, c: map<nat, nat>)
    requires OwnFrames(t, lo, hi, a, c0, c)
    ensures FreshPages(t, lo, hi, a, false, c0, c)
  {
  }

  /** What nobody referred to after growing, nobody referred to before. */
  lemma FreshBefore(t: Table, lo: nat, hi: nat, a: Attribute, contiguous: bool, c0: map<nat, nat>, c1: map<nat, nat>, c: map<nat, nat>)
    requires FreshPages(t, lo, hi, a, contiguous, c1, c) && c0.Keys <= c1.Keys
    ensures FreshPages(t, lo, hi, a, contiguous, c0, c)
  {
    if contiguous {
      var f0: nat :| ContiguousFrames(t, lo, hi, a, f0, c1);
      assert ContiguousFrames(t, lo, hi, a, f0, c0);
    }
  }

  // ---------- the records of the blocks ----------

  const RECORD_SIZE := 20

  /** The first page behind the records of n blocks. */
  function RecordEnd(base: nat, n: nat): nat { (base + RECORD_SIZE * n + PAGE_SIZE - 1) / PAGE_SIZE }

  /** The next record needs a page exactly when it reaches past the last one mapped, and one page is enough. */
  lemma RecordStep(base: nat, n: nat)
    ensures var p := RecordEnd(base, n);
            RecordEnd(base, n + 1) == if base + RECORD_SIZE * (n + 1) > p * PAGE_SIZE then p + 1 else p
  {
  }

  lemma RecordMono(base: nat, m: nat, n: nat)
    requires m <= n
    ensures RecordEnd(base, m) <= RecordEnd(base, n)
  {
  }

  /** Exactly the pages from lo to hi are mapped. */
  ghost predicate RecordsMapped(t: Table, lo: nat, hi: nat) {
    forall k: nat :: (k in t <==> lo <= k < hi) && (k in t ==> t[k].flags.present)
  }

  lemma RecordsMore(t0: Table, t: Table, lo: nat, mid: nat, hi: nat)
    requires RecordsMapped(t0, lo, mid) && Extends(t0, t, mid, hi) && lo <= mid <= hi
    ensures RecordsMapped(t, lo, hi)
  {
    forall k: nat ensures (k in t <==> lo <= k < hi) && (k in t ==> t[k].flags.present) {
      if mid <= k < hi { assert Mapped(t, k); } else { assert k in t <==> k in Cleared(t, mid, hi); }
    }
  }

  lemma NextUnmapped(t: Table, lo: nat, hi: nat)
    requires RecordsMapped(t, lo, hi)
    ensures hi !in t
  {
  }

  /** Unmapping all of them leaves nothing. */
  lemma RecordsGone(t: Table, lo: nat, hi: nat)
    requires RecordsMapped(t, lo, hi) && lo <= hi
    ensures MappedRange(t, lo, hi) && Cleared(t, lo, hi) == map[] && RecordsMapped(map[], lo, lo)
  {
    forall k: nat | lo <= k < hi ensures Mapped(t, k) { }
    assert Cleared(t, lo, hi).Keys == {};
  }

  /** Table sp got pages lo to hi on frames nobody referred to; otherwise only page tables were added. */
  ghost predicate Growth(ts0: seq<Table>, ts: seq<Table>, sp: nat, lo: nat, hi: nat,
                         e0: map<nat, nat>, e: map<nat, nat>, c0: map<nat, nat>, c: map<nat, nat>) {
    && |ts| == |ts0| && sp < |ts| && ts == ts0[sp := ts[sp]] && Extends(ts0[sp], ts[sp], lo, hi)
    && (forall k: nat :: lo <= k < hi ==> k in ts[sp] && ts[sp][k].frame !in c0)
    && NewTablesOnly(e0, e, c0) && c0.Keys <= c.Keys
  }

  lemma NoGrowth(ts: seq<Table>, sp: nat, lo: nat, e: map<nat, nat>, c: map<nat, nat>)
    requires sp < |ts|
    ensures Growth(ts, ts, sp, lo, lo, e, e, c, c)
  {
    NoNewTables(e, c);
  }

  lemma GrowthOne(ts: seq<Table>, ts': seq<Table>, sp: nat, l: nat, f: nat, e: map<nat, nat>, e': map<nat, nat>, c: map<nat, nat>, c': map<nat, nat>)
    requires sp < |ts| && l !in ts[sp] && ts' == ts[sp := Put(ts[sp], l, Entry(f, KERNEL_PAGE))] && f !in c
    requires NewTablesOnly(e, e', c) && c.Keys <= c'.Keys
    ensures Growth(ts, ts', sp, l, l + 1, e, e', c, c') && Extends(ts[sp], ts'[sp], l, l + 1)
  {
    ExtendNone(ts[sp], l);
    ExtendOne(ts[sp], ts[sp], l, l, Entry(f, KERNEL_PAGE));
  }

  lemma GrowthTables(ts0: seq<Table>, ts: seq<Table>, sp: nat, lo: nat, hi: nat,
                     e0: map<nat, nat>, e: map<nat, nat>, c0: map<nat, nat>, c: map<nat, nat>)
    requires Growth(ts0, ts, sp, lo, hi, e0, e, c0, c)
    ensures |ts| == |ts0| && sp < |ts| && (forall i :: 0 <= i < |ts| && i != sp ==> ts[i] == ts0[i])
    ensures Extends(ts0[sp], ts[sp], lo, hi) && c0.Keys <= c.Keys && NewTablesOnly(e0, e, c0)
  {
  }

  ghost predicate AllPositive(c: map<nat, nat>) { forall f :: f in c ==> c[f] > 0 }

  lemma CountsPositive(count: seq<nat>)
    ensures AllPositive(Positive(count))
  {
  }

  /** Growing twice. */
  lemma GrowthJoin(ts0: seq<Table>, ts1: seq<Table>, ts: seq<Table>, sp: nat, lo: nat, mid: nat, hi: nat,
                   e0: map<nat, nat>, e1: map<nat, nat>, e: map<nat, nat>, c0: map<nat, nat>, c1: map<nat, nat>, c: map<nat, nat>)
    requires Growth(ts0, ts1, sp, lo, mid, e0, e1, c0, c1) && Growth(ts1, ts, sp, mid, hi, e1, e, c1, c)
    requires lo <= mid <= hi && AllPositive(c1)
    ensures Growth(ts0, ts, sp, lo, hi, e0, e, c0, c)
  {
    hide NewTablesOnly;
    var t0: Table, t1: Table, t: Table := ts0[sp], ts1[sp], ts[sp];
    assert ts == ts0[sp := t];
    assert Cleared(t, lo, hi) == Cleared(Cleared(t, mid, hi), lo, mid) == t0;
    forall k: nat | lo <= k < hi ensures Mapped(t, k) && t[k].frame !in c0 {
      if k < mid {
        assert Mapped(t1, k);
        SameEntry(t1, t, mid, hi, k);
      } else {
        assert Mapped(t, k);
      }
    }
    assert Extends(ts0[sp], ts[sp], lo, hi);
    assert forall k: nat :: lo <= k < hi ==> k in ts[sp] && ts[sp][k].frame !in c0;
    ChainMore(e0, e1, e, c0, c1);
  }

  lemma SameEntry(t0: Table, t: Table, lo: nat, hi: nat, k: nat)
    requires Cleared(t, lo, hi) == t0 && k in t0
    ensures k in t && t[k] == t0[k] && (Mapped(t0, k) ==> Mapped(t, k))
  {
    assert k in Cleared(t, lo, hi);
  }

  /** Growing, then adding only page tables. */
  lemma GrowthThenTables(n: nat, ts0: seq<Table>, ts: seq<Table>, sp: nat, lo: nat, hi: nat, e0: map<nat, nat>, e1: map<nat, nat>,
                         e: map<nat, nat>, c0: map<nat, nat>, c1: map<nat, nat>, c: map<nat, nat>)
    requires Growth(ts0, ts, sp, lo, hi, e0, e1, c0, c1) && NewTablesOnly(e1, e, c1) && AllPositive(c1)
    requires Conserved(c1, n, ts, e1) && Conserved(c, n, ts, e) && forall f: nat :: f in c0 ==> f < n
    ensures Growth(ts0, ts, sp, lo, hi, e0, e, c0, c)
  {
    hide Extends, Conserved, Mappings, NewTablesOnly;
    ChainMore(e0, e1, e, c0, c1);
    forall f: nat | f in c0 ensures f in c { FailureRestores(c1, c, n, ts, e1, e, f); }
  }

  /** After growing, new page tables are new from the start. */
  lemma GrowthChain(ts0: seq<Table>, ts: seq<Table>, sp: nat, lo: nat, hi: nat, e0: map<nat, nat>, e1: map<nat, nat>,
                    e: map<nat, nat>, c0: map<nat, nat>, c1: map<nat, nat>)
    requires Growth(ts0, ts, sp, lo, hi, e0, e1, c0, c1) && NewTablesOnly(e1, e, c1) && AllPositive(c1)
    ensures NewTablesOnly(e0, e, c0)
  {
    hide Extends, NewTablesOnly;
    ChainMore(e0, e1, e, c0, c1);
  }

  /** Whatever was referred to has the references it had. */
  lemma GrowthKeepsCounts(n: nat, ts0: seq<Table>, ts: seq<Table>, sp: nat, lo: nat, hi: nat,
                          e0: map<nat, nat>, e: map<nat, nat>, c0: map<nat, nat>, c: map<nat, nat>, f: nat)
    requires Growth(ts0, ts, sp, lo, hi, e0, e, c0, c) && Conserved(c0, n, ts0, e0) && Conserved(c, n, ts, e) && f < n
    ensures At0(c0, f) > 0 ==> At0(c, f) == At0(c0, f)
  {
    hide Extends, Mappings;
    if At0(c0, f) > 0 {
      var t0, t := ts0[sp], ts[sp];
      TableUpdate(ts0, sp, t, f);
      ExtendUndo(t0, t, lo, hi);
      assert Mapping(t, f) == Mapping(t0, f) by {
        forall l: nat ensures l in Mapping(t, f) <==> l in Mapping(t0, f) { assert !(lo <= l < hi) ==> (l in t <==> l in Cleared(t, lo, hi)); }
      }
    }
  }

  /** Every frame that was referred to has the references it had. */
  ghost predicate Kept(c0: map<nat, nat>, c: map<nat, nat>, n: nat) {
    forall f: nat :: f < n && f in c0 ==> f in c && c[f] == c0[f]
  }

  lemma KeptByGrowth(n: nat, ts0: seq<Table>, ts: seq<Table>, sp: nat, lo: nat, hi: nat,
                     e0: map<nat, nat>, e: map<nat, nat>, c0: map<nat, nat>, c: map<nat, nat>)
    requires Growth(ts0, ts, sp, lo, hi, e0, e, c0, c) && Conserved(c0, n, ts0, e0) && Conserved(c, n, ts, e) && AllPositive(c0)
    ensures Kept(c0, c, n)
  {
    hide Growth, Conserved;
    forall f: nat | f < n && f in c0 ensures f in c && c[f] == c0[f] {
      GrowthKeepsCounts(n, ts0, ts, sp, lo, hi, e0, e, c0, c, f);
    }
  }

  lemma KeptAfter(n: nat, ts0: seq<Table>, ts: seq<Table>, sp: nat, lo: nat, hi: nat, e0: map<nat, nat>, e1: map<nat, nat>,
                  e: map<nat, nat>, c0: map<nat, nat>, c1: map<nat, nat>, c: map<nat, nat>)
    requires Growth(ts0, ts, sp, lo, hi, e0, e1, c0, c1) && NewTablesOnly(e1, e, c1) && AllPositive(c0) && AllPositive(c1)
    requires Conserved(c0, n, ts0, e0) && Conserved(c1, n, ts, e1) && Conserved(c, n, ts, e) && forall f: nat :: f in c0 ==> f < n
    ensures Growth(ts0, ts, sp, lo, hi, e0, e, c0, c) && Kept(c0, c, n)
  {
    hide Growth, Conserved, NewTablesOnly, AllPositive, Kept;
    GrowthThenTables(n, ts0, ts, sp, lo, hi, e0, e1, e, c0, c1, c);
    KeptByGrowth(n, ts0, ts, sp, lo, hi, e0, e, c0, c);
  }

  /** The frames that pages lo to hi take: one each, and the page tables they need. */
  ghost function Price(d: set<nat>, lo: nat, hi: nat): nat
    requires lo <= hi
  {
    (hi - lo) + NewTables(d, lo, hi - lo)
  }

  /** From the frames spare at first, exactly what pages lo to hi of space sp take is gone. */
  ghost predicate Paid(ds0: seq<set<nat>>, ds: seq<set<nat>>, sp: nat, spare0: nat, spare: nat, lo: nat, hi: nat) {
    && |ds| == |ds0| && sp < |ds| && lo <= hi && (forall i :: 0 <= i < |ds| && i != sp ==> ds[i] == ds0[i])
    && Spent(ds0[sp], ds[sp], spare0, spare, lo, hi - lo, hi - lo)
  }

  lemma PaidNone(ds: seq<set<nat>>, sp: nat, spare: nat, lo: nat)
    requires sp < |ds|
    ensures Paid(ds, ds, sp, spare, spare, lo, lo)
  {
    SpentNone(ds[sp], spare, lo);
  }

  lemma PaidOne(ds0: seq<set<nat>>, ds1: seq<set<nat>>, ds: seq<set<nat>>, sp: nat, spare0: nat, spare1: nat, spare: nat, lo: nat, hi: nat)
    requires Paid(ds0, ds1, sp, spare0, spare1, lo, hi) && |ds| == |ds1| && (forall i :: 0 <= i < |ds| && i != sp ==> ds[i] == ds1[i])
    requires ds[sp] == ds1[sp] + {TableOf(hi)} && spare + 1 + One(TableOf(hi) !in ds1[sp]) == spare1
    ensures Paid(ds0, ds, sp, spare0, spare, lo, hi + 1)
  {
    hide TableOf, Spent;
    SpentOne(ds0[sp], ds1[sp], spare0, spare1, lo, hi - lo, hi - lo, 1, spare);
  }

  lemma {:induction false} TablesJoin(d: set<nat>, lo: nat, mid: nat, hi: nat)
    requires lo <= mid <= hi
    ensures TablesFor(lo, hi - lo) == TablesFor(lo, mid - lo) + TablesFor(mid, hi - mid)
    ensures NewTables(d, lo, hi - lo) == NewTables(d, lo, mid - lo) + NewTables(d + TablesFor(lo, mid - lo), mid, hi - mid)
    decreases hi
  {
    hide TableOf, TablesFor, NewTables;
    var a := TablesFor(lo, mid - lo);
    if hi == mid {
      TablesNone(d + a, mid);
    } else {
      TablesJoin(d, lo, mid, hi - 1);
      TablesOne(d, lo, hi - 1 - lo);
      TablesOne(d + a, mid, hi - 1 - mid);
    }
  }

  lemma PaidJoin(ds0: seq<set<nat>>, ds1: seq<set<nat>>, ds: seq<set<nat>>, sp: nat, spare0: nat, spare1: nat, spare: nat,
                 lo: nat, mid: nat, hi: nat)
    requires Paid(ds0, ds1, sp, spare0, spare1, lo, mid) && Paid(ds1, ds, sp, spare1, spare, mid, hi)
    ensures Paid(ds0, ds, sp, spare0, spare, lo, hi)
  {
    hide TablesFor, NewTables;
    TablesJoin(ds0[sp], lo, mid, hi);
  }

  /** The next page cannot be had: then the frames do not suffice for a longer range. */
  lemma PaidShort(ds0: seq<set<nat>>, ds: seq<set<nat>>, sp: nat, spare0: nat, spare: nat, lo: nat, hi: nat, end: nat)
    requires Paid(ds0, ds, sp, spare0, spare, lo, hi) && hi < end && spare < 1 + One(TableOf(hi) !in ds[sp])
    ensures spare0 < Price(ds0[sp], lo, end)
  {
    hide TableOf, Spent, NewTables;
    SpentAll(ds0[sp], ds[sp], spare0, spare, lo, hi - lo, end - lo, hi - lo, 1);
  }

  lemma PaidElsewhere(ds0: seq<set<nat>>, ds: seq<set<nat>>, sp: nat, spare0: nat, spare: nat, lo: nat, hi: nat, i: nat)
    requires Paid(ds0, ds, sp, spare0, spare, lo, hi) && i != sp && i < |ds0|
    ensures |ds| == |ds0| && ds[i] == ds0[i]
  {
  }

  lemma PaidPrice(ds0: seq<set<nat>>, ds: seq<set<nat>>, sp: nat, spare0: nat, spare: nat, lo: nat, hi: nat)
    requires Paid(ds0, ds, sp, spare0, spare, lo, hi)
    ensures spare + Price(ds0[sp], lo, hi) == spare0
  {
  }

  // ---------- translating a page ----------

  /** Translating a page, and reserving its frame: refused; one of four assertions fails (there is no page table, the
      entry lacks an attribute asked for, its frame has no reference, its count is at the maximum); or done. */
  datatype Reservation = NotInUse | NoTable | Lacking | NoReference | CountFull | Found(frame: nat)

  ghost function Verdict(inUse: bool, hasTable: bool, e: Entry, c: map<nat, nat>, n: nat, need: Attribute, reserve: bool): Reservation {
    if !inUse then NotInUse
    else if !hasTable then NoTable
    else if !Has(e.flags, need) then Lacking
    else if reserve && e.frame < n && e.frame !in c then NoReference
    else if reserve && e.frame < n && c[e.frame] >= MAX_REFERENCE_COUNT then CountFull
    else Found(e.frame)
  }

  /** What becomes of each kind of page.  A page asked for is translated to its frame unless it lacks an attribute; a page
      of the tail never is when presence is asked for, and when nothing is asked for whatever its entry was left with
      takes the place of a frame. */
  lemma PageVerdict(s: Blocks, t: Table, left: Table, directory: set<nat>, st: seq<Status>, ms: seq<nat>,
                    c: map<nat, nat>, n: nat, l: nat, need: Attribute, reserve: bool)
    requires Sound(s) && PagesOwned(t, Live(s), ms) && BlocksMapped(t, st, ms, Live(s)) && Backed(t, left, directory)
    requires l in t && t[l].frame < n ==> t[l].frame in c
    ensures var e := RawEntry(t, left, l);
            var v := Verdict(IsInUse(Live(s), st, l), TableOf(l) in directory, e, c, n, need, reserve);
            && (v.NotInUse? <==> !IsUsingPage(Live(s), st, ms, l) && !IsTailPage(Live(s), st, ms, l))
            && (IsUsingPage(Live(s), st, ms, l) ==>
                  l in t && e == t[l] && !v.NoTable? && !v.NoReference? && (v.Lacking? <==> !Has(t[l].flags, need)))
            && (IsTailPage(Live(s), st, ms, l) ==> l !in t && !e.flags.present && (need.present ==> v.NoTable? || v.Lacking?))
            && (need == NO_ATTRIBUTE ==> !v.Lacking?) && (v.Found? ==> v.frame == e.frame)
  {
    hide Sound, Live, PagesOwned, BlocksMapped, IsInUse, IsUsingPage, IsTailPage, TableOf;
    PageCases(s, t, st, ms, l);
  }

  /** In the state of TailPageExists, with a new page table, the fourth page passes for frame 0; if an earlier block left
      frame f there, it passes for f or, with nobody referring to f any more, fails an assertion.  A page asked for and
      mapped read-only fails one when a kernel page is asked for. */
  lemma TailShowsLeftover(s: Blocks, t: Table, st: seq<Status>, ms: seq<nat>, f: nat, flags: Attribute, c: map<nat, nat>, n: nat)
    requires s == Blocks([14, 12, 13, 12], seq(LISTS, _ => []))
    requires t == map[0 := Entry(7, USER_READ_ONLY_PAGE), 1 := Entry(8, USER_READ_ONLY_PAGE), 2 := Entry(9, USER_READ_ONLY_PAGE)]
    requires st == [Using, FreeOrCovered, FreeOrCovered, FreeOrCovered] && ms == [3 * PAGE_SIZE, 0, 0, 0]
    requires 0 in c && c[0] == 1 && f < n && !flags.present
    ensures Verdict(IsInUse(Live(s), st, 3), TableOf(3) in {0}, RawEntry(t, map[], 3), c, n, NO_ATTRIBUTE, true) == Found(0)
    ensures var v := Verdict(IsInUse(Live(s), st, 3), TableOf(3) in {0}, RawEntry(t, map[3 := Entry(f, flags)], 3), c, n, NO_ATTRIBUTE, true);
            v == if f !in c then NoReference else if c[f] >= MAX_REFERENCE_COUNT then CountFull else Found(f)
    ensures Verdict(IsInUse(Live(s), st, 0), TableOf(0) in {0}, RawEntry(t, map[], 0), c, n, KERNEL_PAGE, true) == Lacking
  {
    hide Sound, Live;
    TailLayout(s);
    assert InUse(Live(s), st, 0, 3) && InUse(Live(s), st, 0, 0);
  }

  // ---------- mapping existing pages ----------

  /** Mapping existing pages: done; no block to map them into; everything undone after the given page
      was refused; or stopped in an assertion about the given page. */
  datatype Outcome = Shown(block: nat) | NoBlock | Refused(page: nat, why: Reservation) | Halted(page: nat, why: Reservation)

  /** Page l is under a block in use and its entry has the attributes asked for. */
  ghost predicate Passes(live: map<nat, Order>, st: seq<Status>, t: Table, left: Table, need: Attribute, l: nat) {
    IsInUse(live, st, l) && Has(RawEntry(t, left, l).flags, need)
  }

  ghost predicate AllPass(live: map<nat, Order>, st: seq<Status>, t: Table, left: Table, need: Attribute, l: nat, n: nat) {
    forall k: nat :: l <= k < l + n ==> Passes(live, st, t, left, need, k)
  }

  lemma AllPassNone(live: map<nat, Order>, st: seq<Status>, t: Table, left: Table, need: Attribute, l: nat)
    ensures AllPass(live, st, t, left, need, l, 0)
  {
  }

  lemma AllPassMore(live: map<nat, Order>, st: seq<Status>, t: Table, left: Table, need: Attribute, l: nat, n: nat)
    requires AllPass(live, st, t, left, need, l, n) && Passes(live, st, t, left, need, l + n)
    ensures AllPass(live, st, t, left, need, l, n + 1)
  {
  }

  /** What page l was like when it got the verdict. */
  ghost predicate Explains(live: map<nat, Order>, st: seq<Status>, t: Table, left: Table, need: Attribute, l: nat, why: Reservation) {
    && (why.NotInUse? <==> !IsInUse(live, st, l))
    && (why.Lacking? ==> !Has(RawEntry(t, left, l).flags, need))
    && (why.NoReference? || why.CountFull? || why.Found? ==> Passes(live, st, t, left, need, l))
    && (why.Found? ==> why.frame == RawEntry(t, left, l).frame)
  }

  lemma PassFound(live: map<nat, Order>, st: seq<Status>, t: Table, left: Table, need: Attribute, l: nat, why: Reservation)
    requires Explains(live, st, t, left, need, l, why) && why.Found?
    ensures Passes(live, st, t, left, need, l)
  {
  }

  lemma ExplainsFrame(live: map<nat, Order>, st: seq<Status>, t: Table, left: Table, need: Attribute, l: nat, why: Reservation)
    requires Explains(live, st, t, left, need, l, why) && why.Found?
    ensures why.frame == RawEntry(t, left, l).frame
  {
  }

  lemma VerdictMeans(live: map<nat, Order>, st: seq<Status>, t: Table, left: Table, hasTable: bool, c: map<nat, nat>, n: nat,
                     need: Attribute, l: nat)
    ensures Explains(live, st, t, left, need, l, Verdict(IsInUse(live, st, l), hasTable, RawEntry(t, left, l), c, n, need, true))
  {
    hide IsInUse;
  }

  /** The same entry explains the same verdict. */
  lemma ExplainsSame(live: map<nat, Order>, st: seq<Status>, t0: Table, t: Table, left: Table, need: Attribute, l: nat, why: Reservation)
    requires Explains(live, st, t, left, need, l, why) && (IsInUse(live, st, l) ==> RawEntry(t0, left, l) == RawEntry(t, left, l))
    ensures Explains(live, st, t0, left, need, l, why)
  {
    hide IsInUse;
  }

  /** What the source range was like up to page k, and what was found there. */
  ghost predicate StopsAt(live: map<nat, Order>, st: seq<Status>, t: Table, left: Table, need: Attribute, l: nat, k: nat, why: Reservation) {
    AllPass(live, st, t, left, need, l, k) && Explains(live, st, t, left, need, l + k, why)
  }

  lemma PassSame(live: map<nat, Order>, st: seq<Status>, ms: seq<nat>, live1: map<nat, Order>, st1: seq<Status>, ms1: seq<nat>,
                 t: Table, left: Table, need: Attribute, l: nat, n: nat)
    requires SameUse(live, st, ms, live1, st1, ms1) && AllPass(live1, st1, t, left, need, l, n)
    ensures AllPass(live, st, t, left, need, l, n)
  {
    hide SameUse, IsInUse;
    forall k: nat | l <= k < l + n ensures Passes(live, st, t, left, need, k) {
      assert Passes(live1, st1, t, left, need, k);
      SameUsePages(live, st, ms, live1, st1, ms1, k);
    }
  }

  lemma StopsSame(live: map<nat, Order>, st: seq<Status>, ms: seq<nat>, live1: map<nat, Order>, st1: seq<Status>, ms1: seq<nat>,
                  t: Table, left: Table, need: Attribute, l: nat, k: nat, why: Reservation)
    requires SameUse(live, st, ms, live1, st1, ms1) && StopsAt(live1, st1, t, left, need, l, k, why)
    ensures StopsAt(live, st, t, left, need, l, k, why)
  {
    hide SameUse, IsInUse, AllPass;
    PassSame(live, st, ms, live1, st1, ms1, t, left, need, l, k);
    SameUsePages(live, st, ms, live1, st1, ms1, l + k);
  }

  /** A block filled from a range shows the frames of that range if and only if no page of it is in a tail; asking for
      present pages rules tails out. */
  lemma ShownSameIff(s: Blocks, t0: Table, left0: Table, directory: set<nat>, st: seq<Status>, ms: seq<nat>,
                     t: Table, h: nat, n: nat, a: Attribute, need: Attribute, l: nat)
    requires Sound(s) && PagesOwned(t0, Live(s), ms) && BlocksMapped(t0, st, ms, Live(s)) && Backed(t0, left0, directory)
    requires ShowsRaw(t, h, n, a, t0, left0, l) && AllPass(Live(s), st, t0, left0, need, l, n)
    ensures SameFrames(t, h, n, t0, l) <==> AllUsing(Live(s), st, ms, l, n)
    ensures need.present ==> AllUsing(Live(s), st, ms, l, n)
  {
    hide Sound, Live, PagesOwned, BlocksMapped, IsInUse, IsUsingPage, IsTailPage;
    forall k: nat | l <= k < l + n
      ensures IsUsingPage(Live(s), st, ms, k) <==> k in t0
      ensures need.present ==> k in t0
    {
      assert Passes(Live(s), st, t0, left0, need, k);
      PageCases(s, t0, st, ms, k);
    }
    if AllUsing(Live(s), st, ms, l, n) {
      forall k: nat | h <= k < h + n ensures k in t && l + (k - h) in t0 && t[k].frame == t0[l + (k - h)].frame {
        assert IsUsingPage(Live(s), st, ms, l + (k - h));
      }
    }
    if SameFrames(t, h, n, t0, l) {
      forall k: nat | l <= k < l + n ensures IsUsingPage(Live(s), st, ms, k) {
        var j := h + (k - l);
        assert j in t && l + (j - h) in t0;
      }
    }
  }

  /** How many of the first n pages from l show frame f. */
  ghost function Uses(t: Table, left: Table, l: nat, n: nat, f: nat): nat {
    if n == 0 then 0 else Uses(t, left, l, n - 1, f) + One(RawEntry(t, left, l + n - 1).frame == f)
  }

  /** A frame has at most the references it had, or the one of a new page table, and one for each page that shows it. */
  ghost predicate UsesCounted(c0: map<nat, nat>, c: map<nat, nat>, t: Table, left: Table, l: nat, n: nat) {
    c0.Keys <= c.Keys && forall g: nat :: g in c ==> c[g] <= (if g in c0 then c0[g] else 1) + Uses(t, left, l, n, g)
  }

  lemma UsesNone(c: map<nat, nat>, t: Table, left: Table, l: nat)
    ensures UsesCounted(c, c, t, left, l, 0)
  {
  }

  lemma UsesOne(c0: map<nat, nat>, c1: map<nat, nat>, c: map<nat, nat>, t: Table, left: Table, l: nat, n: nat)
    requires UsesCounted(c0, c1, t, left, l, n) && RefsMore(c1, c, RawEntry(t, left, l + n).frame, 1)
    ensures UsesCounted(c0, c, t, left, l, n + 1)
  {
    hide RawEntry;
  }

  /** Frame f has all the references it can have once n pages from l were shown. */
  ghost predicate UsedUp(c: map<nat, nat>, m: nat, t: Table, left: Table, l: nat, n: nat, f: nat) {
    f < m && (if f in c then c[f] else 1) + Uses(t, left, l, n, f) + 1 >= MAX_REFERENCE_COUNT
  }

  lemma FullIsUsedUp(c0: map<nat, nat>, c: map<nat, nat>, m: nat, t: Table, left: Table, l: nat, n: nat, f: nat)
    requires UsesCounted(c0, c, t, left, l, n) && f < m && f in c && c[f] + 1 >= MAX_REFERENCE_COUNT
    ensures UsedUp(c0, m, t, left, l, n, f)
  {
  }

  lemma UsedUpSame(c0: map<nat, nat>, c: map<nat, nat>, m: nat, t: Table, left: Table, l: nat, n: nat, f: nat)
    requires RefsMore(c0, c, 0, 0) && UsedUp(c, m, t, left, l, n, f)
    ensures UsedUp(c0, m, t, left, l, n, f)
  {
    hide Uses;
  }

  class LinearMemoryManager {
    const linear: LinearMemoryBlockManager
    const memory: Memory
    const space: nat
    const records: nat     // the table that maps the records of the blocks
    const recordBase: nat  // where they start

    /** The parts are sound and separate, and exactly the pages the records need are mapped. */
    ghost predicate Parts()
      reads this, linear, linear.b, memory, memory.physical, memory.physical.b
    {
      && linear.Valid() && memory.Valid() && linear.b != memory.physical.b
      && space < |memory.tables| && records < |memory.tables| && space != records
      && RecordsMapped(memory.tables[records], RecordEnd(recordBase, linear.initialBlockCount), RecordEnd(recordBase, |linear.b.order|))
    }

    /** Pages and blocks agree. */
    ghost predicate Valid()
      reads this, linear, linear.b, memory, memory.physical, memory.physical.b
    {
      && Parts()
      && PagesOwned(memory.tables[space], Live(linear.b.View()), linear.mappedSize)
      && BlocksMapped(memory.tables[space], linear.status, linear.mappedSize, Live(linear.b.View()))
    }

    constructor (l: LinearMemoryBlockManager, m: Memory, sp: nat, recs: nat, base: nat)
      requires l.Valid() && m.Valid() && sp < |m.tables| && recs < |m.tables| && sp != recs && l.b != m.physical.b
      requires PagesOwned(m.tables[sp], Live(l.b.View()), l.mappedSize)
      requires BlocksMapped(m.tables[sp], l.status, l.mappedSize, Live(l.b.View()))
      requires RecordsMapped(m.tables[recs], RecordEnd(base, l.initialBlockCount), RecordEnd(base, |l.b.order|))
      ensures Valid() && linear == l && memory == m && space == sp && records == recs && recordBase == base
    {
      linear, memory, space, records, recordBase := l, m, sp, recs, base;
    }

    /** Only the records of new blocks were added to the mappings, on fresh frames. */
    twostate predicate Grew()
      reads this, linear, linear.b, memory, memory.physical, memory.physical.b
    {
      && Growth(old(memory.tables), memory.tables, records,
                RecordEnd(recordBase, old(|linear.b.order|)), RecordEnd(recordBase, |linear.b.order|),
                old(memory.extra), memory.extra, old(memory.physical.Counts()), memory.physical.Counts())
      && |memory.physical.referenceCount| == old(|memory.physical.referenceCount|) && old(|linear.b.order|) <= |linear.b.order|
    }

    /** Only this space and the records of its new blocks were mapped anew. */
    twostate predicate OnlyHere()
      reads this, linear, linear.b, memory
    {
      && |memory.left| == old(|memory.left|) && (forall i :: 0 <= i < |memory.left| && i != space ==> memory.left[i] == old(memory.left)[i])
      && |memory.tables| == old(|memory.tables|) && records < |memory.tables|
      && (forall i :: 0 <= i < |memory.tables| && i != space && i != records ==> memory.tables[i] == old(memory.tables)[i])
      && Extends(old(memory.tables)[records], memory.tables[records],
                 RecordEnd(recordBase, old(|linear.b.order|)), RecordEnd(recordBase, |linear.b.order|))
    }

    /** A failed call left the other mappings, the live blocks and every referenced frame as they were. */
    twostate predicate Undone()
      reads this, linear, linear.b, memory, memory.physical, memory.physical.b
    {
      && Grew() && Live(linear.b.View()) == old(Live(linear.b.View()))
      && Kept(old(memory.physical.Counts()), memory.physical.Counts(), |memory.physical.referenceCount|)
    }

    /** The frames the growth took are exactly those its pages and their page tables need, each with one reference. */
    twostate predicate GrowthTook()
      reads this, linear, linear.b, memory, memory.physical, memory.physical.b
    {
      && RefsMore(old(memory.physical.Counts()), memory.physical.Counts(), 0, 0)
      && Paid(old(memory.directories), memory.directories, records, old(memory.SpareFrames()), memory.SpareFrames(),
           RecordEnd(recordBase, old(|linear.b.order|)), RecordEnd(recordBase, |linear.b.order|))
    }

    /** Some free block is large enough for size bytes. */
    ghost predicate Fits(size: nat)
      requires |linear.b.View().free| == LISTS
      reads linear, linear.b
    {
      CeilOrder(size) <= MAX_ORDER && !NoneFree(linear.b.View(), CeilOrder(size) - MIN_ORDER)
    }

    /** The arena may become large enough for size bytes. */
    ghost predicate Grows(size: nat)
      reads linear, linear.b
    {
      CeilOrder(size) <= MAX_ORDER && linear.CanGrow(|linear.b.order|, CeilOrder(size))
    }

    /** The frames taken by making it so. */
    ghost function GrowthPrice(size: nat): nat
      requires Grows(size) && records < |memory.directories|
      reads linear, linear.b, memory
    {
      var n, span := |linear.b.order|, Span(CeilOrder(size));
      assert n <= Ceil(n, span) + span by { CeilSpec(n, CeilOrder(size) - MIN_ORDER); }
      RecordMono(recordBase, n, Ceil(n, span) + span);
      Price(memory.directories[records], RecordEnd(recordBase, n), RecordEnd(recordBase, Ceil(n, span) + span))
    }

    /** The frames taken by reserving size bytes. */
    ghost function ReservePrice(size: nat): nat
      requires |linear.b.View().free| == LISTS && records < |memory.directories|
      reads linear, linear.b, memory
    {
      if !Fits(size) && Grows(size) then GrowthPrice(size) else 0
    }

    /** A block for size bytes can be had. */
    ghost predicate Reservable(size: nat)
      requires |linear.b.View().free| == LISTS && records < |memory.directories|
      reads linear, linear.b, memory, memory.physical, memory.physical.b
    {
      Fits(size) || (Grows(size) && memory.SpareFrames() >= ReservePrice(size))
    }

    /** One more free block at the end of the arena, unless its record needs a page and there is none. */
    method AddBlock(exPage: nat) returns (ok: bool, next: nat)
      requires Parts() && |linear.b.order| < linear.maxBlockCount && exPage == RecordEnd(recordBase, |linear.b.order|)
      modifies linear, linear.b, memory, memory.physical, memory.physical.b
      ensures Parts() && Grew() && memory.left == old(memory.left) && next == RecordEnd(recordBase, |linear.b.order|)
      ensures Live(linear.b.View()) == old(Live(linear.b.View())) && |linear.b.order| == old(|linear.b.order|) + One(ok)
      ensures linear.status == old(linear.status) + if ok then [FreeOrCovered] else []
      ensures linear.mappedSize == old(linear.mappedSize) + if ok then [MIN_BLOCK_SIZE] else []
      ensures GrowthTook()
      ensures !ok ==> && RecordEnd(recordBase, |linear.b.order| + 1) > next
                      && memory.SpareFrames() < 1 + One(TableOf(next) !in memory.directories[records])
    {
      hide Sound, Live, Conserved, Growth, RecordEnd, RecordsMapped, NewTablesOnly, TableOf, SpareCount, Paid, AllBacked, RefsMore;
      BackedSizes(memory.tables, memory.left, memory.directories);
      var n := |linear.b.order|;
      ghost var ts, e, c := memory.tables, memory.extra, memory.physical.Counts();
      ghost var ds, spare := memory.directories, memory.SpareFrames();
      PaidNone(ds, records, spare, exPage);
      RefsNone(c, 0, 0);
      next := exPage;
      RecordStep(recordBase, n);
      RecordMono(recordBase, linear.initialBlockCount, n);
      NoGrowth(ts, records, exPage, e, c);
      if recordBase + RECORD_SIZE * (n + 1) > exPage * PAGE_SIZE {
        NextUnmapped(ts[records], RecordEnd(recordBase, linear.initialBlockCount), exPage);
        ghost var f;
        ok, f := memory.MapFreshPage(records, exPage, KERNEL_PAGE);
        if !ok {
          assert memory.tables == ts;
          CountsInRange(old(memory.physical.referenceCount));
          GrowthThenTables(|memory.physical.referenceCount|, ts, ts, records, exPage, exPage, e, e, memory.extra, c, c, memory.physical.Counts());
          return;
        }
        assert memory.tables == ts[records := Put(ts[records], exPage, Entry(f, KERNEL_PAGE))];
        GrowthOne(ts, memory.tables, records, exPage, f, e, memory.extra, c, memory.physical.Counts());
        RecordsMore(ts[records], memory.tables[records], RecordEnd(recordBase, linear.initialBlockCount), exPage, exPage + 1);
        PaidOne(ds, ds, memory.directories, records, spare, spare, memory.SpareFrames(), exPage, exPage);
        next := exPage + 1;
      }
      linear.AppendFreeBlock();
      ok := true;
    }

    /** Appends free blocks one by one, each with its record; it stops short only when fewer than two frames are left. */
    method ExtendLinearBlock(exCount: nat) returns (ok: bool)
      requires Parts() && |linear.b.order| + exCount <= linear.maxBlockCount
      modifies linear, linear.b, memory, memory.physical, memory.physical.b
      ensures Parts() && Grew() && memory.left == old(memory.left) && Live(linear.b.View()) == old(Live(linear.b.View()))
      ensures |linear.b.order| <= old(|linear.b.order|) + exCount && (ok <==> |linear.b.order| == old(|linear.b.order|) + exCount)
      ensures GrowthTook() && (!ok ==> memory.SpareFrames() < 2)
      ensures records < |old(memory.directories)| && RecordEnd(recordBase, old(|linear.b.order|)) <= RecordEnd(recordBase, old(|linear.b.order|) + exCount)
      ensures ok <==> old(memory.SpareFrames()) >= Price(old(memory.directories)[records], RecordEnd(recordBase, old(|linear.b.order|)),
                                                         RecordEnd(recordBase, old(|linear.b.order|) + exCount))
      ensures |linear.status| >= old(|linear.status|)
      ensures linear.status[..old(|linear.status|)] == old(linear.status)
      ensures linear.mappedSize[..old(|linear.status|)] == old(linear.mappedSize)
      ensures forall i: nat :: old(|linear.status|) <= i < |linear.status| ==> linear.status[i] == FreeOrCovered
    {
      hide Sound, Live, Conserved, Growth, RecordEnd, RecordsMapped, TableOf, SpareCount, Paid, Price, AllBacked, RefsMore;
      BackedSizes(memory.tables, memory.left, memory.directories);
      var newBlockCount := |linear.b.order| + exCount;
      var exPage := RecordEnd(recordBase, |linear.b.order|);
      ghost var begin, end, ds, spare := exPage, RecordEnd(recordBase, newBlockCount), memory.directories, memory.SpareFrames();
      RecordMono(recordBase, |linear.b.order|, newBlockCount);
      PaidNone(ds, records, spare, exPage);
      RefsNone(memory.physical.Counts(), 0, 0);
      NoGrowth(memory.tables, records, exPage, memory.extra, memory.physical.Counts());
      while |linear.b.order| < newBlockCount
        invariant Parts() && Grew() && memory.left == old(memory.left) && Live(linear.b.View()) == old(Live(linear.b.View()))
        invariant |linear.b.order| <= newBlockCount && exPage == RecordEnd(recordBase, |linear.b.order|)
        invariant Paid(ds, memory.directories, records, spare, memory.SpareFrames(), begin, exPage)
        invariant RefsMore(old(memory.physical.Counts()), memory.physical.Counts(), 0, 0)
        invariant |linear.status| >= old(|linear.status|)
        invariant linear.status[..old(|linear.status|)] == old(linear.status)
        invariant linear.mappedSize[..old(|linear.status|)] == old(linear.mappedSize)
        invariant forall i: nat :: old(|linear.status|) <= i < |linear.status| ==> linear.status[i] == FreeOrCovered
        decreases newBlockCount - |linear.b.order|
      {
        ghost var n1, ts1, e1, c1 := |linear.b.order|, memory.tables, memory.extra, memory.physical.Counts();
        ghost var ds1, spare1, page1 := memory.directories, memory.SpareFrames(), exPage;
        ok, exPage := AddBlock(exPage);
        RecordMono(recordBase, old(|linear.b.order|), n1);
        RecordMono(recordBase, n1, |linear.b.order|);
        GrowthJoin(old(memory.tables), ts1, memory.tables, records, RecordEnd(recordBase, old(|linear.b.order|)), RecordEnd(recordBase, n1), exPage,
                   old(memory.extra), e1, memory.extra, old(memory.physical.Counts()), c1, memory.physical.Counts());
        RefsJoin(old(memory.physical.Counts()), c1, memory.physical.Counts());
        PaidJoin(ds, ds1, memory.directories, records, spare, spare1, memory.SpareFrames(), begin, page1, exPage);
        if !ok {
          RecordMono(recordBase, |linear.b.order| + 1, newBlockCount);
          PaidShort(ds, memory.directories, records, spare, memory.SpareFrames(), begin, exPage, end);
          return;
        }
      }
      PaidPrice(ds, memory.directories, records, spare, memory.SpareFrames(), begin, exPage);
      ok := true;
    }

    /** Adds blocks until size bytes fit; not at all when the size or the maximum forbids it. */
    method GrowFor(size: nat) returns (ok: bool)
      requires Parts()
      modifies linear, linear.b, memory, memory.physical, memory.physical.b
      ensures Parts() && Grew() && memory.left == old(memory.left) && Live(linear.b.View()) == old(Live(linear.b.View()))
      ensures GrowthTook() && records < |old(memory.directories)|
      ensures ok <==> old(Grows(size)) && old(memory.SpareFrames()) >= old(GrowthPrice(size))
      ensures ok ==> Fits(size) && memory.SpareFrames() + old(GrowthPrice(size)) == old(memory.SpareFrames())
      ensures !ok && old(Grows(size)) ==> memory.SpareFrames() < 2
      ensures !old(Grows(size)) ==> |linear.b.order| == old(|linear.b.order|) && memory.physical.b.View() == old(memory.physical.b.View())
      ensures |linear.status| >= old(|linear.status|)
      ensures linear.status[..old(|linear.status|)] == old(linear.status)
      ensures linear.mappedSize[..old(|linear.status|)] == old(linear.mappedSize)
      ensures forall i: nat :: old(|linear.status|) <= i < |linear.status| ==> linear.status[i] == FreeOrCovered
    {
      hide Sound, Live, Conserved, CeilOrder, NoneFree, Ceil, Growth, RecordEnd, RecordsMapped, AllBacked, CountsLive, Positive,
        SpareCount, Paid, Price, RefsMore;
      BackedSizes(memory.tables, memory.left, memory.directories);
      RefsNone(memory.physical.Counts(), 0, 0);
      ghost var begin, ds, spare := RecordEnd(recordBase, |linear.b.order|), memory.directories, memory.SpareFrames();
      PaidNone(ds, records, spare, begin);
      NoGrowth(memory.tables, records, RecordEnd(recordBase, |linear.b.order|), memory.extra, memory.physical.Counts());
      var exCount := linear.GetExtendBlockCount(size);
      if exCount == 0 { return false; }
      ok := ExtendLinearBlock(exCount);
      if ok {
        GrowthSuffices(old(linear.b.View()), linear.b.View(), CeilOrder(size) - MIN_ORDER);
        PaidPrice(ds, memory.directories, records, spare, memory.SpareFrames(), begin, RecordEnd(recordBase, |linear.b.order|));
      }
    }

    /** Reserves a block for size bytes, growing the arena when nothing fits.  It fails only if nothing fits and the
        arena is at its maximum or fewer than two frames are left. */
    method AllocateLinearBlock(size: nat) returns (r: Option<nat>)
      requires Parts() && size > 0
      modifies linear, linear.b, memory, memory.physical, memory.physical.b
      ensures Parts() && Grew() && memory.left == old(memory.left)
      ensures GrowthTook() && records < |old(memory.directories)|
      ensures r.Some? <==> old(Reservable(size))
      ensures r.Some? ==> memory.SpareFrames() + old(ReservePrice(size)) == old(memory.SpareFrames())
      ensures r.None? && old(Grows(size)) ==> memory.SpareFrames() < 2
      ensures old(Fits(size)) || !old(Grows(size)) ==> |linear.b.order| == old(|linear.b.order|) && memory.physical.b.View() == old(memory.physical.b.View())
      ensures r.Some? ==>
                && r.value !in old(Live(linear.b.View())) && r.value < |linear.status| && CeilOrder(size) <= MAX_ORDER
                && Live(linear.b.View()) == old(Live(linear.b.View()))[r.value := CeilOrder(size)]
                && linear.status[r.value] == Locked && linear.mappedSize[r.value] == size
      ensures r.None? ==> Live(linear.b.View()) == old(Live(linear.b.View()))
      ensures |linear.status| >= old(|linear.status|)
      ensures forall i: nat :: i < old(|linear.status|) && r != Some(i) ==>
                linear.status[i] == old(linear.status)[i] && linear.mappedSize[i] == old(linear.mappedSize)[i]
      ensures forall i: nat :: old(|linear.status|) <= i < |linear.status| && r != Some(i) ==> linear.status[i] == FreeOrCovered
    {
      hide Sound, Live, Conserved, CeilOrder, NoneFree, Ceil, Growth, RecordEnd, RecordsMapped, AllBacked, CountsLive, Positive,
        SpareCount, Paid, Price, RefsMore;
      BackedSizes(memory.tables, memory.left, memory.directories);
      RefsNone(memory.physical.Counts(), 0, 0);
      PaidNone(memory.directories, records, memory.SpareFrames(), RecordEnd(recordBase, |linear.b.order|));
      NoGrowth(memory.tables, records, RecordEnd(recordBase, |linear.b.order|), memory.extra, memory.physical.Counts());
      r := linear.AllocateOne(size);
      if r.None? {
        var ok := GrowFor(size);
        if !ok { return; }
        r := linear.AllocateOne(size);
      }
      linear.LockNew(r.value, size, old(Live(linear.b.View())));
    }

    /** Reserves a block and shows that its pages are free to map. */
    method ReserveBlock(size: nat) returns (r: Option<nat>)
      requires Valid() && size > 0
      modifies linear, linear.b, memory, memory.physical, memory.physical.b
      ensures Parts() && Grew() && memory.left == old(memory.left)
      ensures PagesOwned(memory.tables[space], old(Live(linear.b.View())), linear.mappedSize)
      ensures BlocksMapped(memory.tables[space], linear.status, linear.mappedSize, Live(linear.b.View()))
      ensures GrowthTook() && records < |old(memory.directories)|
      ensures r.Some? <==> old(Reservable(size))
      ensures r.Some? ==> memory.SpareFrames() + old(ReservePrice(size)) == old(memory.SpareFrames())
      ensures old(Fits(size)) ==> r.Some? && memory.physical.b.View() == old(memory.physical.b.View())
      ensures space < |memory.directories| && space < |old(memory.directories)|
      ensures memory.directories[space] == old(memory.directories)[space]
      ensures r.None? ==> Live(linear.b.View()) == old(Live(linear.b.View())) && Valid()
      ensures r.Some? ==>
                && CeilOrder(size) <= MAX_ORDER && r.value < |linear.status| && linear.status[r.value] == Locked
                && linear.mappedSize[r.value] == size && r.value !in old(Live(linear.b.View()))
                && Live(linear.b.View()) == old(Live(linear.b.View()))[r.value := CeilOrder(size)]
                && Pages(size) <= Span(CeilOrder(size))
                && UnmappedRange(memory.tables[space], r.value, r.value + Pages(size))
      ensures SameUse(old(LiveBlocks()), old(linear.status), old(linear.mappedSize), LiveBlocks(), linear.status, linear.mappedSize)
    {
      hide Sound, Live, Conserved, CeilOrder, NoneFree, RecordEnd, RecordsMapped, NewTablesOnly, SpareCount, Paid, Price, RefsMore, AllBacked;
      ghost var live, t, ms, st := Live(linear.b.View()), memory.tables[space], linear.mappedSize, linear.status;
      ghost var n, ds, spare := |linear.b.order|, memory.directories, memory.SpareFrames();
      BackedSizes(memory.tables, memory.left, ds);
      r := AllocateLinearBlock(size);
      PaidElsewhere(ds, memory.directories, records, spare, memory.SpareFrames(), RecordEnd(recordBase, n), RecordEnd(recordBase, |linear.b.order|), space);
      assert memory.tables[space] == t;
      OwnedAfterGrow(t, live, ms, linear.mappedSize);
      LiveInRange(old(linear.b.View()));
      MappedAfterGrow(t, st, ms, live, linear.status, linear.mappedSize, Live(linear.b.View()), r);
      UseAfterGrow(st, ms, live, linear.status, linear.mappedSize, Live(linear.b.View()), r);
      if r.Some? {
        PagesFit(size);
        FreshRange(linear.b.View(), t, live, linear.mappedSize, r.value, CeilOrder(size), Pages(size));
      }
    }

    /** The reserved block has its pages: it becomes a block in use. */
    method Commit(h: nat, n: nat, ghost t0: Table, ghost live0: map<nat, Order>)
      requires Parts()
      requires h < |linear.status| && linear.status[h] == Locked && Pages(linear.mappedSize[h]) == n && h !in live0
      requires h in Live(linear.b.View()) && Live(linear.b.View()) == live0[h := Live(linear.b.View())[h]]
      requires n <= Span(Live(linear.b.View())[h])
      requires PagesOwned(t0, live0, linear.mappedSize) && Extends(t0, memory.tables[space], h, h + n)
      requires BlocksMapped(t0, linear.status, linear.mappedSize, Live(linear.b.View()))
      modifies linear
      ensures Valid() && linear.status == old(linear.status)[h := Using] && linear.mappedSize == old(linear.mappedSize)
    {
      hide Sound, Live, RecordEnd, RecordsMapped, Conserved;
      OwnedAfterMap(t0, memory.tables[space], live0, linear.mappedSize, linear.mappedSize, h, Live(linear.b.View())[h], n);
      MappedAfterCommit(t0, memory.tables[space], linear.status, linear.mappedSize, Live(linear.b.View()), h, n);
      linear.CommitAllocatingLinearBlock(h);
    }

    /** The reserved block is given back, its pages being unmapped again. */
    method Abort(h: nat, ghost live0: map<nat, Order>)
      requires Parts()
      requires h < |linear.status| && linear.status[h] == Locked && h !in live0
      requires h in Live(linear.b.View()) && Live(linear.b.View()) == live0[h := Live(linear.b.View())[h]]
      requires PagesOwned(memory.tables[space], live0, linear.mappedSize)
      requires BlocksMapped(memory.tables[space], linear.status, linear.mappedSize, Live(linear.b.View()))
      modifies linear, linear.b
      ensures Valid() && Live(linear.b.View()) == live0 && |linear.b.order| == old(|linear.b.order|)
    {
      hide Sound, Live, RecordEnd, RecordsMapped, Conserved;
      ghost var live := Live(linear.b.View());
      linear.ReleaseLinearBlock(h);
      assert live - {h} == live0;
      MappedAfterAbort(memory.tables[space], old(linear.status), linear.mappedSize, live, h);
    }

    /** Unmaps the first s pages of the reserved block, then gives it back. */
    method AbortMapped(h: nat, s: nat, ghost t0: Table, ghost live0: map<nat, Order>)
      requires Valid() && h < |linear.status| && linear.status[h] == Locked && h !in live0
      requires h in Live(linear.b.View()) && Live(linear.b.View()) == live0[h := Live(linear.b.View())[h]]
      requires PagesOwned(t0, live0, linear.mappedSize)
      requires BlocksMapped(t0, linear.status, linear.mappedSize, Live(linear.b.View()))
      requires Extends(t0, memory.tables[space], h, h + s)
      modifies linear, linear.b, memory`tables, memory`left, memory.physical, memory.physical.b
      ensures Valid() && Live(linear.b.View()) == live0 && memory.Others(space) && memory.tables[space] == t0
      ensures |linear.b.order| == old(|linear.b.order|)
    {
      hide Sound, Live, RecordEnd, RecordsMapped, Conserved, Extends, PagesOwned, BlocksMapped, Cleared;
      ExtendUndo(t0, memory.tables[space], h, h + s);
      memory.UnmapPage(space, h, s);
      Abort(h, live0);
    }

    /** Maps size bytes of existing frames from f into a new block. */
    method MapPages(f: nat, size: nat, attribute: Attribute) returns (r: Option<nat>, ghost block: nat)
      requires Valid() && attribute.present && size > 0 && size % PAGE_SIZE == 0
      requires memory.Counted(f, Pages(size))
      modifies linear, linear.b, memory, memory.physical, memory.physical.b
      ensures Valid() && OnlyHere() && (r.None? ==> Undone())
      ensures NewTablesOnly(old(memory.extra), memory.extra, old(memory.physical.Counts()))
      ensures records < |old(memory.directories)| && space < |old(memory.directories)|
      ensures old(Reservable(size)) ==> UnmappedRange(old(memory.tables)[space], block, block + Pages(size))
      ensures r.Some? <==> && old(Reservable(size)) && Referable(old(memory.physical.Counts()), |memory.physical.referenceCount|, f, Pages(size))
                           && old(memory.SpareFrames()) >= old(ReservePrice(size)) + NewTables(old(memory.directories)[space], block, Pages(size))
      ensures r.Some? ==>
                && r.value == block
                && r.value < |linear.status| && linear.status[r.value] == Using && linear.mappedSize[r.value] == size
                && Extends(old(memory.tables)[space], memory.tables[space], r.value, r.value + Pages(size))
                && ShowsRun(memory.tables[space], r.value, r.value + Pages(size), attribute, f)
    {
      hide Sound, Live, Conserved, Extends, PagesOwned, BlocksMapped, NewTablesOnly,
        CeilOrder, RecordEnd, RecordsMapped, AllPositive, SameUse, Growth, AllBacked, UnmappedRange, ShowsRun,
        Fits, Grows, GrowthPrice, ReservePrice, Reservable, SpareCount, NewTables, Spent, Paid, RefsMore, Referable, Kept;
      ghost var live0, t0 := Live(linear.b.View()), memory.tables[space];
      NoNewTables(memory.extra, memory.physical.Counts());
      CountsPositive(memory.physical.referenceCount);
      ghost var m := |memory.physical.referenceCount|;
      r := ReserveBlock(size);
      block := if r.Some? then r.value else 0;
      ghost var ts1, e1, c1 := memory.tables, memory.extra, memory.physical.Counts();
      ghost var lo, hi := RecordEnd(recordBase, old(|linear.b.order|)), RecordEnd(recordBase, |linear.b.order|);
      GrowthTables(old(memory.tables), ts1, records, lo, hi, old(memory.extra), e1, old(memory.physical.Counts()), c1);
      if r.None? {
        KeptByGrowth(m, old(memory.tables), ts1, records, lo, hi, old(memory.extra), e1, old(memory.physical.Counts()), c1);
        return;
      }
      CountsPositive(memory.physical.referenceCount);
      CountsInRange(old(memory.physical.referenceCount));
      ReferableSame(old(memory.physical.Counts()), c1, m, f, Pages(size));
      var ok := memory.MapPage_LP(space, r.value, f, Pages(size), attribute);
      GrowthChain(old(memory.tables), ts1, records, lo, hi, old(memory.extra), e1, memory.extra, old(memory.physical.Counts()), c1);
      if ok {
        Commit(r.value, Pages(size), t0, live0);
      } else {
        Abort(r.value, live0);
        r := None;
        KeptAfter(m, old(memory.tables), ts1, records, lo, hi, old(memory.extra), e1, memory.extra,
                  old(memory.physical.Counts()), c1, memory.physical.Counts());
      }
    }

    /** Fills a reserved block with fresh pages. */
    method MapFresh(h: nat, n: nat, contiguous: bool, attribute: Attribute) returns (ok: bool)
      requires memory.Valid() && space < |memory.tables| && attribute.present && UnmappedRange(memory.tables[space], h, h + n) && n > 0
      modifies memory, memory.physical, memory.physical.b
      ensures memory.Valid() && memory.Others(space) && NewTablesOnly(old(memory.extra), memory.extra, old(memory.physical.Counts()))
      ensures ok ==> Extends(old(memory.tables)[space], memory.tables[space], h, h + n)
      ensures ok ==> FreshPages(memory.tables[space], h, h + n, attribute, contiguous, old(memory.physical.Counts()), memory.physical.Counts())
      ensures !ok ==> memory.tables == old(memory.tables)
      ensures space < |memory.directories| && space < |old(memory.directories)|
      ensures ok <==> && (contiguous ==> !NoRun(old(memory.physical.b.View()), n))
                      && old(memory.SpareFrames()) >= n + NewTables(old(memory.directories)[space], h, n)
      ensures contiguous && NoRun(old(memory.physical.b.View()), n) ==> memory.physical.b.View() == old(memory.physical.b.View())
    {
      hide NoRun, NewTables, SpareCount, Spent;
      hide FreshPages, OwnFrames, ContiguousFrames, Extends, NewTablesOnly, Conserved, AllBacked, Sound, Live, SameOutside, UnmappedRange;
      if contiguous {
        var f0;
        ok, f0 := memory.MapContiguousPage_L(space, h, n, attribute);
        if ok { FreshRun(memory.tables[space], h, h + n, attribute, f0, old(memory.physical.Counts()), memory.physical.Counts()); }
      } else {
        ok := memory.MapPage_L(space, h, n, attribute);
        if ok { FreshOwn(memory.tables[space], h, h + n, attribute, old(memory.physical.Counts()), memory.physical.Counts()); }
      }
    }

    /** A new block of fresh pages, contiguous in physical memory if asked. */
    method AllocatePages(size: nat, contiguous: bool, attribute: Attribute) returns (r: Option<nat>, ghost block: nat)
      requires Valid() && attribute.present && size > 0 && size % PAGE_SIZE == 0
      modifies linear, linear.b, memory, memory.physical, memory.physical.b
      ensures Valid() && OnlyHere() && (r.None? ==> Undone())
      ensures NewTablesOnly(old(memory.extra), memory.extra, old(memory.physical.Counts()))
      ensures records < |old(memory.directories)| && space < |old(memory.directories)|
      ensures old(Reservable(size)) ==> UnmappedRange(old(memory.tables)[space], block, block + Pages(size))
      ensures var enough := old(memory.SpareFrames()) >= old(ReservePrice(size)) + Pages(size) + NewTables(old(memory.directories)[space], block, Pages(size));
              && (r.Some? ==> old(Reservable(size)) && enough)
              && (r.None? && old(Reservable(size)) && enough ==> contiguous && NoRun(memory.physical.b.View(), Pages(size)))
              && (old(Fits(size)) ==> (r.Some? <==> enough && (contiguous ==> !NoRun(old(memory.physical.b.View()), Pages(size)))))
      ensures r.Some? ==>
                && r.value == block
                && r.value < |linear.status| && linear.status[r.value] == Using && linear.mappedSize[r.value] == size
                && Extends(old(memory.tables)[space], memory.tables[space], r.value, r.value + Pages(size))
                && FreshPages(memory.tables[space], r.value, r.value + Pages(size), attribute, contiguous,
                              old(memory.physical.Counts()), memory.physical.Counts())
    {
      hide Sound, Live, Conserved, Extends, PagesOwned, BlocksMapped, NewTablesOnly, FreshPages, AllBacked,
        CeilOrder, RecordEnd, RecordsMapped, AllPositive, SameUse, Growth, UnmappedRange,
        Fits, Grows, GrowthPrice, ReservePrice, Reservable, SpareCount, NewTables, Spent, Paid, RefsMore, NoRun, Kept;
      ghost var live0, t0 := Live(linear.b.View()), memory.tables[space];
      NoNewTables(memory.extra, memory.physical.Counts());
      CountsPositive(memory.physical.referenceCount);
      ghost var m := |memory.physical.referenceCount|;
      r := ReserveBlock(size);
      block := if r.Some? then r.value else 0;
      ghost var ts1, e1, c1 := memory.tables, memory.extra, memory.physical.Counts();
      ghost var lo, hi := RecordEnd(recordBase, old(|linear.b.order|)), RecordEnd(recordBase, |linear.b.order|);
      GrowthTables(old(memory.tables), ts1, records, lo, hi, old(memory.extra), e1, old(memory.physical.Counts()), c1);
      if r.None? {
        KeptByGrowth(m, old(memory.tables), ts1, records, lo, hi, old(memory.extra), e1, old(memory.physical.Counts()), c1);
        return;
      }
      CountsPositive(memory.physical.referenceCount);
      CountsInRange(old(memory.physical.referenceCount));
      var ok := MapFresh(r.value, Pages(size), contiguous, attribute);
      GrowthChain(old(memory.tables), ts1, records, lo, hi, old(memory.extra), e1, memory.extra, old(memory.physical.Counts()), c1);
      if ok {
        FreshBefore(memory.tables[space], r.value, r.value + Pages(size), attribute, contiguous,
                    old(memory.physical.Counts()), c1, memory.physical.Counts());
        Commit(r.value, Pages(size), t0, live0);
      } else {
        Abort(r.value, live0);
        r := None;
        KeptAfter(m, old(memory.tables), ts1, records, lo, hi, old(memory.extra), e1, memory.extra,
                  old(memory.physical.Counts()), c1, memory.physical.Counts());
      }
    }

    /** Unmaps the pages of a block and releases it. */
    method UnmapBlock(h: nat)
      requires Valid() && h < |linear.status| && linear.status[h] != FreeOrCovered
      requires MappedRange(memory.tables[space], h, h + Pages(linear.mappedSize[h]))
      requires h in Live(linear.b.View()) && Pages(linear.mappedSize[h]) <= Span(Live(linear.b.View())[h])
      modifies linear, linear.b, memory`tables, memory`left, memory.physical, memory.physical.b
      ensures Valid() && Live(linear.b.View()) == old(Live(linear.b.View())) - {h} && |linear.b.order| == old(|linear.b.order|)
      ensures memory.Others(space) && space < |memory.left| && space < |old(memory.left)|
      ensures memory.tables[space] == Cleared(old(memory.tables)[space], h, h + Pages(old(linear.mappedSize)[h]))
      ensures memory.left[space] == LeftBehind(old(memory.left)[space], old(memory.tables)[space], h, h + Pages(old(linear.mappedSize)[h]))
      ensures linear.status == old(linear.status)[h := FreeOrCovered] && linear.mappedSize == old(linear.mappedSize)
    {
      hide Sound, Live, RecordEnd, RecordsMapped, Conserved, Cleared, PagesOwned, BlocksMapped, MappedRange, LeftBehind, AllBacked;
      Sized();
      ghost var t, live := memory.tables[space], Live(linear.b.View());
      var s := linear.mappedSize[h];
      LiveIsOrder(linear.b.View(), h);
      OwnedAfterUnmap(t, live, linear.mappedSize, h);
      MappedAfterUnmap(linear.b.View(), t, linear.status, linear.mappedSize, h);
      memory.UnmapPage(space, h, Pages(s));
      linear.ReleaseLinearBlock(h);
    }

    /** Unmaps all pages of a block in use and releases the block: the inverse of the calls above. */
    method UnmapPages(h: nat)
      requires Valid() && h < |linear.status| && linear.status[h] == Using
      modifies linear, linear.b, memory`tables, memory`left, memory.physical, memory.physical.b
      ensures Valid() && Live(linear.b.View()) == old(Live(linear.b.View())) - {h} && memory.Others(space)
      ensures memory.tables[space] == Cleared(old(memory.tables)[space], h, h + Pages(old(linear.mappedSize)[h]))
      ensures space < |memory.left| && space < |old(memory.left)|
      ensures memory.left[space] == LeftBehind(old(memory.left)[space], old(memory.tables)[space], h, h + Pages(old(linear.mappedSize)[h]))
      ensures linear.status == old(linear.status)[h := FreeOrCovered] && linear.mappedSize == old(linear.mappedSize)
    {
      hide Sound, Live, RecordEnd, RecordsMapped, Conserved, Cleared;
      UnmapBlock(h);
    }

    /** Releases the block at an address with its pages if it is a block in use; anything else is
        refused and nothing changes. */
    method CheckAndReleaseLinearBlock(address: nat) returns (r: bool)
      requires Valid()
      modifies linear, linear.b, memory`tables, memory`left, memory.physical, memory.physical.b
      ensures Valid() && |linear.b.order| == old(|linear.b.order|) && linear.mappedSize == old(linear.mappedSize)
      ensures memory.Others(space)
      ensures r <==> old(linear.IsAddressInRange(address))
                     && old(linear.status)[(address - linear.beginAddress) / MIN_BLOCK_SIZE] == Using
      ensures r ==> var i := (address - linear.beginAddress) / MIN_BLOCK_SIZE;
                    && Live(linear.b.View()) == old(Live(linear.b.View())) - {i}
                    && linear.status == old(linear.status)[i := FreeOrCovered]
                    && memory.tables[space] == Cleared(old(memory.tables)[space], i, i + Pages(old(linear.mappedSize)[i]))
      ensures !r ==> linear.b.View() == old(linear.b.View()) && linear.status == old(linear.status)
                     && memory.tables == old(memory.tables) && memory.physical.Counts() == old(memory.physical.Counts())
    {
      hide Sound, Live, RecordEnd, RecordsMapped, Conserved, Cleared, PagesOwned;
      if !linear.IsAddressInRange(address) { return false; }
      var i := (address - linear.beginAddress) / MIN_BLOCK_SIZE;
      r := linear.IsReleasableBlock(i);
      if !r { return; }
      MappedAfterLock(memory.tables[space], linear.status, linear.mappedSize, Live(linear.b.View()), i);
      linear.LockBlock(i);
      UnmapBlock(i);
    }

    /** The sweep: with no block locked it visits every block in use, ends exactly at the block
        count, leaves the whole arena free and the whole address space unmapped. */
    method ReleaseAllBlocks()
      requires Valid() && Locked !in linear.status
      modifies linear, linear.b, memory`tables, memory`left, memory.physical, memory.physical.b
      ensures Valid() && |linear.b.order| == old(|linear.b.order|) && memory.Others(space)
      ensures Live(linear.b.View()) == map[] && memory.tables[space] == map[]
      ensures forall i: nat :: i < |linear.b.order| ==> FreeAt(linear.b.View(), i)
    {
      hide Sound, Live, RecordEnd, RecordsMapped, InQueue, FreeAt, Conserved, BlocksMapped, PagesOwned;
      assert LiveFrom(linear.b.View(), 0);
      var i := 0;
      while i < |linear.b.order|
        invariant Valid() && |linear.b.order| == old(|linear.b.order|) && i <= |linear.b.order| && memory.Others(space)
        invariant LiveFrom(linear.b.View(), i) && Locked !in linear.status
      {
        assert linear.status[i] != Locked;
        AddressRoundTrip(linear.beginAddress, i);
        var released := CheckAndReleaseLinearBlock(linear.beginAddress + i * MIN_BLOCK_SIZE);
        assert i !in Live(linear.b.View());
        SweepStep(linear.b.View(), i);
        i := i + Span(linear.b.order[i]);
      }
      assert i == |linear.b.order|;
      SweptIsEmpty(linear.b.View());
      NothingOwned(memory.tables[space], linear.mappedSize);
      forall j: nat | j < |linear.b.order| ensures FreeAt(linear.b.View(), j) { NothingLive(linear.b.View(), j); }
    }

    /** Tears an address space down: sweep, give the pages of the records back, then back to the initial blocks. */
    method ReleaseAllLinearBlocks()
      requires Valid() && Locked !in linear.status
      modifies linear, linear.b, memory`tables, memory`left, memory.physical, memory.physical.b
      ensures Parts() && memory.tables == old(memory.tables)[space := map[]][records := map[]]
      ensures |linear.status| == linear.initialBlockCount && linear.b.freeSize == 0
      ensures forall i: nat :: i < linear.initialBlockCount ==> linear.status[i] == Using
    {
      hide Sound, Live, Conserved, RecordEnd, RecordsMapped, Cleared;
      ReleaseAllBlocks();
      var rlsPageBegin, rlsPageEnd := RecordEnd(recordBase, linear.initialBlockCount), RecordEnd(recordBase, |linear.b.order|);
      RecordMono(recordBase, linear.initialBlockCount, |linear.b.order|);
      RecordsGone(memory.tables[records], rlsPageBegin, rlsPageEnd);
      memory.UnmapPage(records, rlsPageBegin, rlsPageEnd - rlsPageBegin);
      linear.ResetBlocks();
    }

    ghost function LiveBlocks(): map<nat, Order>
      reads linear, linear.b
    {
      Live(linear.b.View())
    }

    /** What the source's tests and assertions make of page l. */
    ghost function Says(l: nat, need: Attribute, reserve: bool): Reservation
      requires space < |memory.tables| == |memory.left| == |memory.directories|
      reads this, linear, linear.b, memory, memory.physical
    {
      Verdict(IsInUse(LiveBlocks(), linear.status, l), TableOf(l) in memory.directories[space],
              RawEntry(memory.tables[space], memory.left[space], l), memory.physical.Counts(), |memory.physical.referenceCount|, need, reserve)
    }

    lemma Sized()
      requires Valid()
      ensures memory.Valid() && Sound(linear.b.View()) && linear.b != memory.physical.b && space < |memory.tables| == |memory.left| == |memory.directories|
      ensures records < |memory.tables| && space != records
      ensures Backed(memory.tables[space], memory.left[space], memory.directories[space])
    {
      hide Sound, Live, RecordEnd, RecordsMapped, Conserved, PagesOwned, BlocksMapped;
    }

    /** The verdict on a page, from the blocks alone. */
    lemma SaysOfPage(l: nat, need: Attribute, reserve: bool)
      requires Valid()
      ensures var v, e := Says(l, need, reserve), RawEntry(memory.tables[space], memory.left[space], l);
              var isUsing, isTail := IsUsingPage(LiveBlocks(), linear.status, linear.mappedSize, l),
                                     IsTailPage(LiveBlocks(), linear.status, linear.mappedSize, l);
              && (v.NotInUse? <==> !isUsing && !isTail)
              && (isUsing ==> l in memory.tables[space] && !v.NoTable? && !v.NoReference?
                              && (v.Lacking? <==> !Has(memory.tables[space][l].flags, need))
                              && (v.Found? ==> v.frame == memory.tables[space][l].frame))
              && (isTail ==> need.present ==> v.NoTable? || v.Lacking?)
              && (need == NO_ATTRIBUTE ==> !v.Lacking?) && (v.Found? ==> v.frame == e.frame)
    {
      hide Sound, Live, RecordEnd, RecordsMapped, Conserved, PagesOwned, BlocksMapped, IsUsingPage, IsTailPage, IsInUse, Verdict;
      Sized();
      var n := |memory.physical.referenceCount|;
      if l in memory.tables[space] && memory.tables[space][l].frame < n {
        MappedIsCounted(memory.physical.Counts(), n, memory.tables, memory.extra, space, l);
      }
      PageVerdict(linear.b.View(), memory.tables[space], memory.left[space], memory.directories[space], linear.status,
                  linear.mappedSize, memory.physical.Counts(), n, l, need, reserve);
    }

    /** The frame behind a page of a block in use, with a reference taken if asked; otherwise which of the
        source's tests or assertions fails. */
    method CheckAndTranslateBlock(l: nat, hasAttribute: Attribute, doReserve: bool) returns (r: Reservation)
      requires Valid()
      modifies memory`extra, memory.physical
      ensures Valid() && |memory.physical.referenceCount| == old(|memory.physical.referenceCount|)
      ensures r == old(Says(l, hasAttribute, doReserve))
      ensures memory.physical.Counts().Keys == old(memory.physical.Counts()).Keys
      ensures memory.extra == if r.Found? && doReserve then Inc(old(memory.extra), r.frame) else old(memory.extra)
      ensures !(r.Found? && doReserve) ==> memory.physical.Counts() == old(memory.physical.Counts())
      ensures r.Found? && doReserve ==> memory.Counted(r.frame, 1)
      ensures r.Found? && doReserve ==>
                && memory.physical.Counts() == (if r.frame < |memory.physical.referenceCount| then Inc(old(memory.physical.Counts()), r.frame)
                                                else old(memory.physical.Counts()))
                && (r.frame < |memory.physical.referenceCount| ==>
                      r.frame in old(memory.physical.Counts()) && 0 < old(memory.physical.Counts())[r.frame])
    {
      hide Sound, Live, RecordEnd, RecordsMapped, Conserved, Head, PagesOwned, BlocksMapped, IsInUse, AllBacked, TableOf;
      Sized();
      if l >= |linear.status| {
        OutsideNotInUse(linear.b.View(), linear.status, l);
        return NotInUse;
      }
      var using := linear.IsUsingBlock(l);
      CoverDecides(linear.b.View(), linear.status, l, using);
      if !using { return NotInUse; }
      if TableOf(l) !in memory.directories[space] { return NoTable; }
      var e := RawEntry(memory.tables[space], memory.left[space], l);
      if !Has(e.flags, hasAttribute) { return Lacking; }
      if doReserve {
        if e.frame < |memory.physical.referenceCount| && memory.physical.referenceCount[e.frame] == 0 { return NoReference; }
        var ok := memory.TakeReference(e.frame);
        if !ok { return CountFull; }
      }
      return Found(e.frame);
    }

    /** Translates a page and takes no reference: no attribute is asked for, so whatever the entry holds will do. */
    method CheckAndTranslatePage(l: nat) returns (r: Reservation)
      requires Valid()
      modifies memory`extra, memory.physical
      ensures Valid() && memory.extra == old(memory.extra) && memory.physical.Counts() == old(memory.physical.Counts())
      ensures r.NotInUse? <==> !IsInUse(LiveBlocks(), linear.status, l)
      ensures r.NoTable? <==> IsInUse(LiveBlocks(), linear.status, l) && TableOf(l) !in memory.directories[space]
      ensures !r.NotInUse? && !r.NoTable? ==> r == Found(RawEntry(memory.tables[space], memory.left[space], l).frame)
    {
      hide Sound, Live, RecordEnd, RecordsMapped, Conserved, PagesOwned, BlocksMapped, IsInUse, AllBacked, TableOf;
      Sized();
      r := CheckAndTranslateBlock(l, NO_ATTRIBUTE, false);
    }

    /** Managers that can serve as the source of a mapping: this one, or one for another address
        space of the same machine with block records of its own. */
    ghost predicate CanShare(src: LinearMemoryManager) {
      src.memory == memory &&
      (src == this || (src.linear != linear && src.linear.b != linear.b && {src.space, src.records} !! {space, records}))
    }

    /** Reserves one source page, maps it and gives the reservation back. */
    method MapExistingPage(src: LinearMemoryManager, l: nat, k: nat, attribute: Attribute, srcHasAttribute: Attribute)
      returns (ok: bool, why: Reservation)
      requires Valid() && src.Valid() && CanShare(src) && k !in memory.tables[space] && attribute.present
      modifies memory, memory.physical, memory.physical.b
      ensures memory.Valid() && memory.Others(space)
      ensures NewTablesOnly(old(memory.extra), memory.extra, old(memory.physical.Counts()))
      ensures why == old(src.Says(l, srcHasAttribute, true)) && (ok ==> why.Found?)
      ensures ok ==> memory.left == old(memory.left)
                     && memory.tables[space] == Put(old(memory.tables)[space], k, Entry(why.frame, attribute))
      ensures !ok ==> memory.tables == old(memory.tables) && SameOutside(old(memory.left)[space], memory.left[space], k, k + 1)
      ensures space < |memory.directories| && space < |old(memory.directories)|
      ensures why.Found? && why.frame < |memory.physical.referenceCount| ==> why.frame in old(memory.physical.Counts())
      ensures ok <==> && why.Found?
                      && (why.frame >= |memory.physical.referenceCount| || At0(old(memory.physical.Counts()), why.frame) + 1 < MAX_REFERENCE_COUNT)
                      && (TableOf(k) in old(memory.directories)[space] || old(memory.SpareFrames()) > 0)
      ensures ok ==> && memory.directories[space] == old(memory.directories)[space] + {TableOf(k)}
                     && memory.SpareFrames() + One(TableOf(k) !in old(memory.directories)[space]) == old(memory.SpareFrames())
                     && RefsMore(old(memory.physical.Counts()), memory.physical.Counts(), why.frame, 1)
      ensures !why.Found? ==> memory.left == old(memory.left) && memory.directories == old(memory.directories)
                              && memory.physical.Counts() == old(memory.physical.Counts())
    {
      hide Sound, Live, RecordEnd, RecordsMapped, Conserved, PagesOwned, BlocksMapped, IsInUse, AllBacked, Verdict, SameOutside,
        NewTablesOnly, RawEntry, TableOf, SpareCount, RefsMore;
      ghost var e0, c0 := memory.extra, memory.physical.Counts();
      NoNewTables(e0, c0);
      Sized();
      SameSelf(memory.left[space], k, k + 1);
      why := src.CheckAndTranslateBlock(l, srcHasAttribute, true);
      if !why.Found? { return false, why; }
      ok := memory.MapTaken(space, k, why.frame, attribute, e0, c0);
    }

    /** Maps source pages one by one into a reserved block until one fails; s pages were mapped. */
    method MapExistingRun(src: LinearMemoryManager, l: nat, h: nat, n: nat, attribute: Attribute, srcHasAttribute: Attribute)
      returns (s: nat, why: Reservation)
      requires Valid() && src.Valid() && CanShare(src) && attribute.present
      requires h < |linear.status| && linear.status[h] == Locked && Pages(linear.mappedSize[h]) == n
      requires h in Live(linear.b.View()) && n <= Span(Live(linear.b.View())[h])
      requires UnmappedRange(memory.tables[space], h, h + n)
      modifies memory, memory.physical, memory.physical.b
      ensures Valid() && src.Valid() && memory.Others(space) && s <= n
      ensures NewTablesOnly(old(memory.extra), memory.extra, old(memory.physical.Counts()))
      ensures Extends(old(memory.tables)[space], memory.tables[space], h, h + s)
      ensures ShowsRaw(memory.tables[space], h, s, attribute, old(memory.tables)[src.space], old(memory.left)[src.space], l)
      ensures AllPass(src.LiveBlocks(), src.linear.status, old(memory.tables)[src.space], old(memory.left)[src.space], srcHasAttribute, l, s)
      ensures s < n ==> Explains(src.LiveBlocks(), src.linear.status, old(memory.tables)[src.space], old(memory.left)[src.space],
                                 srcHasAttribute, l + s, why)
      ensures s < n && !why.Found? ==> why == src.Says(l + s, srcHasAttribute, true)
      ensures space < |old(memory.directories)|
      ensures s < n && why.Found? ==>
                || UsedUp(old(memory.physical.Counts()), |memory.physical.referenceCount|, old(memory.tables)[src.space], old(memory.left)[src.space],
                          l, s, why.frame)
                || old(memory.SpareFrames()) < NewTables(old(memory.directories)[space], h, s + 1)
    {
      hide Sound, Live, RecordEnd, RecordsMapped, Conserved, Extends, PagesOwned, BlocksMapped, NewTablesOnly,
        ShowsRaw, AllPass, IsInUse, AllBacked, Verdict, Explains, Passes, RefsMore, SpareCount, TableOf, RawEntry, NewTables, Spent,
        UsesCounted, UsedUp, Parts;
      Sized();
      src.Sized();
      ghost var t0, e0, c0 := memory.tables[space], memory.extra, memory.physical.Counts();
      ghost var ts, ls := memory.tables[src.space], memory.left[src.space];
      ExtendNone(t0, h);
      NoNewTables(e0, c0);
      RawNone(t0, h, attribute, ts, ls, l);
      AllPassNone(src.LiveBlocks(), src.linear.status, ts, ls, srcHasAttribute, l);
      s, why := 0, NotInUse;
      ghost var d0, spare0 := memory.directories[space], memory.SpareFrames();
      SpentNone(d0, spare0, h);
      UsesNone(c0, ts, ls, l);
      while s < n
        invariant 0 <= s <= n && Valid() && src.Valid() && memory.Others(space) && memory.left == old(memory.left)
        invariant Extends(t0, memory.tables[space], h, h + s) && NewTablesOnly(e0, memory.extra, c0)
        invariant ShowsRaw(memory.tables[space], h, s, attribute, ts, ls, l)
        invariant AllPass(src.LiveBlocks(), src.linear.status, ts, ls, srcHasAttribute, l, s)
        invariant space < |memory.directories| && Spent(d0, memory.directories[space], spare0, memory.SpareFrames(), h, s, 0)
        invariant UsesCounted(c0, memory.physical.Counts(), ts, ls, l, s)
        modifies memory, memory.physical, memory.physical.b
      {
        ghost var d1, spare1, c1, m := memory.directories[space], memory.SpareFrames(), memory.physical.Counts(), |memory.physical.referenceCount|;
        ExtendFree(t0, memory.tables[space], h, h + s);
        var ok;
        ok, why := MapExistingStep(src, l, h, s, n, attribute, srcHasAttribute, t0, e0, c0, old(memory.tables));
        if !ok {
          if why.Found? && spare1 < One(TableOf(h + s) !in d1) { SpentAll(d0, d1, spare0, spare1, h, s, s + 1, 0, 0); }
          else if why.Found? { FullIsUsedUp(c0, c1, m, ts, ls, l, s, why.frame); }
          break;
        }
        SpentOne(d0, d1, spare0, spare1, h, s, 0, 0, memory.SpareFrames());
        UsesOne(c0, c1, memory.physical.Counts(), ts, ls, l, s);
        PassFound(src.LiveBlocks(), src.linear.status, ts, ls, srcHasAttribute, l + s, why);
        AllPassMore(src.LiveBlocks(), src.linear.status, ts, ls, srcHasAttribute, l, s);
        s := s + 1;
      }
    }

    /** One round of the loop above. */
    method MapExistingStep(src: LinearMemoryManager, l: nat, h: nat, s: nat, n: nat, attribute: Attribute, srcHasAttribute: Attribute,
                           ghost t0: Table, ghost e0: map<nat, nat>, ghost c0: map<nat, nat>, ghost ts0: seq<Table>)
      returns (ok: bool, why: Reservation)
      requires Valid() && src.Valid() && CanShare(src) && s < n && h + s !in memory.tables[space] && attribute.present
      requires h < |linear.status| && linear.status[h] == Locked && Pages(linear.mappedSize[h]) == n
      requires h in Live(linear.b.View()) && n <= Span(Live(linear.b.View())[h])
      requires |ts0| == |memory.tables|
      requires t0 == ts0[space] && memory.tables == ts0[space := memory.tables[space]]
      requires Conserved(c0, |memory.physical.referenceCount|, ts0, e0) && forall f: nat :: f in c0 ==> f < |memory.physical.referenceCount|
      requires Extends(t0, memory.tables[space], h, h + s) && NewTablesOnly(e0, memory.extra, c0)
      requires ShowsRaw(memory.tables[space], h, s, attribute, ts0[src.space], memory.left[src.space], l)
      modifies memory, memory.physical, memory.physical.b
      ensures Valid() && src.Valid() && memory.Others(space) && NewTablesOnly(e0, memory.extra, c0)
      ensures Explains(src.LiveBlocks(), src.linear.status, ts0[src.space], old(memory.left)[src.space], srcHasAttribute, l + s, why)
      ensures !why.Found? ==> why == src.Says(l + s, srcHasAttribute, true)
      ensures ok ==> why.Found? && memory.left == old(memory.left) && Extends(t0, memory.tables[space], h, h + s + 1)
                     && ShowsRaw(memory.tables[space], h, s + 1, attribute, ts0[src.space], memory.left[src.space], l)
      ensures !ok ==> memory.tables == old(memory.tables)
      ensures space < |memory.directories| && space < |old(memory.directories)|
      ensures ok ==> && memory.directories[space] == old(memory.directories)[space] + {TableOf(h + s)}
                     && memory.SpareFrames() + One(TableOf(h + s) !in old(memory.directories)[space]) == old(memory.SpareFrames())
                     && RefsMore(old(memory.physical.Counts()), memory.physical.Counts(),
                                 RawEntry(ts0[src.space], old(memory.left)[src.space], l + s).frame, 1)
      ensures !ok && why.Found? ==>
                || (why.frame < |memory.physical.referenceCount| && why.frame in old(memory.physical.Counts())
                    && old(memory.physical.Counts())[why.frame] + 1 >= MAX_REFERENCE_COUNT)
                || old(memory.SpareFrames()) < One(TableOf(h + s) !in old(memory.directories)[space])
    {
      hide Sound, Live, RecordEnd, RecordsMapped, Conserved, Extends, PagesOwned, BlocksMapped, NewTablesOnly,
        ShowsRaw, IsInUse, AllBacked, Explains, Verdict, RefsMore, SpareCount, TableOf, RawEntry;
      Sized();
      ghost var e1, c1, t1, n0 := memory.extra, memory.physical.Counts(), memory.tables[space], |memory.physical.referenceCount|;
      SourceKept(src, l + s, h, s, n, srcHasAttribute, ts0);
      forall g: nat | At0(c0, g) > 0 ensures At0(c1, g) > 0 {
        StillCounted(c0, c1, n0, ts0, memory.tables, space, h, h + s, e0, e1, g);
      }
      ok, why := MapExistingPage(src, l + s, h + s, attribute, srcHasAttribute);
      ChainMore(e0, e1, memory.extra, c0, c1);
      if ok {
        ExplainsFrame(src.LiveBlocks(), src.linear.status, ts0[src.space], memory.left[src.space], srcHasAttribute, l + s, why);
        OneShown(t0, t1, h, s, attribute, ts0[src.space], memory.left[src.space], l);
        PartlyMapped(t1, h, s, n);
      }
    }

    /** The pages mapped so far are none of the source's: the next one is judged by what its entry held at the start. */
    lemma SourceKept(src: LinearMemoryManager, p: nat, h: nat, s: nat, n: nat, need: Attribute, ts0: seq<Table>)
      requires Valid() && src.Valid() && CanShare(src) && s < n
      requires h < |linear.status| && linear.status[h] == Locked && h in Live(linear.b.View()) && n <= Span(Live(linear.b.View())[h])
      requires |ts0| == |memory.tables| && memory.tables == ts0[space := memory.tables[space]]
      requires Extends(ts0[space], memory.tables[space], h, h + s)
      ensures space < |memory.left| && src.space < |memory.left| && |memory.left| == |memory.directories|
      ensures Explains(src.LiveBlocks(), src.linear.status, ts0[src.space], memory.left[src.space], need, p, src.Says(p, need, true))
    {
      hide Sound, Live, RecordEnd, RecordsMapped, Conserved, Extends, PagesOwned, BlocksMapped, IsInUse, AllBacked, Explains, Verdict;
      Sized();
      var live, st, ts1, ls1 := src.LiveBlocks(), src.linear.status, memory.tables[src.space], memory.left[src.space];
      VerdictMeans(live, st, ts1, ls1, TableOf(p) in memory.directories[src.space],
                   memory.physical.Counts(), |memory.physical.referenceCount|, need, p);
      if src == this && IsInUse(live, st, p) {
        LiveIsOrder(linear.b.View(), h);
        InUseNotLocked(linear.b.View(), st, h, n, p);
        RawOutside(ts0[space], ts1, ls1, h, h + s, p);
      }
      ExplainsSame(live, st, ts0[src.space], ts1, ls1, need, p, src.Says(p, need, true));
    }

    /** Blocks and pages still agree after one more page of a locked block. */
    lemma PartlyMapped(t1: Table, h: nat, s: nat, n: nat)
      requires linear.Valid() && space < |memory.tables| && s < n
      requires PagesOwned(t1, Live(linear.b.View()), linear.mappedSize)
      requires BlocksMapped(t1, linear.status, linear.mappedSize, Live(linear.b.View()))
      requires Extends(t1, memory.tables[space], h + s, h + s + 1)
      requires h < |linear.status| && h in Live(linear.b.View()) && Pages(linear.mappedSize[h]) == n <= Span(Live(linear.b.View())[h])
      ensures PagesOwned(memory.tables[space], Live(linear.b.View()), linear.mappedSize)
      ensures BlocksMapped(memory.tables[space], linear.status, linear.mappedSize, Live(linear.b.View()))
    {
      hide Sound, Live;
      OneMoreOwned(t1, memory.tables[space], Live(linear.b.View()), linear.mappedSize, h, h + s);
      MappedAfterExtend(t1, memory.tables[space], linear.status, linear.mappedSize, Live(linear.b.View()), h + s, h + s + 1);
    }

    /** Fills a reserved block with the source's pages, then commits it or gives it back. */
    method ShowExisting(src: LinearMemoryManager, l: nat, h: nat, n: nat, attribute: Attribute, srcHasAttribute: Attribute,
                        ghost live0: map<nat, Order>) returns (r: Outcome)
      requires Valid() && src.Valid() && CanShare(src) && attribute.present
      requires h < |linear.status| && linear.status[h] == Locked && Pages(linear.mappedSize[h]) == n && h !in live0
      requires h in LiveBlocks() && LiveBlocks() == live0[h := LiveBlocks()[h]] && n <= Span(LiveBlocks()[h])
      requires PagesOwned(memory.tables[space], live0, linear.mappedSize) && UnmappedRange(memory.tables[space], h, h + n)
      modifies linear, linear.b, memory, memory.physical, memory.physical.b
      ensures Valid() && src.Valid() && memory.Others(space) && !r.NoBlock?
      ensures NewTablesOnly(old(memory.extra), memory.extra, old(memory.physical.Counts()))
      ensures r.Shown? ==>
                && r.block == h && linear.status == old(linear.status)[h := Using] && linear.mappedSize == old(linear.mappedSize)
                && Extends(old(memory.tables)[space], memory.tables[space], h, h + n)
                && ShowsRaw(memory.tables[space], h, n, attribute, old(memory.tables)[src.space], old(memory.left)[src.space], l)
                && AllPass(old(src.LiveBlocks()), old(src.linear.status), old(memory.tables)[src.space], old(memory.left)[src.space],
                           srcHasAttribute, l, n)
      ensures |linear.b.order| == old(|linear.b.order|)
      ensures r.Refused? ==> memory.tables == old(memory.tables) && LiveBlocks() == live0 && (r.why.NotInUse? || r.why.Found?)
      ensures r.Halted? ==> !r.why.NotInUse? && !r.why.Found?
                            && r.why == src.Says(l + r.page, srcHasAttribute, true)
      ensures space < |old(memory.directories)|
      ensures r.Refused? && r.why.Found? ==>
                || UsedUp(old(memory.physical.Counts()), |memory.physical.referenceCount|, old(memory.tables)[src.space], old(memory.left)[src.space],
                          l, r.page, r.why.frame)
                || old(memory.SpareFrames()) < NewTables(old(memory.directories)[space], h, r.page + 1)
      ensures r.Refused? || r.Halted? ==>
                r.page < n && StopsAt(old(src.LiveBlocks()), old(src.linear.status), old(memory.tables)[src.space], old(memory.left)[src.space],
                                      srcHasAttribute, l, r.page, r.why)
    {
      hide Sound, Live, RecordEnd, RecordsMapped, Conserved, Extends, PagesOwned, BlocksMapped, NewTablesOnly,
        ShowsRaw, AllPass, IsInUse, AllBacked, Explains, Verdict, UsedUp, NewTables, SpareCount;
      Sized();
      ghost var t0 := memory.tables[space];
      var s, why := MapExistingRun(src, l, h, n, attribute, srcHasAttribute);
      if s == n {
        Commit(h, s, t0, live0);
        return Shown(h);
      }
      if !why.NotInUse? && !why.Found? { return Halted(s, why); }
      AbortMapped(h, s, t0, live0);
      assert memory.tables == old(memory.tables);
      return Refused(s, why);
    }

    /** Reserves a block for pages of another manager, or of this one; what that one says of its pages stays the same. */
    method ReserveFor(src: LinearMemoryManager, size: nat) returns (b: Option<nat>)
      requires Valid() && src.Valid() && CanShare(src) && size > 0 && size % PAGE_SIZE == 0
      modifies linear, linear.b, memory, memory.physical, memory.physical.b
      ensures Valid() && src.Valid() && Grew() && GrowthTook() && memory.left == old(memory.left)
      ensures space < |memory.tables| && space < |old(memory.tables)| && memory.tables[space] == old(memory.tables)[space]
      ensures src.space < |memory.tables| && src.space < |old(memory.tables)| && memory.tables[src.space] == old(memory.tables)[src.space]
      ensures PagesOwned(memory.tables[space], old(LiveBlocks()), linear.mappedSize)
      ensures SameUse(old(src.LiveBlocks()), old(src.linear.status), old(src.linear.mappedSize),
                      src.LiveBlocks(), src.linear.status, src.linear.mappedSize)
      ensures records < |old(memory.directories)| && space < |memory.directories| && space < |old(memory.directories)|
      ensures b.Some? <==> old(Reservable(size))
      ensures b.Some? ==> memory.SpareFrames() + old(ReservePrice(size)) == old(memory.SpareFrames())
      ensures memory.directories[space] == old(memory.directories)[space]
      ensures b.None? ==> LiveBlocks() == old(LiveBlocks())
      ensures b.Some? ==>
                && CeilOrder(size) <= MAX_ORDER && b.value < |linear.status| && linear.status[b.value] == Locked
                && linear.mappedSize[b.value] == size && b.value !in old(LiveBlocks())
                && LiveBlocks() == old(LiveBlocks())[b.value := CeilOrder(size)] && Pages(size) <= Span(CeilOrder(size))
                && UnmappedRange(memory.tables[space], b.value, b.value + Pages(size))
    {
      hide Sound, Live, Conserved, Extends, PagesOwned, BlocksMapped, CeilOrder, SameUse, RecordEnd, RecordsMapped, Growth, AllBacked,
        UnmappedRange, Fits, Grows, GrowthPrice, ReservePrice, Reservable, SpareCount, Paid, RefsMore;
      ghost var t0, live0 := memory.tables[space], LiveBlocks();
      SameUseSelf(src.LiveBlocks(), src.linear.status, src.linear.mappedSize, memory.tables[src.space]);
      b := ReserveBlock(size);
      GrowthTables(old(memory.tables), memory.tables, records, RecordEnd(recordBase, old(|linear.b.order|)), RecordEnd(recordBase, |linear.b.order|),
                   old(memory.extra), memory.extra, old(memory.physical.Counts()), memory.physical.Counts());
      if b.Some? {
        ExtendNone(t0, b.value);
        OwnedAfterMap(t0, t0, live0, linear.mappedSize, linear.mappedSize, b.value, CeilOrder(size), 0);
      }
    }

    /** Maps the pages that size bytes from page l of src show into a new block of this space.  The block shows what the
        page-table entries of the range hold, which are the range's own frames if and only if no page of it is in a tail. */
    method CheckAndMapExistingPages(src: LinearMemoryManager, l: nat, size: nat, attribute: Attribute, srcHasAttribute: Attribute)
      returns (r: Outcome, ghost block: nat)
      requires Valid() && src.Valid() && CanShare(src) && attribute.present && size > 0 && size % PAGE_SIZE == 0
      modifies linear, linear.b, memory, memory.physical, memory.physical.b
      ensures Valid() && src.Valid() && OnlyHere() && (r.NoBlock? || r.Refused? ==> Undone())
      ensures NewTablesOnly(old(memory.extra), memory.extra, old(memory.physical.Counts()))
      ensures r.Shown? ==>
                && r.block == block && r.block < |linear.status| && linear.status[r.block] == Using && linear.mappedSize[r.block] == size
                && Extends(old(memory.tables)[space], memory.tables[space], r.block, r.block + Pages(size))
                && ShowsRaw(memory.tables[space], r.block, Pages(size), attribute, old(memory.tables)[src.space], old(memory.left)[src.space], l)
                && AllPass(old(src.LiveBlocks()), old(src.linear.status), old(memory.tables)[src.space], old(memory.left)[src.space],
                           srcHasAttribute, l, Pages(size))
      ensures r.Shown? ==>
                var usingAll := AllUsing(old(src.LiveBlocks()), old(src.linear.status), old(src.linear.mappedSize), l, Pages(size));
                && (SameFrames(memory.tables[space], r.block, Pages(size), old(memory.tables)[src.space], l) <==> usingAll)
                && (srcHasAttribute.present ==> usingAll)
      ensures records < |old(memory.directories)| && space < |old(memory.directories)|
      ensures r.NoBlock? <==> !old(Reservable(size))
      ensures !r.NoBlock? ==> UnmappedRange(old(memory.tables)[space], block, block + Pages(size))
      ensures r.Refused? && r.why.Found? ==>
                || UsedUp(old(memory.physical.Counts()), |memory.physical.referenceCount|, old(memory.tables)[src.space], old(memory.left)[src.space],
                          l, r.page, r.why.frame)
                || old(memory.SpareFrames()) < old(ReservePrice(size)) + NewTables(old(memory.directories)[space], block, r.page + 1)
      ensures r.Refused? ==> r.why.NotInUse? || r.why.Found?
      ensures r.Halted? ==> !r.why.NotInUse? && !r.why.Found?
                            && r.why == src.Says(l + r.page, srcHasAttribute, true)
      ensures r.Refused? || r.Halted? ==>
                && r.page < Pages(size)
                && StopsAt(old(src.LiveBlocks()), old(src.linear.status), old(memory.tables)[src.space], old(memory.left)[src.space],
                           srcHasAttribute, l, r.page, r.why)
    {
      hide Sound, Live, Conserved, Extends, PagesOwned, BlocksMapped, NewTablesOnly, CeilOrder, SameFrames, ShowsRaw, AllPass,
        SameUse, AllUsing, IsInUse, RecordEnd, RecordsMapped, AllPositive, Growth, StopsAt, AllBacked, Verdict, UnmappedRange,
        Fits, Grows, GrowthPrice, ReservePrice, Reservable, SpareCount, NewTables, Paid, RefsMore, UsedUp, Kept, Parts;
      Sized();
      src.Sized();
      ghost var live0, use, st, ms := LiveBlocks(), src.LiveBlocks(), src.linear.status, src.linear.mappedSize;
      ghost var ts, ls, s0, ds := memory.tables[src.space], memory.left[src.space], src.linear.b.View(), memory.directories[src.space];
      NoNewTables(memory.extra, memory.physical.Counts());
      CountsPositive(memory.physical.referenceCount);
      ghost var m := |memory.physical.referenceCount|;
      var b := ReserveFor(src, size);
      Sized();
      src.Sized();
      block := if b.Some? then b.value else 0;
      ghost var ts1, e1, c1 := memory.tables, memory.extra, memory.physical.Counts();
      ghost var lo, hi := RecordEnd(recordBase, old(|linear.b.order|)), RecordEnd(recordBase, |linear.b.order|);
      GrowthTables(old(memory.tables), ts1, records, lo, hi, old(memory.extra), e1, old(memory.physical.Counts()), c1);
      if b.None? {
        KeptByGrowth(m, old(memory.tables), ts1, records, lo, hi, old(memory.extra), e1, old(memory.physical.Counts()), c1);
        return NoBlock, 0;
      }
      ghost var use1, st1, ms1 := src.LiveBlocks(), src.linear.status, src.linear.mappedSize;
      CountsPositive(memory.physical.referenceCount);
      CountsInRange(old(memory.physical.referenceCount));
      r := ShowExisting(src, l, b.value, Pages(size), attribute, srcHasAttribute, live0);
      Sized();
      GrowthChain(old(memory.tables), ts1, records, lo, hi, old(memory.extra), e1, memory.extra, old(memory.physical.Counts()), c1);
      match r {
        case Shown(_) =>
          PassSame(use, st, ms, use1, st1, ms1, ts, ls, srcHasAttribute, l, Pages(size));
          ShownSameIff(s0, ts, ls, ds, st, ms, memory.tables[space], b.value, Pages(size), attribute, srcHasAttribute, l);
        case Refused(k, why) =>
          KeptAfter(m, old(memory.tables), ts1, records, lo, hi, old(memory.extra), e1, memory.extra,
                    old(memory.physical.Counts()), c1, memory.physical.Counts());
          StopsSame(use, st, ms, use1, st1, ms1, ts, ls, srcHasAttribute, l, k, why);
          if why.Found? && UsedUp(c1, m, ts, ls, l, k, why.frame) { UsedUpSame(old(memory.physical.Counts()), c1, m, ts, ls, l, k, why.frame); }
        case Halted(k, why) => StopsSame(use, st, ms, use1, st1, ms1, ts, ls, srcHasAttribute, l, k, why);
      }
    }
  }
}
