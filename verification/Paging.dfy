/** Page tables over reference-counted frames: every reference is accounted for. */
module Paging {
  import opened Arith
  import opened Common
  import opened Buddy
  import opened BuddyTheorems
  import opened BuddyManager
  import opened PhysicalBlock

  const PAGE_SIZE := 4096
  const PAGES_PER_TABLE := 1024

  /** The flags of a page-table entry, and what a caller may ask of them. */
  datatype Attribute = Attribute(present: bool, writable: bool, user: bool, nonCached: bool)

  const NO_ATTRIBUTE := Attribute(false, false, false, false)
  const KERNEL_PAGE := Attribute(true, true, false, false)
  const USER_READ_ONLY_PAGE := Attribute(true, false, true, false)

  /** `(flags & need) == need`. */
  predicate Has(flags: Attribute, need: Attribute) {
    && (need.present ==> flags.present) && (need.writable ==> flags.writable)
    && (need.user ==> flags.user) && (need.nonCached ==> flags.nonCached)
  }

  /** A page-table entry keeps its frame, and its reference, until it is released; what it held stays in it. */
  datatype Entry = Entry(frame: nat, flags: Attribute)

  /** What an entry of a new page table holds. */
  const ZERO_ENTRY := Entry(0, NO_ATTRIBUTE)

  function Invalidated(e: Entry): Entry { Entry(e.frame, e.flags.(present := false)) }

  type Table = map<nat, Entry>

  function TableOf(l: nat): nat { l / PAGES_PER_TABLE }

  function Put(t: Table, l: nat, e: Entry): Table { t[l := e] }

  ghost function Mapping(t: Table, f: nat): set<nat> { set l | l in t && t[l].frame == f }

  ghost function MapCounts(ts: seq<Table>, f: nat): seq<nat> {
    seq(|ts|, i requires 0 <= i < |ts| => |Mapping(ts[i], f)|)
  }

  /** Page-table entries, over all address spaces, that refer to a frame. */
  ghost function Mappings(ts: seq<Table>, f: nat): nat { Sum(MapCounts(ts, f)) }

  ghost function At0(m: map<nat, nat>, f: nat): nat { if f in m then m[f] else 0 }

  /** Reference-count conservation: each managed frame's count is its mappings plus what is
      held outside page tables: reservations, page tables themselves and boot-time references. */
  ghost predicate Conserved(counts: map<nat, nat>, n: nat, ts: seq<Table>, extra: map<nat, nat>) {
    forall f: nat :: f < n ==> At0(counts, f) == Mappings(ts, f) + At0(extra, f)
  }

  ghost function Inc(m: map<nat, nat>, f: nat): map<nat, nat> { m[f := At0(m, f) + 1] }

  ghost function Dec(m: map<nat, nat>, f: nat): map<nat, nat>
    requires At0(m, f) > 0
  {
    m[f := At0(m, f) - 1]
  }

  lemma TableUpdate(ts: seq<Table>, sp: nat, t: Table, f: nat)
    requires sp < |ts|
    ensures Mappings(ts[sp := t], f) + |Mapping(ts[sp], f)| == Mappings(ts, f) + |Mapping(t, f)|
  {
    SumUpdate(MapCounts(ts, f), sp, |Mapping(t, f)|);
    assert MapCounts(ts[sp := t], f) == MapCounts(ts, f)[sp := |Mapping(t, f)|];
  }

  lemma MapOne(t: Table, l: nat, e: Entry, f: nat)
    requires l !in t
    ensures |Mapping(Put(t, l, e), f)| == |Mapping(t, f)| + if e.frame == f then 1 else 0
  {
    if e.frame == f {
      assert Mapping(Put(t, l, e), f) == Mapping(t, f) + {l};
    } else {
      assert Mapping(Put(t, l, e), f) == Mapping(t, f);
    }
  }

  lemma UnmapOne(t: Table, l: nat, f: nat)
    requires l in t
    ensures |Mapping(t - {l}, f)| + (if t[l].frame == f then 1 else 0) == |Mapping(t, f)|
  {
    assert t == Put(t - {l}, l, t[l]);
    MapOne(t - {l}, l, t[l], f);
  }

  lemma FlagOnly(t: Table, l: nat, f: nat)
    requires l in t
    ensures Mapping(Put(t, l, Invalidated(t[l])), f) == Mapping(t, f)
  {
  }

  /** A mapped managed frame has a reference. */
  lemma MappedIsCounted(counts: map<nat, nat>, n: nat, ts: seq<Table>, extra: map<nat, nat>, sp: nat, l: nat)
    requires Conserved(counts, n, ts, extra) && sp < |ts| && l in ts[sp] && ts[sp][l].frame < n
    ensures At0(counts, ts[sp][l].frame) > 0
  {
    var f := ts[sp][l].frame;
    assert l in Mapping(ts[sp], f);
    SumAtLeast(MapCounts(ts, f), sp);
  }

  /** From e0 to e1 only new page tables, on frames that had no reference in c0, joined the
      references held outside page tables. */
  ghost predicate NewTablesOnly(e0: map<nat, nat>, e1: map<nat, nat>, c0: map<nat, nat>) {
    forall f: nat :: At0(e1, f) == At0(e0, f) || (At0(c0, f) == 0 && At0(e0, f) == 0 && At0(e1, f) == 1)
  }

  /** If the mappings are back where they were and only page tables were added, every frame that
      had references has the same ones. */
  lemma FailureRestores(c0: map<nat, nat>, c1: map<nat, nat>, n: nat, ts: seq<Table>, e0: map<nat, nat>, e1: map<nat, nat>, f: nat)
    requires Conserved(c0, n, ts, e0) && Conserved(c1, n, ts, e1) && NewTablesOnly(e0, e1, c0) && f < n
    ensures At0(c0, f) > 0 ==> At0(c1, f) == At0(c0, f)
    ensures At0(c0, f) == 0 ==> At0(c1, f) <= 1
  {
  }

  // ---------- what each elementary change does to the account ----------

  lemma AccountSet(c: map<nat, nat>, n: nat, ts: seq<Table>, extra: map<nat, nat>, sp: nat, l: nat, e: Entry)
    requires Conserved(c, n, ts, extra) && sp < |ts| && l !in ts[sp] && At0(extra, e.frame) > 0
    ensures Conserved(c, n, ts[sp := Put(ts[sp], l, e)], Dec(extra, e.frame))
  {
    var t := Put(ts[sp], l, e);
    forall g: nat | g < n ensures At0(c, g) == Mappings(ts[sp := t], g) + At0(Dec(extra, e.frame), g) {
      MapOne(ts[sp], l, e, g);
      TableUpdate(ts, sp, t, g);
    }
  }

  lemma AccountFlag(c: map<nat, nat>, n: nat, ts: seq<Table>, extra: map<nat, nat>, sp: nat, l: nat)
    requires Conserved(c, n, ts, extra) && sp < |ts| && l in ts[sp]
    ensures Conserved(c, n, ts[sp := Put(ts[sp], l, Invalidated(ts[sp][l]))], extra)
  {
    var t := Put(ts[sp], l, Invalidated(ts[sp][l]));
    forall g: nat | g < n ensures At0(c, g) == Mappings(ts[sp := t], g) + At0(extra, g) {
      FlagOnly(ts[sp], l, g);
      TableUpdate(ts, sp, t, g);
    }
  }

  /** Counts after one reference to f is given back. */
  ghost function Dropped(c: map<nat, nat>, n: nat, f: nat): map<nat, nat>
    requires f < n ==> f in c
  {
    if f >= n then c else if c[f] > 1 then c[f := c[f] - 1] else c - {f}
  }

  lemma AccountUnset(c: map<nat, nat>, n: nat, ts: seq<Table>, extra: map<nat, nat>, sp: nat, l: nat)
    requires Conserved(c, n, ts, extra) && sp < |ts| && l in ts[sp] && (forall x :: x in c ==> c[x] > 0)
    requires ts[sp][l].frame < n ==> ts[sp][l].frame in c
    ensures Conserved(Dropped(c, n, ts[sp][l].frame), n, ts[sp := ts[sp] - {l}], extra)
  {
    var t, d := ts[sp] - {l}, Dropped(c, n, ts[sp][l].frame);
    forall g: nat | g < n ensures At0(d, g) == Mappings(ts[sp := t], g) + At0(extra, g) {
      UnmapOne(ts[sp], l, g);
      TableUpdate(ts, sp, t, g);
    }
  }

  lemma AccountDrop(c: map<nat, nat>, n: nat, ts: seq<Table>, extra: map<nat, nat>, f: nat)
    requires Conserved(c, n, ts, extra) && At0(extra, f) > 0 && (forall x :: x in c ==> c[x] > 0)
    ensures f < n ==> f in c
    ensures Conserved(Dropped(c, n, f), n, ts, Dec(extra, f))
  {
    if f < n { assert At0(c, f) == Mappings(ts, f) + At0(extra, f); }
  }

  lemma AccountTake(c: map<nat, nat>, n: nat, ts: seq<Table>, extra: map<nat, nat>, f: nat, c': map<nat, nat>)
    requires Conserved(c, n, ts, extra) && c' == if f < n then c[f := At0(c, f) + 1] else c
    ensures Conserved(c', n, ts, Inc(extra, f))
  {
  }

  /** A one-page allocation hands out one minimal block. */
  lemma OnePage()
    ensures CeilOrder(PAGE_SIZE) == MIN_ORDER && SplitOrder(PAGE_SIZE, PAGE_SIZE) == MIN_ORDER
    ensures Bytes(MIN_ORDER) == PAGE_SIZE && DivCeil(PAGE_SIZE, Bytes(MIN_ORDER)) == 1
  {
  }

  lemma OneRef(c: map<nat, nat>, live: map<nat, Order>, f: nat)
    ensures AddRefs(c, f, MIN_ORDER, 1) == c[f := 1] && AddRun(live, f, MIN_ORDER, 1) == live[f := MIN_ORDER]
    ensures RunFresh(live, f, MIN_ORDER, 1) ==> f !in live
  {
    assert At(f, MIN_ORDER, 0) == f;
    assert AddRefs(c, f, MIN_ORDER, 0) == c && AddRun(live, f, MIN_ORDER, 0) == live;
  }

  // ---------- running out of frames ----------

  /** Frame g is in no block that was handed out. */
  ghost predicate Spare(live: map<nat, Order>, n: nat, g: nat) {
    g < n && forall h: nat :: h in live ==> !(h <= g < h + Span(live[h]))
  }

  /** How many frames are left. */
  ghost function SpareCount(live: map<nat, Order>, n: nat): nat { |SpareSet(live, n)| }

  ghost function SpareSet(live: map<nat, Order>, n: nat): set<nat> { set g: nat | g < n && Spare(live, n, g) }

  /** Blocks live at the same time do not overlap. */
  lemma LiveDisjoint(s: Blocks, g: nat, h: nat, i: nat)
    requires Sound(s) && g in Live(s) && h in Live(s) && g <= i < g + Span(s.order[g]) && h <= i < h + Span(s.order[h])
    ensures g == h
  {
    Partition(s.order, i);
  }

  /** One page can be had unless no frame is left. */
  lemma NoPageLeft(s: Blocks)
    requires Sound(s) && NoneFree(s, 0)
    ensures SpareCount(Live(s), |s.order|) == 0
  {
    forall g: nat | g < |s.order| ensures !Spare(Live(s), |s.order|, g) {
      var h := LiveOrFree(s, g);
      assert h in Live(s) && Live(s)[h] == s.order[h];
    }
    assert SpareSet(Live(s), |s.order|) == {};
  }

  /** A frame newly handed out was spare. */
  lemma TakenWasSpare(s: Blocks, live: map<nat, Order>, f: nat)
    requires Sound(s) && f !in live && f in Live(s) && s.order[f] == MIN_ORDER && forall h: nat :: h in live ==> h in Live(s) && live[h] == Live(s)[h]
    ensures Spare(live, |s.order|, f)
  {
    assert Span(MIN_ORDER) == 1;
    forall h: nat | h in live && h <= f < h + Span(live[h]) ensures false { LiveDisjoint(s, h, f, f); }
  }

  lemma OneSpareLess(live: map<nat, Order>, n: nat, f: nat)
    requires Spare(live, n, f)
    ensures SpareCount(live[f := MIN_ORDER], n) + 1 == SpareCount(live, n)
  {
    assert Span(MIN_ORDER) == 1;
    var live' := live[f := MIN_ORDER];
    forall g: nat ensures Spare(live', n, g) <==> Spare(live, n, g) && g != f {
      assert f !in live by { assert f in live ==> f < f + Span(live[f]); }
      if Spare(live', n, g) { forall h: nat | h in live ensures !(h <= g < h + Span(live[h])) { assert h in live' && live'[h] == live[h]; } }
      if Spare(live, n, g) && g != f { forall h: nat | h in live' ensures !(h <= g < h + Span(live'[h])) { assert h != f ==> h in live; } }
      assert f in live' && live'[f] == MIN_ORDER;
    }
    assert SpareSet(live, n) == SpareSet(live', n) + {f};
  }

  /** A run of single frames takes as many. */
  lemma {:induction false} RunSpareLess(s: Blocks, live: map<nat, Order>, b: nat, n: nat, k: nat)
    requires Sound(s) && k <= n && RunFresh(live, b, MIN_ORDER, n) && Live(s) == AddRun(live, b, MIN_ORDER, n)
    ensures SpareCount(AddRun(live, b, MIN_ORDER, k), |s.order|) + k == SpareCount(live, |s.order|)
    decreases k
  {
    hide Sound, Live, SpareCount;
    if k > 0 {
      RunSpareLess(s, live, b, n, k - 1);
      var part, f := AddRun(live, b, MIN_ORDER, k - 1), At(b, MIN_ORDER, k - 1);
      RunFreshAt(live, b, MIN_ORDER, n, k - 1);
      AddRunHas(live, b, MIN_ORDER, n, k - 1);
      if f in part { AddRunBelow(live, b, MIN_ORDER, k - 1, f); }
      PartOfRun(live, b, k - 1, n);
      RunOrder(live, b, n, k - 1);
      LiveOrderIs(s, f);
      TakenWasSpare(s, part, f);
      OneSpareLess(part, |s.order|, f);
    }
  }

  lemma LiveOrderIs(s: Blocks, f: nat)
    requires f in Live(s)
    ensures f < |s.order| && Live(s)[f] == s.order[f]
  {
  }

  lemma {:induction false} RunOrder(live: map<nat, Order>, b: nat, n: nat, k: nat)
    requires k < n
    ensures At(b, MIN_ORDER, k) in AddRun(live, b, MIN_ORDER, n) && AddRun(live, b, MIN_ORDER, n)[At(b, MIN_ORDER, k)] == MIN_ORDER
  {
    if k < n - 1 { RunOrder(live, b, n - 1, k); }
  }

  lemma {:induction false} PartOfRun(live: map<nat, Order>, b: nat, k: nat, n: nat)
    requires k <= n && RunFresh(live, b, MIN_ORDER, n)
    ensures forall h: nat :: h in AddRun(live, b, MIN_ORDER, k) ==>
              h in AddRun(live, b, MIN_ORDER, n) && AddRun(live, b, MIN_ORDER, n)[h] == AddRun(live, b, MIN_ORDER, k)[h]
    decreases n
  {
    if k < n {
      PartOfRun(live, b, k, n - 1);
      var f := At(b, MIN_ORDER, n - 1);
      RunFreshAt(live, b, MIN_ORDER, n, n - 1);
      if f in AddRun(live, b, MIN_ORDER, n - 1) { AddRunBelow(live, b, MIN_ORDER, n - 1, f); }
    }
  }

  // ---------- page tables a range needs ----------

  ghost function TablesFor(l: nat, n: nat): set<nat> { set k: nat | l <= k < l + n :: TableOf(k) }

  /** Page tables to be added for n pages from l. */
  ghost function NewTables(d: set<nat>, l: nat, n: nat): nat { |TablesFor(l, n) - d| }

  lemma TablesNone(d: set<nat>, l: nat)
    ensures TablesFor(l, 0) == {} && NewTables(d, l, 0) == 0
  {
  }

  lemma TablesOne(d: set<nat>, l: nat, n: nat)
    ensures TablesFor(l, n + 1) == TablesFor(l, n) + {TableOf(l + n)}
    ensures NewTables(d, l, n + 1) == NewTables(d, l, n) + One(TableOf(l + n) !in d + TablesFor(l, n))
  {
    hide TableOf;
    var x := TableOf(l + n);
    forall t ensures t in TablesFor(l, n + 1) <==> t in TablesFor(l, n) || t == x {
      if t in TablesFor(l, n + 1) {
        var k: nat :| l <= k < l + n + 1 && t == TableOf(k);
        if k < l + n { assert TableOf(k) in TablesFor(l, n); }
      }
      if t in TablesFor(l, n) {
        var k: nat :| l <= k < l + n && t == TableOf(k);
        assert TableOf(k) in TablesFor(l, n + 1);
      }
    }
    assert TablesFor(l, n + 1) == TablesFor(l, n) + {x};
    if x in d + TablesFor(l, n) {
      assert TablesFor(l, n + 1) - d == TablesFor(l, n) - d;
    } else {
      assert TablesFor(l, n + 1) - d == (TablesFor(l, n) - d) + {x};
    }
  }

  lemma JustOneTable(d: set<nat>, l: nat)
    ensures TablesFor(l, 1) == {TableOf(l)} && NewTables(d, l, 1) == One(TableOf(l) !in d)
  {
    TablesNone(d, l);
    TablesOne(d, l, 0);
  }

  lemma {:induction false} TablesMono(d: set<nat>, l: nat, m: nat, n: nat)
    requires m <= n
    ensures NewTables(d, l, m) <= NewTables(d, l, n)
    decreases n
  {
    if m < n {
      TablesMono(d, l, m, n - 1);
      TablesOne(d, l, n - 1);
    }
  }

  /** After the first s pages of a range: the page tables they need are there, and from the frames spare at first, those and
      `own` more are gone. */
  ghost predicate Spent(d0: set<nat>, d: set<nat>, spare0: nat, spare: nat, l: nat, s: nat, own: nat) {
    d == d0 + TablesFor(l, s) && spare + own + NewTables(d0, l, s) == spare0
  }

  lemma SpentNone(d: set<nat>, spare: nat, l: nat)
    ensures Spent(d, d, spare, spare, l, 0, 0)
  {
    TablesNone(d, l);
  }

  lemma SpentOne(d0: set<nat>, d: set<nat>, spare0: nat, spare: nat, l: nat, s: nat, own: nat, more: nat, spare': nat)
    requires Spent(d0, d, spare0, spare, l, s, own) && spare' + more + One(TableOf(l + s) !in d) == spare
    ensures Spent(d0, d + {TableOf(l + s)}, spare0, spare', l, s + 1, own + more)
  {
    TablesOne(d0, l, s);
  }

  lemma SpentMore(d0: set<nat>, d: set<nat>, spare0: nat, spare: nat, l: nat, s: nat, own: nat)
    requires Spent(d0, d, spare0, spare, l, s, 0)
    ensures Spent(d0, d, spare0 + own, spare, l, s, own)
  {
  }

  lemma SpentIs(d0: set<nat>, d: set<nat>, spare0: nat, spare: nat, l: nat, s: nat, own: nat)
    requires Spent(d0, d, spare0, spare, l, s, own)
    ensures spare0 >= own + NewTables(d0, l, s)
  {
  }

  /** The next page cannot be had: then the whole range cannot. */
  lemma SpentAll(d0: set<nat>, d: set<nat>, spare0: nat, spare: nat, l: nat, s: nat, n: nat, own: nat, more: nat)
    requires Spent(d0, d, spare0, spare, l, s, own) && s < n && spare < more + One(TableOf(l + s) !in d)
    ensures spare0 < own + more + NewTables(d0, l, s + 1) <= own + more + NewTables(d0, l, n)
  {
    TablesOne(d0, l, s);
    TablesMono(d0, l, s + 1, n);
  }

  // ---------- ranges of pages ----------

  ghost predicate Mapped(t: Table, k: nat) { k in t && t[k].flags.present }

  ghost predicate MappedRange(t: Table, lo: nat, hi: nat) { forall k: nat :: lo <= k < hi ==> Mapped(t, k) }

  ghost predicate UnmappedRange(t: Table, lo: nat, hi: nat) { forall k: nat :: lo <= k < hi ==> k !in t }

  ghost function Flagged(t: Table, lo: nat, hi: nat): Table {
    map k | k in t :: if lo <= k < hi then Invalidated(t[k]) else t[k]
  }

  ghost function Cleared(t: Table, lo: nat, hi: nat): Table {
    map k | k in t && !(lo <= k < hi) :: t[k]
  }

  /** One page set, or given up, after some page tables: still only page tables. */
  lemma ChainTables(e0: map<nat, nat>, e1: map<nat, nat>, e2: map<nat, nat>, c0: map<nat, nat>, c1: map<nat, nat>, f: nat)
    requires NewTablesOnly(e0, e1, c0) && NewTablesOnly(Inc(e1, f), e2, c1) && At0(e2, f) == At0(e1, f) + 1
    requires forall g: nat :: At0(c1, g) == 0 ==> At0(c0, g) == 0
    ensures NewTablesOnly(e0, Dec(e2, f), c0)
  {
    var e := Dec(e2, f);
    forall g: nat ensures At0(e, g) == At0(e0, g) || (At0(c0, g) == 0 && At0(e0, g) == 0 && At0(e, g) == 1) {
      assert g != f ==> At0(e, g) == At0(e2, g) && At0(Inc(e1, f), g) == At0(e1, g);
      assert At0(e1, g) == At0(e0, g) || (At0(c0, g) == 0 && At0(e0, g) == 0 && At0(e1, g) == 1);
    }
  }

  lemma ChainMore(e0: map<nat, nat>, e1: map<nat, nat>, e2: map<nat, nat>, c0: map<nat, nat>, c1: map<nat, nat>)
    requires NewTablesOnly(e0, e1, c0) && NewTablesOnly(e1, e2, c1)
    requires forall g: nat :: At0(c1, g) == 0 ==> At0(c0, g) == 0
    ensures NewTablesOnly(e0, e2, c0)
  {
    forall g: nat ensures At0(e2, g) == At0(e0, g) || (At0(c0, g) == 0 && At0(e0, g) == 0 && At0(e2, g) == 1) {
      assert At0(e1, g) == At0(e0, g) || (At0(c0, g) == 0 && At0(e0, g) == 0 && At0(e1, g) == 1);
    }
  }

  /** Pages lo to hi of t were added to t0. */
  ghost predicate Extends(t0: Table, t: Table, lo: nat, hi: nat) {
    MappedRange(t, lo, hi) && Cleared(t, lo, hi) == t0
  }

  lemma ExtendOne(t0: Table, t: Table, lo: nat, hi: nat, e: Entry)
    requires Extends(t0, t, lo, hi) && lo <= hi && hi !in t0 && e.flags.present
    ensures hi !in t && Extends(t0, Put(t, hi, e), lo, hi + 1)
  {
    assert hi in t ==> hi in Cleared(t, lo, hi);
    var u := Put(t, hi, e);
    forall k: nat | lo <= k < hi + 1 ensures Mapped(u, k) { assert k < hi ==> Mapped(t, k); }
    assert Cleared(u, lo, hi + 1) == Cleared(t, lo, hi);
  }

  lemma ExtendNone(t: Table, lo: nat)
    ensures Extends(t, t, lo, lo)
  {
  }

  lemma ExtendUndo(t0: Table, t: Table, lo: nat, hi: nat)
    requires Extends(t0, t, lo, hi)
    ensures MappedRange(t, lo, hi) && Cleared(t, lo, hi) == t0
  {
  }

  lemma ExtendAppend(t0: Table, t1: Table, t: Table, lo: nat, hi: nat)
    requires Extends(t0, t1, lo, hi) && Extends(t1, t, hi, hi + 1) && lo <= hi
    ensures Extends(t0, t, lo, hi + 1)
    ensures forall k: nat :: k in t1 ==> k in t && t[k] == t1[k]
  {
    forall k: nat | k in t1 ensures k in t && t[k] == t1[k] { assert k in Cleared(t, hi, hi + 1); }
    forall k: nat | lo <= k < hi + 1 ensures Mapped(t, k) { assert k < hi ==> Mapped(t1, k); }
    assert Cleared(t, lo, hi + 1) == Cleared(Cleared(t, hi, hi + 1), lo, hi);
  }

  /** More mappings and no fewer other references: whatever was referenced still is. */
  lemma StillCounted(c0: map<nat, nat>, c: map<nat, nat>, n: nat, ts0: seq<Table>, ts: seq<Table>, sp: nat, lo: nat, hi: nat,
                     e0: map<nat, nat>, e: map<nat, nat>, f: nat)
    requires Conserved(c0, n, ts0, e0) && Conserved(c, n, ts, e) && NewTablesOnly(e0, e, c0) && f < n
    requires sp < |ts0| && |ts| == |ts0| && ts == ts0[sp := ts[sp]] && Extends(ts0[sp], ts[sp], lo, hi)
    ensures At0(c0, f) > 0 ==> At0(c, f) > 0
  {
    var t0, t := ts0[sp], ts[sp];
    TableUpdate(ts0, sp, t, f);
    forall l: nat | l in Mapping(t0, f) ensures l in Mapping(t, f) { assert l in Cleared(t, lo, hi); }
    SubsetSize(Mapping(t0, f), Mapping(t, f));
  }

  lemma NoNewTables(e: map<nat, nat>, c: map<nat, nat>)
    ensures NewTablesOnly(e, e, c)
  {
  }

  lemma CountsInRange(count: seq<nat>)
    ensures forall g: nat :: g in Positive(count) ==> g < |count|
  {
  }

  /** The pages of a range have frames of their own that nobody referred to before. */
  ghost predicate OwnFrames(t: Table, lo: nat, hi: nat, a: Attribute, c0: map<nat, nat>, c: map<nat, nat>) {
    && (forall k: nat :: lo <= k < hi ==> k in t && t[k].flags == a && t[k].frame !in c0 && t[k].frame in c)
    && (forall j: nat, k: nat :: lo <= j < k < hi && j in t && k in t ==> t[j].frame != t[k].frame)
  }

  lemma ExtendFree(t0: Table, t: Table, lo: nat, hi: nat)
    requires Extends(t0, t, lo, hi) && hi !in t0
    ensures hi !in t
  {
    assert hi in t ==> hi in Cleared(t, lo, hi);
  }

  lemma OwnNone(t: Table, lo: nat, a: Attribute, c0: map<nat, nat>, c: map<nat, nat>)
    ensures OwnFrames(t, lo, lo, a, c0, c)
  {
  }

  lemma OwnOne(t: Table, lo: nat, hi: nat, a: Attribute, c0: map<nat, nat>, c: map<nat, nat>, f: nat, c': map<nat, nat>)
    requires OwnFrames(t, lo, hi, a, c0, c) && lo <= hi && c0.Keys <= c.Keys <= c'.Keys && f !in c && f in c'
    ensures OwnFrames(Put(t, hi, Entry(f, a)), lo, hi + 1, a, c0, c')
  {
  }

  // ---------- counts while frames are mapped ----------

  /** One reference more to each of n frames from f, and one to whatever is new. */
  ghost predicate RefsMore(c0: map<nat, nat>, c: map<nat, nat>, f: nat, n: nat) {
    && c0.Keys <= c.Keys
    && forall g: nat :: g in c ==> c[g] == if g in c0 then c0[g] + One(f <= g < f + n) else 1
  }

  lemma RefsNone(c: map<nat, nat>, f: nat, m: nat)
    ensures RefsMore(c, c, f, 0) && Referable(c, m, f, 0)
  {
  }

  lemma RefsFresh(c0: map<nat, nat>, c: map<nat, nat>, f: nat, n: nat)
    requires RefsMore(c0[f := 1], c, 0, 0) && f !in c0 && f < n
    ensures f in c && RefsMore(c0, c, 0, 0) && RefsMore(c0, Dropped(c, n, f), 0, 0)
  {
  }

  lemma RefsJoin(c0: map<nat, nat>, c1: map<nat, nat>, c: map<nat, nat>)
    requires RefsMore(c0, c1, 0, 0) && RefsMore(c1, c, 0, 0)
    ensures RefsMore(c0, c, 0, 0)
  {
  }

  /** New frames change nothing for frames referred to before. */
  lemma ReferableSame(c0: map<nat, nat>, c: map<nat, nat>, m: nat, f: nat, n: nat)
    requires RefsMore(c0, c, 0, 0) && forall g: nat :: f <= g < f + n && g < m ==> g in c0
    ensures Referable(c, m, f, n) <==> Referable(c0, m, f, n)
  {
    forall g: nat | f <= g < f + n && g < m ensures At0(c, g) == At0(c0, g) { assert g in c; }
  }

  lemma RefsOne(c0: map<nat, nat>, c1: map<nat, nat>, c: map<nat, nat>, f: nat, s: nat, n: nat)
    requires RefsMore(c0, c1, f, s) && RefsMore(c1, c, f + s, 1) && (f + s < n ==> f + s in c0)
    requires forall g :: g in c ==> g < n
    ensures RefsMore(c0, c, f, s + 1)
  {
  }

  lemma RefsAt(c0: map<nat, nat>, c: map<nat, nat>, f: nat, s: nat, n: nat)
    requires RefsMore(c0, c, f, s) && (f + s < n ==> f + s in c0)
    ensures f + s < n ==> f + s in c && At0(c, f + s) == At0(c0, f + s)
    ensures forall g: nat :: At0(c, g) == 0 ==> At0(c0, g) == 0
  {
    forall g: nat | At0(c, g) == 0 ensures At0(c0, g) == 0 { assert g in c ==> c[g] == if g in c0 then c0[g] + One(f <= g < f + s) else 1; }
  }

  /** None of n frames from f has all the references it can have. */
  ghost predicate Referable(c: map<nat, nat>, m: nat, f: nat, n: nat) {
    forall g: nat :: f <= g < f + n && g < m ==> At0(c, g) < MAX_REFERENCE_COUNT
  }

  lemma ReferableJustOne(c: map<nat, nat>, m: nat, f: nat)
    ensures Referable(c, m, f, 1) <==> f >= m || At0(c, f) < MAX_REFERENCE_COUNT
  {
  }

  lemma ReferableOne(c: map<nat, nat>, m: nat, f: nat, s: nat, n: nat)
    requires Referable(c, m, f, s) && s < n
    ensures if f + s < m && At0(c, f + s) >= MAX_REFERENCE_COUNT then !Referable(c, m, f, n) else Referable(c, m, f, s + 1)
  {
  }

  /** A reference taken and given back around a mapping leaves the one of the mapping. */
  lemma RefsGivenBack(c0: map<nat, nat>, c1: map<nat, nat>, c2: map<nat, nat>, c: map<nat, nat>, n: nat, f: nat)
    requires c1 == if f < n then Inc(c0, f) else c0
    requires RefsMore(c1, c2, f, 1) && c == Dropped(c2, n, f) && (f < n ==> f in c0 && c0[f] > 0)
    requires forall g :: g in c2 ==> g < n
    ensures RefsMore(c0, c, f, 1)
  {
  }

  // ---------- contiguous frames ----------

  /** Pages lo to hi show consecutive frames from f. */
  ghost predicate ShowsRun(t: Table, lo: nat, hi: nat, a: Attribute, f: nat) {
    forall k: nat :: lo <= k < hi ==> k in t && t[k] == Entry(f + (k - lo), a)
  }

  lemma ShowsNone(t: Table, lo: nat, a: Attribute, f: nat)
    ensures ShowsRun(t, lo, lo, a, f)
  {
  }

  lemma ShowsOne(t: Table, lo: nat, hi: nat, a: Attribute, f: nat)
    requires ShowsRun(t, lo, hi, a, f) && lo <= hi
    ensures ShowsRun(Put(t, hi, Entry(f + (hi - lo), a)), lo, hi + 1, a, f)
  {
  }

  /** One more reference in hand to each of n frames from b. */
  ghost function IncRun(extra: map<nat, nat>, b: nat, n: nat): map<nat, nat> {
    if n == 0 then extra else Inc(IncRun(extra, b, n - 1), b + n - 1)
  }

  lemma {:induction false} IncRunAt(extra: map<nat, nat>, b: nat, n: nat, f: nat)
    ensures At0(IncRun(extra, b, n), f) == At0(extra, f) + if b <= f < b + n then 1 else 0
  {
    if n > 0 { IncRunAt(extra, b, n - 1, f); }
  }

  lemma {:induction false} FrameAt(b: nat, k: nat)
    ensures At(b, MIN_ORDER, k) == b + k
  {
    if k > 0 { FrameAt(b, k - 1); }
  }

  /** n pages split into single pages are n minimal blocks. */
  lemma PageRun(n: nat)
    requires n > 0 && CeilOrder(n * PAGE_SIZE) <= MAX_ORDER
    ensures SplitOrder(n * PAGE_SIZE, PAGE_SIZE) == MIN_ORDER && DivCeil(n * PAGE_SIZE, Bytes(MIN_ORDER)) == n
  {
    OnePage();
  }

  lemma AccountFresh(c: map<nat, nat>, n: nat, ts: seq<Table>, extra: map<nat, nat>, f: nat)
    requires Conserved(c, n, ts, extra) && f !in c
    ensures Conserved(c[f := 1], n, ts, Inc(extra, f))
  {
  }

  lemma {:induction false} RunKeys(c: map<nat, nat>, live: map<nat, Order>, b: nat, k: nat)
    requires RunFresh(live, b, MIN_ORDER, k) && c.Keys == live.Keys
    ensures forall f: nat :: f in AddRefs(c, b, MIN_ORDER, k) <==> f in c || b <= f < b + k
    ensures forall f: nat :: b <= f < b + k ==> f !in c
  {
    if k > 0 {
      RunKeys(c, live, b, k - 1);
      FrameAt(b, k - 1);
    }
  }

  lemma {:induction false} AccountRun(c: map<nat, nat>, n: nat, ts: seq<Table>, extra: map<nat, nat>,
                                      live: map<nat, Order>, b: nat, k: nat)
    requires Conserved(c, n, ts, extra) && RunFresh(live, b, MIN_ORDER, k) && c.Keys == live.Keys
    ensures Conserved(AddRefs(c, b, MIN_ORDER, k), n, ts, IncRun(extra, b, k))
  {
    hide Conserved, Inc;
    if k > 0 {
      AccountRun(c, n, ts, extra, live, b, k - 1);
      RunKeys(c, live, b, k);
      RunKeys(c, live, b, k - 1);
      FrameAt(b, k - 1);
      AccountFresh(AddRefs(c, b, MIN_ORDER, k - 1), n, ts, IncRun(extra, b, k - 1), b + k - 1);
    }
  }

  /** Besides new page tables, one reference to each frame from lo to hi is in hand. */
  ghost predicate InHand(e0: map<nat, nat>, e: map<nat, nat>, c0: map<nat, nat>, lo: nat, hi: nat) {
    forall f: nat ::
      if lo <= f < hi then At0(e, f) == At0(e0, f) + 1 && f !in c0
      else At0(e, f) == At0(e0, f) || (At0(c0, f) == 0 && At0(e0, f) == 0 && At0(e, f) == 1)
  }

  ghost predicate ContiguousFrames(t: Table, lo: nat, hi: nat, a: Attribute, f0: nat, c0: map<nat, nat>) {
    forall k: nat :: lo <= k < hi ==> k in t && t[k] == Entry(f0 + (k - lo), a) && t[k].frame !in c0
  }

  lemma ContiguousNone(t: Table, lo: nat, a: Attribute, f0: nat, c0: map<nat, nat>)
    ensures ContiguousFrames(t, lo, lo, a, f0, c0)
  {
  }

  lemma ContiguousOne(t: Table, lo: nat, hi: nat, a: Attribute, f0: nat, c0: map<nat, nat>)
    requires ContiguousFrames(t, lo, hi, a, f0, c0) && lo <= hi && f0 + (hi - lo) !in c0
    ensures ContiguousFrames(Put(t, hi, Entry(f0 + (hi - lo), a)), lo, hi + 1, a, f0, c0)
  {
  }

  lemma RunInHand(e0: map<nat, nat>, e: map<nat, nat>, c0: map<nat, nat>, f0: nat, s: nat, n: nat)
    requires e == IncRun(e0, f0, n) && s == 0 && forall f: nat :: f0 <= f < f0 + n ==> f !in c0
    ensures InHand(e0, e, c0, f0 + s, f0 + n)
  {
    forall f: nat ensures At0(e, f) == At0(e0, f) + if f0 <= f < f0 + n then 1 else 0 { IncRunAt(e0, f0, n, f); }
  }

  lemma HandHas(e0: map<nat, nat>, e: map<nat, nat>, c0: map<nat, nat>, lo: nat, hi: nat)
    requires InHand(e0, e, c0, lo, hi) && lo < hi
    ensures At0(e, lo) > 0 && lo !in c0
  {
  }

  /** Setting a page may add a page table but disturbs nothing in hand. */
  lemma HandMore(e0: map<nat, nat>, e1: map<nat, nat>, e: map<nat, nat>, c0: map<nat, nat>, c1: map<nat, nat>, f0: nat, s: nat, n: nat)
    requires InHand(e0, e1, c0, f0 + s, f0 + n) && NewTablesOnly(e1, e, c1) && s < n
    requires forall f: nat :: f in c0 || f0 <= f < f0 + n ==> f in c1
    requires forall f :: f in c1 ==> c1[f] > 0
    ensures InHand(e0, e, c0, f0 + s, f0 + n)
  {
    forall f: nat ensures At0(c1, f) == 0 ==> At0(c0, f) == 0 && !(f0 <= f < f0 + n) {
    }
  }

  lemma HandPass(e0: map<nat, nat>, e: map<nat, nat>, c0: map<nat, nat>, lo: nat, hi: nat)
    requires InHand(e0, e, c0, lo, hi) && lo < hi
    ensures At0(e, lo) > 0 && InHand(e0, Dec(e, lo), c0, lo + 1, hi)
  {
  }

  lemma HandLast(e0: map<nat, nat>, e: map<nat, nat>, c0: map<nat, nat>, lo: nat, hi: nat)
    requires InHand(e0, e, c0, lo, hi + 1) && lo <= hi
    ensures At0(e, hi) > 0 && InHand(e0, Dec(e, hi), c0, lo, hi)
  {
  }

  lemma HandEmpty(e0: map<nat, nat>, e: map<nat, nat>, c0: map<nat, nat>, lo: nat)
    requires InHand(e0, e, c0, lo, lo)
    ensures NewTablesOnly(e0, e, c0)
  {
  }

  // ---------- page tables behind the entries ----------

  /** Every mapped page has a page table, and what released entries hold is not present. */
  ghost predicate Backed(t: Table, left: Table, directory: set<nat>) {
    && (forall l: nat :: l in t ==> TableOf(l) in directory)
    && (forall l: nat :: l in left ==> !left[l].flags.present)
  }

  ghost predicate AllBacked(ts: seq<Table>, left: seq<Table>, directories: seq<set<nat>>) {
    |left| == |directories| == |ts| && forall i :: 0 <= i < |ts| ==> Backed(ts[i], left[i], directories[i])
  }

  /** The page-table entry of l, mapped or not. */
  function RawEntry(t: Table, left: Table, l: nat): Entry {
    if l in t then t[l] else if l in left then left[l] else ZERO_ENTRY
  }

  /** What the entries of unmapped pages hold after pages lo to hi of t were released. */
  ghost function LeftBehind(left: Table, t: Table, lo: nat, hi: nat): Table {
    left + map k | k in t && lo <= k < hi :: Invalidated(t[k])
  }

  /** Entries outside lo to hi hold what they held. */
  ghost predicate SameOutside(left0: Table, left: Table, lo: nat, hi: nat) {
    forall k: nat :: !(lo <= k < hi) ==> (k in left <==> k in left0) && (k in left ==> left[k] == left0[k])
  }

  lemma LeftInside(left: Table, t: Table, lo: nat, hi: nat, end: nat)
    requires hi <= end
    ensures SameOutside(left, LeftBehind(left, t, lo, hi), lo, end)
  {
  }

  lemma FlagNone(t: Table, hi: nat)
    ensures Flagged(t, hi, hi) == t
  {
  }

  lemma FlagStep(t: Table, k: nat, hi: nat)
    requires k in t && k < hi
    ensures var u := Flagged(t, k + 1, hi); k in u && u[k] == t[k] && Put(u, k, Invalidated(u[k])) == Flagged(t, k, hi)
  {
  }

  lemma ClearNone(t: Table, left: Table, lo: nat, hi: nat)
    ensures Cleared(Flagged(t, lo, hi), hi, hi) == Flagged(t, lo, hi) && LeftBehind(left, t, hi, hi) == left
  {
  }

  lemma ClearStep(t: Table, lo: nat, k: nat, hi: nat)
    requires k in t && lo <= k < hi
    ensures var u := Cleared(Flagged(t, lo, hi), k + 1, hi);
            k in u && u[k] == Invalidated(t[k]) && u - {k} == Cleared(Flagged(t, lo, hi), k, hi)
  {
  }

  lemma LeftStep(t: Table, left: Table, k: nat, hi: nat)
    requires k in t && k < hi
    ensures Put(LeftBehind(left, t, k + 1, hi), k, Invalidated(t[k])) == LeftBehind(left, t, k, hi)
  {
  }

  lemma ClearAll(t: Table, lo: nat, hi: nat)
    ensures Cleared(Flagged(t, lo, hi), lo, hi) == Cleared(t, lo, hi)
  {
  }

  lemma BackedSizes(ts: seq<Table>, left: seq<Table>, ds: seq<set<nat>>)
    requires AllBacked(ts, left, ds)
    ensures |left| == |ds| == |ts|
  {
  }

  lemma BackedSet(ts: seq<Table>, left: seq<Table>, ds: seq<set<nat>>, sp: nat, l: nat, e: Entry)
    requires AllBacked(ts, left, ds) && sp < |ts| && TableOf(l) in ds[sp]
    ensures AllBacked(ts[sp := Put(ts[sp], l, e)], left, ds)
  {
    hide TableOf;
    assert Backed(ts[sp], left[sp], ds[sp]);
  }

  /** A mapped page has a page table. */
  lemma HasTable(ts: seq<Table>, left: seq<Table>, ds: seq<set<nat>>, sp: nat, l: nat)
    requires AllBacked(ts, left, ds) && sp < |ts| && l in ts[sp]
    ensures |ds| == |ts| && TableOf(l) in ds[sp]
  {
    assert Backed(ts[sp], left[sp], ds[sp]);
  }

  lemma BackedTable(ts: seq<Table>, left: seq<Table>, ds: seq<set<nat>>, sp: nat, x: nat)
    requires AllBacked(ts, left, ds) && sp < |ts|
    ensures AllBacked(ts, left, ds[sp := ds[sp] + {x}])
  {
    hide TableOf;
    assert Backed(ts[sp], left[sp], ds[sp]);
  }

  lemma BackedRelease(ts: seq<Table>, left: seq<Table>, ds: seq<set<nat>>, sp: nat, l: nat)
    requires AllBacked(ts, left, ds) && sp < |ts| && l in ts[sp] && !ts[sp][l].flags.present
    ensures AllBacked(ts[sp := ts[sp] - {l}], left[sp := Put(left[sp], l, ts[sp][l])], ds)
  {
    hide TableOf;
    assert Backed(ts[sp], left[sp], ds[sp]);
  }

  lemma OnePut(t0: Table, t: Table, k: nat, a: Attribute, f: nat)
    requires Extends(t0, t, k, k + 1) && ShowsRun(t, k, k + 1, a, f)
    ensures t == Put(t0, k, Entry(f, a))
  {
    assert k in t && t[k] == Entry(f, a);
    forall x: nat ensures x in t <==> x in Put(t0, k, Entry(f, a)) { assert x != k ==> (x in t <==> x in Cleared(t, k, k + 1)); }
  }

  /** A reference in hand is still in hand after page tables were added. */
  lemma TakenStays(e0: map<nat, nat>, e: map<nat, nat>, c0: map<nat, nat>, c: map<nat, nat>, f: nat)
    requires NewTablesOnly(Inc(e0, f), e, c) && c.Keys == c0.Keys && forall g :: g in c ==> c[g] > 0
    ensures At0(e, f) == At0(e0, f) + 1 && NewTablesOnly(e0, Dec(e, f), c0)
  {
    NoNewTables(e0, c0);
    ChainTables(e0, e0, e, c0, c, f);
  }

  /** The first s of a run of pages are mapped to the frames from f on, and nothing else changed but
      the page tables they need. */
  ghost predicate ShownSoFar(t0: Table, t: Table, e0: map<nat, nat>, e: map<nat, nat>, c0: map<nat, nat>, c: map<nat, nat>,
                             d0: set<nat>, d: set<nat>, spare0: nat, spare: nat, m: nat, l: nat, f: nat, s: nat, a: Attribute) {
    && Extends(t0, t, l, l + s) && ShowsRun(t, l, l + s, a, f)
    && NewTablesOnly(e0, e, c0) && RefsMore(c0, c, f, s) && Referable(c0, m, f, s)
    && Spent(d0, d, spare0, spare, l, s, 0)
  }

  lemma ShownNone(t: Table, e: map<nat, nat>, c: map<nat, nat>, d: set<nat>, spare: nat, m: nat, l: nat, f: nat, a: Attribute)
    ensures ShownSoFar(t, t, e, e, c, c, d, d, spare, spare, m, l, f, 0, a)
  {
    NoNewTables(e, c);
    ShowsNone(t, l, a, f);
    ExtendNone(t, l);
    SpentNone(d, spare, l);
    RefsNone(c, f, m);
  }

  /** The next page can be mapped exactly if its frame can have one more reference and a page table
      it needs can be had. */
  lemma ShownNext(t0: Table, t: Table, e0: map<nat, nat>, e: map<nat, nat>, c0: map<nat, nat>, c: map<nat, nat>,
                  d0: set<nat>, d: set<nat>, spare0: nat, spare: nat, m: nat, l: nat, f: nat, s: nat, a: Attribute, n: nat)
    requires ShownSoFar(t0, t, e0, e, c0, c, d0, d, spare0, spare, m, l, f, s, a) && s < n && UnmappedRange(t0, l, l + n)
    requires f + s < m ==> f + s in c0
    ensures l + s !in t && (f + s < m ==> f + s in c)
    ensures !((f + s >= m || At0(c, f + s) < MAX_REFERENCE_COUNT) && (TableOf(l + s) in d || spare > 0)) ==>
              !(Referable(c0, m, f, n) && spare0 >= NewTables(d0, l, n))
  {
    hide Extends, ShowsRun, NewTablesOnly, RefsMore, Referable, Spent, TableOf, NewTables;
    ExtendFree(t0, t, l, l + s);
    RefsAt(c0, c, f, s, m);
    ReferableOne(c0, m, f, s, n);
    if TableOf(l + s) !in d && spare == 0 { SpentAll(d0, d, spare0, spare, l, s, n, 0, 0); }
  }

  lemma ShownOne(t0: Table, t1: Table, t: Table, e0: map<nat, nat>, e1: map<nat, nat>, e: map<nat, nat>,
                 c0: map<nat, nat>, c1: map<nat, nat>, c: map<nat, nat>, d0: set<nat>, d1: set<nat>, d: set<nat>,
                 spare0: nat, spare1: nat, spare: nat, m: nat, l: nat, f: nat, s: nat, a: Attribute)
    requires ShownSoFar(t0, t1, e0, e1, c0, c1, d0, d1, spare0, spare1, m, l, f, s, a) && a.present && l + s !in t0
    requires l + s !in t1 && t == Put(t1, l + s, Entry(f + s, a)) && NewTablesOnly(e1, e, c1) && RefsMore(c1, c, f + s, 1)
    requires (f + s < m ==> f + s in c0) && (f + s >= m || At0(c1, f + s) < MAX_REFERENCE_COUNT)
    requires d == d1 + {TableOf(l + s)} && spare + One(TableOf(l + s) !in d1) == spare1 && (forall g :: g in c ==> g < m)
    ensures ShownSoFar(t0, t, e0, e, c0, c, d0, d, spare0, spare, m, l, f, s + 1, a)
  {
    hide Extends, ShowsRun, NewTablesOnly, RefsMore, Referable, Spent, TableOf, NewTables;
    ExtendOne(t0, t1, l, l + s, Entry(f + s, a));
    ShowsOne(t1, l, l + s, a, f);
    RefsAt(c0, c1, f, s, m);
    ReferableOne(c0, m, f, s, s + 1);
    ChainMore(e0, e1, e, c0, c1);
    SpentOne(d0, d1, spare0, spare1, l, s, 0, 0, spare);
    RefsOne(c0, c1, c, f, s, m);
  }

  /** A step that fails leaves what was mapped, and at most adds a page table. */
  lemma ShownStop(t0: Table, t: Table, e0: map<nat, nat>, e1: map<nat, nat>, e: map<nat, nat>, c0: map<nat, nat>, c: map<nat, nat>,
                  d0: set<nat>, d: set<nat>, spare0: nat, spare: nat, m: nat, l: nat, f: nat, s: nat, a: Attribute)
    requires ShownSoFar(t0, t, e0, e1, c0, c, d0, d, spare0, spare, m, l, f, s, a) && NewTablesOnly(e1, e, c)
    ensures Extends(t0, t, l, l + s) && NewTablesOnly(e0, e, c0)
  {
    hide Extends, ShowsRun, NewTablesOnly, Referable, Spent;
    ChainMore(e0, e1, e, c0, c);
  }

  lemma ShownAll(t0: Table, t: Table, e0: map<nat, nat>, e: map<nat, nat>, c0: map<nat, nat>, c: map<nat, nat>,
                 d0: set<nat>, d: set<nat>, spare0: nat, spare: nat, m: nat, l: nat, f: nat, s: nat, a: Attribute)
    requires ShownSoFar(t0, t, e0, e, c0, c, d0, d, spare0, spare, m, l, f, s, a)
    ensures Extends(t0, t, l, l + s) && ShowsRun(t, l, l + s, a, f) && NewTablesOnly(e0, e, c0)
    ensures RefsMore(c0, c, f, s) && Referable(c0, m, f, s)
    ensures Spent(d0, d, spare0, spare, l, s, 0) && spare0 >= NewTables(d0, l, s)
  {
  }

  /** No aligned run of free frames is long enough for n pages. */
  ghost predicate NoRun(s: Blocks, n: nat)
    requires |s.free| == LISTS
  {
    CeilOrder(n * PAGE_SIZE) > MAX_ORDER || NoneFree(s, CeilOrder(n * PAGE_SIZE) - MIN_ORDER)
  }

  class Memory {
    const physical: PhysicalMemoryBlockManager
    var tables: seq<Table>
    var directories: seq<set<nat>>  // the page tables of each space
    var left: seq<Table>            // what the entries of unmapped pages hold

    /** References held outside page tables, among them those the running call has in hand. */
    ghost var extra: map<nat, nat>

    ghost predicate Valid()
      reads this, physical, physical.b
    {
      && physical.Valid() && AllBacked(tables, left, directories)
      && Conserved(physical.Counts(), |physical.referenceCount|, tables, extra)
    }

    /** At boot nothing is mapped and every count is a boot-time reference. */
    constructor (p: PhysicalMemoryBlockManager, bootTables: seq<set<nat>>)
      requires p.Valid()
      ensures Valid() && physical == p && extra == p.Counts() && directories == bootTables
      ensures |tables| == |left| == |bootTables| && forall i :: 0 <= i < |tables| ==> tables[i] == left[i] == map[]
    {
      physical := p;
      tables, left := seq(|bootTables|, _ => map[]), seq(|bootTables|, _ => map[]);
      directories := bootTables;
      extra := p.Counts();
      new;
      forall f: nat ensures Mappings(tables, f) == 0 { SumZero(MapCounts(tables, f)); }
    }

    /** All spaces but sp are untouched, and so is the number of frames; page tables stay. */
    twostate predicate Others(sp: nat)
      reads this, physical
    {
      && |tables| == old(|tables|) && |physical.referenceCount| == old(|physical.referenceCount|)
      && |left| == old(|left|) && |directories| == old(|directories|)
      && (forall i :: 0 <= i < |tables| && i != sp ==> tables[i] == old(tables)[i])
      && (forall i :: 0 <= i < |left| && i != sp ==> left[i] == old(left)[i])
      && (forall i :: 0 <= i < |directories| ==> if i == sp then old(directories)[i] <= directories[i] else directories[i] == old(directories)[i])
    }

    /** The blocks of physical memory that were handed out. */
    ghost function Frames(): map<nat, Order>
      reads physical, physical.b
    {
      Live(physical.b.View())
    }

    /** How many frames are left. */
    ghost function SpareFrames(): nat
      reads physical, physical.b
    {
      SpareCount(Frames(), |physical.referenceCount|)
    }

    /** A fresh frame, its one reference in hand. */
    method AllocateFrame() returns (r: Option<nat>)
      requires Valid()
      modifies this`extra, physical, physical.b
      ensures Valid() && |physical.referenceCount| == old(|physical.referenceCount|)
      ensures r.None? ==> extra == old(extra) && physical.Counts() == old(physical.Counts())
      ensures r.None? ==> Frames() == old(Frames())
      ensures r.Some? <==> old(SpareFrames()) > 0
      ensures r.Some? ==> SpareFrames() + 1 == old(SpareFrames())
      ensures r.Some? ==> Frames() == old(Frames())[r.value := MIN_ORDER] && r.value !in old(Frames())
      ensures r.Some? ==>
                && r.value < |physical.referenceCount| && r.value !in old(physical.Counts())
                && At0(old(extra), r.value) == 0 && extra == Inc(old(extra), r.value)
                && physical.Counts() == old(physical.Counts())[r.value := 1]
    {
      hide Mappings, Live, Sound, NoneFree, Spare, SpareCount;
      ghost var c, n, live := physical.Counts(), |physical.referenceCount|, Live(physical.b.View());
      OnePage();
      r := physical.AllocatePhysicalBlock(PAGE_SIZE, PAGE_SIZE);
      if r.None? {
        NoPageLeft(old(physical.b.View()));
      } else {
        ghost var f := r.value;
        OneRef(c, live, f);
        assert f !in c && At0(c, f) == 0;
        AccountTake(c, n, tables, extra, f, physical.Counts());
        LiveOrderIs(physical.b.View(), f);
        TakenWasSpare(physical.b.View(), live, f);
        OneSpareLess(live, n, f);
        extra := Inc(extra, f);
      }
    }

    /** Takes a reference to an existing frame in hand. */
    method TakeReference(f: nat) returns (ok: bool)
      requires Valid() && (f < |physical.referenceCount| ==> f in physical.Counts())
      modifies this`extra, physical
      ensures Valid() && |physical.referenceCount| == old(|physical.referenceCount|)
      ensures extra == if ok then Inc(old(extra), f) else old(extra)
      ensures ok <==> f >= |physical.referenceCount| || old(physical.Counts())[f] < MAX_REFERENCE_COUNT
      ensures physical.Counts() == if ok && f < |physical.referenceCount| then Inc(old(physical.Counts()), f) else old(physical.Counts())
      ensures physical.Counts().Keys == old(physical.Counts()).Keys
    {
      hide Mappings, Live, Sound;
      ghost var c := physical.Counts();
      ok := physical.AddPhysicalBlockReference(f);
      if ok {
        AccountTake(c, |physical.referenceCount|, tables, extra, f, physical.Counts());
        extra := Inc(extra, f);
      }
    }

    /** Gives a reference in hand back. */
    method DropReference(f: nat)
      requires Valid() && At0(extra, f) > 0
      modifies this`extra, physical, physical.b
      ensures Valid() && |physical.referenceCount| == old(|physical.referenceCount|)
      ensures extra == Dec(old(extra), f)
      ensures Frames() == if At0(old(physical.Counts()), f) == 1 then old(Frames()) - {f} else old(Frames())
      ensures physical.Counts() == Dropped(old(physical.Counts()), |physical.referenceCount|, f)
      ensures forall g: nat :: At0(physical.Counts(), g) <= At0(old(physical.Counts()), g)
      ensures forall g: nat :: g != f ==> At0(physical.Counts(), g) == At0(old(physical.Counts()), g)
    {
      hide Mappings, Live, Sound;
      ghost var c, n := physical.Counts(), |physical.referenceCount|;
      AccountDrop(c, n, tables, extra, f);
      physical.ReleasePhysicalBlock(f);
      assert physical.Counts() == Dropped(c, n, f);
      extra := Dec(extra, f);
    }

    /** Enters a mapping, passing on the reference in hand; a missing page table is allocated first. */
    method SetPage(sp: nat, l: nat, f: nat, attribute: Attribute) returns (ok: bool, ghost e: map<nat, nat>)
      requires Valid() && sp < |tables| && l !in tables[sp] && At0(extra, f) > 0 && attribute.present
      modifies this, physical, physical.b
      ensures Valid() && Others(sp) && left == old(left)
      ensures tables[sp] == if ok then Put(old(tables)[sp], l, Entry(f, attribute)) else old(tables)[sp]
      ensures NewTablesOnly(old(extra), e, old(physical.Counts())) && At0(e, f) == At0(old(extra), f)
      ensures extra == if ok then Dec(e, f) else e
      ensures old(physical.Counts()).Keys <= physical.Counts().Keys
      ensures !ok ==> physical.Counts() == old(physical.Counts()) && Frames() == old(Frames()) && directories == old(directories)
      ensures RefsMore(old(physical.Counts()), physical.Counts(), 0, 0)
      ensures sp < |directories| && sp < |old(directories)| && (ok <==> TableOf(l) in old(directories)[sp] || old(SpareFrames()) > 0)
      ensures ok ==> directories[sp] == old(directories)[sp] + {TableOf(l)}
                     && SpareFrames() + One(TableOf(l) !in old(directories)[sp]) == old(SpareFrames())
    {
      hide Mappings, Live, Sound, Conserved, AllBacked, TableOf, SpareCount;
      BackedSizes(tables, left, directories);
      e := extra;
      var index := TableOf(l);
      if index !in directories[sp] {
        var table := AllocateFrame();
        if table.None? { return false, extra; }
        BackedTable(tables, left, directories, sp, index);
        directories := directories[sp := directories[sp] + {index}];
        e := extra;
      }
      AccountSet(physical.Counts(), |physical.referenceCount|, tables, extra, sp, l, Entry(f, attribute));
      BackedSet(tables, left, directories, sp, l, Entry(f, attribute));
      tables := tables[sp := Put(tables[sp], l, Entry(f, attribute))];
      extra := Dec(extra, f);
      return true, e;
    }

    /** Clears the present flag; the entry keeps its frame. */
    method InvalidatePage(sp: nat, l: nat)
      requires Valid() && sp < |tables| && l in tables[sp] && tables[sp][l].flags.present
      modifies this`tables
      ensures Valid() && tables == old(tables)[sp := Put(old(tables)[sp], l, Invalidated(old(tables)[sp][l]))]
    {
      hide Mappings, Live, Sound, Conserved, AllBacked;
      BackedSizes(tables, left, directories);
      HasTable(tables, left, directories, sp, l);
      AccountFlag(physical.Counts(), |physical.referenceCount|, tables, extra, sp, l);
      BackedSet(tables, left, directories, sp, l, Invalidated(tables[sp][l]));
      tables := tables[sp := Put(tables[sp], l, Invalidated(tables[sp][l]))];
    }

    /** Releases the frame of an invalidated entry; its number stays in the page table. */
    method ReleaseInvalidatedPage(sp: nat, l: nat)
      requires Valid() && sp < |tables| == |left| && l in tables[sp] && !tables[sp][l].flags.present
      modifies this`tables, this`left, physical, physical.b
      ensures Valid() && |physical.referenceCount| == old(|physical.referenceCount|)
      ensures tables == old(tables)[sp := old(tables)[sp] - {l}]
      ensures left == old(left)[sp := Put(old(left)[sp], l, old(tables)[sp][l])]
    {
      hide Mappings, Live, Sound, AllBacked;
      ghost var c, n, f := physical.Counts(), |physical.referenceCount|, tables[sp][l].frame;
      if f < n { MappedIsCounted(c, n, tables, extra, sp, l); }
      AccountUnset(c, n, tables, extra, sp, l);
      BackedRelease(tables, left, directories, sp, l);
      physical.ReleasePhysicalBlock(tables[sp][l].frame);
      assert physical.Counts() == Dropped(c, n, f);
      left := left[sp := Put(left[sp], l, tables[sp][l])];
      tables := tables[sp := tables[sp] - {l}];
    }

    /** Unmaps n pages: first every entry is invalidated, then every frame released, top down. */
    method UnmapPage(sp: nat, l: nat, n: nat)
      requires Valid() && sp < |tables| && MappedRange(tables[sp], l, l + n)
      modifies this`tables, this`left, physical, physical.b
      ensures Valid() && Others(sp) && tables[sp] == Cleared(old(tables)[sp], l, l + n)
      ensures sp < |left| && left[sp] == LeftBehind(old(left)[sp], old(tables)[sp], l, l + n)
    {
      hide Conserved, Sound, Live, AllBacked, MappedRange, Flagged, Cleared, LeftBehind;
      BackedSizes(tables, left, directories);
      ghost var t := tables[sp];
      InvalidateRange(sp, l, n);
      ReleaseRange(sp, l, n, t);
    }

    /** Unmaps the s pages of a range that were mapped before one failed. */
    method UndoMapped(sp: nat, l: nat, s: nat, n: nat, ghost t0: Table)
      requires Valid() && sp < |tables| && s <= n && Extends(t0, tables[sp], l, l + s)
      modifies this`tables, this`left, physical, physical.b
      ensures Valid() && Others(sp) && tables[sp] == t0
      ensures sp < |left| && sp < |old(left)| && SameOutside(old(left)[sp], left[sp], l, l + n)
    {
      hide Conserved, Sound, Live, Extends, Cleared, AllBacked, SameOutside, LeftBehind;
      BackedSizes(tables, left, directories);
      ExtendUndo(t0, tables[sp], l, l + s);
      LeftInside(left[sp], tables[sp], l, l + s, l + n);
      UnmapPage(sp, l, s);
    }

    /** The loop over invalidatePage. */
    method InvalidateRange(sp: nat, l: nat, n: nat)
      requires Valid() && sp < |tables| && MappedRange(tables[sp], l, l + n)
      modifies this`tables
      ensures Valid() && Others(sp) && tables[sp] == Flagged(old(tables)[sp], l, l + n)
    {
      hide Conserved, Sound, Live, AllBacked, Flagged;
      ghost var t := tables[sp];
      FlagNone(t, l + n);
      var s := n;
      while s > 0
        invariant 0 <= s <= n && Valid() && Others(sp) && tables[sp] == Flagged(t, l + s, l + n)
        modifies this`tables
      {
        s := s - 1;
        assert Mapped(t, l + s);
        FlagStep(t, l + s, l + n);
        InvalidatePage(sp, l + s);
      }
    }

    /** The loop over releaseInvalidatedPage. */
    method ReleaseRange(sp: nat, l: nat, n: nat, ghost t: Table)
      requires Valid() && sp < |tables| && MappedRange(t, l, l + n) && tables[sp] == Flagged(t, l, l + n)
      modifies this`tables, this`left, physical, physical.b
      ensures Valid() && Others(sp) && tables[sp] == Cleared(t, l, l + n)
      ensures sp < |left| && sp < |old(left)| && left[sp] == LeftBehind(old(left)[sp], t, l, l + n)
    {
      hide Conserved, Sound, Live, AllBacked, Cleared, LeftBehind, Flagged;
      BackedSizes(tables, left, directories);
      ghost var r := left[sp];
      ClearNone(t, r, l, l + n);
      var s := n;
      while s > 0
        invariant 0 <= s <= n && Valid() && Others(sp) && |left| == |tables|
        invariant tables[sp] == Cleared(Flagged(t, l, l + n), l + s, l + n)
        invariant left[sp] == LeftBehind(r, t, l + s, l + n)
        modifies this`tables, this`left, physical, physical.b
      {
        s := s - 1;
        assert Mapped(t, l + s);
        ClearStep(t, l, l + s, l + n);
        LeftStep(t, r, l + s, l + n);
        ReleaseInvalidatedPage(sp, l + s);
      }
      ClearAll(t, l, l + n);
    }

    /** Maps one page to an existing frame, or changes nothing but page tables. */
    method Map1Page_LP(sp: nat, l: nat, f: nat, attribute: Attribute) returns (ok: bool)
      requires Valid() && sp < |tables| && l !in tables[sp] && attribute.present
      requires f < |physical.referenceCount| ==> f in physical.Counts()
      modifies this, physical, physical.b
      ensures Valid() && Others(sp) && left == old(left)
      ensures tables[sp] == if ok then Put(old(tables)[sp], l, Entry(f, attribute)) else old(tables)[sp]
      ensures NewTablesOnly(old(extra), extra, old(physical.Counts()))
      ensures forall g: nat :: g < |physical.referenceCount| && g in old(physical.Counts()) ==> g in physical.Counts()
      ensures sp < |directories| && sp < |old(directories)| && (!ok ==> directories == old(directories))
      ensures ok <==> && (f >= |physical.referenceCount| || At0(old(physical.Counts()), f) < MAX_REFERENCE_COUNT)
                      && (TableOf(l) in old(directories)[sp] || old(SpareFrames()) > 0)
      ensures ok ==> && directories[sp] == old(directories)[sp] + {TableOf(l)}
                     && SpareFrames() + One(TableOf(l) !in old(directories)[sp]) == old(SpareFrames())
                     && RefsMore(old(physical.Counts()), physical.Counts(), f, 1)
    {
      hide Conserved, Sound, Live, Mappings, NewTablesOnly, AllBacked, TableOf, SpareCount;
      BackedSizes(tables, left, directories);
      CountsInRange(physical.referenceCount);
      ghost var c, e0 := physical.Counts(), extra;
      NoNewTables(e0, c);
      ok := TakeReference(f);
      if !ok { return; }
      ghost var e, c1 := extra, physical.Counts();
      ok, e := SetPage(sp, l, f, attribute);
      ChainTables(e0, e0, e, c, c1, f);
      if !ok {
        DropReference(f);
        assert tables == old(tables);
        forall g: nat | g < |physical.referenceCount| && g in c ensures g in physical.Counts() {
          FailureRestores(c, physical.Counts(), |physical.referenceCount|, tables, e0, extra, g);
        }
      }
    }

    /** Each of n frames from f that is managed here has a reference. */
    ghost predicate Counted(f: nat, n: nat)
      reads physical
    {
      forall g: nat :: f <= g < f + n && g < |physical.referenceCount| ==> g in physical.Counts()
    }

    /** Maps n pages to the n frames from f, or undoes everything but page tables. */
    method MapPage_LP(sp: nat, l: nat, f: nat, n: nat, attribute: Attribute) returns (ok: bool)
      requires Valid() && sp < |tables| && attribute.present && UnmappedRange(tables[sp], l, l + n)
      requires Counted(f, n)
      modifies this, physical, physical.b
      ensures Valid() && Others(sp) && NewTablesOnly(old(extra), extra, old(physical.Counts()))
      ensures ok ==> Extends(old(tables)[sp], tables[sp], l, l + n)
      ensures ok ==> ShowsRun(tables[sp], l, l + n, attribute, f)
      ensures !ok ==> tables == old(tables)
      ensures sp < |directories| && sp < |old(directories)|
      ensures ok <==> && Referable(old(physical.Counts()), |physical.referenceCount|, f, n)
                      && old(SpareFrames()) >= NewTables(old(directories)[sp], l, n)
      ensures ok ==> Spent(old(directories)[sp], directories[sp], old(SpareFrames()), SpareFrames(), l, n, 0)
                     && RefsMore(old(physical.Counts()), physical.Counts(), f, n)
      ensures if ok then left == old(left) else sp < |left| && sp < |old(left)| && SameOutside(old(left)[sp], left[sp], l, l + n)
    {
      hide Conserved, Sound, Live, Extends, Cleared, AllBacked, SameOutside, LeftBehind, ShowsRun, NewTablesOnly,
        TableOf, SpareCount, NewTables, Spent, RefsMore, Referable, ShownSoFar;
      BackedSizes(tables, left, directories);
      ghost var c0, e0, t0, d0, spare0, m := physical.Counts(), extra, tables[sp], directories[sp], SpareFrames(), |physical.referenceCount|;
      ShownNone(t0, e0, c0, d0, spare0, m, l, f, attribute);
      var s := 0;
      while s < n
        invariant 0 <= s <= n && Valid() && Others(sp) && left == old(left)
        invariant |directories| == |tables| && |physical.referenceCount| == m
        invariant ShownSoFar(t0, tables[sp], e0, extra, c0, physical.Counts(), d0, directories[sp], spare0, SpareFrames(), m, l, f, s, attribute)
        modifies this, physical, physical.b
      {
        ghost var t1, e1, c1, d1, spare1 := tables[sp], extra, physical.Counts(), directories[sp], SpareFrames();
        ShownNext(t0, t1, e0, e1, c0, c1, d0, d1, spare0, spare1, m, l, f, s, attribute, n);
        ok := Map1Page_LP(sp, l + s, f + s, attribute);
        if !ok {
          ShownStop(t0, t1, e0, e1, extra, c0, c1, d0, d1, spare0, spare1, m, l, f, s, attribute);
          break;
        }
        CountsInRange(physical.referenceCount);
        ShownOne(t0, t1, tables[sp], e0, e1, extra, c0, c1, physical.Counts(), d0, d1, directories[sp],
                 spare0, spare1, SpareFrames(), m, l, f, s, attribute);
        s := s + 1;
      }
      ok := s == n;
      if ok {
        ShownAll(t0, tables[sp], e0, extra, c0, physical.Counts(), d0, directories[sp], spare0, SpareFrames(), m, l, f, n, attribute);
      } else {
        UndoMapped(sp, l, s, n, t0);
        assert tables == old(tables);
      }
    }

    /** Maps one page to a frame a reference to which was taken, and gives that reference back. */
    method MapTaken(sp: nat, l: nat, f: nat, attribute: Attribute, ghost e0: map<nat, nat>, ghost c0: map<nat, nat>) returns (ok: bool)
      requires Valid() && sp < |tables| && l !in tables[sp] && attribute.present && Counted(f, 1)
      requires extra == Inc(e0, f) && physical.Counts().Keys == c0.Keys && forall g :: g in physical.Counts() ==> physical.Counts()[g] > 0
      requires physical.Counts() == if f < |physical.referenceCount| then Inc(c0, f) else c0
      requires f < |physical.referenceCount| ==> f in c0 && c0[f] > 0
      modifies this, physical, physical.b
      ensures Valid() && Others(sp) && NewTablesOnly(e0, extra, c0)
      ensures ok ==> left == old(left) && tables[sp] == Put(old(tables)[sp], l, Entry(f, attribute))
      ensures !ok ==> tables == old(tables) && SameOutside(old(left)[sp], left[sp], l, l + 1)
      ensures sp < |directories| && sp < |old(directories)|
      ensures ok <==> && (f >= |physical.referenceCount| || At0(c0, f) + 1 < MAX_REFERENCE_COUNT)
                      && (TableOf(l) in old(directories)[sp] || old(SpareFrames()) > 0)
      ensures ok ==> && directories[sp] == old(directories)[sp] + {TableOf(l)}
                     && SpareFrames() + One(TableOf(l) !in old(directories)[sp]) == old(SpareFrames())
                     && RefsMore(c0, physical.Counts(), f, 1)
    {
      hide Conserved, Sound, Live, AllBacked, SameOutside, NewTablesOnly, Extends, ShowsRun, TableOf, SpareCount, NewTables,
        TablesFor, RefsMore, Referable;
      BackedSizes(tables, left, directories);
      CountsInRange(physical.referenceCount);
      JustOneTable(directories[sp], l);
      ghost var c1, t0 := physical.Counts(), tables[sp];
      ReferableJustOne(c1, |physical.referenceCount|, f);
      ok := MapPage_LP(sp, l, f, 1, attribute);
      if ok { OnePut(t0, tables[sp], l, attribute, f); }
      TakenStays(e0, extra, c0, c1, f);
      ghost var c2 := physical.Counts();
      CountsInRange(physical.referenceCount);
      DropReference(f);
      if ok { RefsGivenBack(c0, c1, c2, physical.Counts(), |physical.referenceCount|, f); }
    }

    /** Maps one page to a fresh frame, or changes nothing but page tables. */
    method MapFreshPage(sp: nat, l: nat, attribute: Attribute) returns (ok: bool, ghost f: nat)
      requires Valid() && sp < |tables| && l !in tables[sp] && attribute.present
      modifies this, physical, physical.b
      ensures Valid() && Others(sp) && left == old(left) && NewTablesOnly(old(extra), extra, old(physical.Counts()))
      ensures tables[sp] == if ok then Put(old(tables)[sp], l, Entry(f, attribute)) else old(tables)[sp]
      ensures ok ==> f !in old(physical.Counts()) && f in physical.Counts()
      ensures ok ==> old(physical.Counts()).Keys <= physical.Counts().Keys
      ensures !ok ==> Frames() == old(Frames()) && directories == old(directories)
      ensures RefsMore(old(physical.Counts()), physical.Counts(), 0, 0)
      ensures sp < |directories| && sp < |old(directories)|
      ensures ok <==> old(SpareFrames()) >= 1 + One(TableOf(l) !in old(directories)[sp])
      ensures ok ==> directories[sp] == old(directories)[sp] + {TableOf(l)}
                     && SpareFrames() + 1 + One(TableOf(l) !in old(directories)[sp]) == old(SpareFrames())
    {
      hide Conserved, Sound, Live, AllBacked, TableOf, SpareCount, RefsMore, NewTablesOnly;
      BackedSizes(tables, left, directories);
      ghost var c0, e0, live := physical.Counts(), extra, Frames();
      RefsNone(c0, 0, 0);
      NoNewTables(e0, c0);
      var frame := AllocateFrame();
      if frame.None? { return false, 0; }
      f := frame.value;
      ghost var e;
      ok, e := SetPage(sp, l, frame.value, attribute);
      ChainTables(e0, e0, e, c0, c0[f := 1], f);
      RefsFresh(c0, physical.Counts(), f, |physical.referenceCount|);
      if !ok {
        DropReference(frame.value);
        assert live[f := MIN_ORDER] - {f} == live;
      }
    }

    /** Maps n pages to fresh frames, or undoes everything but page tables. */
    method MapPage_L(sp: nat, l: nat, n: nat, attribute: Attribute) returns (ok: bool)
      requires Valid() && sp < |tables| && attribute.present && UnmappedRange(tables[sp], l, l + n)
      modifies this, physical, physical.b
      ensures Valid() && Others(sp) && NewTablesOnly(old(extra), extra, old(physical.Counts()))
      ensures ok ==> Extends(old(tables)[sp], tables[sp], l, l + n)
      ensures ok ==> OwnFrames(tables[sp], l, l + n, attribute, old(physical.Counts()), physical.Counts())
      ensures !ok ==> tables == old(tables)
      ensures sp < |directories| && sp < |old(directories)|
      ensures ok <==> old(SpareFrames()) >= n + NewTables(old(directories)[sp], l, n)
      ensures ok ==> Spent(old(directories)[sp], directories[sp], old(SpareFrames()), SpareFrames(), l, n, n)
      ensures if ok then left == old(left) else sp < |left| && sp < |old(left)| && SameOutside(old(left)[sp], left[sp], l, l + n)
    {
      hide Conserved, Sound, Live, Extends, Cleared, NewTablesOnly, OwnFrames, AllBacked, SameOutside, LeftBehind, Spent,
        TableOf, SpareCount, NewTables;
      BackedSizes(tables, left, directories);
      ghost var c0, e0, t0, d0, spare0 := physical.Counts(), extra, tables[sp], directories[sp], SpareFrames();
      SpentNone(d0, spare0, l);
      ExtendNone(t0, l);
      OwnNone(t0, l, attribute, c0, c0);
      NoNewTables(e0, c0);
      var s := 0;
      while s < n
        invariant 0 <= s <= n && Valid() && Others(sp) && Extends(t0, tables[sp], l, l + s) && left == old(left)
        invariant NewTablesOnly(e0, extra, c0) && c0.Keys <= physical.Counts().Keys
        invariant OwnFrames(tables[sp], l, l + s, attribute, c0, physical.Counts())
        invariant |directories| == |tables| && Spent(d0, directories[sp], spare0, SpareFrames(), l, s, s)
        modifies this, physical, physical.b
      {
        ghost var e1, c1, t1, d1, spare1 := extra, physical.Counts(), tables[sp], directories[sp], SpareFrames();
        ExtendFree(t0, t1, l, l + s);
        ghost var f;
        ok, f := MapFreshPage(sp, l + s, attribute);
        ChainMore(e0, e1, extra, c0, c1);
        if !ok {
          SpentAll(d0, d1, spare0, spare1, l, s, n, s, 1);
          break;
        }
        SpentOne(d0, d1, spare0, spare1, l, s, s, 1, SpareFrames());
        ExtendOne(t0, t1, l, l + s, Entry(f, attribute));
        OwnOne(t1, l, l + s, attribute, c0, c1, f, physical.Counts());
        s := s + 1;
      }
      ok := s == n;
      if ok { SpentIs(d0, directories[sp], spare0, SpareFrames(), l, n, n); }
      if !ok {
        UndoMapped(sp, l, s, n, t0);
        assert tables == old(tables);
      }
    }

    /** A run of n fresh frames, one reference to each in hand. */
    method AllocateRun(n: nat) returns (r: Option<nat>)
      requires Valid() && n > 0
      modifies this`extra, physical, physical.b
      ensures Valid() && |physical.referenceCount| == old(|physical.referenceCount|)
      ensures r.None? ==> extra == old(extra) && physical.Counts() == old(physical.Counts()) && physical.b.View() == old(physical.b.View())
      ensures r.None? <==> NoRun(old(physical.b.View()), n)
      ensures r.Some? ==> SpareFrames() + n == old(SpareFrames())
      ensures r.Some? ==>
                && extra == IncRun(old(extra), r.value, n)
                && (forall f: nat :: f in physical.Counts() <==> f in old(physical.Counts()) || r.value <= f < r.value + n)
                && (forall f: nat :: r.value <= f < r.value + n ==> f !in old(physical.Counts()))
    {
      hide Mappings, Live, Sound, NoneFree, Conserved, SpareCount;
      ghost var c, m, live := physical.Counts(), |physical.referenceCount|, Live(physical.b.View());
      OnePage();
      r := physical.AllocatePhysicalBlock(n * PAGE_SIZE, PAGE_SIZE);
      if r.Some? {
        PageRun(n);
        AccountRun(c, m, tables, extra, live, r.value, n);
        RunKeys(c, live, r.value, n);
        RunSpareLess(physical.b.View(), live, r.value, n, n);
        extra := IncRun(extra, r.value, n);
      }
    }

    /** Maps n pages to n contiguous fresh frames, or gives every frame back. */
    method MapContiguousPage_L(sp: nat, l: nat, n: nat, attribute: Attribute) returns (ok: bool, f0: nat)
      requires Valid() && sp < |tables| && attribute.present && UnmappedRange(tables[sp], l, l + n) && n > 0
      modifies this, physical, physical.b
      ensures Valid() && Others(sp) && NewTablesOnly(old(extra), extra, old(physical.Counts()))
      ensures ok ==> Extends(old(tables)[sp], tables[sp], l, l + n)
      ensures ok ==> ContiguousFrames(tables[sp], l, l + n, attribute, f0, old(physical.Counts()))
      ensures !ok ==> tables == old(tables)
      ensures sp < |directories| && sp < |old(directories)|
      ensures ok <==> !NoRun(old(physical.b.View()), n) && old(SpareFrames()) >= n + NewTables(old(directories)[sp], l, n)
      ensures ok ==> Spent(old(directories)[sp], directories[sp], old(SpareFrames()), SpareFrames(), l, n, n)
      ensures NoRun(old(physical.b.View()), n) ==> physical.b.View() == old(physical.b.View())
      ensures if ok then left == old(left) else sp < |left| && sp < |old(left)| && SameOutside(old(left)[sp], left[sp], l, l + n)
    {
      hide Conserved, Sound, Live, Extends, Cleared, NewTablesOnly, IncRun, InHand, ContiguousFrames, AllBacked, LeftBehind,
        NoRun, SpareCount, TableOf, NewTables, Spent;
      BackedSizes(tables, left, directories);
      ghost var d0, spare0 := directories[sp], SpareFrames();
      ghost var c0, e0, t0 := physical.Counts(), extra, tables[sp];
      NoNewTables(e0, c0);
      var first := AllocateRun(n);
      if first.None? { return false, 0; }
      f0 := first.value;
      RunInHand(e0, extra, c0, f0, 0, n);
      ghost var spare1 := SpareFrames();
      var s := MapRun(sp, l, f0, n, attribute, e0, c0);
      ok := s == n;
      if ok {
        SpentMore(d0, directories[sp], spare1, SpareFrames(), l, n, n);
        HandEmpty(e0, extra, c0, f0 + n);
      } else {
        UndoContiguous(sp, l, f0, s, n, e0, c0, t0);
        assert tables == old(tables);
      }
    }

    /** Maps pages to a run of frames in hand until one page cannot be set. */
    method MapRun(sp: nat, l: nat, f0: nat, n: nat, attribute: Attribute, ghost e0: map<nat, nat>, ghost c0: map<nat, nat>) returns (s: nat)
      requires Valid() && sp < |tables| && attribute.present && UnmappedRange(tables[sp], l, l + n) && InHand(e0, extra, c0, f0, f0 + n)
      requires forall f: nat :: f in c0 || f0 <= f < f0 + n ==> f in physical.Counts()
      modifies this, physical, physical.b
      ensures s <= n && Valid() && Others(sp) && Extends(old(tables)[sp], tables[sp], l, l + s) && left == old(left)
      ensures InHand(e0, extra, c0, f0 + s, f0 + n) && ContiguousFrames(tables[sp], l, l + s, attribute, f0, c0)
      ensures sp < |directories| && sp < |old(directories)|
      ensures s == n <==> old(SpareFrames()) >= NewTables(old(directories)[sp], l, n)
      ensures s == n ==> Spent(old(directories)[sp], directories[sp], old(SpareFrames()), SpareFrames(), l, n, 0)
    {
      hide Conserved, Sound, Live, Extends, Cleared, InHand, ContiguousFrames, AllBacked, Spent, TableOf, SpareCount, NewTables;
      BackedSizes(tables, left, directories);
      ghost var t0, d0, spare0 := tables[sp], directories[sp], SpareFrames();
      SpentNone(d0, spare0, l);
      ExtendNone(t0, l);
      ContiguousNone(t0, l, attribute, f0, c0);
      s := 0;
      while s < n
        invariant 0 <= s <= n && Valid() && Others(sp) && Extends(t0, tables[sp], l, l + s) && left == old(left)
        invariant InHand(e0, extra, c0, f0 + s, f0 + n)
        invariant forall f: nat :: f in c0 || f0 <= f < f0 + n ==> f in physical.Counts()
        invariant ContiguousFrames(tables[sp], l, l + s, attribute, f0, c0)
        invariant |directories| == |tables| && Spent(d0, directories[sp], spare0, SpareFrames(), l, s, 0)
        modifies this, physical, physical.b
      {
        ghost var t1, d1, spare1 := tables[sp], directories[sp], SpareFrames();
        ExtendFree(t0, t1, l, l + s);
        var ok := SetFromHand(sp, l + s, f0, s, n, attribute, e0, c0);
        if !ok {
          SpentAll(d0, d1, spare0, spare1, l, s, n, 0, 0);
          break;
        }
        SpentOne(d0, d1, spare0, spare1, l, s, 0, 0, SpareFrames());
        ExtendOne(t0, t1, l, l + s, Entry(f0 + s, attribute));
        ContiguousOne(t1, l, l + s, attribute, f0, c0);
        s := s + 1;
      }
      if s == n { SpentIs(d0, directories[sp], spare0, SpareFrames(), l, n, 0); }
    }

    /** Maps the next frame of a run in hand. */
    method SetFromHand(sp: nat, l: nat, f0: nat, s: nat, n: nat, attribute: Attribute, ghost e0: map<nat, nat>, ghost c0: map<nat, nat>)
      returns (ok: bool)
      requires Valid() && sp < |tables| && attribute.present && s < n && l !in tables[sp] && InHand(e0, extra, c0, f0 + s, f0 + n)
      requires forall f: nat :: f in c0 || f0 <= f < f0 + n ==> f in physical.Counts()
      modifies this, physical, physical.b
      ensures Valid() && Others(sp) && left == old(left)
      ensures tables[sp] == if ok then Put(old(tables)[sp], l, Entry(f0 + s, attribute)) else old(tables)[sp]
      ensures InHand(e0, extra, c0, if ok then f0 + s + 1 else f0 + s, f0 + n)
      ensures forall f: nat :: f in c0 || f0 <= f < f0 + n ==> f in physical.Counts()
      ensures f0 + s !in c0 && sp < |directories| && sp < |old(directories)|
      ensures ok <==> TableOf(l) in old(directories)[sp] || old(SpareFrames()) > 0
      ensures ok ==> directories[sp] == old(directories)[sp] + {TableOf(l)}
                     && SpareFrames() + One(TableOf(l) !in old(directories)[sp]) == old(SpareFrames())
    {
      hide Conserved, Sound, Live, NewTablesOnly, InHand, AllBacked, TableOf, SpareCount;
      ghost var e1, c1, e := extra, physical.Counts(), extra;
      HandHas(e0, extra, c0, f0 + s, f0 + n);
      ok, e := SetPage(sp, l, f0 + s, attribute);
      HandMore(e0, e1, e, c0, c1, f0, s, n);
      if ok { HandPass(e0, e, c0, f0 + s, f0 + n); }
    }

    /** The failure path: the frames not mapped are released top down, then the mapped pages. */
    method UndoContiguous(sp: nat, l: nat, f0: nat, s: nat, n: nat, ghost e0: map<nat, nat>, ghost c0: map<nat, nat>, ghost t0: Table)
      requires Valid() && sp < |tables| && s < n && Extends(t0, tables[sp], l, l + s)
      requires InHand(e0, extra, c0, f0 + s, f0 + n)
      modifies this, physical, physical.b
      ensures Valid() && Others(sp) && tables[sp] == t0 && NewTablesOnly(e0, extra, c0)
      ensures sp < |left| && sp < |old(left)| && SameOutside(old(left)[sp], left[sp], l, l + n)
    {
      hide Conserved, Sound, Live, Extends, Cleared, NewTablesOnly, InHand, AllBacked, SameOutside, LeftBehind;
      BackedSizes(tables, left, directories);
      var a := n;
      while a > s
        invariant s <= a <= n && Valid() && Others(sp) && tables == old(tables)
        invariant InHand(e0, extra, c0, f0 + s, f0 + a)
        modifies this`extra, physical, physical.b
      {
        a := a - 1;
        HandLast(e0, extra, c0, f0 + s, f0 + a);
        DropReference(f0 + a);
      }
      HandEmpty(e0, extra, c0, f0 + s);
      UndoMapped(sp, l, s, n, t0);
    }
  }
}
