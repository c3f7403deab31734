/** The resource list with its waiting lists: enumerators are relinked from resource to resource
    by loops, and each operation is one step of the specification. */
module ResourceLists {
  import opened Common
  import opened ResourceSpec

  /** The resource that follows id in the list, or the tail. */
  function After(rs: seq<Res>, id: nat): Option<nat> {
    if rs == [] then None
    else if rs[0].id == id then (if |rs| > 1 then Some(rs[1].id) else None)
    else After(rs[1..], id)
  }

  lemma {:induction false} AfterIs(rs: seq<Res>, i: nat)
    requires i < |rs| && forall j, k :: 0 <= j < k < |rs| ==> rs[j].id != rs[k].id
    ensures After(rs, rs[i].id) == IdAt(rs, i + 1)
  {
    if i > 0 { AfterIs(rs[1..], i - 1); }
  }

  lemma NoDupCons(s: seq<nat>, e: nat)
    requires NoDup(s) && e !in s
    ensures NoDup([e] + s)
  {
  }

  type Waiting = map<Option<nat>, seq<nat>>

  /** Each resource's waiting list, and the tail's, holds the enumerators standing there, once each. */
  ghost predicate Linked(w: Waiting, enums: map<nat, Enumerator>) {
    && (forall x :: x in w ==> NoDup(w[x]))
    && (forall x, e :: x in w && e in w[x] ==> e in enums && enums[e].cursor == x)
    && (forall e :: e in enums ==> enums[e].cursor in w && e in w[enums[e].cursor])
  }

  ghost predicate Places(w: Waiting, rs: seq<Res>) {
    None in w && forall id: nat :: Some(id) in w <==> HasId(rs, id)
  }

  function Moved(w: Waiting, e: nat, a: Option<nat>, b: Option<nat>): Waiting
    requires a in w && b in w
  {
    var w1 := w[a := Without(w[a], e)];
    w1[b := [e] + w1[b]]
  }

  lemma MoveLinked(w: Waiting, enums: map<nat, Enumerator>, e: nat, a: Option<nat>, b: Option<nat>, en: Enumerator)
    requires Linked(w, enums) && e in enums && enums[e].cursor == a && b in w && a != b && en.cursor == b
    ensures a in w && e in w[a] && Linked(Moved(w, e, a, b), enums[e := en])
    ensures Moved(w, e, a, b).Keys == w.Keys
  {
    WithoutSpec(w[a], e);
    NoDupCons(w[b], e);
    var w2, en2 := Moved(w, e, a, b), enums[e := en];
    forall x, f | x in w2 && f in w2[x] ensures f in en2 && en2[f].cursor == x {
      assert (x == b && f == e) || f in w[x];
    }
    forall f | f in en2 ensures en2[f].cursor in w2 && f in w2[en2[f].cursor] {
      if f != e { assert f in w[enums[f].cursor]; }
    }
  }

  /** Replacing an enumerator that stays where it is. */
  lemma SameLinked(w: Waiting, enums: map<nat, Enumerator>, e: nat, en: Enumerator)
    requires Linked(w, enums) && e in enums && en.cursor == enums[e].cursor
    ensures Linked(w, enums[e := en])
  {
  }

  lemma UnlinkLinked(w: Waiting, enums: map<nat, Enumerator>, e: nat)
    requires Linked(w, enums) && e in enums
    ensures enums[e].cursor in w && Linked(w[enums[e].cursor := Without(w[enums[e].cursor], e)], enums - {e})
  {
    hide Without;
    var w1, en1 := w[enums[e].cursor := Without(w[enums[e].cursor], e)], enums - {e};
    WithoutSpec(w[enums[e].cursor], e);
    forall f | f in en1 ensures en1[f].cursor in w1 && f in w1[en1[f].cursor] { assert f in w[enums[f].cursor]; }
  }

  /** A new enumerator joins the waiting list of the first resource, or the tail's. */
  lemma LinkNew(w: Waiting, s: State, e: nat)
    requires Linked(w, s.enums) && Places(w, s.resources) && e !in s.enums
    ensures var at := IdAt(s.resources, 0);
            && at in w && Linked(w[at := [e] + w[at]], s.enums[e := Enumerator(at, [], [])])
            && Places(w[at := [e] + w[at]], s.resources)
  {
    var at := IdAt(s.resources, 0);
    assert at.Some? ==> HasId(s.resources, at.value);
    assert e !in w[at];
    NoDupCons(w[at], e);
    var w1, en1 := w[at := [e] + w[at]], s.enums[e := Enumerator(at, [], [])];
    forall f | f in en1 ensures en1[f].cursor in w1 && f in w1[en1[f].cursor] {
      if f != e { assert f in w[s.enums[f].cursor]; }
    }
  }

  lemma {:induction false} WithoutAt(s: seq<nat>, k: nat)
    requires NoDup(s) && k < |s|
    ensures Without(s, s[k]) == Removed(s, k)
  {
    if k > 0 {
      WithoutAt(s[1..], k - 1);
      assert [s[0]] + Removed(s[1..], k - 1) == Removed(s, k);
    }
  }

  // ---------- a resource being added ----------

  /** Reads completed by enumerators that are not in rest. */
  ghost predicate Done(s: State, rest: seq<nat>, r: nat) { exists x :: x !in rest && TakenBy(s, x, r) }

  /** The enumerators in rest stand at the new resource; all others have already met it. */
  ghost predicate Halfway(s: State, id: nat, rest: seq<nat>, enums: map<nat, Enumerator>, live: set<nat>) {
    && enums.Keys == s.enums.Keys
    && (forall x :: x in enums ==> enums[x] == if x in rest then s.enums[x].(cursor := Some(id)) else Meets(s.enums[x], id, s.live))
    && (forall x :: x in rest ==> x in s.enums && s.enums[x].cursor.None?)
    && (forall r :: r in live <==> r in s.live && !Done(s, rest, r))
  }

  lemma HalfwayStart(s: State, id: nat, rest: seq<nat>, enums: map<nat, Enumerator>)
    requires enums.Keys == s.enums.Keys
    requires forall x :: x in enums ==> enums[x] == if x in rest then s.enums[x].(cursor := Some(id)) else s.enums[x]
    requires forall x :: x in s.enums ==> (x in rest <==> s.enums[x].cursor.None?)
    requires forall x :: x in rest ==> x in s.enums
    ensures Halfway(s, id, rest, enums, s.live)
  {
  }

  lemma TakenIsOwn(s: State, x: nat, e: nat, r: nat)
    requires TakenBy(s, x, r) && e in s.enums && r in s.enums[e].requests && Separate(s.enums)
    ensures x == e
  {
    assert r in s.enums[x].requests;
  }

  /** The reads of the next enumerator are untouched so far. */
  lemma NextUntouched(s: State, id: nat, rest: seq<nat>, enums: map<nat, Enumerator>, live: set<nat>)
    requires Halfway(s, id, rest, enums, live) && rest != [] && Separate(s.enums)
    ensures var e := rest[0];
            && e in enums && enums[e] == s.enums[e].(cursor := Some(id)) && s.enums[e].cursor.None?
            && (HasLive(enums[e].requests, live) <==> HasLive(s.enums[e].requests, s.live))
            && (HasLive(enums[e].requests, live) ==> FirstLive(enums[e].requests, live) == FirstLive(s.enums[e].requests, s.live))
  {
    var e := rest[0];
    forall r | r in s.enums[e].requests ensures r in live <==> r in s.live {
      forall x | TakenBy(s, x, r) ensures x in rest { TakenIsOwn(s, x, e, r); }
    }
    FirstLiveSame(s.enums[e].requests, live, s.live);
  }

  lemma DoneStep(s: State, rest: seq<nat>, r: nat)
    requires rest != [] && NoDup(rest)
    ensures Done(s, rest[1..], r) <==> Done(s, rest, r) || TakenBy(s, rest[0], r)
  {
    assert forall x :: x in rest <==> x == rest[0] || x in rest[1..];
    assert rest[0] !in rest[1..];
  }

  lemma HalfwayServed(s: State, id: nat, rest: seq<nat>, enums: map<nat, Enumerator>, live: set<nat>)
    requires Halfway(s, id, rest, enums, live) && rest != [] && NoDup(rest) && Separate(s.enums)
    requires rest[0] in enums && HasLive(enums[rest[0]].requests, live)
    ensures var e := rest[0];
            Halfway(s, id, rest[1..], enums[e := Served(enums[e], id, None, live)],
                    live - {enums[e].requests[FirstLive(enums[e].requests, live)]})
  {
    var e := rest[0];
    NextUntouched(s, id, rest, enums, live);
    assert forall x :: x in rest <==> x == e || x in rest[1..];
    assert e !in rest[1..];
    var q := enums[e].requests[FirstLive(enums[e].requests, live)];
    forall r ensures r in live - {q} <==> r in s.live && !Done(s, rest[1..], r) {
      DoneStep(s, rest, r);
    }
    hide FirstLive;
    assert Served(enums[e], id, None, live) == Meets(s.enums[e], id, s.live);
  }

  lemma HalfwayStays(s: State, id: nat, rest: seq<nat>, enums: map<nat, Enumerator>, live: set<nat>)
    requires Halfway(s, id, rest, enums, live) && rest != [] && NoDup(rest) && Separate(s.enums)
    requires rest[0] in enums && !HasLive(enums[rest[0]].requests, live)
    ensures Halfway(s, id, rest[1..], enums, live)
  {
    NextUntouched(s, id, rest, enums, live);
    assert forall x :: x in rest <==> x == rest[0] || x in rest[1..];
    forall r ensures Done(s, rest[1..], r) <==> Done(s, rest, r) { DoneStep(s, rest, r); }
  }

  lemma HalfwayEnd(s: State, d: string, t: State)
    requires Halfway(s, s.nextId, [], t.enums, t.live) && !HasDesc(s.resources, d)
    requires t.resources == s.resources + [Res(s.nextId, d)] && t.nextId == s.nextId + 1
    ensures Next(s, t, Add(d))
  {
    hide Meets, TakenBy;
    forall r ensures Done(s, [], r) <==> CompletedBy(s, r) {
      if CompletedBy(s, r) {
        var e :| TakenBy(s, e, r);
        assert e !in [];
      }
    }
    assert t.enums == map e | e in s.enums :: Meets(s.enums[e], s.nextId, s.live);
    assert t.live == set r | r in s.live && !CompletedBy(s, r);
  }

  lemma AppendPlaces(w: Waiting, enums: map<nat, Enumerator>, s: State, d: string)
    requires Linked(w, enums) && Places(w, s.resources) && Inv(s) && enums == s.enums
    ensures var id, w1, rs := s.nextId, w[Some(s.nextId) := []], s.resources + [Res(s.nextId, d)];
            && Some(id) !in w && Linked(w1, enums) && Places(w1, rs) && MovedUp(s, id, w1, enums)
            && After(rs, id) == None && Separate(s.enums)
  {
    var id, rs := s.nextId, s.resources + [Res(s.nextId, d)];
    assert Some(id) !in w;
    forall x: nat ensures HasId(rs, x) <==> HasId(s.resources, x) || x == id { HasIdAppend(s.resources, Res(id, d), x); }
    AfterIs(rs, |s.resources|);
  }

  lemma HasIdAppend(rs: seq<Res>, r: Res, x: nat)
    ensures HasId(rs + [r], x) <==> HasId(rs, x) || x == r.id
  {
    var rs1 := rs + [r];
    assert rs1[|rs|] == r;
    if HasId(rs, x) {
      var i :| 0 <= i < |rs| && rs[i].id == x;
      assert rs1[i].id == x;
    }
  }

  /** Enumerators on the way from the tail to the new resource. */
  ghost predicate MovedUp(s: State, id: nat, w: Waiting, enums: map<nat, Enumerator>) {
    && None in w && Some(id) in w && enums.Keys == s.enums.Keys
    && (forall x :: x in enums ==> enums[x] == if x in w[Some(id)] then s.enums[x].(cursor := Some(id)) else s.enums[x])
    && (forall x :: x in s.enums ==> (s.enums[x].cursor.None? <==> x in w[Some(id)] || x in w[None]))
  }

  lemma MoveUp(s: State, id: nat, w: Waiting, enums: map<nat, Enumerator>, rs: seq<Res>)
    requires MovedUp(s, id, w, enums) && Linked(w, enums) && Places(w, rs) && w[None] != []
    ensures var e := w[None][0];
            && e in enums
            && var w1, enums1 := Moved(w, e, None, Some(id)), enums[e := enums[e].(cursor := Some(id))];
               && MovedUp(s, id, w1, enums1) && Linked(w1, enums1) && Places(w1, rs) && |w1[None]| < |w[None]|
  {
    var e := w[None][0];
    WithoutSpec(w[None], e);
    MoveLinked(w, enums, e, None, Some(id), enums[e].(cursor := Some(id)));
  }

  lemma MovedAll(s: State, id: nat, w: Waiting, enums: map<nat, Enumerator>)
    requires MovedUp(s, id, w, enums) && Linked(w, enums) && w[None] == []
    ensures Halfway(s, id, w[Some(id)], enums, s.live)
  {
    HalfwayStart(s, id, w[Some(id)], enums);
  }

  // ---------- a resource being deleted ----------

  /** Enumerators on the way from the resource being deleted to the next one. */
  ghost predicate MovedAway(s: State, id: nat, next: Option<nat>, w: Waiting, enums: map<nat, Enumerator>) {
    && Some(id) in w && next in w && next != Some(id) && enums.Keys == s.enums.Keys
    && (forall x :: x in enums ==>
          enums[x] == if x in w[Some(id)] then s.enums[x] else MovedOff(s.enums[x], id, next))
    && (forall x :: x in w[Some(id)] ==> x in s.enums && s.enums[x].cursor == Some(id))
  }

  lemma DeletePlaces(w: Waiting, s: State, i: nat)
    requires Linked(w, s.enums) && Places(w, s.resources) && Inv(s) && i < |s.resources|
    ensures MovedAway(s, s.resources[i].id, After(s.resources, s.resources[i].id), w, s.enums) && Some(s.resources[i].id) in w
  {
    AfterIs(s.resources, i);
    assert HasId(s.resources, s.resources[i].id);
    if i + 1 < |s.resources| { assert HasId(s.resources, s.resources[i + 1].id); }
  }

  lemma MoveAway(s: State, id: nat, next: Option<nat>, w: Waiting, enums: map<nat, Enumerator>)
    requires MovedAway(s, id, next, w, enums) && Linked(w, enums) && w[Some(id)] != []
    ensures var e := w[Some(id)][0];
            && e in enums && enums[e].cursor == Some(id) && next in w && next != Some(id)
            && MovedAway(s, id, next, Moved(w, e, Some(id), next), enums[e := enums[e].(cursor := next)])
            && |Moved(w, e, Some(id), next)[Some(id)]| < |w[Some(id)]|
  {
    var e := w[Some(id)][0];
    WithoutSpec(w[Some(id)], e);
  }

  lemma AllMovedAway(s: State, i: nat, w: Waiting, enums: map<nat, Enumerator>)
    requires Inv(s) && i < |s.resources| && Linked(w, enums) && Places(w, s.resources)
    requires var id := s.resources[i].id; MovedAway(s, id, After(s.resources, id), w, enums) && w[Some(id)] == []
    ensures var id, rs := s.resources[i].id, s.resources[..i] + s.resources[i + 1..];
            && Next(s, s.(resources := rs, enums := enums), Delete(i))
            && Linked(w - {Some(id)}, enums) && Places(w - {Some(id)}, rs)
  {
    hide EnumOk, Separate, HasId;
    var id, rs := s.resources[i].id, s.resources[..i] + s.resources[i + 1..];
    AfterIs(s.resources, i);
    EmptyPlace(w, enums, Some(id));
    forall x: nat ensures HasId(rs, x) <==> HasId(s.resources, x) && x != id { HasIdRemoved(s, i, x); }
    assert enums == map e | e in s.enums :: MovedOff(s.enums[e], id, IdAt(s.resources, i + 1));
  }

  lemma EmptyPlace(w: Waiting, enums: map<nat, Enumerator>, x: Option<nat>)
    requires Linked(w, enums) && x in w && w[x] == []
    ensures Linked(w - {x}, enums)
  {
  }

  lemma HasIdRemoved(s: State, i: nat, x: nat)
    requires Inv(s) && i < |s.resources|
    ensures HasId(s.resources[..i] + s.resources[i + 1..], x) <==> HasId(s.resources, x) && x != s.resources[i].id
  {
    var rs, rs1 := s.resources, s.resources[..i] + s.resources[i + 1..];
    assert forall k :: 0 <= k < |rs1| ==> rs1[k] == rs[if k < i then k else k + 1];
    if HasId(rs, x) && x != rs[i].id {
      var k :| 0 <= k < |rs| && rs[k].id == x;
      assert rs1[if k < i then k else k - 1].id == x;
    }
  }

  /** A read finds no older read that is still waiting unless the enumerator is at the tail. */
  lemma ReadPlaces(w: Waiting, s: State, e: nat, r: nat, cancelled: bool) returns (i: nat)
    requires Linked(w, s.enums) && Places(w, s.resources) && Inv(s) && e in s.enums && Unused(s, r)
    ensures var en, reqs, live := s.enums[e], [r] + s.enums[e].requests, if cancelled then s.live else s.live + {r};
            en.cursor.Some? ==>
              && i < |s.resources| && s.resources[i].id == en.cursor.value
              && After(s.resources, en.cursor.value) == IdAt(s.resources, i + 1)
              && IdAt(s.resources, i + 1) in w && IdAt(s.resources, i + 1) != en.cursor
              && (HasLive(reqs, live) <==> !cancelled) && (!cancelled ==> FirstLive(reqs, live) == 0)
  {
    hide Linked, Separate, After;
    var en := s.enums[e];
    i := 0;
    if en.cursor.Some? {
      assert EnumOk(s.resources, s.nextId, s.live, en);
      i :| i < |s.resources| && s.resources[i].id == en.cursor.value;
      AfterIs(s.resources, i);
      if i + 1 < |s.resources| { assert HasId(s.resources, s.resources[i + 1].id); }
      var reqs, live := [r] + en.requests, if cancelled then s.live else s.live + {r};
      assert reqs[0] == r;
      forall k | 1 <= k < |reqs| ensures reqs[k] !in s.live { assert reqs[k] == en.requests[k - 1]; }
    }
  }

  lemma ReadServed(s: State, e: nat, r: nat, i: nat)
    requires e in s.enums && Unused(s, r) && i < |s.resources| && s.enums[e].cursor == Some(s.resources[i].id)
    ensures var en, live := s.enums[e].(requests := [r] + s.enums[e].requests), s.live + {r};
            HasLive(en.requests, live) && FirstLive(en.requests, live) == 0 ==>
              Next(s, s.(enums := s.enums[e := Served(en, s.resources[i].id, IdAt(s.resources, i + 1), live)]), Read(e, r))
  {
    assert Removed([r] + s.enums[e].requests, 0) == s.enums[e].requests;
  }

  /** Only the reads of this enumerator decide which one is served. */
  lemma {:induction false} FirstLiveSame(reqs: seq<nat>, a: set<nat>, b: set<nat>)
    requires forall r :: r in reqs ==> (r in a <==> r in b)
    ensures HasLive(reqs, a) <==> HasLive(reqs, b)
    ensures HasLive(reqs, a) ==> FirstLive(reqs, a) == FirstLive(reqs, b)
  {
    if HasLive(reqs, a) {
      var i :| 0 <= i < |reqs| && reqs[i] in a;
      assert reqs[i] in reqs;
    }
    if HasLive(reqs, b) {
      var i :| 0 <= i < |reqs| && reqs[i] in b;
      assert reqs[i] in reqs;
    }
    if HasLive(reqs, a) {
      var i, j := FirstLive(reqs, a), FirstLive(reqs, b);
      assert reqs[i] in reqs && reqs[j] in reqs;
    }
  }

  lemma FirstLiveIs(reqs: seq<nat>, live: set<nat>, i: nat)
    requires i < |reqs| && reqs[i] in live && forall j :: 0 <= j < i ==> reqs[j] !in live
    ensures HasLive(reqs, live) && FirstLive(reqs, live) == i
  {
  }

  class ResourceList {
    var resources: seq<Res>
    var nextId: nat
    var waiting: Waiting
    var enums: map<nat, Enumerator>
    var live: set<nat>

    ghost function View(): State
      reads this
    {
      State(resources, enums, live, nextId)
    }

    ghost predicate Valid()
      reads this
    {
      Inv(View()) && Linked(waiting, enums) && Places(waiting, resources)
    }

    constructor ()
      ensures Valid() && View() == State([], map[], {}, 0)
    {
      resources, nextId, waiting, enums, live := [], 0, map[None := []], map[], {};
    }

    method SearchWaitable(d: string) returns (i: nat)
      ensures i <= |resources| && (i < |resources| <==> HasDesc(resources, d))
      ensures i < |resources| ==> resources[i].desc == d
    {
      i := 0;
      while i < |resources|
        invariant i <= |resources| && forall j :: 0 <= j < i ==> resources[j].desc != d
      {
        if resources[i].desc == d { return; }
        i := i + 1;
      }
    }

    method CreateWaitingIterator(e: nat)
      requires Valid() && e !in enums
      modifies this
      ensures Valid() && Next(old(View()), View(), Open(e))
    {
      hide EnumOk, Separate, Linked, Places;
      ghost var s := View();
      var at := if resources == [] then None else Some(resources[0].id);
      LinkNew(waiting, s, e);
      enums := enums[e := Enumerator(at, [], [])];
      waiting := waiting[at := [e] + waiting[at]];
      StepKeeps(s, View(), Open(e));
    }

    method DeleteWaitingIterator(e: nat)
      requires Valid() && e in enums && enums[e].requests == []
      modifies this
      ensures Valid() && Next(old(View()), View(), Shut(e))
    {
      hide EnumOk, Separate, Linked;
      ghost var s := View();
      var at := enums[e].cursor;
      UnlinkLinked(waiting, enums, e);
      waiting := waiting[at := Without(waiting[at], e)];
      enums := enums - {e};
      StepKeeps(s, View(), Shut(e));
    }

    /** Finds the first read that can still be completed. */
    method FindRequest(reqs: seq<nat>) returns (i: nat)
      ensures i <= |reqs| && (i < |reqs| <==> HasLive(reqs, live))
      ensures i < |reqs| ==> i == FirstLive(reqs, live)
    {
      i := 0;
      while i < |reqs|
        invariant i <= |reqs| && forall j :: 0 <= j < i ==> reqs[j] !in live
      {
        if reqs[i] in live {
          FirstLiveIs(reqs, live, i);
          return;
        }
        i := i + 1;
      }
    }

    /** Moves an enumerator past its resource; with handleRequest only if a read takes the resource. */
    method IterateNext(e: nat, handleRequest: bool) returns (req: Option<nat>)
      requires Linked(waiting, enums) && Places(waiting, resources) && e in enums
      requires enums[e].cursor.Some? ==>
                 After(resources, enums[e].cursor.value) in waiting && After(resources, enums[e].cursor.value) != enums[e].cursor
      modifies this
      ensures Linked(waiting, enums) && Places(waiting, resources) && waiting.Keys == old(waiting).Keys
      ensures resources == old(resources) && nextId == old(nextId)
      ensures req.Some? <==> old(enums)[e].cursor.Some? && handleRequest && HasLive(old(enums)[e].requests, old(live))
      ensures req.Some? ==>
                && req.value == old(enums)[e].requests[FirstLive(old(enums)[e].requests, old(live))] && live == old(live) - {req.value}
                && enums == old(enums)[e := Served(old(enums)[e], old(enums)[e].cursor.value,
                                                   After(resources, old(enums)[e].cursor.value), old(live))]
                && waiting == Moved(old(waiting), e, old(enums)[e].cursor, After(resources, old(enums)[e].cursor.value))
      ensures req.None? ==> live == old(live)
      ensures req.None? && !handleRequest && old(enums)[e].cursor.Some? ==>
                && enums == old(enums)[e := old(enums)[e].(cursor := After(resources, old(enums)[e].cursor.value))]
                && waiting == Moved(old(waiting), e, old(enums)[e].cursor, After(resources, old(enums)[e].cursor.value))
      ensures req.None? && (handleRequest || old(enums)[e].cursor.None?) ==> enums == old(enums) && waiting == old(waiting)
    {
      req := None;
      if enums[e].cursor.None? { return; }
      var en := enums[e];
      var id := en.cursor.value;
      var next := After(resources, id);
      if handleRequest {
        var i := FindRequest(en.requests);
        if i == |en.requests| { return; }
        req := Some(en.requests[i]);
        live := live - {en.requests[i]};
        en := Enumerator(en.cursor, Removed(en.requests, i), en.delivered + [id]);
      }
      en := en.(cursor := next);
      MoveLinked(waiting, enums, e, Some(id), next, en);
      waiting := Moved(waiting, e, Some(id), next);
      enums := enums[e := en];
    }

    /** Appends a resource and moves every enumerator at the tail to it. */
    method AppendResource(d: string)
      requires Valid()
      modifies this
      ensures resources == old(resources) + [Res(old(nextId), d)] && nextId == old(nextId) + 1 && live == old(live)
      ensures Linked(waiting, enums) && Places(waiting, resources)
      ensures Some(old(nextId)) in waiting && After(resources, old(nextId)) == None && Separate(old(enums))
      ensures Halfway(old(View()), old(nextId), waiting[Some(old(nextId))], enums, live)
    {
      hide Inv, Halfway, Linked, Places;
      ghost var s := View();
      var id := nextId;
      AppendPlaces(waiting, enums, s, d);
      resources, nextId := resources + [Res(id, d)], nextId + 1;
      waiting := waiting[Some(id) := []];
      while waiting[None] != []
        invariant Linked(waiting, enums) && Places(waiting, resources) && MovedUp(s, id, waiting, enums)
        modifies this`waiting, this`enums
        decreases |waiting[None]|
      {
        var e := waiting[None][0];
        MoveUp(s, id, waiting, enums, resources);
        waiting := Moved(waiting, e, None, Some(id));
        enums := enums[e := enums[e].(cursor := Some(id))];
      }
      MovedAll(s, id, waiting, enums);
    }

    /** Adds a resource unless it is listed: waiting reads take it at once, everybody else stops there. */
    method AddWaitable(d: string) returns (ok: bool)
      requires Valid()
      modifies this
      ensures Valid() && Next(old(View()), View(), Add(d))
      ensures ok <==> !HasDesc(old(resources), d)
    {
      hide Inv, Halfway, Linked, Places, HasDesc;
      ghost var s := View();
      var i := SearchWaitable(d);
      ok := i == |resources|;
      if !ok { return; }
      var id := nextId;
      AppendResource(d);
      ServeWaiting(id, s);
      HalfwayEnd(s, d, View());
      StepKeeps(s, View(), Add(d));
    }

    /** Walks the waiting list of the new last resource; whoever has a read waiting takes the
        resource and goes back to the tail. */
    method ServeWaiting(id: nat, ghost s: State)
      requires Linked(waiting, enums) && Places(waiting, resources) && Some(id) in waiting && After(resources, id) == None
      requires Halfway(s, id, waiting[Some(id)], enums, live) && Separate(s.enums)
      modifies this
      ensures resources == old(resources) && nextId == old(nextId)
      ensures Linked(waiting, enums) && Places(waiting, resources) && Halfway(s, id, [], enums, live)
    {
      hide Halfway, Separate, Served, HasLive;
      var k := 0;
      while k < |waiting[Some(id)]|
        invariant Some(id) in waiting && None in waiting && k <= |waiting[Some(id)]|
        invariant resources == old(resources) && nextId == old(nextId) && waiting.Keys == old(waiting).Keys
        invariant Linked(waiting, enums) && Halfway(s, id, waiting[Some(id)][k..], enums, live)
        decreases |waiting[Some(id)]| - k
      {
        ghost var list, rest := waiting[Some(id)], waiting[Some(id)][k..];
        var e := waiting[Some(id)][k];
        ghost var enums0, live0 := enums, live;
        WithoutAt(list, k);
        var req := IterateNext(e, true);
        if req.Some? {
          HalfwayServed(s, id, rest, enums0, live0);
          assert waiting[Some(id)][k..] == rest[1..];
        } else {
          HalfwayStays(s, id, rest, enums0, live0);
          assert list[k + 1..] == rest[1..];
          k := k + 1;
        }
      }
      assert waiting[Some(id)][k..] == [];
    }

    /** Removes a listed resource: whoever stands at it moves on first. */
    method DeleteResource(d: string) returns (i: nat)
      requires Valid() && HasDesc(resources, d)
      modifies this
      ensures Valid() && i < |old(resources)| && old(resources)[i].desc == d && Next(old(View()), View(), Delete(i))
    {
      hide Inv, MovedAway, Linked, Places, HasDesc;
      ghost var s := View();
      i := SearchWaitable(d);
      var id := resources[i].id;
      DeletePlaces(waiting, s, i);
      while waiting[Some(id)] != []
        invariant Some(id) in waiting && waiting.Keys == old(waiting).Keys && Linked(waiting, enums) && Places(waiting, resources)
        invariant resources == s.resources && live == s.live && nextId == s.nextId
        invariant MovedAway(s, id, After(resources, id), waiting, enums)
        decreases |waiting[Some(id)]|
      {
        var e := waiting[Some(id)][0];
        MoveAway(s, id, After(resources, id), waiting, enums);
        var req := IterateNext(e, false);
      }
      AllMovedAway(s, i, waiting, enums);
      resources := resources[..i] + resources[i + 1..];
      waiting := waiting - {Some(id)};
      StepKeeps(s, View(), Delete(i));
    }

    /** Queues a read and serves it at once if the enumerator is not at the tail; cancelled says
        that the read was cancelled before it could be served. */
    method ReadEnumWaitable(e: nat, r: nat, cancelled: bool) returns (done: bool)
      requires Valid() && e in enums && Unused(View(), r)
      modifies this
      ensures Valid() && Next(old(View()), View(), if cancelled then ReadCancelled(e, r) else Read(e, r))
      ensures done <==> !cancelled && old(enums)[e].cursor.Some?
    {
      hide Linked, Places, EnumOk, Separate;
      ghost var s := View();
      ghost var i := ReadPlaces(waiting, s, e, r, cancelled);
      SameLinked(waiting, enums, e, enums[e].(requests := [r] + enums[e].requests));
      enums := enums[e := enums[e].(requests := [r] + enums[e].requests)];
      if !cancelled { live := live + {r}; }
      var req := IterateNext(e, true);
      assert req == None || req == Some(r);
      done := req.Some?;
      if done {
        ReadServed(s, e, r, i);
        assert live == s.live;
        assert enums == s.enums[e := enums[e]];
      }
      assert Next(s, View(), if cancelled then ReadCancelled(e, r) else Read(e, r));
      StepKeeps(s, View(), if cancelled then ReadCancelled(e, r) else Read(e, r));
    }

    /** A cancelled read leaves its enumerator's queue. */
    method CancelReadEnumWaitable(e: nat, j: nat)
      requires Valid() && e in enums && j < |enums[e].requests| && enums[e].requests[j] !in live
      modifies this
      ensures Valid() && Next(old(View()), View(), DropRequest(e, j))
    {
      hide Linked, Places, EnumOk, Separate;
      ghost var s := View();
      SameLinked(waiting, enums, e, enums[e].(requests := Removed(enums[e].requests, j)));
      enums := enums[e := enums[e].(requests := Removed(enums[e].requests, j))];
      StepKeeps(s, View(), DropRequest(e, j));
    }
  }
}
