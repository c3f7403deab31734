/** Enumerating resources while they come and go: what each enumerator has delivered,
    where it stands, and which of its reads are still waiting. */
module ResourceSpec {
  import opened Common

  /** Resources carry the order in which they were added. */
  datatype Res = Res(id: nat, desc: string)

  /** cursor: the resource delivered next, or None at the tail; requests: newest first. */
  datatype Enumerator = Enumerator(cursor: Option<nat>, requests: seq<nat>, delivered: seq<nat>)

  /** live: reads that have been neither cancelled nor completed. */
  datatype State = State(resources: seq<Res>, enums: map<nat, Enumerator>, live: set<nat>, nextId: nat)

  ghost predicate HasDesc(rs: seq<Res>, d: string) { exists i :: 0 <= i < |rs| && rs[i].desc == d }

  ghost predicate HasId(rs: seq<Res>, id: nat) { exists i :: 0 <= i < |rs| && rs[i].id == id }

  /** The resource at index i, or the tail. */
  ghost function IdAt(rs: seq<Res>, i: nat): Option<nat> { if i < |rs| then Some(rs[i].id) else None }

  ghost predicate HasLive(reqs: seq<nat>, live: set<nat>) { exists i :: 0 <= i < |reqs| && reqs[i] in live }

  /** Index of the first read that is still live. */
  ghost function FirstLive(reqs: seq<nat>, live: set<nat>): (i: nat)
    requires HasLive(reqs, live)
    ensures i < |reqs| && reqs[i] in live && forall j :: 0 <= j < i ==> reqs[j] !in live
  {
    if reqs[0] in live then 0
    else
      assert HasLive(reqs[1..], live) by {
        var k :| 0 <= k < |reqs| && reqs[k] in live;
        assert reqs[1..][k - 1] in live;
      }
      1 + FirstLive(reqs[1..], live)
  }

  function Removed(reqs: seq<nat>, i: nat): seq<nat>
    requires i < |reqs|
  {
    reqs[..i] + reqs[i + 1..]
  }

  /** Delivers resource id to the first live read and moves on. */
  ghost function Served(e: Enumerator, id: nat, next: Option<nat>, live: set<nat>): Enumerator
    requires HasLive(e.requests, live)
  {
    var i := FirstLive(e.requests, live);
    Enumerator(next, Removed(e.requests, i), e.delivered + [id])
  }

  /** An enumerator meets a newly appended resource: it stops there unless a read is waiting. */
  ghost function Meets(e: Enumerator, id: nat, live: set<nat>): Enumerator {
    if e.cursor.Some? then e
    else if HasLive(e.requests, live) then Served(e, id, None, live)
    else e.(cursor := Some(id))
  }

  /** Reads completed by a newly appended resource. */
  ghost predicate CompletedBy(s: State, r: nat) { exists e :: TakenBy(s, e, r) }

  /** Enumerator e, standing at the tail, gives a newly appended resource to read r. */
  ghost predicate TakenBy(s: State, e: nat, r: nat) {
    e in s.enums && s.enums[e].cursor.None? && HasLive(s.enums[e].requests, s.live)
    && s.enums[e].requests[FirstLive(s.enums[e].requests, s.live)] == r
  }

  datatype Step =
    | Open(e: nat) | Shut(e: nat) | Add(d: string) | Delete(i: nat)
    | Read(e: nat, r: nat) | ReadCancelled(e: nat, r: nat) | MarkCancelled(r: nat) | DropRequest(e: nat, j: nat)

  ghost predicate Next(s: State, t: State, step: Step) {
    match step
    case Open(e) => e !in s.enums && t == s.(enums := s.enums[e := Enumerator(IdAt(s.resources, 0), [], [])])
    case Shut(e) => e in s.enums && s.enums[e].requests == [] && t == s.(enums := s.enums - {e})
    case Add(d) =>
      if HasDesc(s.resources, d) then t == s
      else t == s.(resources := s.resources + [Res(s.nextId, d)], nextId := s.nextId + 1,
                   enums := map e | e in s.enums :: Meets(s.enums[e], s.nextId, s.live),
                   live := set r | r in s.live && !CompletedBy(s, r))
    case Delete(i) =>
      i < |s.resources| &&
      t == s.(resources := s.resources[..i] + s.resources[i + 1..],
              enums := map e | e in s.enums :: MovedOff(s.enums[e], s.resources[i].id, IdAt(s.resources, i + 1)))
    case Read(e, r) =>
      e in s.enums && Unused(s, r) &&
      var en := s.enums[e].(requests := [r] + s.enums[e].requests);
      if en.cursor.None? then t == s.(enums := s.enums[e := en], live := s.live + {r})
      else exists i :: 0 <= i < |s.resources| && Some(s.resources[i].id) == en.cursor
             && t == s.(enums := s.enums[e := Enumerator(IdAt(s.resources, i + 1), s.enums[e].requests, en.delivered + [en.cursor.value])])
    case ReadCancelled(e, r) =>
      e in s.enums && Unused(s, r) &&
      t == s.(enums := s.enums[e := s.enums[e].(requests := [r] + s.enums[e].requests)])
    case MarkCancelled(r) => t == s.(live := s.live - {r})
    case DropRequest(e, j) =>
      e in s.enums && j < |s.enums[e].requests| && s.enums[e].requests[j] !in s.live &&
      t == s.(enums := s.enums[e := s.enums[e].(requests := Removed(s.enums[e].requests, j))])
  }

  /** A read not yet known to any enumerator. */
  ghost predicate Unused(s: State, r: nat) {
    r !in s.live && forall e :: e in s.enums ==> r !in s.enums[e].requests
  }

  ghost function MovedOff(e: Enumerator, id: nat, next: Option<nat>): Enumerator {
    if e.cursor == Some(id) then e.(cursor := next) else e
  }

  // ---------- the invariant ----------

  ghost predicate Increasing(s: seq<nat>) { forall i, j :: 0 <= i < j < |s| ==> s[i] < s[j] }

  ghost predicate ResourcesOk(rs: seq<Res>, nextId: nat) {
    && (forall i :: 0 <= i < |rs| ==> rs[i].id < nextId)
    && (forall i, j :: 0 <= i < j < |rs| ==> rs[i].id < rs[j].id)
  }

  /** Delivered resources come in the order they were added and lie before the cursor; what is
      still listed before the cursor has been delivered; a waiting read means the tail. */
  ghost predicate EnumOk(rs: seq<Res>, nextId: nat, live: set<nat>, e: Enumerator) {
    && Increasing(e.delivered)
    && (forall i :: 0 <= i < |e.delivered| ==> e.delivered[i] < if e.cursor.Some? then e.cursor.value else nextId)
    && (e.cursor.Some? ==> HasId(rs, e.cursor.value))
    && (forall i :: 0 <= i < |rs| && (e.cursor.None? || rs[i].id < e.cursor.value) ==> rs[i].id in e.delivered)
    && (HasLive(e.requests, live) ==> e.cursor.None?)
  }

  /** A read belongs to one enumerator and is queued once. */
  ghost predicate Separate(enums: map<nat, Enumerator>) {
    && (forall e :: e in enums ==> NoDup(enums[e].requests))
    && (forall e, f, r :: e in enums && f in enums && r in enums[e].requests && r in enums[f].requests ==> e == f)
  }

  ghost predicate Inv(s: State) {
    && Separate(s.enums)
    && ResourcesOk(s.resources, s.nextId)
    && forall e :: e in s.enums ==> EnumOk(s.resources, s.nextId, s.live, s.enums[e])
  }

  /** Taking reads away keeps them separate. */
  lemma FewerReads(s: map<nat, Enumerator>, t: map<nat, Enumerator>)
    requires Separate(s) && t.Keys <= s.Keys
    requires forall e :: e in t ==> NoDup(t[e].requests) && forall r :: r in t[e].requests ==> r in s[e].requests
    ensures Separate(t)
  {
  }

  lemma SameReads(s: map<nat, Enumerator>, t: map<nat, Enumerator>)
    requires Separate(s) && t.Keys <= s.Keys && forall e :: e in t ==> t[e].requests == s[e].requests
    ensures Separate(t)
  {
  }

  lemma RemovedReads(reqs: seq<nat>, i: nat)
    requires NoDup(reqs) && i < |reqs|
    ensures NoDup(Removed(reqs, i)) && forall r :: r in Removed(reqs, i) ==> r in reqs && r != reqs[i]
    ensures forall r :: r in reqs && r != reqs[i] ==> r in Removed(reqs, i)
  {
    var s := Removed(reqs, i);
    assert forall k :: 0 <= k < |s| ==> s[k] == reqs[if k < i then k else k + 1];
    forall r | r in reqs && r != reqs[i] ensures r in s {
      var k :| 0 <= k < |reqs| && reqs[k] == r;
      assert s[if k < i then k else k - 1] == r;
    }
  }

  lemma MeetsReads(e: Enumerator, id: nat, live: set<nat>)
    requires NoDup(e.requests)
    ensures NoDup(Meets(e, id, live).requests) && forall r :: r in Meets(e, id, live).requests ==> r in e.requests
  {
    if e.cursor.None? && HasLive(e.requests, live) { RemovedReads(e.requests, FirstLive(e.requests, live)); }
  }

  lemma OpenOk(rs: seq<Res>, nextId: nat, live: set<nat>)
    requires ResourcesOk(rs, nextId)
    ensures EnumOk(rs, nextId, live, Enumerator(IdAt(rs, 0), [], []))
  {
    assert rs != [] ==> HasId(rs, rs[0].id);
  }

  lemma FewerLive(rs: seq<Res>, nextId: nat, live: set<nat>, live': set<nat>, e: Enumerator, reqs: seq<nat>)
    requires EnumOk(rs, nextId, live, e) && live' <= live
    requires forall r :: r in reqs ==> r in e.requests
    ensures EnumOk(rs, nextId, live', e.(requests := reqs))
  {
    if HasLive(reqs, live') {
      var i :| 0 <= i < |reqs| && reqs[i] in live';
      assert reqs[i] in e.requests;
      var j :| 0 <= j < |e.requests| && e.requests[j] == reqs[i];
      assert HasLive(e.requests, live);
    }
  }

  /** Moving from resource i to the one after it, having delivered or skipped it. */
  lemma AdvanceOk(rs: seq<Res>, nextId: nat, e: Enumerator, i: nat)
    requires ResourcesOk(rs, nextId) && EnumOk(rs, nextId, {}, e) && i < |rs| && e.cursor == Some(rs[i].id)
    ensures EnumOk(rs, nextId, {}, Enumerator(IdAt(rs, i + 1), e.requests, e.delivered + [rs[i].id]))
  {
    var d := e.delivered + [rs[i].id];
    var next := IdAt(rs, i + 1);
    assert d[|e.delivered|] == rs[i].id;
    if i + 1 < |rs| { assert HasId(rs, rs[i + 1].id); }
    forall k | 0 <= k < |rs| && (next.None? || rs[k].id < next.value) ensures rs[k].id in d {
      assert k <= i;
      if k < i { assert rs[k].id in e.delivered; }
    }
  }

  lemma ReadAhead(s: State, e: nat, i: nat)
    requires Inv(s) && e in s.enums && i < |s.resources| && s.enums[e].cursor == Some(s.resources[i].id)
    ensures var en := s.enums[e];
            EnumOk(s.resources, s.nextId, s.live, Enumerator(IdAt(s.resources, i + 1), en.requests, en.delivered + [s.resources[i].id]))
  {
    var en := s.enums[e];
    assert EnumOk(s.resources, s.nextId, s.live, en);
    FewerLive(s.resources, s.nextId, s.live, {}, en, en.requests);
    AdvanceOk(s.resources, s.nextId, en, i);
  }

  lemma ReadOk(s: State, t: State, e: nat, r: nat)
    requires Inv(s) && Next(s, t, Read(e, r))
    ensures Inv(t)
  {
    hide EnumOk, IdAt;
    var en := s.enums[e];
    if en.cursor.Some? {
      var i: nat :| i < |s.resources| && Some(s.resources[i].id) == en.cursor
        && t == s.(enums := s.enums[e := Enumerator(IdAt(s.resources, i + 1), en.requests, en.delivered + [en.cursor.value])]);
      ReadAhead(s, e, i);
    } else {
      forall x | x in t.enums ensures EnumOk(t.resources, t.nextId, t.live, t.enums[x]) {
        ReadAtTail(s, r, x, e);
      }
    }
  }

  lemma ReadAtTail(s: State, r: nat, x: nat, e: nat)
    requires Inv(s) && e in s.enums && s.enums[e].cursor.None? && x in s.enums && Unused(s, r)
    ensures var en := if x == e then s.enums[e].(requests := [r] + s.enums[e].requests) else s.enums[x];
            EnumOk(s.resources, s.nextId, s.live + {r}, en)
  {
    assert EnumOk(s.resources, s.nextId, s.live, s.enums[x]);
    if x != e { MoreLive(s, r, x); }
  }

  lemma MoreLive(s: State, r: nat, x: nat)
    requires x in s.enums && Unused(s, r)
    ensures HasLive(s.enums[x].requests, s.live + {r}) <==> HasLive(s.enums[x].requests, s.live)
  {
    var reqs := s.enums[x].requests;
    if HasLive(reqs, s.live + {r}) {
      var i :| 0 <= i < |reqs| && reqs[i] in s.live + {r};
      assert reqs[i] in reqs;
    }
    if HasLive(reqs, s.live) {
      var i :| 0 <= i < |reqs| && reqs[i] in s.live;
      assert reqs[i] in s.live + {r};
    }
  }

  lemma AddMeets(s: State, id: nat, d: string, rs: seq<Res>, live: set<nat>, e: Enumerator)
    requires ResourcesOk(s.resources, s.nextId) && EnumOk(s.resources, s.nextId, s.live, e)
    requires id == s.nextId && rs == s.resources + [Res(id, d)] && live <= s.live
    ensures EnumOk(rs, s.nextId + 1, live, Meets(e, id, s.live))
  {
    var m := Meets(e, id, s.live);
    var n := |s.resources|;
    assert rs[n].id == id && HasId(rs, id);
    if e.cursor.Some? {
      var k :| 0 <= k < n && s.resources[k].id == e.cursor.value;
      assert rs[k].id == e.cursor.value;
    }
    forall i | 0 <= i < |rs| && (m.cursor.None? || rs[i].id < m.cursor.value) ensures rs[i].id in m.delivered {
      if i < n {
        assert rs[i] == s.resources[i];
        assert rs[i].id in e.delivered;
      } else {
        assert m.delivered[|e.delivered|] == id;
      }
    }
    AddMeetsLive(s, id, live, e);
  }

  lemma AddMeetsLive(s: State, id: nat, live: set<nat>, e: Enumerator)
    requires live <= s.live && (HasLive(e.requests, s.live) ==> e.cursor.None?)
    ensures var m := Meets(e, id, s.live);
            HasLive(m.requests, live) ==> m.cursor.None?
  {
    HasLiveMono(e.requests, live, s.live);
  }

  lemma HasLiveMono(reqs: seq<nat>, a: set<nat>, b: set<nat>)
    requires a <= b
    ensures HasLive(reqs, a) ==> HasLive(reqs, b)
  {
    if HasLive(reqs, a) {
      var i :| 0 <= i < |reqs| && reqs[i] in a;
      assert reqs[i] in b;
    }
  }

  lemma AddSeparate(s: map<nat, Enumerator>, t: map<nat, Enumerator>, id: nat, live: set<nat>)
    requires Separate(s) && t.Keys == s.Keys && forall e :: e in t ==> t[e] == Meets(s[e], id, live)
    ensures Separate(t)
  {
    hide Meets;
    forall e | e in t ensures NoDup(t[e].requests) && forall r :: r in t[e].requests ==> r in s[e].requests {
      MeetsReads(s[e], id, live);
    }
    FewerReads(s, t);
  }

  lemma AddKeeps(s: State, t: State, d: string)
    requires Inv(s) && Next(s, t, Add(d))
    ensures Inv(t)
  {
    hide Separate, Meets;
    if !HasDesc(s.resources, d) {
      AddSeparate(s.enums, t.enums, s.nextId, s.live);
      forall e | e in t.enums ensures EnumOk(t.resources, t.nextId, t.live, t.enums[e]) {
        AddMeets(s, s.nextId, d, t.resources, t.live, s.enums[e]);
      }
    }
  }

  lemma DeleteMoves(rs: seq<Res>, nextId: nat, live: set<nat>, i: nat, e: Enumerator)
    requires ResourcesOk(rs, nextId) && EnumOk(rs, nextId, live, e) && i < |rs|
    ensures EnumOk(rs[..i] + rs[i + 1..], nextId, live, MovedOff(e, rs[i].id, IdAt(rs, i + 1)))
  {
    hide Increasing, HasLive;
    var rs', m := rs[..i] + rs[i + 1..], MovedOff(e, rs[i].id, IdAt(rs, i + 1));
    assert forall k :: 0 <= k < |rs'| ==> rs'[k] == rs[if k < i then k else k + 1];
    if m.cursor.Some? {
      CursorStays(rs, rs', i, m.cursor.value) by {
        if e.cursor == Some(rs[i].id) { assert rs[i + 1].id == m.cursor.value; }
      }
    }
    forall k | 0 <= k < |rs'| && (m.cursor.None? || rs'[k].id < m.cursor.value) ensures rs'[k].id in m.delivered {
      assert rs[if k < i then k else k + 1].id in e.delivered;
    }
  }

  lemma CursorStays(rs: seq<Res>, rs': seq<Res>, i: nat, id: nat)
    requires i < |rs| && HasId(rs, id) && id != rs[i].id && |rs'| == |rs| - 1
    requires forall k :: 0 <= k < |rs'| ==> rs'[k] == rs[if k < i then k else k + 1]
    ensures HasId(rs', id)
  {
    var k :| 0 <= k < |rs| && rs[k].id == id;
    assert rs'[if k < i then k else k - 1].id == id;
  }

  lemma DeleteKeeps(s: State, t: State, i: nat)
    requires Inv(s) && Next(s, t, Delete(i))
    ensures Inv(t)
  {
    hide Separate;
    SameReads(s.enums, t.enums);
    assert forall k :: 0 <= k < |t.resources| ==> t.resources[k] == s.resources[if k < i then k else k + 1];
    forall e | e in t.enums ensures EnumOk(t.resources, t.nextId, t.live, t.enums[e]) {
      DeleteMoves(s.resources, s.nextId, s.live, i, s.enums[e]);
    }
  }

  lemma CancelKeeps(s: State, t: State, r: nat)
    requires Inv(s) && Next(s, t, MarkCancelled(r))
    ensures Inv(t)
  {
    forall e | e in t.enums ensures EnumOk(t.resources, t.nextId, t.live, t.enums[e]) {
      FewerLive(s.resources, s.nextId, s.live, t.live, s.enums[e], s.enums[e].requests);
    }
  }

  lemma ReadCancelledKeeps(s: State, t: State, e: nat, r: nat)
    requires Inv(s) && Next(s, t, ReadCancelled(e, r))
    ensures Inv(t)
  {
    var reqs := [r] + s.enums[e].requests;
    if HasLive(reqs, s.live) {
      var i :| 0 <= i < |reqs| && reqs[i] in s.live;
      assert s.enums[e].requests[i - 1] in s.live;
    }
    assert EnumOk(s.resources, s.nextId, s.live, s.enums[e]);
  }

  lemma DropKeeps(s: State, t: State, e: nat, j: nat)
    requires Inv(s) && Next(s, t, DropRequest(e, j))
    ensures Inv(t)
  {
    FewerLive(s.resources, s.nextId, s.live, s.live, s.enums[e], t.enums[e].requests);
  }

  lemma StepKeeps(s: State, t: State, step: Step)
    requires Inv(s) && Next(s, t, step)
    ensures Inv(t)
  {
    match step
    case Open(e) => OpenOk(s.resources, s.nextId, s.live);
    case Shut(e) =>
    case Add(d) => AddKeeps(s, t, d);
    case Delete(i) => DeleteKeeps(s, t, i);
    case Read(e, r) => ReadOk(s, t, e, r);
    case ReadCancelled(e, r) => ReadCancelledKeeps(s, t, e, r);
    case MarkCancelled(r) => CancelKeeps(s, t, r);
    case DropRequest(e, j) => DropKeeps(s, t, e, j);
  }

  ghost predicate Run(ss: seq<State>, steps: seq<Step>) {
    && |ss| == |steps| + 1 && ss[0] == State([], map[], {}, 0)
    && forall i :: 0 <= i < |steps| ==> Next(ss[i], ss[i + 1], steps[i])
  }

  lemma {:induction false} RunKeepsInv(ss: seq<State>, steps: seq<Step>, k: nat)
    requires Run(ss, steps) && k < |ss|
    ensures Inv(ss[k])
  {
    if k > 0 {
      RunKeepsInv(ss, steps, k - 1);
      StepKeeps(ss[k - 1], ss[k], steps[k - 1]);
    }
  }

  /** In every run, for every enumerator: what it delivered is in insertion order, each resource at
      most once; every resource listed now was delivered or lies from its cursor onward; and an
      enumerator with a read that is still waiting stands at the tail. */
  lemma EnumerationSafety(ss: seq<State>, steps: seq<Step>, k: nat, e: nat)
    requires Run(ss, steps) && k < |ss| && e in ss[k].enums
    ensures var s, en := ss[k], ss[k].enums[e];
            && Increasing(en.delivered)
            && (forall i :: 0 <= i < |s.resources| ==>
                  ((s.resources[i].id in en.delivered) != (en.cursor.Some? && en.cursor.value <= s.resources[i].id)))
            && (HasLive(en.requests, s.live) ==> en.cursor.None?)
  {
    RunKeepsInv(ss, steps, k);
    var s, en := ss[k], ss[k].enums[e];
    assert EnumOk(s.resources, s.nextId, s.live, en);
  }

  // ---------- no read is lost, no cancelled read is served ----------

  ghost predicate Queued(s: State, r: nat) { exists e :: e in s.enums && r in s.enums[e].requests }

  lemma AddKeepsQueued(s: State, t: State, d: string, r: nat)
    requires Next(s, t, Add(d)) && r in t.live && Queued(s, r)
    ensures Queued(t, r)
  {
    if !HasDesc(s.resources, d) {
      var e :| e in s.enums && r in s.enums[e].requests;
      var en := s.enums[e];
      if en.cursor.None? && HasLive(en.requests, s.live) {
        var i := FirstLive(en.requests, s.live);
        assert en.requests[i] == r ==> TakenBy(s, e, r);
        var k :| 0 <= k < |en.requests| && en.requests[k] == r;
        assert Removed(en.requests, i)[if k < i then k else k - 1] == r;
      }
      assert e in t.enums && r in t.enums[e].requests;
    }
  }

  lemma DropKeepsQueued(s: State, t: State, e: nat, j: nat, r: nat)
    requires Next(s, t, DropRequest(e, j)) && r in s.live && Queued(s, r)
    ensures Queued(t, r)
  {
    var x :| x in s.enums && r in s.enums[x].requests;
    var k :| 0 <= k < |s.enums[x].requests| && s.enums[x].requests[k] == r;
    if x == e { assert t.enums[x].requests[if k < j then k else k - 1] == r; }
    assert x in t.enums && r in t.enums[x].requests;
  }

  /** A read that waits after a step is queued, if those that waited before it were. */
  lemma StepKeepsQueued(s: State, t: State, step: Step, r: nat)
    requires Next(s, t, step) && r in t.live && (r in s.live ==> Queued(s, r))
    ensures Queued(t, r)
  {
    match step
    case Add(d) => AddKeepsQueued(s, t, d, r);
    case DropRequest(e, j) => DropKeepsQueued(s, t, e, j, r);
    case Read(e, x) =>
      if r == x {
        assert t.enums[e].requests[0] == r;
      } else {
        var f :| f in s.enums && r in s.enums[f].requests;
        assert f in t.enums && r in t.enums[f].requests;
      }
    case _ =>
      var f :| f in s.enums && r in s.enums[f].requests;
      assert f in t.enums && r in t.enums[f].requests;
  }

  /** In every run a read that waits is in the queue of exactly one enumerator, once, and that one stands at the tail. */
  lemma {:induction false} WaitingIsQueued(ss: seq<State>, steps: seq<Step>, k: nat, r: nat)
    requires Run(ss, steps) && k < |ss| && r in ss[k].live
    ensures exists e :: e in ss[k].enums && r in ss[k].enums[e].requests && ss[k].enums[e].cursor.None?
                        && forall f :: f in ss[k].enums && r in ss[k].enums[f].requests ==> f == e
    decreases k
  {
    QueuedInRun(ss, steps, k, r);
    RunKeepsInv(ss, steps, k);
    var e :| e in ss[k].enums && r in ss[k].enums[e].requests;
    assert EnumOk(ss[k].resources, ss[k].nextId, ss[k].live, ss[k].enums[e]);
    assert HasLive(ss[k].enums[e].requests, ss[k].live);
  }

  lemma {:induction false} QueuedInRun(ss: seq<State>, steps: seq<Step>, k: nat, r: nat)
    requires Run(ss, steps) && k < |ss| && r in ss[k].live
    ensures Queued(ss[k], r)
    decreases k
  {
    hide Next, Queued;
    if r in ss[k - 1].live { QueuedInRun(ss, steps, k - 1, r); }
    StepKeepsQueued(ss[k - 1], ss[k], steps[k - 1], r);
  }

  /** In every run a read marked cancelled gets no resource, unless it is issued again. */
  lemma {:induction false} CancelledGetsNothing(ss: seq<State>, steps: seq<Step>, a: nat, k: nat, r: nat)
    requires Run(ss, steps) && a < k < |ss| && steps[a] == MarkCancelled(r) && forall i, e :: a < i < k ==> steps[i] != Read(e, r)
    ensures r !in ss[k].live && !CompletedBy(ss[k], r)
    decreases k
  {
    if k - 1 > a { CancelledGetsNothing(ss, steps, a, k - 1, r); }
    assert Next(ss[k - 1], ss[k], steps[k - 1]);
    if steps[k - 1].Read? { assert steps[k - 1] == Read(steps[k - 1].e, steps[k - 1].r); }
  }
}
