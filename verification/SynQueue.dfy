/** Connection requests waiting for a listener, and listeners waiting for a request. */
module SynQueue {
  import opened Common

  const MAX_QUEUED_SYN_COUNT := 10
  const ANY := 0

  datatype Syn = Syn(id: nat, source: nat, sourcePort: nat, destination: nat, destinationPort: nat)

  datatype Waiter = Waiter(id: nat, remote: nat, remotePort: nat, local: nat, localPort: nat)

  predicate Matches(w: Waiter, s: Syn) {
    && (w.remote == ANY || w.remote == s.source)
    && (w.remotePort == ANY || w.remotePort == s.sourcePort)
    && (w.local == ANY || w.local == s.destination)
    && w.localPort == s.destinationPort
  }

  predicate SameFlow(a: Syn, b: Syn) {
    a.source == b.source && a.sourcePort == b.sourcePort && a.destinationPort == b.destinationPort
  }

  /** The queue without the requests of one flow. */
  ghost function WithoutFlow(q: seq<Syn>, s: Syn): seq<Syn> {
    if q == [] then []
    else if SameFlow(q[0], s) then WithoutFlow(q[1..], s)
    else [q[0]] + WithoutFlow(q[1..], s)
  }

  /** While the loop stands at i: what was taken out belongs to the flow, and the rest of the queue is still to be looked at. */
  ghost predicate Parted(q: seq<Syn>, s: Syn, dup: seq<Syn>, p: seq<Syn>, i: nat) {
    && i <= |p| && WithoutFlow(q, s) == p[..i] + WithoutFlow(p[i..], s)
    && multiset(dup) + multiset(p) == multiset(q) && forall t :: t in dup ==> SameFlow(t, s)
  }

  lemma PartedStart(q: seq<Syn>, s: Syn)
    ensures Parted(q, s, [], q, 0)
  {
    assert q[..0] == [] && q[0..] == q;
  }

  lemma PartedStep(q: seq<Syn>, s: Syn, dup: seq<Syn>, p: seq<Syn>, i: nat)
    requires Parted(q, s, dup, p, i) && i < |p|
    ensures if SameFlow(p[i], s) then Parted(q, s, [p[i]] + dup, p[..i] + p[i + 1..], i) else Parted(q, s, dup, p, i + 1)
  {
    hide SameFlow;
    assert p[i..][1..] == p[i + 1..];
    if SameFlow(p[i], s) {
      var r := p[..i] + p[i + 1..];
      assert r[..i] == p[..i] && r[i..] == p[i + 1..];
      assert p == p[..i] + [p[i]] + p[i + 1..];
      assert forall t :: t in [p[i]] + dup ==> t == p[i] || t in dup;
    } else {
      var rest := WithoutFlow(p[i + 1..], s);
      assert p[..i] + ([p[i]] + rest) == p[..i + 1] + rest;
    }
  }

  lemma PartedEnd(q: seq<Syn>, s: Syn, dup: seq<Syn>, p: seq<Syn>)
    requires Parted(q, s, dup, p, |p|)
    ensures p == WithoutFlow(q, s) && multiset(dup) + multiset(p) == multiset(q)
    ensures forall t :: t in dup ==> t in q && SameFlow(t, s)
    ensures forall t :: t in p ==> t in q
  {
    hide SameFlow;
    assert p[..|p|] == p && p[|p|..] == [];
    forall t | t in dup ensures t in q { assert t in multiset(dup) + multiset(p); assert t in multiset(q); }
    forall t | t in p ensures t in q { assert t in multiset(dup) + multiset(p); assert t in multiset(q); }
  }

  ghost predicate OneFlow(q: seq<Syn>) {
    forall i, j :: 0 <= i < j < |q| ==> !SameFlow(q[i], q[j])
  }

  lemma {:induction false} WithoutFlowSpec(q: seq<Syn>, s: Syn)
    requires OneFlow(q)
    ensures OneFlow(WithoutFlow(q, s)) && |q| - 1 <= |WithoutFlow(q, s)| <= |q|
    ensures forall t :: t in WithoutFlow(q, s) <==> t in q && !SameFlow(t, s)
  {
    if q != [] {
      WithoutFlowSpec(q[1..], s);
      assert q == [q[0]] + q[1..];
      if SameFlow(q[0], s) {
        KeepsOthers(q[1..], s);
      } else {
        var r := WithoutFlow(q[1..], s);
        assert forall t :: t in q[1..] ==> !SameFlow(q[0], t);
        assert forall i :: 0 <= i < |r| ==> r[i] in r;
      }
    }
  }

  /** At most one request is taken out, and the others keep their order. */
  lemma {:induction false} WithoutFlowOrder(q: seq<Syn>, s: Syn)
    requires OneFlow(q)
    ensures WithoutFlow(q, s) == q || exists k :: 0 <= k < |q| && SameFlow(q[k], s) && WithoutFlow(q, s) == q[..k] + q[k + 1..]
    ensures WithoutFlow(q, s) == q <==> forall i :: 0 <= i < |q| ==> !SameFlow(q[i], s)
  {
    hide SameFlow;
    if k :| 0 <= k < |q| && SameFlow(q[k], s) {
      FlowIsOne(q, s, k);
      RemovesOne(q, s, k);
      assert |q[..k] + q[k + 1..]| < |q|;
    } else {
      KeepsOthers(q, s);
    }
  }

  lemma FlowIsOne(q: seq<Syn>, s: Syn, k: nat)
    requires OneFlow(q) && k < |q| && SameFlow(q[k], s)
    ensures forall i :: 0 <= i < |q| && i != k ==> !SameFlow(q[i], s)
  {
    forall i | 0 <= i < |q| && i != k ensures !SameFlow(q[i], s) {
      assert if i < k then !SameFlow(q[i], q[k]) else !SameFlow(q[k], q[i]);
    }
  }

  lemma {:induction false} RemovesOne(q: seq<Syn>, s: Syn, k: nat)
    requires k < |q| && SameFlow(q[k], s) && forall i :: 0 <= i < |q| && i != k ==> !SameFlow(q[i], s)
    ensures WithoutFlow(q, s) == q[..k] + q[k + 1..]
  {
    hide SameFlow;
    if k == 0 {
      KeepsOthers(q[1..], s);
    } else {
      RemovesOne(q[1..], s, k - 1);
      assert q[..k] + q[k + 1..] == [q[0]] + (q[1..][..k - 1] + q[1..][k..]);
    }
  }

  lemma HeadLeaves(q: seq<Syn>)
    requires OneFlow(q) && q != []
    ensures OneFlow(q[1..]) && multiset(q[1..]) + multiset{q[0]} == multiset(q) && forall t :: t in q[1..] ==> t in q
  {
    assert q == [q[0]] + q[1..];
  }

  lemma Joins(q: seq<Syn>, s: Syn)
    requires OneFlow(q) && forall t :: t in q ==> !SameFlow(t, s)
    ensures OneFlow(q + [s]) && multiset(q + [s]) == multiset(q) + multiset{s}
  {
    hide SameFlow;
    assert forall i :: 0 <= i < |q| ==> q[i] in q;
  }

  /** With no request of the flow, nothing is removed. */
  lemma {:induction false} KeepsOthers(q: seq<Syn>, s: Syn)
    requires forall i :: 0 <= i < |q| ==> !SameFlow(q[i], s)
    ensures WithoutFlow(q, s) == q
  {
    if q != [] { KeepsOthers(q[1..], s); }
  }

  class TCPListener {
    var synCount: nat
    var syns: seq<Syn>
    var waiters: seq<Waiter>

    /** The counter is exact and bounded, flows are unique, and nothing queued on one side
        matches anything queued on the other. */
    ghost predicate Valid()
      reads this
    {
      && synCount == |syns| <= MAX_QUEUED_SYN_COUNT && OneFlow(syns)
      && forall w, s :: w in waiters && s in syns ==> !Matches(w, s)
    }

    constructor ()
      ensures Valid() && syns == [] && waiters == []
    {
      synCount, syns, waiters := 0, [], [];
    }

    /** Removes every queued request of one flow; by the invariant at most one. */
    method PopDuplicatedSYN(s: Syn) returns (dup: seq<Syn>)
      requires Valid()
      modifies this`synCount, this`syns
      ensures Valid() && syns == WithoutFlow(old(syns), s)
      ensures |dup| + |syns| == old(|syns|) && |dup| <= 1 && multiset(dup) + multiset(syns) == multiset(old(syns))
      ensures forall t :: t in dup ==> t in old(syns) && SameFlow(t, s)
    {
      hide OneFlow, Matches, SameFlow, WithoutFlow, Parted;
      WithoutFlowSpec(syns, s);
      ghost var q := syns;
      dup := [];
      PartedStart(q, s);
      var i := 0;
      while i < |syns|
        invariant 0 <= i <= |syns| && synCount == |syns| && |dup| + |syns| == |q| && Parted(q, s, dup, syns, i)
        decreases |syns| - i
      {
        PartedStep(q, s, dup, syns, i);
        if SameFlow(syns[i], s) {
          dup := [syns[i]] + dup;
          syns := syns[..i] + syns[i + 1..];
          synCount := synCount - 1;
        } else {
          i := i + 1;
        }
      }
      PartedEnd(q, s, dup, syns);
    }

    /** The earliest waiter that matches, or their number. */
    method FindWaiter(s: Syn) returns (k: nat)
      ensures k <= |waiters| && (k < |waiters| ==> Matches(waiters[k], s)) && forall j :: 0 <= j < k ==> !Matches(waiters[j], s)
    {
      hide Matches;
      k := 0;
      while k < |waiters|
        invariant 0 <= k <= |waiters|
        invariant forall j :: 0 <= j < k ==> !Matches(waiters[j], s)
      {
        if Matches(waiters[k], s) { break; }
        k := k + 1;
      }
    }

    /** A new request goes to the earliest matching waiter, or joins the queue, pushing out
        the oldest request when the queue is full; what is dropped is what left the queue. */
    method AddSYN(s: Syn) returns (served: Option<Waiter>, dropped: seq<Syn>)
      requires Valid()
      modifies this
      ensures Valid() && |dropped| <= 1
      ensures multiset(syns) + multiset(dropped) == multiset(old(syns)) + if served.Some? then multiset{} else multiset{s}
      ensures served.Some? ==>
                exists k :: 0 <= k < |old(waiters)| && served.value == old(waiters)[k] && Matches(served.value, s)
                  && (forall j :: 0 <= j < k ==> !Matches(old(waiters)[j], s))
                  && waiters == old(waiters)[..k] + old(waiters)[k + 1..]
      ensures served.Some? ==> syns == WithoutFlow(old(syns), s)
      ensures served.None? ==> waiters == old(waiters) && forall w :: w in waiters ==> !Matches(w, s)
      ensures served.None? ==>
                var q := WithoutFlow(old(syns), s);
                syns == (if |q| == MAX_QUEUED_SYN_COUNT then q[1..] else q) + [s]
    {
      hide Matches, SameFlow, WithoutFlow, OneFlow;
      assert synCount <= MAX_QUEUED_SYN_COUNT;
      dropped := PopDuplicatedSYN(s);
      WithoutFlowSpec(old(syns), s);
      served := None;
      var k := FindWaiter(s);
      if k < |waiters| {
        served := Some(waiters[k]);
        waiters := waiters[..k] + waiters[k + 1..];
      } else {
        if synCount == MAX_QUEUED_SYN_COUNT {
          assert dropped == [];
          dropped := [syns[0]];
          HeadLeaves(syns);
          syns, synCount := syns[1..], synCount - 1;
        }
        Joins(syns, s);
        syns, synCount := syns + [s], synCount + 1;
      }
    }

    /** A listener takes the earliest matching request, or joins the waiters. */
    method WaitSYN(w: Waiter) returns (r: Option<Syn>)
      requires Valid()
      modifies this
      ensures Valid()
      ensures r.Some? ==>
                exists k :: 0 <= k < |old(syns)| && r.value == old(syns)[k] && Matches(w, r.value)
                  && (forall j :: 0 <= j < k ==> !Matches(w, old(syns)[j]))
                  && syns == old(syns)[..k] + old(syns)[k + 1..] && waiters == old(waiters)
      ensures r.None? ==>
                && waiters == old(waiters) + [w] && syns == old(syns)
                && forall s :: s in old(syns) ==> !Matches(w, s)
    {
      var k := 0;
      while k < |syns|
        invariant 0 <= k <= |syns|
        invariant forall j :: 0 <= j < k ==> !Matches(w, syns[j])
      {
        if Matches(w, syns[k]) { break; }
        k := k + 1;
      }
      if k < |syns| {
        r := Some(syns[k]);
        syns, synCount := syns[..k] + syns[k + 1..], synCount - 1;
      } else {
        r := None;
        waiters := waiters + [w];
      }
    }
  }
}
