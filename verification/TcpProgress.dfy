/** What can still happen on a connection: no loss, duplication or reordering is a dead end, unless an
    acknowledgement runs out of the sender's reach. */
module TcpProgress {
  import opened Common
  import opened TcpSequence
  import opened TcpReassembly
  import opened TcpTransmit
  import opened TcpEndToEnd

  ghost predicate Path(ns: seq<Net>, steps: seq<Step>) {
    |ns| == |steps| + 1 && forall i :: 0 <= i < |steps| ==> Next(ns[i], ns[i + 1], steps[i])
  }

  lemma PathJoin(ns: seq<Net>, steps: seq<Step>, ns': seq<Net>, steps': seq<Step>)
    requires Path(ns, steps) && Path(ns', steps') && ns[|ns| - 1] == ns'[0]
    ensures Path(ns + ns'[1..], steps + steps')
  {
    hide Next;
    var all, ops := ns + ns'[1..], steps + steps';
    forall i | 0 <= i < |ops| ensures Next(all[i], all[i + 1], ops[i]) {
      if i >= |steps| { assert all[i] == ns'[i - |steps|] && all[i + 1] == ns'[i - |steps| + 1]; }
    }
  }

  /** Nothing is written or closed on the way, and only single items are sent, from the base and into an empty receive window:
      any window the receiver advertises there allows them. */
  ghost predicate Modest(ns: seq<Net>, steps: seq<Step>)
    requires |ns| == |steps| + 1
  {
    forall i :: 0 <= i < |steps| ==>
      && !steps[i].Write? && !steps[i].Close?
      && (steps[i].Send? ==> Len(steps[i].g) == 1 && ns[i].sender.cursor == ns[i].sender.base && ns[i].receiver.length == 0)
  }

  lemma ModestJoin(ns: seq<Net>, steps: seq<Step>, ns': seq<Net>, steps': seq<Step>)
    requires |ns| == |steps| + 1 && |ns'| == |steps'| + 1 && ns[|ns| - 1] == ns'[0] && Modest(ns, steps) && Modest(ns', steps')
    ensures Modest(ns + ns'[1..], steps + steps')
  {
    var all, ops := ns + ns'[1..], steps + steps';
    forall i | 0 <= i < |ops|
      ensures !ops[i].Write? && !ops[i].Close?
      ensures ops[i].Send? ==> Len(ops[i].g) == 1 && all[i].sender.cursor == all[i].sender.base && all[i].receiver.length == 0
    {
      if i >= |steps| { assert all[i] == ns'[i - |steps|] && ops[i] == steps'[i - |steps|]; }
    }
  }

  ghost predicate InStep(n: Net) {
    && Inv(n) && Longest(n.receiver) && 0 < n.receiver.size < MAX_TCP_WINDOW_SIZE
    && AckPosition(n.receiver) <= n.sender.base + MAX_TCP_WINDOW_SIZE
  }

  /** Sender and receiver agree on what has arrived, and everything readable was read. */
  ghost predicate Level(n: Net) {
    InStep(n) && n.sender.base == n.sender.cursor == AckPosition(n.receiver) && n.receiver.length == 0
  }

  /** An acknowledgement, a rollback and a read level the two sides. */
  lemma CatchUp(n: Net) returns (ns: seq<Net>, steps: seq<Step>)
    requires InStep(n)
    ensures Path(ns, steps) && Modest(ns, steps) && ns[0] == n
    ensures var m := ns[|ns| - 1];
            Level(m) && m.sender.space == n.sender.space && AckPosition(m.receiver) == AckPosition(n.receiver)
  {
    hide Inv, Longest;
    var a, c := AckPosition(n.receiver), n.receiver.length;
    ReceiverIsOk(n);
    assert n.sender.base <= a by { BaseIsBehind(n); }
    var n1 := n.(acks := n.acks + {a});
    StepKeeps(n, n1, SendAck);
    var n2 := n1.(sender := n1.sender.(base := a));
    assert Next(n1, n2, Acknowledge(a, n1.sender.cursor));
    StepKeeps(n1, n2, Acknowledge(a, n1.sender.cursor));
    var n3 := n2.(sender := n2.sender.(cursor := a));
    StepKeeps(n2, n3, Rollback);
    var n4 := n3.(receiver := Consume(n3.receiver, c), delivered := n3.delivered + Front(n3.receiver, c));
    StepKeeps(n3, n4, Deliver(c));
    StaysLongest(n3.receiver, 0, [], 0, c);
    ns, steps := [n, n1, n2, n3, n4], [SendAck, Acknowledge(a, n1.sender.cursor), Rollback, Deliver(c)];
  }

  lemma BaseIsBehind(n: Net)
    requires Inv(n)
    ensures n.sender.base <= AckPosition(n.receiver) <= n.sender.sent <= |n.sender.space|
  {
  }

  /** On a level, what comes next is where the receiver waits. */
  lemma NextIsAwaited(n: Net)
    requires Level(n) && n.sender.base < |n.sender.space|
    ensures n.receiver.begin == n.sender.base && n.receiver.finish != Some(n.receiver.begin)
    ensures n.sender.space[n.sender.base].Data? || (n.sender.space[n.sender.base] == Fin && n.receiver.finish.None?)
  {
  }

  /** The awaited byte, or the awaited FIN, moves the acknowledged position, by at most the window and the FIN. */
  lemma AwaitedCounts(w: Window, b: Byte)
    requires Ok(w) && Longest(w) && w.length == 0 && w.size > 0 && w.finish != Some(w.begin)
    ensures var v := Arrive(w, w.begin, [b]);
            Ok(v) && Longest(v) && v.size == w.size && w.begin < AckPosition(v) <= w.begin + w.size + 1
    ensures var v := ArriveFin(w, w.begin);
            w.finish.None? ==> Ok(v) && Longest(v) && v.size == w.size && AckPosition(v) == w.begin + 1
  {
    hide Longest;
    StaysLongest(w, w.begin, [b], w.begin, 0);
    ArriveKeeps(w, w.begin, [b]);
    FinRecorded(w, w.begin);
    assert Covered(w, w.begin, 1, w.begin);
  }

  /** The packet with the one item at position p. */
  lemma ItemPacket(isn: Seq32, space: seq<Item>, p: nat) returns (g: Segment)
    requires p < |space| && (space[p].Data? || space[p] == Fin)
    ensures Carries(isn, space, p, g) && Len(g) == 1 && g.fin == (space[p] == Fin) && (!g.fin ==> |g.payload| == 1)
  {
    g := if space[p] == Fin then Segment(SeqOf(isn, p), [], true) else Segment(SeqOf(isn, p), [space[p].b], false);
    assert !g.fin ==> space[p..p + 1] == Items(g.payload, false);
  }

  /** The next item, sent once and not lost, is acknowledged. */
  lemma SendsNext(n: Net) returns (ns: seq<Net>, steps: seq<Step>)
    requires Level(n) && n.sender.base < |n.sender.space|
    ensures Path(ns, steps) && Modest(ns, steps) && ns[0] == n
    ensures var m := ns[|ns| - 1];
            InStep(m) && m.sender.space == n.sender.space && AckPosition(m.receiver) > AckPosition(n.receiver)
  {
    hide Inv, Longest, Arrive, ArriveFin, AckPosition, Carries, Ok;
    NextIsAwaited(n);
    ReceiverIsOk(n);
    var s, p := n.sender, n.sender.base;
    var g := ItemPacket(n.isn, s.space, p);
    var n1 := n.(sender := s.(cursor := p + 1, sent := MaxOf(s.sent, p + 1)), segments := n.segments + {Flight(p, g)});
    StepKeeps(n, n1, Send(g));
    var w := if g.fin then ArriveFin(n.receiver, p) else Arrive(n.receiver, p, g.payload);
    var n2 := n1.(receiver := w);
    StepKeeps(n1, n2, Arrival(Flight(p, g)));
    AwaitedCounts(n.receiver, if g.fin then 0 else g.payload[0]);
    assert !g.fin ==> g.payload == [g.payload[0]];
    ns, steps := [n, n1, n2], [Send(g), Arrival(Flight(p, g))];
  }

  /** From every such state everything written can still be delivered and acknowledged, and the end of the stream reported. */
  lemma {:induction false} CanFinish(n: Net) returns (ns: seq<Net>, steps: seq<Step>)
    requires InStep(n)
    ensures Path(ns, steps) && Modest(ns, steps) && ns[0] == n
    ensures var m := ns[|ns| - 1];
            && m.sender.space == n.sender.space && m.sender.base == |n.sender.space| && m.drained == (Fin in n.sender.space)
            && n.sender.space == Items(m.delivered, false) + if Fin in n.sender.space then [Fin] else []
    decreases |n.sender.space| - AckPosition(n.receiver)
  {
    hide Inv, Longest, Next, AckPosition;
    ns, steps := CatchUp(n);
    var m := ns[|ns| - 1];
    var ns', steps';
    if m.sender.base == |m.sender.space| {
      ns', steps' := Finishes(m);
    } else {
      BaseIsBehind(m);
      ns', steps' := SendsNext(m);
      var m' := ns'[|ns'| - 1];
      BaseIsBehind(m');
      var ns'', steps'' := CanFinish(m');
      PathJoin(ns', steps', ns'', steps'');
      ModestJoin(ns', steps', ns'', steps'');
      ns', steps' := ns' + ns''[1..], steps' + steps'';
    }
    PathJoin(ns, steps, ns', steps');
    ModestJoin(ns, steps, ns', steps');
    ns, steps := ns + ns'[1..], steps + steps';
  }

  /** No moment of any run in which at most 65535 bytes are unacknowledged is a dead end. */
  lemma NoDeadEnd(ns: seq<Net>, steps: seq<Step>, k: nat) returns (on: seq<Net>, ops: seq<Step>)
    requires Run(ns, steps) && k < |ns| && 0 < ns[k].receiver.size < MAX_TCP_WINDOW_SIZE
    requires ns[k].sender.sent <= ns[k].sender.base + MAX_TCP_WINDOW_SIZE
    ensures Path(on, ops) && Modest(on, ops) && on[0] == ns[k]
    ensures var m, space := on[|on| - 1], ns[k].sender.space;
            && m.sender.space == space && m.sender.base == |space| && m.drained == (Fin in space)
            && space == Items(m.delivered, false) + if Fin in space then [Fin] else []
  {
    hide Inv, Longest, Next, AckPosition;
    RunKeepsInv(ns, steps, k);
    RunHears(ns, steps, k, k);
    BaseIsBehind(ns[k]);
    on, ops := CanFinish(ns[k]);
  }

  /** With everything acknowledged and read, a FIN is all that may be left to report. */
  lemma Finishes(n: Net) returns (ns: seq<Net>, steps: seq<Step>)
    requires Level(n) && n.sender.base == |n.sender.space|
    ensures Path(ns, steps) && Modest(ns, steps) && ns[0] == n
    ensures var m := ns[|ns| - 1];
            && m.sender == n.sender && m.delivered == n.delivered && m.drained == (Fin in n.sender.space)
            && n.sender.space == Items(m.delivered, false) + if Fin in n.sender.space then [Fin] else []
  {
    var space, b := n.sender.space, n.receiver.begin;
    assert space == space[..b] + space[b..];
    if n.receiver.finish == Some(b) {
      assert space[b] == Fin && space[b..] == [Fin];
      ns, steps := [n, n.(drained := true)], [Drain];
    } else {
      assert b == |space|;
      assert Fin !in Items(n.delivered, false);
      ns, steps := [n], [];
    }
  }

  // ---------- acknowledgements out of reach ----------

  /** Whatever the receiver acknowledges from now on is more than the sender accepts, and so is every acknowledgement under way
      that is new. */
  ghost predicate OutOfReach(n: Net) {
    var b := n.sender.base;
    b + MAX_TCP_WINDOW_SIZE < AckPosition(n.receiver) && forall a :: a in n.acks ==> a <= b || b + MAX_TCP_WINDOW_SIZE < a
  }

  lemma StaysOut(n: Net, m: Net, step: Step)
    requires Inv(n) && OutOfReach(n) && Next(n, m, step)
    ensures OutOfReach(m) && m.sender.base == n.sender.base
  {
    StepAdvances(n, m, step);
  }

  lemma {:induction false} NeverAcknowledged(ns: seq<Net>, steps: seq<Step>, k: nat)
    requires Path(ns, steps) && Inv(ns[0]) && OutOfReach(ns[0]) && k < |ns|
    ensures Inv(ns[k]) && OutOfReach(ns[k]) && ns[k].sender.base == ns[0].sender.base
  {
    hide Inv, OutOfReach, Next;
    if k > 0 {
      NeverAcknowledged(ns, steps, k - 1);
      StepKeeps(ns[k - 1], ns[k], steps[k - 1]);
      StaysOut(ns[k - 1], ns[k], steps[k - 1]);
    }
  }

  /** With something new to acknowledge, the base can move if and only if that is not so. */
  lemma BaseMovesIff(n: Net)
    requires Inv(n) && n.sender.base < AckPosition(n.receiver)
    ensures (exists ns: seq<Net>, steps: seq<Step> :: Path(ns, steps) && ns[0] == n && ns[|ns| - 1].sender.base > n.sender.base) <==> !OutOfReach(n)
  {
    var s, a := n.sender, AckPosition(n.receiver);
    if OutOfReach(n) {
      forall ns: seq<Net>, steps: seq<Step> | Path(ns, steps) && ns[0] == n ensures ns[|ns| - 1].sender.base == n.sender.base {
        NeverAcknowledged(ns, steps, |ns| - 1);
      }
    } else if a <= s.base + MAX_TCP_WINDOW_SIZE {
      var n1 := n.(acks := n.acks + {a});
      var n2 := n1.(sender := s.(base := a));
      assert Next(n, n1, SendAck) && Next(n1, n2, Acknowledge(a, s.cursor));
      assert Path([n, n1, n2], [SendAck, Acknowledge(a, s.cursor)]);
    } else {
      var x :| x in n.acks && s.base < x <= s.base + MAX_TCP_WINDOW_SIZE;
      var n1 := n.(sender := s.(base := x));
      assert Next(n, n1, Acknowledge(x, s.cursor));
      assert Path([n, n1], [Acknowledge(x, s.cursor)]);
    }
  }
}
