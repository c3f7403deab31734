/** One direction of a connection: a sender, a network that drops, duplicates and
    reorders, and a receiver.  Each step is what one call of the windows' methods does. */
module TcpEndToEnd {
  import opened Common
  import opened TcpSequence
  import opened TcpReassembly
  import opened TcpTransmit

  /** A segment in flight and the stream position it was sent from. */
  datatype Flight = Flight(pos: nat, segment: Segment)

  datatype Net = Net(
    isn: Seq32,
    sender: Sender,
    receiver: Window,
    segments: set<Flight>,    // every segment ever sent: the network may deliver any of them at any time
    acks: set<nat>,           // every position ever acknowledged
    delivered: seq<Byte>,     // bytes handed to readers, in order
    drained: bool             // waiting readers were completed with nothing
  )

  function MaxOf(a: nat, b: nat): nat { if a < b then b else a }

  ghost predicate Init(n: Net) {
    && n.sender.space == [] && n.sender.base == n.sender.cursor == n.sender.sent == 0
    && n.receiver.begin == 0 && n.receiver.length == 0 && n.receiver.got == map[] && n.receiver.finish == None
    && n.segments == {} && n.acks == {} && n.delivered == [] && !n.drained
  }

  datatype Step =
    | Write(data: seq<Byte>)
    | Close
    | Send(g: Segment)
    | Acknowledge(a: nat, cursor: nat)
    | Rollback
    | Resize(window: nat)
    | Arrival(f: Flight)
    | SendAck
    | Deliver(count: nat)
    | Drain

  /** The segment arrives before its 32-bit numbers could be read as a different position. */
  ghost predicate Timely(f: Flight, w: Window) {
    if f.segment.fin then w.begin + w.size < f.pos + MOD && f.pos < w.begin + MOD
    else InReach(w.begin, w.size, f.pos, |f.segment.payload|)
  }

  ghost predicate Next(n: Net, m: Net, step: Step) {
    var s, w := n.sender, n.receiver;
    match step
    case Write(data) => Fin !in s.space && m == n.(sender := s.(space := s.space + Items(data, false)))
    case Close => Fin !in s.space && m == n.(sender := s.(space := s.space + [Fin]))
    case Send(g) =>
      && Carries(n.isn, s.space, s.cursor, g)
      && m == n.(sender := s.(cursor := s.cursor + Len(g), sent := MaxOf(s.sent, s.cursor + Len(g))),
                 segments := n.segments + {Flight(s.cursor, g)})
    case Acknowledge(a, cursor) =>
      && a in n.acks && s.base + MAX_TCP_WINDOW_SIZE < a + MOD
      && (if s.base <= a && a - s.base <= MAX_TCP_WINDOW_SIZE
          then (cursor == s.cursor || s.cursor < cursor <= a) && m == n.(sender := s.(base := a, cursor := cursor))
          else m == n)
    case Rollback => m == n.(sender := s.(cursor := s.base))
    case Resize(window) => m == n.(sender := s.(window := window))
    case Arrival(f) =>
      && f in n.segments && Ok(w) && Timely(f, w)
      && m == n.(receiver := if f.segment.fin then ArriveFin(w, f.pos) else Arrive(w, f.pos, f.segment.payload))
    case SendAck => m == n.(acks := n.acks + {AckPosition(w)})
    case Deliver(count) =>
      Ok(w) && count <= w.length && m == n.(receiver := Consume(w, count), delivered := n.delivered + Front(w, count))
    case Drain => w.finish == Some(w.begin) && m == n.(drained := true)
  }

  // ---------- the invariant ----------

  ghost predicate SpaceOk(space: seq<Item>) {
    forall i :: 0 <= i < |space| ==> space[i].Data? || (space[i] == Fin && i == |space| - 1)
  }

  ghost predicate SenderOk(s: Sender) {
    SpaceOk(s.space) && s.base <= s.sent && s.cursor <= s.sent <= |s.space|
  }

  /** Everything held is what was written there, and was sent. */
  ghost predicate ReceiverOk(s: Sender, w: Window) {
    && Ok(w)
    && (forall p :: p in w.got ==> p < s.sent && p < |s.space| && s.space[p] == Data(w.got[p]))
    && (w.finish.Some? ==> w.finish.value < s.sent && w.finish.value < |s.space| && s.space[w.finish.value] == Fin)
  }

  ghost predicate FlightOk(isn: Seq32, s: Sender, f: Flight) {
    Carries(isn, s.space, f.pos, f.segment) && f.pos + Len(f.segment) <= s.sent
  }

  ghost predicate DeliveredOk(s: Sender, w: Window, d: seq<Byte>) {
    |d| == w.begin <= |s.space| && s.space[..w.begin] == Items(d, false)
  }

  ghost predicate Inv(n: Net) {
    && SenderOk(n.sender) && ReceiverOk(n.sender, n.receiver) && DeliveredOk(n.sender, n.receiver, n.delivered)
    && (forall f :: f in n.segments ==> FlightOk(n.isn, n.sender, f))
    && (forall a :: a in n.acks ==> a <= AckPosition(n.receiver))
    && n.sender.base <= AckPosition(n.receiver) <= n.sender.sent
    && (n.drained ==> n.receiver.finish == Some(n.receiver.begin))
  }

  /** Appending to the written stream disturbs nothing already there. */
  lemma SpaceGrows(n: Net, more: seq<Item>)
    requires Inv(n) && Fin !in n.sender.space
    requires SpaceOk(n.sender.space + more)
    ensures Inv(n.(sender := n.sender.(space := n.sender.space + more)))
  {
    var s := n.sender;
    var t := s.(space := s.space + more);
    forall f | f in n.segments ensures FlightOk(n.isn, t, f) { FlightGrows(n.isn, s, t, more, f); }
    assert t.space[..n.receiver.begin] == s.space[..n.receiver.begin];
  }

  lemma FlightGrows(isn: Seq32, s: Sender, t: Sender, more: seq<Item>, f: Flight)
    requires FlightOk(isn, s, f) && t == s.(space := s.space + more)
    ensures FlightOk(isn, t, f)
  {
    var k := f.pos + |f.segment.payload|;
    if !f.segment.fin { assert t.space[f.pos..k] == s.space[f.pos..k]; }
  }

  lemma SendKeeps(n: Net, m: Net, g: Segment)
    requires Inv(n) && Next(n, m, Send(g))
    ensures Inv(m)
  {
    forall f | f in m.segments ensures FlightOk(m.isn, m.sender, f) {
      if f in n.segments { assert FlightOk(n.isn, n.sender, f); }
    }
  }

  /** The acknowledged position counts only positions that were sent. */
  lemma AckWasSent(s: Sender, w: Window)
    requires SenderOk(s) && ReceiverOk(s, w) && w.begin <= s.sent
    ensures AckPosition(w) <= s.sent
  {
    if w.length > 0 { assert w.begin + w.length - 1 in w.got; }
  }

  lemma DataArrivalKeeps(n: Net, f: Flight)
    requires Inv(n) && f in n.segments && !f.segment.fin
    ensures Inv(n.(receiver := Arrive(n.receiver, f.pos, f.segment.payload)))
  {
    var w, s := n.receiver, n.sender;
    var v := Arrive(w, f.pos, f.segment.payload);
    ArriveKeeps(w, f.pos, f.segment.payload);
    assert FlightOk(n.isn, s, f);
    forall p: nat | p in v.got ensures p < s.sent && p < |s.space| && s.space[p] == Data(v.got[p]) {
      if Covered(w, f.pos, |f.segment.payload|, p) {
        assert s.space[p] == s.space[f.pos..f.pos + |f.segment.payload|][p - f.pos];
      }
    }
    AckWasSent(s, v);
  }

  lemma FinArrivalKeeps(n: Net, f: Flight)
    requires Inv(n) && f in n.segments && f.segment.fin
    ensures Inv(n.(receiver := ArriveFin(n.receiver, f.pos)))
  {
    var w, s := n.receiver, n.sender;
    assert FlightOk(n.isn, s, f);
    if w.length > 0 { assert w.begin + w.length - 1 in w.got; }
    assert w.begin > 0 ==> s.space[..w.begin][w.begin - 1].Data?;
    FinKeeps(w, f.pos);
    AckWasSent(s, ArriveFin(w, f.pos));
  }

  lemma DeliverKeeps(n: Net, count: nat)
    requires Inv(n) && count <= n.receiver.length
    ensures Inv(n.(receiver := Consume(n.receiver, count), delivered := n.delivered + Front(n.receiver, count)))
  {
    var w, s := n.receiver, n.sender;
    ConsumeKeeps(w, count);
    var front := Front(w, count);
    if count > 0 { assert w.begin + count - 1 in w.got; }
    forall i | 0 <= i < w.begin + count ensures s.space[..w.begin + count][i] == Items(n.delivered + front, false)[i] {
      if i < w.begin { assert s.space[..w.begin][i] == Items(n.delivered, false)[i]; }
      else { assert i in w.got; }
    }
  }

  lemma AcknowledgeKeeps(n: Net, m: Net, a: nat, cursor: nat)
    requires Inv(n) && Next(n, m, Acknowledge(a, cursor))
    ensures Inv(m)
  {
    assert a <= AckPosition(n.receiver);
    forall f | f in m.segments ensures FlightOk(m.isn, m.sender, f) { assert FlightOk(n.isn, n.sender, f); }
  }

  /** Moving the cursor back or changing the window disturbs nothing. */
  lemma SenderOnly(n: Net, cursor: nat, window: nat)
    requires Inv(n) && cursor <= n.sender.sent
    ensures Inv(n.(sender := n.sender.(cursor := cursor, window := window)))
  {
    var m := n.(sender := n.sender.(cursor := cursor, window := window));
    forall f | f in m.segments ensures FlightOk(m.isn, m.sender, f) { assert FlightOk(n.isn, n.sender, f); }
  }

  lemma AckOrDrainKeeps(n: Net, m: Net, step: Step)
    requires Inv(n) && Next(n, m, step) && (step.SendAck? || step.Drain?)
    ensures Inv(m)
  {
  }

  lemma BaseSent(n: Net)
    requires Inv(n)
    ensures n.sender.base <= n.sender.sent && n.sender.cursor <= n.sender.sent && SpaceOk(n.sender.space)
  {
  }

  lemma MoreSpace(space: seq<Item>, data: seq<Byte>)
    requires SpaceOk(space) && Fin !in space
    ensures SpaceOk(space + Items(data, false)) && SpaceOk(space + [Fin])
  {
    assert forall i :: 0 <= i < |space| ==> space[i] in space;
  }

  /** Every step keeps the invariant. */
  lemma StepKeeps(n: Net, m: Net, step: Step)
    requires Inv(n) && Next(n, m, step)
    ensures Inv(m)
  {
    hide Inv, Items, Carries, Arrive, ArriveFin, Consume, Front, SpaceOk, Timely, Ok;
    BaseSent(n);
    match step
    case Write(data) =>
      MoreSpace(n.sender.space, data);
      SpaceGrows(n, Items(data, false));
    case Close =>
      MoreSpace(n.sender.space, []);
      SpaceGrows(n, [Fin]);
    case Send(g) => SendKeeps(n, m, g);
    case Arrival(f) => if f.segment.fin { FinArrivalKeeps(n, f); } else { DataArrivalKeeps(n, f); }
    case Deliver(count) => DeliverKeeps(n, count);
    case Acknowledge(a, cursor) => AcknowledgeKeeps(n, m, a, cursor);
    case Rollback => SenderOnly(n, n.sender.base, n.sender.window);
    case Resize(window) => SenderOnly(n, n.sender.cursor, window);
    case SendAck => AckOrDrainKeeps(n, m, step);
    case Drain => AckOrDrainKeeps(n, m, step);
  }

  // ---------- whole runs ----------

  ghost predicate Run(ns: seq<Net>, steps: seq<Step>) {
    && |ns| == |steps| + 1 && Init(ns[0])
    && forall i :: 0 <= i < |steps| ==> Next(ns[i], ns[i + 1], steps[i])
  }

  lemma {:induction false} RunKeepsInv(ns: seq<Net>, steps: seq<Step>, k: nat)
    requires Run(ns, steps) && k < |ns|
    ensures Inv(ns[k])
    decreases k
  {
    if k > 0 {
      RunKeepsInv(ns, steps, k - 1);
      StepKeeps(ns[k - 1], ns[k], steps[k - 1]);
    } else {
      InitInv(ns[0]);
    }
  }

  lemma InitInv(n: Net)
    requires Init(n)
    ensures Inv(n)
  {
  }

  /** The bytes written so far. */
  ghost function Written(space: seq<Item>): seq<Byte> {
    if space == [] then []
    else if space[|space| - 1].Data? then Written(space[..|space| - 1]) + [space[|space| - 1].b]
    else Written(space[..|space| - 1])
  }

  lemma {:induction false} WrittenOfItems(d: seq<Byte>)
    ensures Written(Items(d, false)) == d
  {
    if d != [] {
      var n := |d| - 1;
      WrittenOfItems(d[..n]);
      assert Items(d, false)[..n] == Items(d[..n], false);
      assert d == d[..n] + [d[n]];
    }
  }

  lemma {:induction false} WrittenPrefix(space: seq<Item>, k: nat)
    requires k <= |space|
    ensures Written(space[..k]) <= Written(space)
    decreases |space|
  {
    if k < |space| {
      WrittenPrefix(space[..|space| - 1], k);
      assert space[..|space| - 1][..k] == space[..k];
    } else {
      assert space[..k] == space;
    }
  }

  /** A step never takes back what was acknowledged or advertised. */
  lemma StepAdvances(n: Net, m: Net, step: Step)
    requires Inv(n) && Next(n, m, step)
    ensures AckPosition(n.receiver) <= AckPosition(m.receiver) && WireEdge(n.receiver) <= WireEdge(m.receiver)
  {
    hide Inv;
    match step
    case Arrival(f) => ArrivalAdvances(n, f);
    case Deliver(count) => ConsumeKeeps(n.receiver, count);
    case _ =>
  }

  lemma ArrivalAdvances(n: Net, f: Flight)
    requires Inv(n) && f in n.segments
    ensures var w := n.receiver;
            var v := if f.segment.fin then ArriveFin(w, f.pos) else Arrive(w, f.pos, f.segment.payload);
            AckPosition(w) <= AckPosition(v) && WireEdge(w) <= WireEdge(v)
  {
    var w, s := n.receiver, n.sender;
    assert FlightOk(n.isn, s, f);
    if f.segment.fin {
      FinKeeps(w, f.pos);
      if w.length > 0 { assert w.begin + w.length - 1 in w.got; }
    } else {
      ArriveKeeps(w, f.pos, f.segment.payload);
    }
  }

  /** The step is the arrival of a FIN while bytes before it are missing. */
  ghost predicate Overtakes(n: Net, step: Step) {
    var w := n.receiver;
    step.Arrival? && step.f.segment.fin && w.finish.None? && w.begin + w.length < step.f.pos <= w.begin + w.size
  }

  lemma StepReaches(n: Net, m: Net, step: Step)
    requires Ok(n.receiver) && Next(n, m, step) && FinishReached(n.receiver)
    ensures FinishReached(m.receiver) <==> !Overtakes(n, step)
  {
    match step
    case Arrival(f) => FinishStaysReached(n.receiver, f.pos, f.segment.payload, 0);
    case Deliver(count) => FinishStaysReached(n.receiver, 0, [], count);
    case _ =>
  }

  /** The assertion on entry to the receive path holds throughout a run if and only if no FIN overtakes missing data in it. */
  lemma {:induction false} EntryHoldsIff(ns: seq<Net>, steps: seq<Step>, k: nat)
    requires Run(ns, steps) && k < |ns|
    ensures (forall i :: 0 <= i <= k ==> FinishReached(ns[i].receiver)) <==> (forall i :: 0 <= i < k ==> !Overtakes(ns[i], steps[i]))
    decreases k
  {
    hide Inv, Overtakes, FinishReached;
    if k == 0 {
      StartReached(ns[0]);
    } else {
      EntryHoldsIff(ns, steps, k - 1);
      RunKeepsInv(ns, steps, k - 1);
      ReceiverIsOk(ns[k - 1]);
      if FinishReached(ns[k - 1].receiver) { StepReaches(ns[k - 1], ns[k], steps[k - 1]); }
    }
  }

  lemma StartReached(n: Net)
    requires Init(n)
    ensures FinishReached(n.receiver)
  {
  }

  lemma ReceiverIsOk(n: Net)
    requires Inv(n)
    ensures Ok(n.receiver)
  {
  }

  // ---------- the FIN is heard ----------

  /** Every step keeps a recorded FIN, and keeps the readable prefix as long as it can be. */
  lemma StepHears(n: Net, m: Net, step: Step)
    requires Inv(n) && Next(n, m, step) && Ok(n.receiver) && Longest(n.receiver)
    ensures Ok(m.receiver) && Longest(m.receiver) && (n.receiver.finish.Some? ==> m.receiver.finish == n.receiver.finish)
  {
    hide Inv;
    match step
    case Arrival(f) =>
      StaysLongest(n.receiver, f.pos, f.segment.payload, f.pos, 0);
      ArriveKeeps(n.receiver, f.pos, f.segment.payload);
    case Deliver(count) => StaysLongest(n.receiver, 0, [], 0, count);
    case _ =>
  }

  lemma {:induction false} RunHears(ns: seq<Net>, steps: seq<Step>, j: nat, k: nat)
    requires Run(ns, steps) && j <= k < |ns|
    ensures Ok(ns[k].receiver) && Longest(ns[k].receiver)
    ensures ns[j].receiver.finish.Some? ==> ns[k].receiver.finish == ns[j].receiver.finish
    decreases k
  {
    hide Inv, Next, Longest, Ok;
    if k == 0 {
      StartsLongest(ns[0]);
    } else {
      RunHears(ns, steps, if j < k then j else k - 1, k - 1);
      RunKeepsInv(ns, steps, k - 1);
      StepHears(ns[k - 1], ns[k], steps[k - 1]);
    }
  }

  lemma StartsLongest(n: Net)
    requires Init(n)
    ensures Ok(n.receiver) && Longest(n.receiver)
  {
  }

  /** Only one position of the stream is a FIN, and readers have not passed it. */
  lemma OneFin(n: Net, f: Flight)
    requires Inv(n) && f in n.segments && f.segment.fin
    ensures n.receiver.begin <= f.pos && (n.receiver.finish.Some? ==> n.receiver.finish.value == f.pos)
  {
    assert FlightOk(n.isn, n.sender, f);
    if n.receiver.begin > 0 { assert n.sender.space[..n.receiver.begin][n.receiver.begin - 1].Data?; }
  }

  /** Once a FIN has arrived inside the window the receiver knows its place for ever, and as soon as every byte before it has
      arrived it is acknowledged. */
  lemma FinIsHeard(ns: seq<Net>, steps: seq<Step>, j: nat, k: nat)
    requires Run(ns, steps) && j < k < |ns| && steps[j].Arrival? && steps[j].f.segment.fin
    requires steps[j].f.pos <= RightEdge(ns[j].receiver)
    ensures var w, pos := ns[k].receiver, steps[j].f.pos;
            && w.finish == Some(pos)
            && ((forall p :: w.begin <= p < pos ==> p in w.got) ==> AckPosition(w) == pos + 1)
  {
    hide Inv, Longest;
    var n, f := ns[j], steps[j].f;
    RunKeepsInv(ns, steps, j);
    ReceiverIsOk(n);
    assert Next(n, ns[j + 1], steps[j]);
    OneFin(n, f);
    FinRecorded(n.receiver, f.pos);
    RunHears(ns, steps, j + 1, k);
    AcknowledgedIff(ns[k].receiver);
  }

  /** The FIN is acknowledged if and only if no byte before it is missing. */
  lemma AcknowledgedIff(w: Window)
    requires Ok(w) && Longest(w) && w.finish.Some?
    ensures AckPosition(w) == w.finish.value + 1 <==> forall p :: w.begin <= p < w.finish.value ==> p in w.got
  {
  }

  /** In every run the acknowledged position and the right edge computed from an acknowledgement
      only move forward. */
  lemma {:induction false} NeverRetreats(ns: seq<Net>, steps: seq<Step>, j: nat, k: nat)
    requires Run(ns, steps) && j <= k < |ns|
    ensures AckPosition(ns[j].receiver) <= AckPosition(ns[k].receiver)
    ensures WireEdge(ns[j].receiver) <= WireEdge(ns[k].receiver)
    decreases k - j
  {
    hide Next, Inv, AckPosition, WireEdge;
    if j < k {
      NeverRetreats(ns, steps, j, k - 1);
      RunKeepsInv(ns, steps, k - 1);
      StepAdvances(ns[k - 1], ns[k], steps[k - 1]);
    }
  }

  /** End-to-end safety: in every run, at every moment, the bytes delivered to readers are a
      prefix of the bytes written; readers are completed empty-handed only once every byte
      written before the close has been delivered; and whatever the sender treats as
      acknowledged has been received. */
  lemma EndToEndSafety(ns: seq<Net>, steps: seq<Step>, k: nat)
    requires Run(ns, steps) && k < |ns|
    ensures ns[k].delivered <= Written(ns[k].sender.space)
    ensures ns[k].drained ==> Fin in ns[k].sender.space && ns[k].delivered == Written(ns[k].sender.space)
    ensures ns[k].sender.base <= AckPosition(ns[k].receiver)
    ensures forall a :: a in ns[k].acks ==> a <= ns[k].sender.sent
  {
    RunKeepsInv(ns, steps, k);
    var n := ns[k];
    var s, w := n.sender, n.receiver;
    WrittenOfItems(n.delivered);
    WrittenPrefix(s.space, w.begin);
    if n.drained {
      assert s.space[w.begin] == Fin;
      assert s.space[..|s.space| - 1] == s.space[..w.begin];
    }
  }
}
