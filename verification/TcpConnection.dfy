/** The two window objects on either side of the network: every call is a step of the run,
    so what the run guarantees holds of the objects. */
module TcpConnection {
  import opened Common
  import opened TcpSequence
  import opened TcpReassembly
  import opened TcpServe
  import opened TcpReceive
  import opened TcpTransmit
  import E = TcpEndToEnd

  lemma {:induction false} FlattenEmpties(out: seq<seq<Byte>>, completed: seq<seq<Byte>>)
    requires out <= completed && forall i :: |out| <= i < |completed| ==> completed[i] == []
    ensures Flatten(completed) == Flatten(out)
    decreases |completed|
  {
    if out != [] {
      assert completed[0] == out[0] && out[1..] <= completed[1..];
      FlattenEmpties(out[1..], completed[1..]);
    } else if completed != [] {
      FlattenEmpties([], completed[1..]);
    }
  }

  lemma NoFinAt(isn: Seq32, space: seq<Item>, b: TransmitBuffer, lo: nat, hi: nat)
    requires BufferAt(isn, space, b, lo, hi)
    ensures b.isFIN ==> Fin in space
  {
    assert b.isFIN ==> space[lo] == space[lo..hi][0];
  }

  /** No buffer holds a FIN while none has been written. */
  lemma NoFinQueued(isn: Seq32, space: seq<Item>, bufs: seq<TransmitBuffer>, offs: seq<nat>)
    requires Layout(isn, space, bufs, offs) && Fin !in space
    ensures forall i :: 0 <= i < |bufs| ==> !bufs[i].isFIN
  {
    forall i | 0 <= i < |bufs| ensures !bufs[i].isFIN { NoFinAt(isn, space, bufs[i], offs[i], offs[i + 1]); }
  }

  // ---------- what each step asks for ----------

  lemma IsWrite(n: E.Net, data: seq<Byte>)
    requires Fin !in n.sender.space
    ensures E.Next(n, n.(sender := n.sender.(space := n.sender.space + Items(data, false))), E.Write(data))
  {
  }

  lemma IsClose(n: E.Net)
    requires Fin !in n.sender.space
    ensures E.Next(n, n.(sender := n.sender.(space := n.sender.space + [Fin])), E.Close)
  {
  }

  lemma IsRollback(n: E.Net)
    ensures E.Next(n, n.(sender := n.sender.(cursor := n.sender.base)), E.Rollback)
  {
  }

  lemma IsResize(n: E.Net, window: nat)
    ensures E.Next(n, n.(sender := n.sender.(window := window)), E.Resize(window))
  {
  }

  lemma IsArrival(n: E.Net, f: E.Flight)
    requires f in n.segments && Ok(n.receiver) && E.Timely(f, n.receiver)
    ensures var w := if f.segment.fin then ArriveFin(n.receiver, f.pos) else Arrive(n.receiver, f.pos, f.segment.payload);
            E.Next(n, n.(receiver := w), E.Arrival(f))
  {
  }

  lemma IsSendAck(n: E.Net)
    ensures E.Next(n, n.(acks := n.acks + {AckPosition(n.receiver)}), E.SendAck)
  {
  }

  lemma IsAcknowledge(n: E.Net, a: nat, cursor: nat)
    requires a in n.acks && n.sender.base + MAX_TCP_WINDOW_SIZE < a + MOD
    requires n.sender.base <= a && a - n.sender.base <= MAX_TCP_WINDOW_SIZE ==> cursor == n.sender.cursor || n.sender.cursor < cursor <= a
    ensures var s := n.sender;
            E.Next(n, if s.base <= a && a - s.base <= MAX_TCP_WINDOW_SIZE then n.(sender := s.(base := a, cursor := cursor)) else n,
                   E.Acknowledge(a, cursor))
  {
  }

  lemma IsDeliver(n: E.Net, count: nat)
    requires Ok(n.receiver) && count <= n.receiver.length
    ensures E.Next(n, n.(receiver := Consume(n.receiver, count), delivered := n.delivered + Front(n.receiver, count)), E.Deliver(count))
  {
  }

  lemma IsDrain(n: E.Net)
    requires n.receiver.finish == Some(n.receiver.begin)
    ensures E.Next(n, n.(drained := true), E.Drain)
  {
  }

  /** A run with one more step. */
  lemma RunMore(ns: seq<E.Net>, steps: seq<E.Step>, m: E.Net, step: E.Step)
    requires E.Run(ns, steps) && E.Next(ns[|ns| - 1], m, step)
    ensures E.Run(ns + [m], steps + [step])
  {
    hide E.Next;
    var ns1, steps1 := ns + [m], steps + [step];
    forall i | 0 <= i < |steps1| ensures E.Next(ns1[i], ns1[i + 1], steps1[i]) {
      if i < |steps| { assert ns1[i] == ns[i] && ns1[i + 1] == ns[i + 1]; }
    }
  }

  /** The network after the sender made packets gs. */
  ghost function AfterSending(n: E.Net, gs: seq<Segment>): E.Net {
    if gs == [] then n
    else
      var k := |gs| - 1;
      var m := AfterSending(n, gs[..k]);
      m.(sender := m.sender.(cursor := m.sender.cursor + Len(gs[k]), sent := E.MaxOf(m.sender.sent, m.sender.cursor + Len(gs[k]))),
         segments := m.segments + {E.Flight(m.sender.cursor, gs[k])})
  }

  lemma {:induction false} AfterSendingIs(n: E.Net, gs: seq<Segment>)
    ensures var m := AfterSending(n, gs);
            && m == n.(sender := m.sender, segments := m.segments)
            && m.sender == n.sender.(cursor := n.sender.cursor + TotalLen(gs), sent := m.sender.sent)
            && (n.sender.cursor <= n.sender.sent ==> m.sender.sent == E.MaxOf(n.sender.sent, n.sender.cursor + TotalLen(gs)))
  {
    if gs != [] { AfterSendingIs(n, gs[..|gs| - 1]); }
  }

  /** Sending packets one after another is a run of Send steps. */
  lemma {:induction false} SendRun(ns: seq<E.Net>, steps: seq<E.Step>, gs: seq<Segment>) returns (ms: seq<E.Net>, more: seq<E.Step>)
    requires E.Run(ns, steps)
    requires var n := ns[|ns| - 1]; CarriesAll(n.isn, n.sender.space, n.sender.cursor, gs)
    ensures E.Run(ms, more) && ms != [] && ms[|ms| - 1] == AfterSending(ns[|ns| - 1], gs)
    decreases |gs|
  {
    if gs == [] {
      ms, more := ns, steps;
    } else {
      hide Carries;
      var n, k := ns[|ns| - 1], |gs| - 1;
      ms, more := SendRun(ns, steps, gs[..k]);
      AfterSendingIs(n, gs[..k]);
      var m := AfterSending(n, gs);
      assert E.Next(ms[|ms| - 1], m, E.Send(gs[k]));
      RunMore(ms, more, m, E.Send(gs[k]));
      ms, more := ms + [m], more + [E.Send(gs[k])];
    }
  }

  class Connection {
    const tx: TCPTransmitWindow
    const rx: TCPReceiveWindow
    ghost var ns: seq<E.Net>
    ghost var steps: seq<E.Step>

    /** The state of the run now. */
    ghost function Now(): E.Net
      requires ns != []
      reads this
    {
      ns[|ns| - 1]
    }

    ghost predicate Valid()
      reads this, tx, rx, rx.buffer
    {
      && tx.Valid() && rx.Valid() && ns != [] && E.Run(ns, steps)
      && Now().isn == tx.isn == rx.isn && Now().sender == tx.s && Now().receiver == rx.abs
    }

    constructor (first: Seq32, windowSize: nat)
      requires 0 < windowSize <= 0xffff && MOD % windowSize == 0
      ensures Valid() && fresh(tx) && fresh(rx) && fresh(rx.buffer) && Now().delivered == []
    {
      tx := new TCPTransmitWindow(first);
      rx := new TCPReceiveWindow(windowSize, first);
      new;
      ns, steps := [E.Net(first, tx.s, rx.abs, {}, {}, [], false)], [];
    }

    /** Whatever calls were made: what readers got is a prefix of what was written, and they are
        drained only after everything before the close was delivered. */
    lemma Safety()
      requires Valid()
      ensures Now().delivered <= E.Written(tx.s.space)
      ensures Now().drained ==> Fin in tx.s.space && Now().delivered == E.Written(tx.s.space)
      ensures tx.s.base <= AckPosition(rx.abs) <= tx.s.sent
      ensures forall a :: a in Now().acks ==> a <= tx.s.sent
      ensures forall f :: f in Now().segments ==> E.FlightOk(tx.isn, tx.s, f)
    {
      E.RunKeepsInv(ns, steps, |ns| - 1);
      E.EndToEndSafety(ns, steps, |ns| - 1);
    }

    ghost method Step(m: E.Net, step: E.Step)
      requires ns != [] && E.Run(ns, steps) && E.Next(Now(), m, step)
      modifies this`ns, this`steps
      ensures ns != [] && E.Run(ns, steps) && Now() == m
    {
      RunMore(ns, steps, m, step);
      ns, steps := ns + [m], steps + [step];
    }

    method Write(data: seq<Byte>, hasMemory: bool) returns (ok: bool)
      requires Valid() && Fin !in tx.s.space
      requires hasMemory ==> |tx.s.space| + |data| - tx.offs[0] + tx.s.window <= MOD && |tx.s.space| + |data| - tx.offs[0] < MOD
      modifies this, tx
      ensures Valid() && ok == hasMemory
      ensures if ok then E.Next(old(Now()), Now(), E.Write(data)) else Now() == old(Now())
    {
      hide Items, E.Run, E.Next, Ok, Holds, Layout, CursorIn, BaseIn, SeqOf;
      NoFinQueued(tx.isn, tx.s.space, tx.buffers, tx.offs);
      ok := tx.PushTransmitBuffer(data, false, hasMemory);
      if ok {
        IsWrite(Now(), data);
        Step(Now().(sender := tx.s), E.Write(data));
      }
    }

    method Close(hasMemory: bool) returns (ok: bool)
      requires Valid() && Fin !in tx.s.space
      requires hasMemory ==> |tx.s.space| + 1 - tx.offs[0] + tx.s.window <= MOD && |tx.s.space| + 1 - tx.offs[0] < MOD
      modifies this, tx
      ensures Valid() && ok == hasMemory
      ensures if ok then E.Next(old(Now()), Now(), E.Close) else Now() == old(Now())
    {
      hide E.Run, E.Next, Ok, Holds, Layout, CursorIn, BaseIn, SeqOf;
      NoFinQueued(tx.isn, tx.s.space, tx.buffers, tx.offs);
      ok := tx.PushTransmitBuffer([0], true, hasMemory);
      assert Items([0], true) == [Fin];
      if ok {
        IsClose(Now());
        Step(Now().(sender := tx.s), E.Close);
      }
    }

    /** Sends what the window allows; a packet whose write failed counts as lost by the network. */
    method Transmit(mustTransmit: bool, bufferSize: nat, writes: nat) returns (ok: bool, sent: nat, segments: seq<Segment>)
      requires Valid()
      modifies this, tx
      ensures Valid() && Now().delivered == old(Now()).delivered
      ensures ok ==> sent == TotalLen(segments) && tx.s.cursor == old(tx.s).cursor + sent
      ensures ok && Min(bufferSize, tx.maxSegmentSize) > 0 ==> tx.Stopped()
      ensures |segments| <= writes && (!ok ==> |segments| == writes)
    {
      hide E.Run, Ok, Holds, Layout, CursorIn, BaseIn, SeqOf, CarriesAll, TotalLen, Remain;
      ghost var n := Now();
      ghost var made;
      ok, sent, segments, made := tx.TransmitTCP(mustTransmit, bufferSize, writes);
      ns, steps := SendRun(ns, steps, made);
      AfterSendingIs(n, made);
    }

    method Rollback()
      requires Valid()
      modifies this, tx
      ensures Valid() && E.Next(old(Now()), Now(), E.Rollback)
    {
      hide E.Run, E.Next, Ok, Holds, Layout, CursorIn, BaseIn, SeqOf;
      IsRollback(Now());
      tx.RollbackTransmitSequence();
      Step(Now().(sender := tx.s), E.Rollback);
    }

    /** A segment sent earlier arrives, in any order and any number of times; whether the assertion made on entry holds is reported. */
    method ReceiveSegment(g: Segment, ghost pos: nat) returns (holds: bool)
      requires Valid() && E.Flight(pos, g) in Now().segments && E.Timely(E.Flight(pos, g), rx.abs)
      modifies this, rx, rx.buffer
      ensures Valid() && E.Next(old(Now()), Now(), E.Arrival(E.Flight(pos, g)))
      ensures holds <==> FinishReached(old(rx.abs))
      ensures holds ==> (FinishReached(rx.abs) <==> !E.Overtakes(old(Now()), E.Arrival(E.Flight(pos, g))))
    {
      hide E.Run, E.Next, Ok, Holds, Layout, CursorIn, BaseIn, SeqOf;
      Safety();
      assert E.FlightOk(tx.isn, tx.s, E.Flight(pos, g));
      IsArrival(Now(), E.Flight(pos, g));
      holds := rx.EntryHolds();
      if g.fin {
        rx.ReceiveFin(g.sequence, pos);
      } else {
        var grown := rx.CopyReceiveWindow(g.sequence, g.payload, pos);
      }
      ghost var n := Now();
      Step(n.(receiver := rx.abs), E.Arrival(E.Flight(pos, g)));
      if holds { E.StepReaches(n, Now(), E.Arrival(E.Flight(pos, g))); }
    }

    method SendACK() returns (ackNumber: Seq32, windowRemainSize: nat, isFINACK: bool)
      requires Valid()
      modifies this
      ensures Valid() && E.Next(old(Now()), Now(), E.SendAck)
      ensures ackNumber == SeqOf(rx.isn, AckPosition(rx.abs)) && AckPosition(rx.abs) + windowRemainSize == WireEdge(rx.abs)
    {
      hide E.Run, E.Next, Ok, Holds, Layout, CursorIn, BaseIn, SeqOf, AckPosition;
      IsSendAck(Now());
      ackNumber, windowRemainSize, isFINACK := rx.GetReceiveACK();
      Step(Now().(acks := Now().acks + {AckPosition(rx.abs)}), E.SendAck);
    }

    /** An acknowledgement sent earlier arrives, with whatever window it advertises. */
    method ReceiveACK(ack: Seq32, window: nat, ghost a: nat) returns (r: nat)
      requires Valid() && a in Now().acks && ack == SeqOf(tx.isn, a) && tx.s.base + MAX_TCP_WINDOW_SIZE < a + MOD
      requires |tx.s.space| - tx.offs[0] + window <= MOD
      modifies this, tx
      ensures Valid() && Now().delivered == old(Now()).delivered
      ensures r == if old(tx.s).base <= a <= old(tx.s).base + MAX_TCP_WINDOW_SIZE then a - old(tx.s).base else 0
    {
      hide E.Run, E.Next, Ok, Holds, Layout, CursorIn, BaseIn, SeqOf, AckPosition;
      Safety();
      r := tx.ReceiveACK(ack, window, a);
      IsAcknowledge(Now(), a, tx.s.cursor);
      Step(Now().(sender := tx.s.(window := Now().sender.window)), E.Acknowledge(a, tx.s.cursor));
      IsResize(Now(), window);
      Step(Now().(sender := tx.s), E.Resize(window));
    }

    method Read(bufferSize: nat)
      requires Valid()
      modifies rx
      ensures Valid() && rx.readers == old(rx.readers) + [bufferSize] && Now() == old(Now())
    {
      rx.PushReceiveBuffer(bufferSize);
    }

    /** Completes readers: together they get exactly the bytes that count as delivered. */
    method Deliver() returns (completed: seq<seq<Byte>>)
      requires Valid()
      modifies this, rx, rx.buffer
      ensures Valid() && Now().delivered == old(Now()).delivered + Flatten(completed)
      ensures rx.abs.finish == Some(rx.abs.begin) ==> Now().drained && rx.readers == []
    {
      hide E.Run, E.Next, Holds, Layout, CursorIn, BaseIn, SeqOf;
      ghost var w, readers := rx.abs, rx.readers;
      var total;
      total, completed := rx.CopyReceiveBuffer();
      ServeIsPrefix(w, readers);
      ghost var out := Serve(w, readers);
      FlattenEmpties(out, completed);
      IsDeliver(Now(), total);
      Step(Now().(receiver := rx.abs, delivered := Now().delivered + Front(w, total)), E.Deliver(total));
      if rx.abs.finish == Some(rx.abs.begin) {
        IsDrain(Now());
        Step(Now().(drained := true), E.Drain);
      }
    }
  }
}
