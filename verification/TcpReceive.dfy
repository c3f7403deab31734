/** The receive window as a partial map from absolute stream positions to bytes:
    what the ring buffer of the next module implements modulo 2^32. */
module TcpReassembly {
  import opened Common
  import opened TcpSequence

  /** begin: next position a reader gets; length: readable bytes; got: every byte held. */
  datatype Window = Window(begin: nat, length: nat, got: map<nat, Byte>, finish: Option<nat>, size: nat)

  /** The documented order begin <= begin + length <= finish <= begin + size, with the
      readable prefix filled and nothing held outside the window. */
  ghost predicate Ok(w: Window) {
    && w.length <= w.size
    && (forall p :: p in w.got ==> w.begin <= p < w.begin + w.size)
    && (forall p :: w.begin <= p < w.begin + w.length ==> p in w.got)
    && (w.finish.Some? ==> w.begin + w.length <= w.finish.value <= w.begin + w.size)
  }

  ghost function Limit(w: Window): nat
    requires Ok(w)
  {
    if w.finish.Some? then w.finish.value - w.begin else w.size
  }

  ghost function Put(w: Window, p: nat, b: Byte): Window {
    if w.begin <= p < w.begin + w.size then w.(got := w.got[p := b]) else w
  }

  /** Keeps the bytes of a segment that fall inside the window. */
  ghost function Store(w: Window, at: nat, data: seq<Byte>): Window {
    if data == [] then w
    else Put(Store(w, at, data[..|data| - 1]), at + |data| - 1, data[|data| - 1])
  }

  ghost function ExtendTo(w: Window, limit: nat): Window
    decreases limit - w.length
  {
    if w.length < limit && w.begin + w.length in w.got then ExtendTo(w.(length := w.length + 1), limit) else w
  }

  /** A data segment whose first byte is stream position `at`. */
  ghost function Arrive(w: Window, at: nat, data: seq<Byte>): Window
    requires Ok(w)
  {
    ExtendTo(Store(w, at, data), Limit(w))
  }

  /** A FIN at stream position f. */
  ghost function ArriveFin(w: Window, f: nat): Window {
    if w.finish.None? && w.begin <= f <= w.begin + w.size then
      w.(finish := Some(f), length := if w.length <= f - w.begin then w.length else f - w.begin)
    else w
  }

  /** The n oldest readable bytes. */
  ghost function Front(w: Window, n: nat): (s: seq<Byte>)
    requires Ok(w) && n <= w.length
    ensures |s| == n && forall i: nat :: i < n ==> s[i] == w.got[w.begin + i]
  {
    seq(n, i requires 0 <= i < n => w.got[w.begin + i])
  }

  ghost function Consume(w: Window, n: nat): Window
    requires Ok(w) && n <= w.length
  {
    Window(w.begin + n, w.length - n, map p | p in w.got && w.begin + n <= p :: w.got[p], w.finish, w.size)
  }

  /** The acknowledged position: one past the readable bytes, and past the FIN when it is reached. */
  ghost function AckPosition(w: Window): nat {
    if w.finish == Some(w.begin + w.length) then w.begin + w.length + 1 else w.begin + w.length
  }

  /** The end of what the window can hold. */
  ghost function RightEdge(w: Window): nat { w.begin + w.size }

  /** The right edge a peer computes: the acknowledged position plus the advertised size, one more
      than the window holds once the FIN counts. */
  ghost function WireEdge(w: Window): int { AckPosition(w) + (w.size - w.length) }

  /** Bytes at the head of the window that a segment starting at `at` may not be mistaken for:
      every byte lies less than 2^32 - size behind or 2^32 ahead of the window's beginning. */
  predicate InReach(begin: nat, size: nat, at: nat, n: nat) {
    begin + size <= at + MOD && at + n <= begin + MOD
  }

  // ---------- laws ----------

  /** The length ends at the limit or at the first missing byte. */
  lemma {:induction false} ExtendSpec(w: Window, limit: nat)
    ensures var v := ExtendTo(w, limit);
            && v == w.(length := v.length) && w.length <= v.length
            && (forall p :: w.begin + w.length <= p < w.begin + v.length ==> p in w.got)
            && (w.length <= limit ==> v.length <= limit)
            && (v.length < limit ==> w.begin + v.length !in w.got)
    decreases limit - w.length
  {
    if w.length < limit && w.begin + w.length in w.got { ExtendSpec(w.(length := w.length + 1), limit); }
  }

  ghost predicate Covered(w: Window, at: nat, n: nat, p: nat) {
    at <= p < at + n && w.begin <= p < w.begin + w.size
  }

  lemma {:induction false} StoreSpec(w: Window, at: nat, data: seq<Byte>)
    ensures var v := Store(w, at, data);
            && v == w.(got := v.got)
            && (forall p: nat :: p in v.got <==> p in w.got || Covered(w, at, |data|, p))
            && (forall p: nat :: p in v.got ==>
                  v.got[p] == if Covered(w, at, |data|, p) then data[p - at] else w.got[p])
  {
    if data != [] { StoreSpec(w, at, data[..|data| - 1]); }
  }

  /** A data segment keeps the window order, never moves the acknowledged position or the
      right edge back, and leaves the readable prefix as long as it can be. */
  lemma ArriveKeeps(w: Window, at: nat, data: seq<Byte>)
    requires Ok(w)
    ensures var v := Arrive(w, at, data);
            && Ok(v) && v.begin == w.begin && v.size == w.size && v.finish == w.finish
            && AckPosition(w) <= AckPosition(v) && RightEdge(w) == RightEdge(v) && WireEdge(w) <= WireEdge(v)
            && (v.length == Limit(v) || v.begin + v.length !in v.got)
            && (forall p: nat :: p in v.got <==> p in w.got || Covered(w, at, |data|, p))
            && (forall p: nat :: p in v.got ==>
                  v.got[p] == if Covered(w, at, |data|, p) then data[p - at] else w.got[p])
  {
    StoreSpec(w, at, data);
    ExtendSpec(Store(w, at, data), Limit(w));
  }

  /** A FIN at or after everything readable keeps the order and both edges. */
  lemma FinKeeps(w: Window, f: nat)
    requires Ok(w)
    ensures Ok(ArriveFin(w, f)) && RightEdge(ArriveFin(w, f)) == RightEdge(w)
    ensures WireEdge(w) <= WireEdge(ArriveFin(w, f))
    ensures AckPosition(w) <= AckPosition(ArriveFin(w, f)) <==>
            w.finish.Some? || f < w.begin || f > w.begin + w.size || w.begin + w.length <= f + 1
  {
  }

  /** A FIN in front of two readable bytes takes the acknowledged position back from 2 to 1. */
  lemma FinMovesBack(w: Window, b: Byte)
    requires w == Window(0, 2, map[0 := b, 1 := b], None, 8192)
    ensures Ok(w) && AckPosition(w) == 2 && AckPosition(ArriveFin(w, 0)) == 1
  {
  }

  /** A FIN in the window is recorded, whatever is held stays held, and it is acknowledged at once when no byte before it is
      missing; a later FIN and one outside the window change nothing. */
  lemma FinRecorded(w: Window, f: nat)
    requires Ok(w)
    ensures var v := ArriveFin(w, f);
            if w.finish.None? && w.begin <= f <= RightEdge(w)
            then && v.finish == Some(f) && v.got == w.got && v.begin == w.begin && v.size == w.size
                 && (f <= w.begin + w.length ==> AckPosition(v) == f + 1)
                 && (f > w.begin + w.length ==> AckPosition(v) == AckPosition(w))
            else v == w
  {
  }

  /** The readable prefix ends at the FIN, at the window's end or at the first missing byte. */
  ghost predicate Longest(w: Window)
    requires Ok(w)
  {
    w.length == Limit(w) || w.begin + w.length !in w.got
  }

  lemma StaysLongest(w: Window, at: nat, data: seq<Byte>, f: nat, n: nat)
    requires Ok(w) && Longest(w) && n <= w.length
    ensures Ok(Arrive(w, at, data)) && Longest(Arrive(w, at, data)) && Ok(ArriveFin(w, f)) && Longest(ArriveFin(w, f))
    ensures Ok(Consume(w, n)) && Longest(Consume(w, n))
  {
    ArriveKeeps(w, at, data);
    FinKeeps(w, f);
    ConsumeKeeps(w, n);
  }

  /** What the receive path asserts on entry: a recorded FIN has no missing byte before it. */
  ghost predicate FinishReached(w: Window) {
    w.finish.Some? ==> w.finish.value <= w.begin + w.length
  }

  /** The assertion survives a FIN exactly when the FIN does not overtake missing data. */
  lemma FinishReachedIff(w: Window, f: nat)
    requires Ok(w) && w.finish.None?
    ensures FinishReached(ArriveFin(w, f)) <==> f <= w.begin + w.length || f > w.begin + w.size
  {
  }

  /** Neither data nor reading ever breaks it. */
  lemma FinishStaysReached(w: Window, at: nat, data: seq<Byte>, n: nat)
    requires Ok(w) && FinishReached(w) && n <= w.length
    ensures FinishReached(Arrive(w, at, data)) && FinishReached(Consume(w, n))
  {
    StoreSpec(w, at, data);
    ExtendSpec(Store(w, at, data), Limit(w));
  }

  /** A FIN that overtakes five missing bytes breaks it. */
  lemma FinOvertakesData(w: Window)
    requires w == Window(0, 0, map[], None, 8192)
    ensures Ok(w) && !FinishReached(ArriveFin(w, 5))
  {
  }

  lemma ConsumeKeeps(w: Window, n: nat)
    requires Ok(w) && n <= w.length
    ensures Ok(Consume(w, n)) && AckPosition(Consume(w, n)) == AckPosition(w)
    ensures RightEdge(w) <= RightEdge(Consume(w, n)) && WireEdge(w) <= WireEdge(Consume(w, n))
    ensures Consume(w, n).begin == w.begin + n && Consume(w, n).length == w.length - n
  {
  }
}

/** Serving queued readers from the front of the window. */
module TcpServe {
  import opened Common
  import opened TcpReassembly

  /** What each reader gets, in order, while bytes last; readers give their buffer sizes. */
  ghost function Serve(w: Window, readers: seq<nat>): (out: seq<seq<Byte>>)
    requires Ok(w)
    ensures |out| <= |readers|
    decreases |readers|
  {
    if w.length == 0 || readers == [] then []
    else
      var n := Min(readers[0], w.length);
      ConsumeKeeps(w, n);
      [Front(w, n)] + Serve(Consume(w, n), readers[1..])
  }

  /** The window after serving. */
  ghost function Served(w: Window, readers: seq<nat>): (v: Window)
    requires Ok(w)
    ensures Ok(v)
    decreases |readers|
  {
    if w.length == 0 || readers == [] then w
    else
      var n := Min(readers[0], w.length);
      ConsumeKeeps(w, n);
      Served(Consume(w, n), readers[1..])
  }

  ghost function Flatten(ss: seq<seq<Byte>>): seq<Byte> {
    if ss == [] then [] else ss[0] + Flatten(ss[1..])
  }

  lemma JoinThree(a: seq<Byte>, b: seq<Byte>, c: seq<Byte>)
    ensures a + (b + c) == (a + b) + c
  {
  }

  lemma {:induction false} FlattenAppend(a: seq<seq<Byte>>, b: seq<seq<Byte>>)
    ensures Flatten(a + b) == Flatten(a) + Flatten(b)
  {
    if a == [] {
      assert a + b == b;
    } else {
      FlattenAppend(a[1..], b);
      assert (a + b)[1..] == a[1..] + b;
      JoinThree(a[0], Flatten(a[1..]), Flatten(b));
    }
  }

  lemma ConsumeTwice(w: Window, n: nat, m: nat)
    requires Ok(w) && n + m <= w.length
    ensures Ok(Consume(w, n)) && m <= Consume(w, n).length
    ensures Consume(Consume(w, n), m) == Consume(w, n + m)
    ensures Front(w, n) + Front(Consume(w, n), m) == Front(w, n + m)
  {
  }

  lemma ConsumeNothing(w: Window)
    requires Ok(w)
    ensures Consume(w, 0) == w && Front(w, 0) == []
  {
  }

  /** The i-th reader gets what is left after the earlier ones, or as much of it as its buffer holds. */
  ghost predicate GetsAll(length: nat, size: nat, out: seq<seq<Byte>>, i: nat)
    requires i < |out|
  {
    |Flatten(out[..i])| <= length && |out[i]| == Min(size, length - |Flatten(out[..i])|)
  }

  /** Readers together get exactly the next bytes of the stream, in order and without gap; each gets all that is left or
      all it asked for, and a reader is left waiting only when nothing is readable. */
  lemma {:induction false} ServeIsPrefix(w: Window, readers: seq<nat>)
    requires Ok(w)
    ensures var v, out := Served(w, readers), Serve(w, readers);
            && w.begin <= v.begin <= w.begin + w.length && v == Consume(w, v.begin - w.begin)
            && Flatten(out) == Front(w, v.begin - w.begin)
            && |out| <= |readers| && (|out| == |readers| || v.length == 0)
            && (forall i :: 0 <= i < |out| ==> GetsAll(w.length, readers[i], out, i))
    decreases |readers|
  {
    hide Consume, Front, Ok;
    if w.length == 0 || readers == [] {
      ConsumeNothing(w);
    } else {
      var n := Min(readers[0], w.length);
      ConsumeKeeps(w, n);
      var u := Consume(w, n);
      ServeIsPrefix(u, readers[1..]);
      var m := Served(u, readers[1..]).begin - u.begin;
      ConsumeTwice(w, n, m);
      var out, rest := Serve(w, readers), Serve(u, readers[1..]);
      forall i | 0 <= i < |out| ensures GetsAll(w.length, readers[i], out, i) {
        if i > 0 { assert out[..i][1..] == rest[..i - 1] && GetsAll(u.length, readers[1..][i - 1], rest, i - 1); }
      }
    }
  }
}

/** The ring buffer: the same window with 32-bit sequence numbers and in-place slots. */
module TcpReceive {
  import opened Arith
  import opened Common
  import opened TcpSequence
  import opened TcpReassembly
  import opened TcpServe

  datatype RingSlot = RingSlot(hasData: bool, data: Byte)

  /** Ring index of absolute position p. */
  ghost function Index(isn: Seq32, p: nat, size: nat): nat
    requires size > 0
  {
    SeqOf(isn, p) % size
  }

  lemma IndexDistinct(isn: Seq32, p: nat, q: nat, size: nat)
    requires 0 < size <= MOD && MOD % size == 0 && p < q < p + size
    ensures Index(isn, p, size) != Index(isn, q, size)
  {
    SlotIgnoresWrap(isn + p, size);
    SlotIgnoresWrap(isn + q, size);
    if Index(isn, p, size) == Index(isn, q, size) { SameSlotFar(isn + p, isn + q, size); }
  }

  lemma IndexPeriodic(isn: Seq32, p: nat, size: nat)
    requires size > 0 && MOD % size == 0
    ensures Index(isn, p + size, size) == Index(isn, p, size)
  {
    SlotIgnoresWrap(isn + p, size);
    SlotIgnoresWrap(isn + p + size, size);
    ModAddOnce(isn + p, size);
  }

  ghost predicate SlotIs(slot: RingSlot, got: map<nat, Byte>, p: nat) {
    slot.hasData == (p in got) && (slot.hasData ==> slot.data == got[p])
  }

  /** Each position of the window sits in its own slot. */
  ghost predicate Holds(ring: seq<RingSlot>, isn: Seq32, w: Window) {
    && |ring| == w.size > 0
    && forall p: nat :: w.begin <= p < w.begin + w.size ==> SlotIs(ring[Index(isn, p, w.size)], w.got, p)
  }

  lemma HoldsAnyLength(ring: seq<RingSlot>, isn: Seq32, w: Window, n: nat)
    requires Holds(ring, isn, w)
    ensures Holds(ring, isn, w.(length := n))
  {
  }

  /** Writing the slot of one position changes what the ring holds at that position only. */
  lemma HoldsUpdate(ring: seq<RingSlot>, isn: Seq32, w: Window, p: nat, slot: RingSlot, got: map<nat, Byte>)
    requires Holds(ring, isn, w) && w.size <= MOD && MOD % w.size == 0 && w.begin <= p < w.begin + w.size
    requires SlotIs(slot, got, p)
    requires forall q: nat :: q != p ==> (q in got <==> q in w.got) && (q in got ==> got[q] == w.got[q])
    ensures Holds(ring[Index(isn, p, w.size) := slot], isn, w.(got := got))
  {
    var ring' := ring[Index(isn, p, w.size) := slot];
    forall q: nat | w.begin <= q < w.begin + w.size ensures SlotIs(ring'[Index(isn, q, w.size)], got, q) {
      if q < p { IndexDistinct(isn, q, p, w.size); }
      if p < q { IndexDistinct(isn, p, q, w.size); }
      assert SlotIs(ring[Index(isn, q, w.size)], w.got, q);
    }
  }

  /** Sliding past an emptied front: the freed slots stand for the new positions. */
  lemma HoldsSlide(ring: seq<RingSlot>, isn: Seq32, w: Window, v: Window)
    requires Holds(ring, isn, w) && MOD % w.size == 0
    requires v.size == w.size && w.begin <= v.begin <= w.begin + w.size && v.got == w.got
    requires forall p :: p in w.got ==> v.begin <= p < w.begin + w.size
    ensures Holds(ring, isn, v)
  {
    forall p: nat | v.begin <= p < v.begin + v.size ensures SlotIs(ring[Index(isn, p, v.size)], v.got, p) {
      if p >= w.begin + w.size {
        IndexPeriodic(isn, p - w.size, w.size);
        assert SlotIs(ring[Index(isn, p - w.size, w.size)], w.got, p - w.size);
      } else {
        assert SlotIs(ring[Index(isn, p, w.size)], w.got, p);
      }
    }
  }

  class TCPReceiveWindow {
    var sequenceBegin: Seq32
    var sequenceLength: nat
    const windowSize: nat
    var reachFinish: bool
    var sequenceFinish: Seq32
    const buffer: array<RingSlot>
    var readers: seq<nat>

    ghost const isn: Seq32
    ghost var abs: Window

    ghost predicate Valid()
      reads this, buffer
    {
      && 0 < windowSize <= 0xffff && MOD % windowSize == 0 && abs.size == windowSize && Ok(abs)
      && sequenceBegin == SeqOf(isn, abs.begin) && sequenceLength == abs.length
      && (reachFinish <==> abs.finish.Some?)
      && (reachFinish ==> sequenceFinish == SeqOf(isn, abs.finish.value))
      && Holds(buffer[..], isn, abs)
    }

    /** A window whose first expected byte has sequence number `first`. */
    constructor (size: nat, first: Seq32)
      requires 0 < size <= 0xffff && MOD % size == 0
      ensures Valid() && fresh(buffer) && readers == [] && isn == first
      ensures abs == Window(0, 0, map[], None, size)
    {
      sequenceBegin, sequenceLength, windowSize := first, 0, size;
      reachFinish, sequenceFinish, readers := false, 0, [];
      buffer := new RingSlot[size](_ => RingSlot(false, 0));
      isn, abs := first, Window(0, 0, map[], None, size);
      new;
      SlotsEmpty(buffer[..], isn, abs);
    }

    /** The acknowledgement to send: number, advertised size and whether it covers the FIN. */
    method GetReceiveACK() returns (ackNumber: Seq32, windowRemainSize: nat, isFINACK: bool)
      requires Valid()
      ensures ackNumber == SeqOf(isn, AckPosition(abs))
      ensures isFINACK <==> abs.finish == Some(abs.begin + abs.length)
      ensures windowRemainSize == abs.size - abs.length
      ensures AckPosition(abs) + windowRemainSize == WireEdge(abs) == RightEdge(abs) + One(isFINACK)
    {
      hide Holds, SeqOf, AddSeq, DiffSeq;
      ackNumber := AddSeq(sequenceBegin, sequenceLength);
      AddSeqOf(isn, abs.begin, abs.length);
      isFINACK := false;
      if reachFinish {
        SeqOfInjective(isn, abs.finish.value, abs.begin + abs.length);
        if sequenceFinish == ackNumber {
          AddSeqOf(isn, abs.begin + abs.length, 1);
          ackNumber := AddSeq(ackNumber, 1);
          isFINACK := true;
        }
      }
      windowRemainSize := (windowSize - sequenceLength) % 0x1_0000;
    }

    method SetReceiveData(s: Seq32, data: Byte, ghost p: nat)
      requires Valid() && s == SeqOf(isn, p) && abs.begin <= p < abs.begin + abs.size
      modifies this`abs, buffer
      ensures Valid() && abs == Put(old(abs), p, data)
    {
      var i := s % windowSize;
      HoldsUpdate(buffer[..], isn, abs, p, RingSlot(true, data), abs.got[p := data]);
      buffer[i] := RingSlot(true, data);
      abs := Put(abs, p, data);
      assert buffer[..] == old(buffer[..])[i := RingSlot(true, data)];
    }

    function HasReceiveData(s: Seq32): (r: bool)
      requires Valid()
      reads this, buffer
      ensures forall p: nat :: s == SeqOf(isn, p) && abs.begin <= p < abs.begin + abs.size ==> r == (p in abs.got)
    {
      assert forall p: nat :: s == SeqOf(isn, p) && abs.begin <= p < abs.begin + abs.size ==>
        SlotIs(buffer[..][Index(isn, p, windowSize)], abs.got, p);
      buffer[s % windowSize].hasData
    }

    /** Stores the in-window bytes of a segment and extends the readable prefix. */
    method CopyReceiveWindow(remoteSeqBegin: Seq32, data: seq<Byte>, ghost at: nat) returns (grown: nat)
      requires Valid() && remoteSeqBegin == SeqOf(isn, at) && InReach(abs.begin, abs.size, at, |data|)
      modifies this`abs, this`sequenceLength, buffer
      ensures Valid() && abs == Arrive(old(abs), at, data)
      ensures grown == abs.length - old(abs).length
    {
      StoreSegment(remoteSeqBegin, data, at);
      grown := ExtendReadable();
    }

    method StoreSegment(remoteSeqBegin: Seq32, data: seq<Byte>, ghost at: nat)
      requires Valid() && remoteSeqBegin == SeqOf(isn, at) && InReach(abs.begin, abs.size, at, |data|)
      modifies this`abs, buffer
      ensures Valid() && abs == Store(old(abs), at, data) && abs == old(abs).(got := abs.got)
    {
      hide Ok, Holds;
      var i := 0;
      while i < |data|
        invariant 0 <= i <= |data| && Valid() && abs == Store(old(abs), at, data[..i])
        invariant abs == old(abs).(got := abs.got)
      {
        var s := AddSeq(remoteSeqBegin, i);
        var ds := DiffSeq(s, sequenceBegin);
        AddSeqOf(isn, at, i);
        DiffSeqOf(isn, at + i, abs.begin);
        assert data[..i + 1][..i] == data[..i];
        if ds < windowSize {
          SetReceiveData(s, data[i], at + i);
        }
        i := i + 1;
      }
      assert data[..|data|] == data;
    }

    method ExtendReadable() returns (grown: nat)
      requires Valid()
      modifies this`abs, this`sequenceLength
      ensures Valid() && abs == ExtendTo(old(abs), Limit(old(abs)))
      ensures grown == abs.length - old(abs).length
    {
      hide Holds, SeqOf, AddSeq, DiffSeq;
      ghost var w := abs;
      var oldSeqLen := sequenceLength;
      if reachFinish { DiffSeqOf(isn, abs.finish.value, abs.begin); }
      var limit: nat := if reachFinish then DiffSeq(sequenceFinish, sequenceBegin) else windowSize;
      while sequenceLength < limit
        invariant Valid() && abs == w.(length := sequenceLength) && oldSeqLen <= sequenceLength <= limit
        invariant ExtendTo(abs, limit) == ExtendTo(w, limit)
      {
        AddSeqOf(isn, abs.begin, abs.length);
        var sequenceEnd := AddSeq(sequenceBegin, sequenceLength);
        if !HasReceiveData(sequenceEnd) { break; }
        HoldsAnyLength(buffer[..], isn, abs, abs.length + 1);
        sequenceLength := sequenceLength + 1;
        abs := abs.(length := abs.length + 1);
      }
      grown := sequenceLength - oldSeqLen;
    }

    /** The assertion made on entry to the receive path. */
    method EntryHolds() returns (holds: bool)
      requires Valid()
      ensures holds <==> FinishReached(abs)
    {
      hide Holds, SeqOf;
      if reachFinish { DiffSeqOf(isn, abs.finish.value, abs.begin); }
      holds := !reachFinish || DiffSeq(sequenceFinish, sequenceBegin) <= sequenceLength;
    }

    /** Records the first FIN that falls in the window. */
    method ReceiveFin(remoteSeq: Seq32, ghost f: nat)
      requires Valid() && remoteSeq == SeqOf(isn, f)
      requires abs.begin + abs.size < f + MOD && f < abs.begin + MOD
      modifies this`abs, this`reachFinish, this`sequenceFinish, this`sequenceLength
      ensures Valid() && abs == ArriveFin(old(abs), f)
    {
      FinKeeps(abs, f);
      DiffSeqOf(isn, f, abs.begin);
      var diffSeq := DiffSeq(remoteSeq, sequenceBegin);
      if diffSeq <= windowSize && !reachFinish {
        reachFinish := true;
        sequenceFinish := remoteSeq;
        sequenceLength := Min(sequenceLength, diffSeq);
        abs := ArriveFin(abs, f);
      }
    }

    method PushReceiveBuffer(bufferSize: nat)
      requires Valid()
      modifies this`readers
      ensures Valid() && readers == old(readers) + [bufferSize] && abs == old(abs)
    {
      readers := readers + [bufferSize];
    }

    /** Copies readable bytes to the queued readers; once the FIN is the next position
        every waiting reader is completed with nothing. */
    method CopyReceiveBuffer() returns (total: nat, completed: seq<seq<Byte>>)
      requires Valid()
      modifies this`abs, this`sequenceBegin, this`sequenceLength, this`readers, buffer
      ensures Valid() && abs == Served(old(abs), old(readers))
      ensures total == abs.begin - old(abs).begin
      ensures var out := Serve(old(abs), old(readers));
              if abs.finish == Some(abs.begin)
              then readers == [] && |completed| == |old(readers)| && out <= completed
                   && forall i :: |out| <= i < |completed| ==> completed[i] == []
              else completed == out && readers == old(readers)[|out|..]
    {
      hide Holds, Serve, Served, Ok, SeqOf;
      total, completed := ServeReaders();
      AtFinish();
      if reachFinish && sequenceFinish == sequenceBegin {
        assert sequenceLength == 0;
        ghost var out, ring := completed, buffer[..];
        while readers != []
          invariant buffer[..] == ring
          invariant |completed| + |readers| == |old(readers)| && out <= completed
          invariant forall i :: |out| <= i < |completed| ==> completed[i] == []
          modifies this`readers
        {
          completed := completed + [[]];
          readers := readers[1..];
        }
      }
    }

    /** The window stands at the FIN exactly when the two sequence numbers are equal. */
    lemma AtFinish()
      requires Valid()
      ensures reachFinish && sequenceFinish == sequenceBegin <==> abs.finish == Some(abs.begin)
      ensures reachFinish && sequenceFinish == sequenceBegin ==> sequenceLength == 0
    {
      hide Holds;
      if reachFinish { SeqOfInjective(isn, abs.finish.value, abs.begin); }
    }

    method ServeReaders() returns (total: nat, completed: seq<seq<Byte>>)
      requires Valid()
      modifies this`abs, this`sequenceBegin, this`sequenceLength, this`readers, buffer
      ensures Valid() && abs == Served(old(abs), old(readers))
      ensures total == abs.begin - old(abs).begin
      ensures completed == Serve(old(abs), old(readers)) && readers == old(readers)[|completed|..]
    {
      hide Holds, Front, Consume;
      ghost var w, q := abs, readers;
      total, completed := 0, [];
      while sequenceLength != 0 && readers != []
        invariant Valid() && w.begin + total == abs.begin
        invariant Served(abs, readers) == Served(w, q)
        invariant completed + Serve(abs, readers) == Serve(w, q)
        invariant |completed| <= |q| && readers == q[|completed|..]
        decreases |readers|
      {
        var n := Min(readers[0], sequenceLength);
        ghost var w1, q1 := abs, readers;
        ConsumeMoves(w1, n);
        var out := CopyOut(n);
        readers := readers[1..];
        assert Serve(w1, q1) == [out] + Serve(abs, readers);
        assert (completed + [out]) + Serve(abs, readers) == completed + Serve(w1, q1);
        completed := completed + [out];
        total := total + n;
      }
    }

    /** Moves the n oldest bytes out of the ring and slides the window past them. */
    method CopyOut(n: nat) returns (out: seq<Byte>)
      requires Valid() && n <= sequenceLength
      modifies this`abs, this`sequenceBegin, this`sequenceLength, buffer
      ensures Valid() && abs == Consume(old(abs), n) && out == Front(old(abs), n)
    {
      hide Holds, SeqOf, AddSeq;
      ghost var w := abs;
      ConsumeKeeps(w, n);
      out := [];
      var wi := sequenceBegin;
      while |out| < n
        invariant |out| <= n && wi == SeqOf(isn, w.begin + |out|)
        invariant Holds(buffer[..], isn, abs) && abs == w.(got := abs.got)
        invariant forall p: nat :: p in abs.got <==> p in w.got && w.begin + |out| <= p
        invariant forall p: nat :: p in abs.got ==> abs.got[p] == w.got[p]
        invariant forall i :: 0 <= i < |out| ==> out[i] == w.got[w.begin + i]
        modifies this`abs, buffer
      {
        var d := UnsetReceiveData(wi, w.begin + |out|);
        AddSeqOf(isn, w.begin + |out|, 1);
        wi := AddSeq(wi, 1);
        out := out + [d];
      }
      sequenceBegin := wi;
      sequenceLength := sequenceLength - n;
      HoldsSlide(buffer[..], isn, abs, Consume(w, n).(got := abs.got));
      assert abs.got == Consume(w, n).got;
      abs := Consume(w, n);
    }

    /** Reads and clears one slot. */
    method UnsetReceiveData(s: Seq32, ghost p: nat) returns (d: Byte)
      requires 0 < windowSize <= MOD && MOD % windowSize == 0 && Holds(buffer[..], isn, abs) && abs.size == windowSize
      requires s == SeqOf(isn, p) && abs.begin <= p < abs.begin + abs.size && p in abs.got
      modifies this`abs, buffer
      ensures d == old(abs).got[p] && abs == old(abs).(got := old(abs).got - {p})
      ensures Holds(buffer[..], isn, abs)
    {
      var i := s % windowSize;
      assert SlotIs(buffer[..][Index(isn, p, windowSize)], abs.got, p);
      assert buffer[i].hasData;
      d := buffer[i].data;
      HoldsUpdate(buffer[..], isn, abs, p, RingSlot(false, 0), abs.got - {p});
      buffer[i] := RingSlot(false, 0);
      abs := abs.(got := abs.got - {p});
      assert buffer[..] == old(buffer[..])[i := RingSlot(false, 0)];
    }
  }

  lemma ConsumeMoves(w: Window, n: nat)
    requires Ok(w) && n <= w.length
    ensures Consume(w, n).begin == w.begin + n && Consume(w, n).length == w.length - n
  {
  }

  lemma SlotsEmpty(ring: seq<RingSlot>, isn: Seq32, w: Window)
    requires |ring| == w.size > 0 && w.got == map[] && forall i :: 0 <= i < |ring| ==> !ring[i].hasData
    ensures Holds(ring, isn, w)
  {
  }
}
