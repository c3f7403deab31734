/** The transmit window: a list of buffers with a send cursor, cumulative
    acknowledgement and rollback, over 32-bit sequence numbers. */
module TcpTransmit {
  import opened Common
  import opened TcpSequence

  const MAX_TCP_WINDOW_SIZE := 65535

  /** What occupies one sequence number. */
  datatype Item = Data(b: Byte) | Fin | Syn

  datatype TransmitBuffer = TransmitBuffer(sequenceBegin: Seq32, data: seq<Byte>, isFIN: bool)

  datatype Segment = Segment(sequence: Seq32, payload: seq<Byte>, fin: bool)

  /** The window over absolute positions: everything written, the oldest unacknowledged
      position, the send cursor and the highest position ever sent. */
  datatype Sender = Sender(space: seq<Item>, base: nat, cursor: nat, sent: nat, window: nat)

  ghost function Items(data: seq<Byte>, fin: bool): (s: seq<Item>)
    ensures |s| == |data|
  {
    if fin then seq(|data|, i => Fin) else seq(|data|, i requires 0 <= i < |data| => Data(data[i]))
  }

  /** The segment carries exactly the written stream from position p. */
  ghost predicate Carries(isn: Seq32, space: seq<Item>, p: nat, g: Segment) {
    && g.sequence == SeqOf(isn, p)
    && (if g.fin then g.payload == [] && p < |space| && space[p] == Fin
        else p + |g.payload| <= |space| && space[p..p + |g.payload|] == Items(g.payload, false))
  }

  function Len(g: Segment): nat { |g.payload| + if g.fin then 1 else 0 }

  /** Segments that follow one another from position p. */
  ghost predicate CarriesAll(isn: Seq32, space: seq<Item>, p: nat, gs: seq<Segment>) {
    gs == [] || (CarriesAll(isn, space, p, gs[..|gs| - 1]) &&
                 Carries(isn, space, p + TotalLen(gs[..|gs| - 1]), gs[|gs| - 1]))
  }

  ghost function TotalLen(gs: seq<Segment>): nat {
    if gs == [] then 0 else TotalLen(gs[..|gs| - 1]) + Len(gs[|gs| - 1])
  }

  lemma NoPackets(isn: Seq32, space: seq<Item>, p: nat)
    ensures CarriesAll(isn, space, p, []) && TotalLen([]) == 0
  {
  }

  lemma OneMore(isn: Seq32, space: seq<Item>, p: nat, gs: seq<Segment>, g: Segment)
    requires CarriesAll(isn, space, p, gs) && Carries(isn, space, p + TotalLen(gs), g)
    ensures CarriesAll(isn, space, p, gs + [g]) && TotalLen(gs + [g]) == TotalLen(gs) + Len(g)
  {
    assert (gs + [g])[..|gs|] == gs;
  }

  /** Data that the window lets out from the cursor. */
  ghost function Remain(s: Sender): nat {
    if s.cursor < s.base || s.cursor - s.base >= s.window || s.cursor > |s.space| then 0
    else if s.window - (s.cursor - s.base) < |s.space| - s.cursor then s.window - (s.cursor - s.base)
    else |s.space| - s.cursor
  }

  /** No byte may be sent: the window is used up, or only the FIN is left. */
  ghost predicate NoDataDue(s: Sender) { Remain(s) == 0 || (s.cursor < |s.space| && s.space[s.cursor] == Fin) }

  lemma NothingRemains(s: Sender)
    ensures s.cursor < s.base ==> Remain(s) == 0
  {
  }

  // ---------- how the buffers lie in the stream ----------

  ghost predicate BufferAt(isn: Seq32, space: seq<Item>, b: TransmitBuffer, lo: nat, hi: nat) {
    && hi == lo + |b.data| && hi <= |space| && b.sequenceBegin == SeqOf(isn, lo)
    && space[lo..hi] == Items(b.data, b.isFIN) && (b.isFIN ==> |b.data| == 1)
  }

  /** offs[i] is the position of buffer i; the last entry is the end of everything written. */
  ghost predicate Layout(isn: Seq32, space: seq<Item>, bufs: seq<TransmitBuffer>, offs: seq<nat>) {
    && |offs| == |bufs| + 1 && offs[|bufs|] == |space|
    && (forall i :: 0 <= i < |bufs| ==> BufferAt(isn, space, bufs[i], offs[i], offs[i + 1]))
    && (forall i :: 0 <= i < |bufs| && bufs[i].isFIN ==> i == |bufs| - 1)
  }

  lemma {:induction false} OffsMono(isn: Seq32, space: seq<Item>, bufs: seq<TransmitBuffer>, offs: seq<nat>, i: nat, j: nat)
    requires Layout(isn, space, bufs, offs) && i <= j <= |bufs|
    ensures offs[i] <= offs[j] <= |space|
    decreases |bufs| - i
  {
    if i < j {
      assert BufferAt(isn, space, bufs[i], offs[i], offs[i + 1]);
      OffsMono(isn, space, bufs, offs, i + 1, j);
    } else if j < |bufs| {
      assert BufferAt(isn, space, bufs[j], offs[j], offs[j + 1]);
    }
  }

  lemma LayoutEnd(isn: Seq32, space: seq<Item>, bufs: seq<TransmitBuffer>, offs: seq<nat>)
    requires Layout(isn, space, bufs, offs)
    ensures |offs| == |bufs| + 1 && offs[|bufs|] == |space|
  {
  }

  lemma LayoutAfterSyn(isn: Seq32, space: seq<Item>, offs: seq<nat>)
    requires offs == [|space|]
    ensures Layout(isn, space, [], offs)
  {
  }

  lemma LayoutAt(isn: Seq32, space: seq<Item>, bufs: seq<TransmitBuffer>, offs: seq<nat>, i: nat)
    requires Layout(isn, space, bufs, offs) && i < |bufs|
    ensures |offs| == |bufs| + 1 && offs[|bufs|] == |space| && BufferAt(isn, space, bufs[i], offs[i], offs[i + 1])
    ensures bufs[i].isFIN ==> i == |bufs| - 1
  {
  }

  lemma LayoutPop(isn: Seq32, space: seq<Item>, bufs: seq<TransmitBuffer>, offs: seq<nat>)
    requires Layout(isn, space, bufs, offs) && bufs != []
    ensures Layout(isn, space, bufs[1..], offs[1..])
  {
    forall i | 0 <= i < |bufs[1..]| ensures BufferAt(isn, space, bufs[1..][i], offs[1..][i], offs[1..][i + 1]) {
      assert BufferAt(isn, space, bufs[i + 1], offs[i + 1], offs[i + 2]);
    }
  }

  lemma LayoutPush(isn: Seq32, space: seq<Item>, bufs: seq<TransmitBuffer>, offs: seq<nat>, b: TransmitBuffer)
    requires Layout(isn, space, bufs, offs) && b.sequenceBegin == SeqOf(isn, |space|) && (b.isFIN ==> |b.data| == 1)
    requires forall i :: 0 <= i < |bufs| ==> !bufs[i].isFIN
    ensures var space' := space + Items(b.data, b.isFIN);
            Layout(isn, space', bufs + [b], offs + [|space'|])
  {
    var items := Items(b.data, b.isFIN);
    var space', bufs', offs' := space + items, bufs + [b], offs + [|space| + |items|];
    forall i | 0 <= i < |bufs'| ensures BufferAt(isn, space', bufs'[i], offs'[i], offs'[i + 1]) {
      if i < |bufs| {
        assert BufferAt(isn, space, bufs[i], offs[i], offs[i + 1]);
        assert space'[offs[i]..offs[i + 1]] == space[offs[i]..offs[i + 1]];
      } else {
        assert space'[|space|..] == items;
      }
    }
  }

  /** The cursor lies in its current buffer, and only ever behind the base inside the head buffer. */
  ghost predicate CursorIn(bufs: seq<TransmitBuffer>, offs: seq<nat>, current: nat, s: Sender) {
    && |offs| == |bufs| + 1 && current <= |bufs| && offs[current] <= s.cursor
    && (current < |bufs| ==> s.cursor < offs[current + 1] || s.cursor == offs[current] == offs[current + 1])
    && (current == |bufs| ==> s.cursor == offs[current])
    && (s.base <= s.cursor || current == 0)
  }

  /** Acknowledging leaves the cursor where it was unless its buffer goes: then it moves to the
      first buffer left. */
  ghost predicate CursorAfter(s: Sender, cursor: nat, first: nat) {
    cursor == if s.cursor < first then first else s.cursor
  }

  /** Buffers were dropped from the front only. */
  ghost predicate Dropped(before: seq<nat>, after: seq<nat>) {
    && |after| > 0 && (forall d :: d in after ==> d in before)
    && (forall d :: d in before && d !in after ==> d <= after[0])
  }

  /** The buffers left start at the last boundary at or before a. */
  ghost predicate DropsTo(before: seq<nat>, after: seq<nat>, a: nat) {
    |after| > 0 && after[0] in before && after[0] <= a && forall d :: d in before && d <= a ==> d <= after[0]
  }

  lemma DropOne(before: seq<nat>, after: seq<nat>, now: seq<nat>)
    requires Dropped(before, after) && (now == after || (now == after[1..] && |now| > 0 && after[0] <= now[0]))
    ensures Dropped(before, now)
  {
    assert after == [after[0]] + after[1..];
  }

  /** With the base in the first buffer left, that buffer starts at the last boundary before it. */
  lemma BaseIsLast(isn: Seq32, before: seq<nat>, bufs: seq<TransmitBuffer>, offs: seq<nat>, s: Sender)
    requires Layout(isn, s.space, bufs, offs) && BaseIn(bufs, offs, s) && Dropped(before, offs)
    ensures DropsTo(before, offs, s.base) && (offs[0] < s.base <==> s.base !in before)
  {
    forall d | d in before && d <= s.base ensures d <= offs[0] {
      if d in offs {
        var i :| 0 <= i < |offs| && offs[i] == d;
        if i > 0 { OffsMono(isn, s.space, bufs, offs, 1, i); }
      }
    }
  }

  ghost predicate BaseIn(bufs: seq<TransmitBuffer>, offs: seq<nat>, s: Sender) {
    && |offs| == |bufs| + 1 && offs[0] <= s.base
    && (if bufs == [] then s.base == offs[0] else s.base < offs[1] || s.base == offs[0] == offs[1])
  }

  lemma ItemsAppend(a: seq<Byte>, b: seq<Byte>)
    ensures Items(a + b, false) == Items(a, false) + Items(b, false)
  {
  }

  /** A piece of a data buffer is the same piece of the stream. */
  lemma PieceOfBuffer(isn: Seq32, space: seq<Item>, b: TransmitBuffer, lo: nat, hi: nat, p: nat, n: nat)
    requires BufferAt(isn, space, b, lo, hi) && !b.isFIN && lo <= p && p + n <= hi
    ensures space[p..p + n] == Items(b.data[p - lo..p - lo + n], false)
  {
    var piece := Items(b.data[p - lo..p - lo + n], false);
    forall i | 0 <= i < n ensures space[p..p + n][i] == piece[i] {
      assert space[p..p + n][i] == space[lo..hi][p - lo + i];
    }
  }

  lemma EmptyItems(space: seq<Item>, p: nat)
    requires p <= |space|
    ensures space[p..p] == Items([], false)
  {
  }

  lemma JoinSlices(space: seq<Item>, a: nat, b: nat, c: nat)
    requires a <= b <= c <= |space|
    ensures space[a..c] == space[a..b] + space[b..c]
  {
  }

  lemma CurrentIsData(isn: Seq32, bufs: seq<TransmitBuffer>, offs: seq<nat>, current: nat, s: Sender)
    requires Layout(isn, s.space, bufs, offs) && CursorIn(bufs, offs, current, s)
    ensures s.cursor < |s.space| ==> current < |bufs|
    ensures s.cursor <= |s.space|
  {
    OffsMono(isn, s.space, bufs, offs, current, |bufs|);
    if current < |bufs| { OffsMono(isn, s.space, bufs, offs, current + 1, |bufs|); }
  }

  /** A cursor in the FIN buffer with something left to send points at the FIN. */
  lemma FinIsAtCursor(isn: Seq32, space: seq<Item>, bufs: seq<TransmitBuffer>, offs: seq<nat>, current: nat, s: Sender)
    requires Layout(isn, space, bufs, offs) && CursorIn(bufs, offs, current, s) && s.space == space
    requires current < |bufs| && bufs[current].isFIN
    ensures s.cursor < |space| && space[s.cursor] == Fin && s.cursor == offs[current] && s.cursor + 1 == |space| && current == |bufs| - 1
  {
    assert BufferAt(isn, space, bufs[current], offs[current], offs[current + 1]);
    assert space[offs[current]..offs[current + 1]][0] == Fin;
  }

  /** Advancing the base inside the head buffer may leave a rolled-back cursor behind it, still in that buffer. */
  lemma BaseMoves(isn: Seq32, bufs: seq<TransmitBuffer>, offs: seq<nat>, current: nat, s: Sender, n: nat)
    requires Layout(isn, s.space, bufs, offs)
    requires CursorIn(bufs, offs, current, s) && bufs != [] && s.base + n <= offs[1]
    ensures CursorIn(bufs, offs, current, s.(base := s.base + n))
  {
    if current > 0 { OffsMono(isn, s.space, bufs, offs, 1, current); }
  }

  /** The segment lies inside the window [begin, begin + size) modulo 2^32. */
  ghost predicate InWindow(g: Segment, begin: Seq32, size: nat) {
    DiffSeq(g.sequence, begin) + |g.payload| <= size
  }

  ghost predicate AllInWindow(gs: seq<Segment>, base: Seq32, window: nat) {
    forall g :: g in gs && g.payload != [] ==> InWindow(g, base, window)
  }

  /** Packets that carry neither data nor a FIN. */
  ghost predicate AllBare(gs: seq<Segment>) {
    forall g :: g in gs ==> !g.fin && g.payload == []
  }

  lemma NoneOutside(base: Seq32, window: nat)
    ensures AllInWindow([], base, window) && AllBare([])
  {
  }

  lemma OneMoreKind(gs: seq<Segment>, g: Segment, base: Seq32, window: nat)
    requires AllInWindow(gs, base, window) && (g.payload != [] ==> InWindow(g, base, window))
    ensures AllInWindow(gs + [g], base, window) && (AllBare(gs) && !g.fin && g.payload == [] ==> AllBare(gs + [g]))
  {
  }

  lemma CursorBound(isn: Seq32, bufs: seq<TransmitBuffer>, offs: seq<nat>, current: nat, s: Sender)
    requires Layout(isn, s.space, bufs, offs) && CursorIn(bufs, offs, current, s) && BaseIn(bufs, offs, s)
    ensures current <= |bufs| && s.cursor <= |s.space| && s.base <= |s.space| && offs[0] <= s.cursor && offs[0] <= s.base
  {
    CurrentIsData(isn, bufs, offs, current, s);
    OffsMono(isn, s.space, bufs, offs, 0, current);
    if bufs != [] { OffsMono(isn, s.space, bufs, offs, 1, |bufs|); }
  }

  lemma FinAfterBase(isn: Seq32, bufs: seq<TransmitBuffer>, offs: seq<nat>, current: nat, s: Sender)
    requires Layout(isn, s.space, bufs, offs) && CursorIn(bufs, offs, current, s) && BaseIn(bufs, offs, s)
    requires current < |bufs| && bufs[current].isFIN
    ensures s.base <= s.cursor
  {
    assert BufferAt(isn, s.space, bufs[current], offs[current], offs[current + 1]);
  }

  class TCPTransmitWindow {
    var sequenceBegin: Seq32
    var scaledWindowSize: nat
    var maxSegmentSize: nat
    var tailSequence: Seq32
    var buffers: seq<TransmitBuffer>
    var current: nat
    var currentSequence: Seq32

    ghost const isn: Seq32
    ghost var offs: seq<nat>
    ghost var s: Sender

    ghost predicate Valid()
      reads this
    {
      && Layout(isn, s.space, buffers, offs) && CursorIn(buffers, offs, current, s) && BaseIn(buffers, offs, s)
      && tailSequence == SeqOf(isn, |s.space|)
      && sequenceBegin == SeqOf(isn, s.base) && currentSequence == SeqOf(isn, s.cursor)
      && s.cursor <= s.sent && s.base <= s.sent <= |s.space|
      && scaledWindowSize == s.window && |s.space| - offs[0] + s.window <= MOD && |s.space| - offs[0] < MOD
    }

    constructor (seqBegin: Seq32)
      ensures Valid() && isn == seqBegin && s == Sender([], 0, 0, 0, 2) && maxSegmentSize == 576
      ensures buffers == [] && offs == [0] && current == 0
    {
      sequenceBegin, tailSequence, currentSequence := seqBegin, seqBegin, seqBegin;
      scaledWindowSize, maxSegmentSize := 2, 576;
      buffers, current := [], 0;
      isn, offs, s := seqBegin, [0], Sender([], 0, 0, 0, 2);
    }

    /** Appends one written buffer; `hasMemory` says whether memory was available. */
    method PushTransmitBuffer(data: seq<Byte>, fin: bool, hasMemory: bool) returns (ok: bool)
      requires Valid() && (fin ==> |data| == 1)
      requires forall i :: 0 <= i < |buffers| ==> !buffers[i].isFIN
      requires hasMemory ==> |s.space| + |data| - offs[0] + s.window <= MOD && |s.space| + |data| - offs[0] < MOD
      modifies this
      ensures Valid() && ok == hasMemory && maxSegmentSize == old(maxSegmentSize) && current == old(current)
      ensures s == old(s).(space := if ok then old(s).space + Items(data, fin) else old(s).space)
      ensures offs == if ok then old(offs) + [|s.space|] else old(offs)
      ensures buffers == if ok then old(buffers) + [TransmitBuffer(old(tailSequence), data, fin)] else old(buffers)
    {
      hide Layout, Items;
      if !hasMemory { return false; }
      LayoutEnd(isn, s.space, buffers, offs);
      var tb := TransmitBuffer(tailSequence, data, fin);
      LayoutPush(isn, s.space, buffers, offs, tb);
      AddSeqOf(isn, |s.space|, |data|);
      var wasTail := current == |buffers|;
      buffers := buffers + [tb];
      tailSequence := AddSeq(tb.sequenceBegin, |data|);
      if wasTail { assert currentSequence == tb.sequenceBegin; }
      s := s.(space := s.space + Items(data, fin));
      offs := offs + [|s.space|];
      return true;
    }

    /** Drops the acknowledged head buffer; a cursor still in it moves to the next buffer. */
    method PopTransmitBuffer()
      requires Layout(isn, s.space, buffers, offs) && CursorIn(buffers, offs, current, s)
      requires buffers != [] && s.base == offs[1] && s.sent >= s.base && currentSequence == SeqOf(isn, s.cursor)
      requires tailSequence == SeqOf(isn, |s.space|)
      modifies this`buffers, this`offs, this`current, this`currentSequence, this`s
      ensures buffers == old(buffers)[1..] && offs == old(offs)[1..]
      ensures s == old(s).(cursor := s.cursor) && s.cursor == if old(s).cursor < s.base then s.base else old(s).cursor
      ensures Layout(isn, s.space, buffers, offs) && CursorIn(buffers, offs, current, s) && BaseIn(buffers, offs, s)
      ensures currentSequence == SeqOf(isn, s.cursor)
    {
      hide Layout, SeqOf, Items;
      LayoutPop(isn, s.space, buffers, offs);
      LayoutAt(isn, s.space, buffers, offs, 0);
      if |buffers| > 1 { LayoutAt(isn, s.space, buffers, offs, 1); }
      if current == 0 {
        currentSequence := if |buffers| == 1 then tailSequence else buffers[1].sequenceBegin;
        s := s.(cursor := offs[1]);
      } else {
        current := current - 1;
        OffsMono(isn, s.space, buffers, offs, 1, current + 1);
      }
      buffers := buffers[1..];
      offs := offs[1..];
    }

    /** How much the remote window and the written data allow from the cursor. */
    function GetTransmitRemainSize(): (r: nat)
      requires Valid()
      reads this
      ensures r == Remain(s)
    {
      OffsMono(isn, s.space, buffers, offs, 0, current);
      DiffSeqOf(isn, s.cursor, s.base);
      DiffSeqOf(isn, |s.space|, s.cursor);
      var currDiff := DiffSeq(currentSequence, sequenceBegin);
      if currDiff >= scaledWindowSize then 0
      else
        var bufferRemain := DiffSeq(tailSequence, currentSequence);
        if scaledWindowSize - currDiff < bufferRemain then scaledWindowSize - currDiff else bufferRemain
    }

    /** Moves the cursor inside the current buffer, stepping to the next one at its end. */
    method AddTransmitSequence(n: nat)
      requires Valid() && current < |buffers| && s.cursor + n <= offs[current + 1]
      requires s.base <= s.cursor
      modifies this`current, this`currentSequence, this`s
      ensures Valid() && s == old(s).(cursor := old(s).cursor + n, sent := s.sent)
      ensures s.sent == if old(s).sent < s.cursor then s.cursor else old(s).sent
      ensures current == old(current) + if s.cursor == offs[old(current) + 1] then 1 else 0
    {
      hide Layout, SeqOf, Items, AddSeq;
      AddSeqOf(isn, s.cursor, n);
      var c := buffers[current];
      LayoutAt(isn, s.space, buffers, offs, current);
      OffsMono(isn, s.space, buffers, offs, 0, current);
      currentSequence := AddSeq(currentSequence, n);
      s := s.(cursor := s.cursor + n, sent := if s.sent < s.cursor + n then s.cursor + n else s.sent);
      DiffSeqOf(isn, s.cursor, offs[current]);
      if |c.data| == DiffSeq(currentSequence, c.sequenceBegin) {
        current := current + 1;
        if current < |buffers| {
          LayoutAt(isn, s.space, buffers, offs, current);
        }
        assert currentSequence == if current < |buffers| then buffers[current].sequenceBegin else tailSequence;
      }
    }

    /** Goes back to the oldest unacknowledged position. */
    method RollbackTransmitSequence()
      requires Valid()
      modifies this`current, this`currentSequence, this`s
      ensures Valid() && s == old(s).(cursor := old(s).base) && current == 0
    {
      if buffers != [] { assert BufferAt(isn, s.space, buffers[0], offs[0], offs[1]); }
      current := 0;
      currentSequence := sequenceBegin;
      s := s.(cursor := s.base);
    }

    /** Copies the next segment's payload: as much as window, segment size and buffer allow,
        stopping only in front of the FIN. */
    method CopyTransmitBuffer(bufferSize: nat) returns (out: seq<Byte>)
      requires Valid()
      modifies this`current, this`currentSequence, this`s
      ensures Valid() && s == old(s).(cursor := old(s).cursor + |out|, sent := s.sent)
      ensures s.sent == if old(s).sent < s.cursor then s.cursor else old(s).sent
      ensures s.space[old(s).cursor..s.cursor] == Items(out, false)
      ensures |out| <= Min(Min(Remain(old(s)), bufferSize), maxSegmentSize)
      ensures |out| == Min(Min(Remain(old(s)), bufferSize), maxSegmentSize) ||
              (s.cursor < |s.space| && s.space[s.cursor] == Fin)
      ensures out == [] && !old(FinIsNext()) && Min(bufferSize, maxSegmentSize) > 0 ==> s == old(s) && Stopped()
    {
      hide SeqOf, Items, Layout;
      var max := Min(Min(GetTransmitRemainSize(), bufferSize), maxSegmentSize);
      out := [];
      EmptyItems(s.space, s.cursor);
      CurrentIsData(isn, buffers, offs, current, s);
      while max > |out| && !buffers[current].isFIN
        invariant Valid() && |out| <= max && s == old(s).(cursor := old(s).cursor + |out|, sent := s.sent)
        invariant s.sent == if old(s).sent < s.cursor then s.cursor else old(s).sent
        invariant s.space[old(s).cursor..s.cursor] == Items(out, false)
        invariant max > |out| ==> current < |buffers|
        invariant out == [] ==> s == old(s) && (current == old(current) || (0 < current <= |buffers| && buffers[current - 1].data == []))
        decreases max - |out|, |buffers| - current
      {
        ghost var p := s.cursor;
        var piece := CopyPiece(max - |out|);
        ItemsAppend(out, piece);
        JoinSlices(s.space, old(s).cursor, p, s.cursor);
        out := out + piece;
        CurrentIsData(isn, buffers, offs, current, s);
      }
      if max > |out| { FinIsAtCursor(isn, s.space, buffers, offs, current, s); }
    }

    /** The next to send is the FIN. */
    ghost predicate FinIsNext()
      reads this
    {
      current < |buffers| && buffers[current].isFIN
    }

    /** Nothing may be sent, or a FIN comes directly after an empty buffer that was skipped just now. */
    ghost predicate Stopped()
      reads this
    {
      Remain(s) == 0 || (FinIsNext() && current > 0 && buffers[current - 1].data == [])
    }

    /** Copies at most n bytes out of the current buffer and moves the cursor past them. */
    method CopyPiece(n: nat) returns (piece: seq<Byte>)
      requires Valid() && current < |buffers| && !buffers[current].isFIN && s.base <= s.cursor && n > 0
      modifies this`current, this`currentSequence, this`s
      ensures Valid() && |piece| <= n && s == old(s).(cursor := old(s).cursor + |piece|, sent := s.sent)
      ensures s.sent == if old(s).sent < s.cursor then s.cursor else old(s).sent
      ensures s.space[old(s).cursor..s.cursor] == Items(piece, false)
      ensures |piece| > 0 || (current == old(current) + 1 && buffers[old(current)].data == [])
    {
      hide Items;
      var c := buffers[current];
      assert BufferAt(isn, s.space, c, offs[current], offs[current + 1]);
      DiffSeqOf(isn, s.cursor, offs[current]);
      OffsMono(isn, s.space, buffers, offs, 0, current);
      var currentOffset := DiffSeq(currentSequence, c.sequenceBegin);
      var copySize := Min(n, |c.data| - currentOffset);
      piece := c.data[currentOffset..currentOffset + copySize];
      PieceOfBuffer(isn, s.space, c, offs[current], offs[current + 1], s.cursor, copySize);
      AddTransmitSequence(copySize);
    }

    /** Takes a cumulative acknowledgement of position a.  An acknowledgement of sent data moves
        the base there; an older one, or one more than MAX_TCP_WINDOW_SIZE ahead, is ignored; with
        nothing buffered, one past the end acknowledges the SYN. */
    method AckTransmitWindow(ack: Seq32, ghost a: nat) returns (r: nat)
      requires Valid() && ack == SeqOf(isn, a)
      requires s.base + MAX_TCP_WINDOW_SIZE < a + MOD
      requires a <= s.sent || (a == |s.space| + 1 && buffers == [] && 1 + s.window < MOD)
      modifies this
      ensures Valid() && maxSegmentSize == old(maxSegmentSize)
      ensures a <= old(s).base || a - old(s).base > MAX_TCP_WINDOW_SIZE ==> s == old(s) && r == 0 && offs == old(offs)
      ensures old(s).base <= a <= old(s).sent && a - old(s).base <= MAX_TCP_WINDOW_SIZE ==>
                && r == a - old(s).base && s == old(s).(base := a, cursor := s.cursor)
                && CursorAfter(old(s), s.cursor, offs[0]) && Dropped(old(offs), offs) && DropsTo(old(offs), offs, a)
                && (s.cursor < a <==> old(s).cursor < a && a !in old(offs))
      ensures a <= old(s).sent ==> |offs| > 0 && |old(offs)| > 0 && old(offs)[0] <= offs[0]
      ensures old(s).sent < a ==>
                && r == 1 && s == Sender(old(s).space + [Syn], a, a, a, old(s).window) && offs == [a]
    {
      hide SeqOf, Layout;
      DiffSeqOf(isn, a, s.base);
      LayoutEnd(isn, s.space, buffers, offs);
      r := DiffSeq(ack, sequenceBegin);
      if r > MAX_TCP_WINDOW_SIZE { return 0; }
      var ackDiff: nat := r;
      while buffers != [] && ackDiff != 0
        invariant Valid() && s.base + ackDiff == a && maxSegmentSize == old(maxSegmentSize)
        invariant s == old(s).(base := s.base, cursor := s.cursor)
        invariant |offs| == |buffers| + 1 && offs[|buffers|] == |s.space| && old(offs)[0] <= offs[0]
        invariant CursorAfter(old(s), s.cursor, offs[0]) && Dropped(old(offs), offs)
        invariant r == 0 ==> s == old(s) && offs == old(offs)
        decreases |buffers|, ackDiff
      {
        ghost var left := offs;
        ackDiff := AckHead(ackDiff);
        LayoutEnd(isn, s.space, buffers, offs);
        DropOne(old(offs), left, offs);
      }
      BaseIsLast(isn, old(offs), buffers, offs, s);
      if ackDiff != 0 {
        assert current == |buffers| && buffers == [];
        sequenceBegin, tailSequence, currentSequence := ack, ack, ack;
        s := Sender(s.space + [Syn], a, a, a, s.window);
        offs := [a];
        LayoutAfterSyn(isn, s.space, offs);
      }
      assert sequenceBegin == ack;
    }

    /** Acknowledges as much of the head buffer as the acknowledgement covers. */
    method AckHead(ackDiff: nat) returns (rest: nat)
      requires Valid() && buffers != [] && ackDiff > 0 && s.base + ackDiff <= s.sent
      modifies this
      ensures Valid() && maxSegmentSize == old(maxSegmentSize)
      ensures s == old(s).(base := s.base, cursor := s.cursor) && s.base + rest == old(s).base + ackDiff
      ensures |offs| > 0 && |old(offs)| > 0 && CursorAfter(old(s), s.cursor, offs[0])
      ensures offs == old(offs) || offs == old(offs)[1..]
      ensures |buffers| < old(|buffers|) || (|buffers| == old(|buffers|) && rest < ackDiff)
      ensures old(offs)[0] <= offs[0]
    {
      hide Layout, SeqOf, Items, AddSeq;
      var head := buffers[0];
      LayoutAt(isn, s.space, buffers, offs, 0);
      OffsMono(isn, s.space, buffers, offs, 1, |buffers|);
      DiffSeqOf(isn, s.base, offs[0]);
      var headOffset := DiffSeq(sequenceBegin, head.sequenceBegin);
      var ackSize := Min(|head.data| - headOffset, ackDiff);
      AddSeqOf(isn, s.base, ackSize);
      sequenceBegin := AddSeq(sequenceBegin, ackSize);
      BaseMoves(isn, buffers, offs, current, s, ackSize);
      s := s.(base := s.base + ackSize);
      DiffSeqOf(isn, s.base, offs[0]);
      if |head.data| == DiffSeq(sequenceBegin, head.sequenceBegin) {
        PopTransmitBuffer();
      }
      rest := ackDiff - ackSize;
    }

    /** An incoming segment's acknowledgement and window. */
    method ReceiveACK(ack: Seq32, window: nat, ghost a: nat) returns (r: nat)
      requires Valid() && ack == SeqOf(isn, a) && a <= s.sent && s.base + MAX_TCP_WINDOW_SIZE < a + MOD
      requires |s.space| - offs[0] + window <= MOD
      modifies this
      ensures Valid() && maxSegmentSize == old(maxSegmentSize)
      ensures a <= old(s).base || a - old(s).base > MAX_TCP_WINDOW_SIZE ==>
                s == old(s).(window := window) && r == 0 && offs == old(offs)
      ensures old(s).base <= a && a - old(s).base <= MAX_TCP_WINDOW_SIZE ==>
                && r == a - old(s).base && s == old(s).(base := a, cursor := s.cursor, window := window)
                && |offs| > 0 && CursorAfter(old(s), s.cursor, offs[0]) && Dropped(old(offs), offs) && DropsTo(old(offs), offs, a)
                && (s.cursor < a <==> old(s).cursor < a && a !in old(offs))
    {
      hide SeqOf, Layout;
      r := AckTransmitWindow(ack, a);
      scaledWindowSize := window;
      s := s.(window := window);
    }

    /** Sends the FIN the cursor points at, whatever the remote window. */
    method TransmitFIN() returns (g: Segment)
      requires Valid() && current < |buffers| && buffers[current].isFIN
      modifies this`current, this`currentSequence, this`s
      ensures Valid() && Carries(isn, s.space, old(s).cursor, g) && g.fin && g.payload == [] && current == |buffers|
      ensures s == old(s).(cursor := old(s).cursor + 1, sent := s.sent) && s.cursor <= |s.space|
      ensures s.sent == if old(s).sent < s.cursor then s.cursor else old(s).sent
    {
      hide SeqOf, Items;
      g := Segment(currentSequence, [], true);
      assert BufferAt(isn, s.space, buffers[current], offs[current], offs[current + 1]);
      FinIsAtCursor(isn, s.space, buffers, offs, current, s);
      assert |buffers[current].data| == 1 && current + 1 == |buffers|;
      FinAfterBase(isn, buffers, offs, current, s);
      AddTransmitSequence(|buffers[current].data|);
    }

    /** Sends everything the window allows, and at least one packet if mustTransmit; the raw
        socket accepts `writes` packets.  Success reports exactly the cursor's advance.  Packets made
        are those written, and after a failed write the one that was lost. */
    method TransmitTCP(mustTransmit: bool, bufferSize: nat, writes: nat)
      returns (ok: bool, transmitSeqDiff: nat, segments: seq<Segment>, ghost made: seq<Segment>)
      requires Valid()
      modifies this`current, this`currentSequence, this`s
      ensures Valid() && s == old(s).(cursor := s.cursor, sent := s.sent) && old(s).cursor <= s.cursor
      ensures CarriesAll(isn, s.space, old(s).cursor, segments) && CarriesAll(isn, s.space, old(s).cursor, made)
      ensures segments <= made && |made| <= |segments| + 1 && (ok <==> made == segments)
      ensures s.cursor == old(s).cursor + TotalLen(made) && s.sent == if old(s).sent < s.cursor then s.cursor else old(s).sent
      ensures AllInWindow(segments, sequenceBegin, scaledWindowSize)
      ensures ok ==> transmitSeqDiff == TotalLen(segments) && s.cursor == old(s).cursor + transmitSeqDiff
      ensures ok ==> (mustTransmit ==> segments != [])
      ensures |segments| <= writes && (!ok ==> |segments| == writes)
      ensures old(s).cursor < old(s).base ==>
                s == old(s) && |made| <= One(mustTransmit) && AllBare(made)
      ensures ok && Min(bufferSize, maxSegmentSize) > 0 ==> Stopped()
      ensures old(FinIsNext()) ==> made != [] && made[0].fin
      ensures !mustTransmit && !old(FinIsNext()) && NoDataDue(old(s)) ==> made == [] && s == old(s)
    {
      hide SeqOf, Items, Layout, CursorIn, BaseIn, Carries, CarriesAll, TotalLen, Remain, InWindow, AllInWindow, AllBare, Stopped, NoDataDue;
      var must := mustTransmit;
      transmitSeqDiff, segments := 0, [];
      NoPackets(isn, s.space, s.cursor);
      NoneOutside(sequenceBegin, scaledWindowSize);
      CursorBound(isn, buffers, offs, current, s);
      while must || current != |buffers|
        invariant Valid() && s == old(s).(cursor := s.cursor, sent := s.sent)
        invariant CarriesAll(isn, s.space, old(s).cursor, segments)
        invariant transmitSeqDiff == TotalLen(segments) && s.cursor == old(s).cursor + transmitSeqDiff
        invariant s.sent == if old(s).sent < s.cursor then s.cursor else old(s).sent
        invariant s.cursor <= |s.space| && current <= |buffers| && |segments| <= writes
        invariant AllInWindow(segments, sequenceBegin, scaledWindowSize)
        invariant mustTransmit && segments == [] ==> must
        invariant must ==> segments == [] && mustTransmit
        invariant old(s).cursor < old(s).base ==>
                    s == old(s) && |segments| <= One(mustTransmit) && AllBare(segments)
        invariant old(FinIsNext()) ==> if segments == [] then current == old(current) else segments[0].fin
        invariant !mustTransmit && !old(FinIsNext()) && NoDataDue(old(s)) ==> segments == [] && s == old(s) && current == old(current)
        decreases |s.space| - s.cursor, if must then 1 else 0
      {
        var g := MakePacket(bufferSize);
        if !must && !g.fin && g.payload == [] { break; }
        OneMore(isn, s.space, old(s).cursor, segments, g);
        OneMoreKind(segments, g, sequenceBegin, scaledWindowSize);
        if |segments| == writes { return false, 0, segments, segments + [g]; }
        segments := segments + [g];
        transmitSeqDiff := transmitSeqDiff + Len(g);
        must := false;
      }
      if current == |buffers| { AtEnd(); }
      ok, made := true, segments;
    }

    lemma AtEnd()
      requires Valid() && current == |buffers|
      ensures s.cursor == |s.space| && Stopped()
    {
    }

    /** The packet for the cursor's position: the FIN, or data. */
    method MakePacket(bufferSize: nat) returns (g: Segment)
      requires Valid()
      modifies this`current, this`currentSequence, this`s
      ensures Valid() && Carries(isn, s.space, old(s).cursor, g) && s.cursor <= |s.space| && current <= |buffers|
      ensures s == old(s).(cursor := old(s).cursor + Len(g), sent := s.sent)
      ensures s.sent == if old(s).sent < s.cursor then s.cursor else old(s).sent
      ensures g.payload != [] ==> InWindow(g, sequenceBegin, scaledWindowSize)
      ensures old(s).cursor < old(s).base ==> s == old(s) && !g.fin && g.payload == []
      ensures g.fin <==> old(FinIsNext())
      ensures !g.fin && g.payload == [] && Min(bufferSize, maxSegmentSize) > 0 ==> Stopped()
      ensures !g.fin && NoDataDue(old(s)) ==> g.payload == [] && s == old(s)
    {
      hide SeqOf, Layout, CursorIn, BaseIn, Remain, Stopped;
      CursorBound(isn, buffers, offs, current, s);
      if current < |buffers| && buffers[current].isFIN {
        FinAfterBase(isn, buffers, offs, current, s);
        g := TransmitFIN();
      } else {
        NothingRemains(s);
        g := TransmitData(bufferSize);
      }
      CursorBound(isn, buffers, offs, current, s);
    }

    /** One data packet from the cursor. */
    method TransmitData(bufferSize: nat) returns (g: Segment)
      requires Valid()
      modifies this`current, this`currentSequence, this`s
      ensures Valid() && Carries(isn, s.space, old(s).cursor, g) && !g.fin
      ensures s == old(s).(cursor := old(s).cursor + |g.payload|, sent := s.sent) && s.cursor <= |s.space|
      ensures s.sent == if old(s).sent < s.cursor then s.cursor else old(s).sent
      ensures g.payload != [] ==> InWindow(g, sequenceBegin, scaledWindowSize)
      ensures |g.payload| <= Min(Min(Remain(old(s)), bufferSize), maxSegmentSize)
      ensures |g.payload| == Min(Min(Remain(old(s)), bufferSize), maxSegmentSize) ||
              (s.cursor < |s.space| && s.space[s.cursor] == Fin)
      ensures g.payload == [] && !old(FinIsNext()) && Min(bufferSize, maxSegmentSize) > 0 ==> Stopped()
    {
      hide SeqOf, Items, Layout, CursorIn, BaseIn;
      CursorBound(isn, buffers, offs, current, s);
      DiffSeqOf(isn, s.cursor, s.base);
      var first := currentSequence;
      var payload := CopyTransmitBuffer(bufferSize);
      g := Segment(first, payload, false);
      CursorBound(isn, buffers, offs, current, s);
    }
  }

  /** Two buffers of two bytes, both sent, then a rollback. */
  method SentTwoBuffers(isn: Seq32) returns (tx: TCPTransmitWindow)
    ensures tx.Valid() && fresh(tx) && tx.isn == isn && tx.s.base == tx.s.cursor == 0 && tx.s.sent == tx.s.window == 4
    ensures |tx.s.space| == 4 && tx.offs == [0, 2, 4]
  {
    hide SeqOf, Layout, CursorIn, BaseIn, InWindow, DropsTo;
    tx := new TCPTransmitWindow(isn);
    var ok := tx.PushTransmitBuffer([1, 2], false, true);
    ok := tx.PushTransmitBuffer([3, 4], false, true);
    assert tx.offs == [0, 2, 4];
    var r := tx.ReceiveACK(tx.sequenceBegin, 4, 0);
    AllData([1, 2], [3, 4]);
    assert tx.s.space == Items([1, 2], false) + Items([3, 4], false);
    var g := tx.TransmitData(4);
    tx.RollbackTransmitSequence();
  }

  /** After that an acknowledgement of the first byte passes the cursor: nothing goes out although
      bytes are due, and it is the acknowledgement of the whole first buffer, not a rollback, that
      brings the cursor back. */
  method AckPassesCursor(isn: Seq32) returns (segments: seq<Segment>, ghost behind: Sender, ghost after: Sender)
    ensures behind.base == 1 && behind.cursor == 0 && behind.sent == 4 && segments == []
    ensures after.base == after.cursor == 2
  {
    hide SeqOf, Layout, CursorIn, BaseIn, InWindow, CarriesAll;
    var tx := SentTwoBuffers(isn);
    AddSeqOf(isn, 0, 1);
    var r := tx.ReceiveACK(AddSeq(tx.sequenceBegin, 1), 4, 1);
    behind := tx.s;
    var ok, diff;
    ghost var made;
    ok, diff, segments, made := tx.TransmitTCP(false, 4, 1);
    AddSeqOf(isn, 1, 1);
    r := tx.ReceiveACK(AddSeq(tx.sequenceBegin, 1), 4, 2);
    after := tx.s;
  }

  lemma AllData(a: seq<Byte>, b: seq<Byte>)
    ensures forall i :: 0 <= i < |a| + |b| ==> (Items(a, false) + Items(b, false))[i] != Fin
  {
  }

  /** One buffer, sent segment by segment into a window that takes all of it. */
  method SentWhole(isn: Seq32, data: seq<Byte>, window: nat) returns (tx: TCPTransmitWindow)
    requires 2 <= |data| <= window && |data| + window <= MOD
    ensures tx.Valid() && fresh(tx) && tx.isn == isn && tx.s == Sender(Items(data, false), 0, |data|, |data|, window)
  {
    hide SeqOf, Layout, CursorIn, BaseIn, InWindow, DropsTo, Items, Carries;
    tx := new TCPTransmitWindow(isn);
    var ok := tx.PushTransmitBuffer(data, false, true);
    assert tx.s.space == Items(data, false);
    PlainData(data);
    var r := tx.ReceiveACK(tx.sequenceBegin, window, 0);
    var sent := 0;
    while sent < |data|
      invariant sent <= |data| && fresh(tx) && tx.Valid() && tx.maxSegmentSize == 576
      invariant tx.s == Sender(Items(data, false), 0, sent, sent, window)
    {
      var g := tx.TransmitData(576);
      sent := sent + |g.payload|;
    }
  }

  lemma PlainData(data: seq<Byte>)
    ensures |Items(data, false)| == |data| && forall i :: 0 <= i < |data| ==> Items(data, false)[i] != Fin
  {
  }

  /** With 65536 bytes in flight under a scaled window, the acknowledgement of all of them is ignored. */
  method FarAckIgnored(isn: Seq32, data: seq<Byte>) returns (r: nat, ghost before: Sender, ghost after: Sender)
    requires |data| == MAX_TCP_WINDOW_SIZE + 1
    ensures before.base == 0 && before.sent == |data| == before.window && r == 0 && after == before
  {
    hide SeqOf, Layout, CursorIn, BaseIn, Items;
    var tx := SentWhole(isn, data, |data|);
    before := tx.s;
    AddSeqOf(isn, 0, |data|);
    r := tx.ReceiveACK(AddSeq(tx.sequenceBegin, |data|), |data|, |data|);
    after := tx.s;
  }

  lemma OneFin()
    ensures Items([], false) == [] && Items([0], true) == [Fin]
  {
  }

  /** A FIN written right after an empty buffer: the first call skips the empty buffer and stops, the second sends the FIN. */
  method EmptyWriteDelaysFin(isn: Seq32) returns (segments: seq<Segment>, ghost later: seq<Segment>)
    ensures segments == [] && later != [] && later[0].fin
  {
    hide SeqOf, Layout, CursorIn, BaseIn, InWindow, Items, CarriesAll, AllInWindow, AllBare, TotalLen;
    OneFin();
    var tx := new TCPTransmitWindow(isn);
    var ok := tx.PushTransmitBuffer([], false, true);
    ok := tx.PushTransmitBuffer([0], true, true);
    assert tx.s.space == [Fin] && tx.buffers[0].data == [];
    var diff, more;
    ghost var made;
    ok, diff, segments, made := tx.TransmitTCP(false, 576, 1);
    ok, diff, more, later := tx.TransmitTCP(false, 576, 1);
  }
}
