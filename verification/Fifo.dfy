/** The ring buffer behind a FIFO: indices are masked, elements overwritten in place. */
module FifoRing {
  import opened Arith
  import opened Common
  import opened Dyadic

  /** `x & (2^k - 1)`. */
  function LowBits(x: nat, k: nat): nat {
    if k == 0 then 0 else 2 * LowBits(x / 2, k - 1) + x % 2
  }

  /** Masking with a power of two is the remainder. */
  lemma {:induction false} LowBitsIsMod(x: nat, k: nat)
    ensures LowBits(x, k) == x % Pow2(k)
  {
    if k > 0 {
      LowBitsIsMod(x / 2, k - 1);
      ModOfDouble(x, Pow2(k - 1));
    }
  }

  lemma ModOfDouble(x: nat, p: nat)
    requires p > 0
    ensures x % (2 * p) == 2 * ((x / 2) % p) + x % 2
  {
    var h := x / 2;
    var q, r := h / p, h % p;
    assert h == q * p + r;
    MulDouble(q, p);
    ModIsUnique(x, 2 * p, q, 2 * r + x % 2);
  }

  lemma MulDouble(q: nat, p: nat)
    ensures q * (2 * p) == 2 * (q * p)
  {
  }

  /** Slot of the i-th element. */
  ghost function At(begin: nat, i: nat, n: nat): nat
    requires n > 0
  {
    (begin + i) % n
  }

  lemma AtZero(begin: nat, n: nat)
    requires begin < n
    ensures At(begin, 0, n) == begin
  {
  }

  lemma AtDistinct(begin: nat, i: nat, j: nat, n: nat)
    requires n > 0 && i < j < i + n
    ensures At(begin, i, n) != At(begin, j, n)
  {
    if At(begin, i, n) == At(begin, j, n) { SameSlotFar(begin + i, begin + j, n); }
  }

  ghost function Window<T>(buf: seq<T>, begin: nat, len: nat): (s: seq<T>)
    requires |buf| > 0
    ensures |s| == len && forall i :: 0 <= i < len ==> s[i] == buf[At(begin, i, |buf|)]
  {
    seq(len, i requires 0 <= i < len => buf[At(begin, i, |buf|)])
  }

  lemma WindowAppend<T>(buf: seq<T>, begin: nat, len: nat, x: T)
    requires |buf| > 0 && len < |buf|
    ensures Window(buf[At(begin, len, |buf|) := x], begin, len + 1) == Window(buf, begin, len) + [x]
  {
    forall i | 0 <= i < len ensures At(begin, i, |buf|) != At(begin, len, |buf|) {
      AtDistinct(begin, i, len, |buf|);
    }
  }

  lemma AtShift(begin: nat, i: nat, n: nat)
    requires n > 0
    ensures At(At(begin, 1, n), i, n) == At(begin, i + 1, n)
  {
    var q := (begin + 1) / n;
    assert begin + 1 == q * n + (begin + 1) % n;
    ModAddMultiple((begin + 1) % n + i, n, q);
  }

  lemma WindowDrop<T>(buf: seq<T>, begin: nat, len: nat)
    requires |buf| > 0 && len > 0
    ensures Window(buf, At(begin, 1, |buf|), len - 1) == Window(buf, begin, len)[1..]
  {
    var a, b := Window(buf, At(begin, 1, |buf|), len - 1), Window(buf, begin, len)[1..];
    forall i | 0 <= i < len - 1 ensures a[i] == b[i] { AtShift(begin, i, |buf|); }
  }

  class FIFO<T(0)> {
    const buffer: array<T>
    var begin: nat
    var dataLength: nat
    const bits: nat

    ghost predicate Valid()
      reads this
    {
      buffer.Length == Pow2(bits) && begin < buffer.Length && dataLength <= buffer.Length
    }

    ghost function Contents(): seq<T>
      requires Valid()
      reads this, buffer
    {
      Window(buffer[..], begin, dataLength)
    }

    constructor (k: nat)
      ensures Valid() && fresh(buffer) && buffer.Length == Pow2(k) && Contents() == [] && bits == k
    {
      buffer := new T[Pow2(k)];
      begin, dataLength, bits := 0, 0, k;
    }

    /** An index masked with the length less one. */
    function Masked(index: nat): (r: nat)
      requires Valid()
      reads this
      ensures r < buffer.Length && forall b: nat, i: nat :: b + i == index ==> r == At(b, i, buffer.Length)
    {
      LowBitsIsMod(index, bits);
      LowBits(index, bits)
    }

    method DequeueBuffer()
      requires Valid() && dataLength > 0
      modifies this
      ensures Valid() && Contents() == old(Contents())[1..]
    {
      hide At, Pow2;
      WindowDrop(buffer[..], begin, dataLength);
      begin := Masked(begin + 1);
      dataLength := dataLength - 1;
    }

    /** The locked part of a write: appends, or replaces the oldest element, or refuses. */
    method WriteLocked(data: T, overwrite: bool) returns (sizeChanged: bool, overwritten: Option<T>)
      requires Valid()
      modifies this, buffer
      ensures Valid() && sizeChanged == (old(dataLength) < buffer.Length)
      ensures overwritten.Some? <==> !sizeChanged && overwrite
      ensures sizeChanged ==> Contents() == old(Contents()) + [data]
      ensures overwritten.Some? ==>
                [overwritten.value] + Contents() == old(Contents()) + [data]
      ensures !sizeChanged && !overwrite ==> Contents() == old(Contents())
    {
      hide At, Pow2;
      sizeChanged := dataLength < buffer.Length;
      overwritten := None;
      if !sizeChanged {
        if !overwrite { return; }
        ghost var was := Contents();
        overwritten := Some(buffer[Masked(begin)]);
        AtZero(begin, buffer.Length);
        assert overwritten.value == was[0];
        DequeueBuffer();
        assert [overwritten.value] + Contents() == was;
      }
      WindowAppend(buffer[..], begin, dataLength, data);
      var i := Masked(begin + dataLength);
      ghost var before := buffer[..];
      buffer[i] := data;
      assert buffer[..] == before[i := data];
      dataLength := dataLength + 1;
    }

    /** The locked part of a read or a peek. */
    method ReadLocked(doRead: bool) returns (r: Option<T>)
      requires Valid()
      modifies this
      ensures Valid() && (r.Some? <==> old(dataLength) > 0)
      ensures r.Some? ==> r.value == old(Contents())[0]
      ensures Contents() == if r.Some? && doRead then old(Contents())[1..] else old(Contents())
    {
      hide At, Pow2;
      r := None;
      if dataLength > 0 {
        AtZero(begin, buffer.Length);
        r := Some(buffer[Masked(begin)]);
        if doRead { DequeueBuffer(); }
      }
    }
  }
}

/** Readers and writers interleaved between the buffer's lock and the semaphore. */
module FifoProtocol {

  /** How an element left the buffer. */
  datatype Gone<T> = Read(x: T) | Lost(x: T)

  datatype State<T> = State(
    contents: seq<T>, capacity: nat,
    quota: nat,        // semaphore value
    blocked: nat,      // readers waiting on the semaphore
    past: nat,         // readers past the semaphore, yet to take an element
    toSignal: nat,     // writers that added an element, yet to release the semaphore
    accepted: seq<T>, gone: seq<Gone<T>>)

  datatype Step<T> = Write(x: T) | Overwrite(x: T) | Signal | Acquire | Block | Take

  ghost predicate Init<T>(s: State<T>) {
    && s.contents == [] && s.quota == 0 && s.blocked == 0 && s.past == 0 && s.toSignal == 0
    && s.accepted == [] && s.gone == [] && s.capacity > 0
  }

  ghost predicate Next<T>(s: State<T>, t: State<T>, step: Step<T>) {
    match step
    case Write(x) =>
      if |s.contents| < s.capacity
      then t == s.(contents := s.contents + [x], accepted := s.accepted + [x], toSignal := s.toSignal + 1)
      else t == s
    case Overwrite(x) =>
      if |s.contents| < s.capacity
      then t == s.(contents := s.contents + [x], accepted := s.accepted + [x], toSignal := s.toSignal + 1)
      else s.contents != [] && t == s.(contents := s.contents[1..] + [x], accepted := s.accepted + [x],
                                       gone := s.gone + [Lost(s.contents[0])])
    case Signal =>
      s.toSignal > 0 &&
      t == (if s.blocked > 0 then s.(toSignal := s.toSignal - 1, blocked := s.blocked - 1, past := s.past + 1)
            else s.(toSignal := s.toSignal - 1, quota := s.quota + 1))
    case Acquire => s.quota > 0 && t == s.(quota := s.quota - 1, past := s.past + 1)
    case Block => s.quota == 0 && t == s.(blocked := s.blocked + 1)
    case Take =>
      s.past > 0 && s.contents != [] &&
      t == s.(past := s.past - 1, contents := s.contents[1..], gone := s.gone + [Read(s.contents[0])])
  }

  /** Everything that left, in order. */
  ghost function Values<T>(g: seq<Gone<T>>): (v: seq<T>)
    ensures |v| == |g| && forall i :: 0 <= i < |g| ==> v[i] == g[i].x
  {
    seq(|g|, i requires 0 <= i < |g| => g[i].x)
  }

  ghost predicate Inv<T>(s: State<T>) {
    && |s.contents| == s.quota + s.past + s.toSignal
    && |s.contents| <= s.capacity && s.capacity > 0
    && (s.blocked > 0 ==> s.quota == 0)
    && s.accepted == Values(s.gone) + s.contents
  }

  lemma StepKeeps<T>(s: State<T>, t: State<T>, step: Step<T>)
    requires Inv(s) && Next(s, t, step)
    ensures Inv(t)
  {
    if t.gone != s.gone {
      assert s.contents == [s.contents[0]] + s.contents[1..];
      assert Values(t.gone) == Values(s.gone) + [s.contents[0]];
    }
  }

  ghost predicate Run<T>(ss: seq<State<T>>, steps: seq<Step<T>>) {
    && |ss| == |steps| + 1 && Init(ss[0])
    && forall i :: 0 <= i < |steps| ==> Next(ss[i], ss[i + 1], steps[i])
  }

  lemma {:induction false} RunKeepsInv<T>(ss: seq<State<T>>, steps: seq<Step<T>>, k: nat)
    requires Run(ss, steps) && k < |ss|
    ensures Inv(ss[k])
  {
    if k > 0 {
      RunKeepsInv(ss, steps, k - 1);
      StepKeeps(ss[k - 1], ss[k], steps[k - 1]);
    }
  }

  /** In every interleaving the element count equals quota plus readers past the semaphore plus
      writers yet to signal, so a reader past the semaphore always finds an element; and the
      elements leave in the order they were accepted, each read once or lost as the oldest. */
  lemma FifoSafety<T>(ss: seq<State<T>>, steps: seq<Step<T>>, k: nat)
    requires Run(ss, steps) && k < |ss|
    ensures |ss[k].contents| == ss[k].quota + ss[k].past + ss[k].toSignal
    ensures ss[k].past > 0 ==> ss[k].contents != []
    ensures Values(ss[k].gone) + ss[k].contents == ss[k].accepted
    ensures ss[k].blocked > 0 && ss[k].past == 0 && ss[k].toSignal == 0 ==> ss[k].contents == []
  {
    RunKeepsInv(ss, steps, k);
  }

  /** Reads begun: by taking a token, or by blocking. */
  ghost function Begun<T>(steps: seq<Step<T>>): nat {
    if steps == [] then 0
    else Begun(steps[..|steps| - 1]) + if steps[|steps| - 1].Acquire? || steps[|steps| - 1].Block? then 1 else 0
  }

  ghost function Taken<T>(steps: seq<Step<T>>): nat {
    if steps == [] then 0 else Taken(steps[..|steps| - 1]) + if steps[|steps| - 1].Take? then 1 else 0
  }

  /** In every run each read begun is blocked, past the semaphore, or has taken an element: none is lost or let through twice. */
  lemma {:induction false} ReadersConserved<T>(ss: seq<State<T>>, steps: seq<Step<T>>, k: nat)
    requires Run(ss, steps) && k < |ss|
    ensures Begun(steps[..k]) == ss[k].blocked + ss[k].past + Taken(steps[..k])
  {
    if k > 0 {
      ReadersConserved(ss, steps, k - 1);
      assert Next(ss[k - 1], ss[k], steps[k - 1]);
      assert steps[..k][..k - 1] == steps[..k - 1];
    }
  }

  /** An element is lost only to an overwrite of a full buffer. */
  lemma LostOnlyByOverwrite<T>(s: State<T>, t: State<T>, step: Step<T>)
    requires Inv(s) && Next(s, t, step) && s.contents != [] && t.gone == s.gone + [Lost(s.contents[0])]
    ensures step.Overwrite? && |s.contents| == s.capacity
  {
    assert t.gone[|s.gone|].Lost?;
  }
}

/** The ring buffer object under that protocol: each locked region is one step of the run. */
module FifoObject {
  import opened Common
  import opened FifoRing
  import P = FifoProtocol

  lemma RunMore<T>(ss: seq<P.State<T>>, steps: seq<P.Step<T>>, t: P.State<T>, step: P.Step<T>)
    requires P.Run(ss, steps) && P.Next(ss[|ss| - 1], t, step)
    ensures P.Run(ss + [t], steps + [step])
  {
    hide P.Next;
    var ss1, steps1 := ss + [t], steps + [step];
    forall i | 0 <= i < |steps1| ensures P.Next(ss1[i], ss1[i + 1], steps1[i]) {
      if i < |steps| { assert ss1[i] == ss[i] && ss1[i + 1] == ss[i + 1]; }
    }
  }

  class SharedFIFO<T(0)> {
    const fifo: FIFO<T>
    ghost var ss: seq<P.State<T>>
    ghost var steps: seq<P.Step<T>>

    ghost function Now(): P.State<T>
      requires ss != []
      reads this
    {
      ss[|ss| - 1]
    }

    ghost predicate Valid()
      reads this, fifo, fifo.buffer
    {
      && fifo.Valid() && ss != [] && P.Run(ss, steps)
      && Now().contents == fifo.Contents() && Now().capacity == fifo.buffer.Length
    }

    constructor (k: nat)
      ensures Valid() && fresh(fifo) && fresh(fifo.buffer) && Now().accepted == []
    {
      fifo := new FIFO<T>(k);
      new;
      ss, steps := [P.State([], fifo.buffer.Length, 0, 0, 0, 0, [], [])], [];
    }

    ghost method Step(t: P.State<T>, step: P.Step<T>)
      requires ss != [] && P.Run(ss, steps) && P.Next(Now(), t, step)
      modifies this`ss, this`steps
      ensures ss != [] && P.Run(ss, steps) && Now() == t
    {
      RunMore(ss, steps, t, step);
      ss, steps := ss + [t], steps + [step];
    }

    /** The locked part of a write; the caller owes a signal exactly when it reports a new element. */
    method WritePart(data: T) returns (sizeChanged: bool)
      requires Valid()
      modifies this, fifo, fifo.buffer
      ensures Valid() && P.Next(old(Now()), Now(), P.Write(data))
      ensures Now().toSignal == old(Now()).toSignal + if sizeChanged then 1 else 0
    {
      hide P.Run;
      ghost var s := Now();
      var overwritten;
      sizeChanged, overwritten := fifo.WriteLocked(data, false);
      Step(if sizeChanged then s.(contents := s.contents + [data], accepted := s.accepted + [data], toSignal := s.toSignal + 1) else s,
           P.Write(data));
    }

    /** The locked part of an overwrite; a full buffer gives up its oldest element. */
    method OverwritePart(data: T) returns (sizeChanged: bool, overwritten: Option<T>)
      requires Valid()
      modifies this, fifo, fifo.buffer
      ensures Valid() && P.Next(old(Now()), Now(), P.Overwrite(data))
      ensures overwritten.Some? ==> Now().gone == old(Now()).gone + [P.Lost(overwritten.value)]
      ensures overwritten.None? ==> Now().gone == old(Now()).gone
    {
      hide P.Run;
      ghost var s := Now();
      sizeChanged, overwritten := fifo.WriteLocked(data, true);
      if sizeChanged {
        Step(s.(contents := s.contents + [data], accepted := s.accepted + [data], toSignal := s.toSignal + 1), P.Overwrite(data));
      } else {
        ShiftIn(s.contents, overwritten.value, fifo.Contents(), data);
        Step(s.(contents := s.contents[1..] + [data], accepted := s.accepted + [data], gone := s.gone + [P.Lost(s.contents[0])]),
             P.Overwrite(data));
      }
    }

    /** The locked part of a read, after the semaphore was passed: there is always an element, the
        oldest one, which is what the blocking read asserts. */
    method ReadPart() returns (r: Option<T>)
      requires Valid() && Now().past > 0
      modifies this, fifo
      ensures Valid() && r.Some? && P.Next(old(Now()), Now(), P.Take)
      ensures Now().gone == old(Now()).gone + [P.Read(r.value)]
    {
      P.FifoSafety(ss, steps, |ss| - 1);
      hide P.Run;
      ghost var s := Now();
      r := fifo.ReadLocked(true);
      Step(s.(past := s.past - 1, contents := s.contents[1..], gone := s.gone + [P.Read(s.contents[0])]), P.Take);
    }

    /** Semaphore operations do not touch the buffer. */
    ghost method SemaphoreStep(t: P.State<T>, step: P.Step<T>)
      requires Valid() && (step.Signal? || step.Acquire? || step.Block?) && P.Next(Now(), t, step)
      modifies this`ss, this`steps
      ensures Valid() && Now() == t
    {
      Step(t, step);
    }
  }

  lemma ShiftIn<T>(a: seq<T>, x: T, b: seq<T>, y: T)
    requires [x] + b == a + [y] && a != []
    ensures x == a[0] && b == a[1..] + [y]
  {
    assert ([x] + b)[0] == (a + [y])[0];
    assert b == ([x] + b)[1..] == (a + [y])[1..];
  }
}
