/** Scheduling on several processors: ready queues shared under one lock, semaphores
    whose lock is held across the switch, and suspension completed by the next task. */
module Scheduler {
  import opened Arith
  import opened Common
  import opened TaskQueues

  /** Where a suspended task goes once its processor has left it. */
  datatype Dest = SemQueue(sem: nat) | Terminated

  /** Running a task; holding a semaphore's lock and about to leave; or already on the next
      task with the old one still to be put away. */
  datatype Pc = Running | Blocking(sem: nat) | Switched(dest: Dest, left: nat)

  datatype Cpu = Cpu(current: nat, pc: Pc)

  datatype Sem = Sem(quota: nat, queue: seq<nat>, holder: Option<nat>)

  datatype State = State(
    cpus: seq<Cpu>,
    ready: seq<seq<nat>>,
    sems: seq<Sem>,
    hands: multiset<nat>,     // popped from a semaphore or newly created, about to be resumed
    ended: seq<nat>,
    priority: map<nat, nat>,  // every task that exists
    boot: set<nat>,           // one bootstrap task per processor; these never block
    stamp: map<nat, nat>,     // when a task last entered the ready queue
    clock: nat
  )

  datatype Step =
    | Yield(p: nat)
    | Acquire(p: nat, s: nat)
    | StartBlock(p: nat, s: nat)
    | SwitchAway(p: nat)
    | End(p: nat)
    | Settle(p: nat)
    | Release(p: nat, s: nat)
    | Resume(t: nat)
    | Create(t: nat, prio: nat)
    | Reap

  // ---------- the ready queue ----------

  ghost predicate HasReady(ready: seq<seq<nat>>) { exists q :: 0 <= q < |ready| && ready[q] != [] }

  /** The first nonempty queue at or after q. */
  ghost function Best(ready: seq<seq<nat>>, q: nat): (b: nat)
    requires exists r :: q <= r < |ready| && ready[r] != []
    ensures q <= b < |ready| && ready[b] != [] && forall r :: q <= r < b ==> ready[r] == []
    decreases |ready| - q
  {
    if ready[q] != [] then q else Best(ready, q + 1)
  }

  ghost function PushReady(st: State, t: nat): State
    requires t in st.priority && st.priority[t] < |st.ready|
  {
    var q := st.priority[t];
    st.(ready := st.ready[q := st.ready[q] + [t]], stamp := st.stamp[t := st.clock], clock := st.clock + 1)
  }

  /** Processor p starts the oldest task of the best priority. */
  ghost function Dispatch(st: State, p: nat, pc: Pc): State
    requires HasReady(st.ready) && p < |st.cpus|
  {
    var q := Best(st.ready, 0);
    st.(ready := st.ready[q := st.ready[q][1..]], cpus := st.cpus[p := Cpu(st.ready[q][0], pc)])
  }

  // ---------- steps: one per region under a lock ----------

  ghost predicate Next(st: State, st': State, step: Step) {
    match step
    case Yield(p) =>
      p < |st.cpus| && st.cpus[p].pc.Running? && Known(st, st.cpus[p].current) &&
      var r := PushReady(st, st.cpus[p].current);
      HasReady(r.ready) && st' == Dispatch(r, p, Running)
    case Acquire(p, s) =>
      p < |st.cpus| && st.cpus[p].pc.Running? && s < |st.sems| && st.sems[s].holder.None? && st.sems[s].quota >= 1 &&
      st' == st.(sems := st.sems[s := st.sems[s].(quota := st.sems[s].quota - 1)])
    case StartBlock(p, s) =>
      p < |st.cpus| && st.cpus[p].pc.Running? && s < |st.sems| && st.sems[s].holder.None? && st.sems[s].quota == 0 &&
      st.cpus[p].current !in st.boot &&
      st' == st.(sems := st.sems[s := st.sems[s].(holder := Some(p))],
                 cpus := st.cpus[p := st.cpus[p].(pc := Blocking(s))])
    case SwitchAway(p) =>
      p < |st.cpus| && st.cpus[p].pc.Blocking? && HasReady(st.ready) &&
      st' == Dispatch(st, p, Switched(SemQueue(st.cpus[p].pc.sem), st.cpus[p].current))
    case End(p) =>
      p < |st.cpus| && st.cpus[p].pc.Running? && st.cpus[p].current !in st.boot && HasReady(st.ready) &&
      st' == Dispatch(st, p, Switched(Terminated, st.cpus[p].current))
    case Settle(p) =>
      p < |st.cpus| && st.cpus[p].pc.Switched? &&
      var c := st.cpus[p];
      (match c.pc.dest
       case Terminated => st' == st.(ended := st.ended + [c.pc.left], cpus := st.cpus[p := c.(pc := Running)])
       case SemQueue(s) =>
         s < |st.sems| &&
         st' == st.(sems := st.sems[s := st.sems[s].(queue := st.sems[s].queue + [c.pc.left], holder := None)],
                    cpus := st.cpus[p := c.(pc := Running)]))
    case Release(p, s) =>
      p < |st.cpus| && st.cpus[p].pc.Running? && s < |st.sems| && st.sems[s].holder.None? &&
      var m := st.sems[s];
      st' == (if m.queue == [] then st.(sems := st.sems[s := m.(quota := m.quota + 1)])
              else st.(sems := st.sems[s := m.(queue := m.queue[1..])], hands := st.hands + multiset{m.queue[0]}))
    case Resume(t) =>
      t in st.hands && Known(st, t) && st' == PushReady(st.(hands := st.hands - multiset{t}), t)
    case Create(t, prio) =>
      t !in st.priority && prio < NUMBER_OF_PRIORITIES &&
      st' == st.(hands := st.hands + multiset{t}, priority := st.priority[t := prio])
    case Reap =>
      st.ended != [] && st.ended[0] in st.priority &&
      st' == st.(ended := st.ended[1..], priority := st.priority - {st.ended[0]})
  }

  ghost predicate Known(st: State, t: nat) { t in st.priority && st.priority[t] < |st.ready| }

  // ---------- every task is in exactly one place ----------

  /** How often t occurs in a queue. */
  ghost function In(l: seq<nat>, t: nat): nat { multiset(l)[t] }

  ghost function OnCpu(c: Cpu, t: nat): nat {
    One(c.current == t) + One(c.pc.Switched? && c.pc.left == t)
  }

  ghost function CpuCounts(cpus: seq<Cpu>, t: nat): seq<nat> {
    seq(|cpus|, i requires 0 <= i < |cpus| => OnCpu(cpus[i], t))
  }

  ghost function ReadyCounts(ready: seq<seq<nat>>, t: nat): seq<nat> {
    seq(|ready|, q requires 0 <= q < |ready| => In(ready[q], t))
  }

  ghost function SemCounts(sems: seq<Sem>, t: nat): seq<nat> {
    seq(|sems|, s requires 0 <= s < |sems| => In(sems[s].queue, t))
  }

  /** Occurrences of t over all places a task can be. */
  ghost function Places(st: State, t: nat): nat {
    Sum(CpuCounts(st.cpus, t)) + Sum(ReadyCounts(st.ready, t)) + Sum(SemCounts(st.sems, t))
    + st.hands[t] + In(st.ended, t)
  }

  ghost predicate OnePlaceEach(st: State) {
    forall t :: Places(st, t) == One(t in st.priority)
  }

  lemma CpuUpdate(cpus: seq<Cpu>, p: nat, c: Cpu, t: nat)
    requires p < |cpus|
    ensures Sum(CpuCounts(cpus[p := c], t)) + OnCpu(cpus[p], t) == Sum(CpuCounts(cpus, t)) + OnCpu(c, t)
  {
    SumUpdate(CpuCounts(cpus, t), p, OnCpu(c, t));
    assert CpuCounts(cpus[p := c], t) == CpuCounts(cpus, t)[p := OnCpu(c, t)];
  }

  lemma ReadyUpdate(ready: seq<seq<nat>>, q: nat, l: seq<nat>, t: nat)
    requires q < |ready|
    ensures Sum(ReadyCounts(ready[q := l], t)) + In(ready[q], t) == Sum(ReadyCounts(ready, t)) + In(l, t)
  {
    SumUpdate(ReadyCounts(ready, t), q, In(l, t));
    assert ReadyCounts(ready[q := l], t) == ReadyCounts(ready, t)[q := In(l, t)];
  }

  lemma SemUpdate(sems: seq<Sem>, s: nat, m: Sem, t: nat)
    requires s < |sems|
    ensures Sum(SemCounts(sems[s := m], t)) + In(sems[s].queue, t) == Sum(SemCounts(sems, t)) + In(m.queue, t)
  {
    SumUpdate(SemCounts(sems, t), s, In(m.queue, t));
    assert SemCounts(sems[s := m], t) == SemCounts(sems, t)[s := In(m.queue, t)];
  }

  lemma InHeadTail(l: seq<nat>, t: nat)
    requires l != []
    ensures In(l, t) == One(l[0] == t) + In(l[1..], t)
  {
    assert l == [l[0]] + l[1..];
  }

  lemma InAppend(l: seq<nat>, x: nat, t: nat)
    ensures In(l + [x], t) == In(l, t) + One(x == t)
  {
  }

  lemma PushPlaces(st: State, x: nat, t: nat)
    requires Known(st, x)
    ensures Places(PushReady(st, x), t) == Places(st, t) + One(x == t)
  {
    var q := st.priority[x];
    ReadyUpdate(st.ready, q, st.ready[q] + [x], t);
  }

  lemma DispatchPlaces(st: State, p: nat, pc: Pc, t: nat)
    requires HasReady(st.ready) && p < |st.cpus|
    ensures Places(Dispatch(st, p, pc), t) + OnCpu(st.cpus[p], t)
            == Places(st, t) + One(pc.Switched? && pc.left == t)
  {
    var q := Best(st.ready, 0);
    var l := st.ready[q];
    InHeadTail(l, t);
    ReadyUpdate(st.ready, q, l[1..], t);
    CpuUpdate(st.cpus, p, Cpu(l[0], pc), t);
  }

  lemma SettlePlaces(st: State, st': State, p: nat, t: nat)
    requires Next(st, st', Settle(p))
    ensures Places(st', t) == Places(st, t) && st'.priority == st.priority
  {
    hide Sum, CpuCounts, ReadyCounts, SemCounts, In;
    var c := st.cpus[p];
    CpuUpdate(st.cpus, p, st'.cpus[p], t);
    match c.pc.dest {
      case Terminated => InAppend(st.ended, c.pc.left, t);
      case SemQueue(s) =>
        InAppend(st.sems[s].queue, c.pc.left, t);
        SemUpdate(st.sems, s, st'.sems[s], t);
    }
  }

  lemma ReleasePlaces(st: State, st': State, p: nat, s: nat, t: nat)
    requires Next(st, st', Release(p, s))
    ensures Places(st', t) == Places(st, t) && st'.priority == st.priority
  {
    hide Sum, CpuCounts, ReadyCounts, SemCounts, In;
    if st.sems[s].queue != [] { InHeadTail(st.sems[s].queue, t); }
    SemUpdate(st.sems, s, st'.sems[s], t);
  }

  lemma YieldPlaces(st: State, st': State, p: nat, t: nat)
    requires Next(st, st', Yield(p))
    ensures Places(st', t) == Places(st, t) && st'.priority == st.priority
  {
    hide Places, HasReady, Best;
    PushPlaces(st, st.cpus[p].current, t);
    DispatchPlaces(PushReady(st, st.cpus[p].current), p, Running, t);
  }

  lemma ReapPlaces(st: State, st': State, t: nat)
    requires Next(st, st', Reap) && Places(st, t) == One(t in st.priority)
    ensures Places(st', t) == One(t in st'.priority)
  {
    hide Sum, CpuCounts, ReadyCounts, SemCounts, In;
    InHeadTail(st.ended, t);
  }

  lemma AcquirePlaces(st: State, st': State, p: nat, s: nat, t: nat)
    requires Next(st, st', Acquire(p, s))
    ensures Places(st', t) == Places(st, t) && st'.priority == st.priority
  {
    hide Sum, CpuCounts, ReadyCounts, SemCounts, In;
    SemUpdate(st.sems, s, st'.sems[s], t);
  }

  lemma StartBlockPlaces(st: State, st': State, p: nat, s: nat, t: nat)
    requires Next(st, st', StartBlock(p, s))
    ensures Places(st', t) == Places(st, t) && st'.priority == st.priority
  {
    hide Sum, CpuCounts, ReadyCounts, SemCounts, In;
    SemUpdate(st.sems, s, st'.sems[s], t);
    CpuUpdate(st.cpus, p, st'.cpus[p], t);
  }

  /** Every step moves tasks between places and loses or copies none. */
  lemma StepPlaces(st: State, st': State, step: Step, t: nat)
    requires Next(st, st', step) && Places(st, t) == One(t in st.priority)
    ensures Places(st', t) == One(t in st'.priority)
  {
    hide Sum, CpuCounts, ReadyCounts, SemCounts, In, HasReady, Best;
    match step
    case Yield(p) => YieldPlaces(st, st', p, t);
    case Acquire(p, s) => AcquirePlaces(st, st', p, s, t);
    case StartBlock(p, s) => StartBlockPlaces(st, st', p, s, t);
    case SwitchAway(p) => DispatchPlaces(st, p, Switched(SemQueue(st.cpus[p].pc.sem), st.cpus[p].current), t);
    case End(p) => DispatchPlaces(st, p, Switched(Terminated, st.cpus[p].current), t);
    case Settle(p) => SettlePlaces(st, st', p, t);
    case Release(p, s) => ReleasePlaces(st, st', p, s, t);
    case Resume(x) => PushPlaces(st.(hands := st.hands - multiset{x}), x, t);
    case Create(x, prio) =>
    case Reap => ReapPlaces(st, st', t);
  }

  // ---------- the rest of the invariant ----------

  ghost predicate Shape(st: State) {
    |st.ready| == NUMBER_OF_PRIORITIES && forall t :: t in st.priority ==> st.priority[t] < NUMBER_OF_PRIORITIES
  }

  /** A queued task has the queue's priority, and queues are in order of entry. */
  ghost predicate QueuedOk(st: State, q: nat, t: nat) {
    t in st.priority && st.priority[t] == q && t in st.stamp && st.stamp[t] < st.clock
  }

  ghost predicate InOrder(st: State, l: seq<nat>) {
    && (forall i :: 0 <= i < |l| ==> l[i] in st.stamp)
    && (forall i, j :: 0 <= i < j < |l| ==> st.stamp[l[i]] < st.stamp[l[j]])
  }

  ghost predicate ReadyOk(st: State) {
    && (forall q, i :: 0 <= q < |st.ready| && 0 <= i < |st.ready[q]| ==> QueuedOk(st, q, st.ready[q][i]))
    && (forall q :: 0 <= q < |st.ready| ==> InOrder(st, st.ready[q]))
  }

  ghost predicate RunsSomewhere(cpus: seq<Cpu>, t: nat) { exists i :: 0 <= i < |cpus| && cpus[i].current == t }

  ghost predicate ReadySomewhere(ready: seq<seq<nat>>, t: nat) { exists q :: 0 <= q < |ready| && t in ready[q] }

  /** Bootstrap tasks are always running or ready, one for each processor. */
  ghost predicate BootOk(st: State) {
    && |st.boot| == |st.cpus|
    && (forall b :: b in st.boot ==> RunsSomewhere(st.cpus, b) || ReadySomewhere(st.ready, b))
    && (forall p :: 0 <= p < |st.cpus| && st.cpus[p].pc.Blocking? ==> st.cpus[p].current !in st.boot)
  }

  ghost predicate LockOk(st: State, p: nat)
    requires p < |st.cpus|
  {
    match st.cpus[p].pc
    case Blocking(s) => s < |st.sems| && st.sems[s].holder == Some(p)
    case Switched(SemQueue(s), _) => s < |st.sems| && st.sems[s].holder == Some(p)
    case _ => true
  }

  /** A processor with this program counter is putting a task into the queue of semaphore s. */
  ghost predicate OnWay(pc: Pc, s: nat) {
    pc == Blocking(s) || (pc.Switched? && pc.dest == SemQueue(s))
  }

  /** Only a processor on its way into the queue of s holds the lock of s. */
  ghost predicate HolderOk(st: State, s: nat)
    requires s < |st.sems|
  {
    st.sems[s].holder.Some? ==> st.sems[s].holder.value < |st.cpus| && OnWay(st.cpus[st.sems[s].holder.value].pc, s)
  }

  /** A processor on its way into a semaphore's queue, and no other, holds that semaphore's lock, and a
      semaphore with a waiter, or with one on its way, has no quota. */
  ghost predicate SemsOk(st: State) {
    && (forall p :: 0 <= p < |st.cpus| ==> LockOk(st, p))
    && (forall s :: 0 <= s < |st.sems| ==> HolderOk(st, s))
    && (forall s :: 0 <= s < |st.sems| && (st.sems[s].holder.Some? || st.sems[s].queue != []) ==> st.sems[s].quota == 0)
  }

  ghost predicate Inv(st: State) {
    Shape(st) && OnePlaceEach(st) && ReadyOk(st) && BootOk(st) && SemsOk(st)
  }

  ghost predicate Init(st: State) {
    && |st.ready| == NUMBER_OF_PRIORITIES && (forall q :: 0 <= q < |st.ready| ==> st.ready[q] == [])
    && (forall p :: 0 <= p < |st.cpus| ==> st.cpus[p].pc == Running && st.cpus[p].current in st.boot)
    && (forall p, r :: 0 <= p < r < |st.cpus| ==> st.cpus[p].current != st.cpus[r].current)
    && (forall b :: b in st.boot ==> RunsSomewhere(st.cpus, b))
    && |st.boot| == |st.cpus|
    && st.priority == (map b | b in st.boot :: NUMBER_OF_PRIORITIES - 1)
    && (forall s :: 0 <= s < |st.sems| ==> st.sems[s].queue == [] && st.sems[s].holder.None?)
    && st.hands == multiset{} && st.ended == []
  }

  // ---------- consequences of one place each ----------

  lemma ReadyInPlaces(st: State, q: nat, i: nat)
    requires q < |st.ready| && i < |st.ready[q]|
    ensures Sum(ReadyCounts(st.ready, st.ready[q][i])) >= 1
  {
    SumAtLeast(ReadyCounts(st.ready, st.ready[q][i]), q);
  }

  /** No task runs on two processors, and a running task is neither ready, nor in transit, nor
      waiting on a semaphore, nor in hand, nor ended. */
  lemma RunningIsNowhereElse(st: State, p: nat)
    requires OnePlaceEach(st) && p < |st.cpus|
    ensures var t := st.cpus[p].current;
            && (forall r :: 0 <= r < |st.cpus| && r != p ==> st.cpus[r].current != t)
            && (forall r :: 0 <= r < |st.cpus| && st.cpus[r].pc.Switched? ==> st.cpus[r].pc.left != t)
            && (forall q :: 0 <= q < |st.ready| ==> t !in st.ready[q])
            && (forall s :: 0 <= s < |st.sems| ==> t !in st.sems[s].queue)
            && t !in st.hands && t !in st.ended && t in st.priority
  {
    var t := st.cpus[p].current;
    var counts := CpuCounts(st.cpus, t);
    SumAtLeast(counts, p);
    assert Places(st, t) == One(t in st.priority);
    forall r | 0 <= r < |st.cpus| && r != p
      ensures st.cpus[r].current != t && (st.cpus[r].pc.Switched? ==> st.cpus[r].pc.left != t)
    {
      if r < p { SumAtLeastTwo(counts, r, p); } else { SumAtLeastTwo(counts, p, r); }
    }
    forall q | 0 <= q < |st.ready| ensures t !in st.ready[q] { SumAtLeast(ReadyCounts(st.ready, t), q); }
    forall s | 0 <= s < |st.sems| ensures t !in st.sems[s].queue { SumAtLeast(SemCounts(st.sems, t), s); }
  }

  /** t waits in no queue. */
  ghost predicate Unqueued(st: State, t: nat) {
    && (forall q :: 0 <= q < |st.ready| ==> t !in st.ready[q])
    && (forall s :: 0 <= s < |st.sems| ==> t !in st.sems[s].queue)
    && t !in st.ended
  }

  /** A task in somebody's hand is in no queue. */
  lemma HandUnqueued(st: State, t: nat)
    requires OnePlaceEach(st) && t in st.hands
    ensures t in st.priority && Unqueued(st, t)
  {
    assert Places(st, t) == One(t in st.priority);
    forall q | 0 <= q < |st.ready| ensures t !in st.ready[q] { SumAtLeast(ReadyCounts(st.ready, t), q); }
    forall s | 0 <= s < |st.sems| ensures t !in st.sems[s].queue { SumAtLeast(SemCounts(st.sems, t), s); }
  }

  /** Neither is a task that a processor has just left. */
  lemma LeftUnqueued(st: State, p: nat)
    requires OnePlaceEach(st) && p < |st.cpus| && st.cpus[p].pc.Switched?
    ensures st.cpus[p].pc.left in st.priority && Unqueued(st, st.cpus[p].pc.left)
  {
    var t := st.cpus[p].pc.left;
    SumAtLeast(CpuCounts(st.cpus, t), p);
    assert Places(st, t) == One(t in st.priority);
    forall q | 0 <= q < |st.ready| ensures t !in st.ready[q] { SumAtLeast(ReadyCounts(st.ready, t), q); }
    forall s | 0 <= s < |st.sems| ensures t !in st.sems[s].queue { SumAtLeast(SemCounts(st.sems, t), s); }
  }

  // ---------- steps keep the ready queues in order ----------

  lemma PushKeepsReady(st: State, t: nat)
    requires Shape(st) && ReadyOk(st) && Known(st, t) && forall q :: 0 <= q < |st.ready| ==> t !in st.ready[q]
    ensures Shape(PushReady(st, t)) && ReadyOk(PushReady(st, t)) && HasReady(PushReady(st, t).ready)
  {
    var r, q0 := PushReady(st, t), st.priority[t];
    assert r.ready[q0][|st.ready[q0]|] == t;
    forall q, i | 0 <= q < |r.ready| && 0 <= i < |r.ready[q]| ensures QueuedOk(r, q, r.ready[q][i]) {
      if i < |st.ready[q]| { assert QueuedOk(st, q, st.ready[q][i]) && st.ready[q][i] in st.ready[q]; }
    }
    forall q | 0 <= q < |r.ready| ensures InOrder(r, r.ready[q]) { PushInOrder(st, t, q); }
  }

  lemma PushInOrder(st: State, t: nat, q: nat)
    requires Shape(st) && ReadyOk(st) && Known(st, t) && q < |st.ready| && t !in st.ready[q]
    ensures InOrder(PushReady(st, t), PushReady(st, t).ready[q])
  {
    var r := PushReady(st, t);
    var l := st.ready[q];
    assert InOrder(st, l);
    forall i | 0 <= i < |l| ensures l[i] in r.stamp && r.stamp[l[i]] == st.stamp[l[i]] < st.clock {
      assert QueuedOk(st, q, l[i]) && l[i] in l;
    }
  }

  lemma DispatchKeepsReady(st: State, p: nat, pc: Pc)
    requires Shape(st) && ReadyOk(st) && HasReady(st.ready) && p < |st.cpus|
    ensures Shape(Dispatch(st, p, pc)) && ReadyOk(Dispatch(st, p, pc))
  {
    var d, b := Dispatch(st, p, pc), Best(st.ready, 0);
    forall q, i | 0 <= q < |d.ready| && 0 <= i < |d.ready[q]| ensures QueuedOk(d, q, d.ready[q][i]) {
      assert QueuedOk(st, q, st.ready[q][if q == b then i + 1 else i]);
    }
    forall q | 0 <= q < |d.ready| ensures InOrder(d, d.ready[q]) { assert InOrder(st, st.ready[q]); }
  }

  /** What is started is a best one: no ready task has a better priority, and none of the
      same priority became ready earlier. */
  lemma DispatchIsBest(st: State, p: nat, pc: Pc, q: nat, i: nat)
    requires Shape(st) && ReadyOk(st) && HasReady(st.ready) && p < |st.cpus|
    requires q < |st.ready| && i < |st.ready[q]|
    ensures var t, u := Dispatch(st, p, pc).cpus[p].current, st.ready[q][i];
            && t in st.priority && u in st.priority && t in st.stamp && u in st.stamp
            && (st.priority[t] < st.priority[u] ||
                (st.priority[t] == st.priority[u] && st.stamp[t] <= st.stamp[u]))
  {
    var b := Best(st.ready, 0);
    assert QueuedOk(st, b, st.ready[b][0]) && QueuedOk(st, q, st.ready[q][i]);
    assert InOrder(st, st.ready[q]);
  }

  // ---------- there is always something to switch to ----------

  /** Tasks running on the first k processors, p excepted. */
  ghost function Others(cpus: seq<Cpu>, p: nat, k: nat): set<nat>
    requires k <= |cpus|
  {
    if k == 0 then {} else Others(cpus, p, k - 1) + if k - 1 == p then {} else {cpus[k - 1].current}
  }

  lemma {:induction false} OthersSize(cpus: seq<Cpu>, p: nat, k: nat)
    requires k <= |cpus|
    ensures |Others(cpus, p, k)| <= k - One(p < k)
    ensures forall i :: 0 <= i < k && i != p ==> cpus[i].current in Others(cpus, p, k)
  {
    if k > 0 { OthersSize(cpus, p, k - 1); }
  }

  /** A processor that leaves a task that is not a bootstrap task always finds a ready one: the other
      processors cannot run all bootstrap tasks between them. */
  lemma SwitchNeverStarves(st: State, p: nat)
    requires BootOk(st) && p < |st.cpus| && st.cpus[p].current !in st.boot
    ensures HasReady(st.ready)
  {
    if !HasReady(st.ready) {
      OthersSize(st.cpus, p, |st.cpus|);
      var others := Others(st.cpus, p, |st.cpus|);
      forall b | b in st.boot ensures b in others {
        assert !ReadySomewhere(st.ready, b);
        var i :| 0 <= i < |st.cpus| && st.cpus[i].current == b;
      }
      SubsetSize(st.boot, others);
    }
  }

  // ---------- steps keep the bootstrap tasks awake and the semaphores consistent ----------

  lemma PushKeepsAwake(st: State, t: nat, b: nat)
    requires Known(st, t) && (b == t || ReadySomewhere(st.ready, b))
    ensures ReadySomewhere(PushReady(st, t).ready, b)
  {
    var r, q0 := PushReady(st, t).ready, st.priority[t];
    if b == t {
      assert r[q0][|st.ready[q0]|] == b;
      assert b in r[q0];
    } else {
      var q :| 0 <= q < |st.ready| && b in st.ready[q];
      assert b in r[q];
    }
  }

  lemma DispatchKeepsAwake(st: State, p: nat, pc: Pc, b: nat)
    requires HasReady(st.ready) && p < |st.cpus|
    requires ReadySomewhere(st.ready, b) || (RunsSomewhere(st.cpus, b) && b != st.cpus[p].current)
    ensures var d := Dispatch(st, p, pc); RunsSomewhere(d.cpus, b) || ReadySomewhere(d.ready, b)
  {
    var d, q0 := Dispatch(st, p, pc), Best(st.ready, 0);
    if ReadySomewhere(st.ready, b) {
      var q :| 0 <= q < |st.ready| && b in st.ready[q];
      if q == q0 {
        assert st.ready[q] == [st.ready[q][0]] + st.ready[q][1..];
        if b == st.ready[q][0] { assert d.cpus[p].current == b; } else { assert b in d.ready[q]; }
      } else {
        assert b in d.ready[q];
      }
    } else {
      var i :| 0 <= i < |st.cpus| && st.cpus[i].current == b;
      assert d.cpus[i].current == b;
    }
  }

  lemma SamePlacesKeepBoot(st: State, st': State)
    requires BootOk(st) && st'.boot == st.boot && st'.ready == st.ready && |st'.cpus| == |st.cpus|
    requires forall i :: 0 <= i < |st.cpus| ==> st'.cpus[i].current == st.cpus[i].current
    requires forall i :: 0 <= i < |st.cpus| && st'.cpus[i].pc.Blocking? ==>
               st.cpus[i].pc.Blocking? || st.cpus[i].current !in st.boot
    ensures BootOk(st')
  {
    forall b | b in st'.boot ensures RunsSomewhere(st'.cpus, b) || ReadySomewhere(st'.ready, b) {
      if RunsSomewhere(st.cpus, b) {
        var i :| 0 <= i < |st.cpus| && st.cpus[i].current == b;
        assert st'.cpus[i].current == b;
      }
    }
  }

  lemma YieldKeepsBoot(st: State, st': State, p: nat)
    requires BootOk(st) && Next(st, st', Yield(p))
    ensures BootOk(st')
  {
    var c := st.cpus[p].current;
    var r := PushReady(st, c);
    forall b | b in st'.boot ensures RunsSomewhere(st'.cpus, b) || ReadySomewhere(st'.ready, b) {
      if b == c || ReadySomewhere(st.ready, b) { PushKeepsAwake(st, c, b); }
      DispatchKeepsAwake(r, p, Running, b);
    }
  }

  lemma LeaveKeepsBoot(st: State, p: nat, pc: Pc)
    requires BootOk(st) && p < |st.cpus| && st.cpus[p].current !in st.boot && HasReady(st.ready) && !pc.Blocking?
    ensures BootOk(Dispatch(st, p, pc))
  {
    var d := Dispatch(st, p, pc);
    forall b | b in d.boot ensures RunsSomewhere(d.cpus, b) || ReadySomewhere(d.ready, b) {
      DispatchKeepsAwake(st, p, pc, b);
    }
  }

  lemma ResumeKeepsBoot(st: State, st': State, t: nat)
    requires BootOk(st) && Next(st, st', Resume(t))
    ensures BootOk(st')
  {
    var h := st.(hands := st.hands - multiset{t});
    forall b | b in st'.boot ensures RunsSomewhere(st'.cpus, b) || ReadySomewhere(st'.ready, b) {
      if ReadySomewhere(st.ready, b) { PushKeepsAwake(h, t, b); }
    }
  }

  lemma StepKeepsBoot(st: State, st': State, step: Step)
    requires BootOk(st) && Next(st, st', step)
    ensures BootOk(st')
  {
    hide BootOk;
    match step
    case Yield(p) => YieldKeepsBoot(st, st', p);
    case SwitchAway(p) =>
      BlockingIsNotBoot(st, p);
      LeaveKeepsBoot(st, p, Switched(SemQueue(st.cpus[p].pc.sem), st.cpus[p].current));
    case End(p) => LeaveKeepsBoot(st, p, Switched(Terminated, st.cpus[p].current));
    case Resume(t) => ResumeKeepsBoot(st, st', t);
    case Acquire(p, s) => SamePlacesKeepBoot(st, st');
    case StartBlock(p, s) => SamePlacesKeepBoot(st, st');
    case Settle(p) => SamePlacesKeepBoot(st, st');
    case Release(p, s) => SamePlacesKeepBoot(st, st');
    case Create(t, prio) => SamePlacesKeepBoot(st, st');
    case Reap => SamePlacesKeepBoot(st, st');
  }

  lemma BlockingIsNotBoot(st: State, p: nat)
    requires BootOk(st) && p < |st.cpus| && st.cpus[p].pc.Blocking?
    ensures st.cpus[p].current !in st.boot
  {
  }

  lemma SettleKeepsSems(st: State, st': State, p: nat)
    requires SemsOk(st) && Next(st, st', Settle(p))
    ensures SemsOk(st')
  {
    assert LockOk(st, p);
    forall r | 0 <= r < |st'.cpus| ensures LockOk(st', r) { assert LockOk(st, r); }
    forall s | 0 <= s < |st'.sems| ensures HolderOk(st', s) { assert HolderOk(st, s); }
  }

  lemma SemStepKeepsSems(st: State, st': State, step: Step)
    requires SemsOk(st) && Next(st, st', step) && (step.Acquire? || step.StartBlock? || step.Release?)
    ensures SemsOk(st')
  {
    hide HasReady, Best, Dispatch, PushReady;
    forall r | 0 <= r < |st'.cpus| ensures LockOk(st', r) { assert LockOk(st, r); }
    forall s | 0 <= s < |st'.sems| ensures HolderOk(st', s) { assert HolderOk(st, s); }
  }

  lemma OtherKeepsSems(st: State, st': State, step: Step)
    requires SemsOk(st) && Next(st, st', step) && !step.Settle? && !step.Acquire? && !step.StartBlock? && !step.Release?
    ensures SemsOk(st')
  {
    hide HasReady, Best;
    assert st'.sems == st.sems;
    forall r | 0 <= r < |st'.cpus| ensures LockOk(st', r) { assert LockOk(st, r); }
    forall s | 0 <= s < |st'.sems| ensures HolderOk(st', s) { assert HolderOk(st, s); }
  }

  lemma StepKeepsSems(st: State, st': State, step: Step)
    requires SemsOk(st) && Next(st, st', step)
    ensures SemsOk(st')
  {
    match step
    case Settle(p) => SettleKeepsSems(st, st', p);
    case Acquire(_, _) => SemStepKeepsSems(st, st', step);
    case StartBlock(_, _) => SemStepKeepsSems(st, st', step);
    case Release(_, _) => SemStepKeepsSems(st, st', step);
    case _ => OtherKeepsSems(st, st', step);
  }

  lemma StepKeepsReady(st: State, st': State, step: Step)
    requires Inv(st) && Next(st, st', step)
    ensures Shape(st') && ReadyOk(st')
  {
    hide ReadyOk, Places, BootOk, SemsOk, HasReady, Best;
    match step
    case Yield(p) =>
      RunningIsNowhereElse(st, p);
      PushKeepsReady(st, st.cpus[p].current);
      DispatchKeepsReady(PushReady(st, st.cpus[p].current), p, Running);
    case SwitchAway(p) => DispatchKeepsReady(st, p, Switched(SemQueue(st.cpus[p].pc.sem), st.cpus[p].current));
    case End(p) => DispatchKeepsReady(st, p, Switched(Terminated, st.cpus[p].current));
    case Resume(t) =>
      HandUnqueued(st, t);
      SameReadyOk(st, st.(hands := st.hands - multiset{t}));
      PushKeepsReady(st.(hands := st.hands - multiset{t}), t);
    case Create(t, prio) => SameReadyOk(st, st');
    case Reap => ReapKeepsReady(st, st');
    case Acquire(p, s) => SameReadyOk(st, st');
    case StartBlock(p, s) => SameReadyOk(st, st');
    case Settle(p) => SameReadyOk(st, st');
    case Release(p, s) => SameReadyOk(st, st');
  }

  lemma SameReadyOk(st: State, st': State)
    requires ReadyOk(st) && st'.ready == st.ready && st'.stamp == st.stamp && st'.clock == st.clock
    requires forall q, i :: 0 <= q < |st.ready| && 0 <= i < |st.ready[q]| && st.ready[q][i] in st.priority ==>
               st.ready[q][i] in st'.priority && st'.priority[st.ready[q][i]] == st.priority[st.ready[q][i]]
    ensures ReadyOk(st')
  {
    forall q, i | 0 <= q < |st'.ready| && 0 <= i < |st'.ready[q]| ensures QueuedOk(st', q, st'.ready[q][i]) {
      assert QueuedOk(st, q, st.ready[q][i]);
    }
    forall q | 0 <= q < |st'.ready| ensures InOrder(st', st'.ready[q]) { assert InOrder(st, st.ready[q]); }
  }

  lemma ReapKeepsReady(st: State, st': State)
    requires OnePlaceEach(st) && Shape(st) && ReadyOk(st) && Next(st, st', Reap)
    ensures Shape(st') && ReadyOk(st')
  {
    var t := st.ended[0];
    assert Places(st, t) == One(t in st.priority);
    forall q, i | 0 <= q < |st.ready| && 0 <= i < |st.ready[q]| ensures st.ready[q][i] != t {
      ReadyInPlaces(st, q, i);
    }
    SameReadyOk(st, st');
  }

  /** Every step keeps the invariant. */
  lemma StepKeeps(st: State, st': State, step: Step)
    requires Inv(st) && Next(st, st', step)
    ensures Inv(st')
  {
    StepKeepsReady(st, st', step);
    hide Next, ReadyOk, Places;
    forall t ensures Places(st', t) == One(t in st'.priority) { StepPlaces(st, st', step, t); }
    StepKeepsBoot(st, st', step);
    StepKeepsSems(st, st', step);
  }

  // ---------- whole runs ----------

  ghost predicate Run(sts: seq<State>, steps: seq<Step>) {
    && |sts| == |steps| + 1 && Init(sts[0])
    && forall i :: 0 <= i < |steps| ==> Next(sts[i], sts[i + 1], steps[i])
  }

  lemma {:induction false} InitCounts(cpus: seq<Cpu>, t: nat)
    requires forall p :: 0 <= p < |cpus| ==> cpus[p].pc == Running
    requires forall p, r :: 0 <= p < r < |cpus| ==> cpus[p].current != cpus[r].current
    ensures Sum(CpuCounts(cpus, t)) == One(RunsSomewhere(cpus, t))
  {
    if cpus != [] {
      var k := |cpus| - 1;
      InitCounts(cpus[..k], t);
      assert CpuCounts(cpus, t)[..k] == CpuCounts(cpus[..k], t);
      if RunsSomewhere(cpus[..k], t) {
        var i :| 0 <= i < k && cpus[..k][i].current == t;
        assert cpus[i].current == t;
      } else {
        assert forall i :: 0 <= i < k ==> cpus[i].current != t by {
          forall i | 0 <= i < k ensures cpus[i].current != t { assert cpus[..k][i].current != t; }
        }
      }
    }
  }

  lemma InitInv(st: State)
    requires Init(st)
    ensures Inv(st)
  {
    forall t ensures Places(st, t) == One(t in st.priority) {
      InitCounts(st.cpus, t);
      SumZero(ReadyCounts(st.ready, t));
      SumZero(SemCounts(st.sems, t));
      if RunsSomewhere(st.cpus, t) {
        var i :| 0 <= i < |st.cpus| && st.cpus[i].current == t;
        assert t in st.boot;
      }
    }
  }

  lemma {:induction false} RunKeepsInv(sts: seq<State>, steps: seq<Step>, k: nat)
    requires Run(sts, steps) && k < |sts|
    ensures Inv(sts[k])
    decreases k
  {
    if k == 0 {
      InitInv(sts[0]);
    } else {
      RunKeepsInv(sts, steps, k - 1);
      StepKeeps(sts[k - 1], sts[k], steps[k - 1]);
    }
  }

  // ---------- nothing is stuck ----------

  /** What a processor does next of its own accord. */
  ghost function OwnStep(st: State, p: nat): Step
    requires p < |st.cpus|
  {
    match st.cpus[p].pc
    case Running => Yield(p)
    case Blocking(_) => SwitchAway(p)
    case Switched(_, _) => Settle(p)
  }

  /** Every processor can always take a step of its own. */
  lemma NeverStuck(st: State, p: nat) returns (st': State)
    requires Inv(st) && p < |st.cpus|
    ensures Next(st, st', OwnStep(st, p))
    ensures st.cpus[p].pc.Blocking? ==> st'.cpus[p].pc == Switched(SemQueue(st.cpus[p].pc.sem), st.cpus[p].current)
    ensures st.cpus[p].pc.Switched? ==> st'.cpus[p].pc.Running?
  {
    var c := st.cpus[p];
    assert LockOk(st, p);
    match c.pc
    case Running =>
      RunningIsNowhereElse(st, p);
      PushKeepsReady(st, c.current);
      st' := Dispatch(PushReady(st, c.current), p, Running);
    case Blocking(s) =>
      BlockingIsNotBoot(st, p);
      SwitchNeverStarves(st, p);
      st' := Dispatch(st, p, Switched(SemQueue(s), c.current));
    case Switched(dest, left) =>
      var cpus := st.cpus[p := c.(pc := Running)];
      st' := match dest
        case Terminated => st.(ended := st.ended + [left], cpus := cpus)
        case SemQueue(s) => st.(sems := st.sems[s := st.sems[s].(queue := st.sems[s].queue + [left], holder := None)], cpus := cpus);
  }

  /** A semaphore's lock is free if and only if nobody is on the way into its queue. */
  lemma LockFreeIff(st: State, s: nat)
    requires SemsOk(st) && s < |st.sems|
    ensures st.sems[s].holder.None? <==> forall p :: 0 <= p < |st.cpus| ==> !OnWay(st.cpus[p].pc, s)
  {
    assert HolderOk(st, s);
    forall p | 0 <= p < |st.cpus| && OnWay(st.cpus[p].pc, s) ensures st.sems[s].holder.Some? { assert LockOk(st, p); }
  }

  /** Whoever is on the way into a semaphore's queue lets its lock go by at most two steps of its own, and then waits there. */
  lemma LockIsLetGo(st: State, p: nat, s: nat) returns (st1: State, st2: State)
    requires Inv(st) && p < |st.cpus| && s < |st.sems| && OnWay(st.cpus[p].pc, s)
    ensures st1 == st || Next(st, st1, SwitchAway(p))
    ensures Next(st1, st2, Settle(p)) && s < |st2.sems| && st2.sems[s].holder.None?
    ensures var t := if st.cpus[p].pc.Blocking? then st.cpus[p].current else st.cpus[p].pc.left;
            t in st2.sems[s].queue
  {
    st1 := st;
    if st.cpus[p].pc.Blocking? {
      st1 := NeverStuck(st, p);
      StepKeeps(st, st1, SwitchAway(p));
    }
    st2 := NeverStuck(st1, p);
    StepKeeps(st1, st2, Settle(p));
    SettledIntoQueue(st1, st2, p, s);
    assert HolderOk(st2, s);
  }

  lemma SettledIntoQueue(st: State, st': State, p: nat, s: nat)
    requires SemsOk(st) && Next(st, st', Settle(p)) && s < |st.sems| && p < |st.cpus| && OnWay(st.cpus[p].pc, s)
    ensures s < |st'.sems| && st'.sems[s].queue == st.sems[s].queue + [st.cpus[p].pc.left] && st'.cpus[p].pc.Running?
    ensures st'.sems[s].holder.None?
  {
  }

  lemma SettledIs(st: State, st': State, p: nat)
    requires Inv(st) && Next(st, st', Settle(p))
    ensures p < |st'.cpus| == |st.cpus| && st'.cpus[p].pc.Running?
    ensures forall s: nat :: s < |st.sems| && OnWay(st.cpus[p].pc, s) ==>
              s < |st'.sems| && st'.sems[s].holder.None? && st'.sems[s].queue == st.sems[s].queue + [st.cpus[p].pc.left]
  {
    forall s: nat | s < |st.sems| && OnWay(st.cpus[p].pc, s)
      ensures s < |st'.sems| && st'.sems[s].holder.None? && st'.sems[s].queue == st.sems[s].queue + [st.cpus[p].pc.left]
    {
      SettledIntoQueue(st, st', p, s);
    }
  }

  /** A semaphore nobody is on the way into can be released by every running processor: its longest waiter is then in hand,
      ready to be resumed, or the quota rises. */
  lemma CanRelease(st: State, p: nat, s: nat) returns (st': State)
    requires Inv(st) && p < |st.cpus| && st.cpus[p].pc.Running? && s < |st.sems|
    requires forall r :: 0 <= r < |st.cpus| ==> !OnWay(st.cpus[r].pc, s)
    ensures Next(st, st', Release(p, s)) && Inv(st')
    ensures if st.sems[s].queue == [] then st'.sems[s].quota == st.sems[s].quota + 1
            else st.sems[s].queue[0] in st'.hands && st'.sems[s].queue == st.sems[s].queue[1..]
  {
    LockFreeIff(st, s);
    var m := st.sems[s];
    st' := if m.queue == [] then st.(sems := st.sems[s := m.(quota := m.quota + 1)])
           else st.(sems := st.sems[s := m.(queue := m.queue[1..])], hands := st.hands + multiset{m.queue[0]});
    assert Next(st, st', Release(p, s));
    StepKeeps(st, st', Release(p, s));
  }

  /** A task in hand can become ready. */
  lemma CanResume(st: State, t: nat) returns (st': State)
    requires Inv(st) && t in st.hands
    ensures Next(st, st', Resume(t)) && ReadySomewhere(st'.ready, t)
  {
    HandUnqueued(st, t);
    var h := st.(hands := st.hands - multiset{t});
    st' := PushReady(h, t);
    PushKeepsAwake(h, t, t);
  }

  /** In every run, at every moment: each existing task is in exactly one place and nothing
      else is anywhere; a processor about to leave a task finds a ready one; and a semaphore
      somebody waits for has no quota left. */
  lemma SchedulerSafety(sts: seq<State>, steps: seq<Step>, k: nat)
    requires Run(sts, steps) && k < |sts|
    ensures forall t :: Places(sts[k], t) == One(t in sts[k].priority)
    ensures forall p :: 0 <= p < |sts[k].cpus| && (sts[k].cpus[p].pc.Blocking? || sts[k].cpus[p].current !in sts[k].boot)
              ==> HasReady(sts[k].ready)
    ensures forall s :: 0 <= s < |sts[k].sems| && sts[k].sems[s].queue != [] ==> sts[k].sems[s].quota == 0
    ensures forall s :: 0 <= s < |sts[k].sems| ==>
              (sts[k].sems[s].holder.None? <==> forall p :: 0 <= p < |sts[k].cpus| ==> !OnWay(sts[k].cpus[p].pc, s))
  {
    RunKeepsInv(sts, steps, k);
    var st := sts[k];
    forall s | 0 <= s < |st.sems|
      ensures st.sems[s].holder.None? <==> forall p :: 0 <= p < |st.cpus| ==> !OnWay(st.cpus[p].pc, s)
    {
      LockFreeIff(st, s);
    }
    forall p | 0 <= p < |st.cpus| && (st.cpus[p].pc.Blocking? || st.cpus[p].current !in st.boot)
      ensures HasReady(st.ready)
    {
      SwitchNeverStarves(st, p);
    }
  }
}
