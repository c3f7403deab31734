/** The ring queues under the scheduler: every region that relinks them is a step of the run. */
module SchedulerObject {
  import opened Common
  import opened TaskQueues
  import opened Scheduler

  // ---------- tasks and their numbers ----------

  ghost predicate IsTask(known: map<nat, Task>, t: Task, id: nat) { id in known && known[id] == t && t.id == id }

  /** The tasks of a queue are those with the numbers ids, in order. */
  ghost predicate Tracks(known: map<nat, Task>, ts: seq<Task>, ids: seq<nat>) {
    |ts| == |ids| && forall i :: 0 <= i < |ids| ==> IsTask(known, ts[i], ids[i])
  }

  lemma TrackedIs(known: map<nat, Task>, ts: seq<Task>, ids: seq<nat>, t: Task)
    requires Tracks(known, ts, ids) && t in ts
    ensures t.id in ids && IsTask(known, t, t.id)
  {
    var i :| 0 <= i < |ts| && ts[i] == t;
    assert IsTask(known, ts[i], ids[i]);
  }

  lemma TracksPush(known: map<nat, Task>, ts: seq<Task>, ids: seq<nat>, t: Task)
    requires Tracks(known, ts, ids) && IsTask(known, t, t.id)
    ensures Tracks(known, ts + [t], ids + [t.id])
  {
  }

  lemma TracksPop(known: map<nat, Task>, t: Task, ts: seq<Task>, ids: seq<nat>)
    requires Tracks(known, [t] + ts, ids)
    ensures ids != [] && IsTask(known, t, ids[0]) && Tracks(known, ts, ids[1..])
  {
    assert IsTask(known, ([t] + ts)[0], ids[0]);
    forall i | 0 <= i < |ids[1..]| ensures IsTask(known, ts[i], ids[1..][i]) { assert IsTask(known, ([t] + ts)[i + 1], ids[i + 1]); }
  }

  /** The numbers in the i-th waiting queue: the semaphores', then the ended tasks. */
  ghost function WaitIds(st: State, i: nat): seq<nat>
    requires i <= |st.sems|
  {
    if i < |st.sems| then st.sems[i].queue else st.ended
  }

  /** No task is in two queues. */
  ghost predicate Apart(st: State) {
    && (forall q, i, t :: 0 <= q < |st.ready| && 0 <= i <= |st.sems| && t in st.ready[q] ==> t !in WaitIds(st, i))
    && (forall i, j, t :: 0 <= i < j <= |st.sems| && t in WaitIds(st, i) ==> t !in WaitIds(st, j))
  }

  /** The run with one more step. */
  lemma RunMore(sts: seq<State>, steps: seq<Step>, t: State, step: Step)
    requires Run(sts, steps) && Next(sts[|sts| - 1], t, step)
    ensures Run(sts + [t], steps + [step])
  {
    hide Next, Init;
    var sts1, steps1 := sts + [t], steps + [step];
    forall i | 0 <= i < |steps1| ensures Next(sts1[i], sts1[i + 1], steps1[i]) {
      if i < |steps| { assert sts1[i] == sts[i] && sts1[i + 1] == sts[i + 1]; }
    }
  }

  /** The queues hold what the state says: rt and wt are the contents of the rings, tasks those that are ready. */
  ghost predicate Hold(known: map<nat, Task>, rt: seq<seq<Task>>, wt: seq<seq<Task>>, tasks: set<Task>, st: State) {
    && |wt| == |st.sems| + 1 && |rt| == |st.ready| && Apart(st)
    && (forall id :: id in known ==> known[id].id == id)
    && (forall id :: id in st.priority ==> id in known && known[id].priority == st.priority[id])
    && (forall t :: t in tasks ==> IsTask(known, t, t.id) && ReadySomewhere(st.ready, t.id))
    && (forall q :: 0 <= q < |rt| ==> Tracks(known, rt[q], st.ready[q]))
    && (forall i :: 0 <= i < |wt| ==> Tracks(known, wt[i], WaitIds(st, i)))
  }

  /** No task is linked into two rings. */
  lemma RingsApart(known: map<nat, Task>, rt: seq<seq<Task>>, wt: seq<seq<Task>>, tasks: set<Task>, st: State)
    requires Hold(known, rt, wt, tasks, st)
    ensures forall i, t :: 0 <= i < |wt| && t in wt[i] ==> t !in tasks
    ensures forall i, j, t :: 0 <= i < j < |wt| && t in wt[i] ==> t !in wt[j]
    ensures forall i, t :: 0 <= i < |wt| && t in wt[i] ==> t.id in known && known[t.id] == t
    ensures forall t :: t in tasks ==> t.id in known && known[t.id] == t
  {
    forall i, t | 0 <= i < |wt| && t in wt[i] ensures t !in tasks && t.id in known && known[t.id] == t {
      TrackedIs(known, wt[i], WaitIds(st, i), t);
      NotReady(st, i, t.id);
    }
    forall i, j, t | 0 <= i < j < |wt| && t in wt[i] ensures t !in wt[j] {
      TrackedIs(known, wt[i], WaitIds(st, i), t);
      TracksOut(known, wt[j], WaitIds(st, j), t);
    }
  }

  lemma NotReady(st: State, i: nat, t: nat)
    requires Apart(st) && i <= |st.sems| && t in WaitIds(st, i)
    ensures !ReadySomewhere(st.ready, t)
  {
  }

  lemma TracksOut(known: map<nat, Task>, ts: seq<Task>, ids: seq<nat>, t: Task)
    requires Tracks(known, ts, ids) && t.id !in ids
    ensures t !in ts
  {
    forall i | 0 <= i < |ts| ensures ts[i] != t { assert IsTask(known, ts[i], ids[i]); }
  }

  lemma HoldSizes(known: map<nat, Task>, rt: seq<seq<Task>>, wt: seq<seq<Task>>, tasks: set<Task>, st: State)
    requires Hold(known, rt, wt, tasks, st)
    ensures |wt| == |st.sems| + 1 && |rt| == |st.ready|
  {
  }

  lemma HoldWaits(known: map<nat, Task>, rt: seq<seq<Task>>, wt: seq<seq<Task>>, tasks: set<Task>, st: State, i: nat)
    requires Hold(known, rt, wt, tasks, st) && i < |wt|
    ensures i <= |st.sems| && Tracks(known, wt[i], WaitIds(st, i))
  {
  }

  lemma SomeReady(known: map<nat, Task>, rt: seq<seq<Task>>, wt: seq<seq<Task>>, tasks: set<Task>, st: State)
    requires Hold(known, rt, wt, tasks, st) && HasReady(st.ready)
    ensures |rt| == |st.ready| && exists q :: 0 <= q < |rt| && rt[q] != []
  {
    var q :| 0 <= q < |st.ready| && st.ready[q] != [];
    assert Tracks(known, rt[q], st.ready[q]);
  }

  /** A task in no queue of the state is in no ring. */
  lemma UnqueuedOut(known: map<nat, Task>, rt: seq<seq<Task>>, wt: seq<seq<Task>>, tasks: set<Task>, st: State, t: Task)
    requires Hold(known, rt, wt, tasks, st) && Unqueued(st, t.id)
    ensures t !in tasks && forall i :: 0 <= i < |wt| ==> t !in wt[i]
  {
    assert !ReadySomewhere(st.ready, t.id);
    forall i | 0 <= i < |wt| ensures t !in wt[i] { TracksOut(known, wt[i], WaitIds(st, i), t); }
  }

  /** ... after a push into the ready queues. */
  lemma PushHolds(known: map<nat, Task>, rt: seq<seq<Task>>, wt: seq<seq<Task>>, tasks: set<Task>, st: State, t: Task, rt': seq<seq<Task>>)
    requires Hold(known, rt, wt, tasks, st) && IsTask(known, t, t.id) && Known(st, t.id) && Unqueued(st, t.id)
    requires |rt'| == |rt| && forall q :: 0 <= q < |rt| ==> rt'[q] == rt[q] + if q == t.priority then [t] else []
    ensures Hold(known, rt', wt, tasks + {t}, PushReady(st, t.id))
  {
    hide Tracks, Apart;
    var st' := PushReady(st, t.id);
    PushApart(st, t.id);
    forall q | 0 <= q < |rt'| ensures Tracks(known, rt'[q], st'.ready[q]) {
      if q == t.priority { TracksPush(known, rt[q], st.ready[q], t); } else { assert rt'[q] == rt[q]; }
    }
    forall i | 0 <= i < |wt| ensures Tracks(known, wt[i], WaitIds(st', i)) { assert WaitIds(st', i) == WaitIds(st, i); }
    forall x | x in tasks + {t} ensures ReadySomewhere(st'.ready, x.id) {
      if x == t {
        assert st'.ready[t.priority][|st.ready[t.priority]|] == t.id;
      } else {
        var q :| 0 <= q < |st.ready| && x.id in st.ready[q];
        assert x.id in st'.ready[q];
      }
    }
  }

  lemma PushApart(st: State, t: nat)
    requires Apart(st) && Known(st, t) && Unqueued(st, t)
    ensures Apart(PushReady(st, t))
  {
    var st' := PushReady(st, t);
    forall i | 0 <= i <= |st.sems| ensures WaitIds(st', i) == WaitIds(st, i) && t !in WaitIds(st, i) { }
    forall q, i, x | 0 <= q < |st'.ready| && 0 <= i <= |st'.sems| && x in st'.ready[q] ensures x !in WaitIds(st', i) {
      assert x == t || x in st.ready[q];
    }
  }

  ghost function Popped(st: State): State
    requires HasReady(st.ready)
  {
    var q := Best(st.ready, 0);
    st.(ready := st.ready[q := st.ready[q][1..]])
  }

  /** ... after a pop: what comes out is the oldest of the best priority. */
  lemma PopHolds(known: map<nat, Task>, rt: seq<seq<Task>>, wt: seq<seq<Task>>, tasks: set<Task>, st: State, t: Task, rt': seq<seq<Task>>)
    requires Hold(known, rt, wt, tasks, st) && HasReady(st.ready) && t.priority < |rt| == |rt'|
    requires forall q :: 0 <= q < t.priority ==> rt[q] == []
    requires forall q :: 0 <= q < |rt| ==> rt[q] == (if q == t.priority then [t] else []) + rt'[q]
    ensures Best(st.ready, 0) == t.priority && IsTask(known, t, st.ready[t.priority][0])
    ensures Hold(known, rt', wt, tasks - {t}, Popped(st))
  {
    hide Apart;
    var p, st' := t.priority, Popped(st);
    assert Tracks(known, rt[p], st.ready[p]);
    TracksPop(known, t, rt'[p], st.ready[p]);
    forall q | 0 <= q < p ensures st.ready[q] == [] { assert Tracks(known, rt[q], st.ready[q]); }
    PopApart(st);
    forall q | 0 <= q < |rt'| ensures Tracks(known, rt'[q], st'.ready[q]) {
      assert Tracks(known, rt[q], st.ready[q]);
      if q != p { assert rt[q] == rt'[q]; }
    }
    forall i | 0 <= i < |wt| ensures Tracks(known, wt[i], WaitIds(st', i)) { assert WaitIds(st', i) == WaitIds(st, i); }
    forall x | x in tasks - {t} ensures ReadySomewhere(st'.ready, x.id) { PopKeepsReady(st, x.id); }
  }

  lemma PopApart(st: State)
    requires Apart(st) && HasReady(st.ready)
    ensures Apart(Popped(st))
  {
    var st' := Popped(st);
    forall i | 0 <= i <= |st.sems| ensures WaitIds(st', i) == WaitIds(st, i) { }
    forall q, i, x | 0 <= q < |st'.ready| && 0 <= i <= |st'.sems| && x in st'.ready[q] ensures x !in WaitIds(st', i) {
      assert x in st.ready[q];
    }
  }

  lemma PopKeepsReady(st: State, x: nat)
    requires HasReady(st.ready) && ReadySomewhere(st.ready, x) && x != st.ready[Best(st.ready, 0)][0]
    ensures ReadySomewhere(Popped(st).ready, x)
  {
    var b := Best(st.ready, 0);
    var q :| 0 <= q < |st.ready| && x in st.ready[q];
    assert st.ready[b] == [st.ready[b][0]] + st.ready[b][1..];
    assert x in Popped(st).ready[q];
  }

  // ---------- the waiting queues ----------

  ghost function WithWait(st: State, i: nat, ids: seq<nat>): State
    requires i <= |st.sems|
  {
    if i < |st.sems| then st.(sems := st.sems[i := st.sems[i].(queue := ids)]) else st.(ended := ids)
  }

  lemma WaitHolds(known: map<nat, Task>, rt: seq<seq<Task>>, wt: seq<seq<Task>>, tasks: set<Task>, st: State, i: nat, t: Task)
    requires Hold(known, rt, wt, tasks, st) && IsTask(known, t, t.id) && Unqueued(st, t.id) && i < |wt|
    ensures Hold(known, rt, wt[i := wt[i] + [t]], tasks, WithWait(st, i, WaitIds(st, i) + [t.id]))
  {
    hide Tracks, Apart;
    var wt', st' := wt[i := wt[i] + [t]], WithWait(st, i, WaitIds(st, i) + [t.id]);
    TracksPush(known, wt[i], WaitIds(st, i), t);
    forall j | 0 <= j < |wt'| ensures Tracks(known, wt'[j], WaitIds(st', j)) {
      if j != i { assert wt'[j] == wt[j] && WaitIds(st', j) == WaitIds(st, j); }
    }
    WaitApart(st, i, t.id);
  }

  lemma WaitApart(st: State, i: nat, t: nat)
    requires Apart(st) && Unqueued(st, t) && i <= |st.sems|
    ensures Apart(WithWait(st, i, WaitIds(st, i) + [t]))
  {
    var st' := WithWait(st, i, WaitIds(st, i) + [t]);
    forall j, x | 0 <= j <= |st.sems| && x in WaitIds(st', j) ensures x in WaitIds(st, j) || (j == i && x == t) { }
    assert forall j :: 0 <= j <= |st.sems| ==> t !in WaitIds(st, j);
    forall q, j, x | 0 <= q < |st'.ready| && 0 <= j <= |st'.sems| && x in st'.ready[q] ensures x !in WaitIds(st', j) {
      assert x !in WaitIds(st, j);
    }
    forall j, k, x | 0 <= j < k <= |st'.sems| && x in WaitIds(st', j) ensures x !in WaitIds(st', k) {
      assert x in WaitIds(st, j) ==> x !in WaitIds(st, k);
    }
  }

  lemma WakeHolds(known: map<nat, Task>, rt: seq<seq<Task>>, wt: seq<seq<Task>>, tasks: set<Task>, st: State, i: nat, t: Task, ts: seq<Task>)
    requires Hold(known, rt, wt, tasks, st) && i < |wt| && wt[i] == [t] + ts
    ensures WaitIds(st, i) != [] && IsTask(known, t, WaitIds(st, i)[0])
    ensures Hold(known, rt, wt[i := ts], tasks, WithWait(st, i, WaitIds(st, i)[1..]))
  {
    hide Tracks, Apart;
    TracksPop(known, t, ts, WaitIds(st, i));
    var wt', st' := wt[i := ts], WithWait(st, i, WaitIds(st, i)[1..]);
    forall j | 0 <= j < |wt'| ensures Tracks(known, wt'[j], WaitIds(st', j)) {
      if j != i { assert wt'[j] == wt[j] && WaitIds(st', j) == WaitIds(st, j); }
    }
    WakeApart(st, i);
  }

  lemma WakeApart(st: State, i: nat)
    requires Apart(st) && i <= |st.sems| && WaitIds(st, i) != []
    ensures Apart(WithWait(st, i, WaitIds(st, i)[1..]))
  {
    var st' := WithWait(st, i, WaitIds(st, i)[1..]);
    forall j, x | 0 <= j <= |st.sems| && x in WaitIds(st', j) ensures x in WaitIds(st, j) { }
    forall q, j, x | 0 <= q < |st'.ready| && 0 <= j <= |st'.sems| && x in st'.ready[q] ensures x !in WaitIds(st', j) {
      assert x !in WaitIds(st, j);
    }
    forall j, k, x | 0 <= j < k <= |st'.sems| && x in WaitIds(st', j) ensures x !in WaitIds(st', k) {
      assert x !in WaitIds(st, k);
    }
  }

  ghost predicate SameQueues(st: State, st': State) {
    && st'.ready == st.ready && |st'.sems| == |st.sems| && st'.ended == st.ended
    && (forall i :: 0 <= i < |st.sems| ==> st'.sems[i].queue == st.sems[i].queue)
    && (forall id :: id in st'.priority ==> id in st.priority && st'.priority[id] == st.priority[id])
  }

  lemma SameHolds(known: map<nat, Task>, rt: seq<seq<Task>>, wt: seq<seq<Task>>, tasks: set<Task>, st: State, st': State)
    requires Hold(known, rt, wt, tasks, st) && SameQueues(st, st')
    ensures Hold(known, rt, wt, tasks, st')
  {
    hide Tracks;
    assert forall i :: 0 <= i <= |st.sems| ==> WaitIds(st', i) == WaitIds(st, i);
  }

  /** A newly created task is known and in no queue. */
  lemma CreateHolds(known: map<nat, Task>, rt: seq<seq<Task>>, wt: seq<seq<Task>>, tasks: set<Task>, st: State, t: Task, st': State)
    requires Hold(known, rt, wt, tasks, st) && t.id !in known
    requires st' == st.(hands := st.hands + multiset{t.id}, priority := st.priority[t.id := t.priority])
    ensures Hold(known[t.id := t], rt, wt, tasks, st')
  {
    var known' := known[t.id := t];
    assert forall i :: 0 <= i <= |st.sems| ==> WaitIds(st', i) == WaitIds(st, i);
    forall q | 0 <= q < |rt| ensures Tracks(known', rt[q], st'.ready[q]) { MoreKnown(known, rt[q], st.ready[q], t); }
    forall i | 0 <= i < |wt| ensures Tracks(known', wt[i], WaitIds(st', i)) { MoreKnown(known, wt[i], WaitIds(st, i), t); }
  }

  lemma MoreKnown(known: map<nat, Task>, ts: seq<Task>, ids: seq<nat>, t: Task)
    requires Tracks(known, ts, ids) && t.id !in known
    ensures Tracks(known[t.id := t], ts, ids)
  {
    forall i | 0 <= i < |ids| ensures IsTask(known[t.id := t], ts[i], ids[i]) { assert IsTask(known, ts[i], ids[i]); }
  }

  // ---------- the processors ----------

  /** What a processor still has to do after a switch: link what it left into a waiting queue. */
  datatype After = Nothing | PutAway(task: Task, queue: nat)

  ghost function QueueOf(st: State, dest: Dest): nat { if dest.SemQueue? then dest.sem else |st.sems| }

  /** Each processor runs what the state says, and remembers what it has just left until that is put away. */
  ghost predicate Processors(known: map<nat, Task>, current: seq<Task>, after: seq<After>, quota: seq<nat>, st: State) {
    && |current| == |after| == |st.cpus| && |quota| == |st.sems|
    && (forall p :: 0 <= p < |current| ==> IsTask(known, current[p], st.cpus[p].current))
    && (forall p :: 0 <= p < |current| ==>
          if st.cpus[p].pc.Switched?
          then after[p].PutAway? && IsTask(known, after[p].task, st.cpus[p].pc.left) && after[p].queue == QueueOf(st, st.cpus[p].pc.dest)
          else after[p].Nothing?)
    && (forall s :: 0 <= s < |quota| ==> quota[s] == st.sems[s].quota)
  }

  lemma ProcessorSizes(known: map<nat, Task>, current: seq<Task>, after: seq<After>, quota: seq<nat>, st: State)
    requires Processors(known, current, after, quota, st)
    ensures |current| == |after| == |st.cpus| && |quota| == |st.sems|
  {
  }

  lemma SameProcessors(known: map<nat, Task>, current: seq<Task>, after: seq<After>, quota: seq<nat>, st: State, st': State)
    requires Processors(known, current, after, quota, st) && st'.cpus == st.cpus && st'.sems == st.sems
    ensures Processors(known, current, after, quota, st')
  {
  }

  /** Processor p starts t; what it ran is remembered when it still has to be put away. */
  lemma ProcessorsDispatch(known: map<nat, Task>, current: seq<Task>, after: seq<After>, quota: seq<nat>, st: State,
                           p: nat, pc: Pc, t: Task, next: After)
    requires Processors(known, current, after, quota, st) && p < |st.cpus| && !st.cpus[p].pc.Switched? && HasReady(st.ready)
    requires IsTask(known, t, st.ready[Best(st.ready, 0)][0]) && (pc.Switched? ==> pc.left == st.cpus[p].current)
    requires next == if pc.Switched? then PutAway(current[p], QueueOf(st, pc.dest)) else Nothing
    ensures Processors(known, current[p := t], after[p := next], quota, Dispatch(st, p, pc))
  {
    hide HasReady, Best;
  }

  lemma RunningAlone(st: State, p: nat)
    requires Inv(st) && p < |st.cpus|
    ensures Unqueued(st, st.cpus[p].current) && Known(st, st.cpus[p].current) && st.priority[st.cpus[p].current] < NUMBER_OF_PRIORITIES
    ensures forall r :: 0 <= r < |st.cpus| && r != p ==> st.cpus[r].current != st.cpus[p].current
  {
    RunningIsNowhereElse(st, p);
  }

  lemma PushedIsReady(st: State, t: nat)
    requires Known(st, t)
    ensures HasReady(PushReady(st, t).ready) && PushReady(st, t).cpus == st.cpus && PushReady(st, t).sems == st.sems
  {
    assert PushReady(st, t).ready[st.priority[t]] != [];
  }

  lemma DispatchQueues(st: State, p: nat, pc: Pc)
    requires HasReady(st.ready) && p < |st.cpus|
    ensures SameQueues(Popped(st), Dispatch(st, p, pc))
  {
  }

  lemma IsYield(st: State, p: nat)
    requires p < |st.cpus| && st.cpus[p].pc.Running? && Known(st, st.cpus[p].current)
    requires HasReady(PushReady(st, st.cpus[p].current).ready)
    ensures p < |PushReady(st, st.cpus[p].current).cpus|
    ensures Next(st, Dispatch(PushReady(st, st.cpus[p].current), p, Running), Yield(p))
  {
  }

  /** The two ways to leave a task for good or until somebody wakes it. */
  ghost predicate Leaves(st: State, p: nat, dest: Dest, step: Step)
    requires p < |st.cpus|
  {
    match dest
    case SemQueue(s) => st.cpus[p].pc == Blocking(s) && step == SwitchAway(p)
    case Terminated => st.cpus[p].pc.Running? && st.cpus[p].current !in st.boot && step == End(p)
  }

  lemma IsLeave(st: State, p: nat, dest: Dest, step: Step)
    requires Inv(st) && p < |st.cpus| && Leaves(st, p, dest, step)
    ensures HasReady(st.ready) && !st.cpus[p].pc.Switched?
    ensures Next(st, Dispatch(st, p, Switched(dest, st.cpus[p].current)), step)
  {
    hide Shape, OnePlaceEach, ReadyOk, SemsOk;
    if dest.SemQueue? { BlockingIsNotBoot(st, p); }
    SwitchNeverStarves(st, p);
  }

  ghost function Settled(st: State, p: nat): State
    requires Inv(st) && p < |st.cpus| && st.cpus[p].pc.Switched?
  {
    var c := st.cpus[p];
    var cpus := st.cpus[p := c.(pc := Running)];
    match c.pc.dest
    case Terminated => st.(ended := st.ended + [c.pc.left], cpus := cpus)
    case SemQueue(s) =>
      assert LockOk(st, p);
      st.(sems := st.sems[s := st.sems[s].(queue := st.sems[s].queue + [c.pc.left], holder := None)], cpus := cpus)
  }

  lemma LeftAlone(st: State, p: nat)
    requires Inv(st) && p < |st.cpus| && st.cpus[p].pc.Switched?
    ensures Unqueued(st, st.cpus[p].pc.left) && QueueOf(st, st.cpus[p].pc.dest) <= |st.sems|
  {
    LeftUnqueued(st, p);
    assert LockOk(st, p);
  }

  lemma IsSettle(st: State, p: nat, known: map<nat, Task>, current: seq<Task>, after: seq<After>, quota: seq<nat>)
    requires Inv(st) && p < |st.cpus| == |after| && st.cpus[p].pc.Switched? && QueueOf(st, st.cpus[p].pc.dest) <= |st.sems|
    requires Processors(known, current, after, quota, st)
    ensures var i := QueueOf(st, st.cpus[p].pc.dest);
            SameQueues(WithWait(st, i, WaitIds(st, i) + [st.cpus[p].pc.left]), Settled(st, p))
    ensures Next(st, Settled(st, p), Settle(p)) && Processors(known, current, after[p := Nothing], quota, Settled(st, p))
  {
    hide Shape, OnePlaceEach, ReadyOk, BootOk;
    assert LockOk(st, p);
  }

  ghost function Acquired(st: State, s: nat): State
    requires s < |st.sems| && st.sems[s].quota >= 1
  {
    st.(sems := st.sems[s := st.sems[s].(quota := st.sems[s].quota - 1)])
  }

  lemma IsAcquire(st: State, p: nat, s: nat, known: map<nat, Task>, current: seq<Task>, after: seq<After>, quota: seq<nat>)
    requires Processors(known, current, after, quota, st) && p < |current| && st.cpus[p].pc.Running?
    requires s < |quota| && st.sems[s].holder.None? && quota[s] >= 1
    ensures SameQueues(st, Acquired(st, s)) && Next(st, Acquired(st, s), Acquire(p, s))
    ensures Processors(known, current, after, quota[s := quota[s] - 1], Acquired(st, s))
  {
  }

  ghost function Blocked(st: State, p: nat, s: nat): State
    requires s < |st.sems| && p < |st.cpus|
  {
    st.(sems := st.sems[s := st.sems[s].(holder := Some(p))], cpus := st.cpus[p := st.cpus[p].(pc := Blocking(s))])
  }

  lemma IsBlock(st: State, p: nat, s: nat, known: map<nat, Task>, current: seq<Task>, after: seq<After>, quota: seq<nat>)
    requires Processors(known, current, after, quota, st) && p < |current| && st.cpus[p].pc.Running?
    requires s < |quota| && st.sems[s].holder.None? && quota[s] == 0 && current[p].id !in st.boot
    ensures SameQueues(st, Blocked(st, p, s)) && Next(st, Blocked(st, p, s), StartBlock(p, s))
    ensures Processors(known, current, after, quota, Blocked(st, p, s))
  {
  }

  ghost function Released(st: State, s: nat): State
    requires s < |st.sems|
  {
    var m := st.sems[s];
    if m.queue == [] then st.(sems := st.sems[s := m.(quota := m.quota + 1)])
    else st.(sems := st.sems[s := m.(queue := m.queue[1..])], hands := st.hands + multiset{m.queue[0]})
  }

  lemma IsRelease(st: State, p: nat, s: nat, known: map<nat, Task>, current: seq<Task>, after: seq<After>, quota: seq<nat>)
    requires Processors(known, current, after, quota, st) && p < |current| && st.cpus[p].pc.Running?
    requires s < |quota| && st.sems[s].holder.None?
    ensures SameQueues(if st.sems[s].queue == [] then st else WithWait(st, s, WaitIds(st, s)[1..]), Released(st, s))
    ensures Next(st, Released(st, s), Release(p, s))
    ensures Processors(known, current, after, if st.sems[s].queue == [] then quota[s := quota[s] + 1] else quota, Released(st, s))
  {
  }

  lemma IsResume(st: State, t: nat)
    requires Inv(st) && t in st.hands
    ensures var st1 := st.(hands := st.hands - multiset{t});
            && Known(st1, t) && Unqueued(st1, t) && SameQueues(st, st1) && st.priority[t] < NUMBER_OF_PRIORITIES
            && Next(st, PushReady(st1, t), Resume(t)) && PushReady(st1, t).cpus == st.cpus && PushReady(st1, t).sems == st.sems
  {
    HandUnqueued(st, t);
  }

  lemma HoldPriority(known: map<nat, Task>, rt: seq<seq<Task>>, wt: seq<seq<Task>>, tasks: set<Task>, st: State, id: nat)
    requires Hold(known, rt, wt, tasks, st) && id in st.priority
    ensures id in known && known[id].priority == st.priority[id]
  {
  }

  lemma HoldKnown(known: map<nat, Task>, rt: seq<seq<Task>>, wt: seq<seq<Task>>, tasks: set<Task>, st: State)
    requires Hold(known, rt, wt, tasks, st)
    ensures forall id :: id in st.priority ==> id in known
  {
  }

  lemma IsCreate(st: State, t: nat, prio: nat)
    requires t !in st.priority && prio < NUMBER_OF_PRIORITIES
    ensures Next(st, st.(hands := st.hands + multiset{t}, priority := st.priority[t := prio]), Create(t, prio))
  {
  }

  lemma MoreProcessors(known: map<nat, Task>, current: seq<Task>, after: seq<After>, quota: seq<nat>, st: State, t: Task, st': State)
    requires Processors(known, current, after, quota, st) && t.id !in known && st'.cpus == st.cpus && st'.sems == st.sems
    ensures Processors(known[t.id := t], current, after, quota, st')
  {
  }

  lemma MoreValues(known: map<nat, Task>, id: nat, t: Task)
    requires id !in known
    ensures known.Values <= known[id := t].Values
  {
    forall x | x in known.Values ensures x in known[id := t].Values {
      var k :| k in known && known[k] == x;
      assert known[id := t][k] == x;
    }
  }

  lemma IsReap(st: State)
    requires Inv(st) && st.ended != []
    ensures var st' := st.(ended := st.ended[1..], priority := st.priority - {st.ended[0]});
            Next(st, st', Reap) && SameQueues(WithWait(st, |st.sems|, WaitIds(st, |st.sems|)[1..]), st')
  {
    assert Places(st, st.ended[0]) == One(st.ended[0] in st.priority);
  }

  // ---------- before the first step ----------

  ghost predicate Bootable(boot: seq<Task>) {
    && (forall i :: 0 <= i < |boot| ==> boot[i].priority == NUMBER_OF_PRIORITIES - 1)
    && (forall i, j :: 0 <= i < j < |boot| ==> boot[i].id != boot[j].id)
  }

  ghost function Numbered(boot: seq<Task>): map<nat, Task>
    requires Bootable(boot)
  {
    map i | 0 <= i < |boot| :: boot[i].id := boot[i]
  }

  ghost function Numbers(boot: seq<Task>): set<nat> { set t | t in boot :: t.id }

  ghost function BootState(boot: seq<Task>, quotas: seq<nat>): State {
    State(seq(|boot|, i requires 0 <= i < |boot| => Cpu(boot[i].id, Running)), seq(NUMBER_OF_PRIORITIES, _ => []),
          seq(|quotas|, s requires 0 <= s < |quotas| => Sem(quotas[s], [], None)), multiset{}, [],
          map b | b in Numbers(boot) :: NUMBER_OF_PRIORITIES - 1, Numbers(boot), map[], 0)
  }

  lemma {:induction false} NumbersCount(boot: seq<Task>)
    requires Bootable(boot)
    ensures |Numbers(boot)| == |boot|
  {
    if boot != [] {
      var k := |boot| - 1;
      NumbersCount(boot[..k]);
      assert boot == boot[..k] + [boot[k]];
      assert Numbers(boot) == Numbers(boot[..k]) + {boot[k].id};
    }
  }

  lemma BootInit(boot: seq<Task>, quotas: seq<nat>)
    requires Bootable(boot)
    ensures Init(BootState(boot, quotas))
  {
    NumbersCount(boot);
    var st := BootState(boot, quotas);
    forall b | b in st.boot ensures RunsSomewhere(st.cpus, b) {
      var i :| 0 <= i < |boot| && boot[i].id == b;
      assert st.cpus[i].current == b;
    }
  }

  lemma BootHolds(boot: seq<Task>, quotas: seq<nat>, rt: seq<seq<Task>>, wt: seq<seq<Task>>)
    requires Bootable(boot) && |rt| == NUMBER_OF_PRIORITIES && |wt| == |quotas| + 1
    requires (forall q :: 0 <= q < |rt| ==> rt[q] == []) && forall i :: 0 <= i < |wt| ==> wt[i] == []
    ensures Hold(Numbered(boot), rt, wt, {}, BootState(boot, quotas))
  {
    var known := Numbered(boot);
    forall b | b in Numbers(boot) ensures b in known && known[b].priority == NUMBER_OF_PRIORITIES - 1 {
      var i :| 0 <= i < |boot| && boot[i].id == b;
      assert known[boot[i].id] == boot[i];
    }
  }

  lemma BootNumbered(boot: seq<Task>)
    requires Bootable(boot)
    ensures forall i :: 0 <= i < |boot| ==> IsTask(Numbered(boot), boot[i], boot[i].id)
  {
    forall i | 0 <= i < |boot| ensures IsTask(Numbered(boot), boot[i], boot[i].id) { assert Numbered(boot)[boot[i].id] == boot[i]; }
  }

  lemma BootProcessors(boot: seq<Task>, quotas: seq<nat>)
    requires Bootable(boot)
    ensures Processors(Numbered(boot), boot, seq(|boot|, _ => Nothing), quotas, BootState(boot, quotas))
  {
    BootNumbered(boot);
    hide Numbered, Numbers, Bootable, IsTask;
  }

  method NewQueues(n: nat) returns (qs: seq<TaskQueue>)
    ensures |qs| == n && (forall i :: 0 <= i < n ==> fresh(qs[i]) && qs[i].Valid() && qs[i].contents == [])
    ensures forall i, j :: 0 <= i < j < n ==> qs[i] != qs[j]
  {
    qs := [];
    while |qs| < n
      invariant |qs| <= n && (forall i :: 0 <= i < |qs| ==> fresh(qs[i]) && qs[i].Valid() && qs[i].contents == [])
      invariant forall i, j :: 0 <= i < j < |qs| ==> qs[i] != qs[j]
    {
      var q := new TaskQueue();
      qs := qs + [q];
    }
  }

  /** The processors, the shared ready queue, a waiting queue for each semaphore and one for ended tasks. */
  class Machine {
    const ready: TaskPriorityQueue
    const waiting: seq<TaskQueue>
    var current: seq<Task>
    var after: seq<After>
    var quota: seq<nat>

    ghost var known: map<nat, Task>
    ghost var sts: seq<State>
    ghost var steps: seq<Step>

    /** One bootstrap task runs on each processor; there is a waiting queue for each semaphore and one for ended tasks. */
    constructor (boot: seq<Task>, quotas: seq<nat>)
      requires Bootable(boot)
      ensures Valid() && steps == [] && current == boot && quota == quotas && known == Numbered(boot)
    {
      ready := new TaskPriorityQueue();
      var ws := NewQueues(|quotas| + 1);
      waiting := ws;
      current, after, quota := boot, seq(|boot|, _ => Nothing), quotas;
      known, sts, steps := Numbered(boot), [BootState(boot, quotas)], [];
      new;
      hide *;
      Booted(boot, quotas);
    }

    lemma Booted(boot: seq<Task>, quotas: seq<nat>)
      requires Bootable(boot) && known == Numbered(boot) && sts == [BootState(boot, quotas)] && steps == []
      requires current == boot && quota == quotas && after == seq(|boot|, _ => Nothing)
      requires ready.Valid() && ready.tasks == {} && forall q :: 0 <= q < |ready.queues| ==> ready.queues[q].contents == []
      requires |waiting| == |quotas| + 1 && forall i :: 0 <= i < |waiting| ==> waiting[i].Valid() && waiting[i].contents == []
      requires forall i, j :: 0 <= i < j < |waiting| ==> waiting[i] != waiting[j]
      requires forall i, q :: 0 <= i < |waiting| && 0 <= q < |ready.queues| ==> waiting[i] != ready.queues[q]
      ensures Valid()
    {
      hide Hold, Ring, Init, BootState, Processors, Bootable, Numbered;
      BootInit(boot, quotas);
      BootHolds(boot, quotas, ReadyTasks(), WaitTasks());
      BootProcessors(boot, quotas);
    }

    ghost function Now(): State
      requires sts != []
      reads this
    {
      sts[|sts| - 1]
    }

    ghost function ReadyTasks(): seq<seq<Task>>
      reads ready, ready.queues
    {
      seq(|ready.queues|, q requires 0 <= q < |ready.queues| reads ready, ready.queues => ready.queues[q].contents)
    }

    ghost function WaitTasks(): seq<seq<Task>>
      reads waiting
    {
      seq(|waiting|, i requires 0 <= i < |waiting| reads waiting => waiting[i].contents)
    }

    /** The rings are whole, separate objects, and hold what the state says. */
    ghost predicate View(st: State)
      reads this`known, ready, ready.queues, waiting, known.Values
    {
      && (forall i, j :: 0 <= i < j < |waiting| ==> waiting[i] != waiting[j])
      && (forall i, q :: 0 <= i < |waiting| && 0 <= q < |ready.queues| ==> waiting[i] != ready.queues[q])
      && ready.tasks <= known.Values
      && (forall i, t :: 0 <= i < |waiting| && t in waiting[i].contents ==> t in known.Values)
      && ready.Valid() && (forall i :: 0 <= i < |waiting| ==> waiting[i].Valid())
      && Hold(known, ReadyTasks(), WaitTasks(), ready.tasks, st)
    }

    ghost predicate Valid()
      reads this, ready, ready.queues, waiting, known.Values
    {
      sts != [] && Run(sts, steps) && View(Now()) && Processors(known, current, after, quota, Now())
    }

    /** The run so far, and one step more. */
    ghost predicate Took(before: seq<State>, taken: seq<Step>, step: Step)
      reads this
    {
      |sts| == |before| + 1 && sts[..|before|] == before && steps == taken + [step]
    }

    /** What the rings hold does not depend on processors, quotas, hands or clocks. */
    lemma SameView(st: State, st': State)
      requires View(st) && SameQueues(st, st')
      ensures View(st')
    {
      hide Ring, Hold;
      SameHolds(known, ReadyTasks(), WaitTasks(), ready.tasks, st, st');
    }

    /** Links a task that is in no queue into the ready queue of its priority. */
    method PushTask(t: Task, ghost st: State)
      requires View(st) && IsTask(known, t, t.id) && Known(st, t.id) && Unqueued(st, t.id) && t.priority < NUMBER_OF_PRIORITIES
      modifies ready, ready.queues, ready.tasks, t
      ensures View(PushReady(st, t.id))
    {
      hide Ring, Hold;
      ghost var rt, wt, tasks := ReadyTasks(), WaitTasks(), ready.tasks;
      RingsApart(known, rt, wt, tasks, st);
      UnqueuedOut(known, rt, wt, tasks, st, t);
      ready.Push(t);
      assert WaitTasks() == wt;
      forall i | 0 <= i < |waiting| ensures waiting[i].Valid() {
        assert forall x :: x in wt[i] ==> x !in tasks && x != t;
        waiting[i].Untouched();
      }
      PushHolds(known, rt, wt, tasks, st, t, ReadyTasks());
    }

    /** Takes the oldest task of the best priority out of the ready queues. */
    method PopTask(ghost st: State) returns (t: Task)
      requires View(st) && HasReady(st.ready)
      modifies ready, ready.queues, ready.tasks
      ensures View(Popped(st)) && IsTask(known, t, st.ready[Best(st.ready, 0)][0])
    {
      hide Ring, Hold;
      ghost var rt, wt, tasks := ReadyTasks(), WaitTasks(), ready.tasks;
      RingsApart(known, rt, wt, tasks, st);
      SomeReady(known, rt, wt, tasks, st);
      t := ready.Pop();
      assert WaitTasks() == wt;
      forall i | 0 <= i < |waiting| ensures waiting[i].Valid() {
        assert forall x :: x in wt[i] ==> x !in tasks;
        waiting[i].Untouched();
      }
      PopHolds(known, rt, wt, tasks, st, t, ReadyTasks());
    }

    /** Links a task that is in no queue into a waiting queue. */
    method WaitTask(i: nat, t: Task, ghost st: State)
      requires View(st) && i < |waiting| && IsTask(known, t, t.id) && t in known.Values && Unqueued(st, t.id)
      modifies waiting[i], waiting[i].contents, t
      ensures i <= |st.sems| && View(WithWait(st, i, WaitIds(st, i) + [t.id]))
    {
      hide Ring, Hold;
      ghost var rt, wt, tasks := ReadyTasks(), WaitTasks(), ready.tasks;
      RingsApart(known, rt, wt, tasks, st);
      UnqueuedOut(known, rt, wt, tasks, st, t);
      HoldSizes(known, rt, wt, tasks, st);
      assert waiting[i].contents == wt[i];
      waiting[i].Push(t);
      assert WaitTasks() == wt[i := wt[i] + [t]];
      ready.Untouched();
      forall j | 0 <= j < |waiting| && j != i ensures waiting[j].Valid() {
        assert forall x :: x in wt[j] ==> x !in wt[i] && x != t;
        waiting[j].Untouched();
      }
      WaitHolds(known, rt, wt, tasks, st, i, t);
    }

    /** Takes the oldest task out of a waiting queue, if there is one. */
    method WakeTask(i: nat, ghost st: State) returns (t: Task?)
      requires View(st) && i < |waiting|
      modifies waiting[i], waiting[i].contents
      ensures i <= |st.sems| && (t == null <==> WaitIds(st, i) == [])
      ensures t == null ==> View(st)
      ensures t != null ==> IsTask(known, t, WaitIds(st, i)[0]) && View(WithWait(st, i, WaitIds(st, i)[1..]))
    {
      hide Ring, Hold;
      ghost var rt, wt, tasks := ReadyTasks(), WaitTasks(), ready.tasks;
      RingsApart(known, rt, wt, tasks, st);
      HoldSizes(known, rt, wt, tasks, st);
      HoldWaits(known, rt, wt, tasks, st, i);
      assert waiting[i].contents == wt[i];
      t := waiting[i].Pop();
      ready.Untouched();
      forall j | 0 <= j < |waiting| && j != i ensures waiting[j].Valid() {
        assert waiting[j].contents == wt[j] && forall x :: x in wt[j] ==> x !in wt[i];
        waiting[j].Untouched();
      }
      if t == null {
        assert WaitTasks() == wt;
      } else {
        assert WaitTasks() == wt[i := waiting[i].contents];
        assert forall x :: x in waiting[i].contents ==> x in wt[i];
        WakeHolds(known, rt, wt, tasks, st, i, t, waiting[i].contents);
      }
    }

    // ---------- steps of the run ----------

    ghost method Step(t: State, step: Scheduler.Step)
      requires sts != [] && Run(sts, steps) && Next(Now(), t, step)
      modifies this`sts, this`steps
      ensures sts != [] && Run(sts, steps) && Now() == t && Took(old(sts), old(steps), step)
    {
      hide Next;
      RunMore(sts, steps, t, step);
      sts, steps := sts + [t], steps + [step];
    }

    /** In every state reached: each ring holds its own tasks, a running task is in none, and whatever
        the run guarantees holds of the rings. */
    lemma Safety()
      requires Valid()
      ensures Inv(Now())
      ensures forall i, t :: 0 <= i < |waiting| && t in waiting[i].contents ==> t !in ready.tasks
      ensures forall i, j, t :: 0 <= i < j < |waiting| && t in waiting[i].contents ==> t !in waiting[j].contents
      ensures forall p :: 0 <= p < |current| ==> current[p] !in ready.tasks
      ensures forall p, i :: 0 <= p < |current| && 0 <= i < |waiting| ==> current[p] !in waiting[i].contents
      ensures forall p, r :: 0 <= p < r < |current| ==> current[p] != current[r]
    {
      hide Hold, Ring, Run, Inv;
      var st, rt, wt := Now(), ReadyTasks(), WaitTasks();
      RunKeepsInv(sts, steps, |sts| - 1);
      RingsApart(known, rt, wt, ready.tasks, st);
      assert forall i :: 0 <= i < |waiting| ==> waiting[i].contents == wt[i];
      forall p | 0 <= p < |current|
        ensures current[p] !in ready.tasks && (forall i :: 0 <= i < |waiting| ==> current[p] !in waiting[i].contents)
        ensures forall r :: 0 <= r < |current| && r != p ==> current[r] != current[p]
      {
        RunningAlone(st, p);
        UnqueuedOut(known, rt, wt, ready.tasks, st, current[p]);
      }
    }

    /** A processor gives way: its task goes to the end of its ready queue, the best one runs. */
    method Yield(p: nat)
      requires Valid() && p < |current| && Now().cpus[p].pc.Running?
      modifies this, ready, ready.queues, known.Values
      ensures Valid() && Took(old(sts), old(steps), Scheduler.Yield(p))
    {
      hide Ring, Hold, Run, Inv, Next, PushReady, Dispatch, Processors, SameQueues, Unqueued, HasReady, Best;
      var t := current[p];
      ghost var st := Now();
      CurrentIs(p);
      PushedIsReady(st, t.id);
      PushTask(t, st);
      ghost var st1 := PushReady(st, t.id);
      SameProcessors(known, current, after, quota, st, st1);
      Start(p, Nothing, st1, Running);
      IsYield(st, p);
      Step(Dispatch(st1, p, Running), Scheduler.Yield(p));
    }

    lemma CurrentIs(p: nat)
      requires Valid() && p < |current|
      ensures Inv(Now()) && |current| == |Now().cpus| && current[p].id == Now().cpus[p].current && IsTask(known, current[p], current[p].id)
      ensures current[p] in known.Values && Known(Now(), current[p].id) && Unqueued(Now(), current[p].id)
      ensures current[p].priority < NUMBER_OF_PRIORITIES
    {
      hide Ring, Run, Inv, Unqueued;
      RunKeepsInv(sts, steps, |sts| - 1);
      RunningAlone(Now(), p);
      assert known[current[p].id] == current[p];
    }

    /** Processor p goes on with the best ready task; next is what it then has to do. */
    method Start(p: nat, next: After, ghost st: State, ghost pc: Pc)
      requires View(st) && Processors(known, current, after, quota, st) && p < |current| == |st.cpus| && HasReady(st.ready)
      requires !st.cpus[p].pc.Switched? && (pc.Switched? ==> pc.left == st.cpus[p].current)
      requires next == if pc.Switched? then PutAway(current[p], QueueOf(st, pc.dest)) else Nothing
      modifies this`current, this`after, ready, ready.queues, ready.tasks
      ensures View(Dispatch(st, p, pc)) && Processors(known, current, after, quota, Dispatch(st, p, pc))
    {
      hide Ring, Hold, Dispatch, Processors, SameQueues, HasReady, Best;
      ProcessorSizes(known, current, after, quota, st);
      var t := PopTask(st);
      DispatchQueues(st, p, pc);
      SameView(Popped(st), Dispatch(st, p, pc));
      ProcessorsDispatch(known, current, after, quota, st, p, pc, t, next);
      current, after := current[p := t], after[p := next];
    }

    /** A processor that holds a semaphore's lock, or whose task ends, leaves that task: there is always a ready one. */
    method Leave(p: nat, queue: nat, ghost dest: Dest, ghost step: Step)
      requires Valid() && p < |current| && Leaves(Now(), p, dest, step) && queue == QueueOf(Now(), dest)
      modifies this, ready, ready.queues, known.Values
      ensures Valid() && Took(old(sts), old(steps), step)
    {
      hide Ring, Hold, Run, Inv, Next, Dispatch, Processors, SameQueues, Unqueued, HasReady, Best, Leaves;
      ghost var st, pc := Now(), Switched(dest, current[p].id);
      CurrentIs(p);
      IsLeave(st, p, dest, step);
      Start(p, PutAway(current[p], queue), st, pc);
      Step(Dispatch(st, p, pc), step);
    }

    lemma LeftIs(p: nat)
      requires Valid() && p < |current| && Now().cpus[p].pc.Switched?
      ensures var st := Now();
              && Inv(st) && |current| == |after| == |st.cpus| && after[p].PutAway? && after[p].task.id == st.cpus[p].pc.left
              && after[p].queue == QueueOf(st, st.cpus[p].pc.dest) < |waiting| && IsTask(known, after[p].task, after[p].task.id)
              && after[p].task in known.Values && Unqueued(st, after[p].task.id)
    {
      hide Ring, Run, Inv, Unqueued, Hold;
      var st := Now();
      RunKeepsInv(sts, steps, |sts| - 1);
      LeftAlone(st, p);
      HoldSizes(known, ReadyTasks(), WaitTasks(), ready.tasks, st);
      assert known[after[p].task.id] == after[p].task;
    }

    /** The next task puts the one its processor left into its queue, and frees the semaphore. */
    method Settle(p: nat)
      requires Valid() && p < |current| && Now().cpus[p].pc.Switched?
      modifies this, waiting, known.Values
      ensures Valid() && Took(old(sts), old(steps), Scheduler.Settle(p)) && p < |Now().cpus| && Now().cpus[p].pc.Running?
      ensures forall s: nat :: s < |old(Now()).sems| && OnWay(old(Now()).cpus[p].pc, s) ==>
                && s < |Now().sems| && Now().sems[s].holder.None?
                && Now().sems[s].queue == old(Now()).sems[s].queue + [old(Now()).cpus[p].pc.left]
    {
      hide Ring, Hold, Run, Inv, Next, Processors, SameQueues, Unqueued, WithWait, WaitIds, Settled;
      ghost var st := Now();
      LeftIs(p);
      var job := after[p];
      WaitTask(job.queue, job.task, st);
      IsSettle(st, p, known, current, after, quota);
      SameView(WithWait(st, job.queue, WaitIds(st, job.queue) + [job.task.id]), Settled(st, p));
      after := after[p := Nothing];
      Step(Settled(st, p), Scheduler.Settle(p));
      SettledIs(st, Now(), p);
    }

    /** Takes one of the quota, or keeps the semaphore's lock and is about to leave. */
    method Acquire(p: nat, s: nat) returns (ok: bool)
      requires Valid() && p < |current| && Now().cpus[p].pc.Running? && s < |quota| && Now().sems[s].holder.None?
      requires quota[s] == 0 ==> current[p].id !in Now().boot
      modifies this
      ensures ok <==> old(quota[s]) >= 1
      ensures Valid() && Took(old(sts), old(steps), if ok then Scheduler.Acquire(p, s) else Scheduler.StartBlock(p, s))
    {
      hide Ring, Hold, Run, Next, SameQueues;
      ghost var st := Now();
      ok := quota[s] >= 1;
      if ok {
        IsAcquire(st, p, s, known, current, after, quota);
        SameView(st, Acquired(st, s));
        quota := quota[s := quota[s] - 1];
        Step(Acquired(st, s), Scheduler.Acquire(p, s));
      } else {
        IsBlock(st, p, s, known, current, after, quota);
        SameView(st, Blocked(st, p, s));
        Step(Blocked(st, p, s), Scheduler.StartBlock(p, s));
      }
    }

    /** Takes the longest waiter, to be resumed, or else gives one of the quota back. */
    method Release(p: nat, s: nat) returns (t: Task?)
      requires Valid() && p < |current| && Now().cpus[p].pc.Running? && s < |quota| && Now().sems[s].holder.None?
      modifies this, waiting, known.Values
      ensures Valid() && Took(old(sts), old(steps), Scheduler.Release(p, s))
      ensures t == null <==> old(Now()).sems[s].queue == []
      ensures t != null ==> t.id == old(Now()).sems[s].queue[0] && IsTask(known, t, t.id) && t.id in Now().hands
    {
      hide Ring, Hold, Run, Next, SameQueues;
      ghost var st := Now();
      HoldSizes(known, ReadyTasks(), WaitTasks(), ready.tasks, st);
      t := WakeTask(s, st);
      IsRelease(st, p, s, known, current, after, quota);
      SameView(if t == null then st else WithWait(st, s, WaitIds(st, s)[1..]), Released(st, s));
      if t == null { quota := quota[s := quota[s] + 1]; }
      Step(Released(st, s), Scheduler.Release(p, s));
    }

    /** A task in hand becomes ready. */
    method Resume(t: Task)
      requires Valid() && IsTask(known, t, t.id) && t.id in Now().hands
      modifies this, ready, ready.queues, known.Values
      ensures Valid() && Took(old(sts), old(steps), Scheduler.Resume(t.id))
    {
      hide Ring, Hold, Run, Next, SameQueues, Processors, Inv, PushReady, Unqueued;
      ghost var st := Now();
      RunKeepsInv(sts, steps, |sts| - 1);
      IsResume(st, t.id);
      HoldPriority(known, ReadyTasks(), WaitTasks(), ready.tasks, st, t.id);
      ghost var st1 := st.(hands := st.hands - multiset{t.id});
      SameView(st, st1);
      assert known[t.id] == t;
      PushTask(t, st1);
      SameProcessors(known, current, after, quota, st, PushReady(st1, t.id));
      Step(PushReady(st1, t.id), Scheduler.Resume(t.id));
    }

    /** A new task, suspended until somebody resumes it. */
    method Create(t: Task)
      requires Valid() && t.id !in known && t !in known.Values && t.priority < NUMBER_OF_PRIORITIES
      modifies this
      ensures Valid() && Took(old(sts), old(steps), Scheduler.Create(t.id, t.priority))
      ensures known == old(known)[t.id := t] && t.id in Now().hands
    {
      hide Ring, Hold, Run, Next;
      ghost var st := Now();
      ghost var st' := st.(hands := st.hands + multiset{t.id}, priority := st.priority[t.id := t.priority]);
      HoldKnown(known, ReadyTasks(), WaitTasks(), ready.tasks, st);
      CreateHolds(known, ReadyTasks(), WaitTasks(), ready.tasks, st, t, st');
      IsCreate(st, t.id, t.priority);
      MoreProcessors(known, current, after, quota, st, t, st');
      MoreValues(known, t.id, t);
      known := known[t.id := t];
      Step(st', Scheduler.Create(t.id, t.priority));
    }

    /** Destroys a task, the one that ended first. */
    method Reap() returns (t: Task)
      requires Valid() && Now().ended != []
      modifies this, waiting, known.Values
      ensures Valid() && Took(old(sts), old(steps), Scheduler.Reap)
      ensures t.id == old(Now()).ended[0] && t.id !in Now().priority
    {
      hide Ring, Hold, Run, Next, Processors, Inv, SameQueues;
      ghost var st := Now();
      RunKeepsInv(sts, steps, |sts| - 1);
      HoldSizes(known, ReadyTasks(), WaitTasks(), ready.tasks, st);
      var i := |waiting| - 1;
      var r := WakeTask(i, st);
      t := r;
      IsReap(st);
      ghost var st' := st.(ended := st.ended[1..], priority := st.priority - {st.ended[0]});
      SameView(WithWait(st, i, WaitIds(st, i)[1..]), st');
      SameProcessors(known, current, after, quota, st, st');
      Step(st', Scheduler.Reap);
    }
  }
}
