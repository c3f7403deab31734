/** The circular doubly linked task queue and the ready queue built from it. */
module TaskQueues {

  const NUMBER_OF_PRIORITIES := 4

  class Task {
    const id: nat
    const priority: nat
    var next: Task?
    var prev: Task?

    constructor (id: nat, priority: nat)
      ensures this.id == id && this.priority == priority && next == null && prev == null
    {
      this.id, this.priority := id, priority;
      next, prev := null, null;
    }
  }

  ghost predicate Distinct(s: seq<Task>) {
    forall i, j :: 0 <= i < j < |s| ==> s[i] != s[j]
  }

  /** The links form one ring through the tasks of s, in both directions. */
  ghost predicate Ring(s: seq<Task>)
    reads s
  {
    && Distinct(s)
    && (forall i {:trigger s[i].next} :: 0 <= i < |s| ==> s[i].next == s[if i + 1 == |s| then 0 else i + 1])
    && (forall i {:trigger s[i].prev} :: 0 <= i < |s| ==> s[i].prev == s[if i == 0 then |s| - 1 else i - 1])
  }

  class TaskQueue {
    var head: Task?
    ghost var contents: seq<Task>

    ghost predicate Valid()
      reads this, contents
    {
      Ring(contents) && head == if contents == [] then null else contents[0]
    }

    /** Every queued task has priority q and belongs to the given footprint. */
    ghost predicate Holds(tasks: set<Task>, q: nat)
      reads this, tasks
    {
      && (forall i :: 0 <= i < |contents| ==> contents[i] in tasks && contents[i].priority == q)
      && (forall t :: t in contents ==> t in tasks)
      && Valid()
    }

    /** A ring nobody touched is still whole. */
    twostate lemma Untouched()
      requires old(Valid()) && unchanged(this) && forall t :: t in contents ==> unchanged(t)
      ensures Valid()
    {
      forall i | 0 <= i < |contents| ensures contents[i].next == old(contents[i].next) && contents[i].prev == old(contents[i].prev) {
        assert contents[i] in contents;
      }
    }

    constructor ()
      ensures Valid() && contents == []
    {
      head, contents := null, [];
    }

    method Push(t: Task)
      requires Valid() && t !in contents
      modifies this, t, contents
      ensures Valid() && contents == old(contents) + [t]
    {
      var h := head;
      if h == null {
        head := t;
        t.next := t;
        t.prev := t;
      } else {
        t.next := h;
        t.prev := h.prev;
        t.next.prev := t;
        t.prev.next := t;
      }
      contents := contents + [t];
    }

    method Pop() returns (t: Task?)
      requires Valid()
      modifies this, contents
      ensures Valid()
      ensures t == null <==> old(contents) == []
      ensures t == null ==> contents == []
      ensures t != null ==> [t] + contents == old(contents) && t !in contents && t.next == null && t.prev == null
    {
      t := head;
      if t == null { return; }
      if t.next == t {
        assert |contents| == 1 by { assert contents[0].next == t; }
        assert t.prev == t;
        head := null;
      } else {
        assert |contents| > 1 by { assert contents[0].next != t; }
        assert contents[0].next == contents[1];
        head := t.next;
        t.next.prev := t.prev;
        t.prev.next := t.next;
      }
      t.next := null;
      t.prev := null;
      contents := contents[1..];
    }
  }

  /** One queue per priority; a task waits only in the queue of its own priority. */
  class TaskPriorityQueue {
    const queues: seq<TaskQueue>
    ghost var tasks: set<Task>

    ghost predicate Valid()
      reads this, queues, tasks
    {
      && |queues| == NUMBER_OF_PRIORITIES
      && (forall q, p :: 0 <= q < p < |queues| ==> queues[q] != queues[p])
      && (forall q :: 0 <= q < |queues| ==> queues[q].Holds(tasks, q))
    }

    twostate lemma Untouched()
      requires old(Valid()) && unchanged(this) && (forall q :: q in queues ==> unchanged(q)) && forall t :: t in tasks ==> unchanged(t)
      ensures Valid()
    {
      hide Ring;
      forall q | 0 <= q < |queues| ensures queues[q].Holds(tasks, q) {
        assert old(queues[q].Holds(tasks, q)) && queues[q] in queues;
        assert forall t :: t in queues[q].contents ==> t in tasks;
        queues[q].Untouched();
      }
    }

    constructor ()
      ensures Valid() && tasks == {} && forall q :: 0 <= q < |queues| ==> fresh(queues[q]) && queues[q].contents == []
    {
      hide Ring;
      var a := new TaskQueue();
      var b := new TaskQueue();
      var c := new TaskQueue();
      var d := new TaskQueue();
      queues, tasks := [a, b, c, d], {};
    }

    method Push(t: Task)
      requires Valid() && t.priority < NUMBER_OF_PRIORITIES && t !in tasks
      modifies this, queues, tasks, t
      ensures Valid() && tasks == old(tasks) + {t}
      ensures forall q :: 0 <= q < |queues| ==>
                queues[q].contents == old(queues[q].contents) + if q == t.priority then [t] else []
    {
      var q := t.priority;
      queues[q].Push(t);
      tasks := tasks + {t};
    }

    /** The oldest task of the best nonempty priority. */
    method Pop() returns (t: Task)
      requires Valid() && exists q :: 0 <= q < |queues| && queues[q].contents != []
      modifies this, queues, tasks
      ensures Valid() && t.priority < NUMBER_OF_PRIORITIES && tasks == old(tasks) - {t}
      ensures forall q :: 0 <= q < t.priority ==> old(queues[q].contents) == []
      ensures forall q :: 0 <= q < |queues| ==>
                old(queues[q].contents) == (if q == t.priority then [t] else []) + queues[q].contents
    {
      hide Ring;
      var p := BestQueue();
      ghost var before := queues[p].contents;
      var r := queues[p].Pop();
      t := r;
      assert before[0] == t && queues[p].contents == before[1..];
      assert forall x :: x in before <==> x == t || x in before[1..];
      tasks := tasks - {t};
      assert queues[p].Holds(tasks, p);
    }

    /** The search loop; it never runs past the last priority. */
    method BestQueue() returns (p: nat)
      requires Valid() && exists q :: 0 <= q < |queues| && queues[q].contents != []
      ensures p < |queues| && queues[p].contents != [] && forall q :: 0 <= q < p ==> queues[q].contents == []
    {
      hide Ring;
      p := 0;
      while queues[p].head == null
        invariant 0 <= p < NUMBER_OF_PRIORITIES
        invariant forall q :: 0 <= q < p ==> queues[q].contents == []
        decreases NUMBER_OF_PRIORITIES - p
      {
        assert p + 1 < NUMBER_OF_PRIORITIES;
        p := p + 1;
      }
    }
  }
}
