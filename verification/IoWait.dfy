/** Waiting for I/O: a task scans its completed list and sleeps on a semaphore that
    completers release after they have inserted into the list. */
module IoWait {
  import opened Common

  /** Where the waiting task is: draining v stale tokens, scanning, about to acquire, or asleep. */
  datatype Pc = Idle | Draining(v: nat) | Scanning | Acquiring | Asleep

  datatype State = State(
    pending: set<nat>,
    completed: seq<nat>,
    quota: nat,
    signalling: nat,          // completers that inserted but have not yet released the semaphore
    pc: Pc,
    expected: Option<nat>,    // None waits for any request
    returned: seq<nat>)

  datatype Step =
    | Pend(r: nat) | Cancel(r: nat) | Complete(r: nat) | Signal
    | StartWait(e: Option<nat>) | Drain | EndDrain | Find(i: nat) | Miss | Acquire | Sleep

  ghost predicate Wanted(s: State, r: nat) { s.expected.None? || s.expected.value == r }

  /** A request the waiter would take is in the completed list. */
  ghost predicate Ready(s: State) { exists i :: 0 <= i < |s.completed| && Wanted(s, s.completed[i]) }

  ghost predicate Init(s: State) {
    s.pending == {} && s.completed == [] && s.quota == 0 && s.signalling == 0 && s.pc == Idle && s.returned == []
  }

  ghost predicate Next(s: State, t: State, step: Step) {
    match step
    case Pend(r) => r !in s.pending && r !in s.completed && t == s.(pending := s.pending + {r})
    case Cancel(r) => r in s.pending && t == s.(pending := s.pending - {r})
    case Complete(r) =>
      r in s.pending &&
      t == s.(pending := s.pending - {r}, completed := [r] + s.completed, signalling := s.signalling + 1)
    case Signal =>
      s.signalling > 0 &&
      t == (if s.pc == Asleep then s.(signalling := s.signalling - 1, pc := Scanning)
            else s.(signalling := s.signalling - 1, quota := s.quota + 1))
    case StartWait(e) => s.pc == Idle && t == s.(expected := e, pc := Draining(s.quota))
    case Drain => s.pc.Draining? && s.pc.v > 0 && s.quota > 0 && t == s.(quota := s.quota - 1, pc := Draining(s.pc.v - 1))
    case EndDrain => s.pc == Draining(0) && t == s.(pc := Scanning)
    case Find(i) =>
      s.pc == Scanning && i < |s.completed| && Wanted(s, s.completed[i]) &&
      (forall j :: 0 <= j < i ==> !Wanted(s, s.completed[j])) &&
      t == s.(completed := s.completed[..i] + s.completed[i + 1..], pc := Idle, returned := s.returned + [s.completed[i]])
    case Miss => s.pc == Scanning && !Ready(s) && t == s.(pc := Acquiring)
    case Acquire => s.pc == Acquiring && s.quota > 0 && t == s.(quota := s.quota - 1, pc := Scanning)
    case Sleep => s.pc == Acquiring && s.quota == 0 && t == s.(pc := Asleep)
  }

  ghost predicate Inv(s: State) {
    && (s.pc.Draining? ==> s.pc.v <= s.quota)
    && (s.pc == Asleep ==> s.quota == 0)
    && ((s.pc == Acquiring || s.pc == Asleep) && Ready(s) ==> s.signalling > 0 || s.quota > 0)
    && (forall r :: r in s.pending ==> r !in s.completed)
    && (forall i, j :: 0 <= i < j < |s.completed| ==> s.completed[i] != s.completed[j])
  }

  lemma FindKeeps(s: State, t: State, i: nat)
    requires Inv(s) && Next(s, t, Find(i))
    ensures Inv(t)
  {
    forall a, b | 0 <= a < b < |t.completed| ensures t.completed[a] != t.completed[b] {
      var c, d := if a < i then a else a + 1, if b < i then b else b + 1;
      assert t.completed[a] == s.completed[c] && t.completed[b] == s.completed[d];
    }
    forall r | r in t.completed ensures r in s.completed {
      var a :| 0 <= a < |t.completed| && t.completed[a] == r;
      assert t.completed[a] == s.completed[if a < i then a else a + 1];
    }
  }

  lemma CompleteKeeps(s: State, t: State, r: nat)
    requires Inv(s) && Next(s, t, Complete(r))
    ensures Inv(t)
  {
    assert forall i :: 1 <= i < |t.completed| ==> t.completed[i] == s.completed[i - 1];
  }

  lemma StepKeeps(s: State, t: State, step: Step)
    requires Inv(s) && Next(s, t, step)
    ensures Inv(t)
  {
    match step
    case Find(i) => FindKeeps(s, t, i);
    case Complete(r) => CompleteKeeps(s, t, r);
    case _ => assert t.completed == s.completed;
  }

  ghost predicate Run(ss: seq<State>, steps: seq<Step>) {
    && |ss| == |steps| + 1 && Init(ss[0])
    && forall i :: 0 <= i < |steps| ==> Next(ss[i], ss[i + 1], steps[i])
  }

  lemma {:induction false} RunKeepsInv(ss: seq<State>, steps: seq<Step>, k: nat)
    requires Run(ss, steps) && k < |ss|
    ensures Inv(ss[k])
  {
    if k > 0 {
      RunKeepsInv(ss, steps, k - 1);
      StepKeeps(ss[k - 1], ss[k], steps[k - 1]);
    }
  }

  /** No lost wake-up: a task asleep while no completer is between its insertion and its release
      has nothing to take; the drain of stale tokens never sleeps; and a request completes once. */
  lemma NoLostWakeup(ss: seq<State>, steps: seq<Step>, k: nat)
    requires Run(ss, steps) && k < |ss|
    ensures ss[k].pc == Asleep && ss[k].signalling == 0 ==> !Ready(ss[k])
    ensures ss[k].pc.Draining? && ss[k].pc.v > 0 ==> ss[k].quota > 0
    ensures forall i, j :: 0 <= i < j < |ss[k].completed| ==> ss[k].completed[i] != ss[k].completed[j]
  {
    RunKeepsInv(ss, steps, k);
  }

  // ---------- every completion is returned once ----------

  ghost function In(l: seq<nat>, r: nat): nat { multiset(l)[r] }

  ghost function Completions(steps: seq<Step>, r: nat): nat {
    if steps == [] then 0 else Completions(steps[..|steps| - 1], r) + One(steps[|steps| - 1] == Complete(r))
  }

  /** A request counts as issued once it is pending and until it is cancelled or completed. */
  ghost function Issues(steps: seq<Step>, r: nat): nat {
    if steps == [] then 0 else Issues(steps[..|steps| - 1], r) + One(steps[|steps| - 1] == Pend(r))
  }

  ghost function Cancels(steps: seq<Step>, r: nat): nat {
    if steps == [] then 0 else Cancels(steps[..|steps| - 1], r) + One(steps[|steps| - 1] == Cancel(r))
  }

  lemma InTaken(l: seq<nat>, i: nat, r: nat)
    requires i < |l|
    ensures In(l[..i] + l[i + 1..], r) + One(l[i] == r) == In(l, r)
  {
    assert l == l[..i] + [l[i]] + l[i + 1..];
  }

  lemma StepConserves(s: State, t: State, step: Step, r: nat)
    requires Next(s, t, step)
    ensures In(t.completed, r) + In(t.returned, r) == In(s.completed, r) + In(s.returned, r) + One(step == Complete(r))
    ensures One(r in t.pending) + One(step == Cancel(r)) + One(step == Complete(r)) == One(r in s.pending) + One(step == Pend(r))
  {
    match step
    case Find(i) => InTaken(s.completed, i, r);
    case _ =>
  }

  /** In every run each completion of a request is in the completed list or was returned by a wait, exactly once; and each
      time it was issued it is still pending, was cancelled or was completed, exactly once. */
  lemma {:induction false} CompletedIsReturned(ss: seq<State>, steps: seq<Step>, k: nat, r: nat)
    requires Run(ss, steps) && k < |ss|
    ensures Completions(steps[..k], r) == In(ss[k].completed, r) + In(ss[k].returned, r)
    ensures Issues(steps[..k], r) == One(r in ss[k].pending) + Cancels(steps[..k], r) + Completions(steps[..k], r)
    decreases k
  {
    hide Next;
    if k > 0 {
      CompletedIsReturned(ss, steps, k - 1, r);
      StepConserves(ss[k - 1], ss[k], steps[k - 1], r);
      assert steps[..k][..k - 1] == steps[..k - 1];
    }
  }

  /** A wait ends by returning one request: the most recently completed of those it was asked for. */
  lemma {:induction false} WaitReturnsWanted(ss: seq<State>, steps: seq<Step>, a: nat, b: nat)
    requires Run(ss, steps) && a < b < |steps| && steps[a].StartWait? && forall i :: a < i < b ==> !steps[i].StartWait? && !steps[i].Find?
    ensures ss[b].expected == steps[a].e && ss[b].returned == ss[a].returned
    ensures steps[b].Find? ==>
              && |ss[b + 1].returned| == |ss[a].returned| + 1 && ss[b + 1].returned[..|ss[a].returned|] == ss[a].returned
              && var r := ss[b + 1].returned[|ss[a].returned|];
                 && (steps[a].e.None? || steps[a].e.value == r) && r in ss[b].completed
                 && (steps[a].e.None? ==> r == ss[b].completed[0])
    decreases b
  {
    assert Next(ss[b - 1], ss[b], steps[b - 1]) && Next(ss[b], ss[b + 1], steps[b]);
    if b - 1 > a { WaitReturnsWanted(ss, steps, a, b - 1); }
  }

  /** Tokens handed out so far that can still wake the waiter or be drained by it. */
  ghost function Tokens(s: State): nat { s.quota + s.signalling }

  /** While no request completes, every pass of the wait loop uses up a token: the loop cannot spin forever. */
  lemma PassUsesToken(s: State, t: State, step: Step)
    requires Next(s, t, step) && !step.Complete?
    ensures Tokens(t) <= Tokens(s)
    ensures s.pc != Scanning && s.pc != Draining(0) && t.pc == Scanning ==> Tokens(t) < Tokens(s)
  {
  }

  // ---------- the waiter by itself ----------

  ghost function FirstWanted(s: State): (i: nat)
    requires Ready(s)
    ensures i < |s.completed| && Wanted(s, s.completed[i]) && forall j :: 0 <= j < i ==> !Wanted(s, s.completed[j])
  {
    var k :| 0 <= k < |s.completed| && Wanted(s, s.completed[k]);
    FirstOf(s.completed, s.expected, k)
  }

  /** The first place in l, up to k, of what is expected. */
  ghost function FirstOf(l: seq<nat>, expected: Option<nat>, k: nat): (i: nat)
    requires k < |l| && (expected.None? || expected.value == l[k])
    ensures i <= k && (expected.None? || expected.value == l[i]) && forall j :: 0 <= j < i ==> expected.Some? && expected.value != l[j]
  {
    if expected.None? then 0
    else if j :| 0 <= j < k && expected.value == l[j] then FirstOf(l, expected, j)
    else k
  }

  ghost predicate Waiting(s: State) { s.pc != Idle && s.pc != Asleep }

  /** What the waiter does next. */
  ghost function OwnStep(s: State): Step
    requires Waiting(s)
  {
    match s.pc
    case Draining(v) => if v == 0 then EndDrain else Drain
    case Scanning => if Ready(s) then Find(FirstWanted(s)) else Miss
    case _ => if s.quota > 0 then Acquire else Sleep
  }

  ghost function Rank(s: State): nat {
    5 * s.quota + match s.pc case Draining(_) => 4 case Scanning => 3 case Acquiring => 2 case _ => 0
  }

  /** It can always do that, and gets nearer to the end of the wait; nothing but an end takes a request. */
  lemma OwnStepNearer(s: State) returns (t: State)
    requires Inv(s) && Waiting(s)
    ensures Next(s, t, OwnStep(s)) && Inv(t) && Rank(t) < Rank(s) && t.signalling == s.signalling
    ensures if s.pc == Scanning && Ready(s)
            then t.pc == Idle && t.returned == s.returned + [s.completed[FirstWanted(s)]]
            else t.pc != Idle && t.completed == s.completed && t.expected == s.expected && t.returned == s.returned
  {
    match s.pc
    case Draining(v) => t := if v == 0 then s.(pc := Scanning) else s.(quota := s.quota - 1, pc := Draining(v - 1));
    case Scanning =>
      if Ready(s) {
        var i := FirstWanted(s);
        t := s.(completed := s.completed[..i] + s.completed[i + 1..], pc := Idle, returned := s.returned + [s.completed[i]]);
      } else {
        t := s.(pc := Acquiring);
      }
    case Acquiring => t := if s.quota > 0 then s.(quota := s.quota - 1, pc := Scanning) else s.(pc := Asleep);
    StepKeeps(s, t, OwnStep(s));
  }

  ghost predicate Alone(ss: seq<State>) {
    forall i :: 0 <= i < |ss| - 1 ==> Waiting(ss[i]) && Next(ss[i], ss[i + 1], OwnStep(ss[i]))
  }

  /** Left alone, a waiter that has yet to look at the list ends its wait, within Rank steps: it returns the most recently completed request
      it wants if there is one, and otherwise sleeps with no token left. */
  lemma {:induction false} WaitDecides(s: State) returns (ss: seq<State>)
    requires Inv(s) && (s.pc.Draining? || s.pc == Scanning)
    ensures 0 < |ss| <= Rank(s) + 1 && ss[0] == s && Alone(ss) && Inv(ss[|ss| - 1])
    ensures var t := ss[|ss| - 1];
            if Ready(s) then t.pc == Idle && t.returned == s.returned + [s.completed[FirstWanted(s)]]
            else t.pc == Asleep && t.quota == 0 && t.returned == s.returned && t.completed == s.completed
    decreases Rank(s)
  {
    var t := OwnStepNearer(s);
    if t.pc == Idle {
      ss := [s, t];
    } else if t.pc == Acquiring {
      var u := OwnStepNearer(t);
      if u.pc == Asleep {
        ss := [s, t, u];
      } else {
        SameWanted(s, u);
        var rest := WaitDecides(u);
        ss := [s, t] + rest;
      }
    } else {
      SameWanted(s, t);
      var rest := WaitDecides(t);
      ss := [s] + rest;
    }
  }

  lemma SameWanted(s: State, t: State)
    requires t.completed == s.completed && t.expected == s.expected
    ensures Ready(t) <==> Ready(s)
    ensures Ready(s) ==> t.completed[FirstWanted(t)] == s.completed[FirstWanted(s)]
  {
    if i :| 0 <= i < |s.completed| && Wanted(s, s.completed[i]) { assert Wanted(t, t.completed[i]); }
    if i :| 0 <= i < |t.completed| && Wanted(t, t.completed[i]) { assert Wanted(s, s.completed[i]); }
    if Ready(s) && s.expected.None? {
      assert Wanted(s, s.completed[0]) && Wanted(t, t.completed[0]);
    }
  }

  /** A wait can begin whenever no other is under way, and then looks at the list as it is. */
  lemma WaitBegins(s: State, e: Option<nat>) returns (t: State, ss: seq<State>)
    requires Inv(s) && s.pc == Idle
    ensures Next(s, t, StartWait(e)) && t.expected == e && 0 < |ss| && ss[0] == t && Alone(ss)
    ensures ss[|ss| - 1].pc == Idle <==> exists r :: r in s.completed && (e.None? || e.value == r)
  {
    t := s.(expected := e, pc := Draining(s.quota));
    StepKeeps(s, t, StartWait(e));
    ss := WaitDecides(t);
    if r :| r in s.completed && (e.None? || e.value == r) {
      var i :| 0 <= i < |s.completed| && s.completed[i] == r;
      assert Wanted(t, t.completed[i]);
    }
    if Ready(t) {
      var i :| 0 <= i < |t.completed| && Wanted(t, t.completed[i]);
      assert s.completed[i] in s.completed;
    }
  }

  /** The completion of a request that a sleeping waiter wants, with its signal, wakes the waiter, which returns that request. */
  lemma CompletionEndsWait(s: State, r: nat) returns (t: State, u: State, ss: seq<State>)
    requires Inv(s) && s.pc == Asleep && r in s.pending && Wanted(s, r)
    ensures Next(s, t, Complete(r)) && Next(t, u, Signal) && 0 < |ss| && ss[0] == u && Alone(ss)
    ensures ss[|ss| - 1].pc == Idle && ss[|ss| - 1].returned == s.returned + [r]
  {
    t := s.(pending := s.pending - {r}, completed := [r] + s.completed, signalling := s.signalling + 1);
    StepKeeps(s, t, Complete(r));
    u := t.(signalling := t.signalling - 1, pc := Scanning);
    StepKeeps(t, u, Signal);
    assert Wanted(u, u.completed[0]);
    ss := WaitDecides(u);
  }
}
