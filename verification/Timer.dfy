/** The timer list over absolute ticks: what is armed, and what each handler call completes. */
module TimerSpec {
  import opened Arith

  /** An armed event: the absolute tick it completes on, and its period (0 for one-shot). */
  datatype Armed = Armed(deadline: nat, period: nat)

  /** Events due on tick t. */
  ghost function Due(m: map<nat, Armed>, t: nat): set<nat> {
    set id | id in m && m[id].deadline == t
  }

  /** Completing an event re-arms it one period later, or forgets it. */
  ghost function Complete(m: map<nat, Armed>, t: nat, id: nat): map<nat, Armed>
    requires id in m
  {
    if m[id].period > 0 then m[id := Armed(t + m[id].period, m[id].period)] else m - {id}
  }

  /** The table after the handler call of tick t. */
  ghost function Handled(m: map<nat, Armed>, t: nat): map<nat, Armed> {
    map id | id in m && (m[id].deadline != t || m[id].period > 0) ::
      if m[id].deadline == t then Armed(t + m[id].period, m[id].period) else m[id]
  }

  // ---------- whole runs ----------

  datatype State = State(now: nat, armed: map<nat, Armed>)

  datatype Op = Arm(id: nat, wait: nat, period: nat) | Cancel(id: nat) | Tick

  ghost predicate Next(s: State, t: State, op: Op) {
    match op
    case Arm(id, wait, period) =>
      id !in s.armed && wait > 0 && t == State(s.now, s.armed[id := Armed(s.now + wait, period)])
    case Cancel(id) => t == State(s.now, s.armed - {id})
    case Tick => t == State(s.now + 1, Handled(s.armed, s.now))
  }

  ghost predicate Run(ss: seq<State>, ops: seq<Op>) {
    |ss| == |ops| + 1 && forall i :: 0 <= i < |ops| ==> Next(ss[i], ss[i + 1], ops[i])
  }

  /** Step i of the run is a handler call that completes the event. */
  ghost predicate CompletesAt(ss: seq<State>, ops: seq<Op>, i: nat, id: nat)
    requires Run(ss, ops)
  {
    i < |ops| && ops[i].Tick? && id in Due(ss[i].armed, ss[i].now)
  }

  /** From step a to step i nothing arms or cancels this event. */
  ghost predicate Undisturbed(ops: seq<Op>, a: nat, i: nat, id: nat) {
    forall j :: a <= j < i && j < |ops| ==> !(ops[j].Cancel? && ops[j].id == id) && !(ops[j].Arm? && ops[j].id == id)
  }

  /** The state of an event d ticks due, as seen at tick now. */
  ghost predicate OneShotAt(m: map<nat, Armed>, now: nat, id: nat, d: nat) {
    if now <= d then id in m && m[id] == Armed(d, 0) else id !in m
  }

  lemma {:induction false} OneShotState(ss: seq<State>, ops: seq<Op>, a: nat, i: nat, id: nat)
    requires Run(ss, ops) && a < |ops| && ops[a].Arm? && ops[a].id == id && ops[a].period == 0 && a < i < |ss|
    requires Undisturbed(ops, a + 1, i, id)
    ensures OneShotAt(ss[i].armed, ss[i].now, id, ss[a].now + ops[a].wait)
    decreases i
  {
    assert Next(ss[i - 1], ss[i], ops[i - 1]);
    if i - 1 > a { OneShotState(ss, ops, a, i - 1, id); }
  }

  /** A one-shot event armed with w ticks completes on the handler call of tick arm + w and on no other. */
  lemma OneShotExact(ss: seq<State>, ops: seq<Op>, a: nat, i: nat, id: nat)
    requires Run(ss, ops) && a < |ops| && ops[a].Arm? && ops[a].id == id && ops[a].period == 0 && a < i < |ops| && ops[i].Tick?
    requires Undisturbed(ops, a + 1, i, id)
    ensures CompletesAt(ss, ops, i, id) <==> ss[i].now == ss[a].now + ops[a].wait
  {
    OneShotState(ss, ops, a, i, id);
  }

  /** A cancelled event completes on no handler call until it is armed again. */
  lemma {:induction false} CancelledStays(ss: seq<State>, ops: seq<Op>, a: nat, i: nat, id: nat)
    requires Run(ss, ops) && a < i < |ss| && ops[a] == Cancel(id) && forall j :: a < j < i ==> !(ops[j].Arm? && ops[j].id == id)
    ensures id !in ss[i].armed && !CompletesAt(ss, ops, i, id)
    decreases i
  {
    assert Next(ss[i - 1], ss[i], ops[i - 1]);
    if i - 1 > a { CancelledStays(ss, ops, a, i - 1, id); }
  }

  /** The next completion is the first multiple of the period, counted from d, not before now. */
  ghost predicate PeriodicAt(m: map<nat, Armed>, now: nat, id: nat, d: nat, p: nat) {
    id in m && m[id].period == p && d <= m[id].deadline && now <= m[id].deadline
    && Rounds(d, p, m[id].deadline) && (m[id].deadline == d || m[id].deadline < now + p)
  }

  /** t is d plus a whole number of periods. */
  ghost predicate Rounds(d: nat, p: nat, t: nat) { exists k: nat :: t == d + k * p }

  lemma RoundsNext(d: nat, p: nat, t: nat)
    requires Rounds(d, p, t)
    ensures Rounds(d, p, t + p)
  {
    var k: nat :| t == d + k * p;
    assert t + p == d + (k + 1) * p;
  }

  /** Between two consecutive rounds there is no other. */
  lemma RoundsGap(d: nat, p: nat, t: nat, u: nat)
    requires p > 0 && Rounds(d, p, t) && Rounds(d, p, u) && t < u
    ensures u >= t + p
  {
    var k: nat :| t == d + k * p;
    var l: nat :| u == d + l * p;
    if l < k { MulGap(l, k, p); }
    if k < l { MulGap(k, l, p); }
  }

  lemma {:induction false} PeriodicState(ss: seq<State>, ops: seq<Op>, a: nat, i: nat, id: nat)
    requires Run(ss, ops) && a < |ops| && ops[a].Arm? && ops[a].id == id && ops[a].period > 0 && a < i < |ss|
    requires Undisturbed(ops, a + 1, i, id)
    ensures PeriodicAt(ss[i].armed, ss[i].now, id, ss[a].now + ops[a].wait, ops[a].period)
    decreases i
  {
    var d, p := ss[a].now + ops[a].wait, ops[a].period;
    assert Next(ss[i - 1], ss[i], ops[i - 1]);
    if i - 1 > a {
      PeriodicState(ss, ops, a, i - 1, id);
      RoundsNext(d, p, ss[i - 1].armed[id].deadline);
    } else {
      assert d == d + 0 * p;
    }
  }

  /** A periodic event completes on the handler calls of arm + w, arm + w + p, arm + w + 2p, ... and on no other. */
  lemma PeriodicExact(ss: seq<State>, ops: seq<Op>, a: nat, i: nat, id: nat)
    requires Run(ss, ops) && a < |ops| && ops[a].Arm? && ops[a].id == id && ops[a].period > 0
    requires a < i < |ops| && ops[i].Tick? && Undisturbed(ops, a + 1, i, id)
    ensures CompletesAt(ss, ops, i, id) <==> Rounds(ss[a].now + ops[a].wait, ops[a].period, ss[i].now)
  {
    var d, p := ss[a].now + ops[a].wait, ops[a].period;
    PeriodicState(ss, ops, a, i, id);
    var due := ss[i].armed[id].deadline;
    if Rounds(d, p, ss[i].now) {
      var k: nat :| ss[i].now == d + k * p;
      assert k * p >= 0;
      if ss[i].now < due { RoundsGap(d, p, ss[i].now, due); }
    }
  }
}

/** The list itself: sorted by remaining ticks, counting modulo 2^50. */
module Timer {
  import opened Arith
  import opened TimerSpec

  const COUNTDOWN_TICK_MODULAR := 0x4_0000_0000_0000

  datatype TimerEvent = TimerEvent(id: nat, countdownTicks: nat, tickPeriod: nat)

  function Wrap(t: nat): nat { t % COUNTDOWN_TICK_MODULAR }

  /** Ticks until a wrapped countdown value is reached, from a wrapped current tick. */
  function Remaining(countdown: nat, current: nat): nat
    requires current <= COUNTDOWN_TICK_MODULAR
  {
    (countdown + COUNTDOWN_TICK_MODULAR - current) % COUNTDOWN_TICK_MODULAR
  }

  lemma RemainingTicks(now: nat, deadline: nat)
    requires now <= deadline < now + COUNTDOWN_TICK_MODULAR
    ensures Wrap(now) <= COUNTDOWN_TICK_MODULAR && Remaining(Wrap(deadline), Wrap(now)) == deadline - now
    ensures Wrap(deadline) == Wrap(now) <==> deadline == now
  {
  }

  lemma WrapAdd(now: nat, n: nat)
    ensures (Wrap(now) + n) % COUNTDOWN_TICK_MODULAR == Wrap(now + n)
  {
    var q := now / COUNTDOWN_TICK_MODULAR;
    assert now + n == (Wrap(now) + n) + q * COUNTDOWN_TICK_MODULAR;
    ModAddMultiple(Wrap(now) + n, COUNTDOWN_TICK_MODULAR, q);
  }

  ghost predicate EventIs(e: TimerEvent, m: map<nat, Armed>, now: nat) {
    && e.id in m && e.tickPeriod == m[e.id].period < COUNTDOWN_TICK_MODULAR
    && e.countdownTicks == Wrap(m[e.id].deadline)
    && now <= m[e.id].deadline < now + COUNTDOWN_TICK_MODULAR
  }

  ghost predicate AllArmed(events: seq<TimerEvent>, m: map<nat, Armed>, now: nat) {
    forall i :: 0 <= i < |events| ==> EventIs(events[i], m, now)
  }

  ghost predicate DistinctIds(events: seq<TimerEvent>) {
    forall i, j :: 0 <= i < j < |events| ==> events[i].id != events[j].id
  }

  ghost predicate Sorted(events: seq<TimerEvent>, m: map<nat, Armed>) {
    && (forall i :: 0 <= i < |events| ==> events[i].id in m)
    && (forall i, j :: 0 <= i < j < |events| ==> m[events[i].id].deadline <= m[events[j].id].deadline)
  }

  ghost predicate Listed(events: seq<TimerEvent>, id: nat) {
    exists i :: 0 <= i < |events| && events[i].id == id
  }

  /** The list holds each armed event once, in order of deadline. */
  ghost predicate Lists(events: seq<TimerEvent>, m: map<nat, Armed>, now: nat) {
    && AllArmed(events, m, now) && DistinctIds(events) && Sorted(events, m)
    && forall id :: id in m ==> Listed(events, id)
  }

  function Inserted(events: seq<TimerEvent>, k: nat, e: TimerEvent): (l: seq<TimerEvent>)
    requires k <= |events|
    ensures |l| == |events| + 1 && l[k] == e
    ensures forall i :: 0 <= i < |l| ==> l[i] == if i < k then events[i] else if i == k then e else events[i - 1]
  {
    events[..k] + [e] + events[k..]
  }

  function Removed(events: seq<TimerEvent>, k: nat): (l: seq<TimerEvent>)
    requires k < |events|
    ensures |l| == |events| - 1
    ensures forall i :: 0 <= i < |l| ==> l[i] == if i < k then events[i] else events[i + 1]
  {
    events[..k] + events[k + 1..]
  }

  lemma InsertedListed(events: seq<TimerEvent>, k: nat, e: TimerEvent, id: nat)
    requires k <= |events| && (id == e.id || Listed(events, id))
    ensures Listed(Inserted(events, k, e), id)
  {
    var l := Inserted(events, k, e);
    if id == e.id {
      assert l[k].id == id;
    } else {
      var i :| 0 <= i < |events| && events[i].id == id;
      assert l[if i < k then i else i + 1].id == id;
    }
  }

  lemma InsertedSorted(events: seq<TimerEvent>, m: map<nat, Armed>, k: nat, e: TimerEvent, a: Armed)
    requires Sorted(events, m) && k <= |events| && e.id !in m
    requires forall i :: 0 <= i < k ==> m[events[i].id].deadline <= a.deadline
    requires forall i :: k <= i < |events| ==> a.deadline <= m[events[i].id].deadline
    ensures Sorted(Inserted(events, k, e), m[e.id := a])
  {
  }

  lemma ListsInsert(events: seq<TimerEvent>, m: map<nat, Armed>, now: nat, k: nat, e: TimerEvent, a: Armed)
    requires Lists(events, m, now) && k <= |events| && e.id !in m
    requires EventIs(e, m[e.id := a], now)
    requires forall i :: 0 <= i < k ==> m[events[i].id].deadline <= a.deadline
    requires forall i :: k <= i < |events| ==> a.deadline <= m[events[i].id].deadline
    ensures Lists(Inserted(events, k, e), m[e.id := a], now)
  {
    hide Wrap, Listed;
    var l, n := Inserted(events, k, e), m[e.id := a];
    forall i | 0 <= i < |events| ensures EventIs(events[i], n, now) { assert EventIs(events[i], m, now); }
    InsertedSorted(events, m, k, e, a);
    forall id | id in n ensures Listed(l, id) { InsertedListed(events, k, e, id); }
  }

  lemma RemovedListed(events: seq<TimerEvent>, k: nat, id: nat)
    requires k < |events| && Listed(events, id) && id != events[k].id
    ensures Listed(Removed(events, k), id)
  {
    var i :| 0 <= i < |events| && events[i].id == id;
    assert Removed(events, k)[if i < k then i else i - 1].id == id;
  }

  lemma ListsRemove(events: seq<TimerEvent>, m: map<nat, Armed>, now: nat, k: nat)
    requires Lists(events, m, now) && k < |events|
    ensures Lists(Removed(events, k), m - {events[k].id}, now)
  {
    hide Wrap, Listed;
    var l, n := Removed(events, k), m - {events[k].id};
    forall i | 0 <= i < |l| ensures EventIs(l[i], n, now) {
      var j := if i < k then i else i + 1;
      assert EventIs(events[j], m, now);
      assert events[j].id != events[k].id;
    }
    forall id | id in n ensures Listed(l, id) { RemovedListed(events, k, id); }
  }

  class TimerEventList {
    var currentTick: nat
    var events: seq<TimerEvent>

    ghost var now: nat
    ghost var armed: map<nat, Armed>

    ghost predicate Valid()
      reads this
    {
      currentTick == Wrap(now) && Lists(events, armed, now)
    }

    constructor ()
      ensures Valid() && now == 0 && armed == map[]
    {
      currentTick, events, now, armed := 0, [], 0, map[];
    }

    /** Arms an event to complete waitTicks from now, keeping the list sorted. */
    method AddTimerEvent(waitTicks: nat, id: nat, tickPeriod: nat)
      requires Valid() && id !in armed && waitTicks < COUNTDOWN_TICK_MODULAR && tickPeriod < COUNTDOWN_TICK_MODULAR
      modifies this`events, this`armed
      ensures Valid() && armed == old(armed)[id := Armed(now + waitTicks, tickPeriod)]
    {
      hide Wrap, Remaining, DistinctIds, Listed;
      var i := 0;
      while i < |events|
        invariant 0 <= i <= |events|
        invariant forall j :: 0 <= j < i ==> armed[events[j].id].deadline < now + waitTicks
        modifies {}
      {
        assert EventIs(events[i], armed, now);
        RemainingTicks(now, armed[events[i].id].deadline);
        var waitTicks2 := Remaining(events[i].countdownTicks, currentTick);
        if waitTicks <= waitTicks2 { break; }
        i := i + 1;
      }
      WrapAdd(now, waitTicks);
      var te := TimerEvent(id, (currentTick + waitTicks) % COUNTDOWN_TICK_MODULAR, tickPeriod);
      ListsInsert(events, armed, now, i, te, Armed(now + waitTicks, tickPeriod));
      events := Inserted(events, i, te);
      armed := armed[id := Armed(now + waitTicks, tickPeriod)];
    }

    /** Unlinks an event that has not expired; an expired one-shot event is already gone. */
    method CancelTimerEvent(id: nat)
      requires Valid()
      modifies this`events, this`armed
      ensures Valid() && armed == old(armed) - {id}
    {
      var i := 0;
      while i < |events|
        invariant 0 <= i <= |events|
        invariant forall j :: 0 <= j < i ==> events[j].id != id
      {
        if events[i].id == id {
          ListsRemove(events, armed, now, i);
          events := Removed(events, i);
          armed := armed - {id};
          return;
        }
        i := i + 1;
      }
      assert !Listed(events, id);
    }

    /** One handler call: completes exactly the events due on this tick, each once, re-arms the
        periodic ones and advances the tick. */
    method HandleTimerEvents() returns (completed: seq<nat>)
      requires Valid()
      modifies this
      ensures Valid() && now == old(now) + 1 && armed == Handled(old(armed), old(now))
      ensures forall id :: id in completed <==> id in Due(old(armed), old(now))
      ensures forall i, j :: 0 <= i < j < |completed| ==> completed[i] != completed[j]
    {
      hide Wrap, Lists, Handled;
      completed := [];
      while events != [] && events[0].countdownTicks == currentTick
        invariant Valid() && now == old(now)
        invariant Progress(old(armed), armed, now, completed)
        invariant forall i, j :: 0 <= i < j < |completed| ==> completed[i] != completed[j]
        decreases Due(armed, now)
      {
        completed := HandleHead(old(armed), completed);
      }
      AllHandled(events, old(armed), armed, now, completed);
      StillListed(events, armed, now);
      WrapAdd(now, 1);
      currentTick := (currentTick + 1) % COUNTDOWN_TICK_MODULAR;
      now := now + 1;
    }

    /** Completes the event at the head of the list. */
    method HandleHead(ghost m: map<nat, Armed>, completed: seq<nat>) returns (completed': seq<nat>)
      requires Valid() && events != [] && events[0].countdownTicks == currentTick
      requires Progress(m, armed, now, completed)
      modifies this`events, this`armed
      ensures Valid() && Progress(m, armed, now, completed')
      ensures completed' == completed + [old(events)[0].id] && old(events)[0].id !in completed
      ensures Due(armed, now) < old(Due(armed, now))
    {
      hide Wrap, DistinctIds, Sorted, Listed;
      var curr := events[0];
      assert EventIs(curr, armed, now);
      RemainingTicks(now, armed[curr.id].deadline);
      ListsRemove(events, armed, now, 0);
      ghost var before := armed;
      events := Removed(events, 0);
      armed := armed - {curr.id};
      completed' := completed + [curr.id];
      if curr.tickPeriod > 0 {
        AddTimerEvent(curr.tickPeriod, curr.id, curr.tickPeriod);
      }
      assert curr.id in Due(before, now) && curr.id !in Due(armed, now);
    }
  }

  /** The table while the handler of tick t runs: completed events are re-armed or gone, the rest untouched. */
  ghost predicate Progress(m: map<nat, Armed>, n: map<nat, Armed>, t: nat, completed: seq<nat>) {
    && (forall id :: id in completed ==> id in Due(m, t))
    && (forall id :: id in n <==> id in m && (id in completed ==> m[id].period > 0))
    && (forall id :: id in n ==> n[id] == if id in completed then Armed(t + m[id].period, m[id].period) else m[id])
  }

  /** When the head is not due, nothing is. */
  lemma AllHandled(events: seq<TimerEvent>, m: map<nat, Armed>, n: map<nat, Armed>, t: nat, completed: seq<nat>)
    requires Lists(events, n, t) && Progress(m, n, t, completed)
    requires events != [] ==> events[0].countdownTicks != Wrap(t)
    ensures n == Handled(m, t) && forall id :: id in completed <==> id in Due(m, t)
    ensures forall i :: 0 <= i < |events| ==> events[i].id in n && n[events[i].id].deadline > t
  {
    hide Wrap, DistinctIds;
    if events != [] {
      assert EventIs(events[0], n, t);
      RemainingTicks(t, n[events[0].id].deadline);
    }
    forall i | 0 <= i < |events| ensures n[events[i].id].deadline > t { assert EventIs(events[i], n, t); }
    forall id | id in m && id !in completed ensures m[id].deadline != t { assert Listed(events, id); }
  }

  lemma StillListed(events: seq<TimerEvent>, m: map<nat, Armed>, t: nat)
    requires Lists(events, m, t)
    requires forall i :: 0 <= i < |events| ==> events[i].id in m && m[events[i].id].deadline > t
    ensures Lists(events, m, t + 1)
  {
    forall i | 0 <= i < |events| ensures EventIs(events[i], m, t + 1) { assert EventIs(events[i], m, t); }
  }
}

/** The list at work: every call is a step of a run, so what the run guarantees holds of what the handler completes. */
module TimerObject {
  import opened TimerSpec
  import opened Timer

  /** What each step completed: exactly the events due, each once. */
  ghost predicate Reports(ss: seq<State>, ops: seq<Op>, done: seq<seq<nat>>)
    requires Run(ss, ops)
  {
    && |done| == |ops|
    && (forall i, id :: 0 <= i < |ops| ==> (id in done[i] <==> CompletesAt(ss, ops, i, id)))
    && (forall i :: 0 <= i < |ops| ==> NoneTwice(done[i]))
  }

  ghost predicate NoneTwice(s: seq<nat>) { forall i, j :: 0 <= i < j < |s| ==> s[i] != s[j] }

  lemma RunMore(ss: seq<State>, ops: seq<Op>, done: seq<seq<nat>>, t: State, op: Op, ids: seq<nat>)
    requires Run(ss, ops) && Reports(ss, ops, done) && Next(ss[|ss| - 1], t, op) && NoneTwice(ids)
    requires forall id :: id in ids <==> op.Tick? && id in Due(ss[|ss| - 1].armed, ss[|ss| - 1].now)
    ensures Run(ss + [t], ops + [op]) && Reports(ss + [t], ops + [op], done + [ids])
  {
    hide Next, Due, NoneTwice;
    var ss1, ops1, done1 := ss + [t], ops + [op], done + [ids];
    forall i | 0 <= i < |ops1| ensures Next(ss1[i], ss1[i + 1], ops1[i]) {
      if i < |ops| { assert ss1[i] == ss[i] && ss1[i + 1] == ss[i + 1]; }
    }
    forall i, id | 0 <= i < |ops1| ensures id in done1[i] <==> CompletesAt(ss1, ops1, i, id) {
      if i < |ops| { assert id in done[i] <==> CompletesAt(ss, ops, i, id); }
    }
  }

  class SharedTimer {
    const list: TimerEventList
    ghost var ss: seq<State>
    ghost var ops: seq<Op>
    ghost var done: seq<seq<nat>>

    ghost predicate Valid()
      reads this, list
    {
      list.Valid() && Run(ss, ops) && Reports(ss, ops, done) && ss[|ss| - 1] == State(list.now, list.armed)
    }

    constructor ()
      ensures Valid() && fresh(list) && ops == []
    {
      list := new TimerEventList();
      new;
      ss, ops, done := [State(list.now, list.armed)], [], [];
    }

    ghost method Step(op: Op, ids: seq<nat>)
      requires Run(ss, ops) && Reports(ss, ops, done) && Next(ss[|ss| - 1], State(list.now, list.armed), op) && NoneTwice(ids) && list.Valid()
      requires forall id :: id in ids <==> op.Tick? && id in Due(ss[|ss| - 1].armed, ss[|ss| - 1].now)
      modifies this`ss, this`ops, this`done
      ensures Valid() && ops == old(ops) + [op] && done == old(done) + [ids] && |ss| == |old(ss)| + 1 && ss[..|old(ss)|] == old(ss)
    {
      RunMore(ss, ops, done, State(list.now, list.armed), op, ids);
      ss, ops, done := ss + [State(list.now, list.armed)], ops + [op], done + [ids];
    }

    /** Arms an event; a wait is at least one tick. */
    method SetAlarm(id: nat, wait: nat, period: nat)
      requires Valid() && id !in list.armed && 0 < wait < COUNTDOWN_TICK_MODULAR && period < COUNTDOWN_TICK_MODULAR
      modifies this, list
      ensures Valid() && ops == old(ops) + [Arm(id, wait, period)] && |ss| == |old(ss)| + 1 && ss[..|old(ss)|] == old(ss)
    {
      hide Lists, Run, Reports;
      list.AddTimerEvent(wait, id, period);
      Step(Arm(id, wait, period), []);
    }

    method CancelAlarm(id: nat)
      requires Valid()
      modifies this, list
      ensures Valid() && ops == old(ops) + [Cancel(id)] && |ss| == |old(ss)| + 1 && ss[..|old(ss)|] == old(ss)
    {
      hide Lists, Run, Reports;
      list.CancelTimerEvent(id);
      Step(Cancel(id), []);
    }

    /** One interrupt. */
    method Interrupt() returns (completed: seq<nat>)
      requires Valid()
      modifies this, list
      ensures Valid() && ops == old(ops) + [Tick] && done == old(done) + [completed] && |ss| == |old(ss)| + 1 && ss[..|old(ss)|] == old(ss)
    {
      hide Lists, Run, Reports;
      completed := list.HandleTimerEvents();
      Step(Tick, completed);
    }

    /** After any calls: an alarm set for w ticks was completed by the interrupt of exactly that tick, a periodic one by
        those of that tick and every period after it, unless it was cancelled or set anew meanwhile. */
    lemma Exact(a: nat, i: nat, id: nat)
      requires Valid() && a < i < |ops| && ops[a].Arm? && ops[a].id == id && ops[i].Tick? && Undisturbed(ops, a + 1, i, id)
      ensures |done| == |ops| && |ss| == |ops| + 1
      ensures id in done[i] <==>
              if ops[a].period == 0 then ss[i].now == ss[a].now + ops[a].wait
              else Rounds(ss[a].now + ops[a].wait, ops[a].period, ss[i].now)
    {
      hide Lists, Rounds;
      if ops[a].period == 0 { OneShotExact(ss, ops, a, i, id); } else { PeriodicExact(ss, ops, a, i, id); }
    }

    /** After any calls: no interrupt completed a cancelled alarm that was not set again. */
    lemma Cancelled(a: nat, i: nat, id: nat)
      requires Valid() && a < i < |ops| && ops[a] == Cancel(id) && forall j :: a < j < i ==> !(ops[j].Arm? && ops[j].id == id)
      ensures |done| == |ops| && id !in done[i]
    {
      hide Lists;
      CancelledStays(ss, ops, a, i, id);
    }
  }
}
