/** The run queue of thread/thread.c and the time slice of dev/timer.c.

    A `Sched` value is what `schedule`, `thread_block`, `thread_unblock`,
    `thread_yield` and the timer handler read and write: each task's status and
    time slice, the ready list, the running task and the idle task.  All of these
    operations run with interrupts off, so each is one function on `Sched`. */
module Scheduler {
  import opened Sequences
  import opened Lists

  type Tid = nat

  datatype Status = Running | Ready | Blocked | Waiting | Hanging

  datatype Task = Task(status: Status, ticks: nat, priority: nat)

  datatype Sched = Sched(tasks: map<Tid, Task>, ready: seq<Tid>, cur: Tid, idle: Tid)

  /** The statuses that `thread_block` accepts and `thread_unblock` expects. */
  predicate Parked(st: Status) {
    st == Blocked || st == Waiting || st == Hanging
  }

  function SetStatus(s: Sched, t: Tid, st: Status): (r: Sched)
    requires t in s.tasks
  {
    s.(tasks := s.tasks[t := s.tasks[t].(status := st)])
  }

  /** What holds inside `schedule`: the ready list is exactly the READY tasks, only
      the caller may still be marked RUNNING, and idle only ever parks as BLOCKED. */
  ghost predicate Mid(s: Sched) {
    && s.cur in s.tasks
    && s.idle in s.tasks
    && NoDup(s.ready)
    && (forall t :: t in s.ready ==> t in s.tasks && s.tasks[t].status == Ready)
    && (forall t :: t in s.tasks && s.tasks[t].status == Ready ==> t in s.ready)
    && (forall t :: t in s.tasks && s.tasks[t].status == Running ==> t == s.cur)
    && (forall t :: t in s.tasks ==> s.tasks[t].ticks <= s.tasks[t].priority)
    && s.tasks[s.idle].status != Waiting && s.tasks[s.idle].status != Hanging
  }

  /** Well-formedness between two steps: additionally the current task is RUNNING. */
  ghost predicate WellFormed(s: Sched) {
    Mid(s) && s.tasks[s.cur].status == Running
  }

  // ----- operations ---------------------------------------------------------

  /** `thread_unblock`: push to the front of the ready list. */
  function Unblock(s: Sched, t: Tid): (r: Sched)
    requires t in s.tasks
  {
    SetStatus(s, t, Ready).(ready := [t] + s.ready)
  }

  /** The first half of `schedule`: a task that is still RUNNING used up its slice
      and goes to the tail of the ready list with a full slice. */
  function Requeue(s: Sched): (r: Sched)
    requires s.cur in s.tasks
  {
    var me := s.tasks[s.cur];
    if me.status == Running then
      s.(ready := s.ready + [s.cur],
         tasks := s.tasks[s.cur := Task(Ready, me.priority, me.priority)])
    else s
  }

  function WakeIdle(s: Sched): (r: Sched)
    requires s.idle in s.tasks
  {
    if s.ready == [] then Unblock(s, s.idle) else s
  }

  /** The second half of `schedule`: the head of the ready list gets the CPU. */
  function Dispatch(s: Sched): (r: Sched)
    requires s.ready != [] && s.ready[0] in s.tasks
  {
    SetStatus(s, s.ready[0], Running).(ready := s.ready[1..], cur := s.ready[0])
  }

  function Schedule(s: Sched): (r: Sched)
    requires Mid(s)
  {
    Dispatch(WakeIdle(Requeue(s)))
  }

  /** `thread_block`. */
  function Block(s: Sched, st: Status): (r: Sched)
    requires WellFormed(s) && Parked(st) && (s.cur == s.idle ==> st == Blocked)
  {
    Schedule(SetStatus(s, s.cur, st))
  }

  /** `thread_yield`: unlike the timer path it does not refill the time slice. */
  function Yield(s: Sched): (r: Sched)
    requires WellFormed(s)
  {
    ParkReady(s);
    Schedule(SetStatus(s, s.cur, Ready).(ready := s.ready + [s.cur]))
  }

  /** `intr_timer_handler`. */
  function Tick(s: Sched): (r: Sched)
    requires WellFormed(s)
  {
    var me := s.tasks[s.cur];
    if me.ticks == 0 then Schedule(s)
    else s.(tasks := s.tasks[s.cur := me.(ticks := me.ticks - 1)])
  }

  /** `thread_start` / `sys_fork`: a new task joins the tail of the ready list. */
  function Spawn(s: Sched, t: Tid, prio: nat): (r: Sched)
    requires t !in s.tasks
  {
    s.(tasks := s.tasks[t := Task(Ready, prio, prio)], ready := s.ready + [t])
  }

  /** `thread_exit(t, 0)`: the task leaves the ready list, if it is on it, and is gone. */
  function Remove(s: Sched, t: Tid): (r: Sched) {
    s.(tasks := s.tasks - {t}, ready := Without(s.ready, t))
  }

  // ----- every operation keeps the run queue well formed ---------------------

  lemma ParkReady(s: Sched)
    requires WellFormed(s)
    ensures Mid(SetStatus(s, s.cur, Ready).(ready := s.ready + [s.cur]))
  {
    assert s.cur !in s.ready;
  }

  lemma RequeueMid(s: Sched)
    requires Mid(s)
    ensures Mid(Requeue(s)) && Requeue(s).tasks[s.cur].status != Running
  {
    if s.tasks[s.cur].status == Running {
      assert s.cur !in s.ready;
    }
  }

  /** The ASSERTs that `schedule` evaluates when called in state s: thread.c 186, then 226 and
      230 for idle, then 199. */
  ghost predicate ScheduleSafe(s: Sched) {
    && s.cur in s.tasks && s.idle in s.tasks
    && (s.tasks[s.cur].status == Running ==> s.cur !in s.ready)
    && (var q := Requeue(s);
        && (q.ready == [] ==> q.tasks[q.idle].status == Blocked && q.idle !in q.ready)
        && WakeIdle(q).ready != [])
  }

  /** `thread_block` from state s calls `schedule` safely. */
  ghost predicate BlockSafe(s: Sched, st: Status) {
    s.cur in s.tasks && ScheduleSafe(SetStatus(s, s.cur, st))
  }

  /** `thread_yield` from state s: thread.c 247, and then those of `schedule`. */
  ghost predicate YieldSafe(s: Sched) {
    s.cur in s.tasks && s.cur !in s.ready && ScheduleSafe(SetStatus(s, s.cur, Ready).(ready := s.ready + [s.cur]))
  }

  lemma BlockAsserts(s: Sched, st: Status)
    requires WellFormed(s) && Parked(st) && (s.cur == s.idle ==> st == Blocked)
    ensures BlockSafe(s, st)
  {
    ScheduleAsserts(SetStatus(s, s.cur, st));
  }

  lemma YieldAsserts(s: Sched)
    requires WellFormed(s)
    ensures YieldSafe(s)
  {
    ParkReady(s);
    ScheduleAsserts(SetStatus(s, s.cur, Ready).(ready := s.ready + [s.cur]));
  }

  /** `schedule` always finds a task: when the ready list is empty the idle task is
      parked as BLOCKED, so waking it is legal (asserts at thread.c 186, 199, 226, 230). */
  lemma ScheduleAsserts(s: Sched)
    requires Mid(s)
    ensures ScheduleSafe(s)
  {
    RequeueMid(s);
    var q := Requeue(s);
    if q.ready == [] {
      assert q.tasks[q.idle].status != Ready;
      assert q.tasks[q.idle].status != Running;
    }
  }

  lemma WakeIdleMid(s: Sched)
    requires Mid(s) && s.tasks[s.cur].status != Running
    ensures Mid(WakeIdle(s)) && WakeIdle(s).tasks[s.cur].status != Running
    ensures WakeIdle(s).ready != []
  {
  }

  lemma DispatchInv(s: Sched)
    requires Mid(s) && s.tasks[s.cur].status != Running && s.ready != []
    ensures WellFormed(Dispatch(s))
  {
    var r := Dispatch(s);
    forall t | t in r.tasks && r.tasks[t].status == Ready ensures t in r.ready {
      var i :| 0 <= i < |s.ready| && s.ready[i] == t;
      assert r.ready[i - 1] == t;
    }
  }

  lemma ScheduleKeepsInv(s: Sched)
    requires Mid(s)
    ensures WellFormed(Schedule(s))
    ensures Schedule(s).tasks.Keys == s.tasks.Keys && Schedule(s).idle == s.idle
  {
    RequeueMid(s);
    WakeIdleMid(Requeue(s));
    DispatchInv(WakeIdle(Requeue(s)));
  }

  lemma BlockKeepsInv(s: Sched, st: Status)
    requires WellFormed(s) && Parked(st) && (s.cur == s.idle ==> st == Blocked)
    ensures WellFormed(Block(s, st)) && Block(s, st).tasks.Keys == s.tasks.Keys && Block(s, st).idle == s.idle
  {
    ScheduleKeepsInv(SetStatus(s, s.cur, st));
  }

  lemma YieldKeepsInv(s: Sched)
    requires WellFormed(s)
    ensures WellFormed(Yield(s)) && Yield(s).tasks.Keys == s.tasks.Keys && Yield(s).idle == s.idle
    ensures s.cur !in s.ready
  {
    ParkReady(s);
    ScheduleKeepsInv(SetStatus(s, s.cur, Ready).(ready := s.ready + [s.cur]));
  }

  lemma TickKeepsInv(s: Sched)
    requires WellFormed(s)
    ensures WellFormed(Tick(s)) && Tick(s).tasks.Keys == s.tasks.Keys && Tick(s).idle == s.idle
  {
    if s.tasks[s.cur].ticks == 0 {
      ScheduleKeepsInv(s);
    }
  }

  /** Unblocking a parked task is legal (asserts at thread.c 226 and 230). */
  lemma UnblockKeepsInv(s: Sched, t: Tid)
    requires WellFormed(s) && t in s.tasks && Parked(s.tasks[t].status)
    ensures t !in s.ready && WellFormed(Unblock(s, t))
  {
  }

  lemma SpawnKeepsInv(s: Sched, t: Tid, prio: nat)
    requires WellFormed(s) && t !in s.tasks
    ensures WellFormed(Spawn(s, t, prio))
  {
  }

  /** Any task but the caller and idle may be removed, runnable or not. */
  lemma RemoveKeepsInv(s: Sched, t: Tid)
    requires WellFormed(s) && t != s.cur && t != s.idle
    ensures WellFormed(Remove(s, t)) && forall u :: u in Remove(s, t).ready <==> u in s.ready && u != t
    ensures t !in s.ready ==> Remove(s, t).ready == s.ready
  {
    WithoutOk(s.ready, t);
    if t !in s.ready { WithoutNone(s.ready, t); }
  }

  /** A task is parked in r as it is in s. */
  ghost predicate ParkedAlike(s: Sched, r: Sched, t: Tid) {
    && t in s.tasks && t in r.tasks
    && (Parked(s.tasks[t].status) ==> r.tasks[t].status == s.tasks[t].status)
    && (!Parked(s.tasks[t].status) ==> !Parked(r.tasks[t].status))
  }

  lemma DispatchFrame(s: Sched, t: Tid)
    requires Mid(s) && s.ready != [] && t in s.tasks
    ensures ParkedAlike(s, Dispatch(s), t)
  {
    assert s.ready[0] in s.ready;
  }

  /** `schedule` parks nobody and, apart from idle, wakes nobody. */
  lemma ScheduleFrame(s: Sched, t: Tid)
    requires Mid(s) && t in s.tasks && t != s.idle
    ensures t in Schedule(s).tasks
    ensures Parked(s.tasks[t].status) ==> Schedule(s).tasks[t].status == s.tasks[t].status
    ensures !Parked(s.tasks[t].status) ==> !Parked(Schedule(s).tasks[t].status)
  {
    RequeueMid(s);
    WakeIdleMid(Requeue(s));
    var w := WakeIdle(Requeue(s));
    assert ParkedAlike(s, w, t);
    DispatchFrame(w, t);
  }

  // ----- time slices -----------------------------------------------------------

  /** Task t has the slice it had, or, if it is the caller and `refilled`, a full one. */
  ghost predicate SliceKept(s: Sched, r: Sched, t: Tid, refilled: bool) {
    && t in s.tasks && t in r.tasks
    && r.tasks[t].priority == s.tasks[t].priority
    && r.tasks[t].ticks == if refilled && t == s.cur then s.tasks[t].priority else s.tasks[t].ticks
  }

  ghost predicate SlicesAre(s: Sched, r: Sched, refilled: bool) {
    forall t {:trigger SliceKept(s, r, t, refilled)} :: t in s.tasks ==> SliceKept(s, r, t, refilled)
  }

  /** `schedule` refills the slice of a caller that is still RUNNING, and touches no other
      slice and no priority. */
  lemma ScheduleSlices(s: Sched)
    requires Mid(s)
    ensures SlicesAre(s, Schedule(s), s.tasks[s.cur].status == Running)
  {
    RequeueMid(s);
    WakeIdleMid(Requeue(s));
  }

  /** `thread_block` keeps every slice. */
  lemma BlockSlices(s: Sched, st: Status)
    requires WellFormed(s) && Parked(st) && (s.cur == s.idle ==> st == Blocked)
    ensures SlicesAre(s, Block(s, st), false)
  {
    var b := SetStatus(s, s.cur, st);
    ScheduleSlices(b);
    forall t | t in s.tasks ensures SliceKept(s, Block(s, st), t, false) {
      assert SliceKept(b, Block(s, st), t, false);
    }
  }

  /** `thread_yield` keeps every slice: the caller comes back with what it had left. */
  lemma YieldSlices(s: Sched)
    requires WellFormed(s)
    ensures SlicesAre(s, Yield(s), false)
  {
    ParkReady(s);
    var b := SetStatus(s, s.cur, Ready).(ready := s.ready + [s.cur]);
    ScheduleSlices(b);
    forall t | t in s.tasks ensures SliceKept(s, Yield(s), t, false) {
      assert SliceKept(b, Yield(s), t, false);
    }
  }

  /** The timer takes one tick from the running task, or, if none is left, fills its slice
      and calls `schedule`; nobody else's slice changes. */
  lemma TickSlices(s: Sched)
    requires WellFormed(s)
    ensures s.tasks[s.cur].ticks == 0 ==> SlicesAre(s, Tick(s), true)
    ensures s.tasks[s.cur].ticks > 0 ==>
              Tick(s).cur == s.cur && Tick(s).ready == s.ready && Tick(s).tasks[s.cur].ticks + 1 == s.tasks[s.cur].ticks
    ensures forall t :: t in s.tasks && t != s.cur && s.tasks[s.cur].ticks > 0 ==> Tick(s).tasks[t] == s.tasks[t]
  {
    if s.tasks[s.cur].ticks == 0 { ScheduleSlices(s); }
  }

  /** A new task waits for everybody, with a full slice. */
  lemma SpawnLast(s: Sched, t: Tid, prio: nat)
    requires WellFormed(s) && t !in s.tasks
    ensures var r := Spawn(s, t, prio);
            && r.cur == s.cur && r.ready[..|s.ready|] == s.ready && r.ready[|s.ready|..] == [t]
            && r.tasks[t].priority == prio && r.tasks[t].ticks == prio && SlicesAre(s, r, false)
  {
    assert Spawn(s, t, prio).ready[|s.ready|] == t;
  }

  /** With nobody else ready, a caller that is still RUNNING goes on, and after one that
      gave way idle runs. */
  lemma ScheduleAlone(s: Sched)
    requires Mid(s) && s.ready == []
    ensures Schedule(s).cur == if s.tasks[s.cur].status == Running then s.cur else s.idle
    ensures Schedule(s).ready == []
  {
  }

  // ----- waking up --------------------------------------------------------------

  /** A woken thread is the next to run, whichever way the caller gives up the CPU. */
  lemma UnblockRunsNext(s: Sched, t: Tid, st: Status)
    requires WellFormed(s) && t in s.tasks && Parked(s.tasks[t].status)
    requires Parked(st) && (s.cur == s.idle ==> st == Blocked)
    ensures WellFormed(Unblock(s, t))
    ensures Schedule(Unblock(s, t)).cur == t
    ensures Block(Unblock(s, t), st).cur == t && Yield(Unblock(s, t)).cur == t
  {
    var u := Unblock(s, t);
    UnblockKeepsInv(s, t);
    ScheduleAdvances(u);
    ScheduleAdvances(SetStatus(u, u.cur, st));
    ParkReady(u);
    ScheduleAdvances(SetStatus(u, u.cur, Ready).(ready := u.ready + [u.cur]));
  }

  /** Whoever was queued before keeps the order, one place further back; slices, and all the
      other tasks, are as they were. */
  lemma UnblockOrder(s: Sched, t: Tid)
    requires WellFormed(s) && t in s.tasks && Parked(s.tasks[t].status)
    ensures var u := Unblock(s, t);
            && |u.ready| == |s.ready| + 1 && u.ready[0] == t && u.cur == s.cur && u.idle == s.idle
            && (forall i {:trigger s.ready[i]} :: 0 <= i < |s.ready| ==> u.ready[i + 1] == s.ready[i])
            && SlicesAre(s, u, false) && u.tasks - {t} == s.tasks - {t}
  {
    var u := Unblock(s, t);
    assert s.tasks[t].status != Ready;
    assert u.tasks.Keys == s.tasks.Keys;
  }

  // ----- round robin ----------------------------------------------------------

  /** What can happen to the run queue. */
  datatype Event = TimerTick | BlockSelf(stat: Status) | YieldSelf | SpawnNew(t: Tid, prio: nat) | WakeUp(t: Tid)

  predicate Allowed(s: Sched, e: Event) {
    match e
    case TimerTick => true
    case BlockSelf(st) => Parked(st) && (s.cur == s.idle ==> st == Blocked)
    case YieldSelf => true
    case SpawnNew(t, _) => t !in s.tasks
    case WakeUp(t) => t in s.tasks && Parked(s.tasks[t].status)
  }

  function Apply(s: Sched, e: Event): (r: Sched)
    requires WellFormed(s) && Allowed(s, e)
  {
    match e
    case TimerTick => Tick(s)
    case BlockSelf(st) => Block(s, st)
    case YieldSelf => Yield(s)
    case SpawnNew(t, prio) => Spawn(s, t, prio)
    case WakeUp(t) => Unblock(s, t)
  }

  /** Does the event call `schedule`? */
  predicate Switches(s: Sched, e: Event)
    requires s.cur in s.tasks
  {
    match e
    case TimerTick => s.tasks[s.cur].ticks == 0
    case BlockSelf(_) => true
    case YieldSelf => true
    case SpawnNew(_, _) => false
    case WakeUp(_) => false
  }

  /** By how many places the event moves the threads on the ready list towards its tail: a
      call of `schedule` moves them forward, a wake-up pushes somebody in front of them. */
  function Shift(s: Sched, e: Event): (d: int)
    requires s.cur in s.tasks
    ensures -1 <= d <= 1
  {
    if Switches(s, e) then -1 else if e.WakeUp? then 1 else 0
  }

  lemma ApplyKeepsInv(s: Sched, e: Event)
    requires WellFormed(s) && Allowed(s, e)
    ensures WellFormed(Apply(s, e))
  {
    match e
    case TimerTick => TickKeepsInv(s);
    case BlockSelf(st) => BlockKeepsInv(s, st);
    case YieldSelf => YieldKeepsInv(s);
    case SpawnNew(t, prio) => SpawnKeepsInv(s, t, prio);
    case WakeUp(t) => UnblockKeepsInv(s, t);
  }

  ghost predicate RunOk(s: Sched, es: seq<Event>)
    requires WellFormed(s)
    decreases |es|
  {
    es == [] || (Allowed(s, es[0]) && (ApplyKeepsInv(s, es[0]); RunOk(Apply(s, es[0]), es[1..])))
  }

  ghost function Final(s: Sched, es: seq<Event>): (r: Sched)
    requires WellFormed(s) && RunOk(s, es)
    ensures WellFormed(r)
    decreases |es|
  {
    if es == [] then s else ApplyKeepsInv(s, es[0]); Final(Apply(s, es[0]), es[1..])
  }

  /** How many times the run calls `schedule`. */
  ghost function Calls(s: Sched, es: seq<Event>): (n: nat)
    requires WellFormed(s) && RunOk(s, es)
    ensures n <= |es|
    decreases |es|
  {
    if es == [] then 0
    else ApplyKeepsInv(s, es[0]);
         (if Switches(s, es[0]) then 1 else 0) + Calls(Apply(s, es[0]), es[1..])
  }

  ghost function Wakes(es: seq<Event>): (n: nat) {
    if es == [] then 0 else (if es[0].WakeUp? then 1 else 0) + Wakes(es[1..])
  }

  /** The thread at position k has not been given the CPU: at no point of the run were there
      more calls of `schedule` than k and the wake-ups together. */
  ghost predicate StillQueued(s: Sched, es: seq<Event>, k: int)
    requires WellFormed(s) && RunOk(s, es)
    decreases |es|
  {
    k >= 0 && (es == [] || (ApplyKeepsInv(s, es[0]); StillQueued(Apply(s, es[0]), es[1..], k + Shift(s, es[0]))))
  }

  /** One call of `schedule` moves the whole ready list forward by one place. */
  lemma ScheduleAdvances(s: Sched)
    requires Mid(s) && s.ready != []
    ensures Schedule(s).cur == s.ready[0]
    ensures Schedule(s).ready == s.ready[1..] + (if s.tasks[s.cur].status == Running then [s.cur] else [])
    ensures forall i :: 0 <= i < |s.ready| ==>
              s.ready[i] in Schedule(s).tasks && Schedule(s).tasks[s.ready[i]].ticks == s.tasks[s.ready[i]].ticks
  {
  }

  lemma ApplyAdvances(s: Sched, e: Event)
    requires WellFormed(s) && Allowed(s, e) && s.ready != []
    ensures var r := Apply(s, e);
            if Switches(s, e) then r.cur == s.ready[0] && s.ready[1..] <= r.ready
            else r.cur == s.cur && (if e.WakeUp? then r.ready == [e.t] + s.ready else s.ready <= r.ready)
    ensures forall i :: 0 <= i < |s.ready| ==>
              s.ready[i] in Apply(s, e).tasks && Apply(s, e).tasks[s.ready[i]].ticks == s.tasks[s.ready[i]].ticks
  {
    match e
    case TimerTick => if s.tasks[s.cur].ticks == 0 { ScheduleAdvances(s); }
    case BlockSelf(st) => ScheduleAdvances(SetStatus(s, s.cur, st));
    case YieldSelf =>
      ParkReady(s);
      ScheduleAdvances(SetStatus(s, s.cur, Ready).(ready := s.ready + [s.cur]));
      assert (s.ready + [s.cur])[1..] == s.ready[1..] + [s.cur];
      forall i | 0 <= i < |s.ready|
        ensures Apply(s, e).tasks[s.ready[i]].ticks == s.tasks[s.ready[i]].ticks
      {
        assert (s.ready + [s.cur])[i] == s.ready[i];
      }
    case SpawnNew(t, prio) =>
    case WakeUp(t) =>
  }

  /** One event moves the thread at position k by `Shift` places. */
  lemma PositionStep(s: Sched, e: Event, k: nat)
    requires WellFormed(s) && Allowed(s, e) && k < |s.ready| && k + Shift(s, e) >= 0
    ensures k + Shift(s, e) < |Apply(s, e).ready| && Apply(s, e).ready[k + Shift(s, e)] == s.ready[k]
  {
    ApplyAdvances(s, e);
    assert Switches(s, e) ==> s.ready[1..][k - 1] == s.ready[k];
  }

  /** The state after the first event, and where the thread at position k is then. */
  lemma FirstEvent(s: Sched, es: seq<Event>, k: nat) returns (r: Sched, j: nat)
    requires WellFormed(s) && RunOk(s, es) && k < |s.ready| && StillQueued(s, es, k) && es != []
    ensures WellFormed(r) && RunOk(r, es[1..]) && Final(r, es[1..]) == Final(s, es)
    ensures j < |r.ready| && r.ready[j] == s.ready[k] && StillQueued(r, es[1..], j)
    ensures j + Wakes(es[1..]) - Calls(r, es[1..]) == k + Wakes(es) - Calls(s, es)
  {
    ApplyKeepsInv(s, es[0]);
    PositionStep(s, es[0], k);
    r := Apply(s, es[0]);
    assert StillQueued(r, es[1..], k + Shift(s, es[0]));
    j := k + Shift(s, es[0]);
  }

  /** Until it gets the CPU, the thread at position k of the ready list has moved up by
      the number of `schedule` calls made so far, and back by the number of wake-ups. */
  lemma {:induction false} PositionAfterCalls(s: Sched, es: seq<Event>, k: nat)
    requires WellFormed(s) && RunOk(s, es) && k < |s.ready| && StillQueued(s, es, k)
    ensures 0 <= k + Wakes(es) - Calls(s, es) < |Final(s, es).ready|
    ensures Final(s, es).ready[k + Wakes(es) - Calls(s, es)] == s.ready[k]
    decreases |es|
  {
    if es != [] {
      var r, j := FirstEvent(s, es, k);
      PositionAfterCalls(r, es[1..], j);
    }
  }

  lemma {:induction false} RunSplit(s: Sched, es: seq<Event>, e: Event)
    requires WellFormed(s) && RunOk(s, es + [e])
    ensures RunOk(s, es) && Allowed(Final(s, es), e)
    ensures Final(s, es + [e]) == Apply(Final(s, es), e)
    ensures Calls(s, es + [e]) == Calls(s, es) + (if Switches(Final(s, es), e) then 1 else 0)
    ensures Wakes(es + [e]) == Wakes(es) + (if e.WakeUp? then 1 else 0)
    decreases |es|
  {
    if es == [] {
      assert (es + [e])[1..] == [];
      ApplyKeepsInv(s, e);
      assert RunOk(s, es);
    } else {
      assert (es + [e])[1..] == es[1..] + [e];
      ApplyKeepsInv(s, es[0]);
      RunSplit(Apply(s, es[0]), es[1..], e);
    }
  }

  /** Round robin, counted in calls: the thread at position k of the ready list runs right
      after the call of `schedule` that is one more than k and the wake-ups since then, and
      not before. */
  lemma RunsAfterCalls(s: Sched, es: seq<Event>, e: Event, k: nat)
    requires WellFormed(s) && RunOk(s, es + [e]) && k < |s.ready|
    requires RunOk(s, es) ==> StillQueued(s, es, k)
    ensures Calls(s, es + [e]) == k + Wakes(es + [e]) + 1 ==> Final(s, es + [e]).cur == s.ready[k]
    ensures Calls(s, es + [e]) <= k + Wakes(es + [e]) ==> Final(s, es + [e]).cur != s.ready[k]
    ensures Calls(s, es + [e]) <= k + Wakes(es + [e]) + 1
  {
    RunSplit(s, es, e);
    PositionAfterCalls(s, es, k);
    var m := Final(s, es);
    ApplyAdvances(m, e);
    var j := k + Wakes(es) - Calls(s, es);
    if j + Shift(m, e) >= 0 {
      PositionStep(m, e, j);
      ApplyKeepsInv(m, e);
    }
  }

  /** Timer interrupts that the listed tasks can still absorb before giving way. */
  ghost function Slices(s: Sched, ids: seq<Tid>): (n: nat)
    requires forall i :: 0 <= i < |ids| ==> ids[i] in s.tasks
  {
    if ids == [] then 0 else s.tasks[ids[0]].ticks + 1 + Slices(s, ids[1..])
  }

  ghost function Priorities(s: Sched, ids: seq<Tid>): (n: nat)
    requires forall i :: 0 <= i < |ids| ==> ids[i] in s.tasks
  {
    if ids == [] then 0 else s.tasks[ids[0]].priority + 1 + Priorities(s, ids[1..])
  }

  lemma {:induction false} SlicesSame(s: Sched, r: Sched, ids: seq<Tid>)
    requires forall i :: 0 <= i < |ids| ==> ids[i] in s.tasks && ids[i] in r.tasks
    requires forall i :: 0 <= i < |ids| ==> s.tasks[ids[i]].ticks == r.tasks[ids[i]].ticks
    ensures Slices(s, ids) == Slices(r, ids)
  {
    if ids != [] {
      SlicesSame(s, r, ids[1..]);
    }
  }

  lemma {:induction false} SlicesBounded(s: Sched, ids: seq<Tid>)
    requires forall i :: 0 <= i < |ids| ==> ids[i] in s.tasks
    requires forall t :: t in s.tasks ==> s.tasks[t].ticks <= s.tasks[t].priority
    ensures Slices(s, ids) <= Priorities(s, ids)
  {
    if ids != [] {
      SlicesBounded(s, ids[1..]);
    }
  }

  /** The running task's slice plus the slices of the k tasks ahead of position k. */
  ghost function Budget(s: Sched, k: nat): (n: nat)
    requires WellFormed(s) && k < |s.ready|
  {
    s.tasks[s.cur].ticks + 1 + Slices(s, s.ready[..k])
  }

  ghost function TimerTicks(es: seq<Event>): (n: nat) {
    if es == [] then 0 else (if es[0] == TimerTick then 1 else 0) + TimerTicks(es[1..])
  }

  /** `t` is given the CPU at some point of the run. */
  ghost predicate GetsCpu(s: Sched, es: seq<Event>, t: Tid)
    requires WellFormed(s) && RunOk(s, es)
    decreases |es|
  {
    s.cur == t || (es != [] && (ApplyKeepsInv(s, es[0]); GetsCpu(Apply(s, es[0]), es[1..], t)))
  }

  /** The slice that an event puts in front of everybody on the ready list. */
  function Pushed(s: Sched, e: Event): (n: nat)
    requires Allowed(s, e)
    ensures !e.WakeUp? ==> n == 0
  {
    if e.WakeUp? then s.tasks[e.t].ticks + 1 else 0
  }

  /** The slices of the threads woken in the course of the run. */
  ghost function Woken(s: Sched, es: seq<Event>): (n: nat)
    requires WellFormed(s) && RunOk(s, es)
    decreases |es|
  {
    if es == [] then 0 else ApplyKeepsInv(s, es[0]); Pushed(s, es[0]) + Woken(Apply(s, es[0]), es[1..])
  }

  lemma BudgetShrinks(s: Sched, e: Event, k: nat)
    requires WellFormed(s) && Allowed(s, e) && k < |s.ready| && WellFormed(Apply(s, e))
    ensures var r := Apply(s, e); var spent := if e == TimerTick then 1 else 0; var j := k + Shift(s, e);
            j < 0 || (j < |r.ready| && r.ready[j] == s.ready[k] && Budget(r, j) + spent <= Budget(s, k) + Pushed(s, e))
  {
    if Switches(s, e) {
      if k > 0 { SwitchBudget(s, e, k); }
    } else if e.WakeUp? {
      WakeUpBudget(s, e.t, k);
    } else {
      StayBudget(s, e, k);
    }
  }

  lemma SwitchBudget(s: Sched, e: Event, k: nat)
    requires WellFormed(s) && Allowed(s, e) && 0 < k < |s.ready| && WellFormed(Apply(s, e)) && Switches(s, e)
    ensures var r := Apply(s, e);
            && k - 1 < |r.ready| && r.ready[k - 1] == s.ready[k]
            && Budget(r, k - 1) + s.tasks[s.cur].ticks + 1 == Budget(s, k)
  {
    ApplyAdvances(s, e);
    ShiftedSlices(s, Apply(s, e), k);
  }

  lemma StayBudget(s: Sched, e: Event, k: nat)
    requires WellFormed(s) && Allowed(s, e) && k < |s.ready| && WellFormed(Apply(s, e)) && Shift(s, e) == 0
    ensures var r := Apply(s, e);
            && k < |r.ready| && r.ready[k] == s.ready[k]
            && Budget(r, k) + (if e == TimerTick then 1 else 0) == Budget(s, k)
  {
    ApplyAdvances(s, e);
    var r := Apply(s, e);
    assert r.ready[..k] == s.ready[..k];
    SlicesSame(s, r, s.ready[..k]);
    CurStays(s, e);
  }

  lemma WakeUpBudget(s: Sched, t: Tid, k: nat)
    requires WellFormed(s) && t in s.tasks && Parked(s.tasks[t].status) && k < |s.ready| && WellFormed(Unblock(s, t))
    ensures k + 1 < |Unblock(s, t).ready| && Unblock(s, t).ready[k + 1] == s.ready[k]
    ensures Budget(Unblock(s, t), k + 1) == Budget(s, k) + s.tasks[t].ticks + 1
  {
    var r := Unblock(s, t);
    assert r.ready[..k + 1][1..] == s.ready[..k];
    SlicesSame(s, r, s.ready[..k]);
  }

  /** One place further, the threads ahead are the same but for the first. */
  lemma ShiftedSlices(s: Sched, r: Sched, k: nat)
    requires 0 < k < |s.ready| && s.ready[1..] <= r.ready
    requires forall i :: 0 <= i < |s.ready| ==> s.ready[i] in s.tasks && s.ready[i] in r.tasks
    requires forall i :: 0 <= i < |s.ready| ==> r.tasks[s.ready[i]].ticks == s.tasks[s.ready[i]].ticks
    requires forall i :: 0 <= i < |r.ready| ==> r.ready[i] in r.tasks
    ensures k - 1 < |r.ready| && r.ready[k - 1] == s.ready[k]
    ensures Slices(s, s.ready[..k]) == s.tasks[s.ready[0]].ticks + 1 + Slices(r, r.ready[..k - 1])
  {
    var ahead := s.ready[1..k];
    assert s.ready[1..][..k - 1] == ahead;
    assert r.ready[..k - 1] == ahead;
    assert s.ready[..k][1..] == ahead;
    assert forall i :: 0 <= i < |ahead| ==> ahead[i] == s.ready[i + 1];
    SlicesSame(s, r, ahead);
  }

  lemma CurStays(s: Sched, e: Event)
    requires WellFormed(s) && Allowed(s, e) && Shift(s, e) == 0
    ensures s.cur in Apply(s, e).tasks
    ensures Apply(s, e).tasks[s.cur].ticks == s.tasks[s.cur].ticks - (if e == TimerTick then 1 else 0)
  {
  }

  /** Round robin, counted in time: the thread at position k gets the CPU within Budget(s, k)
      timer interrupts, and as many more as the threads woken meanwhile may use. */
  lemma {:induction false} RunsWithinBudget(s: Sched, es: seq<Event>, k: nat)
    requires WellFormed(s) && RunOk(s, es) && k < |s.ready|
    requires TimerTicks(es) >= Budget(s, k) + Woken(s, es)
    ensures GetsCpu(s, es, s.ready[k])
    ensures Budget(s, k) <= Priorities(s, [s.cur] + s.ready[..k])
    decreases |es|
  {
    var ids := [s.cur] + s.ready[..k];
    assert ids[1..] == s.ready[..k];
    SlicesBounded(s, ids);
    ApplyKeepsInv(s, es[0]);
    BudgetShrinks(s, es[0], k);
    ApplyAdvances(s, es[0]);
    var j := k + Shift(s, es[0]);
    if j >= 0 { RunsWithinBudget(Apply(s, es[0]), es[1..], j); }
  }

  // ----- the imperative form ----------------------------------------------------

  /** The owners of the elements of a list. */
  ghost function Ids(elems: seq<Elem>): (ids: seq<Tid>)
    ensures |ids| == |elems| && forall i {:trigger ids[i]} :: 0 <= i < |ids| ==> ids[i] == elems[i].id
  {
    seq(|elems|, i requires 0 <= i < |elems| => elems[i].id)
  }

  /** Every thread has one general_tag, and the list holds only such tags. */
  ghost predicate Tagged(elems: seq<Elem>, tag: map<Tid, Elem>) {
    && (forall t {:trigger tag[t]} :: t in tag ==> tag[t].id == t)
    && (forall i {:trigger elems[i]} :: 0 <= i < |elems| ==> elems[i].id in tag && tag[elems[i].id] == elems[i])
  }

  /** On the list as an element is on the list as a thread. */
  lemma OnList(elems: seq<Elem>, tag: map<Tid, Elem>, t: Tid)
    requires Tagged(elems, tag) && t in tag
    ensures tag[t] in elems <==> t in Ids(elems)
  {
    if t in Ids(elems) {
      var i :| 0 <= i < |elems| && Ids(elems)[i] == t;
      assert elems[i] == tag[t];
    }
    if tag[t] in elems {
      var i :| 0 <= i < |elems| && elems[i] == tag[t];
      assert Ids(elems)[i] == t;
    }
  }

  lemma IdsDrop(elems: seq<Elem>, tag: map<Tid, Elem>, k: nat)
    requires Tagged(elems, tag) && k < |elems|
    ensures Ids(elems[..k] + elems[k + 1..]) == Ids(elems)[..k] + Ids(elems)[k + 1..]
    ensures Tagged(elems[..k] + elems[k + 1..], tag)
  {
  }

  /** A list of threads: their general_tags on a list of lib/kern/list.c. */
  class ThreadList {
    const list: List
    /** The general_tag of every thread, on the list or not. */
    var tag: map<Tid, Elem>
    /** The threads on the list, in order. */
    ghost var order: seq<Tid>

    ghost predicate Valid()
      reads this, list, list.Chain()
    {
      && list.Valid() && order == Ids(list.elems) && Tagged(list.elems, tag)
      && list.head !in tag.Values && list.tail !in tag.Values
    }

    /** Two threads on the list and one that is not. */
    constructor (x: Tid, y: Tid, z: Tid)
      requires x != y && y != z && x != z
      ensures Valid() && order == [x, y] && tag.Keys == {x, y, z}
    {
      var l, a, b, c := TwoTags(x, y, z);
      list, tag, order := l, map[x := a, y := b, z := c], [x, y];
      new;
      assert Ids([a, b]) == [x, y];
    }

    /** `elem_find`. */
    method Has(t: Tid) returns (there: bool)
      requires Valid() && t in tag
      ensures there <==> t in order
    {
      OnList(list.elems, tag, t);
      there := list.ElemFind(tag[t]);
    }

    method Empty() returns (empty: bool)
      requires Valid()
      ensures empty <==> order == []
    {
      empty := list.IsEmpty();
    }

    method Push(t: Tid)
      requires Valid() && t in tag && t !in order
      modifies this`order, list, list.head, list.tail, tag.Values
      ensures Valid() && order == [t] + old(order)
    {
      OnList(list.elems, tag, t);
      list.Push(tag[t]);
      order := [t] + order;
    }

    method Append(t: Tid)
      requires Valid() && t in tag && t !in order
      modifies this`order, list, list.head, list.tail, tag.Values
      ensures Valid() && order == old(order) + [t]
    {
      OnList(list.elems, tag, t);
      list.Append(tag[t]);
      order := order + [t];
    }

    /** `list_pop` and `elem2entry`. */
    method Pop() returns (t: Tid)
      requires Valid() && order != []
      modifies this`order, list, list.head, list.tail, tag.Values
      ensures Valid() && t == old(order)[0] && order == old(order)[1..]
    {
      var elem := list.Pop();
      t := elem.id;
      order := order[1..];
    }

    /** `list_remove`. */
    method TakeOff(t: Tid)
      requires Valid() && t in tag && t in order && NoDup(order)
      modifies this`order, list, list.head, list.tail, tag.Values
      ensures Valid() && order == Without(old(order), t)
    {
      OnList(list.elems, tag, t);
      ghost var k :| 0 <= k < |list.elems| && list.elems[k] == tag[t];
      assert order[k] == t;
      WithoutAt(order, k);
      IdsDrop(list.elems, tag, k);
      list.Remove(tag[t], k);
      order := Without(order, t);
    }

    /** The PCB of a thread is freed, after it was taken off the list if it was on it. */
    method Drop(t: Tid)
      requires Valid() && t in tag && NoDup(order)
      modifies this`order, this`tag, list, list.head, list.tail, tag.Values
      ensures Valid() && order == Without(old(order), t) && tag.Keys == old(tag.Keys) - {t}
    {
      WithoutOk(order, t);
      var there := Has(t);
      if there { TakeOff(t); } else { WithoutNone(order, t); }
      Untag(list.elems, tag, t);
      tag := tag - {t};
    }
  }

  /** The scheduler's globals, updated in place in the order of the C code.  The kernel's
      ASSERTs are the assert statements in the bodies. */
  class RunQueue {
    var tasks: map<Tid, Task>
    const ready: ThreadList
    var cur: Tid
    var idle: Tid

    ghost function Value(): (s: Sched)
      reads this, ready
    {
      Sched(tasks, ready.order, cur, idle)
    }

    ghost predicate Valid()
      reads this, ready, ready.list, ready.list.Chain()
    {
      ready.Valid() && ready.tag.Keys == tasks.Keys
    }

    /** State at the end of `thread_init`: main runs, init and idle are ready. */
    constructor (init: Tid, main: Tid, idle: Tid)
      requires init != main && main != idle && init != idle
      ensures Valid() && WellFormed(Value()) && cur == main && this.idle == idle && Value().ready == [init, idle]
    {
      tasks := map[init := Task(Ready, 31, 31), main := Task(Running, 31, 31), idle := Task(Ready, 10, 10)];
      cur, this.idle := main, idle;
      ready := new ThreadList(init, idle, main);
    }

    method ThreadUnblock(t: Tid)
      requires Valid() && t in tasks && Parked(tasks[t].status) && t !in ready.order
      modifies this`tasks, ready`order, ready.list, ready.list.head, ready.list.tail, ready.tag.Values
      ensures Valid() && Value() == Unblock(old(Value()), t) && ready.order == [t] + old(ready.order)
    {
      assert Parked(tasks[t].status);                             // the ASSERT at line 226
      if tasks[t].status != Ready {
        var there := ready.Has(t);
        assert !there;                                            // the ASSERT at line 230
        ready.Push(t);
        tasks := tasks[t := tasks[t].(status := Ready)];
      }
    }

    /** Lines 182-194. */
    method RequeueSelf()
      requires Valid() && cur in tasks && (tasks[cur].status == Running ==> cur !in ready.order)
      modifies this`tasks, ready`order, ready.list, ready.list.head, ready.list.tail, ready.tag.Values
      ensures Valid() && Value() == Requeue(old(Value()))
    {
      if tasks[cur].status == Running {
        var there := ready.Has(cur);
        assert !there;                                            // the ASSERT at line 186
        ready.Append(cur);
        tasks := tasks[cur := tasks[cur].(ticks := tasks[cur].priority)];
        tasks := tasks[cur := tasks[cur].(status := Ready)];
      }
    }

    /** Lines 199-206. */
    method DispatchNext()
      requires Valid() && ready.order != [] && ready.order[0] in tasks
      modifies this`tasks, this`cur, ready`order, ready.list, ready.list.head, ready.list.tail, ready.tag.Values
      ensures Valid() && Value() == Dispatch(old(Value()))
    {
      var empty := ready.Empty();
      assert !empty;                                              // the ASSERT at line 199
      var next := ready.Pop();
      tasks := tasks[next := tasks[next].(status := Running)];
      cur := next;
    }

    method DoSchedule()
      requires Valid() && Mid(Value())
      modifies this`tasks, this`cur, ready`order, ready.list, ready.list.head, ready.list.tail, ready.tag.Values
      ensures Valid() && Value() == Schedule(old(Value())) && WellFormed(Value())
      ensures SlicesAre(old(Value()), Value(), old(tasks[cur].status == Running))
    {
      ScheduleReady(Value());
      ScheduleSlices(Value());
      Switch();
    }

    /** `schedule` in a state in which none of its ASSERTs fails. */
    method Switch()
      requires Valid() && SwitchReady(Value())
      modifies this`tasks, this`cur, ready`order, ready.list, ready.list.head, ready.list.tail, ready.tag.Values
      ensures Valid() && Value() == Dispatch(WakeIdle(Requeue(old(Value()))))
    {
      RequeueSelf();
      var empty := ready.Empty();
      if empty { ThreadUnblock(idle); }
      DispatchNext();
    }

    method ThreadBlock(stat: Status)
      requires Valid() && WellFormed(Value()) && Parked(stat) && (cur == idle ==> stat == Blocked)
      modifies this`tasks, this`cur, ready`order, ready.list, ready.list.head, ready.list.tail, ready.tag.Values
      ensures Valid() && Value() == Block(old(Value()), stat) && WellFormed(Value())
    {
      tasks := tasks[cur := tasks[cur].(status := stat)];
      DoSchedule();
    }

    method ThreadYield()
      requires Valid() && WellFormed(Value())
      modifies this`tasks, this`cur, ready`order, ready.list, ready.list.head, ready.list.tail, ready.tag.Values
      ensures Valid() && Value() == Yield(old(Value())) && WellFormed(Value())
    {
      ParkReady(Value());
      var there := ready.Has(cur);
      assert !there;                                              // the ASSERT at line 247
      ready.Append(cur);
      tasks := tasks[cur := tasks[cur].(status := Ready)];
      DoSchedule();
    }

    method TimerInterrupt()
      requires Valid() && WellFormed(Value())
      modifies this`tasks, this`cur, ready`order, ready.list, ready.list.head, ready.list.tail, ready.tag.Values
      ensures Valid() && Value() == Tick(old(Value())) && WellFormed(Value())
    {
      TickKeepsInv(Value());
      if tasks[cur].ticks == 0 {
        DoSchedule();
      } else {
        tasks := tasks[cur := tasks[cur].(ticks := tasks[cur].ticks - 1)];
      }
    }

    /** `thread_exit(t, 0)`, as far as the scheduler goes. */
    method ThreadExit(t: Tid)
      requires Valid() && WellFormed(Value()) && t in tasks && t != cur && t != idle
      modifies this`tasks, ready, ready.list, ready.list.head, ready.list.tail, ready.tag.Values
      ensures Valid() && Value() == Remove(old(Value()), t) && WellFormed(Value())
    {
      RemoveKeepsInv(Value(), t);
      ready.Drop(t);
      tasks := tasks - {t};
    }
  }

  /** A list of two tags, and a tag that is on no list. */
  method TwoTags(x: Tid, y: Tid, z: Tid) returns (l: List, a: Elem, b: Elem, c: Elem)
    requires x != y && y != z && x != z
    ensures l.Valid() && l.elems == [a, b] && a.id == x && b.id == y && c.id == z && {l.head, l.tail} !! {a, b, c}
    ensures fresh(l) && fresh({l.head, l.tail, a, b, c})
  {
    l := new List();
    a := new Elem(x);
    b := new Elem(y);
    c := new Elem(z);
    l.Append(a);
    l.Append(b);
  }

  /** A thread that is not on the list may lose its tag. */
  lemma Untag(elems: seq<Elem>, tag: map<Tid, Elem>, t: Tid)
    requires Tagged(elems, tag) && t !in Ids(elems)
    ensures Tagged(elems, tag - {t}) && (tag - {t}).Values <= tag.Values
  {
    forall i | 0 <= i < |elems| ensures elems[i].id in tag - {t} && (tag - {t})[elems[i].id] == elems[i] { assert Ids(elems)[i] != t; }
  }

  /** What each part of `schedule` finds. */
  ghost predicate SwitchReady(s: Sched) {
    && s.cur in s.tasks && s.idle in s.tasks
    && (s.tasks[s.cur].status == Running ==> s.cur !in s.ready)
    && (var q := Requeue(s);
        && (q.ready == [] ==> Parked(q.tasks[q.idle].status) && q.idle !in q.ready)
        && WakeIdle(q).ready != [] && WakeIdle(q).ready[0] in WakeIdle(q).tasks)
  }

  lemma ScheduleReady(s: Sched)
    requires Mid(s)
    ensures SwitchReady(s) && WellFormed(Schedule(s))
  {
    ScheduleAsserts(s);
    ScheduleKeepsInv(s);
    RequeueMid(s);
    WakeIdleMid(Requeue(s));
  }
}
