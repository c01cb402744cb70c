/** Semaphores and recursive locks of thread/sync.c together with the disk command
    handshake of dev/ide.c, as one transition system over any number of threads.

    A region that runs with interrupts off is one step; between two steps the timer
    may preempt the running thread and a disk may interrupt it.  Each thread carries
    a program counter inside `lock_acquire`, `lock_release`, `sema_down`, the disk
    driver or the idle loop.  The kernel's ASSERTs are collected in `AssertsHold`. */
module Sync {
  import opened Sequences
  import opened Scheduler

  type LockId = nat
  type ChanId = nat

  datatype Option<T> = None | Some(value: T)

  /** The semaphore inside lock `l`, or `disk_done` of channel `c`. */
  datatype Sem = LockSem(l: LockId) | DiskDone(c: ChanId)

  datatype Semaphore = Semaphore(value: nat, waiters: seq<Tid>)

  /** `struct lock`.  `owner` is a history variable: the thread that completed
      `sema_down` and has not yet done the matching `sema_up`. */
  datatype Lock = Lock(holder: Option<Tid>, repeat: nat, sem: Semaphore, owner: Option<Tid>)

  /** `struct ide_channel`; its lock is the lock with the same number.  `pending` and
      the three counters are history variables: who issued the command that is not
      yet consumed, and how many commands were issued, signalled and consumed. */
  datatype Channel = Channel(expecting: bool, done: Semaphore, pending: Option<Tid>,
                             issued: nat, signalled: nat, consumed: nat)

  datatype Pc =
    | Work
    | AcquireTest(l: LockId) | AcquireNest(l: LockId)
    | DownTest(s: Sem) | Retest(s: Sem)
    | SetHolder(l: LockId) | SetDepth(l: LockId)
    | ReleaseTest(l: LockId) | ReleaseNest(l: LockId)
    | ClearHolder(l: LockId) | ClearDepth(l: LockId) | Up(l: LockId)
    | CmdSent(c: ChanId)
    | IdleBlock | IdleHalt

  /** A thread's position and the locks it holds, with nesting. */
  datatype Prog = Prog(pc: Pc, held: multiset<LockId>)

  datatype State = State(sched: Sched, prog: map<Tid, Prog>,
                         locks: map<LockId, Lock>, chans: map<ChanId, Channel>)

  // ----- semaphores -------------------------------------------------------------

  predicate SemIn(st: State, s: Sem) {
    match s
    case LockSem(l) => l in st.locks
    case DiskDone(c) => c in st.chans
  }

  function SemOf(st: State, s: Sem): (r: Semaphore)
    requires SemIn(st, s)
  {
    match s
    case LockSem(l) => st.locks[l].sem
    case DiskDone(c) => st.chans[c].done
  }

  function WithPc(st: State, pc: Pc): (r: State)
    requires st.sched.cur in st.prog
  {
    st.(prog := st.prog[st.sched.cur := st.prog[st.sched.cur].(pc := pc)])
  }

  function WithProg(st: State, p: Prog): (r: State) {
    st.(prog := st.prog[st.sched.cur := p])
  }

  /** One pass of the loop in `sema_down`: either wait, or take the unit. */
  function Down(st: State, s: Sem): (r: State)
    requires SemIn(st, s) && st.sched.cur in st.prog
    requires WellFormed(st.sched) && st.sched.cur != st.sched.idle
  {
    var me := st.sched.cur;
    var q := SemOf(st, s);
    if q.value == 0 then
      var waiting := q.(waiters := q.waiters + [me]);
      var st1 := WithPc(st, Retest(s));
      var st2 := match s
        case LockSem(l) => st1.(locks := st1.locks[l := st1.locks[l].(sem := waiting)])
        case DiskDone(c) => st1.(chans := st1.chans[c := st1.chans[c].(done := waiting)]);
      st2.(sched := Block(st.sched, Blocked))
    else
      var taken := q.(value := q.value - 1);
      match s
      case LockSem(l) =>
        var st1 := WithPc(st, SetHolder(l));
        st1.(locks := st1.locks[l := st1.locks[l].(sem := taken, owner := Some(me))])
      case DiskDone(c) =>
        var st1 := WithPc(st, Work);
        var ch := st1.chans[c];
        st1.(chans := st1.chans[c := ch.(done := taken, pending := None, consumed := ch.consumed + 1)])
  }

  /** The queue part of `sema_up`: pop the first waiter, if any, and add the unit. */
  function Signal(q: Semaphore): (r: Semaphore) {
    Semaphore(q.value + 1, if q.waiters == [] then [] else q.waiters[1..])
  }

  function WakeFirst(s: Sched, q: Semaphore): (r: Sched)
    requires q.waiters != [] ==> q.waiters[0] in s.tasks
  {
    if q.waiters == [] then s else Unblock(s, q.waiters[0])
  }

  // ----- steps --------------------------------------------------------------------

  datatype Step =
    | TimerIrq
    | DiskIrq(c: ChanId)
    | Continue
    | CallAcquire(l: LockId) | CallRelease(l: LockId)
    | CallCmdOut(c: ChanId)
    | CallYield | CallWait | CallHang
    | CallWake(t: Tid) | CallSpawn(t: Tid, prio: nat) | CallReap(t: Tid)

  predicate InterruptsOff(pc: Pc) { pc.Retest? }

  predicate Enabled(st: State, step: Step)
    requires st.sched.cur in st.prog
  {
    var p := st.prog[st.sched.cur];
    match step
    case TimerIrq => !InterruptsOff(p.pc)
    case DiskIrq(c) => !InterruptsOff(p.pc) && c in st.chans
    case Continue => p.pc != Work
    case CallAcquire(l) => p.pc == Work && l in st.locks
    case CallRelease(l) => p.pc == Work && p.held[l] > 0
    case CallCmdOut(c) => p.pc == Work && c in st.chans && p.held[c] > 0
    case CallYield => p.pc == Work || p.pc.CmdSent?
    case CallWait => p.pc == Work
    case CallHang => p.pc == Work && p.held == multiset{}
    case CallWake(t) => p.pc == Work && t in st.sched.tasks && st.sched.tasks[t].status == Waiting
    case CallSpawn(t, _) => p.pc == Work && t !in st.sched.tasks
    case CallReap(t) => p.pc == Work && t in st.sched.tasks && st.sched.tasks[t].status == Hanging
  }

  function UpdLock(st: State, l: LockId, k: Lock, p: Prog): (r: State) {
    WithProg(st, p).(locks := st.locks[l := k])
  }

  predicate QueueHeadKnown(s: Sched, q: Semaphore) {
    q.waiters != [] ==> q.waiters[0] in s.tasks
  }

  /** What a step needs in order to be defined at all; it follows from `Inv`. */
  ghost predicate Typed(st: State) {
    && WellFormed(st.sched)
    && st.sched.cur in st.prog
    && (var p := st.prog[st.sched.cur];
        && HeldOk(st, p)
        && (forall l :: p.held[l] > 0 ==> l in st.locks)
        && (p.pc.ReleaseNest? ==> p.pc.l in st.locks ==> st.locks[p.pc.l].repeat > 0)
        && (st.sched.cur == st.sched.idle <==> p.pc == IdleBlock || p.pc == IdleHalt))
    && (forall l :: l in st.locks ==> QueueHeadKnown(st.sched, st.locks[l].sem))
    && (forall c :: c in st.chans ==> QueueHeadKnown(st.sched, st.chans[c].done))
  }

  /** The next step of the running thread, as its program counter dictates. */
  function Advance(st: State): (r: State)
    requires Typed(st)
  {
    var me := st.sched.cur;
    var p := st.prog[me];
    match p.pc
    case Work => st
    case AcquireTest(l) =>
      WithPc(st, if st.locks[l].holder == Some(me) then AcquireNest(l) else DownTest(LockSem(l)))
    case AcquireNest(l) =>
      UpdLock(st, l, st.locks[l].(repeat := st.locks[l].repeat + 1), Prog(Work, p.held + multiset{l}))
    case DownTest(s) => Down(st, s)
    case Retest(s) => Down(st, s)
    case SetHolder(l) =>
      UpdLock(st, l, st.locks[l].(holder := Some(me)), p.(pc := SetDepth(l)))
    case SetDepth(l) =>
      UpdLock(st, l, st.locks[l].(repeat := 1), Prog(Work, p.held + multiset{l}))
    case ReleaseTest(l) =>
      WithPc(st, if st.locks[l].repeat > 1 then ReleaseNest(l) else ClearHolder(l))
    case ReleaseNest(l) =>
      UpdLock(st, l, st.locks[l].(repeat := st.locks[l].repeat - 1), Prog(Work, p.held - multiset{l}))
    case ClearHolder(l) =>
      UpdLock(st, l, st.locks[l].(holder := None), Prog(ClearDepth(l), p.held - multiset{l}))
    case ClearDepth(l) =>
      UpdLock(st, l, st.locks[l].(repeat := 0), p.(pc := Up(l)))
    case Up(l) =>
      var k := st.locks[l];
      UpdLock(st, l, k.(sem := Signal(k.sem), owner := None), p.(pc := Work))
        .(sched := WakeFirst(st.sched, k.sem))
    case CmdSent(c) => WithPc(st, DownTest(DiskDone(c)))
    case IdleBlock => WithPc(st, IdleHalt).(sched := Block(st.sched, Blocked))
    case IdleHalt => WithPc(st, IdleBlock)
  }

  /** `intr_hd_handler`. */
  function DiskInterrupt(st: State, c: ChanId): (r: State)
    requires Typed(st) && c in st.chans
  {
    var ch := st.chans[c];
    if ch.expecting then
      st.(chans := st.chans[c := ch.(expecting := false, done := Signal(ch.done), signalled := ch.signalled + 1)],
          sched := WakeFirst(st.sched, ch.done))
    else st
  }

  function Next(st: State, step: Step): (r: State)
    requires Typed(st) && Enabled(st, step)
  {
    match step
    case TimerIrq => st.(sched := Tick(st.sched))
    case DiskIrq(c) => DiskInterrupt(st, c)
    case Continue => Advance(st)
    case CallAcquire(l) => WithPc(st, AcquireTest(l))
    case CallRelease(l) => WithPc(st, ReleaseTest(l))
    case CallCmdOut(c) =>
      var ch := st.chans[c];
      WithPc(st, CmdSent(c)).(chans := st.chans[c := ch.(expecting := true, pending := Some(st.sched.cur), issued := ch.issued + 1)])
    case CallYield => st.(sched := Yield(st.sched))
    case CallWait => st.(sched := Block(st.sched, Waiting))
    case CallHang => st.(sched := Block(st.sched, Hanging))
    case CallWake(t) => st.(sched := Unblock(st.sched, t))
    case CallSpawn(t, prio) =>
      st.(sched := Spawn(st.sched, t, prio), prog := st.prog[t := Prog(Work, multiset{})])
    case CallReap(t) => st.(sched := Remove(st.sched, t), prog := st.prog - {t})
  }

  // ----- the invariant --------------------------------------------------------------

  /** Between a completed `sema_down` on the lock's semaphore and its `sema_up`. */
  predicate Inside(p: Prog, l: LockId) {
    p.held[l] > 0 || p.pc == SetHolder(l) || p.pc == SetDepth(l) || p.pc == ClearDepth(l) || p.pc == Up(l)
  }

  /** Between `cmd_out` and the completion of `sema_down(&disk_done)`. */
  predicate Awaiting(p: Prog, c: ChanId) {
    p.pc == CmdSent(c) || p.pc == DownTest(DiskDone(c)) || p.pc == Retest(DiskDone(c))
  }

  predicate HeldOk(st: State, p: Prog) {
    match p.pc
    case Work => true
    case AcquireTest(l) => l in st.locks
    case AcquireNest(l) => p.held[l] > 0
    case DownTest(s) => SemIn(st, s) && (if s.LockSem? then p.held[s.l] == 0 else p.held[s.c] > 0)
    case Retest(s) => SemIn(st, s) && (if s.LockSem? then p.held[s.l] == 0 else p.held[s.c] > 0)
    case SetHolder(l) => l in st.locks && p.held[l] == 0
    case SetDepth(l) => l in st.locks && p.held[l] == 0
    case ReleaseTest(l) => p.held[l] > 0
    case ReleaseNest(l) => p.held[l] > 1
    case ClearHolder(l) => p.held[l] == 1
    case ClearDepth(l) => l in st.locks && p.held[l] == 0
    case Up(l) => l in st.locks && p.held[l] == 0
    case CmdSent(c) => c in st.chans && p.held[c] > 0
    case IdleBlock => p.held == multiset{}
    case IdleHalt => p.held == multiset{}
  }

  ghost predicate ThreadsOk(st: State) {
    && st.prog.Keys == st.sched.tasks.Keys
    && (forall t {:trigger HeldOk(st, st.prog[t])} :: t in st.prog ==> HeldOk(st, st.prog[t]))
    && (forall t, l :: t in st.prog && st.prog[t].held[l] > 0 ==> l in st.locks)
    && (forall t :: t in st.prog ==> (t == st.sched.idle <==> st.prog[t].pc == IdleBlock || st.prog[t].pc == IdleHalt))
  }

  function ExpectedHolder(t: Tid, p: Prog, l: LockId): (r: Option<Tid>) {
    if p.held[l] > 0 || p.pc == SetDepth(l) then Some(t) else None
  }

  function ExpectedRepeat(p: Prog, l: LockId): (r: nat) {
    if p.held[l] > 0 then p.held[l] else if p.pc == ClearDepth(l) then 1 else 0
  }

  ghost predicate LockOk(st: State, l: LockId)
    requires l in st.locks
  {
    var k := st.locks[l];
    && k.sem.value == (if k.owner.None? then 1 else 0)
    && (forall t :: t in st.prog ==> (Inside(st.prog[t], l) <==> k.owner == Some(t)))
    && (k.owner.None? ==> k.holder == None && k.repeat == 0)
    && (k.owner.Some? ==>
          var t := k.owner.value;
          t in st.prog && k.holder == ExpectedHolder(t, st.prog[t], l) && k.repeat == ExpectedRepeat(st.prog[t], l))
  }

  ghost predicate ChanOk(st: State, c: ChanId)
    requires c in st.chans
  {
    var ch := st.chans[c];
    var flag := if ch.expecting then 1 else 0;
    && c in st.locks
    && (forall t :: t in st.prog ==> (Awaiting(st.prog[t], c) <==> ch.pending == Some(t)))
    && (ch.pending.Some? ==> ch.pending.value in st.prog)
    && flag + ch.done.value == (if ch.pending.Some? then 1 else 0)
    && ch.issued == ch.signalled + flag
    && ch.signalled == ch.consumed + ch.done.value
  }

  /** The wait queue of `s` is exactly the BLOCKED threads that must re-test it. */
  ghost predicate QueueOk(st: State, s: Sem)
    requires SemIn(st, s) && st.prog.Keys == st.sched.tasks.Keys
  {
    var w := SemOf(st, s).waiters;
    && NoDup(w)
    && (forall t :: t in w ==> t in st.prog && st.prog[t].pc == Retest(s) && st.sched.tasks[t].status == Blocked)
    && (forall t :: t in st.prog && st.prog[t].pc == Retest(s) && st.sched.tasks[t].status == Blocked ==> t in w)
  }

  ghost predicate StatusOk(st: State)
    requires st.prog.Keys == st.sched.tasks.Keys
  {
    && (forall t :: t in st.prog && st.sched.tasks[t].status == Blocked ==> t == st.sched.idle || st.prog[t].pc.Retest?)
    && (forall t :: t in st.prog && st.sched.tasks[t].status == Waiting ==> st.prog[t].pc == Work)
    && (forall t :: t in st.prog && st.sched.tasks[t].status == Hanging ==> st.prog[t] == Prog(Work, multiset{}))
  }

  /** `t` was popped from the wait queue of `s` and has not re-tested it yet. */
  ghost predicate Popped(st: State, s: Sem, t: Tid)
    requires SemIn(st, s)
  {
    t in st.prog && st.prog[t].pc == Retest(s) && t !in SemOf(st, s).waiters
  }

  ghost predicate WakeOk(st: State, s: Sem)
    requires SemIn(st, s)
  {
    SemOf(st, s).value > 0 && SemOf(st, s).waiters != [] ==> exists t :: Popped(st, s, t)
  }

  ghost predicate LocksOk(st: State) {
    forall l {:trigger LockOk(st, l)} :: l in st.locks ==> LockOk(st, l)
  }

  ghost predicate ChansOk(st: State) {
    forall c {:trigger ChanOk(st, c)} :: c in st.chans ==> ChanOk(st, c)
  }

  ghost predicate QueuesOk(st: State)
    requires st.prog.Keys == st.sched.tasks.Keys
  {
    forall s {:trigger QueueOk(st, s)} :: SemIn(st, s) ==> QueueOk(st, s)
  }

  ghost predicate WakesOk(st: State) {
    forall s {:trigger WakeOk(st, s)} :: SemIn(st, s) ==> WakeOk(st, s)
  }

  ghost predicate Inv(st: State) {
    && WellFormed(st.sched)
    && ThreadsOk(st)
    && LocksOk(st)
    && ChansOk(st)
    && QueuesOk(st)
    && WakesOk(st)
    && StatusOk(st)
  }

  lemma HeadsKnown(st: State)
    requires st.prog.Keys == st.sched.tasks.Keys && QueuesOk(st)
    ensures forall l :: l in st.locks ==> QueueHeadKnown(st.sched, st.locks[l].sem)
    ensures forall c :: c in st.chans ==> QueueHeadKnown(st.sched, st.chans[c].done)
  {
    forall l | l in st.locks ensures QueueHeadKnown(st.sched, st.locks[l].sem) {
      assert QueueOk(st, LockSem(l));
    }
    forall c | c in st.chans ensures QueueHeadKnown(st.sched, st.chans[c].done) {
      assert QueueOk(st, DiskDone(c));
    }
  }

  lemma NestedIsPositive(st: State, t: Tid, l: LockId)
    requires LocksOk(st) && t in st.prog && l in st.locks && st.prog[t].held[l] > 0
    ensures st.locks[l].repeat == st.prog[t].held[l] && st.locks[l].holder == Some(t)
  {
    assert LockOk(st, l);
    assert Inside(st.prog[t], l);
  }

  lemma InvTyped(st: State)
    requires Inv(st)
    ensures Typed(st)
  {
    HeadsKnown(st);
    var p := st.prog[st.sched.cur];
    assert HeldOk(st, p);
    if p.pc.ReleaseNest? {
      NestedIsPositive(st, st.sched.cur, p.pc.l);
    }
  }
}
