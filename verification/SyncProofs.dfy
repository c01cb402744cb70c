/** Every step of the machine in `Sync` keeps its invariant and meets the kernel's
    ASSERTs; the safety theorems over whole runs follow. */
module SyncProofs {
  import opened Sequences
  import opened Scheduler
  import opened Sync

  // ----- frames: what a step that leaves a component alone keeps -------------------

  ghost predicate SameShape(st: State, r: State) {
    && r.locks.Keys == st.locks.Keys && r.chans.Keys == st.chans.Keys
    && r.sched.tasks.Keys == st.sched.tasks.Keys && r.sched.idle == st.sched.idle
  }

  lemma ThreadsStep(st: State, r: State, p: Prog)
    requires ThreadsOk(st) && SameShape(st, r) && st.sched.cur in st.prog
    requires r.prog == st.prog[st.sched.cur := p]
    requires HeldOk(st, p) && forall l :: p.held[l] > 0 ==> l in st.locks
    requires st.sched.cur == st.sched.idle <==> p.pc == IdleBlock || p.pc == IdleHalt
    ensures ThreadsOk(r)
  {
    forall t | t in r.prog ensures HeldOk(r, r.prog[t]) {
      assert HeldOk(st, r.prog[t]);
      HeldOkFrame(st, r, r.prog[t]);
    }
  }

  lemma HeldOkFrame(st: State, r: State, p: Prog)
    requires HeldOk(st, p) && r.locks.Keys == st.locks.Keys && r.chans.Keys == st.chans.Keys
    ensures HeldOk(r, p)
  {
  }

  /** The step changes nothing that lock `l` depends on. */
  ghost predicate LockUntouched(st: State, r: State, l: LockId)
    requires st.sched.cur in st.prog && st.sched.cur in r.prog
  {
    var p, p' := st.prog[st.sched.cur], r.prog[st.sched.cur];
    && l in st.locks && l in r.locks && r.locks[l] == st.locks[l]
    && Inside(p', l) == Inside(p, l)
    && p'.held[l] == p.held[l]
    && (p'.pc == SetDepth(l) <==> p.pc == SetDepth(l))
    && (p'.pc == ClearDepth(l) <==> p.pc == ClearDepth(l))
  }

  lemma LockFrame(st: State, r: State, l: LockId)
    requires st.sched.cur in st.prog && st.sched.cur in r.prog
    requires r.prog == st.prog[st.sched.cur := r.prog[st.sched.cur]]
    requires LockUntouched(st, r, l) && LockOk(st, l)
    ensures LockOk(r, l)
  {
  }

  lemma LocksStep(st: State, r: State, touched: set<LockId>)
    requires LocksOk(st) && SameShape(st, r) && st.sched.cur in st.prog && st.sched.cur in r.prog
    requires r.prog == st.prog[st.sched.cur := r.prog[st.sched.cur]]
    requires forall l :: l in st.locks && l !in touched ==> LockUntouched(st, r, l)
    requires forall l :: l in st.locks && l in touched ==> LockOk(r, l)
    ensures LocksOk(r)
  {
    forall l | l in r.locks ensures LockOk(r, l) {
      if l !in touched {
        LockFrame(st, r, l);
      }
    }
  }

  lemma ChansStep(st: State, r: State, touched: set<ChanId>)
    requires ChansOk(st) && SameShape(st, r) && st.sched.cur in st.prog && st.sched.cur in r.prog
    requires r.prog == st.prog[st.sched.cur := r.prog[st.sched.cur]]
    requires forall c :: c in st.chans && c !in touched ==>
               r.chans[c] == st.chans[c] && Awaiting(r.prog[st.sched.cur], c) == Awaiting(st.prog[st.sched.cur], c)
    requires forall c :: c in st.chans && c in touched ==> ChanOk(r, c)
    ensures ChansOk(r)
  {
    forall c | c in r.chans ensures ChanOk(r, c) {
      if c !in touched {
        assert ChanOk(st, c);
      }
    }
  }

  /** A step that touches no semaphore, no queue and no status. */
  lemma QuietStep(st: State, r: State)
    requires ThreadsOk(st) && QueuesOk(st) && WakesOk(st) && StatusOk(st)
    requires SameShape(st, r) && r.sched == st.sched
    requires st.sched.cur in st.sched.tasks && st.sched.tasks[st.sched.cur].status == Running
    requires st.sched.cur in r.prog && r.prog == st.prog[st.sched.cur := r.prog[st.sched.cur]]
    requires !st.prog[st.sched.cur].pc.Retest? && !r.prog[st.sched.cur].pc.Retest?
    requires forall s :: SemIn(st, s) ==> SemOf(r, s) == SemOf(st, s)
    ensures QueuesOk(r) && WakesOk(r) && StatusOk(r)
  {
    forall s | SemIn(r, s) ensures QueueOk(r, s) && WakeOk(r, s) {
      assert SemIn(st, s);
      assert QueueOk(st, s) && WakeOk(st, s);
      QuietSem(st, r, s);
    }
  }

  lemma QuietSem(st: State, r: State, s: Sem)
    requires st.prog.Keys == st.sched.tasks.Keys && st.sched.cur in st.prog && r.sched == st.sched
    requires st.sched.cur in r.prog && r.prog == st.prog[st.sched.cur := r.prog[st.sched.cur]]
    requires !st.prog[st.sched.cur].pc.Retest? && !r.prog[st.sched.cur].pc.Retest?
    requires SemIn(st, s) && SemIn(r, s) && SemOf(r, s) == SemOf(st, s)
    requires QueueOk(st, s) && WakeOk(st, s)
    ensures QueueOk(r, s) && WakeOk(r, s)
  {
    if SemOf(r, s).value > 0 && SemOf(r, s).waiters != [] {
      var t :| Popped(st, s, t);
      assert Popped(r, s, t);
    }
  }

  /** A step that only moves threads between run states: whoever must re-test a
      semaphore stays blocked, and nobody else becomes blocked. */
  lemma SchedulingStep(st: State, r: State)
    requires Inv(st) && SameShape(st, r)
    requires r.prog == st.prog && r.locks == st.locks && r.chans == st.chans
    requires WellFormed(r.sched)
    requires forall t :: t in st.prog && t != st.sched.idle ==>
               (r.sched.tasks[t].status == Blocked <==> st.sched.tasks[t].status == Blocked)
    requires StatusOk(r)
    ensures Inv(r)
  {
    assert ThreadsOk(r) by { ThreadsSame(st, r); }
    assert LocksOk(r) by {
      forall l | l in r.locks ensures LockOk(r, l) { assert LockOk(st, l); }
    }
    assert ChansOk(r) by {
      forall c | c in r.chans ensures ChanOk(r, c) { assert ChanOk(st, c); }
    }
    forall s | SemIn(r, s) ensures QueueOk(r, s) && WakeOk(r, s) {
      assert SemIn(st, s);
      assert QueueOk(st, s) && WakeOk(st, s);
      SchedulingSem(st, r, s);
    }
  }

  lemma ThreadsSame(st: State, r: State)
    requires ThreadsOk(st) && SameShape(st, r) && r.prog == st.prog
    ensures ThreadsOk(r)
  {
    forall t | t in r.prog ensures HeldOk(r, r.prog[t]) {
      HeldOkFrame(st, r, r.prog[t]);
    }
  }

  lemma SchedulingSem(st: State, r: State, s: Sem)
    requires ThreadsOk(st) && SameShape(st, r) && SemIn(st, s)
    requires r.prog == st.prog && r.locks == st.locks && r.chans == st.chans
    requires forall t :: t in st.prog && t != st.sched.idle ==>
               (r.sched.tasks[t].status == Blocked <==> st.sched.tasks[t].status == Blocked)
    requires QueueOk(st, s) && WakeOk(st, s)
    ensures SemIn(r, s) && QueueOk(r, s) && WakeOk(r, s)
  {
    assert SemOf(r, s) == SemOf(st, s);
    if SemOf(r, s).value > 0 && SemOf(r, s).waiters != [] {
      var t :| Popped(st, s, t);
      assert Popped(r, s, t);
    }
  }

  // ----- steps that only reschedule ---------------------------------------------------

  /** Nobody but idle is parked or woken. */
  ghost predicate KeepsParked(s: Sched, r: Sched) {
    && r.tasks.Keys == s.tasks.Keys && r.idle == s.idle
    && forall t {:trigger r.tasks[t]} {:trigger s.tasks[t]} :: t in s.tasks && t != s.idle ==>
         if Parked(s.tasks[t].status) then r.tasks[t].status == s.tasks[t].status else !Parked(r.tasks[t].status)
  }

  /** idle neither waits nor hangs. */
  predicate IdleAwake(s: Sched) {
    s.idle in s.tasks && s.tasks[s.idle].status != Waiting && s.tasks[s.idle].status != Hanging
  }

  /** A step that changes nothing but the run queue, and parks and wakes nobody. */
  lemma RescheduleStep(st: State, s: Sched)
    requires Inv(st) && WellFormed(s) && KeepsParked(st.sched, s)
    ensures Inv(st.(sched := s))
  {
    StatusFrame(st, st.(sched := s));
    SchedulingStep(st, st.(sched := s));
  }

  lemma StatusFrame(st: State, r: State)
    requires ThreadsOk(st) && StatusOk(st) && r.prog == st.prog && IdleAwake(r.sched) && KeepsParked(st.sched, r.sched)
    ensures StatusOk(r)
    ensures forall t :: t in st.prog && t != st.sched.idle ==>
              (r.sched.tasks[t].status == Blocked <==> st.sched.tasks[t].status == Blocked)
  {
  }

  lemma TimerStep(st: State)
    requires Inv(st)
    ensures Inv(st.(sched := Tick(st.sched)))
  {
    TickKeepsInv(st.sched);
    TickParks(st.sched);
    RescheduleStep(st, Tick(st.sched));
  }

  lemma TickParks(s: Sched)
    requires WellFormed(s)
    ensures KeepsParked(s, Tick(s))
  {
    TickKeepsInv(s);
    if s.tasks[s.cur].ticks == 0 {
      forall t | t in s.tasks && t != s.idle
        ensures if Parked(s.tasks[t].status) then Schedule(s).tasks[t].status == s.tasks[t].status else !Parked(Schedule(s).tasks[t].status)
      {
        ScheduleFrame(s, t);
      }
    }
  }

  lemma YieldStep(st: State)
    requires Inv(st)
    ensures Inv(st.(sched := Yield(st.sched)))
  {
    YieldKeepsInv(st.sched);
    YieldParks(st.sched);
    RescheduleStep(st, Yield(st.sched));
  }

  lemma YieldParks(s: Sched)
    requires WellFormed(s)
    ensures KeepsParked(s, Yield(s))
  {
    YieldKeepsInv(s);
    ParkReady(s);
    var r := Yield(s);
    forall t | t in s.tasks && t != s.idle
      ensures if Parked(s.tasks[t].status) then r.tasks[t].status == s.tasks[t].status else !Parked(r.tasks[t].status)
    {
      ScheduleFrame(SetStatus(s, s.cur, Ready).(ready := s.ready + [s.cur]), t);
    }
  }

  /** `thread_block` by a thread other than idle parks exactly that thread. */
  lemma BlockEffect(s: Sched, stat: Status, t: Tid)
    requires WellFormed(s) && Parked(stat) && s.cur != s.idle && t in s.tasks && t != s.idle
    ensures t in Block(s, stat).tasks
    ensures t == s.cur ==> Block(s, stat).tasks[t].status == stat
    ensures t != s.cur && Parked(s.tasks[t].status) ==> Block(s, stat).tasks[t].status == s.tasks[t].status
    ensures t != s.cur && !Parked(s.tasks[t].status) ==> !Parked(Block(s, stat).tasks[t].status)
  {
    ScheduleFrame(SetStatus(s, s.cur, stat), t);
  }

  /** Besides idle, exactly the running thread changes between parked and not. */
  ghost predicate ParksCur(s: Sched, r: Sched, stat: Status) {
    && r.tasks.Keys == s.tasks.Keys && r.idle == s.idle
    && forall t {:trigger r.tasks[t]} {:trigger s.tasks[t]} :: t in s.tasks && t != s.idle ==>
         if t == s.cur then r.tasks[t].status == stat
         else if Parked(s.tasks[t].status) then r.tasks[t].status == s.tasks[t].status
         else !Parked(r.tasks[t].status)
  }

  lemma BlockParks(s: Sched, stat: Status)
    requires WellFormed(s) && Parked(stat) && s.cur != s.idle
    ensures ParksCur(s, Block(s, stat), stat) && WellFormed(Block(s, stat))
  {
    BlockKeepsInv(s, stat);
    var r := Block(s, stat);
    forall t | t in s.tasks && t != s.idle
      ensures if t == s.cur then r.tasks[t].status == stat
              else if Parked(s.tasks[t].status) then r.tasks[t].status == s.tasks[t].status
              else !Parked(r.tasks[t].status)
    {
      BlockEffect(s, stat, t);
    }
  }

  lemma ParkStep(st: State, stat: Status)
    requires Inv(st) && (stat == Waiting || stat == Hanging) && st.prog[st.sched.cur].pc == Work
    requires stat == Hanging ==> st.prog[st.sched.cur].held == multiset{}
    ensures st.sched.cur != st.sched.idle
    ensures Inv(st.(sched := Block(st.sched, stat)))
  {
    assert st.sched.cur != st.sched.idle;
    BlockParks(st.sched, stat);
    ParkInto(st, Block(st.sched, stat), stat);
  }

  lemma ParkInto(st: State, s: Sched, stat: Status)
    requires Inv(st) && (stat == Waiting || stat == Hanging) && st.prog[st.sched.cur].pc == Work
    requires stat == Hanging ==> st.prog[st.sched.cur].held == multiset{}
    requires WellFormed(s) && ParksCur(st.sched, s, stat) && st.sched.cur != st.sched.idle
    ensures Inv(st.(sched := s))
  {
    var r := st.(sched := s);
    ParkStatus(st, r, stat);
    SchedulingStep(st, r);
  }

  lemma ParkStatus(st: State, r: State, stat: Status)
    requires ThreadsOk(st) && StatusOk(st) && r.prog == st.prog && IdleAwake(r.sched)
    requires st.sched.cur in st.sched.tasks && st.sched.tasks[st.sched.cur].status == Running
    requires st.sched.cur in st.prog && st.prog[st.sched.cur].pc == Work && (stat == Waiting || stat == Hanging)
    requires stat == Hanging ==> st.prog[st.sched.cur].held == multiset{}
    requires ParksCur(st.sched, r.sched, stat) && st.sched.cur != st.sched.idle
    ensures StatusOk(r)
    ensures forall t :: t in st.prog && t != st.sched.idle ==>
              (r.sched.tasks[t].status == Blocked <==> st.sched.tasks[t].status == Blocked)
  {
  }

  lemma WakeStep(st: State, t: Tid)
    requires Inv(st) && t in st.sched.tasks && st.sched.tasks[t].status == Waiting
    ensures t !in st.sched.ready && Inv(st.(sched := Unblock(st.sched, t)))
  {
    var r := st.(sched := Unblock(st.sched, t));
    UnblockKeepsInv(st.sched, t);
    SchedulingStep(st, r);
  }

  lemma SpawnStep(st: State, t: Tid, prio: nat)
    requires Inv(st) && t !in st.sched.tasks
    ensures Inv(st.(sched := Spawn(st.sched, t, prio), prog := st.prog[t := Prog(Work, multiset{})]))
  {
    var r := st.(sched := Spawn(st.sched, t, prio), prog := st.prog[t := Prog(Work, multiset{})]);
    SpawnKeepsInv(st.sched, t, prio);
    assert ThreadsOk(r) && StatusOk(r) by { SpawnThreads(st, r, t); }
    assert LocksOk(r) && ChansOk(r) by { SpawnResources(st, r, t); }
    assert QueuesOk(r) && WakesOk(r) by { SpawnSems(st, r, t); }
  }

  lemma SpawnSems(st: State, r: State, t: Tid)
    requires ThreadsOk(st) && QueuesOk(st) && WakesOk(st) && t !in st.prog
    requires r.locks == st.locks && r.chans == st.chans
    requires r.prog == st.prog[t := Prog(Work, multiset{})] && r.sched.tasks.Keys == r.prog.Keys
    requires forall u :: u in st.prog ==> r.sched.tasks[u] == st.sched.tasks[u]
    ensures QueuesOk(r) && WakesOk(r)
  {
    forall s | SemIn(r, s) ensures QueueOk(r, s) && WakeOk(r, s) {
      assert SemIn(st, s);
      assert QueueOk(st, s) && WakeOk(st, s);
      SpawnSem(st, r, s, t);
    }
  }

  lemma SpawnThreads(st: State, r: State, t: Tid)
    requires ThreadsOk(st) && StatusOk(st) && t !in st.prog && st.sched.idle in st.prog
    requires r.locks == st.locks && r.chans == st.chans && r.sched.idle == st.sched.idle
    requires r.prog == st.prog[t := Prog(Work, multiset{})] && r.sched.tasks.Keys == r.prog.Keys
    requires r.sched.tasks[t].status == Ready
    requires forall u :: u in st.prog ==> r.sched.tasks[u] == st.sched.tasks[u]
    ensures ThreadsOk(r) && StatusOk(r)
  {
    forall u | u in r.prog ensures HeldOk(r, r.prog[u]) {
      if u != t { HeldOkFrame(st, r, st.prog[u]); }
    }
  }

  lemma SpawnResources(st: State, r: State, t: Tid)
    requires LocksOk(st) && ChansOk(st) && t !in st.prog
    requires r.locks == st.locks && r.chans == st.chans && r.prog == st.prog[t := Prog(Work, multiset{})]
    ensures LocksOk(r) && ChansOk(r)
  {
    forall l | l in r.locks ensures LockOk(r, l) {
      assert LockOk(st, l);
      SpawnLock(st, r, t, l);
    }
    forall c | c in r.chans ensures ChanOk(r, c) {
      assert ChanOk(st, c);
      SpawnChan(st, r, t, c);
    }
  }

  lemma SpawnLock(st: State, r: State, t: Tid, l: LockId)
    requires l in st.locks && LockOk(st, l) && t !in st.prog
    requires r.locks == st.locks && r.prog == st.prog[t := Prog(Work, multiset{})]
    ensures LockOk(r, l)
  {
  }

  lemma SpawnChan(st: State, r: State, t: Tid, c: ChanId)
    requires c in st.chans && ChanOk(st, c) && t !in st.prog
    requires r.locks == st.locks && r.chans == st.chans && r.prog == st.prog[t := Prog(Work, multiset{})]
    ensures ChanOk(r, c)
  {
  }

  lemma SpawnSem(st: State, r: State, s: Sem, t: Tid)
    requires st.prog.Keys == st.sched.tasks.Keys && t !in st.prog && SemIn(st, s)
    requires r.locks == st.locks && r.chans == st.chans
    requires r.prog == st.prog[t := Prog(Work, multiset{})] && r.sched.tasks.Keys == r.prog.Keys
    requires forall u :: u in st.prog ==> r.sched.tasks[u] == st.sched.tasks[u]
    requires QueueOk(st, s) && WakeOk(st, s)
    ensures SemIn(r, s) && QueueOk(r, s) && WakeOk(r, s)
  {
    if SemOf(r, s).value > 0 && SemOf(r, s).waiters != [] {
      var u :| Popped(st, s, u);
      assert Popped(r, s, u);
    }
  }

  lemma ReapStep(st: State, t: Tid)
    requires Inv(st) && t in st.sched.tasks && st.sched.tasks[t].status == Hanging
    ensures Inv(st.(sched := Remove(st.sched, t), prog := st.prog - {t}))
  {
    var r := st.(sched := Remove(st.sched, t), prog := st.prog - {t});
    RemoveKeepsInv(st.sched, t);
    assert r.sched.ready == st.sched.ready;
    assert st.prog[t] == Prog(Work, multiset{});
    assert ThreadsOk(r) && StatusOk(r) by { ReapThreads(st, r, t); }
    assert LocksOk(r) && ChansOk(r) by { ReapResources(st, r, t); }
    forall s | SemIn(r, s) ensures QueueOk(r, s) && WakeOk(r, s) {
      assert SemIn(st, s);
      assert QueueOk(st, s) && WakeOk(st, s);
      ReapSem(st, r, s, t);
    }
  }

  lemma ReapThreads(st: State, r: State, t: Tid)
    requires ThreadsOk(st) && StatusOk(st) && t in st.prog && t != st.sched.idle
    requires r.locks == st.locks && r.chans == st.chans && r.sched.idle == st.sched.idle
    requires r.prog == st.prog - {t} && r.sched.tasks == st.sched.tasks - {t}
    ensures ThreadsOk(r) && StatusOk(r)
  {
    forall u | u in r.prog ensures HeldOk(r, r.prog[u]) { HeldOkFrame(st, r, st.prog[u]); }
  }

  lemma ReapResources(st: State, r: State, t: Tid)
    requires LocksOk(st) && ChansOk(st) && t in st.prog && st.prog[t] == Prog(Work, multiset{})
    requires r.locks == st.locks && r.chans == st.chans && r.prog == st.prog - {t}
    ensures LocksOk(r) && ChansOk(r)
  {
    forall l | l in r.locks ensures LockOk(r, l) {
      assert LockOk(st, l);
      assert !Inside(st.prog[t], l);
    }
    forall c | c in r.chans ensures ChanOk(r, c) {
      assert ChanOk(st, c);
    }
  }

  lemma ReapSem(st: State, r: State, s: Sem, t: Tid)
    requires st.prog.Keys == st.sched.tasks.Keys && t in st.prog && st.prog[t].pc == Work && SemIn(st, s)
    requires r.locks == st.locks && r.chans == st.chans
    requires r.prog == st.prog - {t} && r.sched.tasks == st.sched.tasks - {t}
    requires QueueOk(st, s) && WakeOk(st, s)
    ensures SemIn(r, s) && QueueOk(r, s) && WakeOk(r, s)
  {
    if SemOf(r, s).value > 0 && SemOf(r, s).waiters != [] {
      var u :| Popped(st, s, u);
      assert Popped(r, s, u);
    }
  }

  // ----- steps inside lock_acquire and lock_release -------------------------------------

  /** Positions that no lock, channel or queue invariant mentions. */
  predicate Neutral(pc: Pc) {
    match pc
    case SetHolder(_) => false
    case SetDepth(_) => false
    case ClearDepth(_) => false
    case Up(_) => false
    case CmdSent(_) => false
    case DownTest(s) => s.LockSem?
    case Retest(_) => false
    case _ => true
  }

  lemma PcStep(st: State, pc: Pc)
    requires Inv(st) && Neutral(st.prog[st.sched.cur].pc) && Neutral(pc)
    requires HeldOk(st, st.prog[st.sched.cur].(pc := pc))
    requires (pc == IdleBlock || pc == IdleHalt) <==> st.sched.cur == st.sched.idle
    ensures Inv(WithPc(st, pc))
  {
    PcThreads(st, pc);
    PcLocks(st, pc);
    PcChans(st, pc);
    PcQuiet(st, pc);
  }

  lemma PcThreads(st: State, pc: Pc)
    requires ThreadsOk(st) && st.sched.cur in st.prog && HeldOk(st, st.prog[st.sched.cur].(pc := pc))
    requires (pc == IdleBlock || pc == IdleHalt) <==> st.sched.cur == st.sched.idle
    ensures ThreadsOk(WithPc(st, pc))
  {
    ThreadsStep(st, WithPc(st, pc), st.prog[st.sched.cur].(pc := pc));
  }

  lemma PcChans(st: State, pc: Pc)
    requires ChansOk(st) && st.sched.cur in st.prog && Neutral(st.prog[st.sched.cur].pc) && Neutral(pc)
    ensures ChansOk(WithPc(st, pc))
  {
    ChansStep(st, WithPc(st, pc), {});
  }

  lemma PcQuiet(st: State, pc: Pc)
    requires ThreadsOk(st) && QueuesOk(st) && WakesOk(st) && StatusOk(st)
    requires st.sched.cur in st.prog && st.sched.tasks[st.sched.cur].status == Running
    requires !st.prog[st.sched.cur].pc.Retest? && !pc.Retest?
    ensures var r := WithPc(st, pc);
            r.prog.Keys == r.sched.tasks.Keys && QueuesOk(r) && WakesOk(r) && StatusOk(r)
  {
    QuietStep(st, WithPc(st, pc));
  }

  lemma PcLocks(st: State, pc: Pc)
    requires LocksOk(st) && st.sched.cur in st.prog && Neutral(st.prog[st.sched.cur].pc) && Neutral(pc)
    ensures LocksOk(WithPc(st, pc))
  {
    LocksStep(st, WithPc(st, pc), {});
  }

  /** The program counter and lock record of the running thread change; only lock
      `l` is concerned, and its semaphore is left alone. */
  ghost predicate LocalTo(st: State, l: LockId, k: Lock, p: Prog) {
    && st.sched.cur in st.prog
    && l in st.locks && k.sem == st.locks[l].sem
    && HeldOk(st, p)
    && (var q := st.prog[st.sched.cur];
        && LocalPc(q.pc, l) && LocalPc(p.pc, l)
        && (forall m :: m != l ==> p.held[m] == q.held[m]))
  }

  predicate LocalPc(pc: Pc, l: LockId) {
    || pc == Work || pc == AcquireNest(l) || pc == SetHolder(l) || pc == SetDepth(l) || pc == ReleaseNest(l)
    || pc == ClearHolder(l) || pc == ClearDepth(l) || pc == Up(l)
  }

  lemma LocalLocks(st: State, l: LockId, k: Lock, p: Prog)
    requires LocksOk(st) && LocalTo(st, l, k, p) && LockOk(UpdLock(st, l, k, p), l)
    ensures LocksOk(UpdLock(st, l, k, p))
  {
    var r := UpdLock(st, l, k, p);
    forall m | m in r.locks ensures LockOk(r, m) {
      if m != l {
        assert LockOk(st, m);
        LockFrame(st, r, m);
      }
    }
  }

  lemma LocalThreads(st: State, l: LockId, k: Lock, p: Prog)
    requires ThreadsOk(st) && LocalTo(st, l, k, p) && st.prog[st.sched.cur].pc != Work
    ensures ThreadsOk(UpdLock(st, l, k, p))
  {
    var r := UpdLock(st, l, k, p);
    forall m | p.held[m] > 0 ensures m in st.locks {
      if m != l { assert st.prog[st.sched.cur].held[m] > 0; }
    }
    ThreadsStep(st, r, p);
  }

  lemma LocalQuiet(st: State, l: LockId, k: Lock, p: Prog)
    requires ThreadsOk(st) && QueuesOk(st) && WakesOk(st) && StatusOk(st) && LocalTo(st, l, k, p)
    requires st.sched.tasks[st.sched.cur].status == Running
    ensures var r := UpdLock(st, l, k, p);
            r.prog.Keys == r.sched.tasks.Keys && QueuesOk(r) && WakesOk(r) && StatusOk(r)
  {
    var r := UpdLock(st, l, k, p);
    forall s | SemIn(st, s) ensures SemOf(r, s) == SemOf(st, s) { }
    QuietStep(st, r);
  }

  lemma LockStep(st: State, l: LockId, k: Lock, p: Prog)
    requires Inv(st) && LocalTo(st, l, k, p) && st.prog[st.sched.cur].pc != Work
    requires LockOk(UpdLock(st, l, k, p), l)
    ensures Inv(UpdLock(st, l, k, p))
  {
    LocalThreads(st, l, k, p);
    LocalLocks(st, l, k, p);
    LocalChans(st, l, k, p);
    LocalQuiet(st, l, k, p);
  }

  lemma LocalChans(st: State, l: LockId, k: Lock, p: Prog)
    requires ChansOk(st) && LocalTo(st, l, k, p)
    ensures ChansOk(UpdLock(st, l, k, p))
  {
    ChansStep(st, UpdLock(st, l, k, p), {});
  }

  lemma OwnerOf(st: State, t: Tid, l: LockId)
    requires LocksOk(st) && t in st.prog && l in st.locks && Inside(st.prog[t], l)
    ensures LockOk(st, l) && st.locks[l].owner == Some(t) && st.locks[l].sem.value == 0
    ensures st.locks[l].holder == ExpectedHolder(t, st.prog[t], l)
    ensures st.locks[l].repeat == ExpectedRepeat(st.prog[t], l)
  {
    assert LockOk(st, l);
  }

  lemma NotHolder(st: State, t: Tid, l: LockId)
    requires LocksOk(st) && t in st.prog && l in st.locks && !Inside(st.prog[t], l)
    ensures st.locks[l].holder != Some(t)
  {
    assert LockOk(st, l);
  }

  /** The owner rewrites its own lock record to what its new position demands. */
  lemma OwnLockOk(st: State, l: LockId, k: Lock, p: Prog)
    requires LocalTo(st, l, k, p) && LockOk(st, l)
    requires st.locks[l].owner == Some(st.sched.cur) == k.owner && Inside(p, l)
    requires k.holder == ExpectedHolder(st.sched.cur, p, l) && k.repeat == ExpectedRepeat(p, l)
    ensures LockOk(UpdLock(st, l, k, p), l)
  {
  }

  lemma OwnerStep(st: State, l: LockId, k: Lock, p: Prog)
    requires Inv(st) && LocalTo(st, l, k, p) && st.prog[st.sched.cur].pc != Work
    requires Inside(st.prog[st.sched.cur], l) && Inside(p, l) && k.owner == st.locks[l].owner
    requires k.holder == ExpectedHolder(st.sched.cur, p, l) && k.repeat == ExpectedRepeat(p, l)
    ensures Inv(UpdLock(st, l, k, p))
  {
    OwnerOf(st, st.sched.cur, l);
    OwnLockOk(st, l, k, p);
    LockStep(st, l, k, p);
  }

  /** The lock whose operation the running thread is in the middle of. */
  ghost predicate At(st: State, p: Prog, l: LockId) {
    && Inv(st) && p == st.prog[st.sched.cur] && l in st.locks
    && (p.pc == AcquireNest(l) || p.pc == SetHolder(l) || p.pc == SetDepth(l) || p.pc == ReleaseTest(l)
        || p.pc == ReleaseNest(l) || p.pc == ClearHolder(l) || p.pc == ClearDepth(l) || p.pc == Up(l))
  }

  lemma AtFacts(st: State, p: Prog, l: LockId)
    requires At(st, p, l)
    ensures Typed(st) && HeldOk(st, p) && Inside(p, l) && st.sched.cur in st.prog
    ensures st.locks[l].owner == Some(st.sched.cur) && st.locks[l].sem.value == 0
    ensures st.locks[l].holder == ExpectedHolder(st.sched.cur, p, l)
    ensures st.locks[l].repeat == ExpectedRepeat(p, l)
  {
    InvTyped(st);
    OwnerOf(st, st.sched.cur, l);
  }

  /** The lock record and program the running thread leaves behind at each position. */
  function NewLock(st: State, p: Prog, l: LockId): (k: Lock)
    requires l in st.locks
    requires p.pc.ReleaseNest? ==> st.locks[l].repeat > 0
  {
    var k := st.locks[l];
    match p.pc
    case AcquireNest(_) => k.(repeat := k.repeat + 1)
    case SetHolder(_) => k.(holder := Some(st.sched.cur))
    case SetDepth(_) => k.(repeat := 1)
    case ReleaseNest(_) => k.(repeat := k.repeat - 1)
    case ClearHolder(_) => k.(holder := None)
    case ClearDepth(_) => k.(repeat := 0)
    case _ => k
  }

  function NewProg(p: Prog, l: LockId): (q: Prog) {
    match p.pc
    case AcquireNest(_) => Prog(Work, p.held + multiset{l})
    case SetHolder(_) => p.(pc := SetDepth(l))
    case SetDepth(_) => Prog(Work, p.held + multiset{l})
    case ReleaseNest(_) => Prog(Work, p.held - multiset{l})
    case ClearHolder(_) => Prog(ClearDepth(l), p.held - multiset{l})
    case ClearDepth(_) => p.(pc := Up(l))
    case _ => p
  }

  predicate Rewrites(p: Prog, l: LockId) {
    p.pc == AcquireNest(l) || p.pc == SetHolder(l) || p.pc == SetDepth(l)
    || p.pc == ReleaseNest(l) || p.pc == ClearHolder(l) || p.pc == ClearDepth(l)
  }

  lemma AdvanceRewrites(st: State, p: Prog, l: LockId)
    requires Typed(st) && p == st.prog[st.sched.cur] && l in st.locks && Rewrites(p, l)
    ensures p.pc == ReleaseNest(l) ==> st.locks[l].repeat > 0
    ensures Advance(st) == UpdLock(st, l, NewLock(st, p, l), NewProg(p, l))
  {
  }

  lemma RewriteMeets(st: State, p: Prog, l: LockId)
    requires st.sched.cur in st.prog && p == st.prog[st.sched.cur] && l in st.locks && Rewrites(p, l) && HeldOk(st, p)
    requires st.locks[l].holder == ExpectedHolder(st.sched.cur, p, l)
    requires st.locks[l].repeat == ExpectedRepeat(p, l)
    ensures p.pc == ReleaseNest(l) ==> st.locks[l].repeat > 0
    ensures var k, q := NewLock(st, p, l), NewProg(p, l);
            && LocalTo(st, l, k, q) && Inside(q, l) && k.owner == st.locks[l].owner
            && k.holder == ExpectedHolder(st.sched.cur, q, l) && k.repeat == ExpectedRepeat(q, l)
  {
  }

  lemma RewriteStep(st: State, p: Prog, l: LockId)
    requires At(st, p, l) && Rewrites(p, l)
    ensures Typed(st) && Inv(Advance(st))
    ensures p.pc == SetDepth(l) ==> st.locks[l].repeat == 0
  {
    AtFacts(st, p, l);
    AdvanceRewrites(st, p, l);
    RewriteMeets(st, p, l);
    OwnerStep(st, l, NewLock(st, p, l), NewProg(p, l));
  }

  lemma ReleaseTestStep(st: State, p: Prog, l: LockId)
    requires At(st, p, l) && p.pc == ReleaseTest(l)
    ensures st.locks[l].holder == Some(st.sched.cur) && st.locks[l].repeat >= 1
    ensures Typed(st) && Inv(Advance(st))
  {
    AtFacts(st, p, l);
    PcStep(st, if st.locks[l].repeat > 1 then ReleaseNest(l) else ClearHolder(l));
  }

  lemma AcquireTestStep(st: State, p: Prog, l: LockId)
    requires Inv(st) && p == st.prog[st.sched.cur] && p.pc == AcquireTest(l)
    ensures Typed(st) && Inv(Advance(st))
  {
    InvTyped(st);
    if Inside(p, l) {
      OwnerOf(st, st.sched.cur, l);
      PcStep(st, AcquireNest(l));
    } else {
      NotHolder(st, st.sched.cur, l);
      PcStep(st, DownTest(LockSem(l)));
    }
  }

  // ----- sema_down: wait or take ---------------------------------------------------------

  ghost predicate OthersSame(st: State, r: State, s: Sem) {
    && r.locks.Keys == st.locks.Keys && r.chans.Keys == st.chans.Keys
    && (forall u :: SemIn(st, u) && u != s ==> SemOf(r, u) == SemOf(st, u))
  }

  /** The running thread is about to test semaphore `s`. */
  ghost predicate Testing(st: State, s: Sem) {
    && st.sched.cur in st.prog
    && (st.prog[st.sched.cur].pc == DownTest(s) || st.prog[st.sched.cur].pc == Retest(s))
    && SemIn(st, s)
  }

  ghost predicate BlocksOnly(st: State, r: State, me: Tid)
    requires st.prog.Keys == st.sched.tasks.Keys == r.sched.tasks.Keys
  {
    forall t :: t in st.prog && t != st.sched.idle ==>
      if t == me then r.sched.tasks[t].status == Blocked
      else if Parked(st.sched.tasks[t].status) then r.sched.tasks[t].status == st.sched.tasks[t].status
      else !Parked(r.sched.tasks[t].status)
  }

  /** The queue of the semaphore waited for grows by the running thread. */
  lemma WaitQueue(st: State, r: State, s: Sem)
    requires st.prog.Keys == st.sched.tasks.Keys == r.sched.tasks.Keys && Testing(st, s) && SemIn(r, s)
    requires st.sched.idle in st.prog && !st.prog[st.sched.idle].pc.Retest?
    requires st.sched.tasks[st.sched.cur].status == Running && st.sched.cur != st.sched.idle
    requires r.prog == st.prog[st.sched.cur := st.prog[st.sched.cur].(pc := Retest(s))]
    requires SemOf(r, s) == Semaphore(0, SemOf(st, s).waiters + [st.sched.cur])
    requires BlocksOnly(st, r, st.sched.cur) && QueueOk(st, s)
    ensures QueueOk(r, s) && WakeOk(r, s)
  {
  }

  /** Nothing that semaphore `u` depends on changes. */
  ghost predicate Unconcerned(st: State, r: State, u: Sem)
    requires st.prog.Keys == st.sched.tasks.Keys == r.prog.Keys == r.sched.tasks.Keys
  {
    && SemIn(st, u) && SemIn(r, u) && SemOf(r, u) == SemOf(st, u)
    && (forall t :: t in st.prog ==> (r.prog[t].pc == Retest(u) <==> st.prog[t].pc == Retest(u)))
    && (forall t :: t in st.prog && st.prog[t].pc == Retest(u) ==>
          (r.sched.tasks[t].status == Blocked <==> st.sched.tasks[t].status == Blocked))
  }

  lemma OtherQueue(st: State, r: State, u: Sem)
    requires st.prog.Keys == st.sched.tasks.Keys == r.prog.Keys == r.sched.tasks.Keys
    requires Unconcerned(st, r, u) && QueueOk(st, u) && WakeOk(st, u)
    ensures QueueOk(r, u) && WakeOk(r, u)
  {
    if SemOf(r, u).value > 0 && SemOf(r, u).waiters != [] {
      var t :| Popped(st, u, t);
      assert Popped(r, u, t);
    }
  }

  lemma WaitOther(st: State, r: State, s: Sem, u: Sem)
    requires st.prog.Keys == st.sched.tasks.Keys == r.sched.tasks.Keys && Testing(st, s)
    requires u != s && SemIn(st, u) && SemIn(r, u) && SemOf(r, u) == SemOf(st, u)
    requires st.sched.idle in st.prog && !st.prog[st.sched.idle].pc.Retest? && st.sched.cur != st.sched.idle
    requires r.prog == st.prog[st.sched.cur := st.prog[st.sched.cur].(pc := Retest(s))]
    requires BlocksOnly(st, r, st.sched.cur)
    ensures r.prog.Keys == st.prog.Keys && Unconcerned(st, r, u)
  {
    forall t | t in st.prog && st.prog[t].pc == Retest(u)
      ensures r.sched.tasks[t].status == Blocked <==> st.sched.tasks[t].status == Blocked
    {
      assert t != st.sched.cur && t != st.sched.idle;
    }
  }

  lemma WaitQueues(st: State, r: State, s: Sem)
    requires ThreadsOk(st) && QueuesOk(st) && WakesOk(st) && Testing(st, s) && OthersSame(st, r, s)
    requires r.sched.tasks.Keys == st.sched.tasks.Keys && st.sched.idle in st.prog
    requires st.sched.tasks[st.sched.cur].status == Running && st.sched.cur != st.sched.idle
    requires r.prog == st.prog[st.sched.cur := st.prog[st.sched.cur].(pc := Retest(s))]
    requires SemOf(r, s) == Semaphore(0, SemOf(st, s).waiters + [st.sched.cur])
    requires BlocksOnly(st, r, st.sched.cur)
    ensures r.prog.Keys == r.sched.tasks.Keys && QueuesOk(r) && WakesOk(r)
  {
    forall u | SemIn(r, u) ensures QueueOk(r, u) && WakeOk(r, u) {
      assert SemIn(st, u);
      assert QueueOk(st, u) && WakeOk(st, u);
      if u == s { WaitQueue(st, r, s); } else { WaitOther(st, r, s, u); OtherQueue(st, r, u); }
    }
  }

  lemma WaitStatus(st: State, r: State, s: Sem)
    requires st.prog.Keys == st.sched.tasks.Keys == r.sched.tasks.Keys && StatusOk(st) && Testing(st, s)
    requires r.sched.idle == st.sched.idle && st.sched.idle in st.prog
    requires r.sched.tasks[st.sched.idle].status != Waiting && r.sched.tasks[st.sched.idle].status != Hanging
    requires r.prog == st.prog[st.sched.cur := st.prog[st.sched.cur].(pc := Retest(s))]
    requires st.sched.cur != st.sched.idle && BlocksOnly(st, r, st.sched.cur)
    ensures StatusOk(r)
  {
    var me := st.sched.cur;
    forall t | t in r.prog && Parked(r.sched.tasks[t].status) && t != me && t != st.sched.idle
      ensures r.sched.tasks[t].status == st.sched.tasks[t].status && r.prog[t] == st.prog[t]
    {
    }
  }

  lemma TakeQueues(st: State, r: State, s: Sem)
    requires ThreadsOk(st) && QueuesOk(st) && WakesOk(st) && Testing(st, s)
    requires OthersSame(st, r, s) && r.sched == st.sched && st.sched.tasks[st.sched.cur].status == Running
    requires st.sched.cur in r.prog && r.prog == st.prog[st.sched.cur := r.prog[st.sched.cur]]
    requires !r.prog[st.sched.cur].pc.Retest?
    requires SemOf(r, s) == Semaphore(0, SemOf(st, s).waiters)
    ensures r.prog.Keys == r.sched.tasks.Keys && QueuesOk(r) && WakesOk(r)
  {
    forall u | SemIn(r, u) ensures QueueOk(r, u) && WakeOk(r, u) {
      assert SemIn(st, u);
      assert QueueOk(st, u) && WakeOk(st, u);
      if u != s { OtherQueue(st, r, u); }
    }
  }

  lemma SignalQueues(st: State, r: State, s: Sem)
    requires ThreadsOk(st) && QueuesOk(st) && WakesOk(st) && SemIn(st, s)
    requires OthersSame(st, r, s) && r.sched == WakeFirstOf(st, s)
    requires st.sched.cur in st.prog && st.sched.tasks[st.sched.cur].status == Running
    requires st.sched.cur in r.prog && r.prog == st.prog[st.sched.cur := r.prog[st.sched.cur]]
    requires !st.prog[st.sched.cur].pc.Retest? && !r.prog[st.sched.cur].pc.Retest?
    requires SemOf(r, s) == Signal(SemOf(st, s))
    ensures r.prog.Keys == r.sched.tasks.Keys && QueuesOk(r) && WakesOk(r)
  {
    assert QueueOk(st, s);
    SignalKeys(st, s);
    forall u | SemIn(r, u) ensures QueueOk(r, u) && WakeOk(r, u) {
      assert SemIn(st, u);
      assert QueueOk(st, u) && WakeOk(st, u);
      if u == s {
        SignalQueue(st, r, s);
      } else {
        SignalOther(st, r, s, u);
        OtherQueue(st, r, u);
      }
    }
  }

  lemma SignalKeys(st: State, s: Sem)
    requires ThreadsOk(st) && QueuesOk(st) && SemIn(st, s)
    ensures WakeFirstOf(st, s).tasks.Keys == st.sched.tasks.Keys
  {
    assert QueueOk(st, s);
  }

  lemma SignalQueue(st: State, r: State, s: Sem)
    requires st.prog.Keys == st.sched.tasks.Keys == r.prog.Keys == r.sched.tasks.Keys
    requires SemIn(st, s) && SemIn(r, s) && QueueOk(st, s)
    requires QueueHeadKnown(st.sched, SemOf(st, s)) && r.sched == WakeFirst(st.sched, SemOf(st, s))
    requires st.sched.cur in st.prog && r.prog == st.prog[st.sched.cur := r.prog[st.sched.cur]]
    requires !st.prog[st.sched.cur].pc.Retest? && !r.prog[st.sched.cur].pc.Retest?
    requires SemOf(r, s) == Signal(SemOf(st, s))
    ensures QueueOk(r, s) && WakeOk(r, s)
  {
    var w := SemOf(st, s).waiters;
    if w != [] {
      assert w[0] !in w[1..];
      if |w| > 1 { assert Popped(r, s, w[0]); }
    }
  }

  lemma SignalOther(st: State, r: State, s: Sem, u: Sem)
    requires st.prog.Keys == st.sched.tasks.Keys == r.prog.Keys == r.sched.tasks.Keys
    requires SemIn(st, s) && SemIn(st, u) && u != s && SemIn(r, u) && SemOf(r, u) == SemOf(st, u)
    requires SemOf(st, s).waiters != [] ==>
               SemOf(st, s).waiters[0] in st.prog && st.prog[SemOf(st, s).waiters[0]].pc == Retest(s)
    requires r.sched == WakeFirst(st.sched, SemOf(st, s))
    requires st.sched.cur in st.prog && r.prog == st.prog[st.sched.cur := r.prog[st.sched.cur]]
    requires !st.prog[st.sched.cur].pc.Retest? && !r.prog[st.sched.cur].pc.Retest?
    ensures Unconcerned(st, r, u)
  {
  }

  ghost function WakeFirstOf(st: State, s: Sem): (r: Sched)
    requires ThreadsOk(st) && QueuesOk(st) && SemIn(st, s)
  {
    assert QueueOk(st, s);
    WakeFirst(st.sched, SemOf(st, s))
  }

  /** `sema_up` may wake the first waiter: it is parked and not on the ready list. */
  lemma SignalSched(st: State, s: Sem)
    requires WellFormed(st.sched) && ThreadsOk(st) && QueuesOk(st) && SemIn(st, s)
    ensures WellFormed(WakeFirstOf(st, s))
    ensures var w := SemOf(st, s).waiters;
            w != [] ==> w[0] in st.sched.tasks && Parked(st.sched.tasks[w[0]].status) && w[0] !in st.sched.ready
  {
    assert QueueOk(st, s);
    var w := SemOf(st, s).waiters;
    if w != [] { UnblockKeepsInv(st.sched, w[0]); }
  }

  lemma SignalStatus(st: State, r: State, s: Sem)
    requires ThreadsOk(st) && QueuesOk(st) && StatusOk(st) && SemIn(st, s) && r.sched == WakeFirstOf(st, s)
    requires st.sched.cur in st.prog && st.sched.tasks[st.sched.cur].status == Running
    requires st.sched.cur in r.prog && r.prog == st.prog[st.sched.cur := r.prog[st.sched.cur]]
    ensures r.prog.Keys == r.sched.tasks.Keys && StatusOk(r)
  {
    assert QueueOk(st, s);
  }

  // ----- the four lock-semaphore and channel steps ------------------------------------------

  lemma DownWaitStep(st: State, s: Sem)
    requires Inv(st) && Testing(st, s) && SemOf(st, s).value == 0 && st.sched.cur != st.sched.idle
    ensures Inv(Down(st, s))
    ensures st.sched.cur !in SemOf(st, s).waiters
  {
    var me := st.sched.cur;
    var r := Down(st, s);
    BlockKeepsInv(st.sched, Blocked);
    forall t | t in st.prog && t != st.sched.idle
      ensures t in r.sched.tasks
      ensures t == me ==> r.sched.tasks[t].status == Blocked
      ensures t != me && Parked(st.sched.tasks[t].status) ==> r.sched.tasks[t].status == st.sched.tasks[t].status
      ensures t != me && !Parked(st.sched.tasks[t].status) ==> !Parked(r.sched.tasks[t].status)
    {
      BlockEffect(st.sched, Blocked, t);
    }
    DownWaitShape(st, s);
    assert HeldOk(st, st.prog[me]);
    DownWaitThreads(st, r, s);
    assert LocksOk(r) && ChansOk(r) by { DownWaitResources(st, s); }
    WaitStatus(st, r, s);
    WaitQueues(st, r, s);
    assert QueueOk(st, s);
  }

  lemma DownWaitThreads(st: State, r: State, s: Sem)
    requires ThreadsOk(st) && Testing(st, s) && st.sched.cur != st.sched.idle && SameShape(st, r)
    requires r.prog == st.prog[st.sched.cur := st.prog[st.sched.cur].(pc := Retest(s))]
    ensures ThreadsOk(r)
  {
    var p := st.prog[st.sched.cur];
    assert HeldOk(st, p);
    ThreadsStep(st, r, p.(pc := Retest(s)));
  }

  lemma DownWaitShape(st: State, s: Sem)
    requires WellFormed(st.sched) && Testing(st, s) && SemOf(st, s).value == 0 && st.sched.cur != st.sched.idle
    ensures var r := Down(st, s);
            && r.prog == st.prog[st.sched.cur := st.prog[st.sched.cur].(pc := Retest(s))]
            && OthersSame(st, r, s)
            && SemOf(r, s) == Semaphore(0, SemOf(st, s).waiters + [st.sched.cur])
            && r.sched == Block(st.sched, Blocked)
  {
  }

  lemma DownWaitResources(st: State, s: Sem)
    requires WellFormed(st.sched) && LocksOk(st) && ChansOk(st) && Testing(st, s)
    requires SemOf(st, s).value == 0 && st.sched.cur != st.sched.idle
    ensures LocksOk(Down(st, s)) && ChansOk(Down(st, s))
  {
    var r := Down(st, s);
    forall l | l in r.locks ensures LockOk(r, l) {
      assert LockOk(st, l);
      DownWaitLock(st, r, s, l);
    }
    forall c | c in r.chans ensures ChanOk(r, c) {
      assert ChanOk(st, c);
      DownWaitChan(st, r, s, c);
    }
  }

  lemma DownWaitLock(st: State, r: State, s: Sem, l: LockId)
    requires Testing(st, s) && l in st.locks && l in r.locks && LockOk(st, l)
    requires r.prog == st.prog[st.sched.cur := st.prog[st.sched.cur].(pc := Retest(s))]
    requires r.locks[l].(sem := st.locks[l].sem) == st.locks[l] && r.locks[l].sem.value == st.locks[l].sem.value
    ensures LockOk(r, l)
  {
  }

  lemma DownWaitChan(st: State, r: State, s: Sem, c: ChanId)
    requires Testing(st, s) && c in st.chans && c in r.chans && ChanOk(st, c) && r.locks.Keys == st.locks.Keys
    requires r.prog == st.prog[st.sched.cur := st.prog[st.sched.cur].(pc := Retest(s))]
    requires r.chans[c].(done := st.chans[c].done) == st.chans[c] && r.chans[c].done.value == st.chans[c].done.value
    ensures ChanOk(r, c)
  {
  }

  // ----- components of a step that changes only the running thread's position ------------------

  /** The running thread moves to `pc` and keeps the locks it holds. */
  ghost predicate Moves(st: State, r: State, pc: Pc) {
    && st.sched.cur in st.prog
    && r.prog == st.prog[st.sched.cur := st.prog[st.sched.cur].(pc := pc)]
    && SameShape(st, r)
  }

  predicate LockNeutral(pc: Pc) {
    !pc.SetHolder? && !pc.SetDepth? && !pc.ClearDepth? && !pc.Up?
  }

  predicate OnlyLock(pc: Pc, l: LockId) {
    LockNeutral(pc) || pc == SetHolder(l) || pc == SetDepth(l) || pc == ClearDepth(l) || pc == Up(l)
  }

  /** The channel a program counter is waiting on, if any. */
  function AwaitedBy(pc: Pc): (r: Option<ChanId>) {
    match pc
    case CmdSent(c) => Some(c)
    case DownTest(DiskDone(c)) => Some(c)
    case Retest(DiskDone(c)) => Some(c)
    case _ => None
  }

  lemma MoveThreads(st: State, r: State, pc: Pc)
    requires ThreadsOk(st) && Moves(st, r, pc) && HeldOk(st, st.prog[st.sched.cur].(pc := pc))
    requires st.sched.cur == st.sched.idle <==> pc == IdleBlock || pc == IdleHalt
    ensures ThreadsOk(r)
  {
    ThreadsStep(st, r, st.prog[st.sched.cur].(pc := pc));
  }

  lemma MoveLocks(st: State, r: State, pc: Pc)
    requires LocksOk(st) && Moves(st, r, pc) && r.locks == st.locks
    requires LockNeutral(pc) && LockNeutral(st.prog[st.sched.cur].pc)
    ensures LocksOk(r)
  {
    LocksStep(st, r, {});
  }

  lemma MoveOneLock(st: State, r: State, pc: Pc, l: LockId)
    requires LocksOk(st) && Moves(st, r, pc) && l in r.locks && r.locks == st.locks[l := r.locks[l]]
    requires OnlyLock(pc, l) && OnlyLock(st.prog[st.sched.cur].pc, l) && LockOk(r, l)
    ensures LocksOk(r)
  {
    LocksStep(st, r, {l});
  }

  lemma MoveChans(st: State, r: State, pc: Pc)
    requires ChansOk(st) && Moves(st, r, pc) && r.chans == st.chans
    requires AwaitedBy(pc) == AwaitedBy(st.prog[st.sched.cur].pc)
    ensures ChansOk(r)
  {
    AwaitedIs(pc, st.prog[st.sched.cur]);
    ChansStep(st, r, {});
  }

  lemma AwaitedIs(pc: Pc, p: Prog)
    ensures forall c: ChanId :: Awaiting(p.(pc := pc), c) <==> AwaitedBy(pc) == Some(c)
    ensures forall c: ChanId :: Awaiting(p, c) <==> AwaitedBy(p.pc) == Some(c)
  {
  }

  lemma MoveOneChan(st: State, r: State, pc: Pc, c: ChanId)
    requires ChansOk(st) && Moves(st, r, pc) && c in r.chans && r.chans == st.chans[c := r.chans[c]]
    requires AwaitedBy(pc) == None || AwaitedBy(pc) == Some(c)
    requires AwaitedBy(st.prog[st.sched.cur].pc) == None || AwaitedBy(st.prog[st.sched.cur].pc) == Some(c)
    requires ChanOk(r, c)
    ensures ChansOk(r)
  {
    AwaitedIs(pc, st.prog[st.sched.cur]);
    ChansStep(st, r, {c});
  }

  lemma MoveStatus(st: State, r: State, pc: Pc)
    requires ThreadsOk(st) && StatusOk(st) && Moves(st, r, pc) && r.sched == st.sched
    requires st.sched.tasks[st.sched.cur].status == Running
    ensures r.prog.Keys == r.sched.tasks.Keys && StatusOk(r)
  {
  }

  // ----- sema_down takes the unit ---------------------------------------------------------------

  lemma DownTakeLock(st: State, l: LockId)
    requires Inv(st) && Testing(st, LockSem(l)) && st.locks[l].sem.value > 0 && st.sched.cur != st.sched.idle
    ensures st.locks[l].sem.value == 1
    ensures Inv(Down(st, LockSem(l)))
  {
    FreeLock(st, l);
    TakeLockShape(st, l);
    var r := Down(st, LockSem(l));
    TakeLockResources(st, r, l);
    MoveStatus(st, r, SetHolder(l));
    TakeQueues(st, r, LockSem(l));
  }

  lemma TakeLockShape(st: State, l: LockId)
    requires Testing(st, LockSem(l)) && st.locks[l].sem.value == 1 && WellFormed(st.sched) && st.sched.cur != st.sched.idle
    ensures var r := Down(st, LockSem(l));
            && Moves(st, r, SetHolder(l)) && OthersSame(st, r, LockSem(l))
            && r.sched == st.sched && r.chans == st.chans
            && r.locks == st.locks[l := st.locks[l].(sem := Semaphore(0, st.locks[l].sem.waiters), owner := Some(st.sched.cur))]
  {
  }

  lemma TakeLockResources(st: State, r: State, l: LockId)
    requires ThreadsOk(st) && LocksOk(st) && ChansOk(st) && st.sched.cur != st.sched.idle
    requires Testing(st, LockSem(l)) && st.locks[l].owner == None && Moves(st, r, SetHolder(l)) && r.chans == st.chans
    requires r.locks == st.locks[l := st.locks[l].(sem := Semaphore(0, st.locks[l].sem.waiters), owner := Some(st.sched.cur))]
    ensures ThreadsOk(r) && LocksOk(r) && ChansOk(r)
  {
    NotHeld(st, l);
    assert ThreadsOk(r) by { MoveThreads(st, r, SetHolder(l)); }
    assert LocksOk(r) by { TakeLocks(st, r, l); }
    assert ChansOk(r) by { MoveChans(st, r, SetHolder(l)); }
  }

  lemma NotHeld(st: State, l: LockId)
    requires ThreadsOk(st) && Testing(st, LockSem(l))
    ensures st.prog[st.sched.cur].held[l] == 0 && HeldOk(st, st.prog[st.sched.cur].(pc := SetHolder(l)))
  {
    assert HeldOk(st, st.prog[st.sched.cur]);
  }

  lemma TakeLocks(st: State, r: State, l: LockId)
    requires LocksOk(st) && Testing(st, LockSem(l)) && st.locks[l].owner == None && Moves(st, r, SetHolder(l))
    requires st.prog[st.sched.cur].held[l] == 0
    requires r.locks == st.locks[l := st.locks[l].(sem := Semaphore(0, st.locks[l].sem.waiters), owner := Some(st.sched.cur))]
    ensures LocksOk(r)
  {
    assert LockOk(st, l);
    TakenLockOk(st, r, l);
    MoveOneLock(st, r, SetHolder(l), l);
  }

  lemma FreeLock(st: State, l: LockId)
    requires LocksOk(st) && l in st.locks && st.locks[l].sem.value > 0
    ensures LockOk(st, l) && st.locks[l].owner == None && st.locks[l].sem.value == 1
  {
    assert LockOk(st, l);
  }

  /** Taking the unit of a free lock makes the running thread its owner. */
  lemma TakenLockOk(st: State, r: State, l: LockId)
    requires st.sched.cur in st.prog && st.prog[st.sched.cur].held[l] == 0
    requires l in st.locks && l in r.locks && LockOk(st, l) && st.locks[l].owner == None
    requires r.prog == st.prog[st.sched.cur := st.prog[st.sched.cur].(pc := SetHolder(l))]
    requires r.locks[l] == st.locks[l].(sem := r.locks[l].sem, owner := Some(st.sched.cur)) && r.locks[l].sem.value == 0
    ensures LockOk(r, l)
  {
  }

  lemma DownTakeDisk(st: State, c: ChanId)
    requires Inv(st) && Testing(st, DiskDone(c)) && st.chans[c].done.value > 0 && st.sched.cur != st.sched.idle
    ensures st.chans[c].done.value == 1
    ensures Inv(Down(st, DiskDone(c)))
  {
    AwaitingIsPending(st, st.sched.cur, c);
    TakeDiskShape(st, c);
    TakeDiskResources(st, c);
    var r := Down(st, DiskDone(c));
    MoveStatus(st, r, Work);
    TakeQueues(st, r, DiskDone(c));
  }

  lemma TakeDiskShape(st: State, c: ChanId)
    requires Testing(st, DiskDone(c)) && st.chans[c].done.value == 1 && WellFormed(st.sched) && st.sched.cur != st.sched.idle
    ensures var r := Down(st, DiskDone(c)); var ch := st.chans[c];
            && Moves(st, r, Work) && OthersSame(st, r, DiskDone(c))
            && r.sched == st.sched && r.locks == st.locks
            && r.chans == st.chans[c := ch.(done := Semaphore(0, ch.done.waiters), pending := None, consumed := ch.consumed + 1)]
  {
  }

  lemma TakeDiskResources(st: State, c: ChanId)
    requires ThreadsOk(st) && LocksOk(st) && ChansOk(st) && WellFormed(st.sched) && st.sched.cur != st.sched.idle
    requires Testing(st, DiskDone(c)) && st.chans[c].done.value == 1
    ensures var r := Down(st, DiskDone(c)); ThreadsOk(r) && LocksOk(r) && ChansOk(r)
  {
    var r := Down(st, DiskDone(c));
    AwaitingIsPending(st, st.sched.cur, c);
    TakeDiskShape(st, c);
    MoveThreads(st, r, Work);
    MoveLocks(st, r, Work);
    TakenChanOk(st, r, c);
    MoveOneChan(st, r, Work, c);
  }

  lemma AwaitingIsPending(st: State, t: Tid, c: ChanId)
    requires ChansOk(st) && t in st.prog && c in st.chans && Awaiting(st.prog[t], c)
    ensures ChanOk(st, c) && st.chans[c].pending == Some(t) && st.chans[c].done.value <= 1
  {
    assert ChanOk(st, c);
  }

  lemma TakenChanOk(st: State, r: State, c: ChanId)
    requires st.sched.cur in st.prog && c in st.chans && ChanOk(st, c) && c in r.chans && r.locks == st.locks
    requires st.chans[c].pending == Some(st.sched.cur) && st.chans[c].done.value > 0
    requires r.prog == st.prog[st.sched.cur := st.prog[st.sched.cur].(pc := Work)]
    requires r.chans[c] == st.chans[c].(done := r.chans[c].done, pending := None, consumed := st.chans[c].consumed + 1)
    requires r.chans[c].done.value == st.chans[c].done.value - 1
    ensures ChanOk(r, c)
  {
  }

  // ----- sema_up, by lock_release and by the disk interrupt ---------------------------------

  lemma UpStep(st: State, p: Prog, l: LockId)
    requires At(st, p, l) && p.pc == Up(l)
    ensures st.locks[l].sem.value == 0
    ensures var w := st.locks[l].sem.waiters;
            w != [] ==> w[0] in st.sched.tasks && Parked(st.sched.tasks[w[0]].status) && w[0] !in st.sched.ready
    ensures Typed(st) && Inv(Advance(st))
  {
    AtFacts(st, p, l);
    SignalSched(st, LockSem(l));
    UpShape(st, p, l);
    UpResources(st, Advance(st), l);
    SignalQueues(st, Advance(st), LockSem(l));
    SignalStatus(st, Advance(st), LockSem(l));
  }

  lemma UpShape(st: State, p: Prog, l: LockId)
    requires Typed(st) && p == st.prog[st.sched.cur] && p.pc == Up(l) && ThreadsOk(st) && QueuesOk(st)
    ensures var r := Advance(st);
            && r.sched == WakeFirstOf(st, LockSem(l)) && Moves(st, r, Work)
            && r.chans == st.chans && OthersSame(st, r, LockSem(l))
            && r.locks == st.locks[l := st.locks[l].(sem := Signal(st.locks[l].sem), owner := None)]
  {
    SignalKeys(st, LockSem(l));
  }

  lemma UpResources(st: State, r: State, l: LockId)
    requires Moves(st, r, Work) && st.prog[st.sched.cur].pc == Up(l) && st.prog[st.sched.cur].held[l] == 0
    requires ThreadsOk(st) && LocksOk(st) && ChansOk(st) && l in st.locks && r.chans == st.chans
    requires r.locks == st.locks[l := st.locks[l].(sem := Signal(st.locks[l].sem), owner := None)]
    ensures ThreadsOk(r) && LocksOk(r) && ChansOk(r)
  {
    assert ThreadsOk(r) by {
      assert st.sched.cur != st.sched.idle;
      MoveThreads(st, r, Work);
    }
    assert LocksOk(r) by { UpLocks(st, r, l); }
    assert ChansOk(r) by { MoveChans(st, r, Work); }
  }

  lemma UpLocks(st: State, r: State, l: LockId)
    requires Moves(st, r, Work) && st.prog[st.sched.cur].pc == Up(l) && st.prog[st.sched.cur].held[l] == 0
    requires LocksOk(st) && l in st.locks
    requires r.locks == st.locks[l := st.locks[l].(sem := Signal(st.locks[l].sem), owner := None)]
    ensures LocksOk(r)
  {
    OwnerOf(st, st.sched.cur, l);
    ReleasedLockOk(st, r, l);
    MoveOneLock(st, r, Work, l);
  }

  lemma ReleasedLockOk(st: State, r: State, l: LockId)
    requires st.sched.cur in st.prog && st.prog[st.sched.cur].pc == Up(l) && st.prog[st.sched.cur].held[l] == 0
    requires l in st.locks && l in r.locks && LockOk(st, l)
    requires r.prog == st.prog[st.sched.cur := st.prog[st.sched.cur].(pc := Work)]
    requires r.locks[l] == st.locks[l].(sem := r.locks[l].sem, owner := None) && r.locks[l].sem.value == st.locks[l].sem.value + 1
    ensures LockOk(r, l)
  {
    assert Inside(st.prog[st.sched.cur], l);
  }

  /** The handler finds `disk_done` at 0 whenever it signals (assert at sync.c 43). */
  lemma DiskStep(st: State, c: ChanId)
    requires Inv(st) && c in st.chans && !InterruptsOff(st.prog[st.sched.cur].pc)
    ensures st.chans[c].expecting ==> st.chans[c].done.value == 0
    ensures var w := st.chans[c].done.waiters;
            w != [] ==> w[0] in st.sched.tasks && Parked(st.sched.tasks[w[0]].status) && w[0] !in st.sched.ready
    ensures Typed(st) && Inv(DiskInterrupt(st, c))
  {
    InvTyped(st);
    SignalSched(st, DiskDone(c));
    ChanFacts(st, c);
    if st.chans[c].expecting {
      DiskShape(st, c);
      DiskResources(st, c);
      SignalQueues(st, DiskInterrupt(st, c), DiskDone(c));
      SignalStatus(st, DiskInterrupt(st, c), DiskDone(c));
    }
  }

  lemma DiskShape(st: State, c: ChanId)
    requires Typed(st) && c in st.chans && st.chans[c].expecting && ThreadsOk(st) && QueuesOk(st)
    ensures var r := DiskInterrupt(st, c); var ch := st.chans[c];
            && r.sched == WakeFirstOf(st, DiskDone(c)) && r.prog == st.prog && SameShape(st, r)
            && st.prog == st.prog[st.sched.cur := st.prog[st.sched.cur]]
            && r.locks == st.locks && OthersSame(st, r, DiskDone(c))
            && r.chans == st.chans[c := ch.(expecting := false, done := Signal(ch.done), signalled := ch.signalled + 1)]
  {
    SignalKeys(st, DiskDone(c));
  }

  lemma DiskResources(st: State, c: ChanId)
    requires Typed(st) && c in st.chans && st.chans[c].expecting
    requires ThreadsOk(st) && LocksOk(st) && ChansOk(st) && QueuesOk(st)
    ensures var r := DiskInterrupt(st, c); ThreadsOk(r) && LocksOk(r) && ChansOk(r)
  {
    var r := DiskInterrupt(st, c);
    DiskShape(st, c);
    ThreadsSame(st, r);
    LocksSame(st, r);
    ChansSignalled(st, r, c);
  }

  lemma LocksSame(st: State, r: State)
    requires LocksOk(st) && r.locks == st.locks && r.prog == st.prog
    ensures LocksOk(r)
  {
    forall l | l in r.locks ensures LockOk(r, l) { assert LockOk(st, l); }
  }

  lemma ChanFacts(st: State, c: ChanId)
    requires ChansOk(st) && c in st.chans
    ensures st.chans[c].expecting ==> st.chans[c].done.value == 0
  {
    assert ChanOk(st, c);
  }

  lemma ChansSignalled(st: State, r: State, c: ChanId)
    requires ChansOk(st) && r.locks == st.locks && r.prog == st.prog
    requires c in st.chans && st.chans[c].expecting && c in r.chans && r.chans == st.chans[c := r.chans[c]]
    requires r.chans[c] == st.chans[c].(expecting := false, done := r.chans[c].done, signalled := st.chans[c].signalled + 1)
    requires r.chans[c].done.value == st.chans[c].done.value + 1
    ensures ChansOk(r)
  {
    forall d | d in r.chans ensures ChanOk(r, d) { assert ChanOk(st, d); }
  }

  // ----- issuing a command ------------------------------------------------------------------

  lemma CmdOutStep(st: State, c: ChanId)
    requires Inv(st) && Enabled(st, CallCmdOut(c))
    ensures !st.chans[c].expecting && st.chans[c].done.value == 0
    ensures Typed(st) && Inv(Next(st, CallCmdOut(c)))
  {
    InvTyped(st);
    NobodyAwaits(st, st.sched.cur, c);
    CmdOutShape(st, c);
    IssueStep(st, Next(st, CallCmdOut(c)), c);
  }

  lemma CmdOutShape(st: State, c: ChanId)
    requires Typed(st) && Enabled(st, CallCmdOut(c))
    ensures var r := Next(st, CallCmdOut(c)); var ch := st.chans[c];
            && Moves(st, r, CmdSent(c)) && r.sched == st.sched && r.locks == st.locks
            && r.chans == st.chans[c := ch.(expecting := true, pending := Some(st.sched.cur), issued := ch.issued + 1)]
  {
  }

  lemma IssueStep(st: State, r: State, c: ChanId)
    requires Inv(st) && st.prog[st.sched.cur].pc == Work && st.prog[st.sched.cur].held[c] > 0 && c in st.chans
    requires Moves(st, r, CmdSent(c)) && r.sched == st.sched && r.locks == st.locks
    requires ChanOk(st, c) && st.chans[c].pending == None && !st.chans[c].expecting
    requires r.chans == st.chans[c := st.chans[c].(expecting := true, pending := Some(st.sched.cur), issued := st.chans[c].issued + 1)]
    ensures Inv(r)
  {
    assert ThreadsOk(r) by { MoveThreads(st, r, CmdSent(c)); }
    assert LocksOk(r) by { MoveLocks(st, r, CmdSent(c)); }
    assert ChansOk(r) by {
      IssuedChanOk(st, r, c);
      MoveOneChan(st, r, CmdSent(c), c);
    }
    IssueQuiet(st, r, c);
  }

  lemma IssueQuiet(st: State, r: State, c: ChanId)
    requires ThreadsOk(st) && QueuesOk(st) && WakesOk(st) && StatusOk(st) && Moves(st, r, CmdSent(c))
    requires r.sched == st.sched && r.locks == st.locks && st.sched.tasks[st.sched.cur].status == Running
    requires st.prog[st.sched.cur].pc == Work
    requires c in st.chans && r.chans == st.chans[c := r.chans[c]] && r.chans[c].done == st.chans[c].done
    ensures r.prog.Keys == r.sched.tasks.Keys && QueuesOk(r) && WakesOk(r) && StatusOk(r)
  {
    forall s | SemIn(st, s) ensures SemOf(r, s) == SemOf(st, s) { }
    QuietStep(st, r);
  }

  /** Whoever holds the channel's lock and is not itself waiting finds it idle. */
  lemma NobodyAwaits(st: State, t: Tid, c: ChanId)
    requires ThreadsOk(st) && LocksOk(st) && ChansOk(st)
    requires t in st.prog && c in st.chans && st.prog[t].held[c] > 0 && !Awaiting(st.prog[t], c)
    ensures ChanOk(st, c) && st.chans[c].pending == None && !st.chans[c].expecting && st.chans[c].done.value == 0
  {
    assert ChanOk(st, c);
    assert LockOk(st, c);
    assert Inside(st.prog[t], c);
    forall u | u in st.prog && u != t ensures !Awaiting(st.prog[u], c) {
      assert !Inside(st.prog[u], c);
      assert HeldOk(st, st.prog[u]);
    }
  }

  lemma IssuedChanOk(st: State, r: State, c: ChanId)
    requires st.sched.cur in st.prog && c in st.chans && c in r.chans && ChanOk(st, c) && r.locks == st.locks
    requires st.chans[c].pending == None && !st.chans[c].expecting
    requires r.prog == st.prog[st.sched.cur := st.prog[st.sched.cur].(pc := CmdSent(c))]
    requires r.chans[c] == st.chans[c].(expecting := true, pending := Some(st.sched.cur), issued := st.chans[c].issued + 1)
    ensures ChanOk(r, c)
  {
  }

  lemma CmdSentStep(st: State, c: ChanId)
    requires Inv(st) && st.prog[st.sched.cur].pc == CmdSent(c)
    ensures Inv(WithPc(st, DownTest(DiskDone(c))))
  {
    var pc := DownTest(DiskDone(c));
    var r := WithPc(st, pc);
    assert HeldOk(st, st.prog[st.sched.cur]);
    MoveThreads(st, r, pc);
    MoveLocks(st, r, pc);
    MoveChans(st, r, pc);
    PcQuiet(st, pc);
  }

  // ----- the idle thread ----------------------------------------------------------------------

  lemma IdleBlockStep(st: State)
    requires Inv(st) && st.prog[st.sched.cur].pc == IdleBlock
    ensures Inv(WithPc(st, IdleHalt).(sched := Block(st.sched, Blocked)))
  {
    assert HeldOk(st, st.prog[st.sched.cur]);
    PcStep(st, IdleHalt);
    IdleParks(WithPc(st, IdleHalt));
  }

  lemma IdleParks(st: State)
    requires Inv(st) && st.sched.cur == st.sched.idle
    ensures Inv(st.(sched := Block(st.sched, Blocked)))
  {
    BlockKeepsInv(st.sched, Blocked);
    IdleParksSelf(st.sched);
    RescheduleStep(st, Block(st.sched, Blocked));
  }

  lemma IdleParksSelf(s: Sched)
    requires WellFormed(s) && s.cur == s.idle
    ensures KeepsParked(s, Block(s, Blocked))
  {
    BlockKeepsInv(s, Blocked);
    var r := Block(s, Blocked);
    forall t | t in s.tasks && t != s.idle
      ensures if Parked(s.tasks[t].status) then r.tasks[t].status == s.tasks[t].status else !Parked(r.tasks[t].status)
    {
      ScheduleFrame(SetStatus(s, s.cur, Blocked), t);
    }
  }

  // ----- every step is safe -------------------------------------------------------------------

  /** The first waiter of a signalled semaphore may be unblocked (thread.c 226 and 230). */
  predicate HeadWakeable(s: Sched, q: Semaphore) {
    q.waiters != [] ==>
      q.waiters[0] in s.tasks && Parked(s.tasks[q.waiters[0]].status) && q.waiters[0] !in s.ready
  }

  /** The ASSERTs that the step evaluates outside `schedule`. */
  ghost predicate LocalAsserts(st: State, step: Step)
    requires st.sched.cur in st.prog && Enabled(st, step)
  {
    var me := st.sched.cur;
    var p := st.prog[me];
    match step
    case DiskIrq(c) => st.chans[c].expecting ==>
      st.chans[c].done.value == 0 && HeadWakeable(st.sched, st.chans[c].done)       // sync.c 43, 51
    case Continue =>
      (match p.pc
       case DownTest(s) => SemIn(st, s) && me !in SemOf(st, s).waiters && SemOf(st, s).value <= 1   // sync.c 21, 34
       case Retest(s) => SemIn(st, s) && me !in SemOf(st, s).waiters && SemOf(st, s).value <= 1
       case SetDepth(l) => l in st.locks && st.locks[l].repeat == 0                 // sync.c 71
       case ReleaseTest(l) => l in st.locks && st.locks[l].holder == Some(me) && st.locks[l].repeat >= 1  // 83, 89
       case Up(l) => l in st.locks && st.locks[l].sem.value == 0 && HeadWakeable(st.sched, st.locks[l].sem)
       case _ => true)
    case CallWake(t) => t in st.sched.tasks && Parked(st.sched.tasks[t].status) && t !in st.sched.ready   // thread.c 226, 230
    case _ => true
  }

  /** The ASSERTs that the step evaluates inside `schedule`, if it calls it: thread.c 186, 226,
      230 and 199, and 247 for `thread_yield`. */
  ghost predicate SwitchAsserts(st: State, step: Step)
    requires st.sched.cur in st.prog && Enabled(st, step)
  {
    var s := st.sched;
    match step
    case TimerIrq => s.cur in s.tasks && (s.tasks[s.cur].ticks == 0 ==> ScheduleSafe(s))
    case CallYield => YieldSafe(s)
    case CallWait => BlockSafe(s, Waiting)
    case CallHang => BlockSafe(s, Hanging)
    case Continue =>
      (match st.prog[s.cur].pc
       case DownTest(q) => SemIn(st, q) && (SemOf(st, q).value == 0 ==> BlockSafe(s, Blocked))
       case Retest(q) => SemIn(st, q) && (SemOf(st, q).value == 0 ==> BlockSafe(s, Blocked))
       case IdleBlock => BlockSafe(s, Blocked)
       case _ => true)
    case _ => true
  }

  /** The kernel ASSERTs that the step evaluates. */
  ghost predicate AssertsHold(st: State, step: Step)
    requires st.sched.cur in st.prog && Enabled(st, step)
  {
    LocalAsserts(st, step) && SwitchAsserts(st, step)
  }

  lemma SwitchSafe(st: State, step: Step)
    requires Typed(st) && Enabled(st, step)
    ensures SwitchAsserts(st, step)
  {
    var s, pc := st.sched, st.prog[st.sched.cur].pc;
    match step
    case TimerIrq => ScheduleAsserts(s);
    case CallYield => YieldAsserts(s);
    case CallWait => BlockAsserts(s, Waiting);
    case CallHang => BlockAsserts(s, Hanging);
    case Continue => if pc.DownTest? || pc.Retest? || pc.IdleBlock? { BlockAsserts(s, Blocked); }
    case _ =>
  }

  lemma DownStep(st: State, s: Sem)
    requires Inv(st) && Testing(st, s)
    ensures st.sched.cur != st.sched.idle
    ensures Inv(Down(st, s))
    ensures st.sched.cur !in SemOf(st, s).waiters && SemOf(st, s).value <= 1
  {
    assert QueueOk(st, s);
    if SemOf(st, s).value == 0 {
      DownWaitStep(st, s);
    } else {
      match s
      case LockSem(l) => DownTakeLock(st, l);
      case DiskDone(c) => DownTakeDisk(st, c);
    }
  }

  /** The running thread's next step is safe. */
  ghost predicate SafeAdvance(st: State) {
    Typed(st) && st.prog[st.sched.cur].pc != Work && Inv(Advance(st)) && LocalAsserts(st, Continue)
  }

  lemma AdvanceAcquire(st: State, p: Prog, l: LockId)
    requires Inv(st) && p == st.prog[st.sched.cur]
    requires p.pc == AcquireTest(l) || p.pc == AcquireNest(l) || p.pc == SetHolder(l) || p.pc == SetDepth(l)
    ensures SafeAdvance(st)
  {
    InvTyped(st);
    if p.pc == AcquireTest(l) { AcquireTestStep(st, p, l); } else { RewriteStep(st, p, l); }
  }

  lemma AdvanceRelease(st: State, p: Prog, l: LockId)
    requires Inv(st) && p == st.prog[st.sched.cur]
    requires p.pc == ReleaseTest(l) || p.pc == ReleaseNest(l) || p.pc == ClearHolder(l) || p.pc == ClearDepth(l)
    ensures SafeAdvance(st)
  {
    InvTyped(st);
    if p.pc == ReleaseTest(l) { ReleaseTestStep(st, p, l); } else { RewriteStep(st, p, l); }
  }

  lemma AdvanceUp(st: State, p: Prog, l: LockId)
    requires Inv(st) && p == st.prog[st.sched.cur] && p.pc == Up(l)
    ensures SafeAdvance(st)
  {
    InvTyped(st);
    UpStep(st, p, l);
  }

  lemma AdvanceDown(st: State, p: Prog, s: Sem)
    requires Inv(st) && p == st.prog[st.sched.cur] && (p.pc == DownTest(s) || p.pc == Retest(s))
    ensures SafeAdvance(st)
  {
    InvTyped(st);
    DownStep(st, s);
  }

  lemma AdvanceShape(st: State, p: Prog)
    requires Typed(st) && p == st.prog[st.sched.cur]
    ensures p.pc == IdleBlock ==> Advance(st) == WithPc(st, IdleHalt).(sched := Block(st.sched, Blocked))
    ensures p.pc == IdleHalt ==> Advance(st) == WithPc(st, IdleBlock)
    ensures p.pc.CmdSent? ==> Advance(st) == WithPc(st, DownTest(DiskDone(p.pc.c)))
  {
  }

  lemma AdvanceIdle(st: State, p: Prog)
    requires Inv(st) && p == st.prog[st.sched.cur] && (p.pc == IdleBlock || p.pc == IdleHalt)
    ensures SafeAdvance(st)
  {
    InvTyped(st);
    AdvanceShape(st, p);
    if p.pc == IdleBlock { IdleBlockStep(st); } else { PcStep(st, IdleBlock); }
  }

  lemma AdvanceDisk(st: State, p: Prog, c: ChanId)
    requires Inv(st) && p == st.prog[st.sched.cur] && p.pc == CmdSent(c)
    ensures SafeAdvance(st)
  {
    InvTyped(st);
    AdvanceShape(st, p);
    CmdSentStep(st, c);
  }

  lemma AdvanceStep(st: State)
    requires Inv(st) && st.prog[st.sched.cur].pc != Work
    ensures SafeAdvance(st)
  {
    var p := st.prog[st.sched.cur];
    if p.pc.AcquireTest? || p.pc.AcquireNest? || p.pc.SetHolder? || p.pc.SetDepth? {
      AdvanceAcquire(st, p, p.pc.l);
    } else if p.pc.ReleaseTest? || p.pc.ReleaseNest? || p.pc.ClearHolder? || p.pc.ClearDepth? {
      AdvanceRelease(st, p, p.pc.l);
    } else if p.pc.Up? {
      AdvanceUp(st, p, p.pc.l);
    } else if p.pc.DownTest? || p.pc.Retest? {
      AdvanceDown(st, p, p.pc.s);
    } else if p.pc.CmdSent? {
      AdvanceDisk(st, p, p.pc.c);
    } else {
      AdvanceIdle(st, p);
    }
  }

  /** One step, whichever it is: no ASSERT fails and the invariant is kept. */
  lemma StepSafe(st: State, step: Step)
    requires Inv(st) && Enabled(st, step)
    ensures Typed(st) && AssertsHold(st, step) && Inv(Next(st, step))
  {
    InvTyped(st);
    SwitchSafe(st, step);
    match step
    case TimerIrq => TimerStep(st);
    case DiskIrq(c) => DiskStep(st, c);
    case Continue => AdvanceStep(st);
    case CallAcquire(l) => PcStep(st, AcquireTest(l));
    case CallRelease(l) => PcStep(st, ReleaseTest(l));
    case CallCmdOut(c) => CmdOutStep(st, c);
    case CallYield => YieldStep(st);
    case CallWait => ParkStep(st, Waiting);
    case CallHang => ParkStep(st, Hanging);
    case CallWake(t) => WakeStep(st, t);
    case CallSpawn(t, prio) => SpawnStep(st, t, prio);
    case CallReap(t) => ReapStep(st, t);
  }

  // ----- whole runs -----------------------------------------------------------------------------

  /** After `thread_init` and `ide_init`: every lock free, every channel idle. */
  ghost predicate Initial(st: State) {
    && WellFormed(st.sched)
    && st.prog.Keys == st.sched.tasks.Keys
    && (forall t :: t in st.prog ==> st.prog[t] == Prog(if t == st.sched.idle then IdleBlock else Work, multiset{}))
    && (forall t :: t in st.prog ==> !Parked(st.sched.tasks[t].status))
    && (forall l :: l in st.locks ==> st.locks[l] == Lock(None, 0, Semaphore(1, []), None))
    && (forall c :: c in st.chans ==> c in st.locks && st.chans[c] == Channel(false, Semaphore(0, []), None, 0, 0, 0))
  }

  lemma InitialInv(st: State)
    requires Initial(st)
    ensures Inv(st)
  {
    InitialQueues(st);
    assert LocksOk(st) by {
      forall l | l in st.locks ensures LockOk(st, l) { }
    }
    assert ChansOk(st) by {
      forall c | c in st.chans ensures ChanOk(st, c) { }
    }
  }

  lemma InitialQueues(st: State)
    requires Initial(st)
    ensures QueuesOk(st) && WakesOk(st)
  {
    forall s | SemIn(st, s) ensures QueueOk(st, s) && WakeOk(st, s) {
      assert SemOf(st, s).waiters == [];
    }
  }

  /** `states` is a run: it starts initial and each state follows by an enabled step. */
  ghost predicate Run(states: seq<State>, steps: seq<Step>) {
    && |states| == |steps| + 1 && Initial(states[0])
    && (forall i :: 0 <= i < |steps| ==>
          Typed(states[i]) && Enabled(states[i], steps[i]) && states[i + 1] == Next(states[i], steps[i]))
  }

  lemma {:induction false} RunKeepsInv(states: seq<State>, steps: seq<Step>, i: nat)
    requires Run(states, steps) && i < |states|
    ensures Inv(states[i])
  {
    if i == 0 {
      InitialInv(states[0]);
    } else {
      RunKeepsInv(states, steps, i - 1);
      StepSafe(states[i - 1], steps[i - 1]);
    }
  }

  /** In every run, under every interleaving, no kernel ASSERT of thread.c or sync.c fails. */
  lemma RunAsserts(states: seq<State>, steps: seq<Step>, i: nat)
    requires Run(states, steps) && i < |steps|
    ensures states[i].sched.cur in states[i].prog && Enabled(states[i], steps[i]) && AssertsHold(states[i], steps[i])
  {
    RunKeepsInv(states, steps, i);
    StepSafe(states[i], steps[i]);
  }

  /** Mutual exclusion: at most one thread is between a completed `sema_down` on the
      lock and its `sema_up`; the holder is that thread or nobody, and while it holds
      the lock `holder_repeat_nr` is its nesting depth. */
  lemma MutualExclusion(states: seq<State>, steps: seq<Step>, i: nat, l: LockId, t: Tid, u: Tid)
    requires Run(states, steps) && i < |states| && l in states[i].locks
    requires t in states[i].prog && Inside(states[i].prog[t], l)
    ensures u in states[i].prog && Inside(states[i].prog[u], l) ==> u == t
    ensures states[i].locks[l].holder == None || states[i].locks[l].holder == Some(t)
    ensures states[i].prog[t].held[l] > 0 ==>
              states[i].locks[l].holder == Some(t) && states[i].locks[l].repeat == states[i].prog[t].held[l]
    ensures states[i].locks[l].sem.value == 0
  {
    RunKeepsInv(states, steps, i);
    OwnerOf(states[i], t, l);
  }

  /** No lost wake-up, despite barging: a free semaphore with a non-empty queue has a
      runnable thread that was popped from that queue and has not re-tested it. */
  lemma NoLostWakeup(states: seq<State>, steps: seq<Step>, i: nat, s: Sem)
    requires Run(states, steps) && i < |states| && SemIn(states[i], s)
    requires SemOf(states[i], s).value > 0 && SemOf(states[i], s).waiters != []
    ensures exists t :: Popped(states[i], s, t) && t in states[i].sched.tasks
                        && (states[i].sched.tasks[t].status == Ready || states[i].sched.tasks[t].status == Running)
  {
    RunKeepsInv(states, steps, i);
    PoppedRuns(states[i], s);
  }

  lemma PoppedRuns(st: State, s: Sem)
    requires ThreadsOk(st) && QueuesOk(st) && WakesOk(st) && StatusOk(st) && SemIn(st, s)
    requires SemOf(st, s).value > 0 && SemOf(st, s).waiters != []
    ensures exists t :: Popped(st, s, t) && t in st.sched.tasks
                        && (st.sched.tasks[t].status == Ready || st.sched.tasks[t].status == Running)
  {
    assert WakeOk(st, s) && QueueOk(st, s);
    var t :| Popped(st, s, t);
    assert st.sched.tasks[t].status != Blocked;
  }

  ghost predicate InQueue(st: State, s: Sem, t: Tid) {
    SemIn(st, s) && t in SemOf(st, s).waiters
  }

  /** Scheduler well-formedness in every reachable state: one RUNNING thread; READY
      means on the ready list, once; and a thread sits on at most one queue. */
  lemma OneQueue(states: seq<State>, steps: seq<Step>, i: nat, t: Tid)
    requires Run(states, steps) && i < |states| && t in states[i].sched.tasks
    ensures states[i].sched.tasks[t].status == Running <==> t == states[i].sched.cur
    ensures states[i].sched.tasks[t].status == Ready <==> t in states[i].sched.ready
    ensures NoDup(states[i].sched.ready)
    ensures forall s :: InQueue(states[i], s, t) ==> t !in states[i].sched.ready
    ensures forall s, u :: InQueue(states[i], s, t) && InQueue(states[i], u, t) ==> s == u
  {
    var st := states[i];
    RunKeepsInv(states, steps, i);
    forall s | InQueue(st, s, t)
      ensures t !in st.sched.ready && st.prog[t].pc == Retest(s)
    {
      assert QueueOk(st, s);
    }
  }

  /** Disk handshake: `expecting_intr` + `disk_done` counts the commands issued and not
      yet consumed; it is 1 exactly while one thread is between `cmd_out` and the end of
      its `sema_down`, that thread holds the channel's lock, and commands, interrupts
      that signal and wake-ups match one to one. */
  lemma DiskHandshake(states: seq<State>, steps: seq<Step>, i: nat, c: ChanId)
    requires Run(states, steps) && i < |states| && c in states[i].chans
    ensures var ch := states[i].chans[c]; var flag := if ch.expecting then 1 else 0;
            && flag + ch.done.value == ch.issued - ch.consumed
            && ch.consumed <= ch.signalled <= ch.issued <= ch.consumed + 1
            && (flag + ch.done.value == 1 <==> exists t :: t in states[i].prog && Awaiting(states[i].prog[t], c))
    ensures forall t :: t in states[i].prog && Awaiting(states[i].prog[t], c) ==>
              states[i].prog[t].held[c] > 0 && states[i].chans[c].pending == Some(t)
  {
    var st := states[i];
    RunKeepsInv(states, steps, i);
    assert ChanOk(st, c);
    forall t | t in st.prog && Awaiting(st.prog[t], c) ensures st.prog[t].held[c] > 0 {
      assert HeldOk(st, st.prog[t]);
    }
  }
}
