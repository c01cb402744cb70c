/** The interrupts-off regions of `sema_down`, `sema_up` and `intr_hd_handler` as they run:
    the value, the wait queue and the run queue updated in place, with the ASSERTs on the
    way.  Each is proved to be the step that the transition system of Sync.dfy takes; what
    it requires of the state holds in every reachable state, by `DownStep` and `StepSafe`. */
module SyncClass {
  import opened Lists
  import opened Scheduler
  import opened Sync
  import opened SyncProofs

  lemma UpEffect(st: State, l: LockId)
    requires Typed(st) && st.prog[st.sched.cur].pc == Up(l)
    ensures l in st.locks
    ensures var k, p := st.locks[l], st.prog[st.sched.cur];
            Advance(st) == State(WakeFirst(st.sched, k.sem), st.prog[st.sched.cur := p.(pc := Work)],
                                 st.locks[l := k.(sem := Signal(k.sem), owner := None)], st.chans)
  {
  }

  class Machine {
    const rq: RunQueue
    var prog: map<Tid, Prog>
    var locks: map<LockId, Lock>
    var chans: map<ChanId, Channel>

    ghost function Value(): (st: State)
      reads this, rq, rq.ready
    {
      State(rq.Value(), prog, locks, chans)
    }

    /** After `thread_init` and `ide_init`; `InitialInv` gives the invariant. */
    constructor (queue: RunQueue, progs: map<Tid, Prog>, free: map<LockId, Lock>, idle: map<ChanId, Channel>)
      requires queue.Valid() && Initial(State(queue.Value(), progs, free, idle))
      ensures rq == queue && prog == progs && locks == free && chans == idle && rq.Valid() && Initial(Value())
    {
      rq, prog, locks, chans := queue, progs, free, idle;
    }

    method SetPc(t: Tid, pc: Pc)
      requires t in prog
      modifies this`prog
      ensures prog == old(prog)[t := old(prog)[t].(pc := pc)]
    {
      prog := prog[t := prog[t].(pc := pc)];
    }

    method Park()
      requires rq.Valid() && WellFormed(rq.Value()) && rq.cur != rq.idle
      modifies rq`tasks, rq`cur, rq.ready`order, rq.ready.list, rq.ready.list.head, rq.ready.list.tail, rq.ready.tag.Values
      ensures rq.Valid() && rq.Value() == Block(old(rq.Value()), Blocked)
    {
      rq.ThreadBlock(Blocked);
    }

    method WaitAtLock(me: Tid, l: LockId)
      requires rq.Valid() && me in prog && l in locks
      modifies this`prog, this`locks
      ensures rq.Valid() && rq.Value() == old(rq.Value())
      ensures prog == old(prog)[me := old(prog)[me].(pc := Retest(LockSem(l)))]
      ensures var k := old(locks)[l]; locks == old(locks)[l := k.(sem := k.sem.(waiters := k.sem.waiters + [me]))]
    {
      SetPc(me, Retest(LockSem(l)));
      locks := locks[l := locks[l].(sem := locks[l].sem.(waiters := locks[l].sem.waiters + [me]))];
    }

    method WaitAtDisk(me: Tid, c: ChanId)
      requires rq.Valid() && me in prog && c in chans
      modifies this`prog, this`chans
      ensures rq.Valid() && rq.Value() == old(rq.Value())
      ensures prog == old(prog)[me := old(prog)[me].(pc := Retest(DiskDone(c)))]
      ensures var ch := old(chans)[c]; chans == old(chans)[c := ch.(done := ch.done.(waiters := ch.done.waiters + [me]))]
    {
      SetPc(me, Retest(DiskDone(c)));
      chans := chans[c := chans[c].(done := chans[c].done.(waiters := chans[c].done.waiters + [me]))];
    }

    /** Lines 28-29: the caller waits. */
    method BlockAtLock(l: LockId)
      requires rq.Valid() && WellFormed(rq.Value()) && rq.cur in prog && rq.cur != rq.idle && l in locks && locks[l].sem.value == 0
      modifies this`prog, this`locks, rq`tasks, rq`cur, rq.ready`order, rq.ready.list, rq.ready.list.head, rq.ready.list.tail, rq.ready.tag.Values
      ensures rq.Valid() && Value() == Down(old(Value()), LockSem(l))
    {
      WaitAtLock(rq.cur, l);
      Park();
    }

    /** One pass of the loop of `sema_down` for the semaphore of a lock. */
    method SemaDownLock(l: LockId)
      requires rq.Valid() && WellFormed(rq.Value()) && rq.cur in prog && rq.cur != rq.idle && l in locks
      requires rq.cur !in locks[l].sem.waiters && locks[l].sem.value <= 1
      modifies this`prog, this`locks, rq`tasks, rq`cur, rq.ready`order, rq.ready.list, rq.ready.list.head, rq.ready.list.tail, rq.ready.tag.Values
      ensures rq.Valid() && Value() == Down(old(Value()), LockSem(l))
    {
      var me, k := rq.cur, locks[l];
      if k.sem.value == 0 {
        assert me !in k.sem.waiters;                              // the ASSERT at line 21
        BlockAtLock(l);
      } else {
        assert k.sem.value - 1 == 0;                              // the ASSERT at line 34
        SetPc(me, SetHolder(l));
        locks := locks[l := k.(sem := k.sem.(value := k.sem.value - 1), owner := Some(me))];
      }
    }

    method BlockAtDisk(c: ChanId)
      requires rq.Valid() && WellFormed(rq.Value()) && rq.cur in prog && rq.cur != rq.idle && c in chans && chans[c].done.value == 0
      modifies this`prog, this`chans, rq`tasks, rq`cur, rq.ready`order, rq.ready.list, rq.ready.list.head, rq.ready.list.tail, rq.ready.tag.Values
      ensures rq.Valid() && Value() == Down(old(Value()), DiskDone(c))
    {
      WaitAtDisk(rq.cur, c);
      Park();
    }

    /** One pass of the loop of `sema_down(&channel->disk_done)`. */
    method SemaDownDisk(c: ChanId)
      requires rq.Valid() && WellFormed(rq.Value()) && rq.cur in prog && rq.cur != rq.idle && c in chans
      requires rq.cur !in chans[c].done.waiters && chans[c].done.value <= 1
      modifies this`prog, this`chans, rq`tasks, rq`cur, rq.ready`order, rq.ready.list, rq.ready.list.head, rq.ready.list.tail, rq.ready.tag.Values
      ensures rq.Valid() && Value() == Down(old(Value()), DiskDone(c))
    {
      var me, ch := rq.cur, chans[c];
      if ch.done.value == 0 {
        assert me !in ch.done.waiters;                            // the ASSERT at line 21
        BlockAtDisk(c);
      } else {
        assert ch.done.value - 1 == 0;                            // the ASSERT at line 34
        SetPc(me, Work);
        chans := chans[c := ch.(done := ch.done.(value := ch.done.value - 1), pending := None, consumed := ch.consumed + 1)];
      }
    }

    /** `sema_up` on a semaphore `q`: wake the first waiter, add the unit. */
    method SemaUp(q: Semaphore) returns (r: Semaphore)
      requires rq.Valid() && q.value == 0 && HeadWakeable(rq.Value(), q)        // the ASSERT at line 43
      modifies rq`tasks, rq.ready`order, rq.ready.list, rq.ready.list.head, rq.ready.list.tail, rq.ready.tag.Values
      ensures rq.Valid() && r == Signal(q) && rq.Value() == WakeFirst(old(rq.Value()), q)
      ensures r.value == 1                                        // the ASSERT at line 51
    {
      r := q;
      if r.waiters != [] {
        var thread_blocked := r.waiters[0];
        r := r.(waiters := r.waiters[1..]);
        rq.ThreadUnblock(thread_blocked);
      }
      r := r.(value := r.value + 1);
    }

    method UpLock(l: LockId)
      requires rq.Valid() && rq.cur in prog && l in locks && locks[l].sem.value == 0 && HeadWakeable(rq.Value(), locks[l].sem)
      modifies this`prog, this`locks, rq`tasks, rq.ready`order, rq.ready.list, rq.ready.list.head, rq.ready.list.tail, rq.ready.tag.Values
      ensures rq.Valid() && rq.Value() == WakeFirst(old(rq.Value()), old(locks)[l].sem)
      ensures prog == old(prog)[old(rq.cur) := old(prog)[old(rq.cur)].(pc := Work)]
      ensures var k := old(locks)[l]; locks == old(locks)[l := k.(sem := Signal(k.sem), owner := None)]
    {
      var k := locks[l];
      SetPc(rq.cur, Work);
      var sem := SemaUp(k.sem);
      locks := locks[l := k.(sem := sem, owner := None)];
    }

    /** The `sema_up` at the end of `lock_release`. */
    method LockUp(l: LockId)
      requires rq.Valid() && Typed(Value()) && prog[rq.cur].pc == Up(l)
      requires locks[l].sem.value == 0 && HeadWakeable(rq.Value(), locks[l].sem)
      modifies this`prog, this`locks, rq`tasks, rq.ready`order, rq.ready.list, rq.ready.list.head, rq.ready.list.tail, rq.ready.tag.Values
      ensures rq.Valid() && Value() == Advance(old(Value()))
    {
      UpEffect(Value(), l);
      UpLock(l);
    }

    /** `intr_hd_handler`. */
    method IntrHdHandler(c: ChanId)
      requires rq.Valid() && Typed(Value()) && c in chans
      requires chans[c].expecting ==> chans[c].done.value == 0 && HeadWakeable(rq.Value(), chans[c].done)
      modifies this`chans, rq`tasks, rq.ready`order, rq.ready.list, rq.ready.list.head, rq.ready.list.tail, rq.ready.tag.Values
      ensures rq.Valid() && Value() == DiskInterrupt(old(Value()), c)
    {
      var ch := chans[c];
      if ch.expecting {
        var done := SemaUp(ch.done);
        chans := chans[c := ch.(expecting := false, done := done, signalled := ch.signalled + 1)];
      }
    }
  }
}
