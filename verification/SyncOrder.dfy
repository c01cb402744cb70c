/** The order of the wait queues: semaphores and locks wake their waiters first come, first
    served, over every run of the machine in `Sync`. */
module SyncOrder {
  import opened Sequences
  import opened Scheduler
  import opened Sync
  import opened SyncProofs

  /** Does the step end in `sema_up` on `s`? */
  predicate Ups(st: State, step: Step, s: Sem)
    requires st.sched.cur in st.prog
  {
    match step
    case DiskIrq(c) => s == DiskDone(c) && c in st.chans && st.chans[c].expecting
    case Continue => st.prog[st.sched.cur].pc.Up? && s == LockSem(st.prog[st.sched.cur].pc.l)
    case _ => false
  }

  /** Does the caller find the semaphore taken, in a pass of the loop of `sema_down`? */
  predicate Waits(st: State, step: Step, s: Sem)
    requires st.sched.cur in st.prog && SemIn(st, s)
  {
    var pc := st.prog[st.sched.cur].pc;
    step == Continue && (pc == DownTest(s) || pc == Retest(s)) && SemOf(st, s).value == 0
  }

  /** The queue of `s` in r is the one in st, plus or minus one thread. */
  ghost predicate QueueMoves(st: State, r: State, s: Sem, ups: bool, waits: bool)
    requires SemIn(st, s) && SemIn(r, s)
  {
    var w := SemOf(st, s).waiters;
    SemOf(r, s).waiters == if ups then (if w == [] then [] else w[1..]) else if waits then w + [st.sched.cur] else w
  }

  lemma DownMoves(st: State, u: Sem, s: Sem)
    requires Typed(st) && SemIn(st, u) && SemIn(st, s) && st.sched.cur != st.sched.idle
    ensures SemIn(Down(st, u), s) && QueueMoves(st, Down(st, u), s, false, u == s && SemOf(st, s).value == 0)
  {
  }

  lemma UpMoves(st: State, l: LockId, s: Sem)
    requires Typed(st) && st.prog[st.sched.cur].pc == Up(l) && SemIn(st, s)
    ensures SemIn(Advance(st), s) && QueueMoves(st, Advance(st), s, s == LockSem(l), false)
    ensures s == LockSem(l) ==> Advance(st).sched == WakeFirst(st.sched, SemOf(st, s))
  {
  }

  lemma DiskMoves(st: State, c: ChanId, s: Sem)
    requires Typed(st) && c in st.chans && SemIn(st, s)
    ensures SemIn(DiskInterrupt(st, c), s)
    ensures QueueMoves(st, DiskInterrupt(st, c), s, s == DiskDone(c) && st.chans[c].expecting, false)
    ensures s == DiskDone(c) && st.chans[c].expecting ==> DiskInterrupt(st, c).sched == WakeFirst(st.sched, SemOf(st, s))
  {
  }

  /** The other places of the code leave every queue alone. */
  lemma AdvanceMoves(st: State, s: Sem)
    requires Typed(st) && SemIn(st, s)
    requires !st.prog[st.sched.cur].pc.DownTest? && !st.prog[st.sched.cur].pc.Retest? && !st.prog[st.sched.cur].pc.Up?
    ensures SemIn(Advance(st), s) && SemOf(Advance(st), s).waiters == SemOf(st, s).waiters
  {
  }

  lemma ContinueMoves(st: State, s: Sem)
    requires Typed(st) && Enabled(st, Continue) && SemIn(st, s)
    ensures var r := Advance(st);
            SemIn(r, s) && QueueMoves(st, r, s, Ups(st, Continue, s), Waits(st, Continue, s))
    ensures Ups(st, Continue, s) ==> Advance(st).sched == WakeFirst(st.sched, SemOf(st, s))
  {
    var pc := st.prog[st.sched.cur].pc;
    if pc.DownTest? || pc.Retest? {
      DownMoves(st, pc.s, s);
    } else if pc.Up? {
      UpMoves(st, pc.l, s);
    } else {
      AdvanceMoves(st, s);
    }
  }

  /** What one step does to the queue of `s`: a signal takes its head and makes it the next
      thread to run; a caller that has to wait joins at the end; nothing else moves. */
  lemma QueueStep(st: State, step: Step, s: Sem)
    requires Typed(st) && Enabled(st, step) && SemIn(st, s)
    ensures SemIn(Next(st, step), s) && QueueMoves(st, Next(st, step), s, Ups(st, step, s), Waits(st, step, s))
    ensures Ups(st, step, s) && SemOf(st, s).waiters != [] ==>
              Next(st, step).sched == Unblock(st.sched, SemOf(st, s).waiters[0])
  {
    match step
    case DiskIrq(c) => DiskMoves(st, c, s);
    case Continue => ContinueMoves(st, s);
    case _ =>
  }

  // ----- a queue over time -----------------------------------------------------------------

  /** The next queue: without its head after a signal, else the same or longer. */
  predicate Follows(w: seq<Tid>, r: seq<Tid>, up: bool) {
    if up then r == (if w == [] then [] else w[1..]) else w <= r
  }

  ghost predicate History(qs: seq<seq<Tid>>, ups: seq<bool>) {
    |qs| == |ups| + 1 && forall i {:trigger ups[i]} :: 0 <= i < |ups| ==> Follows(qs[i], qs[i + 1], ups[i])
  }

  function Count(ups: seq<bool>): (n: nat)
    ensures n <= |ups|
  {
    if ups == [] then 0 else Count(ups[..|ups| - 1]) + if ups[|ups| - 1] then 1 else 0
  }

  /** Position k moves up by one place with every signal. */
  lemma {:induction false} PlaceInQueue(qs: seq<seq<Tid>>, ups: seq<bool>, k: nat)
    requires History(qs, ups) && k < |qs[0]| && Count(ups) <= k
    ensures k - Count(ups) < |qs[|ups|]| && qs[|ups|][k - Count(ups)] == qs[0][k]
  {
    if ups != [] {
      var n := |ups| - 1;
      assert History(qs[..n + 1], ups[..n]) by {
        forall i | 0 <= i < n ensures Follows(qs[i], qs[i + 1], ups[..n][i]) { assert ups[..n][i] == ups[i]; }
      }
      PlaceInQueue(qs[..n + 1], ups[..n], k);
      assert Follows(qs[n], qs[n + 1], ups[n]);
    }
  }

  // ----- runs ------------------------------------------------------------------------------------

  ghost function Queue(st: State, s: Sem): (w: seq<Tid>) { if SemIn(st, s) then SemOf(st, s).waiters else [] }

  ghost predicate Signalled(st: State, step: Step, s: Sem) { st.sched.cur in st.prog && Ups(st, step, s) }

  /** What step j of the run does to the queue of `s`. */
  ghost predicate StepOk(states: seq<State>, steps: seq<Step>, s: Sem, j: nat)
    requires |states| == |steps| + 1 && j < |steps|
  {
    var w, up := Queue(states[j], s), Signalled(states[j], steps[j], s);
    Follows(w, Queue(states[j + 1], s), up) && (up && w != [] ==> Woken(states[j + 1], s, w[0]))
  }

  lemma RunStep(states: seq<State>, steps: seq<Step>, s: Sem, j: nat)
    requires Run(states, steps) && j < |steps|
    ensures StepOk(states, steps, s, j)
  {
    RunKeepsInv(states, steps, j);
    StepMoves(states[j], steps[j], states[j + 1], s);
  }

  /** t heads the ready list and is off the wait queue. */
  ghost predicate Woken(st: State, s: Sem, t: Tid) {
    st.sched.ready != [] && st.sched.ready[0] == t && !InQueue(st, s, t)
  }

  lemma StepMoves(st: State, step: Step, r: State, s: Sem)
    requires Inv(st) && Typed(st) && Enabled(st, step) && r == Next(st, step)
    ensures Follows(Queue(st, s), Queue(r, s), Signalled(st, step, s))
    ensures Signalled(st, step, s) && Queue(st, s) != [] ==> Woken(r, s, Queue(st, s)[0])
  {
    if SemIn(st, s) {
      QueueStep(st, step, s);
      assert QueueOk(st, s);
    } else {
      NoSuchSem(st, step, s);
    }
  }

  lemma NoSuchSem(st: State, step: Step, s: Sem)
    requires Typed(st) && !SemIn(st, s)
    ensures !Signalled(st, step, s)
  {
  }

  ghost function Queues(states: seq<State>, s: Sem, i: nat, j: nat): (qs: seq<seq<Tid>>)
    requires i <= j < |states|
  {
    seq(j - i + 1, n requires 0 <= n < j - i + 1 => Queue(states[i + n], s))
  }

  /** Which of the steps i..j signal `s`. */
  ghost function Signals(states: seq<State>, steps: seq<Step>, s: Sem, i: nat, j: nat): (ups: seq<bool>)
    requires |states| == |steps| + 1 && i <= j <= |steps|
  {
    seq(j - i, n requires 0 <= n < j - i => Signalled(states[i + n], steps[i + n], s))
  }

  lemma StepsHistory(states: seq<State>, steps: seq<Step>, s: Sem, i: nat, j: nat)
    requires |states| == |steps| + 1 && i <= j <= |steps|
    requires forall n {:trigger StepOk(states, steps, s, n)} :: i <= n < j ==> StepOk(states, steps, s, n)
    ensures History(Queues(states, s, i, j), Signals(states, steps, s, i, j))
  {
    var qs, ups := Queues(states, s, i, j), Signals(states, steps, s, i, j);
    forall n | 0 <= n < j - i ensures Follows(qs[n], qs[n + 1], ups[n]) {
      assert StepOk(states, steps, s, i + n);
    }
  }

  /** The thread at position k, given what each step does. */
  lemma Served(states: seq<State>, steps: seq<Step>, s: Sem, i: nat, j: nat, k: nat)
    requires |states| == |steps| + 1 && i <= j < |steps| && k < |Queue(states[i], s)|
    requires forall n {:trigger StepOk(states, steps, s, n)} :: i <= n <= j ==> StepOk(states, steps, s, n)
    requires Count(Signals(states, steps, s, i, j)) <= k
    ensures FirstServed(states, steps, s, i, j, k)
  {
    var ups, more := Signals(states, steps, s, i, j), Signals(states, steps, s, i, j + 1);
    assert more[..|more| - 1] == ups && more[|more| - 1] == Signalled(states[j], steps[j], s);
    StepsHistory(states, steps, s, i, j);
    PlaceInQueue(Queues(states, s, i, j), ups, k);
    assert StepOk(states, steps, s, j);
    if Count(more) <= k {
      assert Queue(states[j + 1], s)[k - Count(more)] == Queue(states[i], s)[k];
    }
  }

  /** The thread at position k in state i is on the queue after step j if no more than k of
      the steps i..j signal, and the next to run if the last of them is the (k+1)-st. */
  ghost predicate FirstServed(states: seq<State>, steps: seq<Step>, s: Sem, i: nat, j: nat, k: nat)
    requires |states| == |steps| + 1 && i <= j < |steps| && k < |Queue(states[i], s)|
  {
    var t := Queue(states[i], s)[k];
    var n := Count(Signals(states, steps, s, i, j + 1));
    && (n == k + 1 ==> Woken(states[j + 1], s, t))
    && (n <= k ==> InQueue(states[j + 1], s, t))
    && n <= k + 1
  }

  /** First come, first served: the thread at position k of a wait queue is woken by the
      (k+1)-st signal, which makes it the next thread to run, and by none before. */
  lemma FirstComeFirstServed(states: seq<State>, steps: seq<Step>, s: Sem, i: nat, j: nat, k: nat)
    requires Run(states, steps) && i <= j < |steps| && k < |Queue(states[i], s)|
    requires Count(Signals(states, steps, s, i, j)) <= k
    ensures FirstServed(states, steps, s, i, j, k)
  {
    forall n | i <= n <= j ensures StepOk(states, steps, s, n) { RunStep(states, steps, s, n); }
    Served(states, steps, s, i, j, k);
  }
}
