/** Process creation, exit and wait: userproc/wait_exit.c, userproc/fork.c and the
    pid pool of thread/thread.c, as a transition system over any number of processes.

    A `Uid` names one incarnation of a PCB, so that pid reuse can be told apart from
    survival.  System calls run with interrupts off and give up the CPU only where
    they block, which splits `sys_exit` into adoption and the final hang, and reaping
    into removing the PCB and giving back its pid. */
module Processes {
  import opened Sequences

  type Uid = nat

  const INIT_PID: int := 1
  const PID_LIMIT: int := 1024

  datatype Mode = Active | Exiting | Waiting | Hanging

  /** `parent` is `parent_pid`, -1 for none.  `parentUid` and `adopted` are history
      variables: the incarnation that is the true parent, and whether init adopted it. */
  datatype Proc = Proc(pid: int, parent: int, mode: Mode, exitStatus: int, parentUid: Uid, adopted: bool)

  datatype Reap = Reap(uid: Uid, pid: int, status: int)

  /** `all` is `thread_all_list`; `used` the set bits of the pid bitmap; `limbo` the pids
      whose PCB is gone but whose bit is not cleared yet.  `exits` and `reaps` record
      what was passed to `sys_exit` and what `sys_wait` returned. */
  datatype Table = Table(procs: map<Uid, Proc>, all: seq<Uid>, used: set<int>, limbo: set<int>,
                         init: Uid, next: Uid, exits: map<Uid, int>, reaps: seq<Reap>)

  /** `child_thread->exit_status = status`: an int32_t stored in an int8_t. */
  function Int8(x: int): (r: int)
    ensures -128 <= r < 128 && (r - x) % 256 == 0
    ensures -128 <= x < 128 ==> r == x
  {
    (x + 128) % 256 - 128
  }

  // ----- list traversals --------------------------------------------------------

  predicate ChildOf(p: Proc, ppid: int) { p.parent == ppid }

  predicate HangingChildOf(p: Proc, ppid: int) { p.parent == ppid && p.mode == Hanging }

  /** The process that `list_traversal` finds with `find_hanging_child`. */
  function FirstHanging(all: seq<Uid>, procs: map<Uid, Proc>, ppid: int): (r: seq<Uid>)
    ensures |r| <= 1
    ensures r != [] ==> r[0] in all && r[0] in procs && HangingChildOf(procs[r[0]], ppid)
    ensures r == [] ==> forall u :: u in all && u in procs ==> !HangingChildOf(procs[u], ppid)
  {
    if all == [] then []
    else if all[0] in procs && HangingChildOf(procs[all[0]], ppid) then [all[0]]
    else FirstHanging(all[1..], procs, ppid)
  }

  /** The k-th process on the list is a hanging child of `ppid`, and none before it is. */
  ghost predicate EarliestAt(all: seq<Uid>, procs: map<Uid, Proc>, ppid: int, k: nat) {
    && k < |all| && all[k] in procs && HangingChildOf(procs[all[k]], ppid)
    && forall j {:trigger all[j]} :: 0 <= j < k && all[j] in procs ==> !HangingChildOf(procs[all[j]], ppid)
  }

  /** The process found is the earliest hanging child on the list. */
  lemma {:induction false} FirstHangingAt(all: seq<Uid>, procs: map<Uid, Proc>, ppid: int, k: nat)
    requires EarliestAt(all, procs, ppid, k)
    ensures FirstHanging(all, procs, ppid) == [all[k]]
  {
    if k > 0 {
      assert !(all[0] in procs && HangingChildOf(procs[all[0]], ppid));
      assert EarliestAt(all[1..], procs, ppid, k - 1);
      FirstHangingAt(all[1..], procs, ppid, k - 1);
    }
  }

  lemma {:induction false} FirstHangingPlace(all: seq<Uid>, procs: map<Uid, Proc>, ppid: int) returns (k: nat)
    requires FirstHanging(all, procs, ppid) != []
    ensures EarliestAt(all, procs, ppid, k) && FirstHanging(all, procs, ppid) == [all[k]]
  {
    k := 0;
    if !(all[0] in procs && HangingChildOf(procs[all[0]], ppid)) {
      k := FirstHangingPlace(all[1..], procs, ppid);
      assert forall j {:trigger all[j]} :: 0 < j < |all| ==> all[j] == all[1..][j - 1];
      k := k + 1;
    }
  }

  /** `init_adapt_a_child` over the whole list. */
  function Adopt(procs: map<Uid, Proc>, ppid: int, init: Uid): (r: map<Uid, Proc>)
    ensures r.Keys == procs.Keys
  {
    map u | u in procs :: if ChildOf(procs[u], ppid)
                          then procs[u].(parent := INIT_PID, parentUid := init, adopted := true) else procs[u]
  }

  // ----- steps ----------------------------------------------------------------------

  datatype Step =
    | SpawnThread(pid: int)             // thread_start: no parent
    | Fork(me: Uid, pid: int)
    | ExitAdopt(me: Uid, status: int)
    | ExitHang(me: Uid)
    | WaitReap(me: Uid)
    | WaitBlock(me: Uid)
    | ReleasePid(pid: int)

  predicate FreePid(t: Table, pid: int) {
    1 <= pid <= PID_LIMIT && pid !in t.used
  }

  predicate Enabled(t: Table, s: Step) {
    match s
    case SpawnThread(pid) => FreePid(t, pid)
    case Fork(me, pid) => me in t.procs && t.procs[me].mode == Active && FreePid(t, pid)
    case ExitAdopt(me, _) => me in t.procs && t.procs[me].mode == Active && t.procs[me].parent != -1
    case ExitHang(me) => me in t.procs && t.procs[me].mode == Exiting
    case WaitReap(me) => me in t.procs && t.procs[me].mode == Active && FirstHanging(t.all, t.procs, t.procs[me].pid) != []
    case WaitBlock(me) =>
      && me in t.procs && t.procs[me].mode == Active && FirstHanging(t.all, t.procs, t.procs[me].pid) == []
      && exists u :: u in t.procs && ChildOf(t.procs[u], t.procs[me].pid)
    case ReleasePid(pid) => pid in t.limbo
  }

  /** The processes that `pid2thread` may return. */
  predicate Named(t: Table, pid: int, u: Uid) {
    u in t.procs && t.procs[u].pid == pid
  }

  /** `thread_unblock` of a parent that sleeps in `sys_wait`. */
  function WakeParent(procs: map<Uid, Proc>, pid: int): (r: map<Uid, Proc>)
    ensures r.Keys == procs.Keys
  {
    map u | u in procs :: if procs[u].pid == pid && procs[u].mode == Waiting
                          then procs[u].(mode := Active) else procs[u]
  }

  function AddProc(t: Table, p: Proc): (r: Table) {
    t.(procs := t.procs[t.next := p], all := t.all + [t.next], used := t.used + {p.pid}, next := t.next + 1)
  }

  function Next(t: Table, s: Step): (r: Table)
    requires Enabled(t, s)
  {
    match s
    case SpawnThread(pid) => AddProc(t, Proc(pid, -1, Active, 0, t.next, false))
    case Fork(me, pid) => AddProc(t, Proc(pid, t.procs[me].pid, Active, t.procs[me].exitStatus, me, false))
    case ExitAdopt(me, status) =>
      var procs := Adopt(t.procs, t.procs[me].pid, t.init);
      t.(procs := procs[me := procs[me].(mode := Exiting, exitStatus := Int8(status))],
         exits := t.exits[me := status])
    case ExitHang(me) =>
      var procs := WakeParent(t.procs, t.procs[me].parent);
      t.(procs := procs[me := procs[me].(mode := Hanging)])
    case WaitReap(me) =>
      var c := FirstHanging(t.all, t.procs, t.procs[me].pid)[0];
      var child := t.procs[c];
      t.(procs := t.procs - {c}, all := Without(t.all, c), limbo := t.limbo + {child.pid},
         reaps := t.reaps + [Reap(c, child.pid, child.exitStatus)])
    case WaitBlock(me) => t.(procs := t.procs[me := t.procs[me].(mode := Waiting)])
    case ReleasePid(pid) => t.(used := t.used - {pid}, limbo := t.limbo - {pid})
  }

  // ----- the invariant -----------------------------------------------------------------

  ghost predicate PidsOk(t: Table) {
    && (forall u :: u in t.procs ==> 1 <= t.procs[u].pid <= PID_LIMIT && t.procs[u].pid in t.used)
    && (forall u, v :: u in t.procs && v in t.procs && t.procs[u].pid == t.procs[v].pid ==> u == v)
    && (forall u :: u in t.procs ==> t.procs[u].pid !in t.limbo)
    && t.limbo <= t.used
    && (forall p :: p in t.used && p !in t.limbo ==> exists u :: Named(t, p, u))
  }

  /** `u` is the true parent of `c`: present, able to wait, and the one whose pid `c` names. */
  predicate ParentIs(t: Table, c: Uid, u: Uid)
    requires c in t.procs
  {
    u in t.procs && t.procs[u].pid == t.procs[c].parent && (t.procs[u].mode == Active || t.procs[u].mode == Waiting)
  }

  ghost predicate ForestOk(t: Table) {
    && t.init in t.procs && t.procs[t.init].pid == INIT_PID && t.procs[t.init].parent == -1
    && (t.procs[t.init].mode == Active || t.procs[t.init].mode == Waiting)
    && (forall c {:trigger ParentIs(t, c, t.procs[c].parentUid)} :: c in t.procs && t.procs[c].parent != -1 ==>
          ParentIs(t, c, t.procs[c].parentUid))
    && (forall c :: c in t.procs && t.procs[c].adopted ==> t.procs[c].parentUid == t.init && t.procs[c].parent != -1)
    && (forall c :: c in t.procs && (t.procs[c].mode == Exiting || t.procs[c].mode == Hanging) ==> t.procs[c].parent != -1)
  }

  /** A sleeping parent with a hanging child can only be init with an adopted child. */
  ghost predicate WaitsOk(t: Table) {
    forall c {:trigger SleepsOver(t, c)} :: c in t.procs && SleepsOver(t, c) ==> t.procs[c].adopted
  }

  /** c hangs while its parent sleeps in `sys_wait`. */
  predicate SleepsOver(t: Table, c: Uid)
    requires c in t.procs
  {
    t.procs[c].mode == Hanging && t.procs[c].parentUid in t.procs && t.procs[t.procs[c].parentUid].mode == Waiting
  }

  ghost predicate HistoryOk(t: Table) {
    && (forall u :: u in t.procs || u in t.exits ==> u < t.next)
    && (forall u :: u in t.procs ==> (u in t.exits <==> t.procs[u].mode == Exiting || t.procs[u].mode == Hanging))
    && (forall u :: u in t.procs && u in t.exits ==> t.procs[u].exitStatus == Int8(t.exits[u]))
    && (forall i :: 0 <= i < |t.reaps| ==>
          t.reaps[i].uid in t.exits && t.reaps[i].uid !in t.procs && t.reaps[i].status == Int8(t.exits[t.reaps[i].uid]))
    && (forall i, j :: 0 <= i < j < |t.reaps| ==> t.reaps[i].uid != t.reaps[j].uid)
  }

  /** Every process is on the list, once. */
  ghost predicate ListOk(t: Table) {
    NoDup(t.all) && forall u :: u in t.all <==> u in t.procs
  }

  ghost predicate Inv(t: Table) {
    PidsOk(t) && ForestOk(t) && WaitsOk(t) && HistoryOk(t) && ListOk(t)
  }

  // ----- preservation ---------------------------------------------------------------------

  /** Pids are untouched by a step that only changes modes and parents. */
  lemma PidsFrame(t: Table, r: Table)
    requires PidsOk(t) && r.procs.Keys == t.procs.Keys && r.used == t.used && r.limbo == t.limbo
    requires forall u :: u in t.procs ==> r.procs[u].pid == t.procs[u].pid
    ensures PidsOk(r)
  {
    forall q | q in r.used && q !in r.limbo ensures exists u :: Named(r, q, u) {
      var u :| Named(t, q, u);
      assert Named(r, q, u);
    }
  }

  lemma AddPids(t: Table, p: Proc)
    requires PidsOk(t) && FreePid(t, p.pid) && t.next !in t.procs
    ensures PidsOk(AddProc(t, p))
  {
    var r := AddProc(t, p);
    forall q | q in r.used && q !in r.limbo ensures exists u :: Named(r, q, u) {
      if q == p.pid {
        assert Named(r, q, t.next);
      } else {
        var u :| Named(t, q, u);
        assert Named(r, q, u);
      }
    }
  }

  lemma AddForest(t: Table, p: Proc)
    requires ForestOk(t) && WaitsOk(t) && t.next !in t.procs && p.mode == Active && !p.adopted
    requires p.parent == -1 || (p.parentUid in t.procs && t.procs[p.parentUid].pid == p.parent && t.procs[p.parentUid].mode == Active)
    ensures ForestOk(AddProc(t, p))
  {
    var r := AddProc(t, p);
    forall c | c in r.procs && r.procs[c].parent != -1 ensures ParentIs(r, c, r.procs[c].parentUid) {
      if c != t.next { assert ParentIs(t, c, t.procs[c].parentUid); }
    }
  }

  lemma AddWaits(t: Table, p: Proc)
    requires ForestOk(t) && WaitsOk(t) && t.next !in t.procs && p.mode == Active
    ensures WaitsOk(AddProc(t, p))
  {
    var r := AddProc(t, p);
    forall c | c in r.procs && SleepsOver(r, c) ensures r.procs[c].adopted {
      assert ParentIs(t, c, t.procs[c].parentUid);
      assert SleepsOver(t, c);
    }
  }

  lemma AddHistory(t: Table, p: Proc)
    requires HistoryOk(t) && p.mode == Active
    ensures HistoryOk(AddProc(t, p)) && t.next !in t.procs
  {
  }

  lemma AddKeeps(t: Table, p: Proc)
    requires Inv(t) && FreePid(t, p.pid) && p.mode == Active && !p.adopted
    requires p.parent == -1 || (p.parentUid in t.procs && t.procs[p.parentUid].pid == p.parent && t.procs[p.parentUid].mode == Active)
    ensures Inv(AddProc(t, p))
  {
    AddHistory(t, p);
    AddPids(t, p);
    AddForest(t, p);
    AddWaits(t, p);
  }

  predicate PidPositive(t: Table, u: Uid) { u in t.procs && t.procs[u].pid >= 1 }

  /** Adoption leaves every parent link pointing at a process that can still wait. */
  lemma AdoptParent(t: Table, me: Uid, status: int, c: Uid)
    requires ForestOk(t) && Enabled(t, ExitAdopt(me, status)) && c in t.procs && t.procs[c].parent != -1 && me != t.init
    ensures var r := Next(t, ExitAdopt(me, status)); r.procs[c].parent != -1 && ParentIs(r, c, r.procs[c].parentUid)
  {
    assert ParentIs(t, c, t.procs[c].parentUid);
  }

  lemma AdoptForest(t: Table, me: Uid, status: int)
    requires PidPositive(t, me) && ForestOk(t) && Enabled(t, ExitAdopt(me, status))
    ensures ForestOk(Next(t, ExitAdopt(me, status)))
  {
    var r := Next(t, ExitAdopt(me, status));
    assert me != t.init;
    forall c | c in r.procs
      ensures r.procs[c].parent != -1 ==> ParentIs(r, c, r.procs[c].parentUid)
      ensures r.procs[c].parent == -1 <==> t.procs[c].parent == -1
    {
      if t.procs[c].parent != -1 { AdoptParent(t, me, status, c); } else { AdoptRoot(t, me, status, c); }
    }
  }

  lemma AdoptRoot(t: Table, me: Uid, status: int, c: Uid)
    requires PidPositive(t, me) && Enabled(t, ExitAdopt(me, status)) && c in t.procs && t.procs[c].parent == -1
    ensures Next(t, ExitAdopt(me, status)).procs[c].parent == -1
  {
  }

  lemma AdoptWaits(t: Table, me: Uid, status: int)
    requires WaitsOk(t) && Enabled(t, ExitAdopt(me, status))
    ensures WaitsOk(Next(t, ExitAdopt(me, status)))
  {
    var r := Next(t, ExitAdopt(me, status));
    forall c | c in r.procs && SleepsOver(r, c) ensures r.procs[c].adopted {
      assert c != me;
      if !ChildOf(t.procs[c], t.procs[me].pid) { assert SleepsOver(t, c); }
    }
  }

  lemma AdoptHistory(t: Table, me: Uid, status: int)
    requires HistoryOk(t) && Enabled(t, ExitAdopt(me, status))
    ensures HistoryOk(Next(t, ExitAdopt(me, status)))
  {
  }

  lemma AdoptKeeps(t: Table, me: Uid, status: int)
    requires Inv(t) && Enabled(t, ExitAdopt(me, status))
    ensures Inv(Next(t, ExitAdopt(me, status)))
  {
    PidsFrame(t, Next(t, ExitAdopt(me, status)));
    AdoptForest(t, me, status);
    AdoptWaits(t, me, status);
    AdoptHistory(t, me, status);
  }

  lemma HangForest(t: Table, me: Uid)
    requires ForestOk(t) && Enabled(t, ExitHang(me))
    ensures ForestOk(Next(t, ExitHang(me)))
  {
    var r := Next(t, ExitHang(me));
    assert me != t.init;
    forall c | c in r.procs && r.procs[c].parent != -1 ensures ParentIs(r, c, r.procs[c].parentUid) {
      assert ParentIs(t, c, t.procs[c].parentUid);
    }
  }

  /** After `sys_exit` wakes a waiting parent, nobody sleeps on the new hanging child. */
  lemma HangWaits(t: Table, me: Uid)
    requires ForestOk(t) && WaitsOk(t) && Enabled(t, ExitHang(me))
    ensures WaitsOk(Next(t, ExitHang(me)))
  {
    var r := Next(t, ExitHang(me));
    assert ParentIs(t, me, t.procs[me].parentUid);
    forall c | c in r.procs && SleepsOver(r, c) ensures r.procs[c].adopted { StillSleeps(t, me, c); }
  }

  lemma StillSleeps(t: Table, me: Uid, c: Uid)
    requires Enabled(t, ExitHang(me)) && ParentIs(t, me, t.procs[me].parentUid)
    requires c in t.procs && c in Next(t, ExitHang(me)).procs && SleepsOver(Next(t, ExitHang(me)), c)
    ensures c != me && SleepsOver(t, c) && Next(t, ExitHang(me)).procs[c].adopted == t.procs[c].adopted
  {
  }

  lemma HangKeeps(t: Table, me: Uid)
    requires Inv(t) && Enabled(t, ExitHang(me))
    ensures Inv(Next(t, ExitHang(me)))
  {
    PidsFrame(t, Next(t, ExitHang(me)));
    HangForest(t, me);
    HangWaits(t, me);
    HangHistory(t, me);
  }

  lemma HangHistory(t: Table, me: Uid)
    requires HistoryOk(t) && Enabled(t, ExitHang(me))
    ensures HistoryOk(Next(t, ExitHang(me)))
  {
  }

  lemma ReapPids(t: Table, me: Uid)
    requires PidsOk(t) && Enabled(t, WaitReap(me))
    ensures PidsOk(Next(t, WaitReap(me)))
  {
    var r := Next(t, WaitReap(me));
    forall q | q in r.used && q !in r.limbo ensures exists u :: Named(r, q, u) {
      var u :| Named(t, q, u);
      assert Named(r, q, u);
    }
  }

  lemma ReapForest(t: Table, me: Uid)
    requires ForestOk(t) && Enabled(t, WaitReap(me))
    ensures ForestOk(Next(t, WaitReap(me)))
  {
    var r := Next(t, WaitReap(me));
    var c := FirstHanging(t.all, t.procs, t.procs[me].pid)[0];
    assert c != t.init;
    forall d | d in r.procs && r.procs[d].parent != -1 ensures ParentIs(r, d, r.procs[d].parentUid) {
      assert ParentIs(t, d, t.procs[d].parentUid);
    }
  }

  lemma ReapHistory(t: Table, me: Uid)
    requires HistoryOk(t) && Enabled(t, WaitReap(me))
    ensures HistoryOk(Next(t, WaitReap(me)))
  {
  }

  lemma ReapWaits(t: Table, me: Uid)
    requires WaitsOk(t) && Enabled(t, WaitReap(me))
    ensures WaitsOk(Next(t, WaitReap(me)))
  {
    var r := Next(t, WaitReap(me));
    forall c | c in r.procs && SleepsOver(r, c) ensures r.procs[c].adopted { assert SleepsOver(t, c); }
  }

  lemma ReapKeeps(t: Table, me: Uid)
    requires Inv(t) && Enabled(t, WaitReap(me))
    ensures Inv(Next(t, WaitReap(me)))
  {
    ReapPids(t, me);
    ReapForest(t, me);
    ReapWaits(t, me);
    ReapHistory(t, me);
    WithoutOk(t.all, FirstHanging(t.all, t.procs, t.procs[me].pid)[0]);
  }

  lemma BlockForest(t: Table, me: Uid)
    requires ForestOk(t) && Enabled(t, WaitBlock(me))
    ensures ForestOk(Next(t, WaitBlock(me)))
  {
    var r := Next(t, WaitBlock(me));
    forall d | d in r.procs && r.procs[d].parent != -1 ensures ParentIs(r, d, r.procs[d].parentUid) {
      assert ParentIs(t, d, t.procs[d].parentUid);
    }
  }

  /** `sys_wait` goes to sleep only when none of the caller's children hangs. */
  lemma BlockWaits(t: Table, me: Uid)
    requires ForestOk(t) && WaitsOk(t) && ListOk(t) && Enabled(t, WaitBlock(me))
    ensures WaitsOk(Next(t, WaitBlock(me)))
  {
    var r := Next(t, WaitBlock(me));
    forall c | c in r.procs && SleepsOver(r, c) ensures r.procs[c].adopted {
      assert c in t.all && !HangingChildOf(t.procs[c], t.procs[me].pid);
      assert ParentIs(t, c, t.procs[c].parentUid);
      assert SleepsOver(t, c);
    }
  }

  lemma BlockKeeps(t: Table, me: Uid)
    requires Inv(t) && Enabled(t, WaitBlock(me))
    ensures Inv(Next(t, WaitBlock(me)))
  {
    PidsFrame(t, Next(t, WaitBlock(me)));
    BlockForest(t, me);
    BlockWaits(t, me);
    BlockHistory(t, me);
  }

  lemma BlockHistory(t: Table, me: Uid)
    requires HistoryOk(t) && Enabled(t, WaitBlock(me))
    ensures HistoryOk(Next(t, WaitBlock(me)))
  {
  }

  lemma ReleasePids(t: Table, pid: int)
    requires PidsOk(t) && Enabled(t, ReleasePid(pid))
    ensures PidsOk(Next(t, ReleasePid(pid)))
  {
    var r := Next(t, ReleasePid(pid));
    forall q | q in r.used && q !in r.limbo ensures exists u :: Named(r, q, u) {
      var u :| Named(t, q, u);
      assert Named(r, q, u);
    }
  }

  lemma ReleaseForest(t: Table, pid: int)
    requires ForestOk(t) && WaitsOk(t) && Enabled(t, ReleasePid(pid))
    ensures ForestOk(Next(t, ReleasePid(pid))) && WaitsOk(Next(t, ReleasePid(pid)))
  {
    var r := Next(t, ReleasePid(pid));
    forall c | c in r.procs && r.procs[c].parent != -1 ensures ParentIs(r, c, r.procs[c].parentUid) {
      assert ParentIs(t, c, t.procs[c].parentUid);
    }
    forall c | c in r.procs && SleepsOver(r, c) ensures r.procs[c].adopted { assert SleepsOver(t, c); }
  }

  lemma ReleaseKeeps(t: Table, pid: int)
    requires Inv(t) && Enabled(t, ReleasePid(pid))
    ensures Inv(Next(t, ReleasePid(pid)))
  {
    ReleasePids(t, pid);
    ReleaseForest(t, pid);
  }

  lemma StepKeeps(t: Table, s: Step)
    requires Inv(t) && Enabled(t, s)
    ensures Inv(Next(t, s))
  {
    match s
    case SpawnThread(pid) => AddKeeps(t, Proc(pid, -1, Active, 0, t.next, false));
    case Fork(me, pid) => AddKeeps(t, Proc(pid, t.procs[me].pid, Active, t.procs[me].exitStatus, me, false));
    case ExitAdopt(me, status) => AdoptKeeps(t, me, status);
    case ExitHang(me) => HangKeeps(t, me);
    case WaitReap(me) => ReapKeeps(t, me);
    case WaitBlock(me) => BlockKeeps(t, me);
    case ReleasePid(pid) => ReleaseKeeps(t, pid);
  }

  /** The processes that a step acts on besides its caller: the children handed to init, and
      the parent that is woken. */
  predicate HandedOver(t: Table, s: Step, u: Uid)
    requires Enabled(t, s) && u in t.procs
  {
    s.ExitAdopt? && ChildOf(t.procs[u], t.procs[s.me].pid)
  }

  predicate Woken(t: Table, s: Step, u: Uid)
    requires Enabled(t, s) && u in t.procs
  {
    s.ExitHang? && t.procs[u].pid == t.procs[s.me].parent && t.procs[u].mode == Waiting
  }

  /** What a step does to a process other than its caller, field by field. */
  lemma StepFrame(t: Table, s: Step, u: Uid)
    requires HistoryOk(t) && Enabled(t, s) && u in t.procs && (s.SpawnThread? || s.ReleasePid? || u != s.me)
    ensures var p := t.procs[u];
            if u !in Next(t, s).procs then s.WaitReap? && HangingChildOf(p, t.procs[s.me].pid)
            else var q := Next(t, s).procs[u];
              && q.pid == p.pid && q.exitStatus == p.exitStatus
              && q.parent == (if HandedOver(t, s, u) then INIT_PID else p.parent)
              && q.mode == (if Woken(t, s, u) then Active else p.mode)
  {
    match s
    case SpawnThread(pid) => assert u != t.next;
    case Fork(me, pid) => assert u != t.next;
    case _ =>
  }

  // ----- whole runs --------------------------------------------------------------------------

  /** The process table right after init was created. */
  function Boot(): (t: Table) {
    Table(map[0 := Proc(INIT_PID, -1, Active, 0, 0, false)], [0], {INIT_PID}, {}, 0, 1, map[], [])
  }

  lemma BootInv()
    ensures Inv(Boot())
  {
    assert Named(Boot(), INIT_PID, 0);
  }

  ghost predicate Run(states: seq<Table>, steps: seq<Step>) {
    && |states| == |steps| + 1 && states[0] == Boot()
    && (forall i :: 0 <= i < |steps| ==> Enabled(states[i], steps[i]) && states[i + 1] == Next(states[i], steps[i]))
  }

  lemma {:induction false} RunKeepsInv(states: seq<Table>, steps: seq<Step>, i: nat)
    requires Run(states, steps) && i < |states|
    ensures Inv(states[i])
  {
    if i == 0 {
      BootInv();
    } else {
      RunKeepsInv(states, steps, i - 1);
      StepKeeps(states[i - 1], steps[i - 1]);
    }
  }

  /** Every parent link names exactly one present process, that process is the true
      parent (or init, after adoption) and it does not hang; a hanging process has no
      children; pids in use are distinct. */
  lemma ForestSafety(states: seq<Table>, steps: seq<Step>, i: nat, c: Uid, u: Uid)
    requires Run(states, steps) && i < |states|
    requires c in states[i].procs && u in states[i].procs && states[i].procs[c].parent != -1
    ensures var t := states[i];
            && (t.procs[u].pid == t.procs[c].parent <==> u == t.procs[c].parentUid)
            && t.procs[c].parentUid in t.procs && t.procs[t.procs[c].parentUid].mode != Hanging
            && (t.procs[u].mode == Hanging ==> t.procs[c].parent != t.procs[u].pid)
            && (t.procs[u].pid == t.procs[c].pid ==> u == c)
  {
    RunKeepsInv(states, steps, i);
    assert ParentIs(states[i], c, states[i].procs[c].parentUid);
  }

  /** A pid that is not in use, or whose PCB has already been reaped, is named by no
      process, neither as its pid nor as its parent: reusing it adopts nobody. */
  lemma FreedPidUnnamed(states: seq<Table>, steps: seq<Step>, i: nat, pid: int, u: Uid)
    requires Run(states, steps) && i < |states| && u in states[i].procs && pid != -1
    requires pid !in states[i].used || pid in states[i].limbo
    ensures states[i].procs[u].pid != pid && states[i].procs[u].parent != pid
  {
    RunKeepsInv(states, steps, i);
    assert states[i].procs[u].parent != -1 ==> ParentIs(states[i], u, states[i].procs[u].parentUid);
  }

  /** Each exit is reaped at most once, and the reaper gets its own status, as 8 bits. */
  lemma ReapedOnce(states: seq<Table>, steps: seq<Step>, i: nat, j: nat, k: nat)
    requires Run(states, steps) && i < |states| && j < |states[i].reaps| && k < |states[i].reaps|
    ensures var t := states[i];
            && t.reaps[j].uid in t.exits && t.reaps[j].status == Int8(t.exits[t.reaps[j].uid])
            && t.reaps[j].uid !in t.procs
            && (t.reaps[j].uid == t.reaps[k].uid ==> j == k)
  {
    RunKeepsInv(states, steps, i);
  }

  /** The list is in the order of creation. */
  ghost predicate Ascending(all: seq<Uid>) {
    forall i, j {:trigger all[i], all[j]} :: 0 <= i < j < |all| ==> all[i] < all[j]
  }

  lemma {:induction false} WithoutAscends(all: seq<Uid>, u: Uid)
    requires Ascending(all)
    ensures Ascending(Without(all, u)) && forall v :: v in Without(all, u) ==> v in all
  {
    if all != [] {
      assert all == [all[0]] + all[1..];
      assert Ascending(all[1..]) by {
        forall i, j | 0 <= i < j < |all| - 1 ensures all[1..][i] < all[1..][j] { assert all[1 + i] < all[1 + j]; }
      }
      WithoutAscends(all[1..], u);
      var rest := Without(all[1..], u);
      forall i | 0 <= i < |rest| ensures all[0] < rest[i] {
        assert rest[i] in all[1..];
        var j :| 0 < j < |all| && all[j] == rest[i];
      }
    }
  }

  lemma NewestLast(t: Table, p: Proc)
    requires HistoryOk(t) && ListOk(t) && Ascending(t.all)
    ensures Ascending(AddProc(t, p).all)
  {
    assert forall i {:trigger t.all[i]} :: 0 <= i < |t.all| ==> t.all[i] in t.procs;
  }

  lemma StepAscends(t: Table, s: Step)
    requires Inv(t) && Enabled(t, s) && Ascending(t.all)
    ensures Ascending(Next(t, s).all)
  {
    match s
    case SpawnThread(pid) => NewestLast(t, Proc(pid, -1, Active, 0, t.next, false));
    case Fork(me, pid) => NewestLast(t, Proc(pid, t.procs[me].pid, Active, t.procs[me].exitStatus, me, false));
    case WaitReap(me) => WithoutAscends(t.all, FirstHanging(t.all, t.procs, t.procs[me].pid)[0]);
    case _ =>
  }

  lemma {:induction false} RunAscends(states: seq<Table>, steps: seq<Step>, i: nat)
    requires Run(states, steps) && i < |states|
    ensures Ascending(states[i].all)
  {
    if i > 0 {
      RunAscends(states, steps, i - 1);
      RunKeepsInv(states, steps, i - 1);
      StepAscends(states[i - 1], steps[i - 1]);
    }
  }

  /** In every run `sys_wait` reaps the hanging child that was created first, and reports
      that child's pid and status. */
  lemma OldestReaped(states: seq<Table>, steps: seq<Step>, i: nat, me: Uid, u: Uid)
    requires Run(states, steps) && i < |steps| && steps[i] == WaitReap(me)
    requires me in states[i].procs && u in states[i].procs && HangingChildOf(states[i].procs[u], states[i].procs[me].pid)
    ensures var t := states[i]; var reaps := states[i + 1].reaps;
            && |reaps| == |t.reaps| + 1 && var r := reaps[|t.reaps|];
            && r.uid in t.procs && r.uid !in states[i + 1].procs && r.uid <= u
            && HangingChildOf(t.procs[r.uid], t.procs[me].pid)
            && r.pid == t.procs[r.uid].pid && r.status == t.procs[r.uid].exitStatus
  {
    var t := states[i];
    RunKeepsInv(states, steps, i);
    RunAscends(states, steps, i);
    var k := FirstHangingPlace(t.all, t.procs, t.procs[me].pid);
    var j :| 0 <= j < |t.all| && t.all[j] == u;
  }

  /** No process other than init sleeps in `sys_wait` while one of its children hangs;
      init does so only over a child that it adopted. */
  lemma NoSleepOnHangingChild(states: seq<Table>, steps: seq<Step>, i: nat, p: Uid, c: Uid)
    requires Run(states, steps) && i < |states| && p in states[i].procs && c in states[i].procs
    requires states[i].procs[p].mode == Waiting && HangingChildOf(states[i].procs[c], states[i].procs[p].pid)
    ensures p == states[i].init && states[i].procs[p].pid == INIT_PID && states[i].procs[c].adopted
  {
    RunKeepsInv(states, steps, i);
    assert ParentIs(states[i], c, states[i].procs[c].parentUid);
    assert SleepsOver(states[i], c);
  }

  /** init forks A, A forks B, B forks C; `init`, `b` and `c` give the rest of the state. */
  function Family(init: Mode, b: Mode, c: Proc, exits: map<Uid, int>): (t: Table) {
    Table(map[0 := Proc(1, -1, init, 0, 0, false), 1 := Proc(2, 1, Active, 0, 0, false),
              2 := Proc(3, 2, b, 0, 1, false), 3 := c], [0, 1, 2, 3], {1, 2, 3, 4}, {}, 0, 4, exits, [])
  }

  lemma FamilyForks(t1: Table, t2: Table)
    requires t1 == Next(Boot(), Fork(0, 2)) && Enabled(t1, Fork(1, 3)) && t2 == Next(t1, Fork(1, 3))
    ensures Enabled(t2, Fork(2, 4))
    ensures Next(t2, Fork(2, 4)) == Family(Active, Active, Proc(4, 3, Active, 0, 2, false), map[])
  {
  }

  lemma FamilyWaits(t: Table)
    requires t == Family(Active, Active, Proc(4, 3, Active, 0, 2, false), map[])
    ensures Enabled(t, WaitBlock(0))
    ensures Next(t, WaitBlock(0)) == Family(Waiting, Active, Proc(4, 3, Active, 0, 2, false), map[])
  {
    FamilyModes(t);
    WaitEnabled(t, 0, 1);
  }

  lemma FamilyModes(t: Table)
    requires t == Family(Active, Active, Proc(4, 3, Active, 0, 2, false), map[])
    ensures 0 in t.procs && t.procs[0] == Proc(1, -1, Active, 0, 0, false) && 1 in t.procs && ChildOf(t.procs[1], 1)
    ensures forall u :: u in t.procs ==> t.procs[u].mode != Hanging
    ensures t.(procs := t.procs[0 := t.procs[0].(mode := Waiting)])
            == Family(Waiting, Active, Proc(4, 3, Active, 0, 2, false), map[])
  {
  }

  lemma WaitEnabled(t: Table, me: Uid, c: Uid)
    requires me in t.procs && t.procs[me].mode == Active && c in t.procs && ChildOf(t.procs[c], t.procs[me].pid)
    requires forall u :: u in t.procs ==> t.procs[u].mode != Hanging
    ensures Enabled(t, WaitBlock(me))
    ensures Next(t, WaitBlock(me)) == t.(procs := t.procs[me := t.procs[me].(mode := Waiting)])
  {
  }

  lemma GrandchildExits(t: Table)
    requires t == Family(Waiting, Active, Proc(4, 3, Active, 0, 2, false), map[])
    ensures Enabled(t, ExitAdopt(3, 7))
    ensures Next(t, ExitAdopt(3, 7)) == Family(Waiting, Active, Proc(4, 3, Exiting, 7, 2, false), map[3 := 7])
    ensures var u := Next(t, ExitAdopt(3, 7));
            Enabled(u, ExitHang(3)) && Next(u, ExitHang(3)) == Family(Waiting, Active, Proc(4, 3, Hanging, 7, 2, false), map[3 := 7])
  {
  }

  lemma ChildExits(t: Table)
    requires t == Family(Waiting, Active, Proc(4, 3, Hanging, 7, 2, false), map[3 := 7])
    ensures Enabled(t, ExitAdopt(2, 0))
    ensures Next(t, ExitAdopt(2, 0)) == Family(Waiting, Exiting, Proc(4, 1, Hanging, 7, 0, true), map[3 := 7, 2 := 0])
  {
  }

  lemma ChildHangs(t: Table)
    requires t == Family(Waiting, Exiting, Proc(4, 1, Hanging, 7, 0, true), map[3 := 7, 2 := 0])
    ensures Enabled(t, ExitHang(2))
    ensures Next(t, ExitHang(2)) == Family(Waiting, Hanging, Proc(4, 1, Hanging, 7, 0, true), map[3 := 7, 2 := 0])
  {
  }

  /** init sleeps in `sys_wait` although its child 3 hangs. */
  predicate InitOversleeps(t: Table) {
    t.init in t.procs && t.procs[t.init].mode == Waiting && 3 in t.procs && HangingChildOf(t.procs[3], INIT_PID)
  }

  ghost predicate Reachable(t: Table) {
    exists states: seq<Table>, steps: seq<Step> :: Run(states, steps) && states[|steps|] == t
  }

  lemma ReachBoot()
    ensures Reachable(Boot())
  {
    assert Run([Boot()], []);
  }

  lemma ReachStep(t: Table, s: Step)
    requires Reachable(t) && Enabled(t, s)
    ensures Reachable(Next(t, s))
  {
    var states, steps :| Run(states, steps) && states[|steps|] == t;
    var states', steps' := states + [Next(t, s)], steps + [s];
    assert Run(states', steps') && states'[|steps'|] == Next(t, s);
  }

  /** The exception is real: init sleeps while the grandchild it adopted hangs, because
      `sys_exit` wakes only the exiting process's own parent. */
  lemma InitSleepsOnAdoptedChild()
    ensures exists t :: Reachable(t) && InitOversleeps(t)
  {
    var t3 := ForkedFamily();
    FamilyWaits(t3);
    ReachStep(t3, WaitBlock(0));
    var t4 := Next(t3, WaitBlock(0));
    GrandchildExits(t4);
    ReachStep(t4, ExitAdopt(3, 7));
    ReachStep(Next(t4, ExitAdopt(3, 7)), ExitHang(3));
    ChildAbandons(Family(Waiting, Active, Proc(4, 3, Hanging, 7, 2, false), map[3 := 7]));
  }

  lemma ChildAbandons(t: Table)
    requires Reachable(t) && t == Family(Waiting, Active, Proc(4, 3, Hanging, 7, 2, false), map[3 := 7])
    ensures exists u :: Reachable(u) && InitOversleeps(u)
  {
    ChildExits(t);
    ReachStep(t, ExitAdopt(2, 0));
    var u := Next(t, ExitAdopt(2, 0));
    ChildHangs(u);
    ReachStep(u, ExitHang(2));
    assert InitOversleeps(Next(u, ExitHang(2)));
  }

  lemma ForkedFamily() returns (t: Table)
    ensures Reachable(t) && t == Family(Active, Active, Proc(4, 3, Active, 0, 2, false), map[])
  {
    ReachBoot();
    ReachStep(Boot(), Fork(0, 2));
    var t1 := Next(Boot(), Fork(0, 2));
    ReachStep(t1, Fork(1, 3));
    FamilyForks(t1, Next(t1, Fork(1, 3)));
    ReachStep(Next(t1, Fork(1, 3)), Fork(2, 4));
    t := Next(Next(t1, Fork(1, 3)), Fork(2, 4));
  }

  // ----- the imperative form -----------------------------------------------------------------

  ghost predicate OnePid(procs: map<Uid, Proc>) {
    forall u, v {:trigger procs[u], procs[v]} :: u in procs && v in procs && procs[u].pid == procs[v].pid ==> u == v
  }

  /** Waking by pid changes the one process of that pid, if it sleeps. */
  lemma WakeOne(procs: map<Uid, Proc>, pid: int, r: seq<Uid>)
    requires OnePid(procs) && |r| <= 1 && (r != [] ==> r[0] in procs && procs[r[0]].pid == pid)
    requires r == [] ==> forall u :: u in procs ==> procs[u].pid != pid
    ensures WakeParent(procs, pid) == if r != [] && procs[r[0]].mode == Waiting then procs[r[0] := procs[r[0]].(mode := Active)] else procs
  {
    var a := WakeParent(procs, pid);
    var b := if r != [] && procs[r[0]].mode == Waiting then procs[r[0] := procs[r[0]].(mode := Active)] else procs;
    forall u | u in procs ensures a[u] == b[u] {}
  }

  /** The process table, updated in place by the list traversals of wait_exit.c. */
  class ProcTable {
    var procs: map<Uid, Proc>
    var all: seq<Uid>
    var init: Uid
    /** Set bits of the pid pool, pids being given back, and the history of the run. */
    var used: set<int>
    var limbo: set<int>
    var next: Uid
    var exits: map<Uid, int>
    var reaps: seq<Reap>

    ghost function Value(): (t: Table)
      reads this
    {
      Table(procs, all, used, limbo, init, next, exits, reaps)
    }

    ghost predicate Listed()
      reads this
    {
      NoDup(all) && forall u :: u in all <==> u in procs
    }

    /** `list_traversal(&thread_all_list, find_hanging_child, ppid)`. */
    method FindHangingChild(ppid: int) returns (r: seq<Uid>)
      requires Listed()
      ensures r == FirstHanging(all, procs, ppid)
      ensures r != [] ==> exists k: nat :: EarliestAt(all, procs, ppid, k) && r == [all[k]]
    {
      var i := 0;
      r := [];
      while i < |all|
        invariant 0 <= i <= |all| && r == []
        invariant forall j {:trigger all[j]} :: 0 <= j < i && all[j] in procs ==> !HangingChildOf(procs[all[j]], ppid)
      {
        assert all[i] in procs;
        if procs[all[i]].parent == ppid && procs[all[i]].mode == Hanging {
          assert EarliestAt(all, procs, ppid, i);
          FirstHangingAt(all, procs, ppid, i);
          return [all[i]];
        }
        i := i + 1;
      }
      if FirstHanging(all, procs, ppid) != [] {
        ghost var k := FirstHangingPlace(all, procs, ppid);
        assert false;
      }
    }

    /** `list_traversal(&thread_all_list, init_adapt_a_child, ppid)`. */
    method AdoptChildren(ppid: int)
      requires Listed()
      modifies this`procs
      ensures procs == Adopt(old(procs), ppid, init) && Listed()
    {
      var i := 0;
      while i < |all|
        invariant 0 <= i <= |all| && procs.Keys == old(procs).Keys
        invariant forall u :: u in procs && u in all[..i] ==> procs[u] == Adopt(old(procs), ppid, init)[u]
        invariant forall u :: u in procs && u !in all[..i] ==> procs[u] == old(procs)[u]
      {
        assert all[..i + 1] == all[..i] + [all[i]];
        assert all[i] in procs;
        var p := procs[all[i]];
        if p.parent == ppid {
          procs := procs[all[i] := p.(parent := INIT_PID, parentUid := init, adopted := true)];
        }
        i := i + 1;
      }
      assert all[..|all|] == all;
    }

    /** `list_traversal(&thread_all_list, find_child, ppid)`. */
    method FindChild(ppid: int) returns (found: bool)
      requires Listed()
      ensures found <==> exists u :: u in procs && ChildOf(procs[u], ppid)
    {
      var i := 0;
      while i < |all|
        invariant 0 <= i <= |all| && forall u :: u in all[..i] && u in procs ==> !ChildOf(procs[u], ppid)
      {
        assert all[..i + 1] == all[..i] + [all[i]];
        assert all[i] in procs;
        if procs[all[i]].parent == ppid { return true; }
        i := i + 1;
      }
      assert all[..|all|] == all;
      found := false;
    }

    /** `pid2thread`. */
    method Pid2Thread(pid: int) returns (r: seq<Uid>)
      requires Listed()
      ensures |r| <= 1 && (r != [] ==> Named(Value(), pid, r[0]))
      ensures r == [] ==> forall u :: u in procs ==> procs[u].pid != pid
    {
      var i := 0;
      r := [];
      while i < |all|
        invariant 0 <= i <= |all| && r == [] && forall u :: u in all[..i] && u in procs ==> procs[u].pid != pid
      {
        assert all[..i + 1] == all[..i] + [all[i]];
        assert all[i] in procs;
        if procs[all[i]].pid == pid { return [all[i]]; }
        i := i + 1;
      }
      assert all[..|all|] == all;
    }

    /** Lines 150-161 of `sys_exit`. */
    method ExitAdopting(me: Uid, status: int)
      requires Listed() && Enabled(Value(), ExitAdopt(me, status))
      modifies this`procs, this`exits
      ensures Listed() && Value() == Next(old(Value()), ExitAdopt(me, status))
    {
      AdoptChildren(procs[me].pid);
      procs := procs[me := procs[me].(mode := Exiting, exitStatus := Int8(status))];
      exits := exits[me := status];
    }

    /** Lines 163-168 of `sys_exit`; pids are distinct, and the parent is there. */
    method ExitHanging(me: Uid)
      requires Listed() && Enabled(Value(), ExitHang(me)) && PidsOk(Value())
      modifies this`procs
      ensures Listed() && Value() == Next(old(Value()), ExitHang(me))
    {
      WakeWaiting(procs[me].parent);
      procs := procs[me := procs[me].(mode := Hanging)];
    }

    /** Lines 164-165: a parent that sleeps in `sys_wait` is woken. */
    method WakeWaiting(pid: int)
      requires Listed() && OnePid(procs)
      modifies this`procs
      ensures Listed() && procs == WakeParent(old(procs), pid)
    {
      var parent := Pid2Thread(pid);
      WakeOne(procs, pid, parent);
      if parent != [] && procs[parent[0]].mode == Waiting {
        procs := procs[parent[0] := procs[parent[0]].(mode := Active)];
      }
    }

    /** Lines 127-136: the child leaves the table. */
    method ReapChild(c: Uid) returns (r: WaitResult)
      requires Listed() && c in procs
      modifies this`procs, this`all, this`limbo, this`reaps
      ensures Listed() && procs == old(procs) - {c} && all == Without(old(all), c) && limbo == old(limbo) + {old(procs)[c].pid}
      ensures r == Reaped(c, old(procs)[c].pid, old(procs)[c].exitStatus) && reaps == old(reaps) + [Reap(r.uid, r.pid, r.status)]
    {
      var p := procs[c];
      r := Reaped(c, p.pid, p.exitStatus);
      WithoutOk(all, c);
      procs, all := procs - {c}, Without(all, c);
      limbo, reaps := limbo + {p.pid}, reaps + [Reap(c, p.pid, p.exitStatus)];
    }

    /** One pass of the loop of `sys_wait`: reap a child, fail, or sleep. */
    method WaitPass(me: Uid) returns (r: WaitResult)
      requires Listed() && me in procs && procs[me].mode == Active
      modifies this`procs, this`all, this`limbo, this`reaps
      ensures Listed()
      ensures r.Reaped? ==> Enabled(old(Value()), WaitReap(me)) && Value() == Next(old(Value()), WaitReap(me))
                            && reaps == old(reaps) + [Reap(r.uid, r.pid, r.status)]
      ensures r.Reaped? ==> EarliestReaped(old(all), old(procs), old(procs[me].pid), r)
      ensures r.Asleep? ==> Enabled(old(Value()), WaitBlock(me)) && Value() == Next(old(Value()), WaitBlock(me))
      ensures r.NoChild? <==> !exists u :: u in old(procs) && ChildOf(old(procs)[u], old(procs)[me].pid)
      ensures r.NoChild? ==> Value() == old(Value())
    {
      var child := FindHangingChild(procs[me].pid);
      if child != [] {
        assert ChildOf(procs[child[0]], procs[me].pid);
        r := ReapChild(child[0]);
        return;
      }
      var any := FindChild(procs[me].pid);
      if !any { return NoChild; }
      procs := procs[me := procs[me].(mode := Waiting)];
      r := Asleep;
    }
  }

  datatype WaitResult = Reaped(uid: Uid, pid: int, status: int) | NoChild | Asleep

  /** The result names the earliest hanging child on the list, with its pid and status. */
  ghost predicate EarliestReaped(all: seq<Uid>, procs: map<Uid, Proc>, ppid: int, r: WaitResult) {
    && r.Reaped? && r.uid in procs && r.pid == procs[r.uid].pid && r.status == procs[r.uid].exitStatus
    && exists k: nat :: EarliestAt(all, procs, ppid, k) && all[k] == r.uid
  }
}
