/** The order in which `sys_malloc` hands blocks out again: each free list is first in,
    first out, over every run of `sys_malloc` and `sys_free`. */
module HeapOrder {
  import opened Bitmap
  import opened Sequences
  import opened Heap
  import opened HeapProofs

  /** b is ahead of c on the list. */
  ghost predicate Before(list: seq<nat>, b: nat, c: nat) {
    exists i, j {:trigger list[i], list[j]} :: 0 <= i < j < |list| && list[i] == b && list[j] == c
  }

  lemma BeforeTail(list: seq<nat>, b: nat, c: nat)
    requires NoDup(list) && Before(list, b, c) && b in list[1..]
    ensures Before(list[1..], b, c)
  {
    var i, j :| 0 <= i < j < |list| && list[i] == b && list[j] == c;
    var k :| 0 <= k < |list| - 1 && list[1..][k] == b;
    assert list[k + 1] == list[i];
    assert list[1..][i - 1] == b && list[1..][j - 1] == c;
  }

  lemma BeforeAppend(list: seq<nat>, x: nat, b: nat, c: nat)
    requires Before(list, b, c) || (b in list && c == x)
    ensures Before(list + [x], b, c)
  {
    if Before(list, b, c) {
      var i, j :| 0 <= i < j < |list| && list[i] == b && list[j] == c;
      assert (list + [x])[i] == b && (list + [x])[j] == c;
    } else {
      var i :| 0 <= i < |list| && list[i] == b;
      assert (list + [x])[i] == b && (list + [x])[|list|] == x;
    }
  }

  lemma {:induction false} BeforeDrop(list: seq<nat>, x: set<nat>, b: nat, c: nat)
    requires Before(list, b, c) && b !in x && c !in x
    ensures Before(Drop(list, x), b, c)
  {
    var i, j :| 0 <= i < j < |list| && list[i] == b && list[j] == c;
    var rest := Drop(list[1..], x);
    if i > 0 {
      assert list[1..][i - 1] == b && list[1..][j - 1] == c;
      BeforeDrop(list[1..], x, b, c);
      var m, n :| 0 <= m < n < |rest| && rest[m] == b && rest[n] == c;
      assert list[0] !in x ==> Drop(list, x)[m + 1] == b && Drop(list, x)[n + 1] == c;
    } else {
      assert list[1..][j - 1] == c && c in rest;
      var n :| 0 <= n < |rest| && rest[n] == c;
      assert Drop(list, x)[0] == b && Drop(list, x)[n + 1] == c;
    }
  }

  /** What `sys_malloc` does to the free list of class d. */
  lemma MallocLists(s: State, size: nat, got: Grant, d: nat)
    requires Mallocable(s, size, got) && d < DESC_CNT && s.free[d] != []
    ensures var (r, o) := Malloc(s, size, got);
            && |r.free| == DESC_CNT
            && r.free[d] == (if o.Ptr? && size <= 1024 && SizeClass(size) == d then s.free[d][1..] else s.free[d])
            && (o.Ptr? && size <= 1024 && SizeClass(size) == d ==> o.addr == s.free[d][0])
  {
  }

  lemma FreeLists(s: State, ptr: nat, d: nat)
    requires Freeable(s, ptr) && d < DESC_CNT
    ensures var r := Free(s, ptr); var a := s.arenas[PageOf(ptr)];
            && |r.free| == DESC_CNT
            && (if a.Small? && a.desc == d
                then r.free[d] == s.free[d] + [ptr] || r.free[d] == Drop(s.free[d] + [ptr], BlockSet(PageOf(ptr), d))
                else r.free[d] == s.free[d])
  {
  }

  /** A block that is freed goes behind every block of its class that stays free. */
  lemma FreedLast(s: State, ptr: nat, d: nat, b: nat)
    requires Inv(s) && ptr in s.live && Freeable(s, ptr) && d < DESC_CNT && |Free(s, ptr).free| == DESC_CNT
    requires ptr in Free(s, ptr).free[d] && b in Free(s, ptr).free[d] && b != ptr
    ensures Before(Free(s, ptr).free[d], b, ptr)
  {
    FreeLists(s, ptr, d);
    assert ptr !in s.free[d];
    BeforeAppend(s.free[d], ptr, b, ptr);
    var list := Free(s, ptr).free[d];
    if list != s.free[d] + [ptr] {
      assert list == Drop(s.free[d] + [ptr], BlockSet(PageOf(ptr), d));
      BeforeDrop(s.free[d] + [ptr], BlockSet(PageOf(ptr), d), b, ptr);
    }
  }

  /** Two blocks that stay free keep their order, whatever is called. */
  lemma OrderKept(s: State, op: Op, r: State, d: nat, b: nat, c: nat)
    requires Inv(s) && OpOk(s, op) && r == Step(s, op) && d < DESC_CNT && |r.free| == DESC_CNT
    requires Before(s.free[d], b, c) && b in r.free[d] && c in r.free[d]
    ensures Before(r.free[d], b, c)
  {
    match op
    case DoMalloc(size, got) =>
      MallocLists(s, size, got, d);
      if r.free[d] != s.free[d] { BeforeTail(s.free[d], b, c); }
    case DoFree(ptr) =>
      FreeLists(s, ptr, d);
      if r.free[d] != s.free[d] {
        BeforeAppend(s.free[d], ptr, b, c);
        if r.free[d] != s.free[d] + [ptr] { BeforeDrop(s.free[d] + [ptr], BlockSet(PageOf(ptr), d), b, c); }
      }
    case OtherPage(_, _) =>
  }

  /** The call hands out a block of class d. */
  ghost predicate Hands(s: State, op: Op, d: nat, b: nat) {
    OpOk(s, op) && op.DoMalloc? && 0 < op.size <= 1024 && SizeClass(op.size) == d && Malloc(s, op.size, op.got).1 == Ptr(b)
  }

  /** A block is not handed out while another is ahead of it. */
  lemma OldestFirst(s: State, op: Op, d: nat, b: nat, c: nat)
    requires Inv(s) && d < DESC_CNT && Before(s.free[d], b, c)
    ensures !Hands(s, op, d, c)
  {
    var i, j :| 0 <= i < j < |s.free[d]| && s.free[d][i] == b && s.free[d][j] == c;
    assert s.free[d][0] != c;
    if Hands(s, op, d, c) { MallocLists(s, op.size, op.got, d); }
  }

  /** b and c are on the free list of class d. */
  ghost predicate BothFree(s: State, d: nat, b: nat, c: nat) {
    |s.free| == DESC_CNT && d < DESC_CNT && b in s.free[d] && c in s.free[d]
  }

  lemma OrderStep(states: seq<State>, ops: seq<Op>, j: nat, d: nat, b: nat, c: nat)
    requires Run(states, ops) && j < |ops| && BothFree(states[j], d, b, c) && BothFree(states[j + 1], d, b, c)
    requires Before(states[j].free[d], b, c)
    ensures Before(states[j + 1].free[d], b, c)
  {
    RunKeepsInv(states, ops, j);
    OrderKept(states[j], ops[j], states[j + 1], d, b, c);
  }

  lemma {:induction false} StaysAhead(states: seq<State>, ops: seq<Op>, i: nat, j: nat, d: nat, b: nat, c: nat)
    requires Run(states, ops) && i <= j < |states|
    requires forall n {:trigger BothFree(states[n], d, b, c)} :: i <= n <= j ==> BothFree(states[n], d, b, c)
    requires BothFree(states[i], d, b, c) && Before(states[i].free[d], b, c)
    ensures BothFree(states[j], d, b, c) && Before(states[j].free[d], b, c)
  {
    if i < j {
      assert BothFree(states[j], d, b, c);
      StaysAhead(states, ops, i, j - 1, d, b, c);
      OrderStep(states, ops, j - 1, d, b, c);
    }
  }

  /** In every run, of two blocks that are free from state i to state j, the one that is ahead
      stays ahead, and the other is not the next to be handed out. */
  lemma ReusedInOrder(states: seq<State>, ops: seq<Op>, i: nat, j: nat, d: nat, b: nat, c: nat)
    requires Run(states, ops) && i <= j < |ops|
    requires forall n {:trigger BothFree(states[n], d, b, c)} :: i <= n <= j ==> BothFree(states[n], d, b, c)
    requires BothFree(states[i], d, b, c) && Before(states[i].free[d], b, c)
    ensures BothFree(states[j], d, b, c) && Before(states[j].free[d], b, c)
    ensures !Hands(states[j], ops[j], d, c)
  {
    StaysAhead(states, ops, i, j, d, b, c);
    RunKeepsInv(states, ops, j);
    OldestFirst(states[j], ops[j], d, b, c);
  }
}
