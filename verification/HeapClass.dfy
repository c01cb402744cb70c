/** The heap as kern/memory.c runs it: fields updated in place, loops over blocks. */
module HeapClass {
  import opened Bitmap
  import opened Sequences
  import opened Heap
  import opened HeapProofs

  /** Taking one more block off a list without duplicates. */
  lemma {:induction false} DropStep(list: seq<nat>, x: set<nat>, b: nat)
    requires NoDup(list)
    ensures Without(Drop(list, x), b) == Drop(list, x + {b})
  {
    if list != [] {
      var rest := list[1..];
      assert NoDup(rest) by {
        forall i, j | 0 <= i < j < |rest| ensures rest[i] != rest[j] { assert list[1 + i] != list[1 + j]; }
      }
      DropStep(rest, x, b);
      if list[0] !in x {
        assert ([list[0]] + Drop(rest, x))[1..] == Drop(rest, x);
        if list[0] == b {
          assert b !in rest;
          DropAbsent(rest, x, b);
        }
      }
    }
  }

  lemma {:induction false} DropAbsent(list: seq<nat>, x: set<nat>, b: nat)
    requires b !in list
    ensures Drop(list, x) == Drop(list, x + {b})
  {
    if list != [] { DropAbsent(list[1..], x, b); }
  }

  lemma {:induction false} DropNone(list: seq<nat>)
    ensures Drop(list, {}) == list
  {
    if list != [] { DropNone(list[1..]); }
  }

  /** The first i blocks of an arena. */
  ghost function FirstBlocks(page: nat, d: nat, i: nat): (x: set<nat>) {
    set k | 0 <= k < i :: BlockAddr(page, d, k)
  }

  lemma FirstBlocksAll(page: nat, d: nat)
    ensures FirstBlocks(page, d, BlocksPer(d)) == BlockSet(page, d)
  {
  }

  ghost predicate AllListed(page: nat, d: nat, list: seq<nat>) {
    forall i {:trigger BlockAddr(page, d, i)} :: 0 <= i < BlocksPer(d) ==> BlockAddr(page, d, i) in list
  }

  lemma UnlinkStep(list: seq<nat>, page: nat, d: nat, i: nat)
    requires NoDup(list) && d < DESC_CNT && AllListed(page, d, list) && i < BlocksPer(d)
    ensures BlockAddr(page, d, i) in Drop(list, FirstBlocks(page, d, i))
    ensures Without(Drop(list, FirstBlocks(page, d, i)), BlockAddr(page, d, i)) == Drop(list, FirstBlocks(page, d, i + 1))
  {
    var b := BlockAddr(page, d, i);
    forall k | 0 <= k < i ensures BlockAddr(page, d, k) != b { BlockInjective(page, d, k, i); }
    assert FirstBlocks(page, d, i + 1) == FirstBlocks(page, d, i) + {b};
    DropStep(list, FirstBlocks(page, d, i), b);
  }

  /** Without the first i blocks of the arena the list still has the next one, which can
      then be taken off. */
  ghost predicate Unlinks(list: seq<nat>, page: nat, d: nat, i: nat) {
    && BlockAddr(page, d, i) in After(list, page, d, i)
    && Without(After(list, page, d, i), BlockAddr(page, d, i)) == After(list, page, d, i + 1)
  }

  ghost function After(list: seq<nat>, page: nat, d: nat, i: nat): (r: seq<nat>) {
    Drop(list, FirstBlocks(page, d, i))
  }

  lemma AfterNone(list: seq<nat>, page: nat, d: nat)
    ensures After(list, page, d, 0) == list
  {
    assert FirstBlocks(page, d, 0) == {};
    DropNone(list);
  }

  class Arenas {
    var base: nat
    var poolSize: nat
    /** The page bitmap, `len` bytes, and the byte of memory behind it. */
    var bytes: seq<bv8>
    const len: nat
    var arenas: map<nat, Arena>
    var free: seq<seq<nat>>
    ghost var live: map<nat, nat>

    /** A heap with no arena yet: `block_desc_init` leaves seven empty free lists. */
    constructor (first: nat, size: nat, bitmap: seq<bv8>, n: nat)
      requires n < |bitmap|
      ensures Shaped() && Inv(Value()) && bytes == bitmap && len == n && live == map[] && base == first && poolSize == size
    {
      base, poolSize, bytes, len := first, size, bitmap, n;
      arenas, free, live := map[], [[], [], [], [], [], [], []], map[];
    }

    ghost predicate Shaped()
      reads this
    {
      len < |bytes|
    }

    ghost function Pool(): (v: seq<bool>)
      requires Shaped()
      reads this
    {
      View(bytes, 8 * len)
    }

    /** The bit just behind the bitmap. */
    predicate Behind()
      requires Shaped()
      reads this
    {
      Bit(bytes, 8 * len)
    }

    ghost function Value(): (s: State)
      requires Shaped()
      reads this
    {
      State(base, poolSize, Pool(), arenas, free, live)
    }

    /** `vaddr_get`: scan the page bitmap, then set the bits one by one.  A run that passes
        the end sets the bit behind the bitmap. */
    method VaddrGet(n: nat) returns (got: ScanResult)
      requires Shaped() && n >= 1
      modifies this`bytes
      ensures Shaped() && got == ScanSpec(old(Pool()), old(Behind()), n)
      ensures !(got.Result? && got.found.At?) ==> bytes == old(bytes)
      ensures got.Result? && got.found.At? ==> Pool() == SetRange(old(Pool()), got.found.start, n, true)
      ensures got.Result? && got.found.At? ==> Behind() == (old(Behind()) || got.found.start + n > |Pool()|)
    {
      got, bytes := TakeRun(bytes, len, n);
    }

    /** `vaddr_remove`. */
    method VaddrRemove(page: nat, n: nat)
      requires Shaped() && base <= page && page + n <= base + |Pool()|
      modifies this`bytes
      ensures Shaped() && Pool() == SetRange(old(Pool()), page - base, n, false) && Behind() == old(Behind())
    {
      bytes := PutRange(bytes, len, page - base, n, false);
    }

    /** Lines 426-431: cut a fresh page into blocks and append each to the free list. */
    method SplitArena(page: nat, d: nat)
      requires |free| == DESC_CNT && d < DESC_CNT && free[d] == []
      modifies this`free
      ensures free == old(free)[d := Blocks(page, d)]
    {
      var i := 0;
      while i < BlocksPer(d)
        invariant 0 <= i <= BlocksPer(d) && |free| == DESC_CNT
        invariant free == old(free)[d := Blocks(page, d)[..i]]
      {
        var b := BlockAddr(page, d, i);
        BlocksDistinct(page, d);
        assert b == Blocks(page, d)[i];
        assert b !in free[d];                     // ASSERT at line 429
        assert Blocks(page, d)[..i + 1] == Blocks(page, d)[..i] + [b];
        free := free[d := free[d] + [b]];
        i := i + 1;
      }
      assert Blocks(page, d)[..BlocksPer(d)] == Blocks(page, d);
    }

    /** The page part of `malloc_page`; `frames` tells whether `pmalloc` finds a frame for
        every page. */
    method GetPages(n: nat, frames: bool) returns (g: Grant)
      requires Shaped() && n >= 1
      modifies this`bytes
      ensures Shaped() && g == GrantOf(old(Pool()), old(Behind()), n, frames)
      ensures g.Denied? ==> bytes == old(bytes)
      ensures g.Pages? ==> Pool() == SetRange(old(Pool()), g.start, n, true) && Behind() == old(Behind())
    {
      var got := VaddrGet(n);
      if got.Halt? { return Stopped; }
      if got.found.None? { return Denied; }
      if !frames { return Stopped; }
      if got.found.start + n > 8 * len { return Beyond; }
      g := Pages(got.found.start);
    }

    /** Lines 375-393: whole pages, behind one header. */
    method MallocPages(size: nat, n: nat, frames: bool) returns (o: Outcome)
      requires Shaped() && n >= 1
      modifies this
      ensures Shaped()
      ensures var got := GrantOf(old(Pool()), old(Behind()), n, frames);
              && (got.Pages? ==> Value() == LargeState(old(Value()), size, got.start, n) && o == Ptr((base + got.start) * 4096 + 12))
              && (!got.Pages? ==> o == NoPages(got)) && (got.Denied? ==> Value() == old(Value()))
    {
      var got := GetPages(n, frames);
      if !got.Pages? { return NoPages(got); }
      var page := base + got.start;
      arenas := arenas[page := Large(n)];
      live := live[page * 4096 + 12 := size];
      return Ptr(page * 4096 + 12);
    }

    /** Lines 407-433: a new arena for an empty free list. */
    method Refill(d: nat, frames: bool) returns (got: Grant)
      requires Shaped() && |free| == DESC_CNT && d < DESC_CNT && free[d] == []
      modifies this
      ensures Shaped() && got == GrantOf(old(Pool()), old(Behind()), 1, frames)
      ensures got.Pages? ==> Value() == NewArena(old(Value()), d, got.start)
      ensures got.Denied? ==> Value() == old(Value())
    {
      ghost var s := Value();
      got := GetPages(1, frames);
      if !got.Pages? { return; }
      var page := base + got.start;
      arenas := arenas[page := Small(d, BlocksPer(d))];
      SplitArena(page, d);
      assert s.free[d] + Blocks(page, d) == Blocks(page, d);
    }

    /** Lines 436-442. */
    method PopBlock(d: nat, size: nat) returns (b: nat)
      requires Shaped() && Takeable(Value(), d)
      modifies this
      ensures Shaped() && b == old(free[d][0]) && Value() == TakeBlock(old(Value()), d, size)
    {
      b := free[d][0];
      free := free[d := free[d][1..]];
      var a := arenas[PageOf(b)];
      arenas := arenas[PageOf(b) := a.(cnt := a.cnt - 1)];
      live := live[b := size];
    }

    /** What `malloc_page` does for this request. */
    ghost function Granted(size: nat, frames: bool): (g: Grant)
      requires Shaped() && |free| == DESC_CNT
      reads this
    {
      if PagesNeeded(Value(), size) == 0 then Denied else GrantOf(Pool(), Behind(), PagesNeeded(Value(), size), frames)
    }

    /** `sys_malloc`.  It halts, returns NULL, runs past the pool or returns a new region
        exactly as `MallocReturnsFresh` and `GrantCauses` say. */
    method SysMalloc(size: nat, frames: bool) returns (o: Outcome)
      requires Shaped() && Inv(Value())
      modifies this
      ensures Shaped()
      ensures var got := old(Granted(size, frames));
              && Mallocable(old(Value()), size, got) && o == Malloc(old(Value()), size, got).1
              && (o.Ptr? || o.Null? ==> Value() == Malloc(old(Value()), size, got).0 && Inv(Value()))
    {
      GrantOffered(Value(), Behind(), size, frames);
      MallocKeepsInv(Value(), size, Granted(size, frames));
      o := MallocBody(size, frames);
    }

    method MallocBody(size: nat, frames: bool) returns (o: Outcome)
      requires Shaped() && |free| == DESC_CNT && Mallocable(Value(), size, Granted(size, frames))
      modifies this
      ensures Shaped()
      ensures var got := old(Granted(size, frames));
              && o == Malloc(old(Value()), size, got).1
              && (o.Ptr? || o.Null? ==> Value() == Malloc(old(Value()), size, got).0)
    {
      if !(0 < size < poolSize) { return Null; }
      if size > 1024 {
        var n := PageCount(size);
        if n >= MAX_PAGES { return Panic; }        // ASSERT in malloc_page
        o := MallocPages(size, n, frames);
        return;
      }
      var d := FindDesc(size);
      if free[d] == [] {
        var got := Refill(d, frames);
        if !got.Pages? { return NoPages(got); }
      }
      var b := PopBlock(d, size);
      return Ptr(b);
    }

    /** Lines 401-404. */
    method FindDesc(size: nat) returns (d: nat)
      requires 0 < size <= 1024
      ensures d == SizeClass(size)
    {
      d := 0;
      while d < DESC_CNT && !(size <= BlockSize(d))
        invariant d <= SizeClass(size)
        decreases DESC_CNT - d
      {
        d := d + 1;
      }
    }

    /** Lines 602-607: take every block of the arena off the free list. */
    method UnlinkArena(page: nat, d: nat)
      requires |free| == DESC_CNT && d < DESC_CNT && NoDup(free[d])
      requires AllListed(page, d, free[d])
      modifies this`free
      ensures free == old(free)[d := Drop(old(free[d]), BlockSet(page, d))]
    {
      forall i: nat | i < BlocksPer(d) ensures Unlinks(free[d], page, d, i) { UnlinkStep(free[d], page, d, i); }
      UnlinkFirst(page, d, BlocksPer(d));
      FirstBlocksAll(page, d);
    }

    /** The loop of lines 602-607 over the first n blocks. */
    method UnlinkFirst(page: nat, d: nat, n: nat)
      requires d < |free| && forall i: nat {:trigger Unlinks(free[d], page, d, i)} :: i < n ==> Unlinks(free[d], page, d, i)
      modifies this`free
      ensures free == old(free)[d := After(old(free[d]), page, d, n)]
    {
      ghost var list := free[d];
      AfterNone(list, page, d);
      var i := 0;
      while i < n
        invariant 0 <= i <= n && d < |free| && free == old(free)[d := After(list, page, d, i)]
      {
        var b := BlockAddr(page, d, i);
        assert Unlinks(list, page, d, i);
        assert b in free[d];                      // ASSERT at line 605
        free := free[d := Without(free[d], b)];
        i := i + 1;
      }
    }

    method FreePages(ptr: nat, page: nat, n: nat)
      requires page == PageOf(ptr) && page in arenas && arenas[page] == Large(n) && base <= page
      requires Shaped() && page + n <= base + |Pool()| && Freeable(Value(), ptr)
      modifies this
      ensures Shaped() && Value() == Free(old(Value()), ptr)
    {
      VaddrRemove(page, n);
      arenas := arenas - {page};
      live := live - {ptr};
    }

    method FreeBlock(ptr: nat, page: nat, d: nat, cnt: nat)
      requires page == PageOf(ptr) && page in arenas && arenas[page] == Small(d, cnt) && base <= page
      requires Shaped() && page < base + |Pool()| && Freeable(Value(), ptr) && NoDup(free[d] + [ptr])
      requires cnt + 1 == BlocksPer(d) ==> AllListed(page, d, free[d] + [ptr])
      modifies this
      ensures Shaped() && Value() == Free(old(Value()), ptr)
    {
      free := free[d := free[d] + [ptr]];
      if cnt + 1 == BlocksPer(d) {
        UnlinkArena(page, d);
        VaddrRemove(page, 1);
        arenas := arenas - {page};
      } else {
        arenas := arenas[page := Small(d, cnt + 1)];
      }
      live := live - {ptr};
    }

    method SysFree(ptr: nat)
      requires Shaped() && Inv(Value()) && ptr in live
      modifies this
      ensures Shaped() && Freeable(old(Value()), ptr) && Value() == Free(old(Value()), ptr)
      ensures Inv(Value())
    {
      ghost var s := Value();
      FreeKeepsInv(s, ptr);
      var page := PageOf(ptr);
      match arenas[page] {
        case Large(n) => FreePages(ptr, page, n);
        case Small(d, cnt) =>
          if cnt + 1 == BlocksPer(d) {
            FreesHolds(s, ptr, page, d);
            forall i | 0 <= i < BlocksPer(d) ensures BlockAddr(page, d, i) in free[d] + [ptr] {
              FullArenaListed(s, ptr, page, d, i);
            }
          }
          FreesHolds(s, ptr, page, d);
          StillDistinct(s, ptr, d);
          FreeBlock(ptr, page, d, cnt);
      }
    }
  }

  lemma GrantOffered(s: State, behind: bool, size: nat, frames: bool)
    requires |s.free| == DESC_CNT
    ensures PagesOffered(s, size, Denied)
    ensures PagesNeeded(s, size) > 0 ==> PagesOffered(s, size, GrantOf(s.pool, behind, PagesNeeded(s, size), frames))
  {
    if PagesNeeded(s, size) > 0 { GrantCauses(s.pool, behind, PagesNeeded(s, size), frames); }
  }

  lemma StillDistinct(s: State, ptr: nat, d: nat)
    requires ListsOk(s) && d < DESC_CNT && ptr !in s.free[d]
    ensures NoDup(s.free[d] + [ptr])
  {
    var list := s.free[d] + [ptr];
    forall i, j | 0 <= i < j < |list| ensures list[i] != list[j] {
      assert j < |s.free[d]| ==> list[j] == s.free[d][j];
      assert list[i] == s.free[d][i];
    }
  }

  /** A run past the pool: eight pages of which only the last is free, and a clear bit behind
      their bitmap.  A request for two pages gets the last page and the one behind it. */
  method PastThePool() returns (o: Outcome)
    ensures o.Wild?
  {
    var bitmap: seq<bv8> := [0x7f, 0];
    var heap := new Arenas(0x100, 0x10000, bitmap, 1);
    LastFree(bitmap);
    GrantCauses(heap.Pool(), heap.Behind(), 2, true);
    assert PagesNeeded(heap.Value(), 5000) == 2;
    MallocReturnsFresh(heap.Value(), 5000, heap.Granted(5000, true));
    o := heap.SysMalloc(5000, true);
  }

  lemma LastFree(bitmap: seq<bv8>)
    requires bitmap == [0x7f, 0]
    ensures Overruns(View(bitmap, 8), Bit(bitmap, 8), 2)
  {
    var v := View(bitmap, 8);
    forall i | 0 <= i < 8 ensures v[i] <==> i < 7 {
      ViewAt(bitmap, 8, i);
      SevenBits(i);
    }
    assert !Bit(bitmap, 8);
    forall q | 0 <= q ensures !ClearRun(v, q, 2) { if q + 2 <= 8 { assert v[q]; } }
    assert !v[7];
    assert ClearRun(v, 7, 1);
    ScanOverruns(v, Bit(bitmap, 8), 2);
  }

  lemma SevenBits(k: nat)
    requires k < 8
    ensures (0x7f as bv8) & Mask(k) != 0 <==> k < 7
  {
    if k == 0 {} else if k == 1 {} else if k == 2 {} else if k == 3 {} else if k == 4 {} else if k == 5 {} else if k == 6 {} else {}
  }
}
