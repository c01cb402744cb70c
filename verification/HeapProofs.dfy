/** `sys_malloc` and `sys_free` keep the heap invariant in every run; live regions are
    disjoint from each other, from arena headers and from free blocks. */
module HeapProofs {
  import opened Bitmap
  import opened Sequences
  import opened Heap

  // ----- pages that were free carry no arena ---------------------------------------------

  /** A run of clear pool bits does not meet any arena. */
  lemma FreshPages(s: State, i: nat, n: nat, p: nat)
    requires PagesOk(s) && ClearRun(s.pool, i, n) && n >= 1 && p in s.arenas
    ensures p + PagesOf(s.arenas[p]) <= s.base + i || s.base + i + n <= p
  {
    var k := if p - s.base >= i then p - s.base else i;
    assert i <= k < i + n ==> !s.pool[k];
    assert p - s.base <= k < p - s.base + PagesOf(s.arenas[p]) ==> k < |s.pool| && s.pool[k];
  }

  lemma AddPages(s: State, r: State, i: nat, a: Arena)
    requires PagesOk(s) && PagesOf(a) >= 1 && ClearRun(s.pool, i, PagesOf(a))
    requires r.base == s.base && r.pool == SetRange(s.pool, i, PagesOf(a), true) && r.arenas == s.arenas[s.base + i := a]
    ensures s.base + i !in s.arenas && PagesOk(r)
  {
    var page := s.base + i;
    forall p | p in s.arenas ensures p != page && (p + PagesOf(s.arenas[p]) <= page || page + PagesOf(a) <= p) {
      FreshPages(s, i, PagesOf(a), p);
    }
  }

  // ----- large requests ---------------------------------------------------------------------

  lemma LargeLists(s: State, r: State, page: nat, n: nat, ptr: nat, size: nat)
    requires ListsOk(s) && page !in s.arenas && PageOf(ptr) == page
    requires r.free == s.free && r.arenas == s.arenas[page := Large(n)] && r.live == s.live[ptr := size]
    ensures ListsOk(r)
  {
    forall d, b | 0 <= d < DESC_CNT && b in r.free[d]
      ensures SmallAt(r, PageOf(b), d) && IsBlock(b, d) && b !in r.live
    {
      assert SmallAt(s, PageOf(b), d) && IsBlock(b, d) && b !in s.live;
    }
  }

  lemma LargeLives(s: State, r: State, page: nat, n: nat, ptr: nat, size: nat)
    requires LivesOk(s) && page !in s.arenas && ptr == page * 4096 + 12 && size + 12 <= n * 4096
    requires r.arenas == s.arenas[page := Large(n)] && r.live == s.live[ptr := size]
    ensures LivesOk(r)
  {
    forall q | q in r.live ensures LiveOk(r, q) {
      if q != ptr { assert LiveOk(s, q); }
    }
  }

  lemma LargeArenas(s: State, r: State, page: nat, n: nat, ptr: nat, size: nat)
    requires |s.free| == DESC_CNT && ArenasOk(s) && n >= 1 && ptr == page * 4096 + 12
    requires r.free == s.free && r.arenas == s.arenas[page := Large(n)] && r.live == s.live[ptr := size]
    ensures ArenasOk(r)
  {
    forall p | p in r.arenas ensures ArenaOk(r, p) {
      if p != page {
        assert ArenaOk(s, p);
        if s.arenas[p].Small? { assert FreeSet(r, p, s.arenas[p].desc) == FreeSet(s, p, s.arenas[p].desc); }
      }
    }
  }

  function LargeState(s: State, size: nat, start: nat, n: nat): (r: State) {
    s.(pool := SetRange(s.pool, start, n, true), arenas := s.arenas[s.base + start := Large(n)],
       live := s.live[(s.base + start) * 4096 + 12 := size])
  }

  lemma LargeShape(s: State, size: nat, got: Grant)
    requires Mallocable(s, size, got) && 1024 < size < s.poolSize && PageCount(size) < MAX_PAGES && got.Pages?
    ensures Malloc(s, size, got) == (LargeState(s, size, got.start, PageCount(size)), Ptr((s.base + got.start) * 4096 + 12))
  {
  }

  lemma LargeKeeps(s: State, size: nat, start: nat, n: nat)
    requires Inv(s) && n >= 1 && ClearRun(s.pool, start, n) && size + 12 <= n * 4096
    ensures Inv(LargeState(s, size, start, n))
  {
    var r := LargeState(s, size, start, n);
    var page := s.base + start;
    LargePtrPage(page);
    NoArenaThere(s, start, n);
    LargeLists(s, r, page, n, page * 4096 + 12, size);
    LargeLives(s, r, page, n, page * 4096 + 12, size);
    LargeArenas(s, r, page, n, page * 4096 + 12, size);
    AddPages(s, r, start, Large(n));
  }

  lemma NoArenaThere(s: State, i: nat, n: nat)
    requires PagesOk(s) && ClearRun(s.pool, i, n) && n >= 1
    ensures s.base + i !in s.arenas
  {
    if s.base + i in s.arenas { FreshPages(s, i, n, s.base + i); }
  }

  lemma MallocLarge(s: State, size: nat, got: Grant)
    requires Inv(s) && 1024 < size < s.poolSize && got.Pages? && PagesOffered(s, size, got) && PageCount(size) < MAX_PAGES
    ensures Mallocable(s, size, got)
    ensures Inv(Malloc(s, size, got).0)
  {
    InvMallocable(s, size, got);
    LargeShape(s, size, got);
    LargeKeeps(s, size, got.start, PageCount(size));
  }

  // ----- a new arena ----------------------------------------------------------------------------

  lemma BlocksDistinct(page: nat, d: nat)
    requires d < DESC_CNT
    ensures NoDup(Blocks(page, d))
  {
    forall i, j | 0 <= i < j < BlocksPer(d) ensures Blocks(page, d)[i] != Blocks(page, d)[j] {
      BlockInjective(page, d, i, j);
    }
  }

  lemma BlockSetSize(page: nat, d: nat, n: nat)
    requires d < DESC_CNT && n <= BlocksPer(d)
    ensures |set i | 0 <= i < n :: BlockAddr(page, d, i)| == n
  {
    var s := set i | 0 <= i < n :: BlockAddr(page, d, i);
    if n == 0 {
      assert s == {};
    } else {
      BlockSetSize(page, d, n - 1);
      var t := set i | 0 <= i < n - 1 :: BlockAddr(page, d, i);
      assert BlockAddr(page, d, n - 1) !in t by {
        forall i | 0 <= i < n - 1 ensures BlockAddr(page, d, i) != BlockAddr(page, d, n - 1) {
          BlockInjective(page, d, i, n - 1);
        }
      }
      assert s == t + {BlockAddr(page, d, n - 1)};
    }
  }

  lemma ArenaLists(s: State, r: State, page: nat, d: nat)
    requires ListsOk(s) && page !in s.arenas && d < DESC_CNT && s.free[d] == []
    requires forall ptr :: ptr in s.live ==> PageOf(ptr) != page
    requires r.live == s.live && r.arenas == s.arenas[page := Small(d, BlocksPer(d))] && r.free == s.free[d := Blocks(page, d)]
    ensures ListsOk(r)
  {
    BlocksDistinct(page, d);
    forall e, b | 0 <= e < DESC_CNT && b in r.free[e]
      ensures SmallAt(r, PageOf(b), e) && IsBlock(b, e) && b !in r.live
    {
      if e == d {
        var i :| 0 <= i < BlocksPer(d) && b == BlockAddr(page, d, i);
        BlockPage(page, d, i);
      } else {
        assert SmallAt(s, PageOf(b), e) && IsBlock(b, e);
      }
    }
  }

  lemma ArenaArenas(s: State, r: State, page: nat, d: nat)
    requires ListsOk(s) && ArenasOk(s) && page !in s.arenas && d < DESC_CNT && s.free[d] == []
    requires r.live == s.live && r.arenas == s.arenas[page := Small(d, BlocksPer(d))] && r.free == s.free[d := Blocks(page, d)]
    ensures ArenasOk(r)
  {
    forall i | 0 <= i < BlocksPer(d) ensures PageOf(BlockAddr(page, d, i)) == page { BlockPage(page, d, i); }
    forall p | p in r.arenas ensures ArenaOk(r, p) {
      if p == page {
        BlockSetSize(page, d, BlocksPer(d));
        assert FreeSet(r, page, d) == set i | 0 <= i < BlocksPer(d) :: BlockAddr(page, d, i);
        assert forall i :: 0 <= i < BlocksPer(d) ==> BlockAddr(page, d, i) == Blocks(page, d)[i];
      } else {
        assert ArenaOk(s, p);
        if s.arenas[p].Small? { assert FreeSet(r, p, s.arenas[p].desc) == FreeSet(s, p, s.arenas[p].desc); }
      }
    }
  }

  lemma NewArenaCore(s: State, d: nat, i: nat)
    requires Inv(s) && d < DESC_CNT && s.free[d] == [] && ClearRun(s.pool, i, 1)
    ensures Core(NewArena(s, d, i)) && SomeLive(NewArena(s, d, i), {s.base + i}) && s.base + i !in s.arenas
  {
    var r := NewArena(s, d, i);
    var page := s.base + i;
    AddPages(s, r, i, Small(d, BlocksPer(d)));
    assert r.free == s.free[d := Blocks(page, d)] by { assert s.free[d] + Blocks(page, d) == Blocks(page, d); }
    forall ptr | ptr in s.live ensures PageOf(ptr) != page && LiveOk(r, ptr) { assert LiveOk(s, ptr); }
    ArenaLists(s, r, page, d);
    ArenaArenas(s, r, page, d);
  }

  // ----- handing out a block -----------------------------------------------------------------------

  /** The head of the free list, its page and its arena. */
  ghost predicate HeadOf(s: State, d: nat, b: nat) {
    Core(s) && d < DESC_CNT && s.free[d] != [] && b == s.free[d][0]
  }

  lemma HeadFacts(s: State, d: nat, b: nat)
    requires HeadOf(s, d, b)
    ensures SmallAt(s, PageOf(b), d) && IsBlock(b, d) && b !in s.live && b !in s.free[d][1..]
    ensures s.arenas[PageOf(b)].cnt == |FreeSet(s, PageOf(b), d)| > 0
  {
    assert b in s.free[d];
    assert ArenaOk(s, PageOf(b));
    assert b in FreeSet(s, PageOf(b), d);
  }

  lemma TakeLists(s: State, r: State, d: nat, b: nat, size: nat)
    requires ListsOk(s) && d < DESC_CNT && s.free[d] != [] && b == s.free[d][0] && SmallAt(s, PageOf(b), d)
    requires r.free == s.free[d := s.free[d][1..]] && r.live == s.live[b := size]
    requires PageOf(b) in r.arenas && r.arenas == s.arenas[PageOf(b) := r.arenas[PageOf(b)]]
    requires SmallAt(r, PageOf(b), d)
    ensures ListsOk(r)
  {
    forall e, c | 0 <= e < DESC_CNT && c in r.free[e]
      ensures SmallAt(r, PageOf(c), e) && IsBlock(c, e) && c !in r.live
    {
      assert c in s.free[e];
      assert SmallAt(s, PageOf(c), e) && IsBlock(c, e) && c !in s.live;
    }
  }

  lemma TakeLives(s: State, r: State, d: nat, b: nat, size: nat)
    requires LivesOk(s) && d < DESC_CNT && SmallAt(s, PageOf(b), d) && IsBlock(b, d) && size <= BlockSize(d)
    requires r.live == s.live[b := size]
    requires PageOf(b) in r.arenas && r.arenas == s.arenas[PageOf(b) := r.arenas[PageOf(b)]] && SmallAt(r, PageOf(b), d)
    ensures LivesOk(r)
  {
    forall q | q in r.live ensures LiveOk(r, q) {
      if q != b { assert LiveOk(s, q); }
    }
  }

  lemma TakeArenas(s: State, r: State, d: nat, b: nat, size: nat)
    requires ListsOk(s) && ArenasOk(s) && d < DESC_CNT && s.free[d] != [] && b == s.free[d][0] && SmallAt(s, PageOf(b), d)
    requires r.free == s.free[d := s.free[d][1..]] && r.live == s.live[b := size]
    requires PageOf(b) in r.arenas && r.arenas == s.arenas[PageOf(b) := r.arenas[PageOf(b)]]
    requires s.arenas[PageOf(b)].cnt > 0 && r.arenas[PageOf(b)] == Small(d, s.arenas[PageOf(b)].cnt - 1)
    ensures ArenasOk(r)
  {
    forall p | p in r.arenas ensures ArenaOk(r, p) {
      assert ArenaOk(s, p);
      if s.arenas[p].Small? {
        var e := s.arenas[p].desc;
        assert forall c :: c in s.free[d] <==> c == b || c in s.free[d][1..];
        if p == PageOf(b) {
          assert FreeSet(r, p, d) == FreeSet(s, p, d) - {b};
          assert b in FreeSet(s, p, d);
        } else {
          assert FreeSet(r, p, e) == FreeSet(s, p, e);
        }
      }
    }
  }

  lemma TakeKeeps(s: State, d: nat, size: nat)
    requires Core(s) && d < DESC_CNT && s.free[d] != [] && SomeLive(s, {PageOf(s.free[d][0])}) && size <= BlockSize(d)
    requires SmallAt(s, PageOf(s.free[d][0]), d) && s.arenas[PageOf(s.free[d][0])].cnt > 0
    requires s.arenas[PageOf(s.free[d][0])].cnt <= BlocksPer(d)
    ensures Takeable(s, d) && Inv(TakeBlock(s, d, size))
  {
    var b := s.free[d][0];
    var r := TakeBlock(s, d, size);
    HeadFacts(s, d, b);
    TakeLists(s, r, d, b, size);
    TakeLives(s, r, d, b, size);
    TakeArenas(s, r, d, b, size);
  }

  lemma MallocFromList(s: State, size: nat, got: Grant)
    requires Inv(s) && 0 < size <= 1024 && size < s.poolSize && PagesOffered(s, size, got)
    requires s.free[SizeClass(size)] != []
    ensures Mallocable(s, size, got)
    ensures Malloc(s, size, got).1 == Ptr(s.free[SizeClass(size)][0]) && s.free[SizeClass(size)][0] !in s.live
    ensures Inv(Malloc(s, size, got).0)
    ensures Malloc(s, size, got).0.live == s.live[s.free[SizeClass(size)][0] := size]
  {
    InvMallocable(s, size, got);
    var d := SizeClass(size);
    HeadFacts(s, d, s.free[d][0]);
    TakeKeeps(s, d, size);
  }

  lemma NewArenaHead(s: State, d: nat, i: nat)
    requires |s.free| == DESC_CNT && d < DESC_CNT && s.free[d] == []
    ensures var s1 := NewArena(s, d, i); var b := BlockAddr(s.base + i, d, 0);
            && s1.free[d] != [] && s1.free[d][0] == b && PageOf(b) == s.base + i
            && SmallAt(s1, PageOf(b), d) && s1.arenas[PageOf(b)].cnt == BlocksPer(d) && s1.live == s.live
  {
    BlockPage(s.base + i, d, 0);
  }

  lemma MallocNewArena(s: State, size: nat, got: Grant)
    requires Inv(s) && 0 < size <= 1024 && size < s.poolSize && PagesOffered(s, size, got)
    requires s.free[SizeClass(size)] == [] && got.Pages?
    ensures Mallocable(s, size, got)
    ensures Malloc(s, size, got).1 == Ptr(BlockAddr(s.base + got.start, SizeClass(size), 0))
    ensures Inv(Malloc(s, size, got).0)
    ensures Malloc(s, size, got).0.live == s.live[BlockAddr(s.base + got.start, SizeClass(size), 0) := size]
  {
    InvMallocable(s, size, got);
    var d := SizeClass(size);
    NewArenaHead(s, d, got.start);
    NewArenaCore(s, d, got.start);
    TakeKeeps(NewArena(s, d, got.start), d, size);
  }

  /** `sys_malloc` keeps the invariant, whatever it returns. */
  lemma MallocKeepsInv(s: State, size: nat, got: Grant)
    requires Inv(s) && PagesOffered(s, size, got)
    ensures Mallocable(s, size, got)
    ensures Inv(Malloc(s, size, got).0)
  {
    InvMallocable(s, size, got);
    if !(0 < size < s.poolSize) {
    } else if size > 1024 {
      if got.Pages? && PageCount(size) < MAX_PAGES { MallocLarge(s, size, got); }
    } else if s.free[SizeClass(size)] != [] {
      MallocFromList(s, size, got);
    } else if got.Pages? {
      MallocNewArena(s, size, got);
    }
  }

  // ----- sys_free --------------------------------------------------------------------------------

  lemma RemovePages(s: State, r: State, page: nat)
    requires PagesOk(s) && page in s.arenas
    requires r.base == s.base && r.pool == SetRange(s.pool, page - s.base, PagesOf(s.arenas[page]), false)
    requires r.arenas == s.arenas - {page}
    ensures PagesOk(r)
  {
    forall p | p in r.arenas
      ensures s.base <= p && p + PagesOf(r.arenas[p]) <= s.base + |r.pool| && PagesOf(r.arenas[p]) >= 1
      ensures forall k :: p - s.base <= k < p - s.base + PagesOf(r.arenas[p]) ==> r.pool[k]
    {
      assert p < page || page < p;
    }
  }

  /** Freeing a large region removes its pages and nothing else. */
  lemma FreeLarge(s: State, ptr: nat)
    requires Inv(s) && ptr in s.live && PageOf(ptr) in s.arenas && s.arenas[PageOf(ptr)].Large?
    ensures Freeable(s, ptr)
    ensures Inv(Free(s, ptr))
  {
    LiveIsFreeable(s, ptr);
    var page := PageOf(ptr);
    var r := Free(s, ptr);
    assert LiveOk(s, ptr);
    RemovePages(s, r, page);
    FreeLargeLists(s, r, page, ptr);
    FreeLargeArenas(s, r, page, ptr);
    forall q | q in r.live ensures LiveOk(r, q) { FreeLargeLive(s, page, ptr, q); }
  }

  lemma FreeLargeLive(s: State, page: nat, ptr: nat, q: nat)
    requires LivesOk(s) && page in s.arenas && s.arenas[page].Large? && ptr == page * 4096 + 12
    requires q in s.live && q != ptr
    ensures LiveOk(s, q) && PageOf(q) != page
  {
    assert LiveOk(s, q);
  }

  lemma FreeLargeLists(s: State, r: State, page: nat, ptr: nat)
    requires ListsOk(s) && page in s.arenas && s.arenas[page].Large?
    requires r.free == s.free && r.arenas == s.arenas - {page} && r.live == s.live - {ptr}
    ensures ListsOk(r)
  {
    forall d, b | 0 <= d < DESC_CNT && b in r.free[d]
      ensures SmallAt(r, PageOf(b), d) && IsBlock(b, d) && b !in r.live
    {
      assert SmallAt(s, PageOf(b), d) && IsBlock(b, d) && b !in s.live;
    }
  }

  lemma FreeLargeArenas(s: State, r: State, page: nat, ptr: nat)
    requires |s.free| == DESC_CNT && ArenasOk(s) && PageOf(ptr) == page
    requires r.free == s.free && r.arenas == s.arenas - {page} && r.live == s.live - {ptr}
    ensures ArenasOk(r)
  {
    forall p | p in r.arenas ensures ArenaOk(r, p) {
      assert ArenaOk(s, p);
      if s.arenas[p].Small? {
        var d := s.arenas[p].desc;
        assert FreeSet(r, p, d) == FreeSet(s, p, d);
        forall i | 0 <= i < BlocksPer(d) ensures PageOf(BlockAddr(p, d, i)) == p { BlockPage(p, d, i); }
      }
    }
  }

  /** `ptr` is a live small block of class `d`; what freeing it needs to know. */
  ghost predicate Frees(s: State, ptr: nat, page: nat, d: nat) {
    && |s.free| == DESC_CNT && d < DESC_CNT
    && ptr in s.live && page == PageOf(ptr) && SmallAt(s, page, d) && IsBlock(ptr, d)
    && s.arenas[page].cnt == |FreeSet(s, page, d)|
    && (forall e :: 0 <= e < DESC_CNT ==> ptr !in s.free[e])
  }

  lemma FreesHolds(s: State, ptr: nat, page: nat, d: nat)
    requires ListsOk(s) && LivesOk(s) && ArenasOk(s) && ptr in s.live && page == PageOf(ptr) && SmallAt(s, page, d)
    ensures Frees(s, ptr, page, d)
  {
    assert LiveOk(s, ptr);
    ArenaCount(s, page, d);
    LiveNotListed(s, ptr);
  }

  lemma ArenaCount(s: State, page: nat, d: nat)
    requires |s.free| == DESC_CNT && ArenasOk(s) && SmallAt(s, page, d)
    ensures d < DESC_CNT && s.arenas[page].cnt == |FreeSet(s, page, d)|
  {
    assert ArenaOk(s, page);
  }

  lemma LiveNotListed(s: State, ptr: nat)
    requires ListsOk(s) && ptr in s.live
    ensures forall e :: 0 <= e < DESC_CNT ==> ptr !in s.free[e]
  {
  }

  lemma AppendLists(s: State, r: State, ptr: nat, page: nat, d: nat)
    requires ListsOk(s) && Frees(s, ptr, page, d)
    requires r.free == s.free[d := s.free[d] + [ptr]] && r.live == s.live - {ptr}
    requires r.arenas == s.arenas[page := Small(d, s.arenas[page].cnt + 1)]
    ensures ListsOk(r)
  {
    forall e, b | 0 <= e < DESC_CNT && b in r.free[e]
      ensures SmallAt(r, PageOf(b), e) && IsBlock(b, e) && b !in r.live
    {
      if b != ptr { assert b in s.free[e] && SmallAt(s, PageOf(b), e) && IsBlock(b, e) && b !in s.live; }
    }
  }

  lemma AppendArenas(s: State, r: State, ptr: nat, page: nat, d: nat)
    requires ListsOk(s) && ArenasOk(s) && Frees(s, ptr, page, d)
    requires r.free == s.free[d := s.free[d] + [ptr]] && r.live == s.live - {ptr}
    requires r.arenas == s.arenas[page := Small(d, s.arenas[page].cnt + 1)]
    ensures ArenasOk(r)
  {
    forall p | p in r.arenas ensures ArenaOk(r, p) {
      assert ArenaOk(s, p);
      if s.arenas[p].Small? {
        var e := s.arenas[p].desc;
        if p == page {
          assert FreeSet(r, p, d) == FreeSet(s, p, d) + {ptr};
        } else {
          assert FreeSet(r, p, e) == FreeSet(s, p, e);
          forall i | 0 <= i < BlocksPer(e) ensures PageOf(BlockAddr(p, e, i)) == p { BlockPage(p, e, i); }
        }
      } else {
        LargePtrPage(p);
      }
    }
  }

  lemma LargePtrPage(p: nat)
    ensures PageOf(p * 4096 + 12) == p
  {
  }

  lemma AppendLives(s: State, r: State, ptr: nat, page: nat, d: nat)
    requires LivesOk(s) && Frees(s, ptr, page, d)
    requires r.live == s.live - {ptr} && r.arenas == s.arenas[page := Small(d, s.arenas[page].cnt + 1)]
    ensures LivesOk(r)
  {
    forall q | q in r.live ensures LiveOk(r, q) { assert LiveOk(s, q); }
  }

  lemma FreeBlockOnly(s: State, ptr: nat, page: nat, d: nat)
    requires Inv(s) && Frees(s, ptr, page, d) && s.arenas[page].cnt + 1 != BlocksPer(d)
    ensures Freeable(s, ptr)
    ensures Inv(Free(s, ptr))
  {
    LiveIsFreeable(s, ptr);
    var r := s.(arenas := s.arenas[page := Small(d, s.arenas[page].cnt + 1)],
                free := s.free[d := s.free[d] + [ptr]], live := s.live - {ptr});
    FreeBlockShape(s, ptr, page, d, r);
    AppendLists(s, r, ptr, page, d);
    AppendArenas(s, r, ptr, page, d);
    AppendLives(s, r, ptr, page, d);
    SamePages(s, r, page, d);
  }

  lemma FreeBlockShape(s: State, ptr: nat, page: nat, d: nat, r: State)
    requires Freeable(s, ptr) && page == PageOf(ptr) && SmallAt(s, page, d)
    requires s.arenas[page].cnt + 1 != BlocksPer(d)
    requires r == s.(arenas := s.arenas[page := Small(d, s.arenas[page].cnt + 1)],
                     free := s.free[d := s.free[d] + [ptr]], live := s.live - {ptr})
    ensures Free(s, ptr) == r
  {
  }

  lemma SamePages(s: State, r: State, page: nat, d: nat)
    requires PagesOk(s) && SomeLive(s, {}) && SmallAt(s, page, d) && s.arenas[page].cnt + 1 != BlocksPer(d)
    requires r.base == s.base && r.pool == s.pool && r.arenas == s.arenas[page := Small(d, s.arenas[page].cnt + 1)]
    ensures PagesOk(r) && SomeLive(r, {})
  {
    assert forall p :: p in s.arenas ==> PagesOf(r.arenas[p]) == PagesOf(s.arenas[p]);
  }

  /** The count says full exactly when every block of the arena is on the list, which
      is what the ASSERT at line 605 demands of each of them. */
  lemma FullArenaListed(s: State, ptr: nat, page: nat, d: nat, i: nat)
    requires ListsOk(s) && Frees(s, ptr, page, d) && s.arenas[page].cnt + 1 == BlocksPer(d) && i < BlocksPer(d)
    ensures BlockAddr(page, d, i) in s.free[d] + [ptr]
  {
    var all := set k | 0 <= k < BlocksPer(d) :: BlockAddr(page, d, k);
    BlockSetSize(page, d, BlocksPer(d));
    var listed := FreeSet(s, page, d) + {ptr};
    forall b | b in listed ensures b in all {
      assert IsBlock(b, d);
      var k :| 0 <= k < BlocksPer(d) && b == BlockAddr(PageOf(b), d, k);
    }
    SubsetFull(listed, all);
    assert BlockAddr(page, d, i) in all;
  }

  lemma SubsetFull(a: set<nat>, b: set<nat>)
    requires a <= b && |a| == |b|
    ensures a == b
  {
    if a != b {
      var x :| x in b && x !in a;
      assert a <= b - {x};
      SubsetSize(a, b - {x});
      assert false;
    }
  }

  lemma SubsetSize(a: set<nat>, b: set<nat>)
    requires a <= b
    ensures |a| <= |b|
  {
    if a != {} {
      var x :| x in a;
      SubsetSize(a - {x}, b - {x});
    }
  }

  lemma DropNoDup(list: seq<nat>, x: set<nat>)
    requires NoDup(list)
    ensures NoDup(Drop(list, x))
  {
    if list != [] {
      DropNoDup(list[1..], x);
      assert list[0] !in list[1..];
    }
  }

  lemma ReleaseLists(s: State, r: State, ptr: nat, page: nat, d: nat)
    requires ListsOk(s) && Frees(s, ptr, page, d)
    requires r.free == s.free[d := Drop(s.free[d] + [ptr], BlockSet(page, d))] && r.live == s.live - {ptr}
    requires r.arenas == s.arenas - {page}
    ensures ListsOk(r)
  {
    DropNoDup(s.free[d] + [ptr], BlockSet(page, d));
    forall e, b | 0 <= e < DESC_CNT && b in r.free[e]
      ensures SmallAt(r, PageOf(b), e) && IsBlock(b, e) && b !in r.live
    {
      BlockInSet(page, d, ptr);
      assert b in s.free[e] && SmallAt(s, PageOf(b), e) && IsBlock(b, e) && b !in s.live;
      if PageOf(b) == page { BlockInSet(page, d, b); }
    }
  }

  lemma BlockInSet(page: nat, d: nat, b: nat)
    requires IsBlock(b, d) && PageOf(b) == page
    ensures b in BlockSet(page, d)
  {
    var i :| 0 <= i < BlocksPer(d) && b == BlockAddr(PageOf(b), d, i);
  }

  lemma ReleaseArenas(s: State, r: State, ptr: nat, page: nat, d: nat)
    requires ListsOk(s) && ArenasOk(s) && Frees(s, ptr, page, d)
    requires r.free == s.free[d := Drop(s.free[d] + [ptr], BlockSet(page, d))] && r.live == s.live - {ptr}
    requires r.arenas == s.arenas - {page}
    ensures ArenasOk(r)
  {
    forall i | 0 <= i < BlocksPer(d) ensures PageOf(BlockAddr(page, d, i)) == page { BlockPage(page, d, i); }
    forall p | p in r.arenas ensures ArenaOk(r, p) {
      assert ArenaOk(s, p);
      if s.arenas[p].Small? {
        var e := s.arenas[p].desc;
        forall i | 0 <= i < BlocksPer(e) ensures PageOf(BlockAddr(p, e, i)) == p { BlockPage(p, e, i); }
        assert FreeSet(r, p, e) == FreeSet(s, p, e);
      } else {
        LargePtrPage(p);
      }
    }
  }

  /** No live block is left on a page that is given back. */
  lemma ReleaseLives(s: State, r: State, ptr: nat, page: nat, d: nat)
    requires ListsOk(s) && LivesOk(s) && Frees(s, ptr, page, d) && s.arenas[page].cnt + 1 == BlocksPer(d)
    requires r.live == s.live - {ptr} && r.arenas == s.arenas - {page}
    ensures LivesOk(r)
  {
    forall q | q in r.live ensures LiveOk(r, q) {
      assert LiveOk(s, q);
      if PageOf(q) == page {
        var i :| 0 <= i < BlocksPer(d) && q == BlockAddr(PageOf(q), d, i);
        FullArenaListed(s, ptr, page, d, i);
        assert false;
      }
    }
  }

  lemma FreeArena(s: State, ptr: nat, page: nat, d: nat)
    requires Inv(s) && Frees(s, ptr, page, d) && s.arenas[page].cnt + 1 == BlocksPer(d)
    ensures Freeable(s, ptr)
    ensures Inv(Free(s, ptr))
  {
    LiveIsFreeable(s, ptr);
    var r := Free(s, ptr);
    ReleaseLists(s, r, ptr, page, d);
    ReleaseArenas(s, r, ptr, page, d);
    ReleaseLives(s, r, ptr, page, d);
    RemovePages(s, r, page);
  }

  /** `sys_free` of a live pointer keeps the invariant. */
  lemma FreeKeepsInv(s: State, ptr: nat)
    requires Inv(s) && ptr in s.live
    ensures Freeable(s, ptr)
    ensures Inv(Free(s, ptr))
  {
    LiveIsFreeable(s, ptr);
    var page := PageOf(ptr);
    match s.arenas[page]
    case Large(_) => FreeLarge(s, ptr);
    case Small(d, cnt) =>
      FreesHolds(s, ptr, page, d);
      if cnt + 1 == BlocksPer(d) { FreeArena(s, ptr, page, d); } else { FreeBlockOnly(s, ptr, page, d); }
  }

  // ----- what the caller gets ------------------------------------------------------------------------

  /** A live region lies behind the header and inside the pages of its own arena. */
  lemma RegionInArena(s: State, ptr: nat)
    requires Inv(s) && ptr in s.live
    ensures var page := PageOf(ptr);
            && page in s.arenas && page * 4096 + 12 <= ptr
            && ptr + s.live[ptr] <= (page + PagesOf(s.arenas[page])) * 4096
  {
    assert LiveOk(s, ptr);
    var page := PageOf(ptr);
    if s.arenas[page].Small? {
      var d := s.arenas[page].desc;
      var i :| 0 <= i < BlocksPer(d) && ptr == BlockAddr(page, d, i);
      BlockPage(page, d, i);
    }
  }

  predicate Apart(a: nat, n: nat, b: nat, m: nat) { a + n <= b || b + m <= a }

  lemma SamePageApart(s: State, p: nat, q: nat, d: nat)
    requires d < DESC_CNT && IsBlock(p, d) && IsBlock(q, d) && PageOf(p) == PageOf(q) && p != q
    ensures Apart(p, BlockSize(d), q, BlockSize(d))
  {
    var i :| 0 <= i < BlocksPer(d) && p == BlockAddr(PageOf(p), d, i);
    var j :| 0 <= j < BlocksPer(d) && q == BlockAddr(PageOf(q), d, j);
    if i < j { BlockInjective(PageOf(p), d, i, j); } else if j < i { BlockInjective(PageOf(p), d, j, i); }
  }

  /** Two different live regions never overlap. */
  lemma LiveRegionsApart(s: State, p: nat, q: nat)
    requires Inv(s) && p in s.live && q in s.live && p != q
    ensures Apart(p, s.live[p], q, s.live[q])
  {
    RegionInArena(s, p);
    RegionInArena(s, q);
    assert LiveOk(s, p) && LiveOk(s, q);
    if PageOf(p) == PageOf(q) {
      SamePageApart(s, p, q, s.arenas[PageOf(p)].desc);
    } else {
      PagesApart(s, PageOf(p), PageOf(q));
    }
  }

  lemma PagesApart(s: State, a: nat, b: nat)
    requires PagesOk(s) && a in s.arenas && b in s.arenas && a != b
    ensures a + PagesOf(s.arenas[a]) <= b || b + PagesOf(s.arenas[b]) <= a
  {
    if a < b { } else { assert b < a; }
  }

  /** A live region never overlaps an arena header or a block on a free list, so what
      the caller writes there cannot damage the heap's own data. */
  lemma LiveRegionsSafe(s: State, p: nat, page: nat, d: nat, b: nat)
    requires Inv(s) && p in s.live && page in s.arenas && d < DESC_CNT && b in s.free[d]
    ensures Apart(p, s.live[p], page * 4096, 12)
    ensures Apart(p, s.live[p], b, BlockSize(d))
  {
    RegionInArena(s, p);
    if PageOf(p) != page { PagesApart(s, PageOf(p), page); }
    assert SmallAt(s, PageOf(b), d) && IsBlock(b, d) && b !in s.live;
    assert LiveOk(s, p);
    if PageOf(p) == PageOf(b) {
      SamePageApart(s, p, b, d);
    } else {
      PagesApart(s, PageOf(p), PageOf(b));
      var i :| 0 <= i < BlocksPer(d) && b == BlockAddr(PageOf(b), d, i);
      BlockPage(PageOf(b), d, i);
    }
  }

  predicate TooManyPages(s: State, size: nat) { 1024 < size < s.poolSize && PageCount(size) >= MAX_PAGES }

  /** `malloc_page` is called, for few enough pages. */
  predicate Asks(s: State, size: nat)
    requires |s.free| == DESC_CNT
  {
    0 < size < s.poolSize && PagesNeeded(s, size) > 0 && !TooManyPages(s, size)
  }

  /** A returned pointer is new, and the only change to what is live.  Otherwise nothing
      changes, and the cause is a size out of range, a request for too many pages, or what
      `malloc_page` did. */
  lemma MallocReturnsFresh(s: State, size: nat, got: Grant)
    requires Inv(s) && PagesOffered(s, size, got)
    ensures Mallocable(s, size, got)
    ensures var (r, o) := Malloc(s, size, got);
            && (o.Ptr? ==> o.addr !in s.live && r.live == s.live[o.addr := size] && 0 < size < s.poolSize)
            && (!o.Ptr? ==> r == s)
            && (o.Null? <==> !(0 < size < s.poolSize) || (Asks(s, size) && got.Denied?))
            && (o.Panic? <==> TooManyPages(s, size) || (Asks(s, size) && got.Stopped?))
            && (o.Wild? <==> Asks(s, size) && got.Beyond?)
  {
    InvMallocable(s, size, got);
    MallocNoPointer(s, size, got);
    if Malloc(s, size, got).1.Ptr? { MallocPointer(s, size, got); }
  }

  /** When no pointer is returned, why not, and that nothing changed. */
  lemma MallocNoPointer(s: State, size: nat, got: Grant)
    requires Mallocable(s, size, got)
    ensures var (r, o) := Malloc(s, size, got);
            && (o.Ptr? ==> 0 < size < s.poolSize && (size > 1024 ==> PageCount(size) < MAX_PAGES && got.Pages?))
            && (o.Ptr? && size <= 1024 && s.free[SizeClass(size)] == [] ==> got.Pages?)
            && (!o.Ptr? ==> r == s)
            && (o.Null? <==> !(0 < size < s.poolSize) || (Asks(s, size) && got.Denied?))
            && (o.Panic? <==> TooManyPages(s, size) || (Asks(s, size) && got.Stopped?))
            && (o.Wild? <==> Asks(s, size) && got.Beyond?)
  {
  }

  lemma MallocPointer(s: State, size: nat, got: Grant)
    requires Inv(s) && Mallocable(s, size, got) && Malloc(s, size, got).1.Ptr?
    ensures var (r, o) := Malloc(s, size, got); o.addr !in s.live && r.live == s.live[o.addr := size]
  {
    MallocNoPointer(s, size, got);
    if size > 1024 {
      LargeFresh(s, size, got);
      LargePointer(s, size, got);
    } else {
      SmallPointer(s, size, got);
    }
  }

  lemma LargeFresh(s: State, size: nat, got: Grant)
    requires Inv(s) && Mallocable(s, size, got) && 1024 < size < s.poolSize && PageCount(size) < MAX_PAGES && got.Pages?
    ensures (s.base + got.start) * 4096 + 12 !in s.live
  {
    LargePtrPage(s.base + got.start);
    FreshPagesNotLive(s, got.start, PageCount(size), (s.base + got.start) * 4096 + 12);
  }

  lemma LargePointer(s: State, size: nat, got: Grant)
    requires Mallocable(s, size, got) && 1024 < size < s.poolSize && PageCount(size) < MAX_PAGES && got.Pages?
    requires (s.base + got.start) * 4096 + 12 !in s.live
    ensures var (r, o) := Malloc(s, size, got); o.Ptr? && o.addr !in s.live && r.live == s.live[o.addr := size]
  {
    LargeShape(s, size, got);
  }

  lemma SmallPointer(s: State, size: nat, got: Grant)
    requires Inv(s) && Mallocable(s, size, got) && 0 < size <= 1024 && size < s.poolSize
    requires s.free[SizeClass(size)] == [] ==> got.Pages?
    ensures var (r, o) := Malloc(s, size, got); o.Ptr? && o.addr !in s.live && r.live == s.live[o.addr := size]
  {
    if s.free[SizeClass(size)] != [] {
      MallocFromList(s, size, got);
    } else {
      MallocNewArena(s, size, got);
      BlockPage(s.base + got.start, SizeClass(size), 0);
      FreshPagesNotLive(s, got.start, 1, BlockAddr(s.base + got.start, SizeClass(size), 0));
    }
  }

  lemma FreshPagesNotLive(s: State, i: nat, n: nat, ptr: nat)
    requires Inv(s) && ClearRun(s.pool, i, n) && n >= 1 && PageOf(ptr) == s.base + i
    ensures ptr !in s.live
  {
    if PageOf(ptr) in s.arenas {
      FreshPages(s, i, n, PageOf(ptr));
    }
    assert ptr in s.live ==> LiveOk(s, ptr);
  }

  /** An arena's pages are given back exactly when its last live block is freed. */
  lemma ReleasedWithLastBlock(s: State, ptr: nat)
    requires Inv(s) && ptr in s.live
    ensures Freeable(s, ptr)
    ensures PageOf(ptr) in Free(s, ptr).arenas <==> exists q :: q in s.live && q != ptr && PageOf(q) == PageOf(ptr)
    ensures PageOf(ptr) !in Free(s, ptr).arenas ==> !Free(s, ptr).pool[PageOf(ptr) - s.base]
  {
    FreeKeepsInv(s, ptr);
    LiveIsFreeable(s, ptr);
    var r := Free(s, ptr);
    var page := PageOf(ptr);
    if page in r.arenas {
      LiveWitness(r, page);
    } else {
      forall q | q in s.live && q != ptr ensures PageOf(q) != page {
        assert q in r.live && LiveOk(r, q);
      }
    }
  }

  /** Every arena of a well-formed heap has a live block. */
  lemma LiveWitness(s: State, page: nat)
    requires Inv(s) && page in s.arenas
    ensures exists q :: q in s.live && PageOf(q) == page
  {
    assert ArenaOk(s, page);
    match s.arenas[page]
    case Large(_) => LargePtrPage(page);
    case Small(d, cnt) =>
      if forall i :: 0 <= i < BlocksPer(d) ==> BlockAddr(page, d, i) in s.free[d] {
        var all := set i | 0 <= i < BlocksPer(d) :: BlockAddr(page, d, i);
        forall b | b in all ensures b in FreeSet(s, page, d) {
          var i :| 0 <= i < BlocksPer(d) && b == BlockAddr(page, d, i);
          BlockPage(page, d, i);
        }
        BlockSetSize(page, d, BlocksPer(d));
        SubsetSize(all, FreeSet(s, page, d));
        assert false;
      }
      var i :| 0 <= i < BlocksPer(d) && BlockAddr(page, d, i) !in s.free[d];
      BlockPage(page, d, i);
  }

  // ----- whole runs ---------------------------------------------------------------------------------

  /** A call, or a change of a page that no arena covers: PCBs, page directories and other
      users take pages from the same pool. */
  datatype Op = DoMalloc(size: nat, got: Grant) | DoFree(ptr: nat) | OtherPage(i: nat, taken: bool)

  ghost predicate Uncovered(s: State, i: nat) {
    i < |s.pool| && forall p {:trigger s.arenas[p]} :: p in s.arenas ==> !(p <= s.base + i < p + PagesOf(s.arenas[p]))
  }

  /** A call that halts or runs past the pool ends the run. */
  ghost predicate OpOk(s: State, op: Op) {
    match op
    case DoMalloc(size, got) => Mallocable(s, size, got) && !Malloc(s, size, got).1.Panic? && !Malloc(s, size, got).1.Wild?
    case DoFree(ptr) => Freeable(s, ptr) && ptr in s.live
    case OtherPage(i, _) => Uncovered(s, i)
  }

  ghost function Step(s: State, op: Op): (r: State)
    requires OpOk(s, op)
  {
    match op
    case DoMalloc(size, got) => Malloc(s, size, got).0
    case DoFree(ptr) => Free(s, ptr)
    case OtherPage(i, taken) => s.(pool := s.pool[i := taken])
  }

  lemma OtherPageKeepsInv(s: State, i: nat, taken: bool)
    requires Inv(s) && Uncovered(s, i)
    ensures Inv(s.(pool := s.pool[i := taken]))
  {
    var r := s.(pool := s.pool[i := taken]);
    OtherPagePages(s, r, i, taken);
    forall p | p in r.live ensures LiveOk(r, p) { assert LiveOk(s, p); }
    forall p | p in r.arenas ensures ArenaOk(r, p) {
      assert ArenaOk(s, p);
      assert s.arenas[p].Small? && s.arenas[p].desc < DESC_CNT ==> FreeSet(r, p, s.arenas[p].desc) == FreeSet(s, p, s.arenas[p].desc);
    }
    OtherPageLists(s, r);
  }

  lemma OtherPagePages(s: State, r: State, i: nat, taken: bool)
    requires PagesOk(s) && Uncovered(s, i) && r == s.(pool := s.pool[i := taken])
    ensures PagesOk(r)
  {
    forall p | p in r.arenas
      ensures forall k :: p - s.base <= k < p - s.base + PagesOf(r.arenas[p]) ==> r.pool[k]
    {
      assert s.arenas[p] == r.arenas[p];
    }
  }

  lemma OtherPageLists(s: State, r: State)
    requires ListsOk(s) && r == s.(pool := r.pool)
    ensures ListsOk(r)
  {
    forall d, b | 0 <= d < DESC_CNT && b in r.free[d] ensures SmallAt(r, PageOf(b), d) && IsBlock(b, d) && b !in r.live {
      assert SmallAt(s, PageOf(b), d);
    }
  }

  ghost predicate Run(states: seq<State>, ops: seq<Op>) {
    && |states| == |ops| + 1
    && (states[0].arenas == map[] && states[0].live == map[] && states[0].free == [[], [], [], [], [], [], []])
    && (forall i :: 0 <= i < |ops| ==> OpOk(states[i], ops[i]) && states[i + 1] == Step(states[i], ops[i]))
  }

  /** In every run of `sys_malloc` and `sys_free`, whatever else happens to the pool's other
      pages in between, the heap invariant holds throughout. */
  lemma {:induction false} RunKeepsInv(states: seq<State>, ops: seq<Op>, i: nat)
    requires Run(states, ops) && i < |states|
    ensures Inv(states[i])
  {
    if i > 0 {
      RunKeepsInv(states, ops, i - 1);
      match ops[i - 1]
      case DoMalloc(size, got) => MallocKeepsInv(states[i - 1], size, got);
      case DoFree(ptr) => FreeKeepsInv(states[i - 1], ptr);
      case OtherPage(k, taken) => OtherPageKeepsInv(states[i - 1], k, taken);
    }
  }

  // ----- malloc then free --------------------------------------------------------------------------

  lemma RangeUndone(pool: seq<bool>, i: nat, n: nat)
    requires ClearRun(pool, i, n)
    ensures SetRange(SetRange(pool, i, n, true), i, n, false) == pool
  {
  }

  lemma RoundTripLarge(s: State, size: nat, start: nat, n: nat)
    requires Inv(s) && n >= 1 && ClearRun(s.pool, start, n)
    ensures var r := LargeState(s, size, start, n); var p := (s.base + start) * 4096 + 12;
            Freeable(r, p) && Free(r, p) == s
  {
    var p := (s.base + start) * 4096 + 12;
    LargePtrPage(s.base + start);
    NoArenaThere(s, start, n);
    FreshPagesNotLive(s, start, n, p);
    RangeUndone(s.pool, start, n);
    LargeUndone(s, size, start, n, p);
  }

  lemma LargeUndone(s: State, size: nat, start: nat, n: nat, p: nat)
    requires |s.free| == DESC_CNT && p == (s.base + start) * 4096 + 12 && PageOf(p) == s.base + start
    requires s.base + start !in s.arenas && p !in s.live
    requires SetRange(SetRange(s.pool, start, n, true), start, n, false) == s.pool
    ensures var r := LargeState(s, size, start, n); Freeable(r, p) && Free(r, p) == s
  {
    var r := LargeState(s, size, start, n);
    assert r.arenas - {s.base + start} == s.arenas;
    assert r.live - {p} == s.live;
  }

  lemma RoundTripListed(s: State, d: nat, size: nat)
    requires Inv(s) && d < DESC_CNT && Takeable(s, d)
    ensures var r := TakeBlock(s, d, size); var p := s.free[d][0];
            Freeable(r, p) && Free(r, p) == s.(free := s.free[d := s.free[d][1..] + [p]])
  {
    var p := s.free[d][0];
    HeadFacts(s, d, p);
    assert PageOf(p) >= s.base && s.arenas[PageOf(p)].cnt < BlocksPer(d);
    ListedUndone(s, d, size, p);
  }

  lemma ListedUndone(s: State, d: nat, size: nat, p: nat)
    requires |s.free| == DESC_CNT && d < DESC_CNT && Takeable(s, d) && p == s.free[d][0] && p !in s.live
    requires SmallAt(s, PageOf(p), d) && PageOf(p) >= s.base && s.arenas[PageOf(p)].cnt < BlocksPer(d)
    ensures var r := TakeBlock(s, d, size);
            Freeable(r, p) && Free(r, p) == s.(free := s.free[d := s.free[d][1..] + [p]])
  {
    var r := TakeBlock(s, d, size);
    assert r.arenas[PageOf(p) := Small(d, s.arenas[PageOf(p)].cnt)] == s.arenas;
    assert r.live - {p} == s.live;
    assert r.free[d := r.free[d] + [p]] == s.free[d := s.free[d][1..] + [p]];
  }

  lemma {:induction false} DropAll(list: seq<nat>, x: set<nat>)
    requires forall b :: b in list ==> b in x
    ensures Drop(list, x) == []
  {
    if list != [] { DropAll(list[1..], x); }
  }

  lemma RoundTripArena(s: State, d: nat, i: nat, size: nat)
    requires Inv(s) && d < DESC_CNT && s.free[d] == [] && ClearRun(s.pool, i, 1)
    ensures var s1 := NewArena(s, d, i); Takeable(s1, d)
    ensures var s1 := NewArena(s, d, i); var r := TakeBlock(s1, d, size); var p := s1.free[d][0];
            Freeable(r, p) && Free(r, p) == s
  {
    var page := s.base + i;
    var s1 := NewArena(s, d, i);
    NewArenaHead(s, d, i);
    NoArenaThere(s, i, 1);
    var p := s1.free[d][0];
    FreshPagesNotLive(s, i, 1, p);
    var r := TakeBlock(s1, d, size);
    ArenaDrained(s, d, page, s1.free[d]);
    assert r.free[d] + [p] == s1.free[d][1..] + [s1.free[d][0]];
    assert SetRange(r.pool, i, 1, false) == s.pool;
    assert r.arenas - {page} == s.arenas;
    assert r.live - {p} == s.live;
    assert r.free[d := []] == s.free;
  }

  lemma ArenaDrained(s: State, d: nat, page: nat, list: seq<nat>)
    requires d < |s.free| && s.free[d] == [] && list == s.free[d] + Blocks(page, d)
    ensures Drop(list[1..] + [list[0]], BlockSet(page, d)) == []
  {
    forall b | b in list[1..] + [list[0]] ensures b in BlockSet(page, d) {
      assert b in list;
      var i :| 0 <= i < |list| && list[i] == b;
      assert b == BlockAddr(page, d, i);
    }
    DropAll(list[1..] + [list[0]], BlockSet(page, d));
  }

  /** Freeing what was just allocated undoes the allocation: the heap is back in the
      same state, except that a block taken from a free list returns to its tail. */
  lemma MallocThenFree(s: State, size: nat, got: Grant)
    requires Inv(s) && Mallocable(s, size, got) && Malloc(s, size, got).1.Ptr?
    ensures var (r, o) := Malloc(s, size, got);
            && Freeable(r, o.addr)
            && Free(r, o.addr) == if size <= 1024 && s.free[SizeClass(size)] != []
                                  then var d := SizeClass(size); s.(free := s.free[d := s.free[d][1..] + [o.addr]])
                                  else s
  {
    MallocNoPointer(s, size, got);
    if size > 1024 {
      LargeShape(s, size, got);
      RoundTripLarge(s, size, got.start, PageCount(size));
    } else if s.free[SizeClass(size)] != [] {
      RoundTripListed(s, SizeClass(size), size);
    } else {
      RoundTripArena(s, SizeClass(size), got.start, size);
    }
  }
}
