/** The arena heap of kern/memory.c: `sys_malloc` and `sys_free` over one memory pool.

    A page that holds small blocks starts with an arena header and is cut into equal
    blocks; a page has 4096 bytes and a header 12.  The free blocks of all arenas of one
    size share one free list.  Larger requests get whole pages.  `live` is a history
    variable: the pointers handed out and not yet freed, with the size asked for. */
module Heap {
  import opened Bitmap
  import opened Sequences

  const DESC_CNT: nat := 7
  const MAX_PAGES: nat := 3840     // the ASSERT in malloc_page

  datatype Arena = Small(desc: nat, cnt: nat) | Large(pages: nat)

  /** `base` is the page number of the pool's first virtual page, `pool` its bitmap. */
  datatype State = State(base: nat, poolSize: nat, pool: seq<bool>, arenas: map<nat, Arena>,
                         free: seq<seq<nat>>, live: map<nat, nat>)

  /** Panic is a halt; Wild is a block of pages that is not inside the pool. */
  datatype Outcome = Panic | Null | Wild | Ptr(addr: nat)

  /** What `malloc_page` does: halt, return NULL, return a run that ends one page behind the
      pool (`Bitmap.ScanOverruns`), or return a run of pages that were free. */
  datatype Grant = Stopped | Denied | Beyond | Pages(start: nat)

  function NoPages(g: Grant): (o: Outcome)
    requires !g.Pages?
  {
    match g
    case Stopped => Panic
    case Denied => Null
    case Beyond => Wild
  }

  function BlockSize(d: nat): (r: nat) {
    if d == 0 then 16 else if d == 1 then 32 else if d == 2 then 64 else if d == 3 then 128
    else if d == 4 then 256 else if d == 5 then 512 else 1024
  }

  /** `blocks_per_arena`, tabulated; `BlocksPerIsQuotient` ties it to the C expression. */
  function BlocksPer(d: nat): (r: nat)
    ensures 3 <= r <= 255
  {
    if d == 0 then 255 else if d == 1 then 127 else if d == 2 then 63 else if d == 3 then 31
    else if d == 4 then 15 else if d == 5 then 7 else 3
  }

  lemma BlocksPerIsQuotient(d: nat)
    requires d < DESC_CNT
    ensures BlocksPer(d) == (4096 - 12) / BlockSize(d)
    ensures d > 0 ==> BlockSize(d) == 2 * BlockSize(d - 1)
  {
    if d == 0 {} else if d == 1 {} else if d == 2 {} else if d == 3 {} else if d == 4 {} else if d == 5 {} else {}
  }

  /** i * block_size, one size at a time. */
  function Offset(d: nat, i: nat): (r: nat) {
    if d == 0 then 16 * i else if d == 1 then 32 * i else if d == 2 then 64 * i else if d == 3 then 128 * i
    else if d == 4 then 256 * i else if d == 5 then 512 * i else 1024 * i
  }

  lemma OffsetIsProduct(d: nat, i: nat)
    ensures Offset(d, i) == i * BlockSize(d)
  {
    if d == 0 {} else if d == 1 {} else if d == 2 {} else if d == 3 {} else if d == 4 {} else if d == 5 {} else {}
  }

  /** `arena2block`. */
  function BlockAddr(page: nat, d: nat, i: nat): (r: nat) {
    page * 4096 + 12 + Offset(d, i)
  }

  /** `block2arena`, as a page number. */
  function PageOf(addr: nat): (r: nat) { addr / 4096 }

  /** The loop over descriptors at line 401: the first size that fits. */
  function SizeClass(size: nat): (d: nat)
    requires 0 < size <= 1024
    ensures d < DESC_CNT && size <= BlockSize(d) && (d > 0 ==> BlockSize(d - 1) < size)
  {
    if size <= 16 then 0 else if size <= 32 then 1 else if size <= 64 then 2 else if size <= 128 then 3
    else if size <= 256 then 4 else if size <= 512 then 5 else 6
  }

  /** DIV_ROUND_UP(size + sizeof(struct arena), PG_SIZE). */
  function PageCount(size: nat): (n: nat)
    ensures size + 12 <= n * 4096 < size + 12 + 4096
  {
    (size + 12 + 4096 - 1) / 4096
  }

  function Blocks(page: nat, d: nat): (r: seq<nat>)
    ensures |r| == BlocksPer(d) && forall i :: 0 <= i < |r| ==> r[i] == BlockAddr(page, d, i)
  {
    seq(BlocksPer(d), i requires 0 <= i => BlockAddr(page, d, i))
  }

  function BlockSet(page: nat, d: nat): (r: set<nat>) {
    set i | 0 <= i < BlocksPer(d) :: BlockAddr(page, d, i)
  }

  function PagesOf(a: Arena): (n: nat) {
    if a.Large? then a.pages else 1
  }

  /** The list without the elements of `s`, in order. */
  function Drop(list: seq<nat>, s: set<nat>): (r: seq<nat>)
    ensures forall b :: b in r <==> b in list && b !in s
  {
    if list == [] then [] else if list[0] in s then Drop(list[1..], s) else [list[0]] + Drop(list[1..], s)
  }

  // ----- what malloc_page does -------------------------------------------------------

  /** `malloc_page` for n pages: `behind` is the bit just past the page bitmap, and `frames`
      tells whether `pmalloc` finds a frame for every page. */
  function GrantOf(pool: seq<bool>, behind: bool, n: nat, frames: bool): (g: Grant) {
    match ScanSpec(pool, behind, n)
    case Halt => Stopped
    case Result(found) =>
      if found.None? then Denied
      else if !frames then Stopped
      else if found.start + n > |pool| then Beyond
      else Pages(found.start)
  }

  /** The exact causes of each outcome. */
  lemma GrantCauses(pool: seq<bool>, behind: bool, n: nat, frames: bool)
    requires n >= 1
    ensures var g := GrantOf(pool, behind, n, frames); var over := Overruns(pool, behind, n);
            && (g.Stopped? <==> Full(pool) || (!frames && (over || FirstFit(pool, n).At?)))
            && (g.Denied? <==> !Full(pool) && !over && FirstFit(pool, n).None?)
            && (g.Beyond? <==> frames && over)
            && (g.Pages? <==> frames && !over && FirstFit(pool, n).At?)
            && (g.Pages? ==> FirstFit(pool, n) == At(g.start))
  {
    if Full(pool) {
      FullNone(pool, n);
    } else if !Overruns(pool, behind, n) {
      ScanInside(pool, behind, n);
    }
  }

  /** With the bit behind the bitmap set, or its last bit, no run passes the end. */
  lemma GuardedGrant(pool: seq<bool>, behind: bool, n: nat, frames: bool)
    requires n >= 1 && (behind || (pool != [] && pool[|pool| - 1]))
    ensures !GrantOf(pool, behind, n, frames).Beyond?
  {
    if !Full(pool) { ScanExact(pool, behind, n); }
  }

  // ----- the two operations ---------------------------------------------------------

  /** How many pages the call asks `malloc_page` for; 0 if it does not call it. */
  function PagesNeeded(s: State, size: nat): (n: nat)
    requires |s.free| == DESC_CNT
  {
    if !(0 < size < s.poolSize) then 0
    else if size > 1024 then PageCount(size)
    else if s.free[SizeClass(size)] == [] then 1 else 0
  }

  /** `got` is what `malloc_page` does when it is called. */
  predicate PagesOffered(s: State, size: nat, got: Grant)
    requires |s.free| == DESC_CNT
  {
    got.Pages? ==> ClearRun(s.pool, got.start, PagesNeeded(s, size))
  }

  /** A new arena of class `d` on the page at bitmap index `i`. */
  function NewArena(s: State, d: nat, i: nat): (r: State)
    requires d < |s.free|
  {
    var page := s.base + i;
    s.(pool := SetRange(s.pool, i, 1, true), arenas := s.arenas[page := Small(d, BlocksPer(d))],
       free := s.free[d := s.free[d] + Blocks(page, d)])
  }

  /** Pop the first block of class `d` and hand it out. */
  function TakeBlock(s: State, d: nat, size: nat): (r: State)
    requires Takeable(s, d)
  {
    var b := s.free[d][0];
    var a := s.arenas[PageOf(b)];
    s.(free := s.free[d := s.free[d][1..]], arenas := s.arenas[PageOf(b) := a.(cnt := a.cnt - 1)],
       live := s.live[b := size])
  }

  /** What popping a block of class `d` needs; it follows from `Inv`. */
  predicate Takeable(s: State, d: nat) {
    && d < |s.free| && s.free[d] != [] && PageOf(s.free[d][0]) in s.arenas
    && s.arenas[PageOf(s.free[d][0])].Small? && s.arenas[PageOf(s.free[d][0])].cnt > 0
  }

  /** What the call needs in order to be defined at all; it follows from `Inv`. */
  predicate Mallocable(s: State, size: nat, got: Grant) {
    && |s.free| == DESC_CNT && PagesOffered(s, size, got)
    && (0 < size <= 1024 ==>
          var d := SizeClass(size);
          if s.free[d] != [] then Takeable(s, d) else got.Pages? ==> Takeable(NewArena(s, d, got.start), d))
  }

  function Malloc(s: State, size: nat, got: Grant): (r: (State, Outcome))
    requires Mallocable(s, size, got)
  {
    var n := PagesNeeded(s, size);
    if !(0 < size < s.poolSize) then (s, Null)
    else if size > 1024 then
      if n >= MAX_PAGES then (s, Panic)
      else if !got.Pages? then (s, NoPages(got))
      else
        var page := s.base + got.start;
        var ptr := page * 4096 + 12;
        (s.(pool := SetRange(s.pool, got.start, n, true), arenas := s.arenas[page := Large(n)],
            live := s.live[ptr := size]), Ptr(ptr))
    else
      var d := SizeClass(size);
      if s.free[d] == [] && !got.Pages? then (s, NoPages(got))
      else
        var s1 := if s.free[d] == [] then NewArena(s, d, got.start) else s;
        (TakeBlock(s1, d, size), Ptr(s1.free[d][0]))
  }

  /** `ptr` lies on a page with an arena header; it follows from `Inv` for a live pointer. */
  predicate Freeable(s: State, ptr: nat) {
    && |s.free| == DESC_CNT && PageOf(ptr) in s.arenas && PageOf(ptr) >= s.base
    && (s.arenas[PageOf(ptr)].Small? ==> s.arenas[PageOf(ptr)].desc < DESC_CNT)
  }

  function Free(s: State, ptr: nat): (r: State)
    requires Freeable(s, ptr)
  {
    var page := PageOf(ptr);
    match s.arenas[page]
    case Large(n) =>
      s.(pool := SetRange(s.pool, page - s.base, n, false), arenas := s.arenas - {page}, live := s.live - {ptr})
    case Small(d, cnt) =>
      var list := s.free[d] + [ptr];
      if cnt + 1 == BlocksPer(d) then
        s.(pool := SetRange(s.pool, page - s.base, 1, false), arenas := s.arenas - {page},
           free := s.free[d := Drop(list, BlockSet(page, d))], live := s.live - {ptr})
      else
        s.(arenas := s.arenas[page := Small(d, cnt + 1)], free := s.free[d := list], live := s.live - {ptr})
  }

  // ----- the invariant ------------------------------------------------------------------

  predicate IsBlock(b: nat, d: nat) {
    exists i :: 0 <= i < BlocksPer(d) && b == BlockAddr(PageOf(b), d, i)
  }

  predicate SmallAt(s: State, page: nat, d: nat) {
    page in s.arenas && s.arenas[page].Small? && s.arenas[page].desc == d
  }

  ghost predicate ListsOk(s: State) {
    && |s.free| == DESC_CNT
    && (forall d :: 0 <= d < DESC_CNT ==> NoDup(s.free[d]))
    && (forall d, b :: 0 <= d < DESC_CNT && b in s.free[d] ==> SmallAt(s, PageOf(b), d) && IsBlock(b, d) && b !in s.live)
  }

  predicate LiveOk(s: State, ptr: nat)
    requires ptr in s.live
  {
    && PageOf(ptr) in s.arenas
    && (match s.arenas[PageOf(ptr)]
        case Small(d, _) => d < DESC_CNT && IsBlock(ptr, d) && s.live[ptr] <= BlockSize(d)
        case Large(n) => ptr == PageOf(ptr) * 4096 + 12 && s.live[ptr] + 12 <= n * 4096)
  }

  /** The blocks of the arena that are on its descriptor's free list. */
  function FreeSet(s: State, page: nat, d: nat): (r: set<nat>)
    requires d < |s.free|
  {
    set b | b in s.free[d] && PageOf(b) == page
  }

  ghost predicate ArenaOk(s: State, page: nat)
    requires page in s.arenas && |s.free| == DESC_CNT
  {
    match s.arenas[page]
    case Small(d, cnt) =>
      && d < DESC_CNT && cnt == |FreeSet(s, page, d)|
      && forall i :: 0 <= i < BlocksPer(d) ==> (BlockAddr(page, d, i) in s.free[d] || BlockAddr(page, d, i) in s.live)
    case Large(n) => n >= 1 && page * 4096 + 12 in s.live
  }

  ghost predicate PagesOk(s: State) {
    && (forall p :: p in s.arenas ==>
          s.base <= p && p + PagesOf(s.arenas[p]) <= s.base + |s.pool| && PagesOf(s.arenas[p]) >= 1
          && forall k :: p - s.base <= k < p - s.base + PagesOf(s.arenas[p]) ==> s.pool[k])
    && (forall p, q :: p in s.arenas && q in s.arenas && p < q ==> p + PagesOf(s.arenas[p]) <= q)
  }

  ghost predicate LivesOk(s: State) {
    forall ptr {:trigger LiveOk(s, ptr)} :: ptr in s.live ==> LiveOk(s, ptr)
  }

  ghost predicate ArenasOk(s: State)
    requires |s.free| == DESC_CNT
  {
    forall p {:trigger ArenaOk(s, p)} :: p in s.arenas ==> ArenaOk(s, p)
  }

  /** An arena with no live block has been given back: its count is never full. */
  ghost predicate SomeLive(s: State, except: set<nat>) {
    forall p :: p in s.arenas && p !in except && s.arenas[p].Small? ==> s.arenas[p].cnt < BlocksPer(s.arenas[p].desc)
  }

  /** Everything but `SomeLive`, which fails briefly for a new arena. */
  ghost predicate Core(s: State) {
    ListsOk(s) && LivesOk(s) && ArenasOk(s) && PagesOk(s)
  }

  ghost predicate Inv(s: State) {
    Core(s) && SomeLive(s, {})
  }

  lemma LiveIsFreeable(s: State, ptr: nat)
    requires Inv(s) && ptr in s.live
    ensures Freeable(s, ptr)
  {
    assert LiveOk(s, ptr);
  }

  /** When a block is popped its arena counts at least one free block. */
  lemma ListedIsTakeable(s: State, d: nat)
    requires ListsOk(s) && ArenasOk(s) && d < DESC_CNT && s.free[d] != []
    ensures Takeable(s, d)
  {
    var b := s.free[d][0];
    assert SmallAt(s, PageOf(b), d);
    assert ArenaOk(s, PageOf(b));
    assert b in FreeSet(s, PageOf(b), d);
  }

  lemma InvMallocable(s: State, size: nat, got: Grant)
    requires Inv(s) && PagesOffered(s, size, got)
    ensures Mallocable(s, size, got)
  {
    if 0 < size <= 1024 {
      var d := SizeClass(size);
      if s.free[d] != [] {
        ListedIsTakeable(s, d);
      } else if got.Pages? {
        BlockPage(s.base + got.start, d, 0);
      }
    }
  }

  lemma BlockPage(page: nat, d: nat, i: nat)
    requires d < DESC_CNT && i < BlocksPer(d)
    ensures PageOf(BlockAddr(page, d, i)) == page
    ensures BlockAddr(page, d, i) + BlockSize(d) <= (page + 1) * 4096
    ensures IsBlock(BlockAddr(page, d, i), d)
  {
    if d == 0 {} else if d == 1 {} else if d == 2 {} else if d == 3 {} else if d == 4 {} else if d == 5 {} else {}
  }

  lemma BlockInjective(page: nat, d: nat, i: nat, j: nat)
    requires d < DESC_CNT && i < j
    ensures BlockAddr(page, d, i) + BlockSize(d) <= BlockAddr(page, d, j)
  {
    if d == 0 {} else if d == 1 {} else if d == 2 {} else if d == 3 {} else if d == 4 {} else if d == 5 {} else {}
  }
}
