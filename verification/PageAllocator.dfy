/** The page allocator as it runs: page table words edited through the self-mapped window,
    pool bitmaps and virtual bitmaps updated in loops (kern/memory.c).  Every method is
    proved against the functions of Paging.dfy and Pages.dfy.

    `bitmap_scan` halts in an ASSERT when a bitmap is full; a method that can stop there
    returns `ok` false or `Halted`, and only then. */
module PageAllocator {
  import opened Bitmap
  import opened Paging
  import opened Pages

  /** Beyond: the run found ends one page behind the virtual pool (`Bitmap.ScanOverruns`). */
  datatype MallocResult = Halted | Null | Beyond | AtPage(page: nat)

  predicate Pooled(lay: Layout, f: nat) { lay.InPool(PF_KERNEL, f) || lay.InPool(PF_USER, f) }

  /** What `vaddr_get` does on a virtual pool with bits v and the bit `behind` just past them:
      halt in the scan or in the ASSERT at line 63, return NULL, run past the pool, or
      return a page. */
  function RunOf(lay: Layout, pf: Flag, v: seq<bool>, behind: bool, n: nat): (r: MallocResult) {
    match ScanSpec(v, behind, n)
    case Halt => Halted
    case Result(found) =>
      if found.None? then Null
      else if found.start + n > |v| then Beyond
      else if pf == PF_USER && (lay.uvbase + found.start) * 4096 >= 0xc0000000 - 4096 then Halted
      else AtPage(lay.VBase(pf) + found.start)
  }

  /** The exact causes. */
  lemma RunCauses(lay: Layout, pf: Flag, v: seq<bool>, behind: bool, n: nat)
    requires n >= 1
    ensures var r := RunOf(lay, pf, v, behind, n); var over := Overruns(v, behind, n); var fit := FirstFit(v, n);
            && (r.Beyond? <==> over)
            && (r.Null? <==> !Full(v) && !over && fit.None?)
            && (r.AtPage? ==> fit.At? && r.page == lay.VBase(pf) + fit.start)
            && (r.Halted? <==> Full(v) || (!over && fit.At? && pf == PF_USER && (lay.uvbase + fit.start) * 4096 >= 0xc0000000 - 4096))
  {
    if Full(v) { FullNone(v, n); } else { ScanCases(v, behind, n); }
  }

  /** A frame of a pool whose bit is clear is neither the directory nor a page table. */
  ghost predicate FreeUnused(m: Memory, dir: nat, lay: Layout, used: set<nat>) {
    forall f {:trigger Pooled(lay, f)} :: Pooled(lay, f) && f !in used ==> UnusedFrame(m, dir, f)
  }

  /** A directory that maps itself, names every table once and leaves everything mapped
      open to user mode and to writing. */
  ghost predicate Tidy(m: Memory, dir: nat, lo: nat) {
    WellFormed(m, dir) && NoAlias(m, dir, lo) && AllOpen(m, dir)
  }

  /** What page table edits need and keep. */
  ghost predicate TablesOk(m: Memory, dir: nat, lay: Layout, used: set<nat>) {
    Tidy(m, dir, lay.lo) && FreeUnused(m, dir, lay, used)
  }

  /** The state after one page was mapped: `tables` holds the frame of a new page table. */
  ghost predicate OnePage(lay: Layout, pf: Flag, frame: nat, tables: set<nat>, used: set<nat>) {
    && lay.InPool(pf, frame) && frame !in used && frame !in tables
    && tables !! used && forall f :: f in tables ==> lay.InPool(PF_KERNEL, f)
  }

  lemma AddedTablesOk(m: Memory, dir: nat, lay: Layout, used: set<nat>, p: Page, frame: nat, spare: nat, used': set<nat>)
    requires TablesOk(m, dir, lay, used) && Addable(m, dir, AddrOf(p), spare)
    requires used <= used' && (!HasTable(m, dir, AddrOf(p)) ==> spare in used')
    ensures TablesOk(Added(m, dir, AddrOf(p), frame, spare), dir, lay, used')
  {
    var v := AddrOf(p);
    var m' := Added(m, dir, v, frame, spare);
    AddedTranslate(m, dir, v, frame, spare, v);
    AddedNoAlias(m, dir, lay.lo, v, frame, spare);
    AddedOpen(m, dir, v, frame, spare);
    forall f | Pooled(lay, f) && f !in used' ensures UnusedFrame(m', dir, f) {
      AddedUnused(m, dir, v, frame, spare, f);
    }
  }

  /** The table frame taken by `page_table_add`, if any. */
  ghost function NewTables(m: Memory, dir: nat, v: Addr, spare: nat): (t: set<nat>) {
    if HasTable(m, dir, v) then {} else {spare}
  }

  lemma ZerosStep(m: Memory, frame: nat, k: nat)
    ensures (m + Zeros(frame, k))[PWord(frame, k) := 0] == m + Zeros(frame, k + 1)
  {
    var a, b := m + Zeros(frame, k), m + Zeros(frame, k + 1);
    assert Zeros(frame, k + 1) == Zeros(frame, k)[PWord(frame, k) := 0] by {
      forall i | 0 <= i < k ensures PWord(frame, i) in Zeros(frame, k) {}
    }
  }

  /** One word of v's page table set to 0, through the window. */
  lemma ZeroWord(m0: Memory, m: Memory, dir: nat, v: Addr, k: nat)
    requires WellFormed(m, dir) && !InWindow(v) && HasTable(m, dir, v) && k < 1024
    requires m == m0 + Zeros(TableOf(m, dir, v), k)
    ensures var w := AddrOf(PdeIdx(v) * 1024 + k); var m' := m[Slot(m, dir, w) := 0];
            && HasTable(m, dir, w) && WellFormed(m', dir)
            && HasTable(m', dir, v) && TableOf(m', dir, v) == TableOf(m, dir, v)
            && m' == m0 + Zeros(TableOf(m, dir, v), k + 1)
  {
    var w := AddrOf(PdeIdx(v) * 1024 + k);
    assert PdeIdx(w) == PdeIdx(v) && PteIdx(w) == k;
    SlotWriteSelf(m, dir, w, 0);
    SlotWriteDir(m, dir, w, 0, v);
    ZerosStep(m0, TableOf(m, dir, v), k);
  }

  /** The mapping, the frames in use, and those used as tables. */
  datatype Image = Image(mapping: map<nat, nat>, used: set<nat>, tables: set<nat>)

  /** What the loop of `malloc_page` has done after |frames| pages. */
  ghost predicate Run(lay: Layout, pf: Flag, page: nat, a: Image, b: Image, frames: seq<nat>, tables: set<nat>) {
    && b.mapping == a.mapping + PageMap(page, frames)
    && b.used == a.used + Elems(frames) + tables
    && b.tables == a.tables + tables
    && NewFrames(lay, a.used, pf, frames, tables)
    && Elems(frames) !! b.tables
  }

  lemma StartRun(lay: Layout, pf: Flag, page: nat, a: Image)
    ensures Run(lay, pf, page, a, a, [], {})
  {
    assert a.mapping + PageMap(page, []) == a.mapping;
    assert a.used + Elems([]) + {} == a.used;
  }

  lemma ExtendRun(lay: Layout, pf: Flag, page: nat, a: Image, b: Image, c: Image, frames: seq<nat>, tables: set<nat>, frame: nat, more: set<nat>)
    requires Run(lay, pf, page, a, b, frames, tables)
    requires c.mapping == b.mapping[page + |frames| := frame] && c.used == b.used + {frame} + more && c.tables == b.tables + more
    requires OnePage(lay, pf, frame, more, b.used) && frame !in c.tables
    ensures Run(lay, pf, page, a, c, frames + [frame], tables + more)
  {
    ExtendFrames(lay, a.used, pf, frames, tables, frame, more);
    ExtendMap(a.mapping, page, frames, frame);
    assert Elems(frames + [frame]) == Elems(frames) + {frame};
    assert Elems(frames) <= b.used;
  }

  /** What the loop has done, in terms of the whole space. */
  lemma RunMeans(lay: Layout, s: Space, pf: Flag, start: nat, a: Image, b: Image, frames: seq<nat>, tables: set<nat>)
    requires Run(lay, pf, lay.VBase(pf) + start, a, b, frames, tables) && a.mapping == s.mapping && a.used == s.used
    requires SpaceInv(lay, s) && start + |frames| <= |s.Virt(pf)|
    ensures var t := MallocSpace(lay, s, pf, start, frames, tables);
            SpaceInv(lay, t) && t.mapping == b.mapping && t.used == b.used
    ensures NewFrames(lay, s.used, pf, frames, tables) && Elems(frames) !! b.tables
  {
    MallocKeepsInv(lay, s, pf, start, frames, tables);
  }

  /** One more page in the loop of `malloc_page`. */
  lemma ExtendFrames(lay: Layout, used: set<nat>, pf: Flag, frames: seq<nat>, tables: set<nat>, frame: nat, more: set<nat>)
    requires NewFrames(lay, used, pf, frames, tables)
    requires OnePage(lay, pf, frame, more, used + Elems(frames) + tables)
    ensures NewFrames(lay, used, pf, frames + [frame], tables + more)
  {
    assert forall i :: 0 <= i < |frames| ==> frames[i] in Elems(frames);
  }

  lemma ExtendMap(g: map<nat, nat>, page: nat, frames: seq<nat>, frame: nat)
    ensures g + PageMap(page, frames + [frame]) == (g + PageMap(page, frames))[page + |frames| := frame]
  {
    var longer := frames + [frame];
    assert longer[..|longer| - 1] == frames;
  }

  lemma NextUnmapped(lay: Layout, pf: Flag, page: nat, a: Image, b: Image, frames: seq<nat>, tables: set<nat>, n: nat)
    requires Run(lay, pf, page, a, b, frames, tables)
    requires PageRange(page, n) !! a.mapping.Keys && |frames| < n
    ensures page + |frames| !in b.mapping
  {
    InPageMap(page, frames);
    InPageRange(page, n);
    assert page + |frames| in PageRange(page, n);
  }

  lemma NothingMapped(m: Memory, dir: nat, lo: nat)
    requires m == map[PWord(dir, 1023) := Entry(dir)]
    ensures Mapping(m, dir, lo) == map[] && AllOpen(m, dir)
  {
    forall v: Addr | !InWindow(v) ensures OpenAt(m, dir, v) { assert PdeIdx(v) < 1023; }
    forall q: Page | Managed(lo, q) ensures !Translate(m, dir, AddrOf(q)).Phys? {
      assert PdeIdx(AddrOf(q)) < 1023;
    }
    MappingUnique(m, dir, lo, map[]);
  }

  /** Memory, CR3, the two frame pools and the two virtual pools.  The kernel reaches page
      tables only by loads and stores through virtual addresses. */
  class Kernel {
    var mem: Memory
    var dir: nat
    /** The bitmaps of the frame pools and of the virtual pools, each with the byte of
        memory behind it, and their lengths in bytes. */
    var kbytes: seq<bv8>
    var ubytes: seq<bv8>
    var kvbytes: seq<bv8>
    var uvbytes: seq<bv8>
    const klen: nat
    const ulen: nat
    const kvlen: nat
    const uvlen: nat
    const lay: Layout

    /** Nothing mapped but the directory's own window, all frames and pages free. */
    constructor (layout: Layout, frame: nat, kb: nat, ub: nat, kv: nat, uv: nat)
      requires layout.Valid() && layout.lo * 1024 <= layout.uvbase && !Pooled(layout, frame)
      requires layout.klen == 8 * kb && layout.ulen == 8 * ub
      requires layout.uvbase + 8 * uv <= layout.kvbase && layout.kvbase + 8 * kv <= 0xffc00
      ensures Inv() && lay == layout && dir == frame && Abs().mapping == map[] && Used() == {}
    {
      lay, dir, klen, ulen, kvlen, uvlen := layout, frame, kb, ub, kv, uv;
      mem := map[PWord(frame, 1023) := Entry(frame)];
      kbytes, ubytes := seq(kb + 1, i => 0), seq(ub + 1, i => 0);
      kvbytes, uvbytes := seq(kv + 1, i => 0), seq(uv + 1, i => 0);
      new;
      NoBits(kb);
      NoBits(ub);
      NoBits(kv);
      NoBits(uv);
      InMarked(lay.kstart, KBits());
      InMarked(lay.ustart, UBits());
      assert Used() == {};
      NothingMapped(mem, dir, lay.lo);
    }

    ghost predicate Shaped()
      reads this
    {
      && lay.Valid() && lay.klen == 8 * klen && lay.ulen == 8 * ulen
      && klen < |kbytes| && ulen < |ubytes| && kvlen < |kvbytes| && uvlen < |uvbytes|
    }

    ghost function KBits(): (v: seq<bool>)
      requires Shaped()
      reads this
    {
      View(kbytes, 8 * klen)
    }

    ghost function UBits(): (v: seq<bool>)
      requires Shaped()
      reads this
    {
      View(ubytes, 8 * ulen)
    }

    ghost function PoolBits(pf: Flag): (v: seq<bool>)
      requires Shaped()
      reads this
    {
      if pf == PF_KERNEL then KBits() else UBits()
    }

    ghost function Virt(pf: Flag): (v: seq<bool>)
      requires Shaped()
      reads this
    {
      if pf == PF_KERNEL then View(kvbytes, 8 * kvlen) else View(uvbytes, 8 * uvlen)
    }

    /** The bit of memory just behind a virtual bitmap. */
    predicate Behind(pf: Flag)
      requires Shaped()
      reads this
    {
      if pf == PF_KERNEL then Bit(kvbytes, 8 * kvlen) else Bit(uvbytes, 8 * uvlen)
    }

    /** No frame is left in the pool itself, or in the kernel's for a page table, so
        `bitmap_scan` halts. */
    ghost predicate OutOfFrames(pf: Flag)
      requires Shaped()
      reads this
    {
      Full(PoolBits(pf)) || Full(KBits())
    }

    ghost function Used(): (u: set<nat>)
      requires Shaped()
      reads this
    {
      Marked(lay.kstart, KBits()) + Marked(lay.ustart, UBits())
    }

    ghost function Abs(): (s: Space)
      requires Shaped()
      reads this
    {
      Space(Virt(PF_KERNEL), Virt(PF_USER), Mapping(mem, dir, lay.lo), Used())
    }

    ghost function Now(): (i: Image)
      requires Shaped()
      reads this
    {
      Image(Mapping(mem, dir, lay.lo), Used(), TableFrames(mem, dir))
    }

    ghost predicate Inv()
      reads this
    {
      && Shaped() && lay.lo * 1024 <= lay.uvbase
      && TablesOk(mem, dir, lay, Used())
      && SpaceInv(lay, Abs())
    }

    /** A load through virtual address `v`; the caller shows that it does not fault. */
    method Load(v: Addr) returns (e: nat)
      requires Translate(mem, dir, v).Phys? && v % 4 == 0
      ensures e == Read(mem, WordOf(Translate(mem, dir, v)))
    {
      e := Read(mem, WordOf(Translate(mem, dir, v)));
    }

    method Store(v: Addr, e: nat)
      requires Translate(mem, dir, v).Phys? && v % 4 == 0
      modifies this`mem
      ensures mem == old(mem)[WordOf(Translate(old(mem), dir, v)) := e]
    {
      mem := mem[WordOf(Translate(mem, dir, v)) := e];
    }

    /** *pde_ptr(v) */
    method LoadPde(v: Addr) returns (e: nat)
      requires SelfMapped(mem, dir)
      ensures e == Read(mem, PdeSlot(dir, v))
    {
      PdeWord(mem, dir, v);
      e := Load(PdePtr(v));
    }

    method StorePde(v: Addr, e: nat)
      requires SelfMapped(mem, dir)
      modifies this`mem
      ensures mem == old(mem)[PdeSlot(dir, v) := e]
    {
      PdeWord(mem, dir, v);
      Store(PdePtr(v), e);
    }

    /** *pte_ptr(v) */
    method LoadPte(v: Addr) returns (e: nat)
      requires SelfMapped(mem, dir) && HasTable(mem, dir, v)
      ensures e == Read(mem, Slot(mem, dir, v))
    {
      PteWord(mem, dir, v);
      e := Load(PtePtr(v));
    }

    method StorePte(v: Addr, e: nat)
      requires SelfMapped(mem, dir) && HasTable(mem, dir, v)
      modifies this`mem
      ensures mem == old(mem)[Slot(old(mem), dir, v) := e]
    {
      PteWord(mem, dir, v);
      Store(PtePtr(v), e);
    }

    /** `pmalloc`: the least clear bit of the pool. */
    method Pmalloc(pf: Flag) returns (ok: bool, frame: nat)
      requires Shaped()
      modifies this`kbytes, this`ubytes
      ensures Shaped()
      ensures ok == !Full(old(PoolBits(pf)))
      ensures !ok ==> kbytes == old(kbytes) && ubytes == old(ubytes)
      ensures ok ==> lay.InPool(pf, frame) && frame !in old(Used()) && Used() == old(Used()) + {frame}
      ensures ok ==> forall f :: lay.InPool(pf, f) && f < frame ==> f in old(Used())
      ensures pf == PF_KERNEL ==> ubytes == old(ubytes)
      ensures pf == PF_USER ==> kbytes == old(kbytes)
    {
      var i;
      InMarked(lay.kstart, KBits());
      InMarked(lay.ustart, UBits());
      frame := 0;
      if pf == PF_KERNEL {
        ok, i, kbytes := TakeOne(kbytes, klen, lay.kstart);
        if ok { frame := lay.kstart + i; }
      } else {
        ok, i, ubytes := TakeOne(ubytes, ulen, lay.ustart);
        if ok { frame := lay.ustart + i; }
      }
    }

    /** memset of the page table of `v`, word by word, through the window. */
    method ZeroTable(v: Addr)
      requires WellFormed(mem, dir) && !InWindow(v) && HasTable(mem, dir, v)
      modifies this`mem
      ensures mem == old(mem) + Zeros(TableOf(old(mem), dir, v), 1024)
    {
      var k := 0;
      ghost var frame := TableOf(mem, dir, v);
      assert Zeros(frame, 0) == map[];
      while k < 1024
        invariant 0 <= k <= 1024 && WellFormed(mem, dir) && HasTable(mem, dir, v) && TableOf(mem, dir, v) == frame
        invariant mem == old(mem) + Zeros(frame, k)
      {
        var w := AddrOf(PdeIdx(v) * 1024 + k);
        ZeroWord(old(mem), mem, dir, v, k);
        StorePte(w, 0);
        k := k + 1;
      }
    }

    /** Lines 124-129: a frame of the kernel pool becomes v's page table. */
    method InstallTable(v: Addr) returns (ok: bool, ghost spare: nat)
      requires Shaped() && WellFormed(mem, dir) && !InWindow(v) && !HasTable(mem, dir, v)
      requires FreeUnused(mem, dir, lay, Used())
      modifies this`mem, this`kbytes, this`ubytes
      ensures Shaped() && ubytes == old(ubytes)
      ensures ok == !Full(old(KBits()))
      ensures !ok ==> kbytes == old(kbytes)
      ensures ok ==> UnusedFrame(old(mem), dir, spare) && mem == Installed(old(mem), dir, v, spare)
      ensures ok ==> WellFormed(mem, dir) && Translate(mem, dir, v) == Fault
      ensures ok ==> HasTable(mem, dir, v) && TableOf(mem, dir, v) == spare && Open(Read(mem, PdeSlot(dir, v)))
      ensures ok ==> lay.InPool(PF_KERNEL, spare) && spare !in old(Used()) && Used() == old(Used()) + {spare}
    {
      var taken, table := Pmalloc(PF_KERNEL);
      if !taken { return false, 0; }
      assert Pooled(lay, table);
      InstalledPde(mem, dir, v, table);
      InstalledWellFormed(mem, dir, v, table);
      StorePde(v, Entry(table));
      ZeroTable(v);
      return true, table;
    }

    /** `page_table_add`. */
    method PageTableAdd(v: Addr, frame: nat) returns (ok: bool, ghost spare: nat)
      requires Shaped() && WellFormed(mem, dir) && !InWindow(v) && !Translate(mem, dir, v).Phys?
      requires FreeUnused(mem, dir, lay, Used())
      modifies this`mem, this`kbytes, this`ubytes
      ensures Shaped() && ubytes == old(ubytes)
      ensures ok == (HasTable(old(mem), dir, v) || !Full(old(KBits())))
      ensures !ok ==> kbytes == old(kbytes)
      ensures ok ==> Addable(old(mem), dir, v, spare) && mem == Added(old(mem), dir, v, frame, spare)
      ensures ok ==> Translate(mem, dir, v) == Phys(frame, v % 4096) && Access(mem, dir, v) == FULL
      ensures ok && !HasTable(old(mem), dir, v) ==> lay.InPool(PF_KERNEL, spare) && spare !in old(Used())
      ensures ok ==> Used() == old(Used()) + NewTables(old(mem), dir, v, spare)
    {
      var pde := LoadPde(v);
      spare := 0;
      if !Present(pde) {
        var taken;
        taken, spare := InstallTable(v);
        if !taken { return false, 0; }
      }
      var pte := LoadPte(v);
      assert !Present(pte);                       // the ASSERTs at lines 111 and 130
      StorePte(v, Entry(frame));
      AddedTranslate(old(mem), dir, v, frame, spare, v);
      ok := true;
    }

    /** `get_a_page_without_opvaddrbitmap`, and the body of the loop of `malloc_page`: a
        frame of the pool for page `p`. */
    method GetAPage(pf: Flag, p: Page) returns (ok: bool, ghost frame: nat, ghost tables: set<nat>, ghost spare: nat)
      requires Shaped() && TablesOk(mem, dir, lay, Used()) && Managed(lay.lo, p) && p !in Mapping(mem, dir, lay.lo)
      modifies this`mem, this`kbytes, this`ubytes
      ensures Shaped()
      ensures !ok ==> Full(old(PoolBits(pf))) || (!HasTable(old(mem), dir, AddrOf(p)) && Full(KBits()))
      ensures !ok ==> OutOfFrames(pf)
      ensures Full(old(PoolBits(pf))) ==> !ok
      ensures ok ==> TablesOk(mem, dir, lay, Used()) && Access(mem, dir, AddrOf(p)) == FULL
      ensures ok ==> Mapping(mem, dir, lay.lo) == old(Mapping(mem, dir, lay.lo))[p := frame]
      ensures ok ==> Used() == old(Used()) + {frame} + tables && OnePage(lay, pf, frame, tables, old(Used()))
      ensures ok ==> mem == Added(old(mem), dir, AddrOf(p), frame, spare) && Addable(old(mem), dir, AddrOf(p), spare)
      ensures ok ==> tables == NewTables(old(mem), dir, AddrOf(p), spare)
      ensures ok ==> TableFrames(mem, dir) == TableFrames(old(mem), dir) + tables && frame !in TableFrames(mem, dir)
    {
      ghost var m, used := mem, Used();
      var got, page_phyaddr := Pmalloc(pf);
      frame, tables, spare := page_phyaddr, {}, 0;
      if !got { return false, frame, tables, 0; }
      assert Pooled(lay, frame);
      ok, spare := PageTableAdd(AddrOf(p), page_phyaddr);
      if ok {
        tables := NewTables(m, dir, AddrOf(p), spare);
        AddedTablesOk(m, dir, lay, used, p, frame, spare, Used());
        AddedMapping(m, dir, lay.lo, p, frame, spare);
        AddedTables(m, dir, AddrOf(p), frame, spare);
        assert UnusedFrame(m, dir, frame);
      }
    }

    /** `vaddr_get` up to the ASSERT at line 63: scan the virtual pool, then set the bits. */
    method VaddrGet(pf: Flag, n: nat) returns (got: ScanResult)
      requires Shaped() && n >= 1
      modifies this`kvbytes, this`uvbytes
      ensures Shaped() && got == ScanSpec(old(Virt(pf)), old(Behind(pf)), n)
      ensures !(got.Result? && got.found.At?) ==> kvbytes == old(kvbytes) && uvbytes == old(uvbytes)
      ensures got.Result? && got.found.At? ==> Virt(pf) == SetRange(old(Virt(pf)), got.found.start, n, true)
      ensures got.Result? && got.found.At? ==> Behind(pf) == (old(Behind(pf)) || got.found.start + n > |Virt(pf)|)
      ensures pf == PF_KERNEL ==> uvbytes == old(uvbytes)
      ensures pf == PF_USER ==> kvbytes == old(kvbytes)
    {
      if pf == PF_KERNEL {
        got, kvbytes := TakeRun(kvbytes, kvlen, n);
      } else {
        got, uvbytes := TakeRun(uvbytes, uvlen, n);
      }
    }

    /** The loop of `malloc_page`, lines 153-159. */
    method MapPages(pf: Flag, page: nat, n: nat) returns (ok: bool, ghost frames: seq<nat>, ghost tables: set<nat>)
      requires Shaped() && TablesOk(mem, dir, lay, Used())
      requires lay.lo * 1024 <= page && page + n <= 0xffc00 && PageRange(page, n) !! Mapping(mem, dir, lay.lo).Keys
      modifies this`mem, this`kbytes, this`ubytes
      ensures Shaped() && (!ok ==> OutOfFrames(pf))
      ensures ok ==> TablesOk(mem, dir, lay, Used()) && |frames| == n
      ensures ok ==> Run(lay, pf, page, old(Now()), Now(), frames, tables)
    {
      ghost var start := Now();
      frames, tables := [], {};
      StartRun(lay, pf, page, start);
      var cnt := 0;
      while cnt < n
        invariant 0 <= cnt <= n && |frames| == cnt && Shaped()
        invariant TablesOk(mem, dir, lay, Used())
        invariant Run(lay, pf, page, start, Now(), frames, tables)
      {
        ghost var before := Now();
        NextUnmapped(lay, pf, page, start, before, frames, tables, n);
        ghost var frame, more, spare;
        ok, frame, more, spare := GetAPage(pf, page + cnt);
        if !ok { return; }
        ExtendRun(lay, pf, page, start, before, Now(), frames, tables, frame, more);
        frames, tables := frames + [frame], tables + more;
        cnt := cnt + 1;
      }
      ok := true;
    }

    /** Lines 149-160: map the pages found. */
    method MapFound(pf: Flag, start: nat, n: nat, ghost s: Space) returns (ok: bool, ghost frames: seq<nat>, ghost tables: set<nat>)
      requires Shaped() && TablesOk(mem, dir, lay, Used()) && s.mapping == Mapping(mem, dir, lay.lo) && s.used == Used()
      requires lay.lo * 1024 <= lay.VBase(pf) && lay.VBase(pf) + start + n <= 0xffc00
      requires PageRange(lay.VBase(pf) + start, n) !! s.mapping.Keys
      requires SpaceInv(lay, s) && start + n <= |s.Virt(pf)|
      modifies this`mem, this`kbytes, this`ubytes
      ensures Shaped() && (!ok ==> OutOfFrames(pf))
      ensures ok ==> TablesOk(mem, dir, lay, Used()) && |frames| == n && Elems(frames) !! TableFrames(mem, dir)
      ensures ok ==> var t := MallocSpace(lay, s, pf, start, frames, tables);
                     SpaceInv(lay, t) && t.mapping == Mapping(mem, dir, lay.lo) && t.used == Used()
      ensures ok ==> NewFrames(lay, s.used, pf, frames, tables)
    {
      ok, frames, tables := MapPages(pf, lay.VBase(pf) + start, n);
      if ok { RunMeans(lay, s, pf, start, old(Now()), Now(), frames, tables); }
    }

    /** `vaddr_get` with its outcomes told apart. */
    method FindRun(pf: Flag, n: nat) returns (r: MallocResult, start: nat)
      requires Shaped() && n >= 1
      modifies this`kvbytes, this`uvbytes
      ensures Shaped() && r == RunOf(lay, pf, old(Virt(pf)), old(Behind(pf)), n)
      ensures r.Null? ==> kvbytes == old(kvbytes) && uvbytes == old(uvbytes)
      ensures r.AtPage? ==> FirstFit(old(Virt(pf)), n) == At(start) && r.page == lay.VBase(pf) + start
      ensures r.AtPage? ==> Virt(pf) == SetRange(old(Virt(pf)), start, n, true)
      ensures pf == PF_KERNEL ==> uvbytes == old(uvbytes)
      ensures pf == PF_USER ==> kvbytes == old(kvbytes)
    {
      RunCauses(lay, pf, Virt(pf), Behind(pf), n);
      start := 0;
      var got := VaddrGet(pf, n);
      if got.Halt? { r := Halted; return; }
      if got.found.None? { r := MallocResult.Null; return; }
      start := got.found.start;
      if start + n > 8 * (if pf == PF_KERNEL then kvlen else uvlen) { r := Beyond; return; }
      if pf == PF_USER && (lay.uvbase + start) * 4096 >= 0xc0000000 - 4096 { r := Halted; return; }     // the ASSERT at line 63
      r := AtPage(lay.VBase(pf) + start);
    }

    /** s is the space before the virtual bits of the run were set. */
    ghost predicate RunSet(pf: Flag, start: nat, n: nat, s: Space)
      requires Shaped()
      reads this
    {
      && s.mapping == Mapping(mem, dir, lay.lo) && s.used == Used()
      && Virt(pf) == SetRange(s.Virt(pf), start, n, true)
      && (pf == PF_KERNEL ==> Virt(PF_USER) == s.uvirt) && (pf == PF_USER ==> Virt(PF_KERNEL) == s.kvirt)
    }

    /** Lines 149-160, with what they mean for the whole space. */
    method MapRun(pf: Flag, start: nat, n: nat, ghost s: Space) returns (ok: bool, ghost frames: seq<nat>, ghost tables: set<nat>)
      requires Shaped() && TablesOk(mem, dir, lay, Used()) && lay.lo * 1024 <= lay.uvbase
      requires SpaceInv(lay, s) && FirstFit(s.Virt(pf), n) == At(start) && RunSet(pf, start, n, s)
      modifies this`mem, this`kbytes, this`ubytes
      ensures Shaped() && (!ok ==> OutOfFrames(pf))
      ensures ok ==> Inv() && |frames| == n && Elems(frames) !! TableFrames(mem, dir) && NewFrames(lay, s.used, pf, frames, tables)
      ensures ok ==> Abs() == MallocSpace(lay, s, pf, start, frames, tables)
    {
      FoundRoom(lay, s, pf, n, start);
      ok, frames, tables := MapFound(pf, start, n, s);
      if ok { MallocShape(lay, s, pf, start, frames, tables); }
    }

    /** `malloc_page`: `frames` are the frames given to the pages, `tables` those taken for
        page tables.  It does what the scan says, unless it halts for lack of frames. */
    method MallocPage(pf: Flag, n: nat) returns (r: MallocResult, ghost frames: seq<nat>, ghost tables: set<nat>)
      requires Inv() && 0 < n < 3840
      modifies this`mem, this`kbytes, this`ubytes, this`kvbytes, this`uvbytes
      ensures Shaped() && RanOrStopped(pf, old(Virt(pf)), old(Behind(pf)), n, r)
      ensures r.Null? ==> Abs() == old(Abs()) && Inv()
      ensures r.AtPage? ==>
                var got := FirstFit(old(Virt(pf)), n);
                && got.At? && r.page == lay.VBase(pf) + got.start && |frames| == n
                && NewFrames(lay, old(Used()), pf, frames, tables)
                && Abs() == MallocSpace(lay, old(Abs()), pf, got.start, frames, tables)
                && Inv()
                && Elems(frames) !! TableFrames(mem, dir)
    {
      ghost var s := Abs();
      frames, tables := [], {};
      var start;
      r, start := FindRun(pf, n);
      if !r.AtPage? { return; }
      var ok;
      ok, frames, tables := MapRun(pf, start, n, s);
      if !ok { r := Halted; }
    }

    /** The outcome of the scan, or a halt because a pool has no frame left. */
    ghost predicate RanOrStopped(pf: Flag, v: seq<bool>, behind: bool, n: nat, r: MallocResult)
      requires Shaped()
      reads this
    {
      r == RunOf(lay, pf, v, behind, n) || (r.Halted? && RunOf(lay, pf, v, behind, n).AtPage? && OutOfFrames(pf))
    }

    /** `addr_v2p` agrees with the hardware walk on every mapped address. */
    method AddrV2p(v: Addr) returns (a: nat)
      requires SelfMapped(mem, dir) && Translate(mem, dir, v).Phys?
      ensures a == Translate(mem, dir, v).frame * 4096 + Translate(mem, dir, v).offset
    {
      var pte := LoadPte(v);
      a := pte / 4096 * 4096 + v % 4096;
    }

    /** `page_table_pte_remove`. */
    method PteRemove(v: Addr)
      requires SelfMapped(mem, dir) && Translate(mem, dir, v).Phys?
      modifies this`mem
      ensures mem == Removed(old(mem), dir, v)
    {
      var pte := LoadPte(v);
      StorePte(v, pte - pte % 2);
    }

    /** `pfree`: the pool is found from the address alone. */
    method Pfree(a: nat)
      requires Shaped() && Pooled(lay, a / 4096) && a % 4096 == 0
      modifies this`kbytes, this`ubytes
      ensures Shaped() && Used() == old(Used()) - {a / 4096}
    {
      InMarked(lay.kstart, KBits());
      InMarked(lay.ustart, UBits());
      if a >= lay.ustart * 4096 {
        ubytes := GiveOne(ubytes, ulen, (a - lay.ustart * 4096) / 4096, lay.ustart);
      } else {
        kbytes := GiveOne(kbytes, klen, (a - lay.kstart * 4096) / 4096, lay.kstart);
      }
    }

    /** The body of the loops of `mfree_page`. */
    method FreeOne(p: Page, a: nat)
      requires Shaped() && Tidy(mem, dir, lay.lo) && Managed(lay.lo, p) && p in Mapping(mem, dir, lay.lo)
      requires a == Mapping(mem, dir, lay.lo)[p] * 4096 && Pooled(lay, a / 4096)
      modifies this`mem, this`kbytes, this`ubytes
      ensures Shaped() && Tidy(mem, dir, lay.lo)
      ensures Now() == Image(old(Now()).mapping - {p}, old(Used()) - {a / 4096}, old(Now()).tables)
    {
      Pfree(a);
      assert Translate(mem, dir, AddrOf(p)).Phys?;
      RemovedTranslate(mem, dir, AddrOf(p), AddrOf(p));
      RemovedMapping(mem, dir, lay.lo, p);
      RemovedOpen(mem, dir, AddrOf(p));
      RemovedTables(mem, dir, lay.lo, p);
      PteRemove(AddrOf(p));
    }

    /** `vaddr_remove`. */
    method VaddrRemove(pf: Flag, start: nat, n: nat)
      requires Shaped() && start + n <= |Virt(pf)|
      modifies this`kvbytes, this`uvbytes
      ensures Shaped() && Virt(pf) == SetRange(old(Virt(pf)), start, n, false)
      ensures pf == PF_KERNEL ==> uvbytes == old(uvbytes)
      ensures pf == PF_USER ==> kvbytes == old(kvbytes)
    {
      if pf == PF_KERNEL {
        kvbytes := PutRange(kvbytes, kvlen, start, n, false);
      } else {
        uvbytes := PutRange(uvbytes, uvlen, start, n, false);
      }
    }

    /** `addr_v2p` of the start of a mapped page. */
    method FrameAddr(p: Page) returns (a: nat)
      requires SelfMapped(mem, dir) && Managed(lay.lo, p) && p in Mapping(mem, dir, lay.lo)
      ensures a == Mapping(mem, dir, lay.lo)[p] * 4096
    {
      assert Translate(mem, dir, AddrOf(p)).Phys?;
      a := AddrV2p(AddrOf(p));
    }

    /** The loops of `mfree_page`, lines 512-525 and 534-551: the first page decides which
        pool every page must come from. */
    method UnmapPages(pf: Flag, page: nat, n: nat)
      requires Shaped() && Tidy(mem, dir, lay.lo) && n >= 1
      requires lay.lo * 1024 <= page && page + n <= 0xffc00
      requires Releasable(lay, pf, page, n, Now())
      modifies this`mem, this`kbytes, this`ubytes
      ensures Shaped() && Tidy(mem, dir, lay.lo)
      ensures Unmapped(page, n, old(Now()), Now())
    {
      ghost var start := Now();
      FirstPage(lay, pf, page, n, start);
      var first := FrameAddr(page);
      PoolAddr(lay, pf, start.mapping[page]);
      assert first % 4096 == 0 && first >= 0x102000;              // the ASSERT at line 507
      var user := first >= lay.ustart * 4096;
      var cnt := 0;
      NothingUnmapped(page, start);
      while cnt < n
        invariant 0 <= cnt <= n && Shaped()
        invariant Tidy(mem, dir, lay.lo)
        invariant Unmapped(page, cnt, start, Now())
      {
        ghost var before := Now();
        NextToUnmap(lay, pf, page, n, start, before, cnt);
        var a := FrameAddr(page + cnt);
        PoolAddr(lay, pf, before.mapping[page + cnt]);
        // the ASSERTs at lines 519 and 542-544
        assert a % 4096 == 0 && (if user then a >= lay.ustart * 4096 else lay.kstart * 4096 <= a < lay.ustart * 4096);
        FreeOne(page + cnt, a);
        UnmapStep(page, cnt, start, before, Now());
        cnt := cnt + 1;
      }
    }

    /** `mfree_page` on pages that are allocated.  The invariant survives exactly if none of
        them backs the directory in use or one of its page tables. */
    method MfreePage(pf: Flag, start: nat, n: nat)
      requires Inv() && n >= 1 && AllSet(Virt(pf), start, n)
      modifies this`mem, this`kbytes, this`ubytes, this`kvbytes, this`uvbytes
      ensures Shaped() && Abs() == FreeSpace(lay, old(Abs()), pf, start, n)
      ensures Inv() <==> ClearOfTables(old(Abs()).mapping, lay.VBase(pf) + start, n, old(TableFrames(mem, dir)))
    {
      ghost var s, a, m := Abs(), Now(), mem;
      CanRelease(lay, s, pf, start, n, a);
      FreeKeepsInv(lay, s, pf, start, n);
      ghost var b := ReleaseRun(pf, start, n);
      FreedTables(lay, s, pf, start, n, m, mem, dir, a, b);
    }

    /** Both halves of `mfree_page`: the frames and the entries, then the virtual bits. */
    method ReleaseRun(pf: Flag, start: nat, n: nat) returns (ghost b: Image)
      requires Shaped() && Tidy(mem, dir, lay.lo) && n >= 1 && AllSet(Virt(pf), start, n)
      requires lay.lo * 1024 <= lay.VBase(pf) && lay.VBase(pf) + start + n <= 0xffc00
      requires Releasable(lay, pf, lay.VBase(pf) + start, n, Now())
      modifies this`mem, this`kbytes, this`ubytes, this`kvbytes, this`uvbytes
      ensures Shaped() && Tidy(mem, dir, lay.lo)
      ensures Unmapped(lay.VBase(pf) + start, n, old(Now()), b) && b.tables == TableFrames(mem, dir) && b.used == Used()
      ensures Abs() == FreeSpace(lay, old(Abs()), pf, start, n)
    {
      UnmapPages(pf, lay.VBase(pf) + start, n);
      b := Now();
      VaddrRemove(pf, start, n);
    }

    /** Allocating pages and freeing them again, through both loops: everything is restored
        but the frames that are page tables now; the user frame pool is restored exactly. */
    method AllocateAndRelease(pf: Flag, n: nat) returns (r: MallocResult, ghost tables: set<nat>)
      requires Inv() && 0 < n < 3840
      modifies this`mem, this`kbytes, this`ubytes, this`kvbytes, this`uvbytes
      ensures Shaped() && (r.AtPage? || RanOrStopped(pf, old(Virt(pf)), old(Behind(pf)), n, r))
      ensures r.AtPage? ==> r == RunOf(lay, pf, old(Virt(pf)), old(Behind(pf)), n)
      ensures r.Null? ==> Inv() && Abs() == old(Abs())
      ensures r.AtPage? ==> Inv() && Abs() == old(Abs()).(used := old(Used()) + tables)
      ensures r.AtPage? ==> tables !! old(Used()) && forall f :: f in tables ==> lay.InPool(PF_KERNEL, f)
    {
      ghost var s := Abs();
      var start;
      ghost var frames;
      r, start, frames, tables := AllocateAt(pf, n);
      if r.AtPage? {
        Restored(lay, s, Abs(), pf, start, n, frames, tables, TableFrames(mem, dir));
        MfreePage(pf, start, n);
      }
    }

    /** `malloc_page`, with the place of the pages in their pool. */
    method AllocateAt(pf: Flag, n: nat) returns (r: MallocResult, start: nat, ghost frames: seq<nat>, ghost tables: set<nat>)
      requires Inv() && 0 < n < 3840
      modifies this`mem, this`kbytes, this`ubytes, this`kvbytes, this`uvbytes
      ensures Shaped() && (r.AtPage? || RanOrStopped(pf, old(Virt(pf)), old(Behind(pf)), n, r))
      ensures r.AtPage? ==> r == RunOf(lay, pf, old(Virt(pf)), old(Behind(pf)), n)
      ensures r.Null? ==> Inv() && Abs() == old(Abs())
      ensures r.AtPage? ==> Inv() && FirstFit(old(Virt(pf)), n) == At(start) && |frames| == n && NewFrames(lay, old(Used()), pf, frames, tables)
      ensures r.AtPage? ==> Abs() == MallocSpace(lay, old(Abs()), pf, start, frames, tables) && Elems(frames) !! TableFrames(mem, dir)
    {
      r, frames, tables := MallocPage(pf, n);
      start := if r.AtPage? then r.page - lay.VBase(pf) else 0;
    }
  }

  /** What `malloc_page` returned may be given to `mfree_page`, which restores the space. */
  lemma Restored(lay: Layout, s: Space, t: Space, pf: Flag, start: nat, n: nat, frames: seq<nat>, tables: set<nat>, tabs: set<nat>)
    requires n == |frames| && t == MallocSpace(lay, s, pf, start, frames, tables) && FirstFit(s.Virt(pf), n) == At(start)
    requires SpaceInv(lay, s) && NewFrames(lay, s.used, pf, frames, tables) && Elems(frames) !! tabs
    ensures AllSet(t.Virt(pf), start, n)
    ensures ClearOfTables(t.mapping, lay.VBase(pf) + start, n, tabs)
    ensures FreeSpace(lay, t, pf, start, n) == s.(used := s.used + tables)
    ensures tables !! s.used && forall f :: f in tables ==> lay.InPool(PF_KERNEL, f)
  {
    InPageMap(lay.VBase(pf) + start, frames);
    MallocThenFree(lay, s, pf, start, frames, tables);
  }

  ghost predicate AllSet(v: seq<bool>, start: nat, n: nat) {
    start + n <= |v| && forall i :: start <= i < start + n ==> v[i]
  }

  /** No page of the run is backed by a page table or the directory. */
  ghost predicate ClearOfTables(g: map<nat, nat>, page: nat, n: nat, tabs: set<nat>) {
    forall p {:trigger g[p]} :: page <= p < page + n && p in g ==> g[p] !in tabs
  }

  /** The n pages from `page` on are mapped, to frames of pool `pf`. */
  ghost predicate Releasable(lay: Layout, pf: Flag, page: nat, n: nat, a: Image) {
    lay.Valid() && Injective(a.mapping) && forall p {:trigger lay.InPool(pf, a.mapping[p])} :: page <= p < page + n ==>
      p in a.mapping && lay.InPool(pf, a.mapping[p])
  }

  ghost predicate Unmapped(page: nat, n: nat, a: Image, b: Image) {
    b == Image(a.mapping - PageRange(page, n), a.used - Values(a.mapping, PageRange(page, n)), a.tables)
  }

  lemma NothingUnmapped(page: nat, a: Image)
    ensures Unmapped(page, 0, a, a)
  {
    assert a.mapping - {} == a.mapping;
  }

  lemma FirstPage(lay: Layout, pf: Flag, page: nat, n: nat, a: Image)
    requires Releasable(lay, pf, page, n, a) && n >= 1
    ensures page in a.mapping && lay.InPool(pf, a.mapping[page])
  {
    assert lay.InPool(pf, a.mapping[page]);
  }

  /** The address of a frame tells its pool. */
  lemma PoolAddr(lay: Layout, pf: Flag, f: nat)
    requires lay.Valid() && lay.InPool(pf, f)
    ensures Pooled(lay, f) && f * 4096 / 4096 == f && f * 4096 % 4096 == 0 && f * 4096 >= 0x102000
    ensures f * 4096 >= lay.ustart * 4096 <==> pf == PF_USER
    ensures pf == PF_KERNEL ==> lay.kstart * 4096 <= f * 4096
  {
  }

  lemma NextToUnmap(lay: Layout, pf: Flag, page: nat, n: nat, a: Image, b: Image, k: nat)
    requires Releasable(lay, pf, page, n, a) && Unmapped(page, k, a, b) && k < n
    ensures page + k in b.mapping && page + k in a.mapping && b.mapping[page + k] == a.mapping[page + k]
    ensures lay.InPool(pf, b.mapping[page + k])
  {
    InPageRange(page, k);
    assert lay.InPool(pf, a.mapping[page + k]);
  }

  lemma UnmapStep(page: nat, k: nat, a: Image, b: Image, c: Image)
    requires Unmapped(page, k, a, b) && page + k in b.mapping && page + k in a.mapping
    requires c == Image(b.mapping - {page + k}, b.used - {b.mapping[page + k]}, b.tables)
    ensures Unmapped(page, k + 1, a, c)
  {
    InPageRange(page, k);
    assert PageRange(page, k + 1) == PageRange(page, k) + {page + k};
    assert c.mapping == a.mapping - PageRange(page, k + 1);
    assert Values(a.mapping, PageRange(page, k + 1)) == Values(a.mapping, PageRange(page, k)) + {a.mapping[page + k]};
  }

  lemma CanRelease(lay: Layout, s: Space, pf: Flag, start: nat, n: nat, a: Image)
    requires SpaceInv(lay, s) && AllSet(s.Virt(pf), start, n) && a.mapping == s.mapping
    ensures Releasable(lay, pf, lay.VBase(pf) + start, n, a)
  {
    var page := lay.VBase(pf) + start;
    InPageRange(page, n);
    forall p | page <= p < page + n
      ensures p in a.mapping && lay.InPool(pf, a.mapping[p])
    {
      assert BitAt(lay.VBase(pf), s.Virt(pf), p);
    }
  }

  /** What a successful first fit means for the map. */
  lemma FoundRoom(lay: Layout, s: Space, pf: Flag, n: nat, start: nat)
    requires SpaceInv(lay, s) && lay.lo * 1024 <= lay.uvbase && FirstFit(s.Virt(pf), n) == At(start)
    ensures var page := lay.VBase(pf) + start;
            lay.lo * 1024 <= page && page + n <= 0xffc00 && PageRange(page, n) !! s.mapping.Keys
  {
    ClearUnmapped(s.mapping, lay.VBase(pf), s.Virt(pf), start, n);
  }

  /** What a scan of a virtual pool means. */
  lemma ScanCases(v: seq<bool>, behind: bool, n: nat)
    requires n >= 1 && !Full(v)
    ensures !Overruns(v, behind, n) ==> ScanSpec(v, behind, n) == Result(FirstFit(v, n))
  {
    if !Overruns(v, behind, n) { ScanInside(v, behind, n); }
  }

  /** With the last page taken, as the user stack is, or the bit behind set, no run passes
      the end, and none starts on the stack page. */
  lemma GuardedPool(lay: Layout, v: seq<bool>, behind: bool, n: nat)
    requires n >= 1 && v != [] && (v[|v| - 1] || behind) && !Full(v)
    ensures !Overruns(v, behind, n)
    ensures v[|v| - 1] && lay.uvbase + |v| <= 0xc0000 && FirstFit(v, n).At? ==> (lay.uvbase + FirstFit(v, n).start) * 4096 < 0xc0000000 - 4096
  {
    ScanExact(v, behind, n);
    var f := FirstFit(v, n);
    assert f.At? ==> !v[f.start];
  }

  /** Freed frames break the rule that free frames are no tables exactly if one is. */
  lemma FreedTables(lay: Layout, s: Space, pf: Flag, start: nat, n: nat, m: Memory, m': Memory, dir: nat, a: Image, b: Image)
    requires Releasable(lay, pf, lay.VBase(pf) + start, n, a) && Unmapped(lay.VBase(pf) + start, n, a, b)
    requires a.mapping == s.mapping && a.tables == TableFrames(m, dir) && b.tables == TableFrames(m', dir)
    requires FreeUnused(m, dir, lay, a.used) && Backed(lay, a.mapping, a.used)
    ensures FreeUnused(m', dir, lay, b.used) <==> ClearOfTables(s.mapping, lay.VBase(pf) + start, n, a.tables)
  {
    var page := lay.VBase(pf) + start;
    InPageRange(page, n);
    if FreeUnused(m', dir, lay, b.used) {
      forall p | page <= p < page + n && p in s.mapping ensures s.mapping[p] !in a.tables {
        assert lay.InPool(pf, a.mapping[p]);
        assert Pooled(lay, a.mapping[p]) && a.mapping[p] in Values(a.mapping, PageRange(page, n));
        assert UnusedFrame(m', dir, a.mapping[p]);
      }
    }
    if ClearOfTables(s.mapping, page, n, a.tables) {
      forall f | Pooled(lay, f) && f !in b.used ensures UnusedFrame(m', dir, f) {
        if f !in a.used {
          assert UnusedFrame(m, dir, f);
        }
        assert f !in a.tables;
      }
    }
  }

  lemma NoBits(len: nat)
    ensures View(seq(len + 1, i => 0), 8 * len) == seq(8 * len, i => false)
  {
    var bytes: seq<bv8> := seq(len + 1, i => 0);
    var v: seq<bool> := seq(8 * len, i => false);
    forall i | 0 <= i < 8 * len ensures v[i] == Bit(bytes, i) {
      assert bytes[i / 8] == 0;
    }
    ViewIs(bytes, v);
  }

  lemma InstalledPde(m: Memory, dir: nat, v: Addr, table: nat)
    requires WellFormed(m, dir) && !InWindow(v) && UnusedFrame(m, dir, table)
    ensures var m' := m[PdeSlot(dir, v) := Entry(table)];
            WellFormed(m', dir) && HasTable(m', dir, v) && TableOf(m', dir, v) == table
  {
  }
}
