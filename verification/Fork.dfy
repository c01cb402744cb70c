/** The address space copy of `fork`: `create_page_dir` (userproc/process.c) and
    `copy_body_stack3` (userproc/fork.c).

    Two page directories share one physical memory.  Pages are copied word by word through
    virtual addresses, by way of a kernel buffer page, switching CR3 in between. */
module Fork {
  import opened Bitmap
  import opened Paging
  import opened Pages
  import opened PageAllocator

  // ----- memory changed in some frames only ---------------------------------------------------

  /** m and n agree outside the frames in `x`. */
  ghost predicate SameOutside(m: Memory, n: Memory, x: set<nat>) {
    forall a: PWord {:trigger Read(n, a)} :: a.frame !in x ==> Read(n, a) == Read(m, a)
  }

  /** A directory none of whose tables changed translates as before. */
  lemma SameTranslate(m: Memory, n: Memory, x: set<nat>, dir: nat, v: Addr)
    requires SameOutside(m, n, x) && x !! TableFrames(m, dir) && !InWindow(v)
    ensures Translate(n, dir, v) == Translate(m, dir, v) && Access(n, dir, v) == Access(m, dir, v)
  {
    assert !UnusedFrame(m, dir, dir);
    assert Read(n, PdeSlot(dir, v)) == Read(m, PdeSlot(dir, v));
    if HasTable(m, dir, v) {
      assert Present(Read(m, PWord(dir, PdeIdx(v))));
      assert !UnusedFrame(m, dir, TableOf(m, dir, v));
      assert Read(n, Slot(m, dir, v)) == Read(m, Slot(m, dir, v));
    }
  }

  lemma SameDirectory(m: Memory, n: Memory, x: set<nat>, dir: nat, i: nat)
    requires SameOutside(m, n, x) && x !! TableFrames(m, dir)
    ensures Read(n, PWord(dir, i)) == Read(m, PWord(dir, i))
  {
    assert !UnusedFrame(m, dir, dir);
  }

  lemma SameUnused(m: Memory, n: Memory, x: set<nat>, dir: nat, f: nat)
    requires SameOutside(m, n, x) && x !! TableFrames(m, dir)
    ensures UnusedFrame(n, dir, f) <==> UnusedFrame(m, dir, f)
  {
    forall i ensures Read(n, PWord(dir, i)) == Read(m, PWord(dir, i)) { SameDirectory(m, n, x, dir, i); }
  }

  lemma SameTables(m: Memory, n: Memory, x: set<nat>, dir: nat, lay: Layout, used: set<nat>, used': set<nat>)
    requires SameOutside(m, n, x) && x !! TableFrames(m, dir) && TablesOk(m, dir, lay, used) && used <= used'
    ensures TablesOk(n, dir, lay, used') && TableFrames(n, dir) == TableFrames(m, dir)
  {
    forall i ensures Read(n, PWord(dir, i)) == Read(m, PWord(dir, i)) { SameDirectory(m, n, x, dir, i); }
    forall f ensures f in TableFrames(n, dir) <==> f in TableFrames(m, dir) {
      SameUnused(m, n, x, dir, f);
      assert f in TableFrames(n, dir) <==> !UnusedFrame(n, dir, f);
      assert f in TableFrames(m, dir) <==> !UnusedFrame(m, dir, f);
    }
    forall f | Pooled(lay, f) && f !in used' ensures UnusedFrame(n, dir, f) { SameUnused(m, n, x, dir, f); }
    SameOpen(m, n, x, dir);
  }

  lemma SameOpen(m: Memory, n: Memory, x: set<nat>, dir: nat)
    requires SameOutside(m, n, x) && x !! TableFrames(m, dir) && AllOpen(m, dir)
    ensures AllOpen(n, dir)
  {
    forall v: Addr | !InWindow(v) ensures OpenAt(n, dir, v) {
      SameTranslate(m, n, x, dir, v);
      assert OpenAt(m, dir, v);
    }
  }

  lemma SameMapping(m: Memory, n: Memory, x: set<nat>, dir: nat, lo: nat)
    requires SameOutside(m, n, x) && x !! TableFrames(m, dir)
    ensures Mapping(n, dir, lo) == Mapping(m, dir, lo)
  {
    var g := Mapping(m, dir, lo);
    forall q: Page | Managed(lo, q)
      ensures (q in g <==> Translate(n, dir, AddrOf(q)).Phys?) && (q in g ==> g[q] == Translate(n, dir, AddrOf(q)).frame)
    {
      SameTranslate(m, n, x, dir, AddrOf(q));
    }
    forall q: nat | q in g ensures q < 0x100000 && Managed(lo, q) { assert Managed(lo, q); }
    MappingUnique(n, dir, lo, g);
  }

  /** `page_table_add` writes the directory and one page table, nothing else. */
  lemma AddedOutside(m: Memory, dir: nat, v: Addr, frame: nat, spare: nat)
    requires Addable(m, dir, v, spare)
    ensures SameOutside(m, Added(m, dir, v, frame, spare), {dir, if HasTable(m, dir, v) then TableOf(m, dir, v) else spare})
  {
    if !HasTable(m, dir, v) {
      InstalledWellFormed(m, dir, v, spare);
      forall a: PWord | a.frame != spare && a.frame != dir ensures Read(Added(m, dir, v, frame, spare), a) == Read(m, a) {
        InstalledRead(m, dir, v, spare, a);
      }
    }
  }

  // ----- copying a page -----------------------------------------------------------------------------

  /** Word i of a page. */
  function WordAddr(p: Page, i: nat): (v: Addr)
    requires i < 1024
    ensures v / 4096 == p && v % 4096 == 4 * i && v % 4 == 0
  {
    p * 4096 + 4 * i
  }

  lemma WordWalk(m: Memory, dir: nat, p: Page, i: nat)
    requires i < 1024
    ensures PdeIdx(WordAddr(p, i)) == PdeIdx(AddrOf(p)) && PteIdx(WordAddr(p, i)) == PteIdx(AddrOf(p))
    ensures Translate(m, dir, AddrOf(p)).Phys? ==>
              Translate(m, dir, WordAddr(p, i)) == Phys(Translate(m, dir, AddrOf(p)).frame, 4 * i)
  {
    SamePage(AddrOf(p), WordAddr(p, i));
  }

  /** `n` is `m` with the first k words of frame `from` copied to frame `to`. */
  ghost predicate Copied(m: Memory, n: Memory, from: nat, to: nat, k: nat) {
    forall a: PWord {:trigger Read(n, a)} :: Read(n, a) == if a.frame == to && a.idx < k then Read(m, PWord(from, a.idx)) else Read(m, a)
  }

  lemma CopiedOutside(m: Memory, n: Memory, from: nat, to: nat, k: nat)
    requires Copied(m, n, from, to, k)
    ensures SameOutside(m, n, {to})
  {
  }

  /** memcpy(dst, src, PG_SIZE), through the active directory. */
  method CopyPage(k: Kernel, dst: Page, src: Page)
    requires !InWindow(AddrOf(dst)) && !InWindow(AddrOf(src))
    requires Translate(k.mem, k.dir, AddrOf(dst)).Phys? && Translate(k.mem, k.dir, AddrOf(src)).Phys?
    requires Translate(k.mem, k.dir, AddrOf(dst)).frame !in TableFrames(k.mem, k.dir)
    requires Translate(k.mem, k.dir, AddrOf(dst)).frame != Translate(k.mem, k.dir, AddrOf(src)).frame
    modifies k`mem
    ensures Copied(old(k.mem), k.mem, Translate(old(k.mem), k.dir, AddrOf(src)).frame, Translate(old(k.mem), k.dir, AddrOf(dst)).frame, 1024)
  {
    ghost var m := k.mem;
    ghost var to, from := Translate(m, k.dir, AddrOf(dst)).frame, Translate(m, k.dir, AddrOf(src)).frame;
    var i := 0;
    while i < 1024
      invariant 0 <= i <= 1024
      invariant Copied(m, k.mem, from, to, i)
    {
      CopiedOutside(m, k.mem, from, to, i);
      SameTranslate(m, k.mem, {to}, k.dir, AddrOf(src));
      SameTranslate(m, k.mem, {to}, k.dir, AddrOf(dst));
      WordWalk(k.mem, k.dir, src, i);
      WordWalk(k.mem, k.dir, dst, i);
      var w := k.Load(WordAddr(src, i));
      ghost var before := k.mem;
      k.Store(WordAddr(dst, i), w);
      CopyStep(m, before, k.mem, from, to, i, w);
      i := i + 1;
    }
  }

  lemma CopyStep(m: Memory, b: Memory, n: Memory, from: nat, to: nat, i: nat, w: nat)
    requires Copied(m, b, from, to, i) && from != to && w == Read(b, PWord(from, i)) && n == b[PWord(to, i) := w]
    ensures Copied(m, n, from, to, i + 1)
  {
    forall a: PWord ensures Read(n, a) == if a.frame == to && a.idx < i + 1 then Read(m, PWord(from, a.idx)) else Read(m, a) {
      assert Read(n, a) == if a == PWord(to, i) then w else Read(b, a);
    }
  }

  // ----- parent and child ---------------------------------------------------------------------------

  /** The directories of the two processes, and the kernel buffer page with its frame. */
  datatype Pair = Pair(parent: nat, child: nat, buf: Page, frame: nat)

  /** The child's own page tables, those for user addresses, belong to nobody else. */
  ghost predicate OwnTables(m: Memory, lay: Layout, d: Pair) {
    forall i {:trigger Read(m, PWord(d.child, i))} :: 0 <= i < 768 && Present(Read(m, PWord(d.child, i))) ==>
      Own(m, lay, d, FrameOf(Read(m, PWord(d.child, i))))
  }

  ghost predicate Own(m: Memory, lay: Layout, d: Pair, f: nat) {
    f !in TableFrames(m, d.parent) && f != d.frame && !lay.InPool(PF_USER, f)
  }

  ghost predicate BufferOk(m: Memory, lay: Layout, used: set<nat>, d: Pair) {
    && d.frame !in TableFrames(m, d.parent) && d.frame !in TableFrames(m, d.child)
    && !lay.InPool(PF_USER, d.frame) && (d.frame in used || !Pooled(lay, d.frame))
    && 0xc0000 <= d.buf < 0xffc00
    && d.buf in Mapping(m, d.parent, 0) && Mapping(m, d.parent, 0)[d.buf] == d.frame
    && d.buf in Mapping(m, d.child, 0) && Mapping(m, d.child, 0)[d.buf] == d.frame
  }

  /** User pages of the parent lie in the user pool, in frames in use. */
  ghost predicate UserFrames(g: map<nat, nat>, lay: Layout, used: set<nat>) {
    forall p {:trigger g[p]} :: p in g && p < 0xc0000 ==> lay.InPool(PF_USER, g[p]) && g[p] in used
  }

  ghost predicate Ready(m: Memory, lay: Layout, used: set<nat>, d: Pair) {
    && lay.Valid() && lay.lo == 0
    && TablesOk(m, d.parent, lay, used) && TablesOk(m, d.child, lay, used)
    && Own(m, lay, d, d.child) && OwnTables(m, lay, d)
    && BufferOk(m, lay, used, d)
    && UserFrames(Mapping(m, d.parent, 0), lay, used)
  }

  /** Writing frames that are no tables of either process changes nothing about them. */
  lemma ReadyKept(m: Memory, n: Memory, x: set<nat>, lay: Layout, used: set<nat>, d: Pair)
    requires Ready(m, lay, used, d) && SameOutside(m, n, x)
    requires x !! TableFrames(m, d.parent) && x !! TableFrames(m, d.child)
    ensures Ready(n, lay, used, d)
    ensures Mapping(n, d.parent, 0) == Mapping(m, d.parent, 0) && Mapping(n, d.child, 0) == Mapping(m, d.child, 0)
    ensures TableFrames(n, d.parent) == TableFrames(m, d.parent) && TableFrames(n, d.child) == TableFrames(m, d.child)
  {
    SameTables(m, n, x, d.parent, lay, used, used);
    SameTables(m, n, x, d.child, lay, used, used);
    SameMapping(m, n, x, d.parent, 0);
    SameMapping(m, n, x, d.child, 0);
    assert OwnTables(n, lay, d) by {
      forall i | 0 <= i < 768 && Present(Read(n, PWord(d.child, i)))
        ensures Own(n, lay, d, FrameOf(Read(n, PWord(d.child, i))))
      {
        SameDirectory(m, n, x, d.child, i);
        assert Own(m, lay, d, FrameOf(Read(m, PWord(d.child, i))));
      }
    }
  }

  /** The frames that `page_table_add` in the child writes. */
  ghost function Touched(m: Memory, d: Pair, p: Page, spare: nat): (x: set<nat>) {
    {d.child, if HasTable(m, d.child, AddrOf(p)) then TableOf(m, d.child, AddrOf(p)) else spare}
  }

  lemma TouchedOwn(m: Memory, lay: Layout, used: set<nat>, d: Pair, p: Page, spare: nat, f: nat)
    requires Ready(m, lay, used, d) && p < 0xc0000 && f in Touched(m, d, p, spare)
    requires !HasTable(m, d.child, AddrOf(p)) ==> lay.InPool(PF_KERNEL, spare) && spare !in used
    ensures Own(m, lay, d, f)
  {
    if f != d.child {
      if HasTable(m, d.child, AddrOf(p)) {
        assert Own(m, lay, d, FrameOf(Read(m, PWord(d.child, PdeIdx(AddrOf(p))))));
      } else {
        assert Pooled(lay, spare);
        assert UnusedFrame(m, d.parent, spare);
        assert spare !in TableFrames(m, d.parent);
      }
    }
  }

  /** Mapping a page in the child leaves the parent as it was. */
  lemma ReadyAdded(m: Memory, lay: Layout, used: set<nat>, d: Pair, p: Page, f: nat, spare: nat, used': set<nat>)
    requires Ready(m, lay, used, d) && p < 0xc0000 && Addable(m, d.child, AddrOf(p), spare)
    requires !HasTable(m, d.child, AddrOf(p)) ==> lay.InPool(PF_KERNEL, spare) && spare !in used && spare in used'
    requires used <= used'
    ensures var n := Added(m, d.child, AddrOf(p), f, spare);
            && Ready(n, lay, used', d)
            && Mapping(n, d.parent, 0) == Mapping(m, d.parent, 0)
            && Mapping(n, d.child, 0) == Mapping(m, d.child, 0)[p := f]
            && TableFrames(n, d.parent) == TableFrames(m, d.parent)
            && SameOutside(m, n, Touched(m, d, p, spare))
  {
    var n := Added(m, d.child, AddrOf(p), f, spare);
    var x := Touched(m, d, p, spare);
    AddedOutside(m, d.child, AddrOf(p), f, spare);
    forall g | g in x ensures Own(m, lay, d, g) { TouchedOwn(m, lay, used, d, p, spare, g); }
    SameTables(m, n, x, d.parent, lay, used, used');
    SameMapping(m, n, x, d.parent, 0);
    AddedTablesOk(m, d.child, lay, used, p, f, spare, used');
    AddedMapping(m, d.child, 0, p, f, spare);
    AddedTables(m, d.child, AddrOf(p), f, spare);
    assert OwnTables(n, lay, d) by {
      forall i | 0 <= i < 768 && Present(Read(n, PWord(d.child, i)))
        ensures Own(n, lay, d, FrameOf(Read(n, PWord(d.child, i))))
      {
        AddedDir(m, d.child, AddrOf(p), f, spare, i);
        if i == PdeIdx(AddrOf(p)) && !HasTable(m, d.child, AddrOf(p)) {
          assert spare in x;
        } else {
          assert Own(m, lay, d, FrameOf(Read(m, PWord(d.child, i))));
        }
      }
    }
  }

  /** What copying page `p` does: the child maps it to a new user frame that holds the
      parent's words; no other user frame changes. */
  ghost predicate PageCopied(m: Memory, n: Memory, lay: Layout, used: set<nat>, used': set<nat>, d: Pair, p: Page, f: nat) {
    && lay.InPool(PF_USER, f) && f !in used && f in used' && used <= used'
    && Mapping(n, d.parent, 0) == Mapping(m, d.parent, 0)
    && Mapping(n, d.child, 0) == Mapping(m, d.child, 0)[p := f]
    && p in Mapping(m, d.parent, 0) && SameWords(m, Mapping(m, d.parent, 0)[p], n, f)
    && UserSame(m, n, lay, f)
  }

  ghost predicate SameWords(m: Memory, f: nat, n: Memory, g: nat) {
    forall i {:trigger Read(n, PWord(g, i))} :: 0 <= i < 1024 ==> Read(n, PWord(g, i)) == Read(m, PWord(f, i))
  }

  /** No frame of the user pool other than `f` changed. */
  ghost predicate UserSame(m: Memory, n: Memory, lay: Layout, f: nat) {
    forall a: PWord {:trigger Read(n, a)} :: lay.InPool(PF_USER, a.frame) && a.frame != f ==> Read(n, a) == Read(m, a)
  }

  /** The words of a page through its three moves. */
  lemma ThreeMoves(m0: Memory, m1: Memory, m2: Memory, m3: Memory, lay: Layout, x: set<nat>, src: nat, buf: nat, f: nat)
    requires Copied(m0, m1, src, buf, 1024) && SameOutside(m1, m2, x) && Copied(m2, m3, buf, f, 1024)
    requires buf !in x && !lay.InPool(PF_USER, buf) && forall g :: g in x ==> !lay.InPool(PF_USER, g)
    ensures SameWords(m0, src, m3, f) && UserSame(m0, m3, lay, f)
  {
    forall i | 0 <= i < 1024 ensures Read(m3, PWord(f, i)) == Read(m0, PWord(src, i)) {
      assert Read(m2, PWord(buf, i)) == Read(m1, PWord(buf, i));
    }
    forall a: PWord | lay.InPool(PF_USER, a.frame) && a.frame != f ensures Read(m3, a) == Read(m0, a) {
      assert Read(m2, a) == Read(m1, a);
      assert Read(m1, a) == Read(m0, a);
    }
  }

  lemma MappedTranslate(m: Memory, dir: nat, p: Page)
    requires p in Mapping(m, dir, 0)
    ensures Managed(0, p) && !InWindow(AddrOf(p)) && Translate(m, dir, AddrOf(p)) == Phys(Mapping(m, dir, 0)[p], 0)
  {
    assert Managed(0, p);
  }

  lemma NewFrameFree(m1: Memory, m2: Memory, lay: Layout, used: set<nat>, d: Pair, f: nat)
    requires TablesOk(m1, d.parent, lay, used) && lay.InPool(PF_USER, f) && f !in used
    requires TableFrames(m2, d.parent) == TableFrames(m1, d.parent)
    ensures f !in TableFrames(m2, d.parent)
  {
    assert Pooled(lay, f);
    assert UnusedFrame(m1, d.parent, f);
  }

  /** Lines 66-79: one page, by way of the buffer. */
  method CopyOne(k: Kernel, p: Page, d: Pair) returns (ok: bool, ghost f: nat)
    requires k.Shaped() && Ready(k.mem, k.lay, k.Used(), d) && k.dir == d.parent
    requires p < 0xc0000 && p in Mapping(k.mem, d.parent, 0) && p !in Mapping(k.mem, d.child, 0)
    modifies k`mem, k`dir, k`kbytes, k`ubytes
    ensures k.Shaped() && (!ok ==> k.OutOfFrames(PF_USER))
    ensures ok ==> Ready(k.mem, k.lay, k.Used(), d) && k.dir == d.parent
    ensures ok ==> PageCopied(old(k.mem), k.mem, k.lay, old(k.Used()), k.Used(), d, p, f)
  {
    var buf, child, parent := d.buf, d.child, k.dir;
    ghost var m0 := k.mem;
    MappedTranslate(m0, d.parent, p);
    MappedTranslate(m0, d.parent, d.buf);
    CopyPage(k, buf, p);
    ghost var m1, used := k.mem, k.Used();
    CopiedOutside(m0, m1, Mapping(m0, d.parent, 0)[p], d.frame, 1024);
    ReadyKept(m0, m1, {d.frame}, k.lay, used, d);
    k.dir := child;
    ghost var tables, spare;
    ok, f, tables, spare := k.GetAPage(PF_USER, p);
    if !ok { return; }
    ghost var m2 := k.mem;
    ReadyAdded(m1, k.lay, used, d, p, f, spare, k.Used());
    MappedTranslate(m2, d.child, p);
    MappedTranslate(m2, d.child, d.buf);
    CopyPage(k, p, buf);
    ghost var m3 := k.mem;
    CopiedOutside(m2, m3, d.frame, f, 1024);
    NewFrameFree(m1, m2, k.lay, used, d, f);
    ReadyKept(m2, m3, {f}, k.lay, k.Used(), d);
    forall g | g in Touched(m1, d, p, spare) ensures Own(m1, k.lay, d, g) { TouchedOwn(m1, k.lay, used, d, p, spare, g); }
    ThreeMoves(m0, m1, m2, m3, k.lay, Touched(m1, d, p, spare), Mapping(m0, d.parent, 0)[p], d.frame, f);
    k.dir := parent;
  }

  // ----- the whole address space ------------------------------------------------------------------------

  /** Page p is one of the first `limit` pages of the user pool and its bit is set. */
  predicate Wanted(bytes: seq<bv8>, base: nat, limit: nat, p: nat)
    requires limit <= 8 * |bytes|
  {
    base <= p < base + limit && Bit(bytes, p - base)
  }

  /** The child's page p: a frame new since `used0`, holding the parent's words. */
  ghost predicate IsCopy(m0: Memory, n: Memory, lay: Layout, used0: set<nat>, used: set<nat>, d: Pair, p: nat) {
    var g, h := Mapping(m0, d.parent, 0), Mapping(n, d.child, 0);
    && p in g && p in h && lay.InPool(PF_USER, h[p]) && h[p] !in used0 && h[p] in used
    && SameWords(m0, g[p], n, h[p])
  }

  /** The user frames in use at the start hold what they held. */
  ghost predicate OldSame(m0: Memory, n: Memory, lay: Layout, used0: set<nat>) {
    forall a: PWord {:trigger Read(n, a)} :: lay.InPool(PF_USER, a.frame) && a.frame in used0 ==> Read(n, a) == Read(m0, a)
  }

  ghost predicate Child(m0: Memory, n: Memory, lay: Layout, used0: set<nat>, used: set<nat>, d: Pair, bytes: seq<bv8>, base: nat, limit: nat)
    requires limit <= 8 * |bytes|
  {
    forall p: nat {:trigger Wanted(bytes, base, limit, p)} :: p < 0xc0000 ==>
      (p in Mapping(n, d.child, 0) <==> Wanted(bytes, base, limit, p))
      && (Wanted(bytes, base, limit, p) ==> IsCopy(m0, n, lay, used0, used, d, p))
  }

  /** After the first `limit` pages of the pool were considered. */
  ghost predicate Forked(m0: Memory, n: Memory, lay: Layout, used0: set<nat>, used: set<nat>, d: Pair, bytes: seq<bv8>, base: nat, limit: nat)
    requires limit <= 8 * |bytes|
  {
    && used0 <= used
    && Mapping(n, d.parent, 0) == Mapping(m0, d.parent, 0)
    && OldSame(m0, n, lay, used0)
    && Child(m0, n, lay, used0, used, d, bytes, base, limit)
  }

  lemma ForkedStart(m0: Memory, lay: Layout, used0: set<nat>, d: Pair, bytes: seq<bv8>, base: nat)
    requires forall p :: p in Mapping(m0, d.child, 0) ==> p >= 0xc0000
    ensures Forked(m0, m0, lay, used0, used0, d, bytes, base, 0)
  {
  }

  /** A clear bit needs no work. */
  lemma ForkedSkip(m0: Memory, n: Memory, lay: Layout, used0: set<nat>, used: set<nat>, d: Pair, bytes: seq<bv8>, base: nat, i: nat)
    requires i < 8 * |bytes| && Forked(m0, n, lay, used0, used, d, bytes, base, i) && !Bit(bytes, i)
    ensures Forked(m0, n, lay, used0, used, d, bytes, base, i + 1)
  {
    forall p: nat | p < 0xc0000
      ensures (p in Mapping(n, d.child, 0) <==> Wanted(bytes, base, i + 1, p))
              && (Wanted(bytes, base, i + 1, p) ==> IsCopy(m0, n, lay, used0, used, d, p))
    {
      assert Wanted(bytes, base, i + 1, p) <==> Wanted(bytes, base, i, p);
    }
  }

  /** A page copied before stays a copy. */
  lemma CopyStays(m0: Memory, n: Memory, n': Memory, lay: Layout, used0: set<nat>, used: set<nat>, used': set<nat>, d: Pair, p: Page, f: nat, q: nat)
    requires IsCopy(m0, n, lay, used0, used, d, q) && q != p
    requires PageCopied(n, n', lay, used, used', d, p, f)
    ensures IsCopy(m0, n', lay, used0, used', d, q)
  {
    var h := Mapping(n, d.child, 0);
    assert Mapping(n', d.child, 0)[q] == h[q];
    forall j | 0 <= j < 1024 ensures Read(n', PWord(h[q], j)) == Read(m0, PWord(Mapping(m0, d.parent, 0)[q], j)) {
      assert Read(n', PWord(h[q], j)) == Read(n, PWord(h[q], j));
    }
  }

  /** The page just copied holds the parent's words as they were at the start. */
  lemma CopyNew(m0: Memory, n: Memory, n': Memory, lay: Layout, used0: set<nat>, used: set<nat>, used': set<nat>, d: Pair, p: Page, f: nat)
    requires used0 <= used && OldSame(m0, n, lay, used0) && Mapping(n, d.parent, 0) == Mapping(m0, d.parent, 0)
    requires UserFrames(Mapping(m0, d.parent, 0), lay, used0) && p < 0xc0000
    requires PageCopied(n, n', lay, used, used', d, p, f)
    ensures IsCopy(m0, n', lay, used0, used', d, p)
  {
    var g := Mapping(m0, d.parent, 0);
    forall j | 0 <= j < 1024 ensures Read(n', PWord(f, j)) == Read(m0, PWord(g[p], j)) {
      assert Read(n, PWord(g[p], j)) == Read(m0, PWord(g[p], j));
    }
  }

  lemma ForkedCopy(m0: Memory, n: Memory, n': Memory, lay: Layout, used0: set<nat>, used: set<nat>, used': set<nat>, d: Pair, bytes: seq<bv8>, base: nat, i: nat, f: nat)
    requires i < 8 * |bytes| && Forked(m0, n, lay, used0, used, d, bytes, base, i) && Bit(bytes, i) && base + i < 0xc0000
    requires UserFrames(Mapping(m0, d.parent, 0), lay, used0)
    requires PageCopied(n, n', lay, used, used', d, base + i, f)
    ensures Forked(m0, n', lay, used0, used', d, bytes, base, i + 1)
  {
    forall q: nat | q < 0xc0000
      ensures (q in Mapping(n', d.child, 0) <==> Wanted(bytes, base, i + 1, q))
              && (Wanted(bytes, base, i + 1, q) ==> IsCopy(m0, n', lay, used0, used', d, q))
    {
      if q == base + i {
        CopyNew(m0, n, n', lay, used0, used, used', d, q, f);
      } else {
        assert Wanted(bytes, base, i + 1, q) <==> Wanted(bytes, base, i, q);
        if Wanted(bytes, base, i, q) { CopyStays(m0, n, n', lay, used0, used, used', d, base + i, f, q); }
      }
    }
    forall a: PWord | lay.InPool(PF_USER, a.frame) && a.frame in used0 ensures Read(n', a) == Read(m0, a) {
      assert Read(n', a) == Read(n, a);
      assert Read(n, a) == Read(m0, a);
    }
  }

  /** Every page whose bit is set is mapped in the parent. */
  ghost predicate BitsMapped(m: Memory, d: Pair, bytes: seq<bv8>, base: nat) {
    forall i :: 0 <= i < 8 * |bytes| && Bit(bytes, i) ==> base + i in Mapping(m, d.parent, 0)
  }

  /** The inner loop: the eight pages of one byte. */
  method CopyByte(k: Kernel, bytes: seq<bv8>, base: nat, b: nat, d: Pair, ghost m0: Memory, ghost used0: set<nat>) returns (ok: bool)
    requires b < |bytes| && base + 8 * |bytes| <= 0xc0000
    requires k.Shaped() && Ready(k.mem, k.lay, k.Used(), d) && k.dir == d.parent
    requires Forked(m0, k.mem, k.lay, used0, k.Used(), d, bytes, base, 8 * b)
    requires UserFrames(Mapping(m0, d.parent, 0), k.lay, used0) && BitsMapped(m0, d, bytes, base)
    modifies k`mem, k`dir, k`kbytes, k`ubytes
    ensures k.Shaped() && (!ok ==> k.OutOfFrames(PF_USER))
    ensures ok ==> Ready(k.mem, k.lay, k.Used(), d) && k.dir == d.parent
    ensures ok ==> Forked(m0, k.mem, k.lay, used0, k.Used(), d, bytes, base, 8 * b + 8)
  {
    var bit := 0;
    while bit < 8
      invariant 0 <= bit <= 8
      invariant k.Shaped() && Ready(k.mem, k.lay, k.Used(), d) && k.dir == d.parent
      invariant Forked(m0, k.mem, k.lay, used0, k.Used(), d, bytes, base, 8 * b + bit)
    {
      var i := 8 * b + bit;
      ghost var n, used := k.mem, k.Used();
      assert i / 8 == b && i % 8 == bit;
      if Mask(bit) & bytes[b] != 0 {
        assert Bit(bytes, i);
        assert !Wanted(bytes, base, i, base + i);
        ghost var f;
        ok, f := CopyOne(k, base + i, d);
        if !ok { return; }
        ForkedCopy(m0, n, k.mem, k.lay, used0, used, k.Used(), d, bytes, base, i, f);
      } else {
        ForkedSkip(m0, n, k.lay, used0, used, d, bytes, base, i);
      }
      bit := bit + 1;
    }
    ok := true;
  }

  /** `copy_body_stack3`. */
  method CopyBodyStack3(k: Kernel, bytes: seq<bv8>, base: nat, d: Pair) returns (ok: bool)
    requires base + 8 * |bytes| <= 0xc0000
    requires k.Shaped() && Ready(k.mem, k.lay, k.Used(), d) && k.dir == d.parent
    requires BitsMapped(k.mem, d, bytes, base)
    requires forall p :: p in Mapping(k.mem, d.child, 0) ==> p >= 0xc0000
    modifies k`mem, k`dir, k`kbytes, k`ubytes
    ensures k.Shaped() && (!ok ==> k.OutOfFrames(PF_USER))
    ensures ok ==> Ready(k.mem, k.lay, k.Used(), d) && k.dir == d.parent
    ensures ok ==> Forked(old(k.mem), k.mem, k.lay, old(k.Used()), k.Used(), d, bytes, base, 8 * |bytes|)
  {
    ghost var m0, used0 := k.mem, k.Used();
    ForkedStart(m0, k.lay, used0, d, bytes, base);
    ok := CopyBytes(k, bytes, base, d, m0, used0);
  }

  /** The outer loop. */
  method CopyBytes(k: Kernel, bytes: seq<bv8>, base: nat, d: Pair, ghost m0: Memory, ghost used0: set<nat>) returns (ok: bool)
    requires base + 8 * |bytes| <= 0xc0000
    requires k.Shaped() && Ready(k.mem, k.lay, k.Used(), d) && k.dir == d.parent
    requires Forked(m0, k.mem, k.lay, used0, k.Used(), d, bytes, base, 0)
    requires UserFrames(Mapping(m0, d.parent, 0), k.lay, used0) && BitsMapped(m0, d, bytes, base)
    modifies k`mem, k`dir, k`kbytes, k`ubytes
    ensures k.Shaped() && (!ok ==> k.OutOfFrames(PF_USER))
    ensures ok ==> Ready(k.mem, k.lay, k.Used(), d) && k.dir == d.parent
    ensures ok ==> Forked(m0, k.mem, k.lay, used0, k.Used(), d, bytes, base, 8 * |bytes|)
  {
    var b := 0;
    while b < |bytes|
      invariant 0 <= b <= |bytes|
      invariant k.Shaped() && Ready(k.mem, k.lay, k.Used(), d) && k.dir == d.parent
      invariant Forked(m0, k.mem, k.lay, used0, k.Used(), d, bytes, base, 8 * b)
    {
      ok := CopyEight(k, bytes, base, b, d, m0, used0);
      if !ok { return; }
      b := b + 1;
    }
    ok := true;
  }

  /** The body of the outer loop: a byte without set bits is passed over. */
  method CopyEight(k: Kernel, bytes: seq<bv8>, base: nat, b: nat, d: Pair, ghost m0: Memory, ghost used0: set<nat>) returns (ok: bool)
    requires b < |bytes| && base + 8 * |bytes| <= 0xc0000
    requires k.Shaped() && Ready(k.mem, k.lay, k.Used(), d) && k.dir == d.parent
    requires Forked(m0, k.mem, k.lay, used0, k.Used(), d, bytes, base, 8 * b)
    requires UserFrames(Mapping(m0, d.parent, 0), k.lay, used0) && BitsMapped(m0, d, bytes, base)
    modifies k`mem, k`dir, k`kbytes, k`ubytes
    ensures k.Shaped() && (!ok ==> k.OutOfFrames(PF_USER))
    ensures ok ==> Ready(k.mem, k.lay, k.Used(), d) && k.dir == d.parent
    ensures ok ==> Forked(m0, k.mem, k.lay, used0, k.Used(), d, bytes, base, 8 * (b + 1))
  {
    ok := true;
    if bytes[b] != 0 {
      ok := CopyByte(k, bytes, base, b, d, m0, used0);
    } else {
      ForkedSkipByte(m0, k.mem, k.lay, used0, k.Used(), d, bytes, base, b);
    }
  }

  lemma ForkedSkipByte(m0: Memory, n: Memory, lay: Layout, used0: set<nat>, used: set<nat>, d: Pair, bytes: seq<bv8>, base: nat, b: nat)
    requires b < |bytes| && Forked(m0, n, lay, used0, used, d, bytes, base, 8 * b) && bytes[b] == 0
    ensures Forked(m0, n, lay, used0, used, d, bytes, base, 8 * b + 8)
  {
    var i := 8 * b;
    while i < 8 * b + 8
      invariant 8 * b <= i <= 8 * b + 8
      invariant Forked(m0, n, lay, used0, used, d, bytes, base, i)
    {
      assert i / 8 == b;
      ForkedSkip(m0, n, lay, used0, used, d, bytes, base, i);
      i := i + 1;
    }
  }

  /** What `Forked` means for a page of the parent: the child has it at the same address
      with the same words, in a frame no page of the parent uses; and the parent still
      maps and holds what it did. */
  lemma ForkIsolates(m0: Memory, n: Memory, lay: Layout, used0: set<nat>, used: set<nat>, d: Pair, bytes: seq<bv8>, base: nat, i: nat, q: Page)
    requires Forked(m0, n, lay, used0, used, d, bytes, base, 8 * |bytes|) && base + 8 * |bytes| <= 0xc0000
    requires UserFrames(Mapping(m0, d.parent, 0), lay, used0) && TablesOk(n, d.child, lay, used)
    requires i < 8 * |bytes| && Bit(bytes, i) && q < 0xc0000 && q in Mapping(m0, d.parent, 0)
    ensures var p := base + i;
            && p in Mapping(n, d.child, 0) && p in Mapping(m0, d.parent, 0)
            && Access(n, d.child, AddrOf(p)) == FULL
            && SameWords(m0, Mapping(m0, d.parent, 0)[p], n, Mapping(n, d.child, 0)[p])
            && q in Mapping(n, d.parent, 0)
            && Mapping(n, d.parent, 0)[q] == Mapping(m0, d.parent, 0)[q] != Mapping(n, d.child, 0)[p]
            && SameWords(m0, Mapping(m0, d.parent, 0)[q], n, Mapping(n, d.parent, 0)[q])
  {
    var p := base + i;
    assert Wanted(bytes, base, 8 * |bytes|, p);
    MappedTranslate(n, d.child, p);
    assert OpenAt(n, d.child, AddrOf(p));
    var f := Mapping(m0, d.parent, 0)[q];
    forall j | 0 <= j < 1024 ensures Read(n, PWord(f, j)) == Read(m0, PWord(f, j)) {}
  }

  // ----- a new page directory ------------------------------------------------------------------------------

  /** Frame `c` holds a directory that shares the kernel entries below `k` of `dir`. */
  ghost predicate Shares(m: Memory, n: Memory, dir: nat, c: nat, k: nat) {
    forall a: PWord {:trigger Read(n, a)} :: Read(n, a) ==
      if a.frame == c && 768 <= a.idx < k then Read(m, PWord(dir, a.idx)) else Read(m, a)
  }

  /** Memory after `create_page_dir` filled frame `c`. */
  ghost predicate NewDir(m: Memory, n: Memory, dir: nat, c: nat) {
    forall a: PWord {:trigger Read(n, a)} :: Read(n, a) ==
      if a == PWord(c, 1023) then Entry(c)
      else if a.frame == c && 768 <= a.idx < 1023 then Read(m, PWord(dir, a.idx))
      else Read(m, a)
  }

  /** `create_page_dir`: page `vp` is the zeroed kernel page that becomes the directory. */
  method CreatePageDir(k: Kernel, vp: Page)
    requires SelfMapped(k.mem, k.dir) && vp in Mapping(k.mem, k.dir, 0)
    requires Mapping(k.mem, k.dir, 0)[vp] !in TableFrames(k.mem, k.dir)
    modifies k`mem
    ensures NewDir(old(k.mem), k.mem, k.dir, Mapping(old(k.mem), k.dir, 0)[vp])
    ensures OpenWindow(k.mem, Mapping(old(k.mem), k.dir, 0)[vp])
  {
    ghost var m, c := k.mem, Mapping(k.mem, k.dir, 0)[vp];
    CopyKernelEntries(k, vp);
    MapOnto(k, vp, m);
    NewDirWindow(m, k.mem, k.dir, c);
  }

  /** Line 93: the upper quarter of the directory in use. */
  method CopyKernelEntries(k: Kernel, vp: Page)
    requires SelfMapped(k.mem, k.dir) && vp in Mapping(k.mem, k.dir, 0)
    requires Mapping(k.mem, k.dir, 0)[vp] !in TableFrames(k.mem, k.dir)
    modifies k`mem
    ensures Shares(old(k.mem), k.mem, k.dir, Mapping(old(k.mem), k.dir, 0)[vp], 1024)
  {
    ghost var m, c := k.mem, Mapping(k.mem, k.dir, 0)[vp];
    MappedTranslate(m, k.dir, vp);
    var j := 768;
    while j < 1024
      invariant 768 <= j <= 1024
      invariant Shares(m, k.mem, k.dir, c, j)
    {
      SharesOutside(m, k.mem, k.dir, c, j);
      SharesWalk(m, k.mem, k.dir, c, vp, j);
      var e := k.LoadPde(AddrOf(j * 1024));
      ghost var b := k.mem;
      k.Store(WordAddr(vp, j), e);
      SharesStep(m, b, k.mem, k.dir, c, j);
      j := j + 1;
    }
  }

  /** Lines 96-97: the last entry names the directory itself. */
  method MapOnto(k: Kernel, vp: Page, ghost m: Memory)
    requires SelfMapped(m, k.dir) && vp in Mapping(m, k.dir, 0) && Mapping(m, k.dir, 0)[vp] !in TableFrames(m, k.dir)
    requires Shares(m, k.mem, k.dir, Mapping(m, k.dir, 0)[vp], 1024)
    modifies k`mem
    ensures NewDir(m, k.mem, k.dir, Mapping(m, k.dir, 0)[vp])
  {
    ghost var c := Mapping(m, k.dir, 0)[vp];
    MappedTranslate(m, k.dir, vp);
    SharesOutside(m, k.mem, k.dir, c, 1024);
    SharesWalk(m, k.mem, k.dir, c, vp, 1023);
    var a := k.AddrV2p(AddrOf(vp));
    ghost var b := k.mem;
    k.Store(WordAddr(vp, 1023), Entry(a / 4096));
    NewDirLast(m, b, k.mem, k.dir, c);
  }

  /** The page and the directory in use are still where they were while it is filled. */
  lemma SharesWalk(m: Memory, n: Memory, dir: nat, c: nat, vp: Page, j: nat)
    requires SameOutside(m, n, {c})
    requires SelfMapped(m, dir) && c !in TableFrames(m, dir) && j < 1024 && !InWindow(AddrOf(vp))
    requires Translate(m, dir, AddrOf(vp)) == Phys(c, 0)
    ensures SelfMapped(n, dir) && Translate(n, dir, AddrOf(vp)) == Phys(c, 0)
    ensures Translate(n, dir, WordAddr(vp, j)) == Phys(c, 4 * j)
    ensures Read(n, PWord(dir, j)) == Read(m, PWord(dir, j))
  {
    SameTranslate(m, n, {c}, dir, AddrOf(vp));
    SameDirectory(m, n, {c}, dir, 1023);
    SameDirectory(m, n, {c}, dir, j);
    WordWalk(n, dir, vp, j);
  }

  lemma SharesOutside(m: Memory, n: Memory, dir: nat, c: nat, j: nat)
    requires Shares(m, n, dir, c, j)
    ensures SameOutside(m, n, {c})
  {
  }

  lemma SharesStep(m: Memory, b: Memory, n: Memory, dir: nat, c: nat, j: nat)
    requires j >= 768 && Shares(m, b, dir, c, j) && n == b[PWord(c, j) := Read(m, PWord(dir, j))]
    ensures Shares(m, n, dir, c, j + 1)
  {
    forall a: PWord ensures Read(n, a) == if a.frame == c && 768 <= a.idx < j + 1 then Read(m, PWord(dir, a.idx)) else Read(m, a) {
      assert Read(n, a) == if a == PWord(c, j) then Read(m, PWord(dir, j)) else Read(b, a);
    }
  }

  lemma NewDirLast(m: Memory, b: Memory, n: Memory, dir: nat, c: nat)
    requires Shares(m, b, dir, c, 1024) && n == b[PWord(c, 1023) := Entry(c)]
    ensures NewDir(m, n, dir, c)
  {
    forall a: PWord
      ensures Read(n, a) == if a == PWord(c, 1023) then Entry(c)
                            else if a.frame == c && 768 <= a.idx < 1023 then Read(m, PWord(dir, a.idx))
                            else Read(m, a)
    {
      assert Read(n, a) == if a == PWord(c, 1023) then Entry(c) else Read(b, a);
    }
  }

  ghost predicate ZeroFrame(m: Memory, c: nat) {
    forall i {:trigger Read(m, PWord(c, i))} :: 0 <= i < 1024 ==> Read(m, PWord(c, i)) == 0
  }

  /** Kernel addresses translate alike in both directories, with the same access rights, now
      and as long as both keep the same kernel entries; user addresses are unmapped in the
      new one. */
  lemma NewDirTranslate(m: Memory, n: Memory, dir: nat, c: nat, v: Addr)
    requires NewDir(m, n, dir, c) && ZeroFrame(m, c) && c !in TableFrames(m, dir) && !InWindow(v)
    ensures Translate(n, dir, v) == Translate(m, dir, v) && Access(n, dir, v) == Access(m, dir, v)
    ensures Translate(n, c, v) == if v >= 0xc0000000 then Translate(m, dir, v) else Fault
    ensures Access(n, c, v) == if v >= 0xc0000000 then Access(m, dir, v) else NoAccess
  {
    assert SameOutside(m, n, {c});
    SameTranslate(m, n, {c}, dir, v);
    SameDirectory(m, n, {c}, dir, PdeIdx(v));
    if v >= 0xc0000000 {
      assert Read(n, PWord(c, PdeIdx(v))) == Read(m, PWord(dir, PdeIdx(v)));
      if HasTable(m, dir, v) { KernelTable(m, n, dir, c, v); }
    } else {
      assert Read(n, PWord(c, PdeIdx(v))) == Read(m, PWord(c, PdeIdx(v))) == 0;
    }
  }

  /** Through its own window the directory can be read and written. */
  ghost predicate OpenWindow(m: Memory, c: nat) {
    forall v: Addr {:trigger PdePtr(v)} ::
      Translate(m, c, PdePtr(v)) == Phys(c, PdeIdx(v) * 4) && Access(m, c, PdePtr(v)) == FULL
  }

  lemma NewDirWindow(m: Memory, n: Memory, dir: nat, c: nat)
    requires NewDir(m, n, dir, c)
    ensures OpenWindow(n, c)
  {
    assert Read(n, PWord(c, 1023)) == Entry(c);
    forall v: Addr ensures Translate(n, c, PdePtr(v)) == Phys(c, PdeIdx(v) * 4) && Access(n, c, PdePtr(v)) == FULL {
      PdePtrReaches(n, c, v);
    }
  }

  /** The new directory is no page table of the old one. */
  lemma KernelTable(m: Memory, n: Memory, dir: nat, c: nat, v: Addr)
    requires NewDir(m, n, dir, c) && c !in TableFrames(m, dir) && !InWindow(v) && HasTable(m, dir, v)
    ensures Read(n, Slot(m, dir, v)) == Read(m, Slot(m, dir, v))
  {
    assert Present(Read(m, PWord(dir, PdeIdx(v))));
    assert !UnusedFrame(m, dir, TableOf(m, dir, v));
  }

  /** Everything the new directory maps is open. */
  lemma NewDirOpen(m: Memory, n: Memory, dir: nat, c: nat)
    requires NewDir(m, n, dir, c) && ZeroFrame(m, c) && c !in TableFrames(m, dir) && AllOpen(m, dir)
    ensures AllOpen(n, c)
  {
    forall w: Addr | !InWindow(w) ensures OpenAt(n, c, w) {
      NewDirTranslate(m, n, dir, c, w);
      assert OpenAt(m, dir, w);
    }
  }

  lemma NewDirEntry(m: Memory, n: Memory, dir: nat, c: nat, i: nat)
    requires NewDir(m, n, dir, c) && ZeroFrame(m, c) && i < 1023
    ensures Read(n, PWord(c, i)) == if i < 768 then 0 else Read(m, PWord(dir, i))
  {
    assert i < 768 ==> Read(n, PWord(c, i)) == Read(m, PWord(c, i));
  }

  /** The tables of the new directory are kernel tables of the old one, and itself. */
  lemma NewDirUnused(m: Memory, n: Memory, dir: nat, c: nat, f: nat)
    requires NewDir(m, n, dir, c) && ZeroFrame(m, c) && UnusedFrame(m, dir, f) && f != c
    ensures UnusedFrame(n, c, f)
  {
    forall i | 0 <= i < 1023 && Present(Read(n, PWord(c, i))) ensures FrameOf(Read(n, PWord(c, i))) != f {
      NewDirEntry(m, n, dir, c, i);
      assert Present(Read(m, PWord(dir, i)));
    }
  }

  lemma NewDirTablesOk(m: Memory, n: Memory, lay: Layout, used: set<nat>, dir: nat, c: nat)
    requires NewDir(m, n, dir, c) && ZeroFrame(m, c) && TablesOk(m, dir, lay, used) && lay.lo <= 768
    requires c !in TableFrames(m, dir) && c in used
    ensures TablesOk(n, c, lay, used) && NoAlias(n, c, 0)
  {
    forall i | 0 <= i < 1023 ensures Read(n, PWord(c, i)) == if i < 768 then 0 else Read(m, PWord(dir, i)) {
      NewDirEntry(m, n, dir, c, i);
    }
    forall i | 0 <= i < 1023 && Present(Read(n, PWord(c, i))) ensures FrameOf(Read(n, PWord(c, i))) != c {
      assert Present(Read(m, PWord(dir, i)));
      assert UnusedFrame(m, dir, c);
    }
    assert Read(n, PWord(c, 1023)) == Entry(c);
    NewDirOpen(m, n, dir, c);
    forall i, j | 0 <= i < j < 1023 && Present(Read(n, PWord(c, i))) && Present(Read(n, PWord(c, j)))
      ensures FrameOf(Read(n, PWord(c, i))) != FrameOf(Read(n, PWord(c, j)))
    {
      assert Present(Read(m, PWord(dir, i))) && Present(Read(m, PWord(dir, j)));
    }
    forall f | Pooled(lay, f) && f !in used ensures UnusedFrame(n, c, f) { NewDirUnused(m, n, dir, c, f); }
  }

  lemma NewDirMapping(m: Memory, n: Memory, dir: nat, c: nat, p: nat)
    requires NewDir(m, n, dir, c) && ZeroFrame(m, c) && c !in TableFrames(m, dir)
    ensures p in Mapping(n, c, 0) <==> p >= 0xc0000 && p in Mapping(m, dir, 0)
    ensures p in Mapping(n, c, 0) ==> Mapping(n, c, 0)[p] == Mapping(m, dir, 0)[p]
  {
    if Managed(0, p) && p < 0x100000 {
      NewDirTranslate(m, n, dir, c, AddrOf(p));
      assert Translate(n, c, AddrOf(p)) == if p >= 0xc0000 then Translate(m, dir, AddrOf(p)) else Fault;
    }
  }

  /** A directory made by `create_page_dir` while the parent runs is ready for
      `copy_body_stack3`: the child has no user page, and shares the kernel's. */
  lemma ChildReady(m: Memory, n: Memory, lay: Layout, used: set<nat>, d: Pair)
    requires lay.Valid() && lay.lo == 0 && NewDir(m, n, d.parent, d.child) && ZeroFrame(m, d.child)
    requires TablesOk(m, d.parent, lay, used) && UserFrames(Mapping(m, d.parent, 0), lay, used)
    requires lay.InPool(PF_KERNEL, d.child) && d.child in used && d.child !in TableFrames(m, d.parent) && d.child != d.frame
    requires d.frame !in TableFrames(m, d.parent) && lay.InPool(PF_KERNEL, d.frame) && d.frame in used
    requires 0xc0000 <= d.buf && d.buf in Mapping(m, d.parent, 0) && Mapping(m, d.parent, 0)[d.buf] == d.frame
    ensures Ready(n, lay, used, d)
    ensures forall p :: p in Mapping(n, d.child, 0) ==> p >= 0xc0000
  {
    var x := {d.child};
    assert SameOutside(m, n, x);
    SameTables(m, n, x, d.parent, lay, used, used);
    SameMapping(m, n, x, d.parent, 0);
    NewDirTablesOk(m, n, lay, used, d.parent, d.child);
    forall p ensures p in Mapping(n, d.child, 0) ==> p >= 0xc0000 { NewDirMapping(m, n, d.parent, d.child, p); }
    forall i | 0 <= i < 768 ensures !Present(Read(n, PWord(d.child, i))) { NewDirEntry(m, n, d.parent, d.child, i); }
    assert OwnTables(n, lay, d);
    assert BufferOk(n, lay, used, d) by {
      NewDirMapping(m, n, d.parent, d.child, d.buf);
      assert Managed(0, d.buf);
      assert UnusedFrame(m, d.parent, d.frame);
      NewDirUnused(m, n, d.parent, d.child, d.frame);
    }
  }
}
