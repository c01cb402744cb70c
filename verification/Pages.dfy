/** The page allocator of kern/memory.c as its callers see it: two bitmaps of virtual
    pages, a partial map from pages to frames, and the set of frames in use.

    `MallocSpace` and `FreeSpace` are the effects of `malloc_page` and `mfree_page`; the
    class in PageAllocator.dfy proves that the loops over bitmaps and page table words
    have exactly these effects. */
module Pages {
  import opened Bitmap

  datatype Flag = PF_KERNEL | PF_USER

  /** Where the pools lie: frame numbers for physical pools, page numbers for virtual ones. */
  datatype Layout = Layout(kstart: nat, klen: nat, ustart: nat, ulen: nat, kvbase: nat, uvbase: nat, lo: nat) {
    ghost predicate Valid() {
      0x102 <= kstart && kstart + klen <= ustart
    }

    predicate InPool(pf: Flag, f: int) {
      match pf
      case PF_KERNEL => kstart <= f < kstart + klen
      case PF_USER => ustart <= f < ustart + ulen
    }

    function VBase(pf: Flag): (p: nat) { if pf == PF_KERNEL then kvbase else uvbase }
  }

  datatype Space = Space(kvirt: seq<bool>, uvirt: seq<bool>, mapping: map<nat, nat>, used: set<nat>) {
    function Virt(pf: Flag): (v: seq<bool>) { if pf == PF_KERNEL then kvirt else uvirt }

    function WithVirt(pf: Flag, v: seq<bool>): (s: Space)
      ensures s.Virt(pf) == v && s.mapping == mapping && s.used == used
    {
      if pf == PF_KERNEL then this.(kvirt := v) else this.(uvirt := v)
    }
  }

  // ----- the invariant ------------------------------------------------------------------

  ghost predicate Injective(g: map<nat, nat>) {
    forall p, q {:trigger g[p], g[q]} :: p in g && q in g && g[p] == g[q] ==> p == q
  }

  /** A page of a virtual pool is mapped exactly when its bit is set. */
  ghost predicate BitsAgree(g: map<nat, nat>, base: nat, virt: seq<bool>) {
    forall p {:trigger BitAt(base, virt, p)} :: base <= p < base + |virt| ==> (BitAt(base, virt, p) <==> p in g)
  }

  /** Pages of a virtual pool lie in the physical pool of the same kind. */
  ghost predicate PoolsAgree(lay: Layout, pf: Flag, g: map<nat, nat>, virt: seq<bool>) {
    forall p {:trigger g[p]} :: p in g && lay.VBase(pf) <= p < lay.VBase(pf) + |virt| ==> lay.InPool(pf, g[p])
  }

  /** Every mapped frame that lies in a pool has its pool bit set. */
  ghost predicate Backed(lay: Layout, g: map<nat, nat>, used: set<nat>) {
    forall p {:trigger g[p]} :: p in g && (lay.InPool(PF_KERNEL, g[p]) || lay.InPool(PF_USER, g[p])) ==> g[p] in used
  }

  ghost predicate Ranges(lay: Layout, s: Space) {
    && lay.Valid()
    && lay.uvbase + |s.uvirt| <= lay.kvbase
    && lay.kvbase + |s.kvirt| <= 0xffc00
  }

  ghost predicate SpaceInv(lay: Layout, s: Space) {
    && Ranges(lay, s)
    && BitsAgree(s.mapping, lay.kvbase, s.kvirt) && BitsAgree(s.mapping, lay.uvbase, s.uvirt)
    && PoolsAgree(lay, PF_KERNEL, s.mapping, s.kvirt) && PoolsAgree(lay, PF_USER, s.mapping, s.uvirt)
    && Injective(s.mapping)
    && Backed(lay, s.mapping, s.used)
  }

  // ----- the two operations -----------------------------------------------------------------

  function PageRange(from: nat, n: nat): (r: set<nat>) {
    if n == 0 then {} else PageRange(from, n - 1) + {from + n - 1}
  }

  lemma {:induction false} InPageRange(from: nat, n: nat)
    ensures forall p :: p in PageRange(from, n) <==> from <= p < from + n
  {
    if n > 0 { InPageRange(from, n - 1); }
  }

  /** Pages from, from+1, ... to the given frames. */
  function PageMap(from: nat, frames: seq<nat>): (g: map<nat, nat>) {
    if frames == [] then map[] else PageMap(from, frames[..|frames| - 1])[from + |frames| - 1 := frames[|frames| - 1]]
  }

  lemma {:induction false} InPageMap(from: nat, frames: seq<nat>)
    ensures forall p :: p in PageMap(from, frames) <==> from <= p < from + |frames|
    ensures forall p :: p in PageMap(from, frames) ==> PageMap(from, frames)[p] == frames[p - from]
  {
    if frames != [] { InPageMap(from, frames[..|frames| - 1]); }
  }

  function Elems(s: seq<nat>): (e: set<nat>) { set x | x in s }

  function Values(g: map<nat, nat>, dom: set<nat>): (v: set<nat>) { set p | p in dom && p in g :: g[p] }

  /** `tables` are the frames taken for page tables on the way. */
  function MallocSpace(lay: Layout, s: Space, pf: Flag, start: nat, frames: seq<nat>, tables: set<nat>): (r: Space) {
    s.WithVirt(pf, SetRange(s.Virt(pf), start, |frames|, true))
     .(mapping := s.mapping + PageMap(lay.VBase(pf) + start, frames), used := s.used + Elems(frames) + tables)
  }

  function FreeSpace(lay: Layout, s: Space, pf: Flag, start: nat, n: nat): (r: Space) {
    var pages := PageRange(lay.VBase(pf) + start, n);
    s.WithVirt(pf, SetRange(s.Virt(pf), start, n, false))
     .(mapping := s.mapping - pages, used := s.used - Values(s.mapping, pages))
  }

  ghost predicate Distinct(frames: seq<nat>) {
    forall i, j :: 0 <= i < j < |frames| ==> frames[i] != frames[j]
  }

  /** New frames: free, of the right pool, pairwise different; the table frames are free
      and different from them. */
  ghost predicate NewFrames(lay: Layout, used: set<nat>, pf: Flag, frames: seq<nat>, tables: set<nat>) {
    && Distinct(frames)
    && (forall i :: 0 <= i < |frames| ==> lay.InPool(pf, frames[i]) && frames[i] !in used && frames[i] !in tables)
    && tables !! used
    && (forall f :: f in tables ==> lay.InPool(PF_KERNEL, f))
  }

  // ----- every operation keeps the invariant ---------------------------------------------------

  lemma MallocBits(g: map<nat, nat>, base: nat, virt: seq<bool>, start: nat, frames: seq<nat>)
    requires BitsAgree(g, base, virt)
    ensures BitsAgree(g + PageMap(base + start, frames), base, SetRange(virt, start, |frames|, true))
  {
    InPageMap(base + start, frames);
    var v := SetRange(virt, start, |frames|, true);
    forall p | base <= p < base + |virt| ensures BitAt(base, v, p) <==> p in g + PageMap(base + start, frames) {
      assert BitAt(base, virt, p) <==> p in g;
    }
  }

  lemma MallocOtherBits(g: map<nat, nat>, base: nat, virt: seq<bool>, from: nat, frames: seq<nat>)
    requires BitsAgree(g, base, virt) && (from + |frames| <= base || base + |virt| <= from)
    ensures BitsAgree(g + PageMap(from, frames), base, virt)
  {
    InPageMap(from, frames);
  }

  lemma MallocPools(lay: Layout, of: Flag, pf: Flag, g: map<nat, nat>, virt: seq<bool>, from: nat, frames: seq<nat>)
    requires PoolsAgree(lay, of, g, virt)
    requires forall i :: 0 <= i < |frames| ==> lay.InPool(pf, frames[i])
    requires of == pf || from + |frames| <= lay.VBase(of) || lay.VBase(of) + |virt| <= from
    ensures PoolsAgree(lay, of, g + PageMap(from, frames), virt)
  {
    InPageMap(from, frames);
  }

  lemma MallocInjective(lay: Layout, s: Space, pf: Flag, from: nat, frames: seq<nat>, tables: set<nat>)
    requires Injective(s.mapping) && Backed(lay, s.mapping, s.used) && NewFrames(lay, s.used, pf, frames, tables)
    ensures Injective(s.mapping + PageMap(from, frames))
  {
    InPageMap(from, frames);
    var g := s.mapping + PageMap(from, frames);
    forall p, q | p in g && q in g && g[p] == g[q] ensures p == q {
      NewPageFrame(lay, s, pf, from, frames, tables, p);
      NewPageFrame(lay, s, pf, from, frames, tables, q);
    }
  }

  lemma MallocBacked(lay: Layout, s: Space, from: nat, frames: seq<nat>, tables: set<nat>)
    requires Backed(lay, s.mapping, s.used)
    ensures Backed(lay, s.mapping + PageMap(from, frames), s.used + Elems(frames) + tables)
  {
    InPageMap(from, frames);
  }

  /** A page of the enlarged map is new with a new frame, or old with its old frame. */
  lemma NewPageFrame(lay: Layout, s: Space, pf: Flag, from: nat, frames: seq<nat>, tables: set<nat>, p: nat)
    requires Backed(lay, s.mapping, s.used) && NewFrames(lay, s.used, pf, frames, tables)
    requires p in s.mapping + PageMap(from, frames)
    ensures var g := s.mapping + PageMap(from, frames);
            if from <= p < from + |frames| then g[p] == frames[p - from] && forall q :: q in s.mapping ==> s.mapping[q] != g[p]
            else p in s.mapping && g[p] == s.mapping[p]
  {
    InPageMap(from, frames);
  }

  /** The invariant from its parts. */
  lemma Assemble(lay: Layout, kv: seq<bool>, uv: seq<bool>, g: map<nat, nat>, used: set<nat>)
    requires lay.Valid() && lay.uvbase + |uv| <= lay.kvbase && lay.kvbase + |kv| <= 0xffc00
    requires BitsAgree(g, lay.kvbase, kv) && BitsAgree(g, lay.uvbase, uv)
    requires PoolsAgree(lay, PF_KERNEL, g, kv) && PoolsAgree(lay, PF_USER, g, uv)
    requires Injective(g) && Backed(lay, g, used)
    ensures SpaceInv(lay, Space(kv, uv, g, used))
  {
  }

  /** A bitmap of the same length covers the same pages. */
  lemma SamePages(lay: Layout, pf: Flag, g: map<nat, nat>, v: seq<bool>, w: seq<bool>)
    requires PoolsAgree(lay, pf, g, v) && |v| == |w|
    ensures PoolsAgree(lay, pf, g, w)
  {
  }

  lemma MallocKernel(lay: Layout, s: Space, start: nat, frames: seq<nat>, tables: set<nat>)
    requires SpaceInv(lay, s) && NewFrames(lay, s.used, PF_KERNEL, frames, tables)
    ensures SpaceInv(lay, Space(SetRange(s.kvirt, start, |frames|, true), s.uvirt,
                                s.mapping + PageMap(lay.kvbase + start, frames), s.used + Elems(frames) + tables))
  {
    var from := lay.kvbase + start;
    var kv := SetRange(s.kvirt, start, |frames|, true);
    var g := s.mapping + PageMap(from, frames);
    assert BitsAgree(g, lay.kvbase, kv) by { MallocBits(s.mapping, lay.kvbase, s.kvirt, start, frames); }
    assert BitsAgree(g, lay.uvbase, s.uvirt) by { MallocOtherBits(s.mapping, lay.uvbase, s.uvirt, from, frames); }
    assert PoolsAgree(lay, PF_USER, g, s.uvirt) by { MallocPools(lay, PF_USER, PF_KERNEL, s.mapping, s.uvirt, from, frames); }
    assert PoolsAgree(lay, PF_KERNEL, g, kv) by {
      MallocPools(lay, PF_KERNEL, PF_KERNEL, s.mapping, s.kvirt, from, frames);
      SamePages(lay, PF_KERNEL, g, s.kvirt, kv);
    }
    MallocInjective(lay, s, PF_KERNEL, from, frames, tables);
    MallocBacked(lay, s, from, frames, tables);
    Assemble(lay, kv, s.uvirt, g, s.used + Elems(frames) + tables);
  }

  lemma MallocUser(lay: Layout, s: Space, start: nat, frames: seq<nat>, tables: set<nat>)
    requires SpaceInv(lay, s) && NewFrames(lay, s.used, PF_USER, frames, tables) && start + |frames| <= |s.uvirt|
    ensures SpaceInv(lay, Space(s.kvirt, SetRange(s.uvirt, start, |frames|, true),
                                s.mapping + PageMap(lay.uvbase + start, frames), s.used + Elems(frames) + tables))
  {
    var from := lay.uvbase + start;
    var uv := SetRange(s.uvirt, start, |frames|, true);
    var g := s.mapping + PageMap(from, frames);
    assert BitsAgree(g, lay.uvbase, uv) by { MallocBits(s.mapping, lay.uvbase, s.uvirt, start, frames); }
    assert BitsAgree(g, lay.kvbase, s.kvirt) by { MallocOtherBits(s.mapping, lay.kvbase, s.kvirt, from, frames); }
    assert PoolsAgree(lay, PF_KERNEL, g, s.kvirt) by { MallocPools(lay, PF_KERNEL, PF_USER, s.mapping, s.kvirt, from, frames); }
    assert PoolsAgree(lay, PF_USER, g, uv) by {
      MallocPools(lay, PF_USER, PF_USER, s.mapping, s.uvirt, from, frames);
      SamePages(lay, PF_USER, g, s.uvirt, uv);
    }
    MallocInjective(lay, s, PF_USER, from, frames, tables);
    MallocBacked(lay, s, from, frames, tables);
    Assemble(lay, s.kvirt, uv, g, s.used + Elems(frames) + tables);
  }

  lemma MallocShape(lay: Layout, s: Space, pf: Flag, start: nat, frames: seq<nat>, tables: set<nat>)
    ensures MallocSpace(lay, s, pf, start, frames, tables) ==
            if pf == PF_KERNEL then
              Space(SetRange(s.kvirt, start, |frames|, true), s.uvirt,
                    s.mapping + PageMap(lay.kvbase + start, frames), s.used + Elems(frames) + tables)
            else
              Space(s.kvirt, SetRange(s.uvirt, start, |frames|, true),
                    s.mapping + PageMap(lay.uvbase + start, frames), s.used + Elems(frames) + tables)
  {
  }

  lemma MallocKeepsInv(lay: Layout, s: Space, pf: Flag, start: nat, frames: seq<nat>, tables: set<nat>)
    requires SpaceInv(lay, s) && NewFrames(lay, s.used, pf, frames, tables)
    requires start + |frames| <= |s.Virt(pf)|
    ensures SpaceInv(lay, MallocSpace(lay, s, pf, start, frames, tables))
  {
    MallocShape(lay, s, pf, start, frames, tables);
    if pf == PF_KERNEL {
      MallocKernel(lay, s, start, frames, tables);
    } else {
      MallocUser(lay, s, start, frames, tables);
    }
  }

  lemma FreeBits(g: map<nat, nat>, base: nat, virt: seq<bool>, start: nat, n: nat)
    requires BitsAgree(g, base, virt)
    ensures BitsAgree(g - PageRange(base + start, n), base, SetRange(virt, start, n, false))
  {
    InPageRange(base + start, n);
    var v := SetRange(virt, start, n, false);
    forall p | base <= p < base + |virt| ensures BitAt(base, v, p) <==> p in g - PageRange(base + start, n) {
      assert BitAt(base, virt, p) <==> p in g;
    }
  }

  lemma FreeOtherBits(g: map<nat, nat>, base: nat, virt: seq<bool>, from: nat, n: nat)
    requires BitsAgree(g, base, virt) && (from + n <= base || base + |virt| <= from)
    ensures BitsAgree(g - PageRange(from, n), base, virt)
  {
    InPageRange(from, n);
  }

  lemma FreeBacked(lay: Layout, g: map<nat, nat>, used: set<nat>, pages: set<nat>)
    requires Injective(g) && Backed(lay, g, used)
    ensures Backed(lay, g - pages, used - Values(g, pages)) && Injective(g - pages)
  {
    var h := g - pages;
    forall p | p in h && (lay.InPool(PF_KERNEL, h[p]) || lay.InPool(PF_USER, h[p])) ensures h[p] in used - Values(g, pages) {
      assert h[p] == g[p];
    }
  }

  lemma FreeKeepsInv(lay: Layout, s: Space, pf: Flag, start: nat, n: nat)
    requires SpaceInv(lay, s) && start + n <= |s.Virt(pf)|
    ensures SpaceInv(lay, FreeSpace(lay, s, pf, start, n))
  {
    var from := lay.VBase(pf) + start;
    FreeBits(s.mapping, lay.VBase(pf), s.Virt(pf), start, n);
    FreeBacked(lay, s.mapping, s.used, PageRange(from, n));
    if pf == PF_KERNEL {
      FreeOtherBits(s.mapping, lay.uvbase, s.uvirt, from, n);
    } else {
      FreeOtherBits(s.mapping, lay.kvbase, s.kvirt, from, n);
    }
  }

  /** Pages with clear bits are not mapped. */
  lemma ClearUnmapped(g: map<nat, nat>, base: nat, virt: seq<bool>, start: nat, n: nat)
    requires BitsAgree(g, base, virt) && ClearRun(virt, start, n)
    ensures PageRange(base + start, n) !! g.Keys
  {
    InPageRange(base + start, n);
    forall p | p in PageRange(base + start, n) ensures p !in g {
      assert !BitAt(base, virt, p);
    }
  }

  /** Allocation changes no existing mapping, and what was mapped keeps its frame to itself. */
  lemma MallocFresh(lay: Layout, s: Space, pf: Flag, start: nat, frames: seq<nat>, tables: set<nat>, p: nat)
    requires SpaceInv(lay, s) && NewFrames(lay, s.used, pf, frames, tables)
    requires ClearRun(s.Virt(pf), start, |frames|) && p in s.mapping
    ensures var r := MallocSpace(lay, s, pf, start, frames, tables);
            && p in r.mapping && r.mapping[p] == s.mapping[p]
            && s.mapping[p] !in frames && s.mapping[p] !in tables
  {
    InPageRange(lay.VBase(pf) + start, |frames|);
    InPageMap(lay.VBase(pf) + start, frames);
    ClearUnmapped(s.mapping, lay.VBase(pf), s.Virt(pf), start, |frames|);
    assert p !in PageRange(lay.VBase(pf) + start, |frames|);
  }

  lemma ValuesOfNew(g: map<nat, nat>, from: nat, frames: seq<nat>)
    ensures Values(g + PageMap(from, frames), PageRange(from, |frames|)) == Elems(frames)
  {
    InPageRange(from, |frames|);
    InPageMap(from, frames);
    var h := g + PageMap(from, frames);
    forall f | f in frames ensures f in Values(h, PageRange(from, |frames|)) {
      var i :| 0 <= i < |frames| && frames[i] == f;
      assert from + i in PageRange(from, |frames|) && h[from + i] == f;
    }
  }

  lemma RemoveNew(g: map<nat, nat>, from: nat, frames: seq<nat>)
    requires PageRange(from, |frames|) !! g.Keys
    ensures g + PageMap(from, frames) - PageRange(from, |frames|) == g
  {
    InPageRange(from, |frames|);
    InPageMap(from, frames);
    var pages := PageRange(from, |frames|);
    var h := g + PageMap(from, frames) - pages;
    forall p | p in g ensures p in h && h[p] == g[p] { assert p !in pages; }
  }

  lemma MappingBack(g: map<nat, nat>, base: nat, virt: seq<bool>, start: nat, frames: seq<nat>)
    requires BitsAgree(g, base, virt) && ClearRun(virt, start, |frames|)
    ensures g + PageMap(base + start, frames) - PageRange(base + start, |frames|) == g
  {
    ClearUnmapped(g, base, virt, start, |frames|);
    RemoveNew(g, base + start, frames);
  }

  lemma UsedBack(g: map<nat, nat>, from: nat, used: set<nat>, frames: seq<nat>, tables: set<nat>)
    requires forall i :: 0 <= i < |frames| ==> frames[i] !in used && frames[i] !in tables
    ensures used + Elems(frames) + tables - Values(g + PageMap(from, frames), PageRange(from, |frames|)) == used + tables
  {
    ValuesOfNew(g, from, frames);
    TakeBack(used, frames, tables);
  }

  lemma FreeAfter(lay: Layout, s: Space, pf: Flag, v: seq<bool>, g: map<nat, nat>, used: set<nat>, start: nat, n: nat, left: set<nat>)
    requires SetRange(v, start, n, false) == s.Virt(pf)
    requires g - PageRange(lay.VBase(pf) + start, n) == s.mapping
    requires used - Values(g, PageRange(lay.VBase(pf) + start, n)) == left
    ensures FreeSpace(lay, s.WithVirt(pf, v).(mapping := g, used := used), pf, start, n) == s.(used := left)
  {
  }

  /** `mfree_page` after `malloc_page` restores the virtual bitmaps, the mapping and the
      frames in use, except for the frames that became page tables. */
  lemma MallocThenFree(lay: Layout, s: Space, pf: Flag, start: nat, frames: seq<nat>, tables: set<nat>)
    requires BitsAgree(s.mapping, lay.VBase(pf), s.Virt(pf)) && NewFrames(lay, s.used, pf, frames, tables)
    requires ClearRun(s.Virt(pf), start, |frames|)
    ensures FreeSpace(lay, MallocSpace(lay, s, pf, start, frames, tables), pf, start, |frames|)
            == s.(used := s.used + tables)
  {
    var from := lay.VBase(pf) + start;
    var n := |frames|;
    var v := SetRange(s.Virt(pf), start, n, true);
    var g := s.mapping + PageMap(from, frames);
    var used := s.used + Elems(frames) + tables;
    MappingBack(s.mapping, lay.VBase(pf), s.Virt(pf), start, frames);
    UsedBack(s.mapping, from, s.used, frames, tables);
    RestoreRange(s.Virt(pf), start, n);
    FreeAfter(lay, s, pf, v, g, used, start, n, s.used + tables);
  }

  lemma RestoreRange(v: seq<bool>, start: nat, n: nat)
    requires ClearRun(v, start, n)
    ensures SetRange(SetRange(v, start, n, true), start, n, false) == v
  {
  }

  lemma TakeBack(used: set<nat>, frames: seq<nat>, tables: set<nat>)
    requires forall i :: 0 <= i < |frames| ==> frames[i] !in used && frames[i] !in tables
    ensures used + Elems(frames) + tables - Elems(frames) == used + tables
  {
  }

  // ----- bitmaps of frames -------------------------------------------------------------------------

  /** The set of used frames determines both pool bitmaps. */
  lemma UsedDeterminesBits(lay: Layout, k: seq<bool>, u: seq<bool>, k': seq<bool>, u': seq<bool>)
    requires lay.Valid() && |k| == |k'| == lay.klen && |u| == |u'| == lay.ulen
    requires Marked(lay.kstart, k) + Marked(lay.ustart, u) == Marked(lay.kstart, k') + Marked(lay.ustart, u')
    ensures k == k' && u == u'
  {
    InMarked(lay.kstart, k);
    InMarked(lay.ustart, u);
    InMarked(lay.kstart, k');
    InMarked(lay.ustart, u');
    forall f ensures f in Marked(lay.kstart, k) <==> f in Marked(lay.kstart, k') {
      assert f in Marked(lay.kstart, k) + Marked(lay.ustart, u) <==> f in Marked(lay.kstart, k') + Marked(lay.ustart, u');
    }
    forall f ensures f in Marked(lay.ustart, u) <==> f in Marked(lay.ustart, u') {
      assert f in Marked(lay.kstart, k) + Marked(lay.ustart, u) <==> f in Marked(lay.kstart, k') + Marked(lay.ustart, u');
    }
    MarkedUnique(lay.kstart, k, k');
    MarkedUnique(lay.ustart, u, u');
  }
}
