/** Two-level 32-bit paging edited through the self-mapped directory slot: `pte_ptr`,
    `pde_ptr`, `page_table_add`, `page_table_pte_remove` and `addr_v2p` of kern/memory.c,
    and `create_page_dir` of userproc/process.c.

    Masks and shifts by constants are written as division and remainder.  Physical memory
    is a map from words to 32-bit values (an absent word is 0); a word is named by its
    frame number and its index in the frame.  Entries follow section 4.3 of the Intel 64
    and IA-32 Architectures SDM, Volume 3A: bit 0 is the present bit, bits 1 and 2 grant
    writing and user access, and the top 20 bits are the frame. */
module Paging {

  type Addr = x: nat | x < 0x1_0000_0000

  datatype PWord = PWord(frame: nat, idx: nat)

  type Memory = map<PWord, nat>

  function Read(m: Memory, a: PWord): (w: nat) {
    if a in m then m[a] else 0
  }

  // ----- address expressions ----------------------------------------------------------

  /** (addr & 0xffc00000) >> 22 */
  function PdeIdx(v: Addr): (i: nat)
    ensures i < 1024
  {
    v / 0x400000
  }

  /** (addr & 0x003ff000) >> 12 */
  function PteIdx(v: Addr): (i: nat)
    ensures i < 1024
  {
    v / 0x1000 % 0x400
  }

  function PtePtr(v: Addr): (a: Addr) {
    0xffc00000 + PdeIdx(v) * 0x1000 + PteIdx(v) * 4
  }

  function PdePtr(v: Addr): (a: Addr) {
    0xfffff000 + PdeIdx(v) * 4
  }

  predicate Present(e: nat) { e % 2 == 1 }

  function FrameOf(e: nat): (f: nat) { e / 4096 }

  predicate WriteBit(e: nat) { e / 2 % 2 == 1 }

  predicate UserBit(e: nat) { e / 4 % 2 == 1 }

  predicate Open(e: nat) { UserBit(e) && WriteBit(e) }

  /** page_phyaddr | PG_US_U | PG_RW_W | PG_P_1 */
  function Entry(frame: nat): (e: nat)
    ensures Present(e) && Open(e) && FrameOf(e) == frame
  {
    frame * 4096 + 7
  }

  // ----- the hardware walk ----------------------------------------------------------------

  datatype Walk = Fault | Phys(frame: nat, offset: nat)

  /** v's directory entry, in the directory at frame `dir`. */
  function PdeSlot(dir: nat, v: Addr): (a: PWord) { PWord(dir, PdeIdx(v)) }

  predicate HasTable(m: Memory, dir: nat, v: Addr) { Present(Read(m, PdeSlot(dir, v))) }

  function TableOf(m: Memory, dir: nat, v: Addr): (f: nat) { FrameOf(Read(m, PdeSlot(dir, v))) }

  /** The page table entry that governs `v`. */
  function Slot(m: Memory, dir: nat, v: Addr): (a: PWord) { PWord(TableOf(m, dir, v), PteIdx(v)) }

  function Translate(m: Memory, dir: nat, v: Addr): (w: Walk) {
    if !HasTable(m, dir, v) then Fault
    else if !Present(Read(m, Slot(m, dir, v))) then Fault
    else Phys(FrameOf(Read(m, Slot(m, dir, v))), v % 4096)
  }

  datatype Rights = NoAccess | Rights(user: bool, writable: bool)

  const FULL := Rights(true, true)

  /** What two entries grant together, section 4.6 of the same volume: the bits of both. */
  function Both(pde: nat, pte: nat): (r: Rights) {
    Rights(UserBit(pde) && UserBit(pte), WriteBit(pde) && WriteBit(pte))
  }

  /** The access rights that a walk finds. */
  function Access(m: Memory, dir: nat, v: Addr): (r: Rights) {
    if Translate(m, dir, v).Phys? then Both(Read(m, PdeSlot(dir, v)), Read(m, Slot(m, dir, v))) else NoAccess
  }

  predicate SelfMapped(m: Memory, dir: nat) {
    Read(m, PWord(dir, 1023)) == Entry(dir)
  }

  /** The window through which the directory maps itself: 0xffc00000 and above. */
  predicate InWindow(v: Addr) { PdeIdx(v) == 1023 }

  /** The directory maps itself, no other slot uses the directory as a page table, and
      every slot in use grants all access. */
  ghost predicate WellFormed(m: Memory, dir: nat) {
    && SelfMapped(m, dir)
    && (forall i :: 0 <= i < 1023 && Present(Read(m, PWord(dir, i))) ==> Open(Read(m, PWord(dir, i))))
    && (forall i :: 0 <= i < 1023 && Present(Read(m, PWord(dir, i))) ==> FrameOf(Read(m, PWord(dir, i))) != dir)
  }

  ghost predicate OpenAt(m: Memory, dir: nat, v: Addr) {
    Access(m, dir, v) == if Translate(m, dir, v).Phys? then FULL else NoAccess
  }

  /** Whatever is mapped outside the window may be read and written in user mode. */
  ghost predicate AllOpen(m: Memory, dir: nat) {
    forall v: Addr {:trigger OpenAt(m, dir, v)} :: !InWindow(v) ==> OpenAt(m, dir, v)
  }

  // ----- the recursive mapping is right ---------------------------------------------------------

  lemma PtePtrParts(v: Addr)
    ensures PdeIdx(PtePtr(v)) == 1023 && PteIdx(PtePtr(v)) == PdeIdx(v) && PtePtr(v) % 4096 == PteIdx(v) * 4
  {
    var d, t := PdeIdx(v), PteIdx(v);
    assert PtePtr(v) == 0xffc00000 + d * 0x1000 + t * 4;
    assert PtePtr(v) / 0x1000 == 0xffc00 + d;
  }

  lemma PdePtrParts(v: Addr)
    ensures PdeIdx(PdePtr(v)) == 1023 && PteIdx(PdePtr(v)) == 1023 && PdePtr(v) % 4096 == PdeIdx(v) * 4
  {
    var d := PdeIdx(v);
    assert PdePtr(v) / 0x1000 == 0xfffff;
  }

  /** A walk of `pde_ptr(v)` reaches v's directory entry, for every address. */
  lemma PdePtrReaches(m: Memory, dir: nat, v: Addr)
    requires SelfMapped(m, dir)
    ensures Translate(m, dir, PdePtr(v)) == Phys(PdeSlot(dir, v).frame, PdeSlot(dir, v).idx * 4)
    ensures Access(m, dir, PdePtr(v)) == FULL
  {
    PdePtrParts(v);
  }

  /** A walk of `pte_ptr(v)` reaches the entry that governs v, and faults exactly when
      v has no page table, for every address. */
  lemma PtePtrReaches(m: Memory, dir: nat, v: Addr)
    requires SelfMapped(m, dir)
    ensures Translate(m, dir, PtePtr(v)) ==
            if HasTable(m, dir, v) then Phys(Slot(m, dir, v).frame, Slot(m, dir, v).idx * 4) else Fault
    ensures HasTable(m, dir, v) ==> Access(m, dir, PtePtr(v)) == Both(Entry(dir), Read(m, PdeSlot(dir, v)))
  {
    PtePtrParts(v);
  }

  /** The word that an access through a walk touches. */
  function WordOf(w: Walk): (a: PWord)
    requires w.Phys?
  {
    PWord(w.frame, w.offset / 4)
  }

  lemma PdeWord(m: Memory, dir: nat, v: Addr)
    requires SelfMapped(m, dir)
    ensures PdePtr(v) % 4 == 0 && Translate(m, dir, PdePtr(v)).Phys?
    ensures WordOf(Translate(m, dir, PdePtr(v))) == PdeSlot(dir, v)
  {
    PdePtrReaches(m, dir, v);
    WordAligned(0x3ffffc00, PdeIdx(v));
  }

  lemma PteWord(m: Memory, dir: nat, v: Addr)
    requires SelfMapped(m, dir) && HasTable(m, dir, v)
    ensures PtePtr(v) % 4 == 0 && Translate(m, dir, PtePtr(v)).Phys?
    ensures WordOf(Translate(m, dir, PtePtr(v))) == Slot(m, dir, v)
  {
    var d, t := PdeIdx(v), PteIdx(v);
    WordAligned(0x3ff00000 + d * 0x400, t);
    assert PtePtr(v) == 4 * (0x3ff00000 + d * 0x400) + t * 4;
    PtePtrReaches(m, dir, v);
  }

  lemma WordAligned(q: nat, i: nat)
    ensures (4 * q + i * 4) % 4 == 0 && i * 4 / 4 == i
  {
  }

  /** The two indexes determine the page. */
  lemma SamePage(v: Addr, w: Addr)
    ensures PdeIdx(v) == PdeIdx(w) && PteIdx(v) == PteIdx(w) <==> v / 4096 == w / 4096
  {
    assert v / 0x1000 == PdeIdx(v) * 0x400 + PteIdx(v);
    assert w / 0x1000 == PdeIdx(w) * 0x400 + PteIdx(w);
  }

  // ----- what one word written does to translations ------------------------------------------------

  /** Rewriting v's entry leaves every address governed by another entry alone. */
  lemma SlotWrite(m: Memory, dir: nat, v: Addr, e: nat, w: Addr)
    requires WellFormed(m, dir) && !InWindow(v) && HasTable(m, dir, v)
    requires Slot(m, dir, w) != Slot(m, dir, v)
    ensures Translate(m[Slot(m, dir, v) := e], dir, w) == Translate(m, dir, w)
    ensures Access(m[Slot(m, dir, v) := e], dir, w) == Access(m, dir, w)
  {
    assert PdeSlot(dir, v) == PWord(dir, PdeIdx(v));
  }

  lemma SlotWriteSelf(m: Memory, dir: nat, v: Addr, e: nat)
    requires WellFormed(m, dir) && !InWindow(v) && HasTable(m, dir, v)
    ensures Translate(m[Slot(m, dir, v) := e], dir, v) == if Present(e) then Phys(FrameOf(e), v % 4096) else Fault
    ensures Access(m[Slot(m, dir, v) := e], dir, v) == if Present(e) then Rights(UserBit(e), WriteBit(e)) else NoAccess
    ensures WellFormed(m[Slot(m, dir, v) := e], dir)
  {
    assert PdeSlot(dir, v) == PWord(dir, PdeIdx(v));
    assert TableOf(m, dir, v) != dir;
  }

  // ----- installing a table ----------------------------------------------------------------------------

  /** `frame` is neither the directory nor a page table in use. */
  ghost predicate UnusedFrame(m: Memory, dir: nat, frame: nat) {
    && frame != dir
    && (forall i :: 0 <= i < 1023 && Present(Read(m, PWord(dir, i))) ==> FrameOf(Read(m, PWord(dir, i))) != frame)
  }

  ghost predicate AreTables(m: Memory, dir: nat, t: set<nat>) {
    forall f {:trigger UnusedFrame(m, dir, f)} :: f in t <==> !UnusedFrame(m, dir, f)
  }

  /** The frames of the directory and of its page tables. */
  ghost function TableFrames(m: Memory, dir: nat): (t: set<nat>)
  {
    var all := {dir} + set i | 0 <= i < 1023 && Present(Read(m, PWord(dir, i))) :: FrameOf(Read(m, PWord(dir, i)));
    assert AreTables(m, dir, all);
    var t :| AreTables(m, dir, t);
    t
  }

  /** The first `k` words of a frame, all 0. */
  function Zeros(frame: nat, k: nat): (z: Memory) {
    map i | 0 <= i < k :: PWord(frame, i) := 0
  }

  /** Memory once v's directory entry names the zeroed table `spare`. */
  function Installed(m: Memory, dir: nat, v: Addr, spare: nat): (r: Memory) {
    m[PdeSlot(dir, v) := Entry(spare)] + Zeros(spare, 1024)
  }

  /** Memory after `page_table_add`: `spare` is the frame taken for a missing table. */
  function Added(m: Memory, dir: nat, v: Addr, frame: nat, spare: nat): (r: Memory) {
    var t := if HasTable(m, dir, v) then m else Installed(m, dir, v, spare);
    t[Slot(t, dir, v) := Entry(frame)]
  }

  /** Memory after `page_table_pte_remove`. */
  function Removed(m: Memory, dir: nat, v: Addr): (r: Memory)
    requires Translate(m, dir, v).Phys?
  {
    m[Slot(m, dir, v) := Read(m, Slot(m, dir, v)) - 1]
  }

  /** What `page_table_add` may be given: v unmapped, and a fresh frame for a missing table. */
  ghost predicate Addable(m: Memory, dir: nat, v: Addr, spare: nat) {
    && WellFormed(m, dir) && !InWindow(v)
    && !Translate(m, dir, v).Phys?
    && (!HasTable(m, dir, v) ==> UnusedFrame(m, dir, spare))
  }

  lemma InstalledRead(m: Memory, dir: nat, v: Addr, spare: nat, a: PWord)
    requires spare != dir
    ensures Read(Installed(m, dir, v, spare), a) ==
            if a.frame == spare && a.idx < 1024 then 0
            else if a == PdeSlot(dir, v) then Entry(spare)
            else Read(m, a)
  {
    var z := Zeros(spare, 1024);
    assert a in z <==> a.frame == spare && a.idx < 1024 by {
      if a.frame == spare && a.idx < 1024 { assert PWord(spare, a.idx) in z; }
    }
  }

  lemma InstalledWellFormed(m: Memory, dir: nat, v: Addr, spare: nat)
    requires WellFormed(m, dir) && !InWindow(v) && UnusedFrame(m, dir, spare)
    ensures var m' := Installed(m, dir, v, spare);
            && WellFormed(m', dir) && HasTable(m', dir, v) && TableOf(m', dir, v) == spare
            && Open(Read(m', PdeSlot(dir, v)))
            && Read(m', Slot(m', dir, v)) == 0
  {
    forall a ensures Read(Installed(m, dir, v, spare), a) ==
                     if a.frame == spare && a.idx < 1024 then 0
                     else if a == PdeSlot(dir, v) then Entry(spare)
                     else Read(m, a)
    {
      InstalledRead(m, dir, v, spare, a);
    }
  }

  /** Pointing v's directory entry at a fresh, zeroed table changes no translation
      outside the window. */
  lemma InstalledTranslate(m: Memory, dir: nat, v: Addr, spare: nat, w: Addr)
    requires WellFormed(m, dir) && !InWindow(v) && !InWindow(w) && !HasTable(m, dir, v) && UnusedFrame(m, dir, spare)
    ensures Translate(Installed(m, dir, v, spare), dir, w) == Translate(m, dir, w)
    ensures Access(Installed(m, dir, v, spare), dir, w) == Access(m, dir, w)
  {
    var m' := Installed(m, dir, v, spare);
    InstalledRead(m, dir, v, spare, PdeSlot(dir, w));
    InstalledRead(m, dir, v, spare, Slot(m, dir, w));
    InstalledRead(m, dir, v, spare, Slot(m', dir, w));
    assert HasTable(m, dir, w) ==> TableOf(m, dir, w) == FrameOf(Read(m, PWord(dir, PdeIdx(w))));
  }

  /** The main result on `page_table_add`: v translates to `frame`, open to user mode and to
      writing, and every address outside the window keeps its translation and its access
      rights unless v's own entry governs it. */
  lemma AddedTranslate(m: Memory, dir: nat, v: Addr, frame: nat, spare: nat, w: Addr)
    requires Addable(m, dir, v, spare)
    ensures var m' := Added(m, dir, v, frame, spare);
            && WellFormed(m', dir)
            && Translate(m', dir, v) == Phys(frame, v % 4096) && Access(m', dir, v) == FULL
            && (!InWindow(w) && !(HasTable(m', dir, w) && Slot(m', dir, w) == Slot(m', dir, v)) ==>
                  Translate(m', dir, w) == Translate(m, dir, w) && Access(m', dir, w) == Access(m, dir, w))
  {
    var t := if HasTable(m, dir, v) then m else Installed(m, dir, v, spare);
    if !HasTable(m, dir, v) {
      InstalledWellFormed(m, dir, v, spare);
      if !InWindow(w) { InstalledTranslate(m, dir, v, spare, w); }
    }
    SlotWriteSelf(t, dir, v, Entry(frame));
    SlotWriteDir(t, dir, v, Entry(frame), w);
    SlotWriteDir(t, dir, v, Entry(frame), v);
    if !InWindow(w) && HasTable(t, dir, w) && Slot(t, dir, w) != Slot(t, dir, v) {
      SlotWrite(t, dir, v, Entry(frame), w);
    }
  }

  /** Writing a page table entry leaves the directory alone. */
  lemma SlotWriteDir(m: Memory, dir: nat, v: Addr, e: nat, w: Addr)
    requires WellFormed(m, dir) && !InWindow(v) && HasTable(m, dir, v)
    ensures var m' := m[Slot(m, dir, v) := e];
            && HasTable(m', dir, w) == HasTable(m, dir, w) && TableOf(m', dir, w) == TableOf(m, dir, w)
            && Slot(m', dir, w) == Slot(m, dir, w)
  {
    assert PdeSlot(dir, v) == PWord(dir, PdeIdx(v));
    assert TableOf(m, dir, v) != dir;
  }

  // ----- the mapping from pages to frames --------------------------------------------------------------

  /** Entries lo..1022 of the directory name pairwise different tables.  A process
      directory has lo = 0; the boot directory has lo = 1, because its entries 0 and 768
      share a table (boot/loader.S:282-283). */
  ghost predicate NoAlias(m: Memory, dir: nat, lo: nat) {
    forall i, j :: lo <= i < j < 1023 && Present(Read(m, PWord(dir, i))) && Present(Read(m, PWord(dir, j))) ==>
      FrameOf(Read(m, PWord(dir, i))) != FrameOf(Read(m, PWord(dir, j)))
  }

  type Page = p: nat | p < 0x100000

  function AddrOf(p: Page): (v: Addr)
    ensures PdeIdx(v) == p / 1024 && PteIdx(v) == p % 1024 && v % 4096 == 0 && v / 4096 == p
  {
    p * 4096
  }

  predicate Managed(lo: nat, p: int) { lo * 1024 <= p < 1023 * 1024 }

  ghost predicate IsMapping(m: Memory, dir: nat, lo: nat, g: map<nat, nat>) {
    && (forall p: nat {:trigger Managed(lo, p)} :: p in g ==> p < 0x100000 && Managed(lo, p))
    && (forall p: Page {:trigger Translate(m, dir, AddrOf(p))} :: Managed(lo, p) ==>
          (p in g <==> Translate(m, dir, AddrOf(p)).Phys?)
          && (p in g ==> g[p] == Translate(m, dir, AddrOf(p)).frame))
  }

  /** The partial map that the directory implements, outside the window. */
  ghost function Mapping(m: Memory, dir: nat, lo: nat): (g: map<nat, nat>)
  {
    var all := map p | 0 <= p < 0x100000 && Managed(lo, p) && Translate(m, dir, AddrOf(p)).Phys? :: Translate(m, dir, AddrOf(p)).frame;
    assert IsMapping(m, dir, lo, all);
    var g :| IsMapping(m, dir, lo, g);
    g
  }

  lemma MappingUnique(m: Memory, dir: nat, lo: nat, g: map<nat, nat>)
    requires IsMapping(m, dir, lo, g)
    ensures g == Mapping(m, dir, lo)
  {
    var h := Mapping(m, dir, lo);
    forall p: nat ensures (p in g <==> p in h) && (p in g ==> g[p] == h[p]) {
      if Managed(lo, p) && p < 0x100000 { assert Translate(m, dir, AddrOf(p)) == Translate(m, dir, AddrOf(p)); }
    }
  }

  /** With no aliasing, two managed pages share an entry only if they are the same page. */
  lemma SlotsApart(m: Memory, dir: nat, lo: nat, v: Addr, w: Addr)
    requires NoAlias(m, dir, lo) && HasTable(m, dir, v) && HasTable(m, dir, w)
    requires lo <= PdeIdx(v) < 1023 && lo <= PdeIdx(w) < 1023
    ensures Slot(m, dir, v) == Slot(m, dir, w) <==> v / 4096 == w / 4096
  {
    SamePage(v, w);
    if PdeIdx(v) < PdeIdx(w) {
      assert Present(Read(m, PWord(dir, PdeIdx(v)))) && Present(Read(m, PWord(dir, PdeIdx(w))));
    } else if PdeIdx(w) < PdeIdx(v) {
      assert Present(Read(m, PWord(dir, PdeIdx(v)))) && Present(Read(m, PWord(dir, PdeIdx(w))));
    }
  }

  /** Directory entry i after `page_table_add`. */
  lemma AddedDir(m: Memory, dir: nat, v: Addr, frame: nat, spare: nat, i: nat)
    requires Addable(m, dir, v, spare)
    ensures Read(Added(m, dir, v, frame, spare), PWord(dir, i)) ==
            if i == PdeIdx(v) && !HasTable(m, dir, v) then Entry(spare) else Read(m, PWord(dir, i))
  {
    if !HasTable(m, dir, v) {
      InstalledWellFormed(m, dir, v, spare);
      InstalledRead(m, dir, v, spare, PWord(dir, i));
    } else {
      assert Present(Read(m, PWord(dir, PdeIdx(v))));
    }
  }

  lemma AddedNoAlias(m: Memory, dir: nat, lo: nat, v: Addr, frame: nat, spare: nat)
    requires Addable(m, dir, v, spare) && NoAlias(m, dir, lo)
    ensures NoAlias(Added(m, dir, v, frame, spare), dir, lo)
  {
    var m' := Added(m, dir, v, frame, spare);
    forall i, j | lo <= i < j < 1023 && Present(Read(m', PWord(dir, i))) && Present(Read(m', PWord(dir, j)))
      ensures FrameOf(Read(m', PWord(dir, i))) != FrameOf(Read(m', PWord(dir, j)))
    {
      AddedDir(m, dir, v, frame, spare, i);
      AddedDir(m, dir, v, frame, spare, j);
    }
  }

  /** A frame unused before is unused after, unless it became the new table. */
  lemma AddedUnused(m: Memory, dir: nat, v: Addr, frame: nat, spare: nat, f: nat)
    requires Addable(m, dir, v, spare) && UnusedFrame(m, dir, f) && (HasTable(m, dir, v) || f != spare)
    ensures UnusedFrame(Added(m, dir, v, frame, spare), dir, f)
  {
    var m' := Added(m, dir, v, frame, spare);
    forall i | 0 <= i < 1023 && Present(Read(m', PWord(dir, i))) ensures FrameOf(Read(m', PWord(dir, i))) != f {
      AddedDir(m, dir, v, frame, spare, i);
    }
  }

  /** `page_table_add` uses the frames it used, and the frame of the new table. */
  lemma AddedTables(m: Memory, dir: nat, v: Addr, frame: nat, spare: nat)
    requires Addable(m, dir, v, spare)
    ensures TableFrames(Added(m, dir, v, frame, spare), dir)
            == TableFrames(m, dir) + if HasTable(m, dir, v) then {} else {spare}
  {
    var m' := Added(m, dir, v, frame, spare);
    forall i | 0 <= i < 1023
      ensures Read(m', PWord(dir, i)) == if i == PdeIdx(v) && !HasTable(m, dir, v) then Entry(spare) else Read(m, PWord(dir, i))
    {
      AddedDir(m, dir, v, frame, spare, i);
    }
    forall f ensures UnusedFrame(m', dir, f) <==> UnusedFrame(m, dir, f) && (f != spare || HasTable(m, dir, v)) {
      if UnusedFrame(m', dir, f) {
        forall i | 0 <= i < 1023 && Present(Read(m, PWord(dir, i))) ensures FrameOf(Read(m, PWord(dir, i))) != f {
          assert Present(Read(m', PWord(dir, i)));
        }
        assert Present(Read(m', PWord(dir, PdeIdx(v))));
      }
    }
    forall f ensures f in TableFrames(m', dir) <==> f in TableFrames(m, dir) + if HasTable(m, dir, v) then {} else {spare} {
      assert UnusedFrame(m', dir, f) <==> UnusedFrame(m, dir, f) && (f != spare || HasTable(m, dir, v));
    }
  }

  /** `page_table_add` leaves everything mapped open. */
  lemma AddedOpen(m: Memory, dir: nat, v: Addr, frame: nat, spare: nat)
    requires Addable(m, dir, v, spare) && AllOpen(m, dir)
    ensures AllOpen(Added(m, dir, v, frame, spare), dir)
  {
    var m' := Added(m, dir, v, frame, spare);
    forall w: Addr | !InWindow(w) ensures OpenAt(m', dir, w) {
      AddedTranslate(m, dir, v, frame, spare, w);
      assert OpenAt(m, dir, w);
      if HasTable(m', dir, w) && Slot(m', dir, w) == Slot(m', dir, v) { SharedSlot(m', dir, v, w); }
    }
  }

  /** Addresses governed by the same entry of a well-formed directory have the same rights. */
  lemma SharedSlot(m: Memory, dir: nat, v: Addr, w: Addr)
    requires WellFormed(m, dir) && HasTable(m, dir, v) && HasTable(m, dir, w) && Slot(m, dir, w) == Slot(m, dir, v)
    requires !InWindow(v) && !InWindow(w)
    ensures Access(m, dir, v) == Access(m, dir, w)
  {
    assert PdeSlot(dir, v) == PWord(dir, PdeIdx(v)) && PdeSlot(dir, w) == PWord(dir, PdeIdx(w));
  }

  /** `page_table_pte_remove` likewise. */
  lemma RemovedOpen(m: Memory, dir: nat, v: Addr)
    requires WellFormed(m, dir) && !InWindow(v) && Translate(m, dir, v).Phys? && AllOpen(m, dir)
    ensures AllOpen(Removed(m, dir, v), dir)
  {
    var m' := Removed(m, dir, v);
    forall w: Addr | !InWindow(w) ensures OpenAt(m', dir, w) {
      RemovedTranslate(m, dir, v, w);
      SlotWriteDir(m, dir, v, Read(m, Slot(m, dir, v)) - 1, w);
      SlotWriteDir(m, dir, v, Read(m, Slot(m, dir, v)) - 1, v);
      assert OpenAt(m, dir, w);
      if HasTable(m, dir, w) && Slot(m, dir, w) == Slot(m, dir, v) { SharedSlot(m', dir, v, w); }
    }
  }

  /** `page_table_add` extends the partial map by exactly one pair. */
  lemma AddedMapping(m: Memory, dir: nat, lo: nat, p: Page, frame: nat, spare: nat)
    requires Addable(m, dir, AddrOf(p), spare) && NoAlias(m, dir, lo) && Managed(lo, p)
    ensures Mapping(Added(m, dir, AddrOf(p), frame, spare), dir, lo) == Mapping(m, dir, lo)[p := frame]
  {
    var v := AddrOf(p);
    var m' := Added(m, dir, v, frame, spare);
    AddedNoAlias(m, dir, lo, v, frame, spare);
    forall q: Page | Managed(lo, q)
      ensures Translate(m', dir, AddrOf(q)) == if q == p then Phys(frame, 0) else Translate(m, dir, AddrOf(q))
    {
      AddedTranslate(m, dir, v, frame, spare, AddrOf(q));
      if q != p && HasTable(m', dir, AddrOf(q)) { SlotsApart(m', dir, lo, v, AddrOf(q)); }
    }
    var g := Mapping(m, dir, lo)[p := frame];
    forall q: nat | q in g ensures q < 0x100000 && Managed(lo, q) {
      assert q in Mapping(m, dir, lo) ==> Managed(lo, q);
    }
    forall q: Page | Managed(lo, q)
      ensures (q in g <==> Translate(m', dir, AddrOf(q)).Phys?) && (q in g ==> g[q] == Translate(m', dir, AddrOf(q)).frame)
    {
      assert q in Mapping(m, dir, lo) <==> Translate(m, dir, AddrOf(q)).Phys?;
    }
    MappingUnique(m', dir, lo, g);
  }

  lemma RemovedTranslate(m: Memory, dir: nat, v: Addr, w: Addr)
    requires WellFormed(m, dir) && !InWindow(v) && Translate(m, dir, v).Phys?
    ensures var m' := Removed(m, dir, v);
            && WellFormed(m', dir)
            && Translate(m', dir, v) == Fault
            && ((HasTable(m, dir, w) && Slot(m, dir, w) == Slot(m, dir, v))
                || (Translate(m', dir, w) == Translate(m, dir, w) && Access(m', dir, w) == Access(m, dir, w)))
  {
    var e := Read(m, Slot(m, dir, v)) - 1;
    SlotWriteSelf(m, dir, v, e);
    SlotWriteDir(m, dir, v, e, w);
    if Slot(m, dir, w) != Slot(m, dir, v) { SlotWrite(m, dir, v, e, w); }
  }

  /** `page_table_pte_remove` takes exactly one pair out of the partial map, and leaves
      the directory as it was. */
  lemma RemovedMapping(m: Memory, dir: nat, lo: nat, p: Page)
    requires WellFormed(m, dir) && NoAlias(m, dir, lo) && Managed(lo, p) && Translate(m, dir, AddrOf(p)).Phys?
    ensures Mapping(Removed(m, dir, AddrOf(p)), dir, lo) == Mapping(m, dir, lo) - {p}
    ensures forall i :: Read(Removed(m, dir, AddrOf(p)), PWord(dir, i)) == Read(m, PWord(dir, i))
  {
    var v := AddrOf(p);
    var m' := Removed(m, dir, v);
    assert Present(Read(m, PWord(dir, PdeIdx(v))));
    forall q: Page | Managed(lo, q)
      ensures Translate(m', dir, AddrOf(q)) == if q == p then Fault else Translate(m, dir, AddrOf(q))
    {
      RemovedTranslate(m, dir, v, AddrOf(q));
      if HasTable(m, dir, AddrOf(q)) { SlotsApart(m, dir, lo, v, AddrOf(q)); }
    }
    var g := Mapping(m, dir, lo) - {p};
    forall q: nat | q in g ensures q < 0x100000 && Managed(lo, q) {
      assert q in Mapping(m, dir, lo) ==> Managed(lo, q);
    }
    forall q: Page | Managed(lo, q)
      ensures (q in g <==> Translate(m', dir, AddrOf(q)).Phys?) && (q in g ==> g[q] == Translate(m', dir, AddrOf(q)).frame)
    {
      assert q in Mapping(m, dir, lo) <==> Translate(m, dir, AddrOf(q)).Phys?;
    }
    MappingUnique(m', dir, lo, g);
  }

  /** `page_table_pte_remove` frees no page table. */
  lemma RemovedTables(m: Memory, dir: nat, lo: nat, p: Page)
    requires WellFormed(m, dir) && NoAlias(m, dir, lo) && Managed(lo, p) && Translate(m, dir, AddrOf(p)).Phys?
    ensures NoAlias(Removed(m, dir, AddrOf(p)), dir, lo)
    ensures TableFrames(Removed(m, dir, AddrOf(p)), dir) == TableFrames(m, dir)
  {
    var m' := Removed(m, dir, AddrOf(p));
    RemovedMapping(m, dir, lo, p);
    forall f ensures f in TableFrames(m', dir) <==> f in TableFrames(m, dir) {
      assert UnusedFrame(m', dir, f) <==> UnusedFrame(m, dir, f);
    }
  }

  /** Adding a page and taking it out again restores the partial map. */
  lemma AddRemove(m: Memory, dir: nat, lo: nat, p: Page, frame: nat, spare: nat)
    requires Addable(m, dir, AddrOf(p), spare) && NoAlias(m, dir, lo) && Managed(lo, p)
    ensures var m' := Added(m, dir, AddrOf(p), frame, spare);
            && Translate(m', dir, AddrOf(p)).Phys?
            && Mapping(Removed(m', dir, AddrOf(p)), dir, lo) == Mapping(m, dir, lo)
  {
    var v := AddrOf(p);
    var m' := Added(m, dir, v, frame, spare);
    AddedTranslate(m, dir, v, frame, spare, v);
    AddedNoAlias(m, dir, lo, v, frame, spare);
    AddedMapping(m, dir, lo, p, frame, spare);
    RemovedMapping(m', dir, lo, p);
    assert p !in Mapping(m, dir, lo);
  }
}
