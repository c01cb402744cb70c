/** The file system as it runs: sectors read and written, the two bitmaps and the inodes
    updated in place (fs/file.c, fs/inode.c, fs/fs.c).

    Files and directories are inodes with 141 slots.  The set bits of the block bitmap are
    the disjoint union of the blocks of all inodes and of `pad`, the bits that stand for no
    block; the set bits of the inode bitmap are the inodes.

    `bitmap_scan` halts in an ASSERT when no bit is free, and `file_write` halts in its
    own ASSERT when the file would reach 71680 bytes; both are `Halted`. */
module FileSystem {
  import opened Bitmap
  import opened Files
  import opened Directory
  import opened InodeTable
  import opened Records

  datatype WriteResult = TooBig | Halted | Written(count: nat)

  /** `Stopped`: the record carries another number.  `Stale`: it carries the number but not the
      inode, and the release goes on with blocks of the past. */
  datatype Release = Released | Stopped | Stale

  /** `Overrun`: the loop would leave the file, the block table and the caller's buffer. */
  datatype ReadResult = Eof | ReadHalted | Overrun | Data(bytes: seq<Byte>)

  ghost predicate Thirteen(inodes: map<nat, Inode>) {
    forall f {:trigger inodes[f]} :: f in inodes ==> |inodes[f].sectors| == 13
  }

  /** The slots of every inode. */
  ghost function OwnMap(d: Disk, inodes: map<nat, Inode>): (own: map<nat, seq<nat>>)
    requires Thirteen(inodes)
  {
    map f | f in inodes :: Slots(d, inodes[f].sectors)
  }

  ghost predicate NodeOk(d: Disk, f: Inode, dir: bool) {
    |f.sectors| == 13 && if dir then DirOk(d, Slots(d, f.sectors), f.size) else FileOk(d, f)
  }

  ghost predicate OkAt(d: Disk, inodes: map<nat, Inode>, dirs: set<nat>, f: nat)
    requires f in inodes
  {
    NodeOk(d, inodes[f], f in dirs)
  }

  /** Every file and every directory is well formed, and the blocks in use are the disjoint
      union of `pad` and their blocks. */
  ghost predicate FsOk(d: Disk, inodes: map<nat, Inode>, dirs: set<nat>, used: set<nat>, pad: set<nat>) {
    && Thirteen(inodes) && (forall f {:trigger OkAt(d, inodes, dirs, f)} :: f in inodes ==> OkAt(d, inodes, dirs, f))
    && Conserved(OwnMap(d, inodes), used, pad)
  }

  /** The inode has the same blocks on both disks, and none of them changed. */
  ghost predicate SameFile(d: Disk, e: Disk, f: Inode) {
    |f.sectors| == 13 && Slots(e, f.sectors) == Slots(d, f.sectors) && DiskSame(d, e, Slots(d, f.sectors))
  }

  ghost predicate AllSame(d: Disk, e: Disk, inodes: map<nat, Inode>) {
    forall g {:trigger inodes[g]} :: g in inodes ==> SameFile(d, e, inodes[g])
  }

  /** `inodes` and `jnodes` agree on every inode but `f`, and so do the disks on its blocks. */
  ghost predicate OthersSame(d: Disk, inodes: map<nat, Inode>, e: Disk, jnodes: map<nat, Inode>, f: nat) {
    && jnodes.Keys == inodes.Keys
    && forall g {:trigger jnodes[g]} :: g in inodes && g != f ==> jnodes[g] == inodes[g] && SameFile(d, e, inodes[g])
  }

  /** What an inode with the same blocks stands for: a file keeps its contents, a directory
      its rows. */
  lemma SameMeans(d: Disk, e: Disk, f: Inode, dir: bool)
    requires NodeOk(d, f, dir) && SameFile(d, e, f)
    ensures NodeOk(e, f, dir)
    ensures !dir ==> FileContents(e, f) == FileContents(d, f)
    ensures dir ==> AllRows(e, Slots(e, f.sectors)) == AllRows(d, Slots(d, f.sectors))
  {
    if dir { DirSame(d, e, Slots(d, f.sectors), f.size); } else { FileSame(d, e, f); }
  }

  lemma SameTrans(d: Disk, e: Disk, g: Disk, f: Inode)
    requires SameFile(d, e, f) && SameFile(e, g, f)
    ensures SameFile(d, g, f)
  {
  }

  /** The disk changed only in blocks of `s`. */
  ghost predicate OnlyWithin(d: Disk, e: Disk, s: seq<nat>) {
    forall lba {:trigger SectorAt(e, lba)} :: lba !in OwnedBy(s) ==> SectorAt(e, lba) == SectorAt(d, lba)
  }

  /** An inode whose blocks did not change has the same slots. */
  lemma BlocksSame(d: Disk, e: Disk, f: Inode)
    requires |f.sectors| == 13 && DiskSame(d, e, Slots(d, f.sectors))
    ensures SameFile(d, e, f)
  {
    var s := Slots(d, f.sectors);
    assert s[140] == f.sectors[12];
    forall i | 0 <= i < 141 ensures Slots(e, f.sectors)[i] == s[i] {}
  }

  lemma OtherFileSame(d: Disk, e: Disk, s: seq<nat>, f: Inode)
    requires |f.sectors| == 13 && OnlyWithin(d, e, s) && OwnedBy(Slots(d, f.sectors)) !! OwnedBy(s)
    ensures SameFile(d, e, f)
  {
    var t := Slots(d, f.sectors);
    forall i | 0 <= i < |t| && t[i] != 0 ensures SectorAt(e, t[i]) == SectorAt(d, t[i]) { OwnedSlot(t, i); }
    BlocksSame(d, e, f);
  }

  lemma ApartFrom(own: map<nat, seq<nat>>, used: set<nat>, pad: set<nat>, f: nat, g: nat)
    requires Conserved(own, used, pad) && f in own && g in own && g != f
    ensures OwnedBy(own[g]) !! OwnedBy(own[f])
  {
  }

  lemma OthersUntouched(d: Disk, inodes: map<nat, Inode>, used: set<nat>, pad: set<nat>, e: Disk, f: nat, s: seq<nat>, g: nat)
    requires Thirteen(inodes)
    requires f in inodes && g in inodes && g != f && Conserved(OwnMap(d, inodes)[f := s], used, pad) && OnlyWithin(d, e, s)
    ensures SameFile(d, e, inodes[g])
  {
    ApartFrom(OwnMap(d, inodes)[f := s], used, pad, f, g);
    OtherFileSame(d, e, s, inodes[g]);
  }

  lemma OwnMapAfter(d: Disk, inodes: map<nat, Inode>, e: Disk, f: nat, after: Inode)
    requires Thirteen(inodes)
    requires |after.sectors| == 13 && f in inodes
    requires forall g {:trigger inodes[g]} :: g in inodes && g != f ==> SameFile(d, e, inodes[g])
    ensures OwnMap(e, inodes[f := after]) == OwnMap(d, inodes)[f := Slots(e, after.sectors)]
  {
  }

  /** The blocks `s` may take the place of the blocks `s0` of an inode. */
  ghost predicate Replaces(s0: seq<nat>, s: seq<nat>, used: set<nat>, used': set<nat>) {
    DistinctSlots(s) && OwnedBy(s) !! (used - OwnedBy(s0)) && used' == used - OwnedBy(s0) + OwnedBy(s)
  }

  lemma GrownReplaces(s0: seq<nat>, s: seq<nat>, used: set<nat>, used': set<nat>)
    requires Grown(s0, s, used, used')
    ensures Replaces(s0, s, used, used')
  {
    GrownBlocks(s0, s, used, used');
  }

  /** An inode that exchanged blocks, and changed only those it then has, leaves the rest alone. */
  lemma ReplacedKeepsOthers(d: Disk, inodes: map<nat, Inode>, dirs: set<nat>, used: set<nat>, pad: set<nat>, e: Disk, f: nat, after: Inode, s: seq<nat>, used': set<nat>, dirs': set<nat>)
    requires FsOk(d, inodes, dirs, used, pad) && f in inodes && NodeOk(e, after, f in dirs') && (dirs' == dirs || dirs' == dirs + {f})
    requires Replaces(Slots(d, inodes[f].sectors), s, used, used')
    requires OnlyWithin(d, e, s) && Slots(e, after.sectors) == s
    ensures FsOk(e, inodes[f := after], dirs', used', pad) && OthersSame(d, inodes, e, inodes[f := after], f)
  {
    ReplaceKeeps(OwnMap(d, inodes), used, pad, f, s);
    forall g {:trigger inodes[g]} | g in inodes && g != f ensures SameFile(d, e, inodes[g]) {
      OthersUntouched(d, inodes, used', pad, e, f, s, g);
    }
    OwnMapAfter(d, inodes, e, f, after);
    AssembleFs(d, inodes, dirs, used', pad, e, f, after, dirs');
  }

  lemma AssembleFs(d: Disk, inodes: map<nat, Inode>, dirs: set<nat>, used: set<nat>, pad: set<nat>, e: Disk, f: nat, after: Inode, dirs': set<nat>)
    requires f in inodes && NodeOk(e, after, f in dirs') && (dirs' == dirs || dirs' == dirs + {f}) && Thirteen(inodes)
    requires forall g {:trigger OkAt(d, inodes, dirs, g)} :: g in inodes ==> OkAt(d, inodes, dirs, g)
    requires forall g {:trigger inodes[g]} :: g in inodes && g != f ==> SameFile(d, e, inodes[g])
    requires Conserved(OwnMap(e, inodes[f := after]), used, pad)
    ensures FsOk(e, inodes[f := after], dirs', used, pad) && OthersSame(d, inodes, e, inodes[f := after], f)
  {
    var jnodes := inodes[f := after];
    forall g | g in jnodes ensures OkAt(e, jnodes, dirs', g) {
      if g != f {
        assert OkAt(d, inodes, dirs, g);
        SameMeans(d, e, inodes[g], g in dirs);
      }
    }
    forall g | g in inodes && g != f ensures jnodes[g] == inodes[g] && SameFile(d, e, inodes[g]) {}
    assert jnodes.Keys == inodes.Keys;
  }

  /** A disk that changed in no block of an inode. */
  lemma AllSameOk(d: Disk, inodes: map<nat, Inode>, dirs: set<nat>, used: set<nat>, pad: set<nat>, e: Disk)
    requires FsOk(d, inodes, dirs, used, pad) && AllSame(d, e, inodes)
    ensures FsOk(e, inodes, dirs, used, pad)
  {
    forall g | g in inodes ensures OkAt(e, inodes, dirs, g) {
      assert OkAt(d, inodes, dirs, g);
      SameMeans(d, e, inodes[g], g in dirs);
    }
    assert OwnMap(e, inodes) == OwnMap(d, inodes);
  }

  /** Changes to the inode table reach no block in use. */
  lemma TableOnly(d: Disk, inodes: map<nat, Inode>, dirs: set<nat>, used: set<nat>, pad: set<nat>, e: Disk, table: nat)
    requires FsOk(d, inodes, dirs, used, pad) && OutsideSame(d, e, table) && forall x {:trigger x in used} :: x in used ==> table + 608 <= x
    ensures AllSame(d, e, inodes) && FsOk(e, inodes, dirs, used, pad)
  {
    var own := OwnMap(d, inodes);
    forall g | g in inodes ensures SameFile(d, e, inodes[g]) {
      var s := Slots(d, inodes[g].sectors);
      assert own[g] == s && OwnedBy(own[g]) <= Owned(own);
      forall i | 0 <= i < |s| && s[i] != 0 ensures SectorAt(e, s[i]) == SectorAt(d, s[i]) { OwnedSlot(s, i); }
      BlocksSame(d, e, inodes[g]);
    }
    AllSameOk(d, inodes, dirs, used, pad, e);
  }

  lemma TableChange(d: Disk, inodes: map<nat, Inode>, dirs: set<nat>, used: set<nat>, pad: set<nat>, e: Disk, table: nat)
    requires OutsideSame(d, e, table) && forall x {:trigger x in used} :: x in used ==> table + 608 <= x
    ensures FsOk(e, inodes, dirs, used, pad) <==> FsOk(d, inodes, dirs, used, pad)
    ensures FsOk(d, inodes, dirs, used, pad) ==> AllSame(d, e, inodes)
  {
    assert OutsideSame(e, d, table) by {
      forall x: nat | x < table || table + 608 <= x ensures SectorAt(d, x) == SectorAt(e, x) {}
    }
    if FsOk(d, inodes, dirs, used, pad) { TableOnly(d, inodes, dirs, used, pad, e, table); }
    if FsOk(e, inodes, dirs, used, pad) { TableOnly(e, inodes, dirs, used, pad, d, table); }
  }

  // ----- tables of blocks while a write collects them --------------------------------------------------

  /** The first twelve slots and the table pointer are in the inode. */
  ghost predicate InInode(sectors: seq<nat>, s: seq<nat>) {
    |sectors| == 13 && |s| == 141 && sectors[12] == s[140] && forall i {:trigger s[i]} :: 0 <= i < 12 ==> s[i] == sectors[i]
  }

  /** Slots from..to were filled: the rest is as before. */
  ghost predicate FilledIn(s: seq<nat>, t: seq<nat>, from: nat, to: nat) {
    |s| == 141 && |t| == 141 && forall i {:trigger t[i]} :: 0 <= i < 141 ==>
      if from <= i < to then t[i] != 0 else t[i] == s[i]
  }

  ghost predicate BlocksAgree(blocks: seq<nat>, s: seq<nat>, from: nat, to: nat) {
    |blocks| == 140 && |s| == 141 && forall i {:trigger blocks[i]} {:trigger s[i]} :: from <= i < to <= 140 ==> blocks[i] == s[i]
  }

  function ReadTable(sec: Sector): (ws: seq<nat>)
    ensures |ws| == 128 && forall i :: 0 <= i < 128 ==> ws[i] == Word(sec, i)
  {
    seq(128, i requires 0 <= i < 128 => Word(sec, i))
  }

  /** With no table, the inode holds all the slots. */
  lemma NoTable(d: Disk, sectors: seq<nat>, s: seq<nat>)
    requires InInode(sectors, s) && s[140] == 0 && forall i {:trigger s[i]} :: 12 <= i < 140 ==> s[i] == 0
    ensures Slots(d, sectors) == s
  {
    forall i | 0 <= i < 141 ensures Slots(d, sectors)[i] == s[i] {}
  }

  /** Once the table is written, inode and disk hold all the slots. */
  lemma TableWritten(d: Disk, sectors: seq<nat>, blocks: seq<nat>, s: seq<nat>)
    requires InInode(sectors, s) && s[140] != 0 && BlocksAgree(blocks, s, 12, 140)
    requires forall i {:trigger s[i]} :: 0 <= i < 141 ==> s[i] < 0x1_0000_0000
    ensures Slots(d[sectors[12] := Encode(blocks[12..])], sectors) == s
  {
    var ws := blocks[12..];
    var e := d[sectors[12] := Encode(ws)];
    forall i | 0 <= i < 141 ensures Slots(e, sectors)[i] == s[i] {
      if 12 <= i < 140 {
        assert ws[i - 12] == blocks[i] == s[i];
        TableRoundTrip(ws, i - 12);
        assert SectorAt(e, sectors[12]) == Encode(ws);
      }
    }
  }

  lemma SlotsInInode(d: Disk, sectors: seq<nat>)
    requires |sectors| == 13
    ensures InInode(sectors, Slots(d, sectors))
  {
  }

  /** The blocks read from a table are the slots 12-139. */
  lemma TableRead(d: Disk, sectors: seq<nat>, blocks: seq<nat>)
    requires |sectors| == 13 && sectors[12] != 0 && |blocks| == 140
    ensures BlocksAgree(blocks[..12] + ReadTable(SectorAt(d, sectors[12])), Slots(d, sectors), 12, 140)
  {
  }

  lemma SlotsBounded(s0: seq<nat>, s: seq<nat>, used0: set<nat>, used: set<nat>, start: nat, bits: seq<bool>)
    requires Grown(s0, s, used0, used) && used == Marked(start, bits) && start + |bits| <= 0x1_0000_0000
    ensures forall i {:trigger s[i]} :: 0 <= i < |s| ==> s[i] < 0x1_0000_0000
  {
    InMarked(start, bits);
    forall i | 0 <= i < |s| && s[i] != 0 ensures s[i] in used { OwnedSlot(s, i); }
  }

  ghost predicate SameButSector(d: Disk, e: Disk, lba: nat) {
    forall x {:trigger SectorAt(e, x)} :: x != lba || lba == 0 ==> SectorAt(e, x) == SectorAt(d, x)
  }

  /** What lines 317-455 leave behind: the inode and the disk hold slots for `n` blocks,
      and all_blocks has every block the data will go to. */
  ghost predicate Collected(d: Disk, e: Disk, node: Inode, blocks: seq<nat>, s0: seq<nat>, t: seq<nat>, used0: set<nat>, used: set<nat>, n: nat) {
    && Grown(s0, t, used0, used) && InInode(node.sectors, t) && Slots(e, node.sectors) == t && Filled(t, n)
    && SameButSector(d, e, t[140])
    && BlocksAgree(blocks, t, node.size / 512, n)
  }

  /** Filling the slots has..will makes the first `will` ones present. */
  lemma FilledMore(s: seq<nat>, t: seq<nat>, has: nat, will: nat)
    requires |s| == 141 && has <= will <= 140 && FilledIn(s, t, has, will)
    requires forall i {:trigger s[i]} :: 0 <= i < 140 ==> (s[i] != 0 <==> i < has)
    requires s[140] != 0 <==> will > 12
    ensures Filled(t, will)
  {
    assert t[140] == s[140];
    forall i | 0 <= i < 140 ensures t[i] != 0 <==> i < will {
      assert s[i] != 0 <==> i < has;
    }
  }

  /** The new table holds the blocks has..will. */
  lemma TableFilled(d: Disk, node: Inode, blocks: seq<nat>, s0: seq<nat>, s: seq<nat>, t: seq<nat>, used0: set<nat>, used: set<nat>, has: nat, will: nat, start: nat, bits: seq<bool>)
    requires |s| == 141 && 1 <= has <= 12 < will <= 140 && has == node.size / 512 + 1 && FilledIn(s, t, has, will) && s[140] != 0
    requires forall i {:trigger s[i]} :: 0 <= i < 140 ==> (s[i] != 0 <==> i < has)
    requires Grown(s0, t, used0, used) && used == Marked(start, bits) && start + |bits| <= 0x1_0000_0000
    requires InInode(node.sectors, t) && BlocksAgree(blocks, t, has, 140) && blocks[has - 1] == s[has - 1]
    ensures Collected(d, d[node.sectors[12] := Encode(blocks[12..])], node, blocks, s0, t, used0, used, will)
  {
    FilledMore(s, t, has, will);
    SlotsBounded(s0, t, used0, used, start, bits);
    TableWritten(d, node.sectors, blocks, t);
    assert t[has - 1] == s[has - 1];
  }

  /** memcpy of data into a sector buffer. */
  function Overlay(base: Sector, off: nat, data: seq<Byte>): (io: Sector)
    requires off + |data| <= 512
  {
    base[..off] + data + base[off + |data|..]
  }

  /** One chunk of data in the block that holds the end of the file. */
  lemma ChunkWritten(d: Disk, t: seq<nat>, size: nat, chunk: seq<Byte>, base: Sector, io: Sector)
    requires |t| == 141 && DistinctSlots(t) && size < 71680 && |chunk| <= 512 - size % 512
    requires forall i {:trigger t[i]} :: 0 <= i <= size / 512 ==> t[i] != 0
    requires io == Overlay(base, size % 512, chunk)
    requires size % 512 > 0 ==> base == SectorAt(d, t[size / 512])
    ensures Contents(d[t[size / 512] := io], t, size + |chunk|) == Contents(d, t, size) + chunk
  {
    var idx, off := size / 512, size % 512;
    var e := d[t[idx] := io];
    var c := Contents(d, t, size) + chunk;
    forall k | 0 <= k < size + |chunk| ensures c[k] == ByteAt(e, t, k) {
      if k < size {
        ContentsAt(d, t, size, k);
        assert k / 512 <= idx;
        if k / 512 == idx {
          assert k % 512 < off;
        } else {
          assert t[k / 512] != 0;
          assert t[k / 512] != t[idx];
        }
      } else {
        assert k / 512 == idx && k % 512 == off + (k - size);
      }
    }
    ContentsIs(e, t, c);
  }

  /** Writing data blocks leaves the table, and with it the slots, as they were. */
  lemma SlotsStay(d: Disk, e: Disk, sectors: seq<nat>, i: nat)
    requires |sectors| == 13 && DistinctSlots(Slots(d, sectors)) && i < 140 && Slots(d, sectors)[i] != 0
    requires SameButSector(d, e, Slots(d, sectors)[i])
    ensures Slots(e, sectors) == Slots(d, sectors)
  {
    var s := Slots(d, sectors);
    assert s[140] == sectors[12];
    assert s[i] != s[140];
    forall j | 0 <= j < 141 ensures Slots(e, sectors)[j] == s[j] {}
  }

  /** After `written` bytes of buf; c0 is what the file held. */
  ghost predicate Progress(d0: Disk, d: Disk, t: seq<nat>, sectors: seq<nat>, c0: seq<Byte>, buf: seq<Byte>, written: nat) {
    && |sectors| == 13 && Slots(d, sectors) == t && OnlyWithin(d0, d, t)
    && written <= |buf| && |c0| + written <= 71680
    && Contents(d, t, |c0| + written) == c0 + buf[..written]
  }

  lemma ProgressStep(d0: Disk, d: Disk, t: seq<nat>, sectors: seq<nat>, c0: seq<Byte>, buf: seq<Byte>, written: nat, n: nat, base: Sector, io: Sector, idx: nat, off: nat)
    requires Progress(d0, d, t, sectors, c0, buf, written) && DistinctSlots(t) && written + n <= |buf| && |c0| + |buf| < 71680
    requires idx == (|c0| + written) / 512 && off == (|c0| + written) % 512 && n <= 512 - off
    requires Filled(t, (|c0| + |buf|) / 512 + 1)
    requires io == Overlay(base, off, buf[written..written + n])
    requires off > 0 ==> base == SectorAt(d, t[idx])
    ensures Progress(d0, d[t[idx] := io], t, sectors, c0, buf, written + n)
  {
    PresentUpTo(t, |c0| + written, |c0| + |buf|);
    ChunkWritten(d, t, |c0| + written, buf[written..written + n], base, io);
    StaysWithin(d0, d, t, sectors, idx, io);
    MoreWritten(c0, buf, written, n);
  }

  lemma MoreWritten(c0: seq<Byte>, buf: seq<Byte>, written: nat, n: nat)
    requires written + n <= |buf|
    ensures c0 + buf[..written] + buf[written..written + n] == c0 + buf[..written + n]
  {
    assert buf[..written] + buf[written..written + n] == buf[..written + n];
  }

  lemma IndexRange(size0: nat, written: nat, end: nat)
    requires size0 + written < end < 71680
    ensures size0 / 512 <= (size0 + written) / 512 < end / 512 + 1 <= 140
  {
  }

  lemma PresentUpTo(t: seq<nat>, size: nat, end: nat)
    requires size <= end && Filled(t, end / 512 + 1)
    ensures size / 512 < 140 && forall i {:trigger t[i]} :: 0 <= i <= size / 512 ==> t[i] != 0
  {
  }

  lemma StaysWithin(d0: Disk, d: Disk, t: seq<nat>, sectors: seq<nat>, idx: nat, io: Sector)
    requires |sectors| == 13 && Slots(d, sectors) == t && OnlyWithin(d0, d, t) && DistinctSlots(t) && idx < 140 && t[idx] != 0
    ensures Slots(d[t[idx] := io], sectors) == t && OnlyWithin(d0, d[t[idx] := io], t)
  {
    SlotsStay(d, d[t[idx] := io], sectors, idx);
    OwnedSlot(t, idx);
  }

  predicate Aligned(n: nat) { n % 512 == 0 }

  /** Unsigned 32-bit arithmetic. */
  function Wrap(n: nat): (r: nat) { n % 0x1_0000_0000 }

  /** The position `file_write` leaves: one before the end, in 32 bits. */
  function EndPos(size: nat): (p: nat) { Wrap(size + 0xffff_ffff) }

  lemma PosAdd(size: nat, n: nat)
    ensures Wrap(EndPos(size) + n) == EndPos(size + n)
  {
  }

  /** A chunk that does not end the data fills its sector. */
  lemma NextOffset(size: nat, left: nat, n: nat)
    requires n == if left < 512 - size % 512 then left else 512 - size % 512
    ensures n == left || Aligned(size + n)
    ensures left > 0 ==> n > 0
  {
  }

  /** Collecting blocks for a write keeps what the file held. */
  lemma KeptContents(d: Disk, e: Disk, s0: seq<nat>, t: seq<nat>, used0: set<nat>, used: set<nat>, size: nat, n: nat)
    requires |s0| == 141 && Grown(s0, t, used0, used) && SameButSector(d, e, t[140]) && size < 71680
    requires Filled(s0, n) && (size > 0 ==> n == size / 512 + 1)
    ensures Contents(e, t, size) == Contents(d, s0, size)
  {
    forall k | 0 <= k < size ensures Contents(d, s0, size)[k] == ByteAt(e, t, k) {
      ContentsAt(d, s0, size, k);
      assert s0[k / 512] != 0;
      assert t[k / 512] == s0[k / 512];
      assert t[k / 512] != t[140];
    }
    ContentsIs(e, t, Contents(d, s0, size));
  }

  /** The two phases of a write stay within the file's blocks. */
  lemma BothWithin(d: Disk, d1: Disk, e: Disk, t: seq<nat>)
    requires |t| == 141 && SameButSector(d, d1, t[140]) && OnlyWithin(d1, e, t)
    ensures OnlyWithin(d, e, t)
  {
    forall lba | lba !in OwnedBy(t) ensures SectorAt(e, lba) == SectorAt(d, lba) {
      assert lba != t[140] || t[140] == 0;
      assert SectorAt(d1, lba) == SectorAt(d, lba);
    }
  }

  /** A file ready to be written: it has the blocks its size calls for. */
  ghost predicate Begun(d: Disk, node: Inode, s0: seq<nat>, s: seq<nat>, used0: set<nat>, used: set<nat>) {
    && InInode(node.sectors, s) && Slots(d, node.sectors) == s
    && Grown(s0, s, used0, used) && Filled(s, node.size / 512 + 1)
  }

  /** buf was added after the first `size` bytes: d1 is the disk once the blocks were collected. */
  ghost predicate Appended(d0: Disk, d1: Disk, e: Disk, after: Inode, size: nat, buf: seq<Byte>, s0: seq<nat>, t: seq<nat>, used0: set<nat>, used: set<nat>) {
    && |after.sectors| == 13 && |t| == 141 && after.size == size + |buf| < 71680
    && Grown(s0, t, used0, used) && SameButSector(d0, d1, t[140])
    && OnlyWithin(d1, e, t) && Slots(e, after.sectors) == t && Filled(t, after.size / 512 + 1)
    && Contents(e, t, after.size) == Contents(d1, t, size) + buf
  }

  lemma OwnSlots(d: Disk, inodes: map<nat, Inode>, dirs: set<nat>, used: set<nat>, pad: set<nat>, ino: nat)
    requires FsOk(d, inodes, dirs, used, pad) && ino in inodes
    ensures NodeOk(d, inodes[ino], ino in dirs)
    ensures var s := Slots(d, inodes[ino].sectors); Grown(s, s, used, used)
  {
    var own := OwnMap(d, inodes);
    assert OwnedBy(own[ino]) <= Owned(own);
    GrowNone(own[ino], used);
    assert OkAt(d, inodes, dirs, ino);
  }

  /** The two phases of a write, put together. */
  lemma WriteDone(d0: Disk, inodes: map<nat, Inode>, dirs: set<nat>, used0: set<nat>, pad: set<nat>, ino: nat, d1: Disk, e: Disk, after: Inode, t: seq<nat>, used: set<nat>, buf: seq<Byte>)
    requires FsOk(d0, inodes, dirs, used0, pad) && ino in inodes && ino !in dirs
    requires Appended(d0, d1, e, after, inodes[ino].size, buf, Slots(d0, inodes[ino].sectors), t, used0, used)
    ensures FsOk(e, inodes[ino := after], dirs, used, pad) && OthersSame(d0, inodes, e, inodes[ino := after], ino)
    ensures FileContents(e, after) == FileContents(d0, inodes[ino]) + buf
    ensures OnlyWithin(d0, e, Slots(e, after.sectors))
  {
    var before := inodes[ino];
    assert OkAt(d0, inodes, dirs, ino);
    BothWithin(d0, d1, e, t);
    KeptContents(d0, d1, Slots(d0, before.sectors), t, used0, used, before.size, BlockCount(before.size, before.sectors));
    assert t[0] == after.sectors[0];
    assert FileOk(e, after);
    GrownReplaces(Slots(d0, before.sectors), t, used0, used);
    ReplacedKeepsOthers(d0, inodes, dirs, used0, pad, e, ino, after, t, used, dirs);
  }

  /** One chunk of data read from the block at `pos`. */
  lemma ChunkRead(d: Disk, t: seq<nat>, size: nat, pos: nat, n: nat)
    requires |t| == 141 && pos + n <= size < 71680 && n <= 512 - pos % 512
    ensures SectorAt(d, t[pos / 512])[pos % 512..pos % 512 + n] == Contents(d, t, size)[pos..pos + n]
  {
    var a, b := SectorAt(d, t[pos / 512])[pos % 512..pos % 512 + n], Contents(d, t, size)[pos..pos + n];
    forall k | 0 <= k < n ensures a[k] == b[k] {
      ContentsAt(d, t, size, pos + k);
      assert (pos + k) / 512 == pos / 512 && (pos + k) % 512 == pos % 512 + k;
    }
  }

  lemma SliceNext(c: seq<Byte>, from: nat, to: nat, n: nat)
    requires from <= to && to + n <= |c|
    ensures c[from..to] + c[to..to + n] == c[from..to + n]
  {
  }

  /** A file that reaches block 12 has its table. */
  lemma NeedsTable(d: Disk, f: Inode, idx: nat)
    requires FileOk(d, f) && 12 <= idx <= f.size / 512
    ensures f.sectors[12] != 0
  {
    assert Slots(d, f.sectors)[140] == f.sectors[12];
  }

  lemma OwnedTake(blocks: seq<nat>, i: nat)
    requires i < |blocks|
    ensures OwnedBy(blocks[..i + 1]) == OwnedBy(blocks[..i]) + if blocks[i] != 0 then {blocks[i]} else {}
  {
    assert blocks[..i + 1] == blocks[..i] + [blocks[i]];
  }

  /** The blocks that `inode_release` collects, and the table, are all the file owns. */
  lemma CollectedAll(d: Disk, sectors: seq<nat>, blocks: seq<nat>, cnt: nat)
    requires |sectors| == 13 && BlocksAgree(blocks, Slots(d, sectors), 0, cnt) && cnt == if sectors[12] != 0 then 140 else 12
    ensures OwnedBy(Slots(d, sectors)) == OwnedBy(blocks[..cnt]) + if sectors[12] != 0 then {sectors[12]} else {}
  {
    var s := Slots(d, sectors);
    assert s[140] == sectors[12];
    forall x | x in OwnedBy(s) ensures x in OwnedBy(blocks[..cnt]) || x == sectors[12] {
      var i :| 0 <= i < 141 && s[i] == x;
      if i < cnt { assert blocks[..cnt][i] == x; }
    }
    forall x | x in OwnedBy(blocks[..cnt]) ensures x in OwnedBy(s) {
      var i :| 0 <= i < cnt && blocks[..cnt][i] == x;
      assert s[i] == x;
    }
    if sectors[12] != 0 { OwnedSlot(s, 140); }
  }

  lemma OwnMapWithout(d: Disk, inodes: map<nat, Inode>, f: nat)
    requires Thirteen(inodes)
    ensures OwnMap(d, inodes - {f}) == OwnMap(d, inodes) - {f}
  {
    var a, b := OwnMap(d, inodes - {f}), OwnMap(d, inodes) - {f};
    forall g | g in b ensures g in a && a[g] == b[g] { assert (inodes - {f})[g] == inodes[g]; }
  }

  lemma ReleasedFsOk(d: Disk, inodes: map<nat, Inode>, dirs: set<nat>, used: set<nat>, pad: set<nat>, f: nat)
    requires FsOk(d, inodes, dirs, used, pad) && f in inodes
    ensures FsOk(d, inodes - {f}, dirs - {f}, used - OwnedBy(Slots(d, inodes[f].sectors)), pad)
    ensures OwnedBy(Slots(d, inodes[f].sectors)) <= used
  {
    var own := OwnMap(d, inodes);
    ReleaseKeeps(own, used, pad, f);
    OwnMapWithout(d, inodes, f);
    assert OwnedBy(own[f]) <= Owned(own);
    forall g | g in inodes - {f} ensures OkAt(d, inodes - {f}, dirs - {f}, g) {
      assert (inodes - {f})[g] == inodes[g] && OkAt(d, inodes, dirs, g);
    }
  }

  /** A new inode owns nothing. */
  lemma CreatedFsOk(d: Disk, inodes: map<nat, Inode>, dirs: set<nat>, used: set<nat>, pad: set<nat>, f: nat)
    requires FsOk(d, inodes, dirs, used, pad) && f !in inodes && f !in dirs
    ensures FsOk(d, inodes[f := NewInode()], dirs, used, pad) && OwnedBy(Slots(d, NewInode().sectors)) == {}
  {
    NoBlocks(d);
    var s := Slots(d, NewInode().sectors);
    CreateKeeps(OwnMap(d, inodes), used, pad, f, s);
    var jnodes := inodes[f := NewInode()];
    forall g | g in jnodes ensures OkAt(d, jnodes, dirs, g) { assert g != f ==> jnodes[g] == inodes[g] && OkAt(d, inodes, dirs, g); }
    assert OwnMap(d, jnodes) == OwnMap(d, inodes)[f := s];
  }

  lemma NoBlocks(d: Disk)
    ensures FileOk(d, NewInode())
    ensures var s := Slots(d, NewInode().sectors); OwnedBy(s) == {} && DistinctSlots(s)
  {
    assert forall i :: 0 <= i < 141 ==> Slots(d, NewInode().sectors)[i] == 0;
  }

  /** `inode_init`. */
  function NewInode(): (f: Inode) { Inode(0, seq(13, i => 0)) }

  /** The copying loops at lines 552-557 and 562-567. */
  method CopyDirect(sectors: seq<nat>, from: nat, to: nat) returns (blocks: seq<nat>)
    requires |sectors| == 13 && from <= to <= 12
    ensures |blocks| == 140 && forall i {:trigger blocks[i]} :: 0 <= i < 140 ==> blocks[i] == if from <= i < to then sectors[i] else 0
  {
    blocks := seq(140, i => 0);
    var block_idx := from;
    while block_idx < to
      invariant from <= block_idx <= to && |blocks| == 140
      invariant forall i {:trigger blocks[i]} :: 0 <= i < 140 ==> blocks[i] == if from <= i < block_idx then sectors[i] else 0
    {
      blocks := blocks[block_idx := sectors[block_idx]];
      block_idx := block_idx + 1;
    }
  }

  /** The block that a file gets before its first write. */
  function FirstNeed(sectors: seq<nat>): (n: nat)
    requires |sectors| == 13
  {
    if sectors[0] == 0 then 1 else 0
  }

  /** The further blocks, with the table, for `count` more bytes. */
  function MoreNeed(size: nat, count: nat): (n: nat) {
    var has, will := size / 512 + 1, (size + count) / 512 + 1;
    will - has + if has <= 12 < will then 1 else 0
  }

  /** The blocks that writing `count` bytes takes. */
  function BlocksNeeded(f: Inode, count: nat): (n: nat)
    requires |f.sectors| == 13
  {
    FirstNeed(f.sectors) + MoreNeed(f.size, count)
  }

  /** The first block of a new directory: "." and "..". */
  function DotsBlock(self: nat, parent: nat): (s: Sector) { PutRow(PutRow(Blank(), 0, Entry([46], self, 2)), 1, Entry([46, 46], parent, 2)) }

  function DotsMap(self: nat, parent: nat): (m: map<Name, Entry>) { map[[46] := Entry([46], self, 2), [46, 46] := Entry([46, 46], parent, 2)] }

  function RootInode(start: nat): (f: Inode) { Inode(48, NewInode().sectors[0 := start]) }

  class Fs {
    var disk: Disk
    /** The block bitmap, `blen` bytes, and the inode bitmap, 512 bytes. */
    var bytes: seq<bv8>
    var ibytes: seq<bv8>
    var inodes: map<nat, Inode>
    /** The inodes that are directories. */
    ghost var dirs: set<nat>
    /** The numbers on the list of open inodes; the root is always open. */
    var active: set<nat>
    const blen: nat
    /** First sector of the inode table, and of the blocks. */
    const table: nat
    const start: nat
    /** Set bits that stand for no block: the end of the last bitmap sector. */
    ghost const pad: set<nat>

    /** A formatted partition as `partition_format` leaves it: the root directory has inode 0
        and block 0, and whatever else is set in the bitmap is padding. */
    constructor (disk0: Disk, blocks: seq<bv8>, len: nat, nodes: seq<bv8>, inode_table: nat, data_start: nat)
      requires |blocks| > len >= 1 && |nodes| > 512 && inode_table + 608 <= data_start && data_start + 8 * len <= 0x1_0000_0000
      requires Bit(blocks, 0) && Marked(0, View(nodes, 4096)) == {0}
      ensures Valid() && bytes == blocks && ibytes == nodes && blen == len && table == inode_table && start == data_start
      ensures inodes == map[0 := RootInode(data_start)] && dirs == {0} && active == {0} && pad == Used() - {data_start}
      ensures SectorAt(disk, data_start) == DotsBlock(0, 0) && Recorded(disk, table, inodes)
      ensures forall f {:trigger Record(disk, table, f)} :: 0 < f < 4096 ==> Record(disk, table, f) == ZeroRecord()
    {
      var written := WriteTable(disk0, inode_table, RootInode(data_start));
      disk, inodes, dirs, active := written[data_start := DotsBlock(0, 0)], map[0 := RootInode(data_start)], {0}, {0};
      bytes, ibytes, blen, table, start := blocks, nodes, len, inode_table, data_start;
      pad := Marked(data_start, View(blocks, 8 * len)) - {data_start};
      new;
      ViewAt(bytes, 8 * blen, 0);
      InMarked(start, Bits());
      assert BitAt(start, Bits(), start);
      RootOk(disk, start, pad);
      RootRecord(written, disk, table, start);
    }

    ghost function Bits(): (v: seq<bool>)
      reads this`bytes
      requires 8 * blen <= 8 * |bytes|
    {
      View(bytes, 8 * blen)
    }

    ghost function IBits(): (v: seq<bool>)
      reads this`ibytes
      requires 512 <= |ibytes|
    {
      View(ibytes, 4096)
    }

    ghost function Used(): (u: set<nat>)
      reads this`bytes
      requires 8 * blen <= 8 * |bytes|
    {
      Marked(start, Bits())
    }

    /** The number of free blocks. */
    ghost function Free(): (n: nat)
      reads this`bytes
      requires 8 * blen <= 8 * |bytes|
    {
      Clear(Bits())
    }

    ghost predicate Shaped()
      reads this`bytes, this`ibytes
    {
      && |bytes| > blen && |ibytes| > 512
      && table + 608 <= start && start + 8 * blen <= 0x1_0000_0000 && start in Used()
    }

    ghost predicate Valid()
      reads this`disk, this`bytes, this`ibytes, this`inodes, this`dirs
    {
      && Shaped() && FsOk(disk, inodes, dirs, Used(), pad)
      && inodes.Keys == Marked(0, IBits()) && dirs <= inodes.Keys
      && 0 in dirs && inodes[0].sectors[0] == start
    }

    /** What `inode_open` gives for a number: the inode in memory if it is open, else its
        record. */
    ghost function Opens(no: nat): (n: Node)
      reads this`disk, this`inodes, this`active
      requires no in inodes
    {
      if no in active then NodeOf(no, inodes[no]) else Decode(Record(disk, table, no))
    }

    /** Opening gives the inode itself. */
    ghost predicate Loads(no: nat)
      reads this`disk, this`inodes, this`active
    {
      no in inodes && Opens(no) == NodeOf(no, inodes[no])
    }

    /** `inode_open`: an inode that is not open is read from its record. */
    method Load(no: nat) returns (n: Node)
      requires Valid() && no in inodes
      ensures n == Opens(no)
    {
      if no in active {
        n := NodeOf(no, inodes[no]);
      } else {
        InMarked(0, IBits());
        n := ReadRecord(disk, table, no);
      }
    }

    /** With the table in agreement, opening gives the inode itself. */
    lemma RecordedLoads(no: nat)
      requires Valid() && no in inodes && RecordedAt(disk, table, no, inodes[no])
      ensures Loads(no)
    {
      InodeFits(no);
      ReadsBack(disk, table, no, inodes[no]);
    }

    /** The contents of a file. */
    ghost function Text(ino: nat): (c: seq<Byte>)
      reads this`disk, this`bytes, this`ibytes, this`inodes, this`dirs
      requires Valid() && ino in inodes && ino !in dirs
      ensures |c| == inodes[ino].size < 71680
    {
      assert OkAt(disk, inodes, dirs, ino);
      FileContents(disk, inodes[ino])
    }

    /** `block_bitmap_alloc`: the least clear bit, as a sector address. */
    method BlockBitmapAlloc() returns (ok: bool, lba: nat)
      requires Shaped()
      modifies this`bytes
      ensures Shaped() && ok == !old(Full(Bits())) && (ok <==> old(Free()) >= 1)
      ensures !ok ==> bytes == old(bytes) && Full(Bits())
      ensures Free() == old(Free()) - if ok then 1 else 0
      ensures ok ==> start < lba < 0x1_0000_0000 && lba !in old(Used()) && Used() == old(Used()) + {lba}
      ensures ok ==> forall f {:trigger f in old(Used())} :: start <= f < lba ==> f in old(Used())
    {
      ClearNone(Bits());
      ghost var v := Bits();
      var i;
      ok, i, bytes := TakeOne(bytes, blen, start);
      if ok {
        InMarked(start, v);
        assert !BitAt(start, v, start + i);
        ClearTaken(v, i);
      }
      lba := start + i;
    }

    method SetSector(ino: nat, i: nat, lba: nat)
      requires ino in inodes && i < |inodes[ino].sectors|
      modifies this`inodes
      ensures inodes == old(inodes)[ino := Inode(old(inodes[ino].size), old(inodes[ino].sectors)[i := lba])]
    {
      var node := inodes[ino];
      inodes := inodes[ino := Inode(node.size, node.sectors[i := lba])];
    }

    /** The allocation loops at lines 360-379, 399-424 and 436-451: blocks for the slots
        from..to, kept in the inode below 12 and in the table from there on. */
    method AllocLoop(ino: nat, from: nat, to: nat, all_blocks: seq<nat>, ghost s0: seq<nat>, ghost s: seq<nat>, ghost used0: set<nat>)
      returns (ok: bool, blocks: seq<nat>, ghost t: seq<nat>)
      requires Shaped() && ino in inodes && from <= to <= 140
      requires InInode(inodes[ino].sectors, s) && Grown(s0, s, used0, Used())
      requires BlocksAgree(all_blocks, s, from, 140) && forall i {:trigger s[i]} :: from <= i < 140 ==> s[i] == 0
      modifies this`bytes, this`inodes
      ensures Shaped()
      ensures !ok ==> Full(Bits())
      ensures (ok <==> old(Free()) >= to - from) && (ok ==> Free() == old(Free()) - (to - from))
      ensures ok ==> Grown(s0, t, used0, Used()) && FilledIn(s, t, from, to)
      ensures ok ==> ino in inodes && InInode(inodes[ino].sectors, t)
                     && inodes == old(inodes)[ino := Inode(old(inodes[ino].size), inodes[ino].sectors)]
      ensures ok ==> BlocksAgree(blocks, t, from, 140)
                     && forall i {:trigger blocks[i]} :: 0 <= i < from ==> blocks[i] == all_blocks[i]
    {
      var block_idx := from;
      blocks, t := all_blocks, s;
      while block_idx < to
        invariant from <= block_idx <= to && Shaped() && |blocks| == 140 && Free() == old(Free()) - (block_idx - from)
        invariant Grown(s0, t, used0, Used()) && FilledIn(s, t, from, block_idx)
        invariant ino in inodes && InInode(inodes[ino].sectors, t)
        invariant inodes == old(inodes)[ino := Inode(old(inodes[ino].size), inodes[ino].sectors)]
        invariant BlocksAgree(blocks, t, from, 140)
        invariant forall i {:trigger blocks[i]} :: 0 <= i < from ==> blocks[i] == all_blocks[i]
      {
        ghost var used := Used();
        assert t[block_idx] == s[block_idx] == 0;
        var got, lba := BlockBitmapAlloc();
        if !got { return false, blocks, t; }
        GrowOne(s0, t, used0, used, block_idx, lba);
        t := t[block_idx := lba];
        blocks := blocks[block_idx := lba];
        if block_idx < 12 {
          assert inodes[ino].sectors[block_idx] == 0;           // the ASSERTs at lines 371 and 411
          SetSector(ino, block_idx, lba);
        }
        block_idx := block_idx + 1;
      }
      ok := true;
    }

    /** Lines 300-315: a file written for the first time gets block 0. */
    method FirstBlock(ino: nat, ghost s0: seq<nat>) returns (ok: bool, ghost s: seq<nat>)
      requires Shaped() && ino in inodes && FileOk(disk, inodes[ino]) && s0 == Slots(disk, inodes[ino].sectors)
      requires Grown(s0, s0, Used(), Used())
      modifies this`bytes, this`inodes
      ensures Shaped()
      ensures !ok ==> Full(Bits())
      ensures var n := FirstNeed(old(inodes[ino].sectors)); (ok <==> old(Free()) >= n) && (ok ==> Free() == old(Free()) - n)
      ensures ok ==> ino in inodes && inodes == old(inodes)[ino := Inode(old(inodes[ino].size), inodes[ino].sectors)]
      ensures ok ==> Begun(disk, inodes[ino], s0, s, old(Used()), Used())
    {
      s := s0;
      ghost var used := Used();
      SlotsInInode(disk, inodes[ino].sectors);
      assert s[0] == inodes[ino].sectors[0];
      if inodes[ino].sectors[0] == 0 {
        var got, lba := BlockBitmapAlloc();
        if !got { return false, s; }
        assert lba - start != 0;                                  // the ASSERT at line 313
        GrowOne(s0, s0, used, used, 0, lba);
        s := s0[0 := lba];
        SetSector(ino, 0, lba);
        NoTable(disk, inodes[ino].sectors, s);
      }
      ok := true;
    }

    /** Lines 332-348: the data fits in the block in use. */
    method CollectSame(ino: nat, n: nat, ghost s0: seq<nat>, ghost s: seq<nat>, ghost used0: set<nat>) returns (blocks: seq<nat>)
      requires Shaped() && ino in inodes && InInode(inodes[ino].sectors, s) && Slots(disk, inodes[ino].sectors) == s
      requires Grown(s0, s, used0, Used()) && n == inodes[ino].size / 512 + 1 && Filled(s, n)
      ensures Collected(disk, disk, inodes[ino], blocks, s0, s, used0, Used(), n)
    {
      var sectors := inodes[ino].sectors;
      blocks := seq(140, i => 0);
      if n <= 12 {
        blocks := blocks[n - 1 := sectors[n - 1]];
        assert s[n - 1] == sectors[n - 1];
      } else {
        assert sectors[12] != 0;                                  // the ASSERT at line 344
        TableRead(disk, sectors, blocks);
        blocks := blocks[..12] + ReadTable(SectorAt(disk, sectors[12]));
      }
    }

    /** Lines 352-380: the direct blocks are enough. */
    method CollectDirect(ino: nat, has: nat, will: nat, ghost s0: seq<nat>, ghost s: seq<nat>, ghost used0: set<nat>)
      returns (ok: bool, blocks: seq<nat>, ghost t: seq<nat>)
      requires Shaped() && ino in inodes && InInode(inodes[ino].sectors, s)
      requires Grown(s0, s, used0, Used()) && has == inodes[ino].size / 512 + 1 && Filled(s, has) && has < will <= 12
      modifies this`bytes, this`inodes
      ensures Shaped()
      ensures !ok ==> Full(Bits())
      ensures (ok <==> old(Free()) >= will - has) && (ok ==> Free() == old(Free()) - (will - has))
      ensures ok ==> ino in inodes && inodes == old(inodes)[ino := Inode(old(inodes[ino].size), inodes[ino].sectors)]
      ensures ok ==> Collected(disk, disk, inodes[ino], blocks, s0, t, used0, Used(), will)
    {
      var sectors := inodes[ino].sectors;
      blocks := seq(140, i => 0);
      assert s[has - 1] == sectors[has - 1] != 0;                 // the ASSERT at line 356
      blocks := blocks[has - 1 := sectors[has - 1]];
      ok, blocks, t := AllocLoop(ino, has, will, blocks, s0, s, used0);
      if ok {
        FilledMore(s, t, has, will);
        NoTable(disk, inodes[ino].sectors, t);
        assert t[has - 1] == s[has - 1];
      }
    }

    /** Lines 387-397: a block for the indirect table. */
    method NewTable(ino: nat, ghost s0: seq<nat>, ghost s: seq<nat>, ghost used0: set<nat>) returns (ok: bool, indirect: nat)
      requires Shaped() && ino in inodes && InInode(inodes[ino].sectors, s) && Grown(s0, s, used0, Used()) && s[140] == 0
      modifies this`bytes, this`inodes
      ensures Shaped()
      ensures !ok ==> Full(Bits())
      ensures (ok <==> old(Free()) >= 1) && (ok ==> Free() == old(Free()) - (1))
      ensures ok ==> ino in inodes && inodes == old(inodes)[ino := Inode(old(inodes[ino].size), inodes[ino].sectors)]
      ensures ok ==> indirect != 0 && InInode(inodes[ino].sectors, s[140 := indirect]) && Grown(s0, s[140 := indirect], used0, Used())
    {
      ghost var used := Used();
      ok, indirect := BlockBitmapAlloc();
      if !ok { return; }
      assert inodes[ino].sectors[12] == 0;                        // the ASSERT at line 396
      SetSector(ino, 12, indirect);
      GrowOne(s0, s, used0, used, 140, indirect);
    }

    /** Lines 381-427: the file outgrows its direct blocks, so it gets a table. */
    method CollectIntoTable(ino: nat, has: nat, will: nat, ghost s0: seq<nat>, ghost s: seq<nat>, ghost used0: set<nat>)
      returns (ok: bool, blocks: seq<nat>, ghost t: seq<nat>)
      requires Shaped() && ino in inodes && InInode(inodes[ino].sectors, s)
      requires Grown(s0, s, used0, Used()) && has == inodes[ino].size / 512 + 1 && Filled(s, has) && has <= 12 < will <= 140
      modifies this`bytes, this`inodes, this`disk
      ensures Shaped()
      ensures !ok ==> Full(Bits())
      ensures (ok <==> old(Free()) >= will - has + 1) && (ok ==> Free() == old(Free()) - (will - has + 1))
      ensures ok ==> ino in inodes && inodes == old(inodes)[ino := Inode(old(inodes[ino].size), inodes[ino].sectors)]
      ensures ok ==> Collected(old(disk), disk, inodes[ino], blocks, s0, t, used0, Used(), will)
    {
      var sectors := inodes[ino].sectors;
      blocks := seq(140, i => 0);
      blocks := blocks[has - 1 := sectors[has - 1]];
      assert s[has - 1] == sectors[has - 1];
      var indirect := 0;
      ok, indirect := NewTable(ino, s0, s, used0);
      t := s;
      if !ok { return; }
      ghost var s1 := s[140 := indirect];
      ok, blocks, t := AllocLoop(ino, has, will, blocks, s0, s1, used0);
      if ok {
        TableFilled(disk, inodes[ino], blocks, s0, s1, t, used0, Used(), has, will, start, Bits());
        disk := disk[indirect := Encode(blocks[12..])];
      }
    }

    /** Lines 428-454: the file has a table, which gets more entries. */
    method CollectInTable(ino: nat, has: nat, will: nat, ghost s0: seq<nat>, ghost s: seq<nat>, ghost used0: set<nat>)
      returns (ok: bool, blocks: seq<nat>, ghost t: seq<nat>)
      requires Shaped() && ino in inodes && InInode(inodes[ino].sectors, s) && Slots(disk, inodes[ino].sectors) == s
      requires Grown(s0, s, used0, Used()) && has == inodes[ino].size / 512 + 1 && Filled(s, has) && 12 < has < will <= 140
      modifies this`bytes, this`inodes, this`disk
      ensures Shaped()
      ensures !ok ==> Full(Bits())
      ensures (ok <==> old(Free()) >= will - has) && (ok ==> Free() == old(Free()) - (will - has))
      ensures ok ==> ino in inodes && inodes == old(inodes)[ino := Inode(old(inodes[ino].size), inodes[ino].sectors)]
      ensures ok ==> Collected(old(disk), disk, inodes[ino], blocks, s0, t, used0, Used(), will)
    {
      var sectors := inodes[ino].sectors;
      blocks := seq(140, i => 0);
      assert sectors[12] != 0;                                    // the ASSERT at line 431
      var indirect := sectors[12];
      TableRead(disk, sectors, blocks);
      blocks := blocks[..12] + ReadTable(SectorAt(disk, indirect));
      ghost var read := blocks;
      ok, blocks, t := AllocLoop(ino, has, will, blocks, s0, s, used0);
      if ok {
        FilledMore(s, t, has, will);
        SlotsBounded(s0, t, used0, Used(), start, Bits());
        forall i | 12 <= i < 140 ensures blocks[i] == t[i] {
          assert i < has ==> blocks[i] == read[i] == s[i] == t[i];
        }
        TableWritten(disk, inodes[ino].sectors, blocks, t);
        disk := disk[indirect := Encode(blocks[12..])];
      }
    }

    /** The body of the loop at lines 459-484, without its counters. */
    method WriteChunk(ino: nat, buf: seq<Byte>, written: nat, blocks: seq<nat>, first: bool, ghost d0: Disk, ghost t: seq<nat>, ghost c0: seq<Byte>)
      returns (chunk_size: nat)
      requires ino in inodes && inodes[ino].size == |c0| + written && |c0| + |buf| < 71680 && written < |buf|
      requires Progress(d0, disk, t, inodes[ino].sectors, c0, buf, written) && DistinctSlots(t)
      requires Filled(t, (|c0| + |buf|) / 512 + 1) && BlocksAgree(blocks, t, |c0| / 512, (|c0| + |buf|) / 512 + 1)
      requires first || Aligned(|c0| + written)
      modifies this`disk, this`inodes
      ensures 0 < chunk_size <= |buf| - written
      ensures inodes == old(inodes)[ino := Inode(|c0| + written + chunk_size, old(inodes[ino].sectors))]
      ensures Progress(d0, disk, t, old(inodes[ino].sectors), c0, buf, written + chunk_size)
      ensures written + chunk_size == |buf| || Aligned(|c0| + written + chunk_size)
    {
      var size, left := inodes[ino].size, |buf| - written;
      var io_buf := Blank();
      var sec_idx, off := size / 512, size % 512;
      IndexRange(|c0|, written, |c0| + |buf|);
      var sec_lba := blocks[sec_idx];
      assert sec_lba == t[sec_idx];
      chunk_size := if left < 512 - off then left else 512 - off;
      if first { io_buf := SectorAt(disk, sec_lba); }
      NextOffset(size, left, chunk_size);
      ghost var base := io_buf;
      io_buf := Overlay(io_buf, off, buf[written..written + chunk_size]);
      ProgressStep(d0, disk, t, inodes[ino].sectors, c0, buf, written, chunk_size, base, io_buf, sec_idx, off);
      disk := disk[sec_lba := io_buf];
      inodes := inodes[ino := Inode(size + chunk_size, inodes[ino].sectors)];
    }

    /** Lines 457-484: the data, sector by sector; only the first sector is read back. */
    method WriteLoop(ino: nat, buf: seq<Byte>, blocks: seq<nat>, ghost t: seq<nat>) returns (fd_pos: nat)
      requires ino in inodes && |inodes[ino].sectors| == 13 && Slots(disk, inodes[ino].sectors) == t && DistinctSlots(t)
      requires inodes[ino].size + |buf| < 71680 && Filled(t, (inodes[ino].size + |buf|) / 512 + 1)
      requires BlocksAgree(blocks, t, inodes[ino].size / 512, (inodes[ino].size + |buf|) / 512 + 1)
      modifies this`disk, this`inodes
      ensures inodes == old(inodes)[ino := Inode(old(inodes[ino].size) + |buf|, old(inodes[ino].sectors))]
      ensures Slots(disk, old(inodes[ino].sectors)) == t && OnlyWithin(old(disk), disk, t)
      ensures Contents(disk, t, old(inodes[ino].size) + |buf|) == Contents(old(disk), t, old(inodes[ino].size)) + buf
      ensures fd_pos == EndPos(old(inodes[ino].size) + |buf|)
    {
      ghost var d0, size0, sectors := disk, inodes[ino].size, inodes[ino].sectors;
      ghost var c0 := Contents(disk, t, size0);
      var first := true;
      fd_pos := EndPos(inodes[ino].size);
      var written, left := 0, |buf|;
      while written < |buf|
        invariant 0 <= written <= |buf| && left == |buf| - written
        invariant inodes == old(inodes)[ino := Inode(size0 + written, sectors)]
        invariant first || Aligned(size0 + written) || written == |buf|
        invariant Progress(d0, disk, t, sectors, c0, buf, written)
        invariant fd_pos == EndPos(size0 + written)
        decreases left
      {
        var chunk_size := WriteChunk(ino, buf, written, blocks, first, d0, t, c0);
        PosAdd(size0 + written, chunk_size);
        fd_pos := Wrap(fd_pos + chunk_size);
        written, left := written + chunk_size, left - chunk_size;
        first := false;
      }
      assert buf[..written] == buf;
    }

    /** Lines 317-455: blocks for the file with `count` more bytes. */
    method Collect(ino: nat, count: nat, ghost s0: seq<nat>, ghost s: seq<nat>, ghost used0: set<nat>)
      returns (ok: bool, blocks: seq<nat>, ghost t: seq<nat>)
      requires Shaped() && ino in inodes && Begun(disk, inodes[ino], s0, s, used0, Used()) && inodes[ino].size + count < 71680
      modifies this`bytes, this`inodes, this`disk
      ensures Shaped()
      ensures !ok ==> Full(Bits())
      ensures ok <==> old(Free()) >= MoreNeed(old(inodes[ino].size), count)
      ensures ok ==> ino in inodes && inodes == old(inodes)[ino := Inode(old(inodes[ino].size), inodes[ino].sectors)]
      ensures ok ==> Collected(old(disk), disk, inodes[ino], blocks, s0, t, used0, Used(), (old(inodes[ino].size) + count) / 512 + 1)
    {
      var has := inodes[ino].size / 512 + 1;
      var will := (inodes[ino].size + count) / 512 + 1;
      t := s;
      if will == has {
        blocks := CollectSame(ino, has, s0, s, used0);
        ok := true;
      } else if will <= 12 {
        ok, blocks, t := CollectDirect(ino, has, will, s0, s, used0);
      } else if has <= 12 {
        ok, blocks, t := CollectIntoTable(ino, has, will, s0, s, used0);
      } else {
        ok, blocks, t := CollectInTable(ino, has, will, s0, s, used0);
      }
    }

    /** Lines 317-484. */
    method Append(ino: nat, buf: seq<Byte>, ghost s0: seq<nat>, ghost s: seq<nat>, ghost used0: set<nat>)
      returns (ok: bool, fd_pos: nat, ghost d1: Disk, ghost t: seq<nat>)
      requires Shaped() && ino in inodes && Begun(disk, inodes[ino], s0, s, used0, Used()) && inodes[ino].size + |buf| < 71680
      modifies this`bytes, this`inodes, this`disk
      ensures Shaped()
      ensures !ok ==> Full(Bits())
      ensures ok <==> old(Free()) >= MoreNeed(old(inodes[ino].size), |buf|)
      ensures ok ==> ino in inodes && inodes == old(inodes)[ino := inodes[ino]]
      ensures ok ==> Appended(old(disk), d1, disk, inodes[ino], old(inodes[ino].size), buf, s0, t, used0, Used())
      ensures ok ==> fd_pos == EndPos(inodes[ino].size)
    {
      var blocks;
      fd_pos, d1 := 0, disk;
      ok, blocks, t := Collect(ino, |buf|, s0, s, used0);
      if !ok { return; }
      d1 := disk;
      fd_pos := WriteLoop(ino, buf, blocks, t);
    }

    /** Lines 300-484. */
    method WriteBody(ino: nat, buf: seq<Byte>, ghost s0: seq<nat>) returns (r: WriteResult, fd_pos: nat, ghost d1: Disk, ghost t: seq<nat>)
      requires Shaped() && ino in inodes && FileOk(disk, inodes[ino]) && s0 == Slots(disk, inodes[ino].sectors)
      requires Grown(s0, s0, Used(), Used()) && inodes[ino].size + |buf| <= 71680
      modifies this`bytes, this`inodes, this`disk
      ensures Shaped() && !r.TooBig?
      ensures old(inodes[ino].size) + |buf| == 71680 ==> r.Halted?
      ensures r.Halted? ==> old(inodes[ino].size) + |buf| == 71680 || Full(Bits())
      ensures r.Halted? <==> !r.TooBig? && (old(inodes[ino].size) + |buf| == 71680 || old(Free()) < old(BlocksNeeded(inodes[ino], |buf|)))
      ensures r.Written? ==> r.count == |buf| && ino in inodes && inodes == old(inodes)[ino := inodes[ino]]
      ensures r.Written? ==> Appended(old(disk), d1, disk, inodes[ino], old(inodes[ino].size), buf, s0, t, old(Used()), Used())
      ensures r.Written? ==> fd_pos == EndPos(inodes[ino].size)
    {
      ghost var used0, s := Used(), s0;
      fd_pos, d1, t := 0, disk, s0;
      var ok;
      ok, s := FirstBlock(ino, s0);
      if !ok { r := Halted; return; }
      if (inodes[ino].size + |buf|) / 512 + 1 > 140 { r := Halted; return; }       // the ASSERT at line 326
      ok, fd_pos, d1, t := Append(ino, buf, s0, s, used0);
      r := if ok then Written(|buf|) else Halted;
    }

    /** Lines 264-484: everything but the sync of the inode. */
    method WriteData(ino: nat, buf: seq<Byte>) returns (r: WriteResult, fd_pos: nat)
      requires Valid() && ino in inodes && ino !in dirs
      modifies this`disk, this`bytes, this`inodes
      ensures Shaped()
      ensures r.TooBig? <==> old(inodes[ino].size) + |buf| > 71680
      ensures r.TooBig? ==> disk == old(disk) && bytes == old(bytes) && inodes == old(inodes)
      ensures old(inodes[ino].size) + |buf| == 71680 ==> r.Halted?
      ensures r.Halted? ==> old(inodes[ino].size) + |buf| == 71680 || Full(Bits())
      ensures r.Halted? <==> !r.TooBig? && (old(inodes[ino].size) + |buf| == 71680 || old(Free()) < old(BlocksNeeded(inodes[ino], |buf|)))
      ensures r.Written? ==> r.count == |buf| && Valid() && ino in inodes && inodes[ino].size == old(inodes[ino].size) + |buf|
      ensures r.Written? ==> Text(ino) == old(Text(ino)) + buf
      ensures r.Written? ==> OthersSame(old(disk), old(inodes), disk, inodes, ino)
      ensures r.Written? ==> Grown(old(Slots(disk, inodes[ino].sectors)), Slots(disk, inodes[ino].sectors), old(Used()), Used())
      ensures r.Written? ==> OnlyWithin(old(disk), disk, Slots(disk, inodes[ino].sectors)) && fd_pos == EndPos(inodes[ino].size)
    {
      ghost var d0, inodes0, used0 := disk, inodes, Used();
      ghost var s0 := Slots(disk, inodes[ino].sectors);
      fd_pos := 0;
      if inodes[ino].size + |buf| > 512 * 140 { return TooBig, 0; }
      ghost var d1, t;
      OwnSlots(disk, inodes, dirs, used0, pad, ino);
      r, fd_pos, d1, t := WriteBody(ino, buf, s0);
      if r.Written? {
        WriteDone(d0, inodes0, dirs, used0, pad, ino, d1, disk, inodes[ino], t, Used(), buf);
        assert inodes == inodes0[ino := inodes[ino]];
      }
    }

    /** `inode_sync` of an inode through a buffer of one or two sectors. */
    method InodeSync(ino: nat, len: nat, tail: Tail) returns (overran: bool)
      requires Shaped() && ino in inodes && Fits(NodeOf(ino, inodes[ino])) && (len == 512 || len == 1024)
      modifies this`disk
      ensures Shaped() && (Valid() <==> old(Valid())) && (Valid() ==> AllSame(old(disk), disk, inodes))
      ensures overran <==> len < BufferFor(SyncSlot(ino))
      ensures Synced(old(disk), disk, table, NodeOf(ino, inodes[ino]), overran, tail)
      ensures !overran && ino < 256 ==> Decode(Record(disk, table, ino)) == NodeOf(ino, inodes[ino])
    {
      ghost var mid := disk;
      disk, overran := SyncRecord(disk, table, NodeOf(ino, inodes[ino]), len, tail);
      UsedAbove(start, Bits(), table);
      TableChange(mid, inodes, dirs, Used(), pad, disk, table);
      if ino < 256 && !overran { SyncReadsBack(mid, disk, table, NodeOf(ino, inodes[ino])); }
    }

    /** `inode_sync` through a buffer of two sectors, which is always enough. */
    method SyncWide(ino: nat, tail: Tail)
      requires Shaped() && ino in inodes && Fits(NodeOf(ino, inodes[ino]))
      modifies this`disk
      ensures Shaped() && (Valid() <==> old(Valid())) && (Valid() ==> AllSame(old(disk), disk, inodes))
      ensures OnlyRecord(old(disk), disk, table, SyncSlot(ino), RecordBytes(NodeOf(ino, inodes[ino])))
      ensures ino < 256 ==> Decode(Record(disk, table, ino)) == NodeOf(ino, inodes[ino])
    {
      var overran := InodeSync(ino, 1024, tail);
    }

    /** The numbers of an inode fit its record. */
    lemma InodeFits(ino: nat)
      requires Valid() && ino in inodes
      ensures ino < 4096 && Fits(NodeOf(ino, inodes[ino]))
    {
      InMarked(0, IBits());
      NodeFits(disk, inodes, dirs, ino, Used(), pad, start, Bits());
    }

    /** `file_write`.  The buffer lies in user memory, below 0xc0000000.  The inode is synced
        at the end through a buffer of one sector; `tail` is the memory behind that buffer.
        `mid` is the disk before the sync. */
    method FileWrite(ino: nat, buf: seq<Byte>, tail: Tail) returns (r: WriteResult, fd_pos: nat, overran: bool, ghost mid: Disk)
      requires Valid() && ino in inodes && ino in active && ino !in dirs && |buf| <= 0xc000_0000
      modifies this`disk, this`bytes, this`inodes
      ensures Shaped()
      ensures r.TooBig? <==> old(inodes[ino].size) + |buf| > 71680
      ensures r.TooBig? ==> disk == old(disk) && bytes == old(bytes) && inodes == old(inodes)
      ensures old(inodes[ino].size) + |buf| == 71680 ==> r.Halted?
      ensures r.Halted? ==> old(inodes[ino].size) + |buf| == 71680 || Full(Bits())
      ensures r.Halted? <==> !r.TooBig? && (old(inodes[ino].size) + |buf| == 71680 || old(Free()) < old(BlocksNeeded(inodes[ino], |buf|)))
      ensures r.Written? ==> r.count == |buf| && Valid() && ino in inodes && inodes[ino].size == old(inodes[ino].size) + |buf|
      ensures r.Written? ==> Text(ino) == old(Text(ino)) + buf
      ensures r.Written? ==> OthersSame(old(disk), old(inodes), disk, inodes, ino)
      ensures r.Written? ==> Grown(old(Slots(disk, inodes[ino].sectors)), Slots(disk, inodes[ino].sectors), old(Used()), Used())
      ensures r.Written? ==> fd_pos == EndPos(inodes[ino].size)
      ensures r.Written? ==> TableSame(old(disk), mid, table) && Synced(mid, disk, table, NodeOf(ino, inodes[ino]), overran, tail)
      ensures r.Written? ==> (overran <==> BufferFor(SyncSlot(ino)) > 512)
      ensures r.Written? && !overran && ino < 256 ==> Decode(Record(disk, table, ino)) == NodeOf(ino, inodes[ino])
    {
      ghost var d0, inodes0 := disk, inodes;
      overran, mid := false, disk;
      r, fd_pos := WriteData(ino, buf);
      if r.Written? {
        mid := disk;
        BlocksAbove(disk, inodes, dirs, Used(), pad, ino, start, Bits());
        WithinBlocks(d0, mid, Slots(mid, inodes[ino].sectors), table, start);
        InodeFits(ino);
        overran := InodeSync(ino, 512, tail);
        assert OkAt(mid, inodes, dirs, ino);
        SyncedFile(d0, inodes0, mid, inodes, disk, ino);
      }
    }

    /** Lines 524-582: the blocks first..last, for a last block within the file. */
    method ReadCollect(ino: nat, first: nat, last: nat) returns (blocks: seq<nat>)
      requires ino in inodes && FileOk(disk, inodes[ino]) && first <= last <= inodes[ino].size / 512 && last < 139
      ensures BlocksAgree(blocks, Slots(disk, inodes[ino].sectors), first, last + 1)
    {
      var sectors := inodes[ino].sectors;
      blocks := seq(140, i => 0);
      if last >= 12 { NeedsTable(disk, inodes[ino], last); }
      if last == first {
        if last < 12 {
          blocks := blocks[last := sectors[last]];
        } else {
          TableRead(disk, sectors, blocks);
          blocks := blocks[..12] + ReadTable(SectorAt(disk, sectors[12]));
        }
      } else if last < 12 {
        blocks := CopyDirect(sectors, first, last + 1);
      } else if first < 12 {
        blocks := CopyDirect(sectors, first, 12);
        assert sectors[12] != 0;                                  // the ASSERT at line 569
        TableRead(disk, sectors, blocks);
        ghost var direct := blocks;
        blocks := blocks[..12] + ReadTable(SectorAt(disk, sectors[12]));
        assert forall i {:trigger blocks[i]} :: first <= i < 12 ==> blocks[i] == direct[i];
      } else {
        assert sectors[12] != 0;                                  // the ASSERT at line 578
        TableRead(disk, sectors, blocks);
        blocks := blocks[..12] + ReadTable(SectorAt(disk, sectors[12]));
      }
    }

    /** Lines 584-602. */
    method ReadLoop(pos: nat, n: nat, blocks: seq<nat>, ghost t: seq<nat>, ghost size: nat) returns (buf: seq<Byte>, fd_pos: nat)
      requires |t| == 141 && pos + n <= size < 71680 && BlocksAgree(blocks, t, pos / 512, (pos + n) / 512 + 1)
      ensures buf == Contents(disk, t, size)[pos..pos + n] && fd_pos == pos + n
    {
      buf, fd_pos := [], pos;
      var left := n;
      while |buf| < n
        invariant fd_pos + left == pos + n && |buf| + left == n && pos <= fd_pos <= pos + n
        invariant buf == Contents(disk, t, size)[pos..fd_pos]
        decreases left
      {
        var sec_idx, off := fd_pos / 512, fd_pos % 512;
        assert pos / 512 <= sec_idx < (pos + n) / 512 + 1;
        var sec_lba := blocks[sec_idx];
        assert sec_lba == t[sec_idx];
        var chunk_size := if left < 512 - off then left else 512 - off;
        var io_buf := SectorAt(disk, sec_lba);
        ChunkRead(disk, t, size, fd_pos, chunk_size);
        SliceNext(Contents(disk, t, size), pos, fd_pos, chunk_size);
        buf := buf + io_buf[off..off + chunk_size];
        fd_pos := fd_pos + chunk_size;
        left := left - chunk_size;
      }
    }

    /** `file_read`, with its unsigned arithmetic: `last` is where the block after the read
        would be.  A position beyond the end, or a count that wraps around, is not caught
        by the test at line 499 and overruns, unless the ASSERT at line 522 halts. */
    method FileRead(ino: nat, pos: nat, count: nat) returns (r: ReadResult, fd_pos: nat)
      requires Valid() && ino in inodes && ino in active && ino !in dirs && pos < 0x1_0000_0000 && count < 0x1_0000_0000
      ensures r.Eof? <==> pos == inodes[ino].size && 0 < count && pos + count < 0x1_0000_0000
      ensures r.ReadHalted? <==> !r.Eof? && (pos / 512 >= 139 || LastIndex(inodes[ino].size, pos, count) >= 139)
      ensures r.Overrun? <==> !r.Eof? && !r.ReadHalted? && (pos > inodes[ino].size || pos + count >= 0x1_0000_0000)
      ensures r.Data? ==> var n := if pos + count > inodes[ino].size then inodes[ino].size - pos else count;
                r.bytes == Text(ino)[pos..pos + n] && fd_pos == pos + n
      ensures !r.Data? ==> fd_pos == pos
    {
      assert OkAt(disk, inodes, dirs, ino);
      var i_size := inodes[ino].size;
      var size := count;
      fd_pos := pos;
      if Wrap(pos + count) > i_size {
        size := Wrap(i_size + 0x1_0000_0000 - pos);
        if size == 0 { return Eof, fd_pos; }
      }
      ReadEnd(i_size, pos, count, size);
      var first, last := pos / 512, Wrap(pos + size) / 512;
      if !(first < 139 && last < 139) { return ReadHalted, fd_pos; }           // the ASSERT at line 522
      if pos > i_size || pos + count >= 0x1_0000_0000 { return Overrun, fd_pos; }
      var blocks := ReadCollect(ino, first, last);
      var buf;
      buf, fd_pos := ReadLoop(pos, size, blocks, Slots(disk, inodes[ino].sectors), i_size);
      r := Data(buf);
    }

    /** The bit of one block is cleared. */
    method FreeBlock(lba: nat)
      requires Shaped() && start < lba && lba in Used()
      modifies this`bytes
      ensures Shaped() && Used() == old(Used()) - {lba}
    {
      InMarked(start, Bits());
      var block_bitmap_idx := lba - start;
      bytes := GiveOne(bytes, blen, block_bitmap_idx, start);
    }

    /** Lines 219-232. */
    method FreeLoop(blocks: seq<nat>, cnt: nat)
      requires Shaped() && cnt <= |blocks| && OwnedBy(blocks[..cnt]) <= Used() && start !in OwnedBy(blocks[..cnt])
      requires DistinctSlots(blocks[..cnt])
      modifies this`bytes
      ensures Shaped() && Used() == old(Used()) - OwnedBy(blocks[..cnt])
    {
      var block_idx := 0;
      ghost var used := Used();
      InMarked(start, Bits());
      while block_idx < cnt
        invariant 0 <= block_idx <= cnt && Shaped()
        invariant Used() == used - OwnedBy(blocks[..block_idx])
      {
        OwnedTake(blocks, block_idx);
        if blocks[block_idx] != 0 {
          ghost var taken := blocks[..cnt];
          assert taken[block_idx] == blocks[block_idx];
          OwnedSlot(taken, block_idx);
          NotYet(blocks, cnt, block_idx);
          InMarked(start, Bits());
          FreeBlock(blocks[block_idx]);                           // the ASSERT at line 227: start < lba
        }
        block_idx := block_idx + 1;
      }
    }

    /** Lines 194-232: every block of the inode, and its table. */
    method ReleaseBlocks(sectors: seq<nat>)
      requires Shaped() && |sectors| == 13 && DistinctSlots(Slots(disk, sectors))
      requires OwnedBy(Slots(disk, sectors)) <= Used() && start !in OwnedBy(Slots(disk, sectors))
      modifies this`bytes
      ensures Shaped() && Used() == old(Used()) - OwnedBy(Slots(disk, sectors))
    {
      var blocks := CopyDirect(sectors, 0, 12);
      var cnt := 12;
      if sectors[12] != 0 {
        TableRead(disk, sectors, blocks);
        ghost var direct := blocks;
        blocks := blocks[..12] + ReadTable(SectorAt(disk, sectors[12]));
        assert forall i {:trigger blocks[i]} :: 0 <= i < 12 ==> blocks[i] == direct[i];
        cnt := 140;
      }
      CollectedAll(disk, sectors, blocks, cnt);
      Releasing(Slots(disk, sectors), blocks, cnt);
      InMarked(start, Bits());
      if sectors[12] != 0 { FreeBlock(sectors[12]); }             // the ASSERT at line 214: start < lba
      FreeLoop(blocks, cnt);
    }

    /** `inode_release` of a file or a directory other than the root.  If opening it gives the
        inode itself, its blocks' bits, its own bit and its record are cleared, and nothing
        else changes; if it gives another number, the ASSERT at line 192 halts. */
    method InodeRelease(ino: nat) returns (r: Release)
      requires Valid() && ino in inodes && ino != 0
      modifies this`bytes, this`ibytes, this`inodes, this`dirs, this`disk, this`active
      ensures r.Stopped? <==> old(Opens(ino)).no != ino
      ensures r.Released? <==> old(Loads(ino))
      ensures !r.Released? ==> disk == old(disk) && bytes == old(bytes) && ibytes == old(ibytes)
      ensures r.Released? ==> Valid() && inodes == old(inodes) - {ino} && dirs == old(dirs) - {ino} && active == old(active) - {ino}
      ensures r.Released? ==> Used() == old(Used()) - OwnedBy(old(Slots(disk, inodes[ino].sectors)))
      ensures r.Released? ==> Marked(0, IBits()) == old(Marked(0, IBits())) - {ino}
      ensures r.Released? ==> OnlyRecord(old(disk), disk, table, ino, ZeroRecord()) && AllSame(old(disk), disk, inodes)
    {
      var inode_to_del := Load(ino);
      if inode_to_del.no != ino { return Stopped; }               // the ASSERT at line 192
      if inode_to_del != NodeOf(ino, inodes[ino]) { return Stale; }
      ReleaseOpened(ino);
      r := Released;
    }

    /** Lines 194-243, for an inode in order. */
    method ReleaseOpened(ino: nat)
      requires Valid() && ino in inodes && ino != 0
      modifies this`bytes, this`ibytes, this`inodes, this`dirs, this`disk, this`active
      ensures Valid() && inodes == old(inodes) - {ino} && dirs == old(dirs) - {ino} && active == old(active) - {ino}
      ensures Used() == old(Used()) - OwnedBy(old(Slots(disk, inodes[ino].sectors)))
      ensures Marked(0, IBits()) == old(Marked(0, IBits())) - {ino}
      ensures OnlyRecord(old(disk), disk, table, ino, ZeroRecord()) && AllSame(old(disk), disk, inodes)
    {
      ghost var used, d0 := Used(), disk;
      ReleasedFsOk(disk, inodes, dirs, used, pad, ino);
      OwnSlots(disk, inodes, dirs, used, pad, ino);
      RootApart(disk, inodes, dirs, used, pad, ino, start);
      ReleaseBlocks(inodes[ino].sectors);
      ReleaseNumber(ino);
      inodes, dirs, active := inodes - {ino}, dirs - {ino}, active - {ino};
      UsedAbove(start, Bits(), table);
      TableOnly(d0, inodes, dirs, Used(), pad, disk, table);
    }

    /** Lines 234-241: the bit of the number and the record. */
    method ReleaseNumber(ino: nat)
      requires |ibytes| > 512 && ino in Marked(0, IBits())
      modifies this`ibytes, this`disk
      ensures |ibytes| == |old(ibytes)| && Marked(0, IBits()) == old(Marked(0, IBits())) - {ino}
      ensures OnlyRecord(old(disk), disk, table, ino, ZeroRecord())
    {
      InMarked(0, IBits());
      ibytes := GiveOne(ibytes, 512, ino, 0);
      disk := PutRecord(disk, table, ino, ZeroRecord());
    }

    /** `inode_bitmap_alloc` and `inode_init`: the least free number becomes an empty file. */
    method CreateInode() returns (ok: bool, ino: nat)
      requires Valid()
      modifies this`inodes, this`ibytes
      ensures Valid() && ok == !old(Full(IBits()))
      ensures !ok ==> inodes == old(inodes) && ibytes == old(ibytes)
      ensures ok ==> ino < 4096 && ino !in old(inodes) && inodes == old(inodes)[ino := NewInode()]
      ensures ok ==> Below(old(inodes), ino)
    {
      ghost var keys := inodes.Keys;
      ok, ino, ibytes := TakeOne(ibytes, 512, 0);
      if ok {
        assert ino !in keys;
        CreatedFsOk(disk, inodes, dirs, Used(), pad, ino);
        inodes := inodes[ino := NewInode()];
      }
    }

    /** What was written is read back. */
    method WriteThenRead(ino: nat, buf: seq<Byte>, tail: Tail) returns (w: WriteResult, r: ReadResult)
      requires Valid() && ino in inodes && ino in active && ino !in dirs && 0 < |buf| <= 0xc000_0000
      modifies this`disk, this`bytes, this`inodes
      ensures Shaped()
      ensures w.TooBig? <==> old(inodes[ino].size) + |buf| > 71680
      ensures old(inodes[ino].size) + |buf| == 71680 ==> w.Halted?
      ensures w.Halted? ==> old(inodes[ino].size) + |buf| == 71680 || Full(Bits())
      ensures w.Halted? <==> !w.TooBig? && (old(inodes[ino].size) + |buf| == 71680 || old(Free()) < old(BlocksNeeded(inodes[ino], |buf|)))
      ensures w.Written? && (old(inodes[ino].size) + |buf|) / 512 < 139 ==> r == Data(buf)
      ensures w.Written? && (old(inodes[ino].size) + |buf|) / 512 >= 139 ==> r.ReadHalted?
    {
      var size := inodes[ino].size;
      ghost var c := Text(ino);
      assert OkAt(disk, inodes, dirs, ino);
      var pos, overran;
      ghost var mid;
      w, pos, overran, mid := FileWrite(ino, buf, tail);
      r := Eof;
      if w.Written? { r := ReadBack(ino, size, buf, c); }
    }

    /** Reading the end of a file. */
    method ReadBack(ino: nat, size: nat, buf: seq<Byte>, ghost c: seq<Byte>) returns (r: ReadResult)
      requires Valid() && ino in inodes && ino in active && ino !in dirs && 0 < |buf| && |c| == size && Text(ino) == c + buf
      ensures (size + |buf|) / 512 < 139 ==> r == Data(buf)
      ensures (size + |buf|) / 512 >= 139 ==> r.ReadHalted?
    {
      SuffixBack(c, buf);
      var pos;
      r, pos := FileRead(ino, size, |buf|);
    }

    /** Creating a file, writing it, closing it and releasing it restores both bitmaps, unless
        its number or a clobbered buffer kept its record from the disk. */
    method CreateWriteRelease(buf: seq<Byte>, tail: Tail) returns (w: WriteResult, ino: nat, overran: bool, rel: Release)
      requires Valid() && |buf| <= 0xc000_0000
      modifies this`disk, this`bytes, this`ibytes, this`inodes, this`dirs, this`active
      ensures Shaped()
      ensures w.TooBig? <==> |buf| > 71680 && !old(Full(IBits()))
      ensures w.Halted? <==> old(Full(IBits())) || |buf| == 71680 || (|buf| < 71680 && old(Free()) < BlocksNeeded(NewInode(), |buf|))
      ensures w.Written? && ino < 256 && (!overran || tail.Intact?) ==> rel.Released?
      ensures w.Written? && ino >= 256 ==> (rel.Stopped? <==> Decode(Record(old(disk), table, ino)).no != ino)
      ensures w.Written? && rel.Released? ==> Valid() && Bits() == old(Bits()) && IBits() == old(IBits()) && active == old(active) - {ino}
      ensures w.Written? && rel.Released? ==> inodes == old(inodes) && dirs == old(dirs) && AllSame(old(disk), disk, inodes)
    {
      ghost var bits0, ibits0, inodes0, d0 := Bits(), IBits(), inodes, disk;
      rel := Stale;
      w, ino, overran := CreateWrite(buf, tail);
      if w.Written? {
        ghost var d1 := disk;
        rel := InodeRelease(ino);
        if rel.Released? {
          SameThrough(d0, inodes0, d1, disk);
          MarkedUnique(start, Bits(), bits0);
          MarkedUnique(0, IBits(), ibits0);
        }
      }
    }

    /** A new file, written and closed. */
    method CreateWrite(buf: seq<Byte>, tail: Tail) returns (w: WriteResult, ino: nat, overran: bool)
      requires Valid() && |buf| <= 0xc000_0000
      modifies this`disk, this`bytes, this`ibytes, this`inodes, this`active
      ensures Shaped()
      ensures w.TooBig? <==> |buf| > 71680 && !old(Full(IBits()))
      ensures w.Halted? <==> old(Full(IBits())) || |buf| == 71680 || (|buf| < 71680 && old(Free()) < BlocksNeeded(NewInode(), |buf|))
      ensures w.Written? ==> Valid() && ino in inodes && ino != 0 && ino !in old(inodes) && ino !in dirs && active == old(active) - {ino}
      ensures w.Written? ==> inodes - {ino} == old(inodes) && AllSame(old(disk), disk, old(inodes))
      ensures w.Written? ==> Used() - OwnedBy(Slots(disk, inodes[ino].sectors)) == old(Used()) && Marked(0, IBits()) - {ino} == old(Marked(0, IBits()))
      ensures w.Written? && ino < 256 && (!overran || tail.Intact?) ==> Loads(ino)
      ensures w.Written? && ino >= 256 ==> Opens(ino).no == Decode(Record(old(disk), table, ino)).no
    {
      ghost var inodes0 := inodes;
      overran := false;
      var ok;
      ok, ino := CreateInode();
      if !ok { return Halted, ino, overran; }
      w, overran := WriteNew(ino, buf, tail, inodes0);
    }

    /** The first write to a new file, which is then closed. */
    method WriteNew(ino: nat, buf: seq<Byte>, tail: Tail, ghost inodes0: map<nat, Inode>) returns (w: WriteResult, overran: bool)
      requires Valid() && |buf| <= 0xc000_0000 && ino !in inodes0 && inodes == inodes0[ino := NewInode()] && ino !in dirs
      modifies this`disk, this`bytes, this`inodes, this`active
      ensures Shaped()
      ensures w.TooBig? <==> |buf| > 71680
      ensures w.Halted? <==> |buf| == 71680 || (|buf| < 71680 && old(Free()) < BlocksNeeded(NewInode(), |buf|))
      ensures w.Written? ==> Valid() && ino in inodes && active == old(active) - {ino}
      ensures w.Written? ==> inodes - {ino} == inodes0 && AllSame(old(disk), disk, inodes0)
      ensures w.Written? ==> Used() - OwnedBy(Slots(disk, inodes[ino].sectors)) == old(Used())
      ensures w.Written? && ino < 256 && (!overran || tail.Intact?) ==> Loads(ino)
      ensures w.Written? && ino >= 256 ==> Opens(ino).no == Decode(Record(old(disk), table, ino)).no
    {
      ghost var d0, s0, used0 := disk, Slots(disk, inodes[ino].sectors), Used();
      NoBlocks(disk);
      active := active + {ino};
      var pos;
      ghost var mid;
      w, pos, overran, mid := FileWrite(ino, buf, tail);
      active := active - {ino};
      if w.Written? {
        GrowThenRelease(s0, Slots(disk, inodes[ino].sectors), used0, Used());
        OthersBack(d0, inodes0, NewInode(), disk, inodes, ino);
        InodeFits(ino);
        RecordAfter(d0, mid, disk, table, NodeOf(ino, inodes[ino]), overran, tail);
      }
    }
  }

  /** A write whose number fits eight bits keeps the inode table right exactly if the memory
      behind the buffer of the sync fits. */
  lemma WriteRecords(d0: Disk, inodes0: map<nat, Inode>, mid: Disk, e: Disk, table: nat, inodes: map<nat, Inode>, ino: nat, overran: bool, tail: Tail)
    requires Recorded(d0, table, inodes0) && Small(inodes) && ino in inodes && |inodes[ino].sectors| == 13
    requires inodes.Keys == inodes0.Keys && forall g {:trigger inodes[g]} :: g in inodes && g != ino ==> inodes[g] == inodes0[g]
    requires TableSame(d0, mid, table) && Synced(mid, e, table, NodeOf(ino, inodes[ino]), overran, tail)
    requires overran <==> BufferFor(SyncSlot(ino)) > 512
    ensures Recorded(e, table, inodes) <==> TailOk(mid, table, inodes, ino, RecordBytes(NodeOf(ino, inodes[ino])), tail)
  {
    forall f | f in inodes && f !in {ino} ensures f in inodes0 && inodes[f] == inodes0[f] && f < 4096 { assert f in inodes.Keys; }
    DataKeeps(d0, mid, table, inodes0, inodes, {ino});
    if overran {
      ShortSyncKeeps(mid, table, inodes, ino, tail);
    } else {
      SyncAll(mid, e, table, inodes, ino, RecordBytes(NodeOf(ino, inodes[ino])));
    }
  }

  /** The record of an inode after it was synced at the end of a write. */
  lemma RecordAfter(d0: Disk, mid: Disk, e: Disk, table: nat, n: Node, overran: bool, tail: Tail)
    requires TableSame(d0, mid, table) && Fits(n) && n.no < 4096 && Synced(mid, e, table, n, overran, tail)
    ensures n.no < 256 && (!overran || tail.Intact?) ==> Decode(Record(e, table, n.no)) == n
    ensures n.no >= 256 ==> Record(e, table, n.no) == Record(d0, table, n.no)
  {
    var i := SyncSlot(n.no);
    if !overran {
      OneRecord(mid, e, table, i, RecordBytes(n), n.no);
    } else {
      if tail.Intact? {
        IntactOnly(mid, table, i, RecordBytes(n));
        OneRecord(mid, e, table, i, RecordBytes(n), n.no);
      }
      if n.no >= 256 { FarRecord(mid, table, i, RecordBytes(n), tail, n.no); }
    }
    if n.no < 256 { DecodeRecord(n); } else { RecordStays(d0, mid, table, n.no); }
  }

  lemma RootRecord(d: Disk, e: Disk, table: nat, start: nat)
    requires table + 608 <= start && e == d[start := DotsBlock(0, 0)] && RecordedAt(d, table, 0, RootInode(start))
    requires forall f {:trigger Record(d, table, f)} :: 0 < f < 4096 ==> Record(d, table, f) == ZeroRecord()
    ensures Recorded(e, table, map[0 := RootInode(start)])
    ensures forall f {:trigger Record(e, table, f)} :: 0 < f < 4096 ==> Record(e, table, f) == ZeroRecord()
  {
    RecordStays(d, e, table, 0);
    forall f | 0 < f < 4096 ensures Record(e, table, f) == ZeroRecord() { RecordStays(d, e, table, f); }
  }

  /** What the sync of `n` through a buffer of one sector does to the disk. */
  ghost predicate Synced(d: Disk, e: Disk, table: nat, n: Node, overran: bool, tail: Tail) {
    && |n.sectors| == 13 && OutsideSame(d, e, table)
    && if overran then Locate(SyncSlot(n.no)).two_sec && e == ShortSync(d, table, SyncSlot(n.no), RecordBytes(n), tail)
       else OnlyRecord(d, e, table, SyncSlot(n.no), RecordBytes(n))
  }

  /** The blocks in use lie behind the inode table. */
  lemma UsedAbove(start: nat, bits: seq<bool>, table: nat)
    requires table + 608 <= start
    ensures forall x {:trigger x in Marked(start, bits)} :: x in Marked(start, bits) ==> table + 608 <= x
  {
    InMarked(start, bits);
  }

  lemma BlocksAbove(d: Disk, inodes: map<nat, Inode>, dirs: set<nat>, used: set<nat>, pad: set<nat>, ino: nat, start: nat, bits: seq<bool>)
    requires FsOk(d, inodes, dirs, used, pad) && ino in inodes && used == Marked(start, bits)
    ensures forall x :: x in OwnedBy(Slots(d, inodes[ino].sectors)) ==> start <= x
  {
    InMarked(start, bits);
    OwnSlots(d, inodes, dirs, used, pad, ino);
  }

  lemma WithinBlocks(d: Disk, e: Disk, s: seq<nat>, table: nat, start: nat)
    requires OnlyWithin(d, e, s) && table + 608 <= start && forall x :: x in OwnedBy(s) ==> start <= x
    ensures TableSame(d, e, table)
  {
  }

  /** The numbers of an inode fit the words of its record. */
  lemma NodeFits(d: Disk, inodes: map<nat, Inode>, dirs: set<nat>, ino: nat, used: set<nat>, pad: set<nat>, start: nat, bits: seq<bool>)
    requires FsOk(d, inodes, dirs, used, pad) && ino in inodes && ino < 4096
    requires used == Marked(start, bits) && start + |bits| <= 0x1_0000_0000
    ensures Fits(NodeOf(ino, inodes[ino]))
  {
    var s, sectors := Slots(d, inodes[ino].sectors), inodes[ino].sectors;
    InMarked(start, bits);
    OwnSlots(d, inodes, dirs, used, pad, ino);
    forall i | 0 <= i < 13 ensures sectors[i] < 0x1_0000_0000 {
      var j := if i == 12 then 140 else i;
      assert s[j] == sectors[i];
      if s[j] != 0 { OwnedSlot(s, j); }
    }
  }

  /** A sync after a change leaves every other inode as it was. */
  lemma SyncedOthers(d0: Disk, inodes0: map<nat, Inode>, mid: Disk, inodes: map<nat, Inode>, e: Disk, ino: nat)
    requires OthersSame(d0, inodes0, mid, inodes, ino) && AllSame(mid, e, inodes)
    ensures OthersSame(d0, inodes0, e, inodes, ino)
  {
    forall g | g in inodes0 && g != ino ensures inodes[g] == inodes0[g] && SameFile(d0, e, inodes0[g]) {
      assert g in inodes;
      SameTrans(d0, mid, e, inodes0[g]);
    }
  }

  /** A sync after a write leaves every inode as the write left it. */
  lemma SyncedFile(d0: Disk, inodes0: map<nat, Inode>, mid: Disk, inodes: map<nat, Inode>, e: Disk, ino: nat)
    requires OthersSame(d0, inodes0, mid, inodes, ino) && AllSame(mid, e, inodes) && ino in inodes && NodeOk(mid, inodes[ino], false)
    ensures OthersSame(d0, inodes0, e, inodes, ino)
    ensures FileContents(e, inodes[ino]) == FileContents(mid, inodes[ino]) && Slots(e, inodes[ino].sectors) == Slots(mid, inodes[ino].sectors)
  {
    SameMeans(mid, e, inodes[ino], false);
    SyncedOthers(d0, inodes0, mid, inodes, e, ino);
  }

  /** The block after the last byte of a read, as lines 499-520 compute it. */
  function LastIndex(size: nat, pos: nat, count: nat): (i: nat) {
    if Wrap(pos + count) > size then size / 512 else Wrap(pos + count) / 512
  }

  lemma ReadEnd(i_size: nat, pos: nat, count: nat, size: nat)
    requires i_size < 71680 && pos < 0x1_0000_0000 && count < 0x1_0000_0000
    requires size == if Wrap(pos + count) > i_size then Wrap(i_size + 0x1_0000_0000 - pos) else count
    ensures Wrap(pos + size) / 512 == LastIndex(i_size, pos, count)
    ensures pos <= i_size && pos + count < 0x1_0000_0000 ==> size == if pos + count > i_size then i_size - pos else count
    ensures pos + size <= i_size ==> Wrap(pos + size) == pos + size
  {
  }

  /** Only the root owns block 0. */
  lemma RootApart(d: Disk, inodes: map<nat, Inode>, dirs: set<nat>, used: set<nat>, pad: set<nat>, ino: nat, start: nat)
    requires FsOk(d, inodes, dirs, used, pad) && 0 in inodes && ino in inodes && ino != 0 && inodes[0].sectors[0] == start && start != 0
    ensures start !in OwnedBy(Slots(d, inodes[ino].sectors))
  {
    ApartFrom(OwnMap(d, inodes), used, pad, 0, ino);
    var s := Slots(d, inodes[0].sectors);
    assert s[0] == start;
    OwnedSlot(s, 0);
  }

  lemma NewDirSlots(d: Disk, lba: nat, self: nat, parent: nat)
    requires lba != 0 && SectorAt(d, lba) == DotsBlock(self, parent) && self < 0x1_0000_0000 && parent < 0x1_0000_0000
    ensures Slots(d, NewInode().sectors[0 := lba]) == seq(141, i => 0)[0 := lba] && OwnedBy(seq(141, i => 0)[0 := lba]) == {lba}
    ensures NodeOk(d, Inode(48, NewInode().sectors[0 := lba]), true)
    ensures Dict(AllRows(d, seq(141, i => 0)[0 := lba])) == DotsMap(self, parent)
  {
    var s := Slots(d, NewInode().sectors[0 := lba]);
    assert s == seq(141, i => 0)[0 := lba];
    NewRows(d, s, lba, self, parent);
  }

  /** An empty inode becomes a directory. */
  lemma NewDirOk(d: Disk, inodes: map<nat, Inode>, dirs: set<nat>, used: set<nat>, pad: set<nat>, f: nat, lba: nat, parent: nat, e: Disk)
    requires FsOk(d, inodes, dirs, used, pad) && f in inodes && inodes[f] == NewInode() && lba !in used && lba != 0
    requires e == d[lba := DotsBlock(f, parent)] && f < 0x1_0000_0000 && parent < 0x1_0000_0000
    ensures var jnodes := inodes[f := Inode(48, NewInode().sectors[0 := lba])];
            && FsOk(e, jnodes, dirs + {f}, used + {lba}, pad) && OthersSame(d, inodes, e, jnodes, f)
            && Dict(AllRows(e, Slots(e, jnodes[f].sectors))) == DotsMap(f, parent)
  {
    var after := Inode(48, NewInode().sectors[0 := lba]);
    var s, t := Slots(d, inodes[f].sectors), Slots(e, after.sectors);
    NoBlocks(d);
    NewDirSlots(e, lba, f, parent);
    ReplacedKeepsOthers(d, inodes, dirs, used, pad, e, f, after, t, used + {lba}, dirs + {f});
  }

  lemma RootOk(d: Disk, start: nat, pad: set<nat>)
    requires start != 0 && SectorAt(d, start) == DotsBlock(0, 0) && start !in pad
    ensures FsOk(d, map[0 := RootInode(start)], {0}, pad + {start}, pad)
  {
    var f := RootInode(start);
    var inodes := map[0 := f];
    var s := Slots(d, f.sectors);
    NewDirSlots(d, start, 0, 0);
    assert OkAt(d, inodes, {0}, 0);
    var own := OwnMap(d, inodes);
    assert own == map[0 := s];
    assert Owned(own) == OwnedBy(own[0]);
  }

  /** Nothing changed by way of a write and a release of another inode. */
  lemma SameThrough(d0: Disk, inodes: map<nat, Inode>, d1: Disk, e: Disk)
    requires AllSame(d0, d1, inodes) && AllSame(d1, e, inodes)
    ensures AllSame(d0, e, inodes)
  {
    forall g | g in inodes ensures SameFile(d0, e, inodes[g]) { SameTrans(d0, d1, e, inodes[g]); }
  }

  lemma OthersBack(d: Disk, a: map<nat, Inode>, node: Inode, e: Disk, b: map<nat, Inode>, f: nat)
    requires f !in a && OthersSame(d, a[f := node], e, b, f)
    ensures b - {f} == a && AllSame(d, e, a)
  {
    var c := a[f := node];
    assert b.Keys == c.Keys;
    forall g | g in a ensures g in b - {f} && (b - {f})[g] == a[g] {
      assert g in c.Keys;
      assert b[g] == c[g];
    }
  }

  lemma SuffixBack(c: seq<Byte>, buf: seq<Byte>)
    ensures (c + buf)[|c|..|c| + |buf|] == buf
  {
  }

  lemma NotYet(blocks: seq<nat>, cnt: nat, i: nat)
    requires i < cnt <= |blocks| && DistinctSlots(blocks[..cnt]) && blocks[i] != 0
    ensures blocks[i] !in OwnedBy(blocks[..i])
  {
    forall j | 0 <= j < i ensures blocks[..i][j] != blocks[i] {
      assert blocks[..cnt][j] == blocks[j] && blocks[..cnt][i] == blocks[i];
    }
  }

  lemma Releasing(s: seq<nat>, blocks: seq<nat>, cnt: nat)
    requires DistinctSlots(s) && |s| == 141 && BlocksAgree(blocks, s, 0, cnt) && cnt <= 140
    ensures DistinctSlots(blocks[..cnt]) && s[140] !in OwnedBy(blocks[..cnt])
  {
    var b := blocks[..cnt];
    forall i, j | 0 <= i < j < cnt && b[i] != 0 ensures b[i] != b[j] {
      assert b[i] == s[i] && b[j] == s[j];
    }
    forall i | 0 <= i < cnt && b[i] != 0 ensures b[i] != s[140] { assert b[i] == s[i]; }
  }
}
