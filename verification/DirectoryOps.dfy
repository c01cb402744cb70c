/** The directory operations of fs/dir.c as they run: nested loops over blocks and rows that
    edit sectors, i_sectors, i_size and the block bitmap in place.

    Searching, reading and deleting look at all 140 blocks; adding looks at the twelve direct
    ones only, because it never loads the indirect table. */
module DirectoryOps {
  import opened Bitmap
  import opened Files
  import opened Directory
  import opened InodeTable
  import opened Records
  import opened FileSystem

  datatype Search = Missing | Hit(entry: Entry)

  datatype Insert = NoBlock | Added

  /** Row k exists: its block is there. */
  ghost predicate Exists(slots: seq<nat>, k: nat) { |slots| == 141 && k < 2940 && slots[k / 21] != 0 }

  /** Live rows of a sector that are neither "." nor "..", among the first n. */
  function Ordinary(s: Sector, n: nat): (c: nat)
    requires n <= 21
    ensures c <= n
  {
    if n == 0 then 0
    else Ordinary(s, n - 1) + if Live(RowAt(s, n - 1)) && !Dots(RowAt(s, n - 1).name) then 1 else 0
  }

  lemma {:induction false} OrdinaryNone(s: Sector, n: nat)
    requires n <= 21
    ensures Ordinary(s, n) == 0 ==> forall j {:trigger RowAt(s, j)} :: 0 <= j < n ==> !Live(RowAt(s, j)) || Dots(RowAt(s, j).name)
  {
    if n > 0 { OrdinaryNone(s, n - 1); }
  }

  /** With one ordinary row, no other row is ordinary; with more, another is. */
  lemma {:induction false} OrdinaryOne(s: Sector, n: nat, j: nat)
    requires j < n <= 21 && Live(RowAt(s, j)) && !Dots(RowAt(s, j).name)
    ensures Ordinary(s, n) >= 1
    ensures Ordinary(s, n) == 1 ==>
              forall i {:trigger RowAt(s, i)} :: 0 <= i < n && i != j ==> !Live(RowAt(s, i)) || Dots(RowAt(s, i).name)
    ensures Ordinary(s, n) > 1 ==>
              exists i {:trigger RowAt(s, i)} :: 0 <= i < n && i != j && Live(RowAt(s, i)) && !Dots(RowAt(s, i).name)
  {
    if n - 1 == j {
      OrdinaryNone(s, n - 1);
      if Ordinary(s, n) > 1 { var i := OrdinarySome(s, n - 1); assert Live(RowAt(s, i)); }
    } else {
      OrdinaryOne(s, n - 1, j);
      if Ordinary(s, n) > 1 && Ordinary(s, n - 1) == 1 { assert Live(RowAt(s, n - 1)); }
    }
  }

  lemma {:induction false} OrdinarySome(s: Sector, n: nat) returns (i: nat)
    requires n <= 21 && Ordinary(s, n) > 0
    ensures i < n && Live(RowAt(s, i)) && !Dots(RowAt(s, i).name)
  {
    if Live(RowAt(s, n - 1)) && !Dots(RowAt(s, n - 1).name) {
      i := n - 1;
    } else {
      i := OrdinarySome(s, n - 1);
    }
  }

  lemma KeptBlocks(r: Rows, k: nat, e: Entry, b: nat)
    requires k < 2940 && Live(e)
    requires BlockLive(r, b) || InBlock(b, k)
    ensures BlockLive(r[k := e], b)
  {
    var t := r[k := e];
    if InBlock(b, k) {
      assert Live(t[k]);
    } else {
      var i :| 0 <= i < 2940 && InBlock(b, i) && Live(r[i]);
      assert t[i] == r[i];
    }
  }

  lemma KeptName(r: Rows, k: nat, e: Entry, name: Name)
    requires HasName(r, name) && k < 2940 && (!Live(r[k]) || r[k].name != name)
    ensures HasName(r[k := e], name)
  {
    var i :| 0 <= i < 21 && Live(r[i]) && r[i].name == name;
    assert r[k := e][i] == r[i];
  }

  /** A row filled with a new entry. */
  lemma InsertedOk(d: Disk, slots: seq<nat>, size: nat, d': Disk, slots': seq<nat>, k: nat, e: Entry)
    requires DirOk(d, slots, size) && k < 2940 && !Live(AllRows(d, slots)[k]) && Insertable(AllRows(d, slots), e)
    requires |slots'| == 141 && (slots'[140] != 0 <==> slots'[12] != 0) && slots'[0] != 0 && DistinctSlots(slots')
    requires AllRows(d', slots') == AllRows(d, slots)[k := e]
    requires forall b {:trigger slots'[b]} :: 0 <= b < 140 && slots'[b] != 0 ==> slots[b] != 0 || InBlock(b, k)
    ensures DirOk(d', slots', size + 24)
    ensures Dict(AllRows(d', slots')) == Dict(AllRows(d, slots))[e.name := e]
  {
    var r := AllRows(d, slots);
    InsertRowsOk(r, k, e);
    InsertDict(r, k, e);
    CountUpdate(r, k, e);
    KeptName(r, k, e, [46]);
    KeptName(r, k, e, [46, 46]);
    forall b | 1 <= b < 140 && slots'[b] != 0 ensures BlockLive(AllRows(d', slots'), b) {
      KeptBlocks(r, k, e, b);
    }
  }

  /** A free row in a block that is there. */
  lemma InsertInBlock(d: Disk, slots: seq<nat>, size: nat, b: nat, j: nat, e: Entry)
    requires DirOk(d, slots, size) && b < 140 && j < 21 && slots[b] != 0 && !Live(RowAt(SectorAt(d, slots[b]), j))
    requires Insertable(AllRows(d, slots), e)
    ensures var d' := d[slots[b] := PutRow(SectorAt(d, slots[b]), j, e)];
            DirOk(d', slots, size + 24) && Dict(AllRows(d', slots)) == Dict(AllRows(d, slots))[e.name := e]
  {
    BlockOf(b, j);
    assert AllRows(d, slots)[21 * b + j] == RowOf(d, slots, 21 * b + j);
    RowsAfterPut(d, slots, b, j, e);
    InsertedOk(d, slots, size, d[slots[b] := PutRow(SectorAt(d, slots[b]), j, e)], slots, 21 * b + j, e);
  }

  /** A new block for the entry. */
  lemma InsertNewBlock(d: Disk, slots: seq<nat>, size: nat, b: nat, lba: nat, e: Entry)
    requires DirOk(d, slots, size) && b < 12 && slots[b] == 0 && lba != 0 && lba !in slots
    requires Insertable(AllRows(d, slots), e)
    ensures var d' := d[lba := PutRow(Blank(), 0, e)];
            && DirOk(d', slots[b := lba], size + 24)
            && Dict(AllRows(d', slots[b := lba])) == Dict(AllRows(d, slots))[e.name := e]
  {
    BlockOf(b, 0);
    RowsAfterNew(d, slots, b, lba, e);
    DistinctFresh(slots, b, lba);
    MissingRow(d, slots, b);
    InsertedOk(d, slots, size, d[lba := PutRow(Blank(), 0, e)], slots[b := lba], 21 * b, e);
  }

  lemma MissingRow(d: Disk, slots: seq<nat>, b: nat)
    requires |slots| == 141 && b < 140 && slots[b] == 0
    ensures AllRows(d, slots)[21 * b] == FreeEntry
  {
    BlockOf(b, 0);
    assert AllRows(d, slots)[21 * b] == RowOf(d, slots, 21 * b);
  }

  lemma DistinctFresh(s: seq<nat>, b: nat, lba: nat)
    requires DistinctSlots(s) && b < |s| && lba !in s
    ensures DistinctSlots(s[b := lba])
  {
    var t := s[b := lba];
    forall i, j | 0 <= i < j < |t| && t[i] != 0 ensures t[i] != t[j] {
      assert (i != b ==> t[i] == s[i]) && (j != b ==> t[j] == s[j]);
    }
  }

  /** With twelve full direct blocks, no direct row is free. */
  lemma AllFull(d: Disk, slots: seq<nat>)
    requires |slots| == 141
    requires forall b {:trigger slots[b]} :: 0 <= b < 12 ==> slots[b] != 0 && FullSector(SectorAt(d, slots[b]), 21)
    ensures forall k {:trigger AllRows(d, slots)[k]} :: 0 <= k < 252 ==> Live(AllRows(d, slots)[k])
  {
    var r := AllRows(d, slots);
    forall k | 0 <= k < 252 ensures Live(r[k]) {
      assert slots[k / 21] != 0;
      assert r[k] == RowOf(d, slots, k) == RowAt(SectorAt(d, slots[k / 21]), k % 21);
    }
  }

  ghost predicate FullSector(s: Sector, n: nat)
    requires n <= 21
  {
    forall j {:trigger RowAt(s, j)} :: 0 <= j < n ==> Live(RowAt(s, j))
  }

  method FreeRow(buf: Sector) returns (idx: nat)
    ensures idx <= 21 && FullSector(buf, idx) && (idx < 21 ==> !Live(RowAt(buf, idx)))
  {
    idx := 0;
    while idx < 21
      invariant 0 <= idx <= 21 && FullSector(buf, idx)
    {
      if RowAt(buf, idx).kind == 0 { return; }
      idx := idx + 1;
    }
  }

  // ----- deleting -----------------------------------------------------------------------------------

  /** Row j is an entry for `ino` other than "." and "..". */
  predicate Target(e: Entry, ino: nat) { Live(e) && !Dots(e.name) && e.ino == ino }

  /** At most one row of the sector is a target. */
  ghost predicate OneTarget(s: Sector, ino: nat) {
    forall i, j {:trigger RowAt(s, i), RowAt(s, j)} :: 0 <= i < j < 21 ==> !(Target(RowAt(s, i), ino) && Target(RowAt(s, j), ino))
  }

  ghost predicate HasDot(s: Sector, n: nat)
    requires n <= 21
  {
    exists j {:trigger RowAt(s, j)} :: 0 <= j < n && Live(RowAt(s, j)) && RowAt(s, j).name == [46]
  }

  ghost predicate NoTarget(s: Sector, ino: nat, n: nat)
    requires n <= 21
  {
    forall j {:trigger RowAt(s, j)} :: 0 <= j < n ==> !Target(RowAt(s, j), ino)
  }

  /** What the pass over a block knows after n rows. */
  ghost predicate Scanned(s: Sector, ino: nat, n: nat, first: bool, cnt: nat, found: nat)
    requires n <= 21
  {
    && (first <==> HasDot(s, n)) && cnt == Ordinary(s, n) && (found == 21 || found < n)
    && if found < 21 then Target(RowAt(s, found), ino) else NoTarget(s, ino, n)
  }

  lemma DotNext(s: Sector, n: nat)
    requires n < 21
    ensures HasDot(s, n + 1) <==> HasDot(s, n) || (Live(RowAt(s, n)) && RowAt(s, n).name == [46])
  {
    if HasDot(s, n) {
      var j :| 0 <= j < n && Live(RowAt(s, j)) && RowAt(s, j).name == [46];
      assert Live(RowAt(s, j));
    }
  }

  lemma ScanNext(s: Sector, ino: nat, n: nat, first: bool, cnt: nat, found: nat, e: Entry)
    requires n < 21 && Scanned(s, ino, n, first, cnt, found) && OneTarget(s, ino) && e == RowAt(s, n)
    ensures Target(e, ino) ==> found == 21
    ensures Scanned(s, ino, n + 1, first || (Live(e) && e.name == [46]), cnt + (if Live(e) && !Dots(e.name) then 1 else 0),
                    if Target(e, ino) then n else found)
  {
    DotNext(s, n);
  }

  /** Lines 277-305: one pass over the rows of a block.  found is 21 if there is no target. */
  method ScanBlock(buf: Sector, ino: nat) returns (first: bool, cnt: nat, found: nat)
    requires OneTarget(buf, ino)
    ensures first <==> HasDot(buf, 21)
    ensures cnt == Ordinary(buf, 21)
    ensures found <= 21 && if found < 21 then Target(RowAt(buf, found), ino) else NoTarget(buf, ino, 21)
  {
    first, cnt, found := false, 0, 21;
    var idx := 0;
    while idx < 21
      invariant 0 <= idx <= 21 && Scanned(buf, ino, idx, first, cnt, found)
    {
      var e := RowAt(buf, idx);
      ScanNext(buf, ino, idx, first, cnt, found, e);
      if e.kind != 0 {
        if e.name == [46] {
          first := true;
        } else if e.name != [46] && e.name != [46, 46] {
          cnt := cnt + 1;
          if e.ino == ino {
            assert found == 21;                                   // the ASSERT at line 299
            found := idx;
          }
        }
      }
      idx := idx + 1;
    }
  }

  /** A row emptied. */
  lemma DeletedOk(d: Disk, slots: seq<nat>, size: nat, d': Disk, slots': seq<nat>, k: nat)
    requires DirOk(d, slots, size) && k < 2940 && Live(AllRows(d, slots)[k]) && !Dots(AllRows(d, slots)[k].name)
    requires |slots'| == 141 && (slots'[140] != 0 <==> slots'[12] != 0) && slots'[0] != 0 && DistinctSlots(slots')
    requires AllRows(d', slots') == AllRows(d, slots)[k := FreeEntry]
    requires forall b {:trigger BlockLive(AllRows(d, slots), b)} :: 1 <= b < 140 && slots'[b] != 0 && !InBlock(b, k) ==> slots[b] != 0
    requires forall b {:trigger BlockLive(AllRows(d', slots'), b)} :: 1 <= b < 140 && slots'[b] != 0 && InBlock(b, k) ==>
               BlockLive(AllRows(d', slots'), b)
    ensures size >= 24 && DirOk(d', slots', size - 24)
    ensures Dict(AllRows(d', slots')) == Dict(AllRows(d, slots)) - {AllRows(d, slots)[k].name}
  {
    var r := AllRows(d, slots);
    DeleteRowsOk(r, k);
    DeleteDict(r, k);
    CountUpdate(r, k, FreeEntry);
    KeptName(r, k, FreeEntry, [46]);
    KeptName(r, k, FreeEntry, [46, 46]);
    forall b | 1 <= b < 140 && slots'[b] != 0 ensures BlockLive(AllRows(d', slots'), b) {
      if !InBlock(b, k) { OtherBlockLive(r, k, b); }
    }
  }

  lemma OtherBlockLive(r: Rows, k: nat, b: nat)
    requires k < 2940 && BlockLive(r, b) && !InBlock(b, k)
    ensures BlockLive(r[k := FreeEntry], b)
  {
    var i :| 0 <= i < 2940 && InBlock(b, i) && Live(r[i]);
    assert r[k := FreeEntry][i] == r[i];
  }

  /** Rows of a block as the scan sees them. */
  lemma RowInBlock(d: Disk, slots: seq<nat>, b: nat, j: nat)
    requires |slots| == 141 && b < 140 && j < 21 && slots[b] != 0
    ensures 21 * b + j < 2940 && AllRows(d, slots)[21 * b + j] == RowAt(SectorAt(d, slots[b]), j)
  {
    BlockOf(b, j);
    assert AllRows(d, slots)[21 * b + j] == RowOf(d, slots, 21 * b + j);
  }

  lemma BlockOneTarget(d: Disk, slots: seq<nat>, b: nat, ino: nat)
    requires |slots| == 141 && b < 140 && slots[b] != 0 && InodesUnique(AllRows(d, slots))
    ensures OneTarget(SectorAt(d, slots[b]), ino)
  {
    var s := SectorAt(d, slots[b]);
    forall i, j | 0 <= i < j < 21 ensures !(Target(RowAt(s, i), ino) && Target(RowAt(s, j), ino)) {
      RowInBlock(d, slots, b, i);
      RowInBlock(d, slots, b, j);
    }
  }

  /** Only the first block holds "." and "..". */
  lemma DotsInFirst(d: Disk, slots: seq<nat>, size: nat, b: nat)
    requires DirOk(d, slots, size) && b < 140 && slots[b] != 0
    ensures HasDot(SectorAt(d, slots[b]), 21) <==> b == 0
    ensures b > 0 ==> forall j {:trigger RowAt(SectorAt(d, slots[b]), j)} :: 0 <= j < 21 && Live(RowAt(SectorAt(d, slots[b]), j)) ==>
                        !Dots(RowAt(SectorAt(d, slots[b]), j).name)
  {
    var r, s := AllRows(d, slots), SectorAt(d, slots[b]);
    var p :| 0 <= p < 21 && Live(r[p]) && r[p].name == [46];
    var q :| 0 <= q < 21 && Live(r[q]) && r[q].name == [46, 46];
    if b == 0 {
      RowInBlock(d, slots, 0, p);
      assert Live(RowAt(s, p)) && RowAt(s, p).name == [46];
    } else {
      forall j | 0 <= j < 21 && Live(RowAt(s, j)) ensures !Dots(RowAt(s, j).name) {
        RowInBlock(d, slots, b, j);
        assert p < 21 * b + j && q < 21 * b + j;
        assert r[p].name != r[21 * b + j].name && r[q].name != r[21 * b + j].name;
      }
    }
  }

  /** Emptying a row in place. */
  lemma DeleteInPlace(d: Disk, slots: seq<nat>, size: nat, b: nat, j: nat, ino: nat)
    requires DirOk(d, slots, size) && b < 140 && j < 21 && slots[b] != 0 && Target(RowAt(SectorAt(d, slots[b]), j), ino)
    requires b == 0 || Ordinary(SectorAt(d, slots[b]), 21) > 1
    ensures var d' := d[slots[b] := PutRow(SectorAt(d, slots[b]), j, FreeEntry)];
            && size >= 24 && DirOk(d', slots, size - 24)
            && Dict(AllRows(d', slots)) == Dict(AllRows(d, slots)) - {RowAt(SectorAt(d, slots[b]), j).name}
  {
    var s, k := SectorAt(d, slots[b]), 21 * b + j;
    var d' := d[slots[b] := PutRow(s, j, FreeEntry)];
    BlockOf(b, j);
    RowInBlock(d, slots, b, j);
    RowsAfterPut(d, slots, b, j, FreeEntry);
    if b > 0 { AnotherLives(d, slots, b, j); }
    assert forall c :: InBlock(c, k) ==> c == b;
    DeletedOk(d, slots, size, d', slots, k);
  }

  lemma AnotherLives(d: Disk, slots: seq<nat>, b: nat, j: nat)
    requires |slots| == 141 && b < 140 && j < 21 && slots[b] != 0
    requires Live(RowAt(SectorAt(d, slots[b]), j)) && !Dots(RowAt(SectorAt(d, slots[b]), j).name)
    requires Ordinary(SectorAt(d, slots[b]), 21) > 1
    ensures 21 * b + j < 2940 && BlockLive(AllRows(d, slots)[21 * b + j := FreeEntry], b)
  {
    var s := SectorAt(d, slots[b]);
    OrdinaryOne(s, 21, j);
    var i :| 0 <= i < 21 && i != j && Live(RowAt(s, i)) && !Dots(RowAt(s, i).name);
    StillLive(d, slots, b, j, i);
  }

  lemma StillLive(d: Disk, slots: seq<nat>, b: nat, j: nat, i: nat)
    requires |slots| == 141 && b < 140 && j < 21 && i < 21 && i != j && slots[b] != 0 && Live(RowAt(SectorAt(d, slots[b]), i))
    ensures 21 * b + j < 2940 && BlockLive(AllRows(d, slots)[21 * b + j := FreeEntry], b)
  {
    RowInBlock(d, slots, b, j);
    RowInBlock(d, slots, b, i);
    BlockOf(b, i);
    var t: Rows := AllRows(d, slots)[21 * b + j := FreeEntry];
    assert Live(t[21 * b + i]);
  }

  /** Giving up a block that held one entry only. */
  lemma DeleteBlock(d: Disk, slots: seq<nat>, size: nat, b: nat, j: nat, ino: nat)
    requires DirOk(d, slots, size) && 1 <= b < 12 && j < 21 && slots[b] != 0 && Target(RowAt(SectorAt(d, slots[b]), j), ino)
    requires Ordinary(SectorAt(d, slots[b]), 21) == 1
    ensures size >= 24 && DirOk(d, slots[b := 0], size - 24)
    ensures Dict(AllRows(d, slots[b := 0])) == Dict(AllRows(d, slots)) - {RowAt(SectorAt(d, slots[b]), j).name}
  {
    var s, k, r := SectorAt(d, slots[b]), 21 * b + j, AllRows(d, slots);
    BlockOf(b, j);
    RowInBlock(d, slots, b, j);
    OrdinaryOne(s, 21, j);
    DotsInFirst(d, slots, size, b);
    forall i | 0 <= i < 2940 && InBlock(b, i) && i != k ensures !Live(r[i]) {
      RowInBlock(d, slots, b, i - 21 * b);
      assert !Live(RowAt(s, i - 21 * b));
    }
    RowsAfterDrop(d, slots, b, j);
    DistinctDrop(slots, b);
    assert forall c :: InBlock(c, k) ==> c == b;
    DeletedOk(d, slots, size, d, slots[b := 0], k);
  }

  lemma DistinctDrop(s: seq<nat>, b: nat)
    requires DistinctSlots(s) && b < |s|
    ensures DistinctSlots(s[b := 0])
  {
    var t := s[b := 0];
    forall i, j | 0 <= i < j < |t| && t[i] != 0 ensures t[i] != t[j] {
      assert t[i] == s[i] && (j != b ==> t[j] == s[j]);
    }
  }

  // ----- the operations ------------------------------------------------------------------------------

  /** The rows of a directory. */
  ghost function RowsOf(d: Disk, f: Inode): (r: Rows)
    requires |f.sectors| == 13
  {
    AllRows(d, Slots(d, f.sectors))
  }

  /** all_blocks of an inode: the direct blocks, and the table if there is one. */
  method AllBlocks(disk: Disk, sectors: seq<nat>) returns (blocks: seq<nat>)
    requires |sectors| == 13
    ensures |blocks| == 140 && blocks == Slots(disk, sectors)[..140]
  {
    blocks := CopyDirect(sectors, 0, 12);
    if sectors[12] != 0 {
      blocks := blocks[..12] + ReadTable(SectorAt(disk, sectors[12]));
    }
  }

  /** `search_dir_entry`: the first row with that name.  An empty name matches a free row. */
  method SearchDirEntry(fs: Fs, dno: nat, name: Name) returns (r: Search)
    requires fs.Valid() && dno in fs.dirs
    ensures r.Hit? <==> exists k: nat {:trigger Exists(Slots(fs.disk, fs.inodes[dno].sectors), k)} ::
              Exists(Slots(fs.disk, fs.inodes[dno].sectors), k) && RowsOf(fs.disk, fs.inodes[dno])[k].name == name
    ensures name != [] ==> (r.Hit? <==> name in Dict(RowsOf(fs.disk, fs.inodes[dno])))
    ensures name != [] && r.Hit? ==> r.entry == Dict(RowsOf(fs.disk, fs.inodes[dno]))[name]
  {
    ghost var s := Slots(fs.disk, fs.inodes[dno].sectors);
    assert OkAt(fs.disk, fs.inodes, fs.dirs, dno);
    var blocks := AllBlocks(fs.disk, fs.inodes[dno].sectors);
    r := SearchBlocks(fs.disk, blocks, name, s);
  }

  method SearchBlocks(disk: Disk, blocks: seq<nat>, name: Name, ghost s: seq<nat>) returns (r: Search)
    requires |s| == 141 && blocks == s[..140] && RowsOk(AllRows(disk, s))
    ensures r.Hit? <==> exists k: nat {:trigger Exists(s, k)} :: Exists(s, k) && AllRows(disk, s)[k].name == name
    ensures name != [] ==> (r.Hit? <==> name in Dict(AllRows(disk, s)))
    ensures name != [] && r.Hit? ==> r.entry == Dict(AllRows(disk, s))[name]
  {
    var block_idx := 0;
    while block_idx < 140
      invariant 0 <= block_idx <= 140
      invariant forall b {:trigger s[b]} :: 0 <= b < block_idx && s[b] != 0 ==> Absent(SectorAt(disk, s[b]), name, 21)
    {
      assert blocks[block_idx] == s[block_idx];
      if blocks[block_idx] != 0 {
        var buf := SectorAt(disk, blocks[block_idx]);
        var idx := SearchBlock(buf, name);
        if idx < 21 {
          FoundRow(disk, s, block_idx, idx, name);
          return Hit(RowAt(buf, idx));
        }
      }
      block_idx := block_idx + 1;
    }
    NotFound(disk, s, name);
    r := Missing;
  }

  // ----- adding an entry --------------------------------------------------------------------------------

  /** The blocks that one more entry takes: none for a free row, one for a missing direct
      block before it, two once the direct blocks are full. */
  ghost function EntryNeed(d: Disk, s: seq<nat>, b: nat): (n: nat)
    requires |s| >= 12
    ensures n <= 2
    decreases 12 - b
  {
    if b >= 12 then 2
    else if s[b] == 0 then 1
    else if FullSector(SectorAt(d, s[b]), 21) then EntryNeed(d, s, b + 1)
    else 0
  }

  lemma {:induction false} EntryNeedSame(d: Disk, s: seq<nat>, t: seq<nat>, b: nat)
    requires |s| >= 12 && |t| >= 12 && forall i {:trigger s[i]} {:trigger t[i]} :: 0 <= i < 12 ==> s[i] == t[i]
    ensures EntryNeed(d, s, b) == EntryNeed(d, t, b)
    decreases 12 - b
  {
    if b < 12 {
      assert s[b] == t[b];
      EntryNeedSame(d, s, t, b + 1);
    }
  }

  /** The loops of `sync_dir_entry`: the first free row, or the first missing block.  The
      indirect table is not read, so block 12 always looks missing. */
  method FindRoom(disk: Disk, blocks: seq<nat>) returns (b: nat, idx: nat)
    requires |blocks| == 140 && blocks[12] == 0
    ensures b <= 12 && forall c {:trigger blocks[c]} :: 0 <= c < b ==> blocks[c] != 0 && FullSector(SectorAt(disk, blocks[c]), 21)
    ensures blocks[b] != 0 ==> idx < 21 && !Live(RowAt(SectorAt(disk, blocks[b]), idx))
    ensures EntryNeed(disk, blocks, 0) == if b == 12 then 2 else if blocks[b] == 0 then 1 else 0
  {
    b, idx := 0, 0;
    while b < 140
      invariant 0 <= b <= 12
      invariant forall c {:trigger blocks[c]} :: 0 <= c < b ==> blocks[c] != 0 && FullSector(SectorAt(disk, blocks[c]), 21)
      invariant EntryNeed(disk, blocks, 0) == EntryNeed(disk, blocks, b)
      decreases 140 - b
    {
      if blocks[b] == 0 { return; }
      idx := FreeRow(SectorAt(disk, blocks[b]));
      if idx < 21 { return; }
      b := b + 1;
    }
  }

  /** An entry finds room without harm: a direct row is free, or there is no table yet. */
  ghost predicate Room(d: Disk, f: Inode)
    requires |f.sectors| == 13
  {
    f.sectors[12] == 0 || DirectRow(d, f)
  }

  /** A row of the direct blocks is free. */
  ghost predicate DirectRow(d: Disk, f: Inode)
    requires |f.sectors| == 13
  {
    exists k {:trigger RowsOf(d, f)[k]} :: 0 <= k < 252 && !Live(RowsOf(d, f)[k])
  }

  /** Inode `ino` has its entry alone behind the table, and the direct rows are all taken. */
  ghost predicate Spilt(d: Disk, f: Inode, ino: nat) {
    |f.sectors| == 13 && f.sectors[12] != 0 && !DirectRow(d, f) && Stuck(d, Slots(d, f.sectors), ino)
  }

  /** Where a new entry landed: in a direct block as long as one of their rows is free, else
      behind a new table. */
  ghost predicate Landed(d: Disk, f: Inode, d': Disk, f': Inode, ino: nat) {
    |f.sectors| == 13 && |f'.sectors| == 13 && if DirectRow(d, f) then f'.sectors[12] == f.sectors[12] else Spilt(d', f', ino)
  }

  /** With fewer than 252 entries, a direct row is free. */
  lemma FewEntries(d: Disk, f: Inode)
    requires |f.sectors| == 13 && Count(RowsOf(d, f)) < 252
    ensures DirectRow(d, f)
  {
    var r := RowsOf(d, f);
    CountMore(r, 252);
    if forall k {:trigger r[..252][k]} :: 0 <= k < 252 ==> Live(r[..252][k]) {
      CountFull(r[..252]);
      assert false;
    }
    var k :| 0 <= k < 252 && !Live(r[..252][k]);
    assert !Live(RowsOf(d, f)[k]);
  }

  lemma {:induction false} CountMore(r: seq<Entry>, n: nat)
    requires n <= |r|
    ensures Count(r[..n]) <= Count(r)
  {
    if n == |r| {
      assert r[..n] == r;
    } else {
      assert r[..|r| - 1][..n] == r[..n];
      CountMore(r[..|r| - 1], n);
    }
  }

  /** The direct blocks of a directory lie behind the inode table. */
  lemma OwnAbove(fs: Fs, dno: nat, b: nat)
    requires fs.Valid() && dno in fs.inodes && b < 140 && Slots(fs.disk, fs.inodes[dno].sectors)[b] != 0
    ensures fs.table + 608 <= Slots(fs.disk, fs.inodes[dno].sectors)[b]
  {
    BlocksAbove(fs.disk, fs.inodes, fs.dirs, fs.Used(), fs.pad, dno, fs.start, fs.Bits());
    OwnedSlot(Slots(fs.disk, fs.inodes[dno].sectors), b);
  }

  /** e was added to directory `dno`, and no other inode changed. */
  ghost predicate AddedTo(d: Disk, inodes: map<nat, Inode>, d': Disk, jnodes: map<nat, Inode>, dno: nat, e: Entry) {
    && dno in inodes && dno in jnodes && |inodes[dno].sectors| == 13 && |jnodes[dno].sectors| == 13
    && jnodes == inodes[dno := jnodes[dno]] && OthersSame(d, inodes, d', jnodes, dno) && jnodes[dno].size == inodes[dno].size + 24
    && Dict(RowsOf(d', jnodes[dno])) == Dict(RowsOf(d, inodes[dno]))[e.name := e]
  }

  /** What an insertion does to the directory itself: its slots become `t`. */
  ghost predicate Inserted(d: Disk, f: Inode, used: set<nat>, d': Disk, f': Inode, used': set<nat>, e: Entry)
    requires |f.sectors| == 13 && |f'.sectors| == 13
  {
    var s, t := Slots(d, f.sectors), Slots(d', f'.sectors);
    && Grown(s, t, used, used') && OnlyWithin(d, d', t) && f'.size == f.size + 24
    && DirOk(d', t, f'.size) && Dict(AllRows(d', t)) == Dict(AllRows(d, s))[e.name := e]
  }

  lemma InsertedInto(d: Disk, inodes: map<nat, Inode>, dirs: set<nat>, used: set<nat>, pad: set<nat>, dno: nat, d': Disk, f': Inode, used': set<nat>, e: Entry)
    requires FsOk(d, inodes, dirs, used, pad) && dno in dirs && dno in inodes && |f'.sectors| == 13
    requires Inserted(d, inodes[dno], used, d', f', used', e)
    ensures FsOk(d', inodes[dno := f'], dirs, used', pad) && AddedTo(d, inodes, d', inodes[dno := f'], dno, e)
  {
    var s, t := Slots(d, inodes[dno].sectors), Slots(d', f'.sectors);
    GrownReplaces(s, t, used, used');
    ReplacedKeepsOthers(d, inodes, dirs, used, pad, d', dno, f', t, used', dirs);
  }

  lemma PutDone(d: Disk, f: Inode, used: set<nat>, b: nat, idx: nat, e: Entry, d': Disk)
    requires |f.sectors| == 13 && DirOk(d, Slots(d, f.sectors), f.size) && Insertable(RowsOf(d, f), e) && b < 12 && idx < 21
    requires Grown(Slots(d, f.sectors), Slots(d, f.sectors), used, used)
    requires f.sectors[b] != 0 && !Live(RowAt(SectorAt(d, f.sectors[b]), idx))
    requires d' == d[f.sectors[b] := PutRow(SectorAt(d, f.sectors[b]), idx, e)]
    ensures Inserted(d, f, used, d', Inode(f.size + 24, f.sectors), used, e)
  {
    var s := Slots(d, f.sectors);
    assert s[b] == f.sectors[b];
    InsertInBlock(d, s, f.size, b, idx, e);
    StaysWithin(d, d, s, f.sectors, b, SectorAt(d', s[b]));
  }

  lemma NewDone(d: Disk, f: Inode, used: set<nat>, b: nat, lba: nat, e: Entry, d': Disk)
    requires |f.sectors| == 13 && DirOk(d, Slots(d, f.sectors), f.size) && Insertable(RowsOf(d, f), e) && b < 12
    requires Grown(Slots(d, f.sectors), Slots(d, f.sectors), used, used)
    requires f.sectors[b] == 0 && lba != 0 && lba !in used && d' == d[lba := PutRow(Blank(), 0, e)]
    ensures Inserted(d, f, used, d', Inode(f.size + 24, f.sectors[b := lba]), used + {lba}, e)
  {
    var s := Slots(d, f.sectors);
    assert s[b] == f.sectors[b];
    GrowOne(s, s, used, used, b, lba);
    FreshSlot(s, lba, used);
    InsertNewBlock(d, s, f.size, b, lba, e);
    NewDirect(d, f.sectors, b, lba, d');
    OwnedSlot(s[b := lba], b);
  }

  /** Lines 225-233. */
  method PutInBlock(fs: Fs, dno: nat, b: nat, idx: nat, e: Entry)
    requires fs.Valid() && dno in fs.dirs && Insertable(RowsOf(fs.disk, fs.inodes[dno]), e) && b < 12 && idx < 21
    requires fs.inodes[dno].sectors[b] != 0 && !Live(RowAt(SectorAt(fs.disk, fs.inodes[dno].sectors[b]), idx))
    modifies fs`disk, fs`inodes
    ensures fs.Valid() && AddedTo(old(fs.disk), old(fs.inodes), fs.disk, fs.inodes, dno, e)
    ensures TableSame(old(fs.disk), fs.disk, fs.table) && fs.inodes[dno].sectors == old(fs.inodes[dno].sectors)
  {
    var f := fs.inodes[dno];
    ghost var d := fs.disk;
    var lba := f.sectors[b];
    OwnAbove(fs, dno, b);
    BlockOnly(d, lba, PutRow(SectorAt(d, lba), idx, e), fs.table);
    fs.disk := fs.disk[lba := PutRow(SectorAt(fs.disk, lba), idx, e)];
    OwnSlots(d, fs.inodes, fs.dirs, fs.Used(), fs.pad, dno);
    PutDone(d, f, fs.Used(), b, idx, e, fs.disk);
    InsertedInto(d, fs.inodes, fs.dirs, fs.Used(), fs.pad, dno, fs.disk, Inode(f.size + 24, f.sectors), fs.Used(), e);
    fs.inodes := fs.inodes[dno := Inode(f.size + 24, f.sectors)];
  }

  /** Lines 159-177 and 211-216: a direct block. */
  method PutInNewBlock(fs: Fs, dno: nat, b: nat, e: Entry) returns (r: Insert)
    requires fs.Valid() && dno in fs.dirs && Insertable(RowsOf(fs.disk, fs.inodes[dno]), e) && b < 12
    requires fs.inodes[dno].sectors[b] == 0
    modifies fs`disk, fs`bytes, fs`inodes
    ensures fs.Shaped() && (r.NoBlock? ==> Full(fs.Bits()))
    ensures (r.NoBlock? <==> old(fs.Free()) < 1) && (r.Added? ==> fs.Free() == old(fs.Free()) - 1)
    ensures r.Added? ==> fs.Valid() && AddedTo(old(fs.disk), old(fs.inodes), fs.disk, fs.inodes, dno, e)
    ensures r.Added? ==> TableSame(old(fs.disk), fs.disk, fs.table) && fs.inodes[dno].sectors[12] == old(fs.inodes[dno].sectors[12])
  {
    var f := fs.inodes[dno];
    ghost var d, used := fs.disk, fs.Used();
    var ok, lba := fs.BlockBitmapAlloc();
    if !ok { return NoBlock; }
    BlockOnly(d, lba, PutRow(Blank(), 0, e), fs.table);
    fs.disk := fs.disk[lba := PutRow(Blank(), 0, e)];
    OwnSlots(d, fs.inodes, fs.dirs, used, fs.pad, dno);
    NewDone(d, f, used, b, lba, e, fs.disk);
    InsertedInto(d, fs.inodes, fs.dirs, used, fs.pad, dno, fs.disk, Inode(f.size + 24, f.sectors[b := lba]), fs.Used(), e);
    fs.inodes := fs.inodes[dno := Inode(f.size + 24, f.sectors[b := lba])];
    r := Added;
  }

  /** The slots with a new table `tab` whose only entry is `lba`. */
  function NewTableSlots(s: seq<nat>, tab: nat, lba: nat): (t: seq<nat>)
    requires |s| == 141
    ensures |t| == 141
  {
    s[..12] + [lba] + seq(127, i => 0) + [tab]
  }

  /** An entry in the first row of a new block behind a new table: the rows of the direct
      blocks stay, the rows behind an old table are gone. */
  ghost predicate Overflowed(d: Disk, f: Inode, used: set<nat>, d': Disk, f': Inode, used': set<nat>, tab: nat, lba: nat, e: Entry) {
    && |f.sectors| == 13 && f' == Inode(f.size + 24, f.sectors[12 := tab])
    && tab != 0 && lba != 0 && tab !in used && lba !in used && tab != lba && used' == used + {tab, lba}
    && Slots(d', f'.sectors) == NewTableSlots(Slots(d, f.sectors), tab, lba) && OnlyWithin(d, d', [tab, lba])
    && RowsOf(d', f') == Cut(RowsOf(d, f))[252 := e]
  }

  /** Lines 178-201 and 211-216: a new table and its first block.  A table that was there
      before is forgotten, with all its blocks. */
  method PutBehindTable(fs: Fs, dno: nat, e: Entry) returns (r: Insert, ghost tab: nat, ghost lba: nat)
    requires fs.Shaped() && dno in fs.inodes && |fs.inodes[dno].sectors| == 13 && GoodEntry(e)
    requires OwnedBy(Slots(fs.disk, fs.inodes[dno].sectors)) <= fs.Used()
    modifies fs`disk, fs`bytes, fs`inodes
    ensures fs.Shaped() && (r.NoBlock? ==> Full(fs.Bits()))
    ensures (r.NoBlock? <==> old(fs.Free()) < 2) && (r.Added? ==> fs.Free() == old(fs.Free()) - 2 && TableSame(old(fs.disk), fs.disk, fs.table))
    ensures r.Added? ==> dno in fs.inodes && fs.inodes == old(fs.inodes)[dno := fs.inodes[dno]] && tab < 0x1_0000_0000
    ensures r.Added? ==> Overflowed(old(fs.disk), old(fs.inodes[dno]), old(fs.Used()), fs.disk, fs.inodes[dno], fs.Used(), tab, lba, e)
  {
    var f := fs.inodes[dno];
    ghost var d, used := fs.disk, fs.Used();
    lba := 0;
    var ok, table := fs.BlockBitmapAlloc();
    tab := table;
    if !ok { return NoBlock, tab, lba; }
    var block;
    ok, block := fs.BlockBitmapAlloc();
    lba := block;
    if !ok { return NoBlock, tab, lba; }
    var blocks := CopyDirect(f.sectors, 0, 12);
    blocks := blocks[12 := block];
    BlockOnly(fs.disk, table, Encode(blocks[12..]), fs.table);
    fs.disk := fs.disk[table := Encode(blocks[12..])];
    BlockOnly(fs.disk, block, PutRow(Blank(), 0, e), fs.table);
    fs.disk := fs.disk[block := PutRow(Blank(), 0, e)];
    fs.inodes := fs.inodes[dno := Inode(f.size + 24, f.sectors[12 := table])];
    OverflowDone(d, f, blocks, tab, lba, used, e, fs.disk);
    r := Added;
  }

  /** The twelve direct blocks are full. */
  method Spill(fs: Fs, dno: nat, e: Entry) returns (r: Insert)
    requires fs.Valid() && dno in fs.dirs && Insertable(RowsOf(fs.disk, fs.inodes[dno]), e)
    requires forall k {:trigger RowsOf(fs.disk, fs.inodes[dno])[k]} :: 0 <= k < 252 ==> Live(RowsOf(fs.disk, fs.inodes[dno])[k])
    modifies fs`disk, fs`bytes, fs`inodes
    ensures fs.Shaped() && (r.NoBlock? ==> Full(fs.Bits()))
    ensures r.Added? ==> dno in fs.inodes && fs.inodes == old(fs.inodes)[dno := fs.inodes[dno]] && Fits(NodeOf(dno, fs.inodes[dno]))
    ensures (r.NoBlock? <==> old(fs.Free()) < 2) && (r.Added? ==> fs.Free() == old(fs.Free()) - 2 && TableSame(old(fs.disk), fs.disk, fs.table))
    ensures r.Added? && !Dots(e.name) ==> Spilt(fs.disk, fs.inodes[dno], e.ino)
    ensures r.Added? ==> (fs.Valid() <==> old(Room(fs.disk, fs.inodes[dno])))
    ensures r.Added? ==> (AddedTo(old(fs.disk), old(fs.inodes), fs.disk, fs.inodes, dno, e) <==> old(Room(fs.disk, fs.inodes[dno])))
    ensures r.Added? && !old(Room(fs.disk, fs.inodes[dno])) ==>
              Dict(RowsOf(fs.disk, fs.inodes[dno])) == Dict(Cut(old(RowsOf(fs.disk, fs.inodes[dno]))))[e.name := e]
  {
    OwnSlots(fs.disk, fs.inodes, fs.dirs, fs.Used(), fs.pad, dno);
    fs.InodeFits(dno);
    r := SpillOver(fs, dno, e);
  }

  method SpillOver(fs: Fs, dno: nat, e: Entry) returns (r: Insert)
    requires fs.Shaped() && FsOk(fs.disk, fs.inodes, fs.dirs, fs.Used(), fs.pad) && dno in fs.dirs && dno in fs.inodes
    requires Insertable(RowsOf(fs.disk, fs.inodes[dno]), e) && OwnedBy(Slots(fs.disk, fs.inodes[dno].sectors)) <= fs.Used()
    requires forall k {:trigger RowsOf(fs.disk, fs.inodes[dno])[k]} :: 0 <= k < 252 ==> Live(RowsOf(fs.disk, fs.inodes[dno])[k])
    modifies fs`disk, fs`bytes, fs`inodes
    ensures fs.Shaped() && (r.NoBlock? ==> Full(fs.Bits()))
    ensures (r.NoBlock? <==> old(fs.Free()) < 2) && (r.Added? ==> fs.Free() == old(fs.Free()) - 2 && TableSame(old(fs.disk), fs.disk, fs.table))
    ensures r.Added? ==> dno in fs.inodes && fs.inodes == old(fs.inodes)[dno := fs.inodes[dno]] && fs.inodes[dno].size == old(fs.inodes[dno].size) + 24
    ensures r.Added? ==> exists tab {:trigger old(fs.inodes)[dno].sectors[12 := tab]} ::
              0 <= tab < 0x1_0000_0000 && fs.inodes[dno].sectors == old(fs.inodes)[dno].sectors[12 := tab]
    ensures r.Added? ==> (FsOk(fs.disk, fs.inodes, fs.dirs, fs.Used(), fs.pad) <==> old(Room(fs.disk, fs.inodes[dno])))
    ensures r.Added? ==> (AddedTo(old(fs.disk), old(fs.inodes), fs.disk, fs.inodes, dno, e) <==> old(Room(fs.disk, fs.inodes[dno])))
    ensures r.Added? ==> Dict(RowsOf(fs.disk, fs.inodes[dno])) == Dict(Cut(old(RowsOf(fs.disk, fs.inodes[dno]))))[e.name := e]
    ensures r.Added? && !Dots(e.name) ==> Spilt(fs.disk, fs.inodes[dno], e.ino)
  {
    ghost var d, inodes, used := fs.disk, fs.inodes, fs.Used();
    ghost var tab, lba;
    r, tab, lba := PutBehindTable(fs, dno, e);
    if r.Added? {
      Overflow(d, inodes, fs.dirs, used, fs.pad, fs.disk, fs.inodes, fs.Used(), dno, tab, lba, e);
      assert fs.inodes[dno].sectors == inodes[dno].sectors[12 := tab];
    }
  }

  /** `sync_dir_entry`: the entry is added, in a free row, in a new direct block or behind a
      new table; a full block bitmap halts.  The file system stays in order, and the map
      gains just the entry, exactly if there was room. */
  method SyncDirEntry(fs: Fs, dno: nat, e: Entry) returns (r: Insert)
    requires fs.Valid() && dno in fs.dirs && Insertable(RowsOf(fs.disk, fs.inodes[dno]), e)
    modifies fs`disk, fs`bytes, fs`inodes
    ensures fs.Shaped() && (r.NoBlock? ==> Full(fs.Bits()))
    ensures r.Added? ==> dno in fs.inodes && fs.inodes == old(fs.inodes)[dno := fs.inodes[dno]] && Fits(NodeOf(dno, fs.inodes[dno]))
    ensures r.NoBlock? <==> old(fs.Free()) < old(EntryNeed(fs.disk, fs.inodes[dno].sectors, 0))
    ensures r.Added? ==> fs.Free() == old(fs.Free()) - old(EntryNeed(fs.disk, fs.inodes[dno].sectors, 0)) && TableSame(old(fs.disk), fs.disk, fs.table)
    ensures r.Added? && !Dots(e.name) ==> Landed(old(fs.disk), old(fs.inodes[dno]), fs.disk, fs.inodes[dno], e.ino)
    ensures r.Added? ==> (fs.Valid() <==> old(Room(fs.disk, fs.inodes[dno])))
    ensures r.Added? ==> (AddedTo(old(fs.disk), old(fs.inodes), fs.disk, fs.inodes, dno, e) <==> old(Room(fs.disk, fs.inodes[dno])))
    ensures r.Added? && !old(Room(fs.disk, fs.inodes[dno])) ==>
              Dict(RowsOf(fs.disk, fs.inodes[dno])) == Dict(Cut(old(RowsOf(fs.disk, fs.inodes[dno]))))[e.name := e]
  {
    var f := fs.inodes[dno];
    assert OkAt(fs.disk, fs.inodes, fs.dirs, dno);
    assert f.size % 24 == 0;                                      // the ASSERT at line 132
    var blocks := CopyDirect(f.sectors, 0, 12);
    var b, idx := FindRoom(fs.disk, blocks);
    EntryNeedSame(fs.disk, blocks, f.sectors, 0);
    if b == 12 {
      ghost var s := Slots(fs.disk, f.sectors);
      assert forall c {:trigger s[c]} :: 0 <= c < 12 ==> s[c] == blocks[c];
      AllFull(fs.disk, s);
      r := Spill(fs, dno, e);
    } else {
      HasRoom(fs.disk, f, b, idx);
      if blocks[b] == 0 {
        r := PutInNewBlock(fs, dno, b, e);
        if r.Added? { fs.InodeFits(dno); }
      } else {
        PutInBlock(fs, dno, b, idx, e);
        fs.InodeFits(dno);
        r := Added;
      }
    }
  }

  // ----- removing an entry ------------------------------------------------------------------------------

  datatype Delete = NoEntry | Hangs | Deleted

  /** The entry `name` left directory `dno`, and no other inode changed. */
  ghost predicate RemovedFrom(d: Disk, inodes: map<nat, Inode>, d': Disk, jnodes: map<nat, Inode>, dno: nat, name: Name) {
    && dno in inodes && dno in jnodes && |inodes[dno].sectors| == 13 && |jnodes[dno].sectors| == 13
    && OthersSame(d, inodes, d', jnodes, dno) && jnodes[dno].size + 24 == inodes[dno].size
    && Dict(RowsOf(d', jnodes[dno])) == Dict(RowsOf(d, inodes[dno])) - {name}
  }

  /** What a removal does to the directory itself. */
  ghost predicate Removed(d: Disk, f: Inode, used: set<nat>, d': Disk, f': Inode, used': set<nat>, name: Name)
    requires |f.sectors| == 13 && |f'.sectors| == 13
  {
    var s, t := Slots(d, f.sectors), Slots(d', f'.sectors);
    && Replaces(s, t, used, used') && OnlyWithin(d, d', t) && f'.size + 24 == f.size
    && DirOk(d', t, f'.size) && Dict(AllRows(d', t)) == Dict(AllRows(d, s)) - {name}
  }

  lemma RemovedOut(d: Disk, inodes: map<nat, Inode>, dirs: set<nat>, used: set<nat>, pad: set<nat>, dno: nat, d': Disk, f': Inode, used': set<nat>, name: Name)
    requires FsOk(d, inodes, dirs, used, pad) && dno in dirs && dno in inodes && |f'.sectors| == 13
    requires Removed(d, inodes[dno], used, d', f', used', name)
    ensures FsOk(d', inodes[dno := f'], dirs, used', pad) && RemovedFrom(d, inodes, d', inodes[dno := f'], dno, name)
  {
    ReplacedKeepsOthers(d, inodes, dirs, used, pad, d', dno, f', Slots(d', f'.sectors), used', dirs);
  }

  lemma ClearDone(d: Disk, f: Inode, used: set<nat>, b: nat, j: nat, ino: nat, d': Disk)
    requires |f.sectors| == 13 && DirOk(d, Slots(d, f.sectors), f.size) && b < 140 && j < 21 && Slots(d, f.sectors)[b] != 0
    requires Grown(Slots(d, f.sectors), Slots(d, f.sectors), used, used)
    requires Target(RowAt(SectorAt(d, Slots(d, f.sectors)[b]), j), ino) && (b == 0 || Ordinary(SectorAt(d, Slots(d, f.sectors)[b]), 21) > 1)
    requires d' == d[Slots(d, f.sectors)[b] := PutRow(SectorAt(d, Slots(d, f.sectors)[b]), j, FreeEntry)]
    ensures f.size >= 24 && Removed(d, f, used, d', Inode(f.size - 24, f.sectors), used, RowAt(SectorAt(d, Slots(d, f.sectors)[b]), j).name)
  {
    var s := Slots(d, f.sectors);
    DeleteInPlace(d, s, f.size, b, j, ino);
    StaysWithin(d, d, s, f.sectors, b, SectorAt(d', s[b]));
    GrownReplaces(s, s, used, used);
  }

  lemma DropDone(d: Disk, f: Inode, used: set<nat>, b: nat, j: nat, ino: nat)
    requires |f.sectors| == 13 && DirOk(d, Slots(d, f.sectors), f.size) && 1 <= b < 12 && j < 21 && f.sectors[b] != 0
    requires Target(RowAt(SectorAt(d, f.sectors[b]), j), ino) && Ordinary(SectorAt(d, f.sectors[b]), 21) == 1
    requires OwnedBy(Slots(d, f.sectors)) <= used
    ensures f.size >= 24
    ensures Removed(d, f, used, d, Inode(f.size - 24, f.sectors[b := 0]), used - {f.sectors[b]}, RowAt(SectorAt(d, f.sectors[b]), j).name)
  {
    var s := Slots(d, f.sectors);
    assert s[b] == f.sectors[b];
    DeleteBlock(d, s, f.size, b, j, ino);
    assert Slots(d, f.sectors[b := 0]) == s[b := 0];
    DistinctDrop(s, b);
    DroppedBlock(s, b, used);
  }

  /** Lines 318-358: the block of the target is given up.  For a block behind the table, the
      loop at line 334 never advances. */
  method GiveUpBlock(fs: Fs, dno: nat, b: nat, lba: nat, ghost j: nat, ghost ino: nat) returns (hangs: bool)
    requires fs.Valid() && dno in fs.dirs && 1 <= b < 140 && j < 21 && lba == Slots(fs.disk, fs.inodes[dno].sectors)[b] != 0
    requires Target(RowAt(SectorAt(fs.disk, lba), j), ino) && Ordinary(SectorAt(fs.disk, lba), 21) == 1
    modifies fs`bytes, fs`inodes
    ensures hangs <==> b >= 12
    ensures hangs ==> fs.Shaped() && fs.Used() == old(fs.Used()) - {lba} && fs.inodes == old(fs.inodes)
    ensures !hangs ==> fs.Valid() && RemovedFrom(fs.disk, old(fs.inodes), fs.disk, fs.inodes, dno, RowAt(SectorAt(fs.disk, lba), j).name)
  {
    var f := fs.inodes[dno];
    ghost var used := fs.Used();
    NotRootBlock(fs.disk, fs.inodes, fs.dirs, used, fs.pad, dno, b, fs.start, fs.Bits());
    OwnSlots(fs.disk, fs.inodes, fs.dirs, used, fs.pad, dno);
    fs.FreeBlock(lba);
    if b >= 12 { return true; }
    DropDone(fs.disk, f, used, b, j, ino);
    var after := Inode(f.size - 24, f.sectors[b := 0]);           // the ASSERT at line 368: size >= 24
    RemovedOut(fs.disk, fs.inodes, fs.dirs, used, fs.pad, dno, fs.disk, after, fs.Used(), RowAt(SectorAt(fs.disk, lba), j).name);
    fs.inodes := fs.inodes[dno := after];
    hangs := false;
  }

  /** Lines 362-364: the row of the target is emptied. */
  method ClearRow(fs: Fs, dno: nat, ghost b: nat, lba: nat, j: nat, ghost ino: nat)
    requires fs.Valid() && dno in fs.dirs && b < 140 && j < 21 && lba == Slots(fs.disk, fs.inodes[dno].sectors)[b] != 0
    requires Target(RowAt(SectorAt(fs.disk, lba), j), ino) && (b == 0 || Ordinary(SectorAt(fs.disk, lba), 21) > 1)
    modifies fs`disk, fs`inodes
    ensures fs.Valid() && RemovedFrom(old(fs.disk), old(fs.inodes), fs.disk, fs.inodes, dno, old(RowAt(SectorAt(fs.disk, lba), j).name))
    ensures TableSame(old(fs.disk), fs.disk, fs.table)
  {
    var f := fs.inodes[dno];
    OwnAbove(fs, dno, b);
    BlockOnly(fs.disk, lba, PutRow(SectorAt(fs.disk, lba), j, FreeEntry), fs.table);
    ghost var d, name := fs.disk, RowAt(SectorAt(fs.disk, lba), j).name;
    OwnSlots(d, fs.inodes, fs.dirs, fs.Used(), fs.pad, dno);
    fs.disk := fs.disk[lba := PutRow(SectorAt(fs.disk, lba), j, FreeEntry)];
    ClearDone(d, f, fs.Used(), b, j, ino, fs.disk);
    var after := Inode(f.size - 24, f.sectors);                   // the ASSERT at line 368: size >= 24
    RemovedOut(d, fs.inodes, fs.dirs, fs.Used(), fs.pad, dno, fs.disk, after, fs.Used(), name);
    fs.inodes := fs.inodes[dno := after];
  }

  /** Lines 314-369. */
  method RemoveTarget(fs: Fs, dno: nat, b: nat, lba: nat, j: nat, first: bool, cnt: nat, ghost ino: nat) returns (hangs: bool)
    requires fs.Valid() && dno in fs.dirs && b < 140 && j < 21 && lba == Slots(fs.disk, fs.inodes[dno].sectors)[b] != 0
    requires Target(RowAt(SectorAt(fs.disk, lba), j), ino) && (first <==> b == 0) && cnt == Ordinary(SectorAt(fs.disk, lba), 21)
    modifies fs`disk, fs`bytes, fs`inodes
    ensures hangs <==> b >= 12 && cnt == 1
    ensures hangs ==> fs.Shaped() && fs.Used() == old(fs.Used()) - {lba} && fs.disk == old(fs.disk) && fs.inodes == old(fs.inodes)
    ensures !hangs ==> fs.Valid() && RemovedFrom(old(fs.disk), old(fs.inodes), fs.disk, fs.inodes, dno, old(RowAt(SectorAt(fs.disk, lba), j).name))
    ensures TableSame(old(fs.disk), fs.disk, fs.table)
  {
    OrdinaryOne(SectorAt(fs.disk, lba), 21, j);                   // the ASSERT at line 314: cnt >= 1
    if cnt == 1 && !first {
      hangs := GiveUpBlock(fs, dno, b, lba, j, ino);
    } else {
      ClearRow(fs, dno, b, lba, j, ino);
      hangs := false;
    }
  }

  /** The entry for `ino` is the only one in its block behind the table. */
  ghost predicate Stuck(d: Disk, s: seq<nat>, ino: nat) {
    |s| == 141 && exists b, j {:trigger StuckAt(d, s, ino, b, j)} :: StuckAt(d, s, ino, b, j)
  }

  ghost predicate StuckAt(d: Disk, s: seq<nat>, ino: nat, b: int, j: int)
    requires |s| == 141
  {
    && 12 <= b < 140 && 0 <= j < 21 && s[b] != 0
    && Target(RowAt(SectorAt(d, s[b]), j), ino) && Ordinary(SectorAt(d, s[b]), 21) == 1
  }

  /** The first block with a target, its row and what the pass over it counted. */
  method FindTarget(disk: Disk, blocks: seq<nat>, ino: nat, ghost s: seq<nat>, ghost size: nat) returns (b: nat, j: nat, first: bool, cnt: nat)
    requires |s| == 141 && blocks == s[..140] && DirOk(disk, s, size)
    ensures b <= 140
    ensures b < 140 ==> s[b] != 0 && j < 21 && Target(RowAt(SectorAt(disk, s[b]), j), ino)
                        && (first <==> b == 0) && cnt == Ordinary(SectorAt(disk, s[b]), 21)
    ensures b == 140 ==> forall c {:trigger s[c]} :: 0 <= c < 140 && s[c] != 0 ==> NoTarget(SectorAt(disk, s[c]), ino, 21)
  {
    b, j, first, cnt := 0, 21, false, 0;
    while b < 140
      invariant 0 <= b <= 140
      invariant forall c {:trigger s[c]} :: 0 <= c < b && s[c] != 0 ==> NoTarget(SectorAt(disk, s[c]), ino, 21)
    {
      assert blocks[b] == s[b];
      if blocks[b] != 0 {
        BlockOneTarget(disk, s, b, ino);
        first, cnt, j := ScanBlock(SectorAt(disk, blocks[b]), ino);
        if j < 21 {
          DotsInFirst(disk, s, size, b);
          return;
        }
      }
      b := b + 1;
    }
  }

  /** Lines 248-369: everything but the sync of the inode. */
  method DropEntry(fs: Fs, dno: nat, ino: nat) returns (r: Delete, ghost name: Name)
    requires fs.Valid() && dno in fs.dirs
    modifies fs`disk, fs`bytes, fs`inodes
    ensures r.Deleted? ==> name in old(Dict(RowsOf(fs.disk, fs.inodes[dno]))) && Target(old(Dict(RowsOf(fs.disk, fs.inodes[dno])))[name], ino)
    ensures r.Deleted? ==> fs.Valid() && RemovedFrom(old(fs.disk), old(fs.inodes), fs.disk, fs.inodes, dno, name)
    ensures r.NoEntry? ==> fs.disk == old(fs.disk) && fs.bytes == old(fs.bytes) && fs.inodes == old(fs.inodes)
    ensures r.NoEntry? ==> forall n {:trigger Dict(RowsOf(fs.disk, fs.inodes[dno]))[n]} :: n in Dict(RowsOf(fs.disk, fs.inodes[dno])) ==>
              !Target(Dict(RowsOf(fs.disk, fs.inodes[dno]))[n], ino)
    ensures r.Hangs? <==> old(Stuck(fs.disk, Slots(fs.disk, fs.inodes[dno].sectors), ino))
    ensures TableSame(old(fs.disk), fs.disk, fs.table)
  {
    var f := fs.inodes[dno];
    ghost var d, s := fs.disk, Slots(fs.disk, f.sectors);
    assert OkAt(d, fs.inodes, fs.dirs, dno);
    name := [];
    var blocks := AllBlocks(fs.disk, f.sectors);
    var b, j, first, cnt := FindTarget(fs.disk, blocks, ino, s, f.size);
    if b == 140 {
      NothingToDelete(d, s, ino);
      return NoEntry, name;
    }
    var lba := blocks[b];
    name := RowAt(SectorAt(d, lba), j).name;
    TargetEntry(d, s, b, j, ino);
    var hangs := RemoveTarget(fs, dno, b, lba, j, first, cnt, ino);
    r := if hangs then Hangs else Deleted;
  }

  /** `delete_dir_entry`: the entry for `ino`, other than "." and "..", leaves the map, and the
      directory's inode is synced through a buffer of two sectors. */
  method DeleteDirEntry(fs: Fs, dno: nat, ino: nat, tail: Tail) returns (r: Delete, ghost name: Name)
    requires fs.Valid() && dno in fs.dirs
    modifies fs`disk, fs`bytes, fs`inodes
    ensures r.Deleted? ==> name in old(Dict(RowsOf(fs.disk, fs.inodes[dno]))) && Target(old(Dict(RowsOf(fs.disk, fs.inodes[dno])))[name], ino)
    ensures r.Deleted? ==> fs.Valid() && RemovedFrom(old(fs.disk), old(fs.inodes), fs.disk, fs.inodes, dno, name)
    ensures r.Deleted? && dno < 256 ==> Decode(Record(fs.disk, fs.table, dno)) == NodeOf(dno, fs.inodes[dno])
    ensures r.NoEntry? ==> fs.disk == old(fs.disk) && fs.bytes == old(fs.bytes) && fs.inodes == old(fs.inodes)
    ensures r.NoEntry? ==> forall n {:trigger Dict(RowsOf(fs.disk, fs.inodes[dno]))[n]} :: n in Dict(RowsOf(fs.disk, fs.inodes[dno])) ==>
              !Target(Dict(RowsOf(fs.disk, fs.inodes[dno]))[n], ino)
    ensures r.Hangs? <==> old(Stuck(fs.disk, Slots(fs.disk, fs.inodes[dno].sectors), ino))
    ensures r.Deleted? ==> RecordsBut(old(fs.disk), fs.disk, fs.table, SyncSlot(dno))
    ensures r.Deleted? && dno < 256 && old(Recorded(fs.disk, fs.table, fs.inodes)) ==> Recorded(fs.disk, fs.table, fs.inodes)
  {
    ghost var d, inodes := fs.disk, fs.inodes;
    r, name := DropEntry(fs, dno, ino);
    if r.Deleted? {
      ghost var mid := fs.disk;
      fs.InodeFits(dno);
      fs.SyncWide(dno, tail);
      RemovedSynced(d, inodes, mid, fs.inodes, fs.disk, dno, name);
      RecordsAfter(d, mid, fs.disk, fs.table, NodeOf(dno, fs.inodes[dno]));
      if dno < 256 && Recorded(d, fs.table, inodes) {
        NumbersBounded(fs);
        ChangeKeepsIn(d, inodes, mid, fs.inodes, fs.disk, fs.table, dno);
      }
    }
  }

  /** Every record but the i-th is the same. */
  ghost predicate RecordsBut(d: Disk, e: Disk, table: nat, i: nat) {
    forall j {:trigger Record(e, table, j)} :: 0 <= j < 4096 && j != i ==> Record(e, table, j) == Record(d, table, j)
  }

  lemma RecordsAfter(d: Disk, mid: Disk, e: Disk, table: nat, n: Node)
    requires |n.sectors| == 13 && TableSame(d, mid, table) && OnlyRecord(mid, e, table, SyncSlot(n.no), RecordBytes(n))
    ensures RecordsBut(d, e, table, SyncSlot(n.no))
  {
    forall j | 0 <= j < 4096 && j != SyncSlot(n.no) ensures Record(e, table, j) == Record(d, table, j) {
      OneRecord(mid, e, table, SyncSlot(n.no), RecordBytes(n), j);
      RecordStays(d, mid, table, j);
    }
  }

  lemma NumbersBounded(fs: Fs)
    requires fs.Valid()
    ensures forall f {:trigger f in fs.inodes} :: f in fs.inodes ==> f < 4096
  {
    InMarked(0, fs.IBits());
    forall f | f in fs.inodes ensures f < 4096 { assert f in fs.inodes.Keys; }
  }

  lemma ChangeKeepsIn(d: Disk, inodes: map<nat, Inode>, mid: Disk, jnodes: map<nat, Inode>, e: Disk, table: nat, n: nat)
    requires Recorded(d, table, inodes) && TableSame(d, mid, table) && n in jnodes && n < 256 && |jnodes[n].sectors| == 13
    requires jnodes.Keys == inodes.Keys && forall f {:trigger jnodes[f]} :: f in inodes && f != n ==> jnodes[f] == inodes[f]
    requires forall f {:trigger f in jnodes} :: f in jnodes ==> f < 4096
    requires OnlyRecord(mid, e, table, SyncSlot(n), RecordBytes(NodeOf(n, jnodes[n])))
    ensures Recorded(e, table, jnodes)
  {
    forall f | f in jnodes && f != n ensures f in inodes && jnodes[f] == inodes[f] && f < 4096 { assert f in jnodes.Keys; }
    ChangeKeeps(d, mid, e, table, inodes, jnodes, n);
  }

  lemma RemovedSynced(d: Disk, inodes: map<nat, Inode>, mid: Disk, jnodes: map<nat, Inode>, e: Disk, dno: nat, name: Name)
    requires RemovedFrom(d, inodes, mid, jnodes, dno, name) && AllSame(mid, e, jnodes)
    ensures RemovedFrom(d, inodes, e, jnodes, dno, name)
  {
    SyncedOthers(d, inodes, mid, jnodes, e, dno);
    RowsSame(mid, e, Slots(mid, jnodes[dno].sectors));
  }

  /** The target of a block is the entry of the map, and the only target there is. */
  lemma TargetEntry(d: Disk, s: seq<nat>, b: nat, j: nat, ino: nat)
    requires |s| == 141 && RowsOk(AllRows(d, s)) && b < 140 && j < 21 && s[b] != 0 && Target(RowAt(SectorAt(d, s[b]), j), ino)
    ensures RowAt(SectorAt(d, s[b]), j).name in Dict(AllRows(d, s))
    ensures Dict(AllRows(d, s))[RowAt(SectorAt(d, s[b]), j).name] == RowAt(SectorAt(d, s[b]), j)
    ensures Stuck(d, s, ino) <==> b >= 12 && Ordinary(SectorAt(d, s[b]), 21) == 1
  {
    RowInBlock(d, s, b, j);
    DictHas(AllRows(d, s), 21 * b + j);
    if b >= 12 && Ordinary(SectorAt(d, s[b]), 21) == 1 { assert StuckAt(d, s, ino, b, j); }
    forall c, i | StuckAt(d, s, ino, c, i) ensures c == b && i == j {
      RowInBlock(d, s, c, i);
      BlockOf(b, j);
      BlockOf(c, i);
    }
  }

  // ----- reading a directory -----------------------------------------------------------------------------

  /** `dir_is_empty`. */
  method DirIsEmpty(fs: Fs, dno: nat) returns (empty: bool)
    requires fs.Valid() && dno in fs.dirs
    ensures empty <==> Dict(RowsOf(fs.disk, fs.inodes[dno])).Keys == {[46], [46, 46]}
  {
    assert OkAt(fs.disk, fs.inodes, fs.dirs, dno);
    EmptyIsDots(fs.disk, Slots(fs.disk, fs.inodes[dno].sectors), fs.inodes[dno].size);
    empty := fs.inodes[dno].size == 24 * 2;
  }

  /** The loop at lines 461-466 of `dir_remove`, for an empty directory. */
  method CheckOneBlock(fs: Fs, dno: nat)
    requires fs.Valid() && dno in fs.dirs && Dict(RowsOf(fs.disk, fs.inodes[dno])).Keys == {[46], [46, 46]}
  {
    var sectors := fs.inodes[dno].sectors;
    ghost var s, size := Slots(fs.disk, sectors), fs.inodes[dno].size;
    assert OkAt(fs.disk, fs.inodes, fs.dirs, dno);
    EmptyIsDots(fs.disk, s, size);
    var block_idx := 1;
    while block_idx < 13
      invariant 1 <= block_idx <= 13
    {
      EmptyHasOneBlock(fs.disk, s, size, if block_idx == 12 then 140 else block_idx);
      assert sectors[block_idx] == 0;                             // the ASSERT at line 464
      block_idx := block_idx + 1;
    }
  }

  /** Lines 415-440: the rows of one block.  `cur` bytes of live rows were passed. */
  method ReadBlock(disk: Disk, lba: nat, pos: nat, cur: nat, ghost s: seq<nat>, ghost rows: Rows, ghost b: nat, ghost p: nat) returns (found: bool, idx: nat, next: nat)
    requires |s| == 141 && AreRows(disk, s, rows) && b < 140 && lba == s[b] != 0 && pos == 24 * p
    requires cur == 24 * Count(rows[..21 * b]) && cur <= pos
    ensures idx <= 21 && 21 * b + 21 <= 2940
    ensures found ==> idx < 21 && Live(rows[21 * b + idx]) && Count(rows[..21 * b + idx]) == p
    ensures found ==> RowAt(SectorAt(disk, lba), idx) == rows[21 * b + idx]
    ensures !found ==> next == 24 * Count(rows[..21 * b + 21]) && next <= pos
  {
    var buf := SectorAt(disk, lba);
    idx, next := 0, cur;
    while idx < 21
      invariant 0 <= idx <= 21
      invariant next == 24 * Count(rows[..21 * b + idx]) && next <= pos
    {
      BlockOf(b, idx);
      assert rows[21 * b + idx] == RowOf(disk, s, 21 * b + idx);
      CountNext(rows, 21 * b + idx);
      if RowAt(buf, idx).kind != 0 {
        if next < pos {
          next := next + 24;
        } else {
          assert next == pos;                                     // the ASSERT at line 434
          return true, idx, next;
        }
      }
      idx := idx + 1;
    }
    found := false;
  }

  /** The loop of `dir_read` over the first `cnt` blocks, when no row lies behind them. */
  method ReadBlocks(disk: Disk, blocks: seq<nat>, cnt: nat, size: nat, pos: nat, ghost s: seq<nat>) returns (r: Search)
    requires |s| == 141 && blocks == s[..140] && cnt <= 140 && size == 24 * Count(AllRows(disk, s)) && pos % 24 == 0
    requires Count(AllRows(disk, s)[..21 * cnt]) == Count(AllRows(disk, s))
    ensures r.Hit? <==> pos < size
    ensures r.Hit? ==> pos / 24 < Count(AllRows(disk, s)) && r.entry == LiveRows(AllRows(disk, s))[pos / 24]
  {
    ghost var rows, p := AllRows(disk, s), pos / 24;
    var cur, b := 0, 0;
    while b < cnt
      invariant 0 <= b <= cnt
      invariant cur == 24 * Count(rows[..21 * b]) && cur <= pos
    {
      if pos >= size { return Missing; }
      assert blocks[b] == s[b];
      if blocks[b] != 0 {
        var found, idx, next := ReadBlock(disk, blocks[b], pos, cur, s, rows, b, p);
        if found {
          LiveRowAt(rows, 21 * b + idx);
          return Hit(RowAt(SectorAt(disk, blocks[b]), idx));
        }
        cur := next;
      } else {
        CountAbsent(disk, s, b);
      }
      b := b + 1;
    }
    r := Missing;
  }

  /** `dir_read`: the first live row that lies `pos` bytes or more into the live rows, and
      the position after it. */
  method DirRead(fs: Fs, dno: nat, pos: nat) returns (r: Search, next: nat)
    requires fs.Valid() && dno in fs.dirs && pos % 24 == 0
    ensures r.Hit? <==> pos < fs.inodes[dno].size
    ensures r.Hit? ==> pos / 24 < Count(RowsOf(fs.disk, fs.inodes[dno])) && r.entry == LiveRows(RowsOf(fs.disk, fs.inodes[dno]))[pos / 24]
    ensures next == if r.Hit? then pos + 24 else pos
  {
    var f := fs.inodes[dno];
    ghost var s := Slots(fs.disk, f.sectors);
    assert OkAt(fs.disk, fs.inodes, fs.dirs, dno);
    var blocks := AllBlocks(fs.disk, f.sectors);
    var cnt := if f.sectors[12] != 0 then 140 else 12;
    AllCounted(fs.disk, f, cnt);
    r := ReadBlocks(fs.disk, blocks, cnt, f.size, pos, s);
    next := if r.Hit? then pos + 24 else pos;
  }

  /** Reading from position 0 until NULL gives every live row once, in order. */
  method ReadAll(fs: Fs, dno: nat) returns (all: seq<Entry>)
    requires fs.Valid() && dno in fs.dirs
    ensures all == LiveRows(RowsOf(fs.disk, fs.inodes[dno]))
  {
    assert OkAt(fs.disk, fs.inodes, fs.dirs, dno);
    ghost var rows, size := RowsOf(fs.disk, fs.inodes[dno]), fs.inodes[dno].size;
    var pos := 0;
    all := [];
    var e := Hit(FreeEntry);
    while e.Hit?
      invariant pos % 24 == 0 && pos <= size && |all| == pos / 24 && all == LiveRows(rows)[..|all|]
      invariant e.Missing? ==> pos >= size
      decreases size - pos, e.Hit?
    {
      e, pos := DirRead(fs, dno, pos);
      if e.Hit? { all := all + [e.entry]; }
    }
  }


  lemma DroppedBlock(slots: seq<nat>, b: nat, used: set<nat>)
    requires DistinctSlots(slots) && b < |slots| && slots[b] != 0 && OwnedBy(slots) <= used
    ensures OwnedBy(slots[b := 0]) == OwnedBy(slots) - {slots[b]}
    ensures used - {slots[b]} - OwnedBy(slots[b := 0]) == used - OwnedBy(slots)
    ensures OwnedBy(slots[b := 0]) <= used - {slots[b]}
  {
    var t := slots[b := 0];
    OwnedSlot(slots, b);
    forall x | x in OwnedBy(slots) && x != slots[b] ensures x in OwnedBy(t) {
      var i :| 0 <= i < |slots| && slots[i] == x;
      assert t[i] == x;
    }
    forall x | x in OwnedBy(t) ensures x in OwnedBy(slots) && x != slots[b] {
      var i :| 0 <= i < |t| && t[i] == x;
      assert t[i] == slots[i] && i != b;
      assert slots[i] != slots[b];
      OwnedSlot(slots, i);
    }
  }

  lemma NothingToDelete(d: Disk, slots: seq<nat>, ino: nat)
    requires |slots| == 141
    requires forall c {:trigger slots[c]} :: 0 <= c < 140 && slots[c] != 0 ==> NoTarget(SectorAt(d, slots[c]), ino, 21)
    ensures forall n {:trigger Dict(AllRows(d, slots))[n]} :: n in Dict(AllRows(d, slots)) ==> !Target(Dict(AllRows(d, slots))[n], ino)
  {
    var r := AllRows(d, slots);
    forall n | n in Dict(r) ensures !Target(Dict(r)[n], ino) {
      var k := DictFrom(r, n);
      assert r[k] == RowOf(d, slots, k);
      assert slots[k / 21] != 0;
    }
  }

  lemma CountNext(r: Rows, k: nat)
    requires k < 2940
    ensures Count(r[..k + 1]) == Count(r[..k]) + if Live(r[k]) then 1 else 0
  {
    assert r[..k + 1][..k] == r[..k];
  }

  /** The rows of a missing block are all free. */
  lemma CountAbsent(d: Disk, slots: seq<nat>, b: nat)
    requires |slots| == 141 && b < 140 && slots[b] == 0
    ensures Count(AllRows(d, slots)[..21 * b + 21]) == Count(AllRows(d, slots)[..21 * b])
  {
    var r, i := AllRows(d, slots), 0;
    while i < 21
      invariant 0 <= i <= 21 && Count(r[..21 * b + i]) == Count(r[..21 * b])
    {
      BlockOf(b, i);
      assert r[21 * b + i] == RowOf(d, slots, 21 * b + i);
      CountNext(r, 21 * b + i);
      i := i + 1;
    }
  }

  ghost predicate Absent(s: Sector, name: Name, n: nat)
    requires n <= 21
  {
    forall j {:trigger RowAt(s, j)} :: 0 <= j < n ==> RowAt(s, j).name != name
  }

  method SearchBlock(buf: Sector, name: Name) returns (idx: nat)
    ensures idx <= 21 && Absent(buf, name, idx) && (idx < 21 ==> RowAt(buf, idx).name == name)
  {
    idx := 0;
    while idx < 21
      invariant 0 <= idx <= 21 && Absent(buf, name, idx)
    {
      if RowAt(buf, idx).name == name { return; }
      idx := idx + 1;
    }
  }

  lemma FoundRow(d: Disk, slots: seq<nat>, b: nat, j: nat, name: Name)
    requires |slots| == 141 && b < 140 && j < 21 && slots[b] != 0 && RowsOk(AllRows(d, slots))
    requires RowAt(SectorAt(d, slots[b]), j).name == name
    ensures exists k: nat {:trigger Exists(slots, k)} :: Exists(slots, k) && AllRows(d, slots)[k].name == name
    ensures name != [] ==> name in Dict(AllRows(d, slots)) && Dict(AllRows(d, slots))[name] == RowAt(SectorAt(d, slots[b]), j)
  {
    BlockOf(b, j);
    var k := 21 * b + j;
    assert Exists(slots, k) && AllRows(d, slots)[k] == RowOf(d, slots, k) == RowAt(SectorAt(d, slots[b]), j);
    if name != [] { DictHas(AllRows(d, slots), k); }
  }

  lemma NotFound(d: Disk, slots: seq<nat>, name: Name)
    requires |slots| == 141 && RowsOk(AllRows(d, slots))
    requires forall b {:trigger slots[b]} :: 0 <= b < 140 && slots[b] != 0 ==> Absent(SectorAt(d, slots[b]), name, 21)
    ensures forall k: nat {:trigger Exists(slots, k)} :: Exists(slots, k) ==> AllRows(d, slots)[k].name != name
    ensures name !in Dict(AllRows(d, slots))
  {
    var r := AllRows(d, slots);
    forall k: nat | Exists(slots, k) ensures r[k].name != name {
      assert r[k] == RowOf(d, slots, k) == RowAt(SectorAt(d, slots[k / 21]), k % 21);
    }
    forall k: nat | k < 2940 && Live(r[k]) ensures r[k].name != name {
      assert r[k] == RowOf(d, slots, k);
      assert Exists(slots, k);
    }
    if name in Dict(r) {
      var k := DictFrom(r, name);
      assert false;
    }
  }

  lemma FreshSlot(s: seq<nat>, lba: nat, used: set<nat>)
    requires lba !in used && lba != 0 && OwnedBy(s) <= used
    ensures lba !in s
  {
  }

  /** A new direct block is one more slot. */
  lemma NewDirect(d: Disk, sectors: seq<nat>, b: nat, lba: nat, d': Disk)
    requires |sectors| == 13 && b < 12 && lba !in Slots(d, sectors) && SameButSector(d, d', lba)
    ensures Slots(d', sectors[b := lba]) == Slots(d, sectors)[b := lba]
  {
    var s, t := Slots(d, sectors), Slots(d', sectors[b := lba]);
    assert s[140] == sectors[12];
    forall i | 0 <= i < 141 ensures t[i] == s[b := lba][i] {}
  }

  /** A free row in a direct block, or a missing direct block, is room. */
  lemma HasRoom(d: Disk, f: Inode, b: nat, idx: nat)
    requires |f.sectors| == 13 && b < 12
    requires f.sectors[b] != 0 ==> idx < 21 && !Live(RowAt(SectorAt(d, f.sectors[b]), idx))
    ensures DirectRow(d, f) && Room(d, f)
  {
    var s := Slots(d, f.sectors);
    assert s[b] == f.sectors[b];
    if s[b] == 0 {
      MissingRow(d, s, b);
      assert !Live(RowsOf(d, f)[21 * b]);
    } else {
      RowInBlock(d, s, b, idx);
      assert !Live(RowsOf(d, f)[21 * b + idx]);
    }
  }

  /** The slots after a new table with one entry. */
  lemma TableSlots(d: Disk, sectors: seq<nat>, blocks: seq<nat>, tab: nat, lba: nat, e: Disk)
    requires |sectors| == 13 && |blocks| == 140 && SectorAt(e, tab) == Encode(blocks[12..]) && tab != 0 && lba < 0x1_0000_0000
    requires forall i {:trigger blocks[i]} :: 0 <= i < 140 ==> blocks[i] == if i < 12 then sectors[i] else if i == 12 then lba else 0
    ensures Slots(e, sectors[12 := tab]) == NewTableSlots(Slots(d, sectors), tab, lba)
  {
    var s, after := Slots(d, sectors), sectors[12 := tab];
    var ws := blocks[12..];
    var t := NewTableSlots(s, tab, lba);
    forall i | 0 <= i < 141 ensures Slots(e, after)[i] == t[i] {
      if 12 <= i < 140 {
        assert ws[i - 12] == blocks[i];
        TableRoundTrip(ws, i - 12);
      }
    }
  }

  /** The rows after a new table with one entry. */
  lemma OverflowRows(d: Disk, f: Inode, t: seq<nat>, tab: nat, lba: nat, used: set<nat>, e: Entry, d': Disk)
    requires |f.sectors| == 13 && OwnedBy(Slots(d, f.sectors)) <= used && tab !in used && lba !in used && tab != lba && lba != 0
    requires t == NewTableSlots(Slots(d, f.sectors), tab, lba) && GoodEntry(e)
    requires OnlyWithin(d, d', [tab, lba]) && SectorAt(d', lba) == PutRow(Blank(), 0, e)
    ensures AllRows(d', t) == Cut(RowsOf(d, f))[252 := e]
  {
    var s := Slots(d, f.sectors);
    var r: Rows := Cut(AllRows(d, s))[252 := e];
    forall k | 0 <= k < 2940 ensures r[k] == RowOf(d', t, k) {
      var b := k / 21;
      if b < 12 {
        assert k < 252 && AllRows(d, s)[k] == RowOf(d, s, k) && t[b] == s[b];
        if s[b] != 0 { OwnedSlot(s, b); assert s[b] !in OwnedBy([tab, lba]); }
      } else if b == 12 {
        assert 252 <= k < 273 && k % 21 == k - 252;
        PutRowAt(Blank(), 0, e, k % 21);
        BlankRow(k % 21);
      } else {
        assert t[b] == 0;
      }
    }
    RowsUnique(d', t, r);
  }

  lemma OverflowDone(d: Disk, f: Inode, blocks: seq<nat>, tab: nat, lba: nat, used: set<nat>, e: Entry, d': Disk)
    requires |f.sectors| == 13 && OwnedBy(Slots(d, f.sectors)) <= used && |blocks| == 140 && GoodEntry(e)
    requires tab !in used && lba !in used && tab != lba && lba != 0 && tab != 0 && lba < 0x1_0000_0000
    requires forall i {:trigger blocks[i]} :: 0 <= i < 140 ==> blocks[i] == if i < 12 then f.sectors[i] else if i == 12 then lba else 0
    requires d' == d[tab := Encode(blocks[12..])][lba := PutRow(Blank(), 0, e)]
    ensures Overflowed(d, f, used, d', Inode(f.size + 24, f.sectors[12 := tab]), used + {tab, lba}, tab, lba, e)
  {
    TableSlots(d, f.sectors, blocks, tab, lba, d');
    var two := [tab, lba];
    OwnedSlot(two, 0);
    OwnedSlot(two, 1);
    OverflowRows(d, f, NewTableSlots(Slots(d, f.sectors), tab, lba), tab, lba, used, e, d');
  }

  /** Without a table, an overflow is an ordinary insertion. */
  lemma FirstOverflow(d: Disk, inodes: map<nat, Inode>, dirs: set<nat>, used: set<nat>, pad: set<nat>, d': Disk, f': Inode, used': set<nat>, dno: nat, tab: nat, lba: nat, e: Entry)
    requires FsOk(d, inodes, dirs, used, pad) && dno in dirs && dno in inodes && inodes[dno].sectors[12] == 0
    requires Overflowed(d, inodes[dno], used, d', f', used', tab, lba, e) && Insertable(RowsOf(d, inodes[dno]), e)
    ensures FsOk(d', inodes[dno := f'], dirs, used', pad) && AddedTo(d, inodes, d', inodes[dno := f'], dno, e)
  {
    var f := inodes[dno];
    var s, t := Slots(d, f.sectors), Slots(d', f'.sectors);
    OwnSlots(d, inodes, dirs, used, pad, dno);
    NoSpill(d, f);
    assert Cut(RowsOf(d, f)) == RowsOf(d, f);
    GrowOne(s, s, used, used, 12, lba);
    var s1: seq<nat> := s[12 := lba];
    GrowOne(s, s1, used, used + {lba}, 140, tab);
    assert t == s1[140 := tab];
    assert used' == used + {lba} + {tab};
    assert !Live(RowsOf(d, f)[252]);
    InsertedOk(d, s, f.size, d', t, 252, e);
    TwoWithin(d, d', t, tab, lba);
    InsertedInto(d, inodes, dirs, used, pad, dno, d', f', used', e);
  }

  /** An entry that overflowed the direct blocks is alone behind the table. */
  lemma OverflowStuck(d: Disk, f: Inode, used: set<nat>, d': Disk, f': Inode, used': set<nat>, tab: nat, lba: nat, e: Entry)
    requires Overflowed(d, f, used, d', f', used', tab, lba, e) && Live(e) && !Dots(e.name)
    requires forall k {:trigger RowsOf(d, f)[k]} :: 0 <= k < 252 ==> Live(RowsOf(d, f)[k])
    ensures Spilt(d', f', e.ino)
  {
    var t := Slots(d', f'.sectors);
    assert t[12] == lba;
    forall k | 0 <= k < 252 ensures Live(RowsOf(d', f')[k]) { assert RowsOf(d', f')[k] == RowsOf(d, f)[k]; }
    RowInBlock(d', t, 12, 0);
    var s := SectorAt(d', lba);
    forall j | 1 <= j < 21 ensures !Live(RowAt(s, j)) { RowInBlock(d', t, 12, j); }
    OneOrdinary(s, 21);
    assert StuckAt(d', t, e.ino, 12, 0);
  }

  lemma {:induction false} OneOrdinary(s: Sector, n: nat)
    requires 1 <= n <= 21 && Live(RowAt(s, 0)) && !Dots(RowAt(s, 0).name)
    requires forall j {:trigger RowAt(s, j)} :: 1 <= j < 21 ==> !Live(RowAt(s, j))
    ensures Ordinary(s, n) == 1
  {
    if n > 1 { OneOrdinary(s, n - 1); }
  }

  lemma TwoWithin(d: Disk, d': Disk, t: seq<nat>, tab: nat, lba: nat)
    requires |t| == 141 && OnlyWithin(d, d', [tab, lba]) && t[140] == tab != 0 && t[12] == lba != 0
    ensures OnlyWithin(d, d', t)
  {
    OwnedSlot(t, 140);
    OwnedSlot(t, 12);
  }

  /** Without a table there are no rows from 252 on. */
  lemma NoSpill(d: Disk, f: Inode)
    requires |f.sectors| == 13 && f.sectors[12] == 0
    ensures forall k {:trigger RowsOf(d, f)[k]} :: 252 <= k < 2940 ==> RowsOf(d, f)[k] == FreeEntry
  {
    var s := Slots(d, f.sectors);
    forall k | 252 <= k < 2940 ensures RowsOf(d, f)[k] == FreeEntry {
      assert RowsOf(d, f)[k] == RowOf(d, s, k);
      assert 12 <= k / 21 < 140;
    }
  }

  /** With a table there is a live row from 252 on. */
  lemma Spilled(d: Disk, slots: seq<nat>, size: nat)
    requires DirOk(d, slots, size) && slots[140] != 0
    ensures LiveBehind(AllRows(d, slots))
  {
    var r := AllRows(d, slots);
    assert BlockLive(r, 12);
    var k :| 0 <= k < 2940 && InBlock(12, k) && Live(r[k]);
    assert 252 <= k;
  }

  /** With a table, an overflow loses its rows, and its blocks belong to nobody. */
  lemma LaterOverflow(d: Disk, inodes: map<nat, Inode>, dirs: set<nat>, used: set<nat>, pad: set<nat>, d': Disk, f': Inode, used': set<nat>, dno: nat, tab: nat, lba: nat, e: Entry)
    requires FsOk(d, inodes, dirs, used, pad) && dno in dirs && dno in inodes && inodes[dno].sectors[12] != 0
    requires Overflowed(d, inodes[dno], used, d', f', used', tab, lba, e) && Insertable(RowsOf(d, inodes[dno]), e)
    ensures !FsOk(d', inodes[dno := f'], dirs, used', pad) && !AddedTo(d, inodes, d', inodes[dno := f'], dno, e)
  {
    var f, jnodes := inodes[dno], inodes[dno := f'];
    var s := Slots(d, f.sectors);
    OwnSlots(d, inodes, dirs, used, pad, dno);
    Spilled(d, s, f.size);
    CutInsert(RowsOf(d, f), 252, e);
    if FsOk(d', jnodes, dirs, used', pad) {
      Leaked(d, inodes, used, pad, d', f', used', dno, tab, lba);
      assert false;
    }
  }

  /** The forgotten table is in use, but nobody owns it. */
  lemma Leaked(d: Disk, inodes: map<nat, Inode>, used: set<nat>, pad: set<nat>, d': Disk, f': Inode, used': set<nat>, dno: nat, tab: nat, lba: nat)
    requires Thirteen(inodes) && dno in inodes && |f'.sectors| == 13 && Conserved(OwnMap(d, inodes), used, pad) && inodes[dno].sectors[12] != 0
    requires tab !in used && lba !in used && OnlyWithin(d, d', [tab, lba]) && used' == used + {tab, lba}
    requires Slots(d', f'.sectors) == NewTableSlots(Slots(d, inodes[dno].sectors), tab, lba)
    ensures !Conserved(OwnMap(d', inodes[dno := f']), used', pad)
  {
    var own, own' := OwnMap(d, inodes), OwnMap(d', inodes[dno := f']);
    var s := own[dno];
    var x := s[140];
    assert x == inodes[dno].sectors[12];
    OwnedSlot(s, 140);
    assert x in Owned(own) && x in used && x !in pad;
    forall g | g in own' ensures x !in OwnedBy(own'[g]) {
      if g == dno {
        forall i | 0 <= i < 141 ensures own'[dno][i] != x { assert i < 12 ==> own'[dno][i] == s[i]; }
      } else {
        OwnedInUse(own, used, pad, g);
        UsedElsewhere(d, d', inodes[g], tab, lba, used);
        ApartFrom(own, used, pad, dno, g);
      }
    }
  }

  lemma OwnedInUse(own: map<nat, seq<nat>>, used: set<nat>, pad: set<nat>, g: nat)
    requires Conserved(own, used, pad) && g in own
    ensures OwnedBy(own[g]) <= used
  {
    assert OwnedBy(own[g]) <= Owned(own);
  }

  lemma UsedElsewhere(d: Disk, d': Disk, f: Inode, tab: nat, lba: nat, used: set<nat>)
    requires |f.sectors| == 13 && OwnedBy(Slots(d, f.sectors)) <= used && tab !in used && lba !in used && OnlyWithin(d, d', [tab, lba])
    ensures SameFile(d, d', f)
  {
    OtherFileSame(d, d', [tab, lba], f);
  }

  /** What an overflow means for a directory whose direct rows are all live. */
  lemma Overflow(d: Disk, inodes: map<nat, Inode>, dirs: set<nat>, used: set<nat>, pad: set<nat>, d': Disk, jnodes: map<nat, Inode>, used': set<nat>, dno: nat, tab: nat, lba: nat, e: Entry)
    requires FsOk(d, inodes, dirs, used, pad) && dno in dirs && dno in inodes && dno in jnodes && jnodes == inodes[dno := jnodes[dno]]
    requires Overflowed(d, inodes[dno], used, d', jnodes[dno], used', tab, lba, e) && Insertable(RowsOf(d, inodes[dno]), e)
    requires forall k {:trigger RowsOf(d, inodes[dno])[k]} :: 0 <= k < 252 ==> Live(RowsOf(d, inodes[dno])[k])
    ensures FsOk(d', jnodes, dirs, used', pad) <==> Room(d, inodes[dno])
    ensures AddedTo(d, inodes, d', jnodes, dno, e) <==> Room(d, inodes[dno])
    ensures Dict(RowsOf(d', jnodes[dno])) == Dict(Cut(RowsOf(d, inodes[dno])))[e.name := e]
    ensures !Dots(e.name) ==> Spilt(d', jnodes[dno], e.ino)
  {
    OwnSlots(d, inodes, dirs, used, pad, dno);
    if !Dots(e.name) { OverflowStuck(d, inodes[dno], used, d', jnodes[dno], used', tab, lba, e); }
    CutInsert(RowsOf(d, inodes[dno]), 252, e);
    if inodes[dno].sectors[12] == 0 {
      FirstOverflow(d, inodes, dirs, used, pad, d', jnodes[dno], used', dno, tab, lba, e);
    } else {
      LaterOverflow(d, inodes, dirs, used, pad, d', jnodes[dno], used', dno, tab, lba, e);
    }
  }

  lemma {:induction false} CountFreeTail(r: seq<Entry>, n: nat)
    requires n <= |r| && forall k {:trigger r[k]} :: n <= k < |r| ==> !Live(r[k])
    ensures Count(r[..n]) == Count(r)
  {
    if n == |r| {
      assert r[..n] == r;
    } else {
      var m := |r| - 1;
      assert r[..m][..n] == r[..n];
      assert forall k {:trigger r[..m][k]} :: 0 <= k < m ==> r[..m][k] == r[k];
      CountFreeTail(r[..m], n);
    }
  }

  /** No row lies behind the blocks that `dir_read` looks at. */
  lemma AllCounted(d: Disk, f: Inode, cnt: nat)
    requires |f.sectors| == 13 && cnt == if f.sectors[12] != 0 then 140 else 12
    ensures Count(RowsOf(d, f)[..21 * cnt]) == Count(RowsOf(d, f))
  {
    if f.sectors[12] == 0 { NoSpill(d, f); }
    CountFreeTail(RowsOf(d, f), 21 * cnt);
  }

  /** A block of a directory other than its first is not the root's first block. */
  lemma NotRootBlock(d: Disk, inodes: map<nat, Inode>, dirs: set<nat>, used: set<nat>, pad: set<nat>, dno: nat, b: nat, start: nat, bits: seq<bool>)
    requires FsOk(d, inodes, dirs, used, pad) && 0 in inodes && dno in inodes && inodes[0].sectors[0] == start && start != 0
    requires 1 <= b < 141 && Slots(d, inodes[dno].sectors)[b] != 0 && used == Marked(start, bits)
    ensures start < Slots(d, inodes[dno].sectors)[b] && Slots(d, inodes[dno].sectors)[b] in used
  {
    var s := Slots(d, inodes[dno].sectors);
    OwnSlots(d, inodes, dirs, used, pad, dno);
    OwnedSlot(s, b);
    InMarked(start, bits);
    if dno == 0 {
      assert s[0] == start;
      assert s[0] != s[b];
    } else {
      RootApart(d, inodes, dirs, used, pad, dno, start);
    }
  }
}
