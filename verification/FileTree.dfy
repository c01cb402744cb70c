/** The directory tree: `file_create`, `sys_mkdir`, `sys_unlink` and `sys_rmdir` on top of the
    directory entries, the inodes and the two bitmaps (fs/file.c, fs/fs.c, fs/dir.c).

    Whatever the order of calls, every inode but the root has exactly one entry, every entry
    names an inode, and every inode's record is on the disk, where the next call finds it.
    The limits of that are the numbers from 256 on, directories that overflow twice and a
    buffer that is overwritten from behind; each is exact. */
module FileTree {
  import opened Bitmap
  import opened Files
  import opened Directory
  import opened InodeTable
  import opened Records
  import opened FileSystem
  import opened DirectoryOps

  type Tables = map<nat, map<Name, Entry>>

  /** The entries of every directory. */
  ghost function Names(d: Disk, inodes: map<nat, Inode>, dirs: set<nat>): (t: Tables)
    requires dirs <= inodes.Keys && Thirteen(inodes)
  {
    map g | g in dirs :: Dict(RowsOf(d, inodes[g]))
  }

  /** Entry n of directory g, other than "." and "..", is for inode i. */
  predicate Link(t: Tables, g: nat, n: Name, i: nat) {
    g in t && n in t[g] && !Dots(n) && t[g][n].ino == i
  }

  ghost predicate Linked(t: Tables, i: nat) { exists g, n {:trigger Link(t, g, n, i)} :: Link(t, g, n, i) }

  /** Every entry is for an inode other than the root and tells its kind; no inode has two
      entries; every inode but the root has one. */
  ghost predicate Tree(t: Tables, nodes: set<nat>, dirs: set<nat>) {
    && t.Keys == dirs
    && (forall g, n {:trigger t[g][n]} :: g in t && n in t[g] && !Dots(n) ==>
          t[g][n].ino in nodes && t[g][n].ino != 0 && (t[g][n].kind == 2 <==> t[g][n].ino in dirs))
    && (forall g, n, h, m, i {:trigger Link(t, g, n, i), Link(t, h, m, i)} :: Link(t, g, n, i) && Link(t, h, m, i) ==> g == h && n == m)
    && (forall i {:trigger Linked(t, i)} :: i in nodes && i != 0 ==> Linked(t, i))
  }

  // ----- what the calls do to the tree ---------------------------------------------------------------

  /** A new inode with a new entry. */
  lemma TreeAdd(t: Tables, nodes: set<nat>, dirs: set<nat>, g: nat, e: Entry)
    requires Tree(t, nodes, dirs) && g in t && e.name !in t[g] && !Dots(e.name) && e.ino !in nodes && e.ino != 0 && e.kind != 2 && dirs <= nodes
    ensures Tree(t[g := t[g][e.name := e]], nodes + {e.ino}, dirs)
  {
    var u := t[g := t[g][e.name := e]];
    forall h, m, i | Link(u, h, m, i) ensures (h == g && m == e.name && i == e.ino) || (Link(t, h, m, i) && i != e.ino) {}
    AddedLinked(t, nodes, g, e, u);
  }

  lemma AddedLinked(t: Tables, nodes: set<nat>, g: nat, e: Entry, u: Tables)
    requires g in t && e.name !in t[g] && !Dots(e.name) && g in u && u[g] == t[g][e.name := e]
    requires forall h {:trigger u[h]} {:trigger t[h]} :: h in t && h != g ==> h in u && u[h] == t[h]
    requires forall i {:trigger Linked(t, i)} :: i in nodes && i != 0 ==> Linked(t, i)
    ensures forall i {:trigger Linked(u, i)} :: i in nodes + {e.ino} && i != 0 ==> Linked(u, i)
  {
    assert Link(u, g, e.name, e.ino);
    forall i | i in nodes && i != 0 ensures Linked(u, i) {
      assert Linked(t, i);
      var h, m :| Link(t, h, m, i);
      assert Link(u, h, m, i);
    }
  }

  /** A new directory with a new entry; it holds "." and ".." only. */
  lemma TreeAddDir(t: Tables, nodes: set<nat>, dirs: set<nat>, g: nat, e: Entry, dots: map<Name, Entry>)
    requires Tree(t, nodes, dirs) && g in t && e.name !in t[g] && !Dots(e.name) && e.ino !in nodes && e.ino != 0 && e.kind == 2 && dirs <= nodes
    requires forall n {:trigger Dots(n)} :: n in dots ==> Dots(n)
    ensures Tree(t[e.ino := dots][g := t[g][e.name := e]], nodes + {e.ino}, dirs + {e.ino})
  {
    var u := t[e.ino := dots][g := t[g][e.name := e]];
    forall h, m, i | Link(u, h, m, i) ensures (h == g && m == e.name && i == e.ino) || (Link(t, h, m, i) && i != e.ino) {}
    AddedLinked(t, nodes, g, e, u);
  }

  /** An entry and its inode gone, and with it the directory it was, if it was an empty one. */
  lemma TreeRemove(t: Tables, nodes: set<nat>, dirs: set<nat>, g: nat, n: Name, i: nat)
    requires Tree(t, nodes, dirs) && Link(t, g, n, i) && i != g
    requires i in t ==> forall m {:trigger Dots(m)} :: m in t[i] ==> Dots(m)
    ensures Tree(t[g := t[g] - {n}] - {i}, nodes - {i}, dirs - {i})
  {
    var u := t[g := t[g] - {n}] - {i};
    forall h, m, j | Link(u, h, m, j) ensures Link(t, h, m, j) && j != i {
      assert Link(t, h, m, j);
    }
    forall h, m | h in u && m in u[h] && !Dots(m) ensures u[h][m] == t[h][m] && t[h][m].ino != i { assert Link(u, h, m, u[h][m].ino); }
    forall j | j in nodes - {i} && j != 0 ensures Linked(u, j) {
      assert Linked(t, j);
      var h, m :| Link(t, h, m, j);
      assert h != i;
      assert Link(u, h, m, j);
    }
    assert u.Keys == dirs - {i};
  }

  // ----- names on disk ------------------------------------------------------------------------------------

  lemma NamesSame(d: Disk, e: Disk, inodes: map<nat, Inode>, dirs: set<nat>)
    requires dirs <= inodes.Keys && Thirteen(inodes) && AllSame(d, e, inodes)
    ensures Names(e, inodes, dirs) == Names(d, inodes, dirs)
  {
    forall g | g in dirs ensures RowsOf(e, inodes[g]) == RowsOf(d, inodes[g]) {
      assert g in inodes.Keys;
      assert SameFile(d, e, inodes[g]);
      RowsSame(d, e, Slots(d, inodes[g].sectors));
    }
  }

  lemma NamesChanged(d: Disk, inodes: map<nat, Inode>, e: Disk, jnodes: map<nat, Inode>, dirs: set<nat>, g: nat)
    requires dirs <= inodes.Keys && Thirteen(inodes) && Thirteen(jnodes) && OthersSame(d, inodes, e, jnodes, g) && g in inodes
    ensures g in dirs ==> Names(e, jnodes, dirs) == Names(d, inodes, dirs)[g := Dict(RowsOf(e, jnodes[g]))]
    ensures g !in dirs ==> Names(e, jnodes, dirs) == Names(d, inodes, dirs)
  {
    var a, b := Names(d, inodes, dirs), Names(e, jnodes, dirs);
    forall h | h in dirs && h != g ensures b[h] == a[h] { RowsKept(d, inodes, e, jnodes, g, h); }
    OneChanged(a, b, g);
  }

  lemma OneChanged(a: Tables, b: Tables, g: nat)
    requires a.Keys == b.Keys && forall h {:trigger b[h]} :: h in a && h != g ==> b[h] == a[h]
    ensures g in a ==> b == a[g := b[g]]
    ensures g !in a ==> b == a
  {
  }

  lemma RowsKept(d: Disk, inodes: map<nat, Inode>, e: Disk, jnodes: map<nat, Inode>, g: nat, h: nat)
    requires Thirteen(inodes) && Thirteen(jnodes) && OthersSame(d, inodes, e, jnodes, g) && h in inodes && h != g
    ensures h in jnodes && RowsOf(e, jnodes[h]) == RowsOf(d, inodes[h])
  {
    assert h in jnodes.Keys;
    assert jnodes[h] == inodes[h] && SameFile(d, e, inodes[h]);
    RowsSame(d, e, Slots(d, inodes[h].sectors));
  }

  lemma NamesWithout(d: Disk, inodes: map<nat, Inode>, dirs: set<nat>, f: nat)
    requires dirs <= inodes.Keys && Thirteen(inodes)
    ensures Thirteen(inodes - {f}) && Names(d, inodes - {f}, dirs - {f}) == Names(d, inodes, dirs) - {f}
  {
    var a, b := Names(d, inodes - {f}, dirs - {f}), Names(d, inodes, dirs) - {f};
    forall g | g in b ensures g in a && a[g] == b[g] {
      assert g in inodes.Keys;
      assert (inodes - {f})[g] == inodes[g];
    }
  }

  lemma NamesMore(d: Disk, inodes: map<nat, Inode>, dirs: set<nat>, f: nat, node: Inode)
    requires dirs <= inodes.Keys && Thirteen(inodes) && f !in inodes && |node.sectors| == 13
    ensures Thirteen(inodes[f := node]) && Names(d, inodes[f := node], dirs) == Names(d, inodes, dirs)
  {
    var jnodes := inodes[f := node];
    forall g | g in dirs ensures RowsOf(d, jnodes[g]) == RowsOf(d, inodes[g]) {
      assert g in inodes.Keys && jnodes[g] == inodes[g];
    }
  }

  /** Every inode of `inodes` but those of x is the same afterwards. */
  ghost predicate Untouched(d: Disk, inodes: map<nat, Inode>, e: Disk, jnodes: map<nat, Inode>, x: set<nat>) {
    forall g {:trigger inodes[g]} :: g in inodes && g !in x ==> g in jnodes && jnodes[g] == inodes[g] && SameFile(d, e, inodes[g])
  }

  lemma UntouchedThen(d: Disk, inodes: map<nat, Inode>, m: Disk, knodes: map<nat, Inode>, e: Disk, jnodes: map<nat, Inode>, x: set<nat>)
    requires Untouched(d, inodes, m, knodes, x) && Untouched(m, knodes, e, jnodes, x)
    ensures Untouched(d, inodes, e, jnodes, x)
  {
    forall g | g in inodes && g !in x ensures g in jnodes && jnodes[g] == inodes[g] && SameFile(d, e, inodes[g]) {
      assert g in knodes && knodes[g] == inodes[g];
      SameTrans(d, m, e, inodes[g]);
    }
  }

  lemma OthersUntouchedBut(d: Disk, inodes: map<nat, Inode>, e: Disk, jnodes: map<nat, Inode>, f: nat, x: set<nat>)
    requires OthersSame(d, inodes, e, jnodes, f) && f in x
    ensures Untouched(d, inodes, e, jnodes, x)
  {
    forall g | g in inodes && g !in x ensures g in jnodes && jnodes[g] == inodes[g] && SameFile(d, e, inodes[g]) {
      assert g in jnodes.Keys;
      assert jnodes[g] == inodes[g];
    }
  }

  lemma MoreUntouched(d: Disk, inodes: map<nat, Inode>, f: nat, node: Inode, x: set<nat>)
    requires Thirteen(inodes) && f !in inodes
    ensures Untouched(d, inodes, d, inodes[f := node], x)
  {
  }

  // ----- the calls ------------------------------------------------------------------------------------------

  ghost function NamesOf(fs: Fs): (t: Tables)
    reads fs`disk, fs`bytes, fs`ibytes, fs`inodes, fs`dirs
    requires fs.Valid()
  {
    Names(fs.disk, fs.inodes, fs.dirs)
  }

  /** Bitmaps, files and directories are in order, and the directories are a tree. */
  ghost predicate Sound(fs: Fs)
    reads fs`disk, fs`bytes, fs`ibytes, fs`inodes, fs`dirs
  {
    fs.Valid() && Tree(NamesOf(fs), fs.inodes.Keys, fs.dirs)
  }

  /** So is the inode table: every inode can be opened again from its record. */
  ghost predicate InOrder(fs: Fs)
    reads fs`disk, fs`bytes, fs`ibytes, fs`inodes, fs`dirs
  {
    Sound(fs) && Recorded(fs.disk, fs.table, fs.inodes) && Small(fs.inodes)
  }

  lemma CanOpen(fs: Fs, no: nat)
    requires InOrder(fs) && no in fs.inodes
    ensures fs.Loads(no)
  {
    assert RecordedAt(fs.disk, fs.table, no, fs.inodes[no]);
    fs.RecordedLoads(no);
  }

  /** A name that may be added to a directory. */
  ghost predicate NewName(fs: Fs, parent: nat, name: Name)
    reads fs`disk, fs`bytes, fs`ibytes, fs`inodes, fs`dirs
    requires fs.Valid()
  {
    parent in fs.dirs && GoodName(name) && name != [] && !Dots(name) && name !in NamesOf(fs)[parent]
  }

  /** The entry is alone in its block behind the table of its directory. */
  ghost predicate StuckEntry(fs: Fs, parent: nat, name: Name)
    reads fs`disk, fs`bytes, fs`ibytes, fs`inodes, fs`dirs
    requires fs.Valid() && parent in fs.dirs && name in NamesOf(fs)[parent]
  {
    Stuck(fs.disk, Slots(fs.disk, fs.inodes[parent].sectors), NamesOf(fs)[parent][name].ino)
  }

  /** A number that no entry has may be entered under a new name. */
  lemma CanInsert(t: Tables, nodes: set<nat>, dirs: set<nat>, r: Rows, g: nat, e: Entry)
    requires Tree(t, nodes, dirs) && g in t && t[g] == Dict(r) && NamesUnique(r)
    requires Live(e) && GoodEntry(e) && e.name != [] && e.name !in t[g] && e.ino !in nodes
    ensures Insertable(r, e)
  {
    forall i | 0 <= i < |r| && Live(r[i]) && !Dots(r[i].name) ensures r[i].ino != e.ino { DictHas(r, i); }
  }

  datatype Made = NoInode | NoSpace | Made(ino: nat)

  /** The records of a new inode and, if its number fits, of the parent are on the disk. */
  ghost predicate NewRecords(d: Disk, table: nat, inodes: map<nat, Inode>, parent: nat, ino: nat) {
    && ino in inodes && RecordedAt(d, table, ino, inodes[ino])
    && (parent < 256 ==> parent in inodes && RecordedAt(d, table, parent, inodes[parent]))
  }

  lemma FirstRecord(d: Disk, e: Disk, table: nat, n: nat, f: Inode)
    requires n < 256 && |f.sectors| == 13 && OnlyRecord(d, e, table, SyncSlot(n), RecordBytes(NodeOf(n, f)))
    ensures RecordedAt(e, table, n, f)
  {
    OneRecord(d, e, table, SyncSlot(n), RecordBytes(NodeOf(n, f)), n);
  }

  lemma SecondRecord(d: Disk, e: Disk, table: nat, n: nat, f: Inode, p: nat, g: Inode)
    requires n < 256 && p < 256 && n != p && |f.sectors| == 13 && OnlyRecord(d, e, table, SyncSlot(n), RecordBytes(NodeOf(n, f)))
    requires RecordedAt(d, table, p, g)
    ensures RecordedAt(e, table, p, g)
  {
    OneRecord(d, e, table, SyncSlot(n), RecordBytes(NodeOf(n, f)), p);
  }

  /** The syncs that end `file_create` and `sys_mkdir`, through a buffer of two sectors. */
  method SyncBoth(fs: Fs, parent: nat, ino: nat, tail: Tail)
    requires fs.Shaped() && parent in fs.inodes && ino in fs.inodes && parent != ino
    requires Fits(NodeOf(parent, fs.inodes[parent])) && Fits(NodeOf(ino, fs.inodes[ino]))
    modifies fs`disk
    ensures fs.Shaped() && (fs.Valid() <==> old(fs.Valid())) && (fs.Valid() ==> AllSame(old(fs.disk), fs.disk, fs.inodes))
    ensures ino < 256 ==> NewRecords(fs.disk, fs.table, fs.inodes, parent, ino)
    ensures BothRecorded(old(fs.disk), fs.disk, fs.table, fs.inodes, parent, ino) && FarSame(old(fs.disk), fs.disk, fs.table)
  {
    ghost var d1 := fs.disk;
    fs.SyncWide(parent, tail);
    ghost var d2 := fs.disk;
    if parent < 256 { FirstRecord(d1, d2, fs.table, parent, fs.inodes[parent]); }
    fs.SyncWide(ino, tail);
    if ino < 256 {
      FirstRecord(d2, fs.disk, fs.table, ino, fs.inodes[ino]);
      if parent < 256 { SecondRecord(d2, fs.disk, fs.table, ino, fs.inodes[ino], parent, fs.inodes[parent]); }
    }
    assert fs.Valid() ==> AllSame(d1, fs.disk, fs.inodes) by {
      if fs.Valid() { SameThrough(d1, fs.inodes, d2, fs.disk); }
    }
    SyncTwo(d1, d2, fs.disk, fs.table, fs.inodes, parent, ino);
    FarSync(d1, d2, fs.table, SyncSlot(parent), RecordBytes(NodeOf(parent, fs.inodes[parent])));
    FarSync(d2, fs.disk, fs.table, SyncSlot(ino), RecordBytes(NodeOf(ino, fs.inodes[ino])));
    FarTrans(d1, d2, fs.disk, fs.table);
  }

  /** What the two syncs do to the inode table: with numbers below 256 it is right again; a
      number from 256 on spoils it. */
  ghost predicate BothRecorded(d: Disk, e: Disk, table: nat, inodes: map<nat, Inode>, parent: nat, ino: nat) {
    && (RecordedBut(d, table, inodes, {parent, ino}) && parent < 256 && ino < 256 ==> Recorded(e, table, inodes))
    && (ino >= 256 && SyncSlot(ino) in inodes && Fits(NodeOf(SyncSlot(ino), inodes[SyncSlot(ino)])) ==> !Recorded(e, table, inodes))
  }

  lemma SyncTwo(d1: Disk, d2: Disk, d3: Disk, table: nat, inodes: map<nat, Inode>, parent: nat, ino: nat)
    requires parent in inodes && ino in inodes && Fits(NodeOf(parent, inodes[parent])) && Fits(NodeOf(ino, inodes[ino]))
    requires OnlyRecord(d1, d2, table, SyncSlot(parent), RecordBytes(NodeOf(parent, inodes[parent])))
    requires OnlyRecord(d2, d3, table, SyncSlot(ino), RecordBytes(NodeOf(ino, inodes[ino])))
    ensures BothRecorded(d1, d3, table, inodes, parent, ino)
  {
    if RecordedBut(d1, table, inodes, {parent, ino}) && parent < 256 && ino < 256 {
      SyncKeeps(d1, d2, table, inodes, parent, {parent, ino}, {ino});
      SyncKeeps(d2, d3, table, inodes, ino, {ino}, {});
    }
    if ino >= 256 && SyncSlot(ino) in inodes && Fits(NodeOf(SyncSlot(ino), inodes[SyncSlot(ino)])) {
      SyncSpoils(d2, d3, table, inodes, ino);
    }
  }

  lemma AddedSynced(d: Disk, inodes: map<nat, Inode>, mid: Disk, jnodes: map<nat, Inode>, e: Disk, dno: nat, entry: Entry)
    requires AddedTo(d, inodes, mid, jnodes, dno, entry) && AllSame(mid, e, jnodes)
    ensures AddedTo(d, inodes, e, jnodes, dno, entry)
    ensures Spilt(mid, jnodes[dno], entry.ino) ==> Spilt(e, jnodes[dno], entry.ino)
  {
    SyncedOthers(d, inodes, mid, jnodes, e, dno);
    RowsSame(mid, e, Slots(mid, jnodes[dno].sectors));
    if Spilt(mid, jnodes[dno], entry.ino) {
      StuckSame(mid, e, Slots(mid, jnodes[dno].sectors), entry.ino);
      RoomSame(mid, e, jnodes[dno]);
    }
  }

  lemma StuckSame(d: Disk, e: Disk, s: seq<nat>, ino: nat)
    requires DiskSame(d, e, s) && Stuck(d, s, ino)
    ensures Stuck(e, s, ino)
  {
    var b, j :| StuckAt(d, s, ino, b, j);
    assert SectorAt(e, s[b]) == SectorAt(d, s[b]);
    assert StuckAt(e, s, ino, b, j);
  }

  /** The end of `file_create` and `sys_mkdir`: the entry goes into the parent, and the parent
      and the new inode to the disk. */
  method Enter(fs: Fs, parent: nat, e: Entry, tail: Tail) returns (ok: bool)
    requires fs.Valid() && parent in fs.dirs && e.ino in fs.inodes && e.ino != parent && Insertable(RowsOf(fs.disk, fs.inodes[parent]), e)
    modifies fs`disk, fs`bytes, fs`inodes
    ensures fs.Shaped() && (!ok ==> Full(fs.Bits()))
    ensures ok <==> old(fs.Free()) >= old(EntryNeed(fs.disk, fs.inodes[parent].sectors, 0))
    ensures ok ==> fs.Free() == old(fs.Free()) - old(EntryNeed(fs.disk, fs.inodes[parent].sectors, 0))
    ensures ok ==> parent in fs.inodes && fs.inodes == old(fs.inodes)[parent := fs.inodes[parent]]
    ensures ok ==> (fs.Valid() <==> old(Room(fs.disk, fs.inodes[parent])))
    ensures ok && old(Room(fs.disk, fs.inodes[parent])) ==> AddedTo(old(fs.disk), old(fs.inodes), fs.disk, fs.inodes, parent, e)
    ensures ok && e.ino < 256 ==> NewRecords(fs.disk, fs.table, fs.inodes, parent, e.ino)
    ensures ok && old(Room(fs.disk, fs.inodes[parent])) ==> EnteredRecords(old(fs.disk), old(fs.inodes), fs.disk, fs.inodes, fs.table, parent, e.ino)
    ensures ok && old(Room(fs.disk, fs.inodes[parent])) && !Dots(e.name) ==>
              Landed(old(fs.disk), old(fs.inodes[parent]), fs.disk, fs.inodes[parent], e.ino)
    ensures ok ==> FarSame(old(fs.disk), fs.disk, fs.table)
  {
    ghost var d, inodes, room := fs.disk, fs.inodes, Room(fs.disk, fs.inodes[parent]);
    fs.InodeFits(e.ino);
    NumbersBounded(fs);
    var got := SyncDirEntry(fs, parent, e);
    if got.NoBlock? { return false; }
    ghost var mid := fs.disk;
    FarTable(d, mid, fs.table);
    SyncBoth(fs, parent, e.ino, tail);
    FarTrans(d, mid, fs.disk, fs.table);
    if room {
      AddedSynced(d, inodes, mid, fs.inodes, fs.disk, parent, e);
      AllFit(fs);
      EnterRecords(d, inodes, mid, fs.disk, fs.inodes, fs.table, parent, e.ino);
    }
    ok := true;
  }

  lemma AllFit(fs: Fs)
    requires fs.Valid()
    ensures forall f {:trigger NodeOf(f, fs.inodes[f])} :: f in fs.inodes ==> Fits(NodeOf(f, fs.inodes[f]))
  {
    forall f | f in fs.inodes ensures Fits(NodeOf(f, fs.inodes[f])) { fs.InodeFits(f); }
  }

  /** If the records of all inodes but the new one were on the disk, then afterwards all are
      with numbers below 256, and not all are with a new number from 256 on whose last eight
      bits are in use. */
  ghost predicate EnteredRecords(d: Disk, inodes: map<nat, Inode>, e: Disk, jnodes: map<nat, Inode>, table: nat, parent: nat, ino: nat) {
    && (RecordedBut(d, table, inodes, {ino}) && parent < 256 && ino < 256 ==> Recorded(e, table, jnodes))
    && (ino >= 256 && SyncSlot(ino) in jnodes ==> !Recorded(e, table, jnodes))
  }

  lemma EnterRecords(d: Disk, inodes: map<nat, Inode>, mid: Disk, e: Disk, jnodes: map<nat, Inode>, table: nat, parent: nat, ino: nat)
    requires parent in inodes && parent in jnodes && jnodes == inodes[parent := jnodes[parent]] && TableSame(d, mid, table)
    requires forall f {:trigger f in inodes} :: f in inodes ==> f < 4096
    requires forall f {:trigger NodeOf(f, jnodes[f])} :: f in jnodes ==> Fits(NodeOf(f, jnodes[f]))
    requires BothRecorded(mid, e, table, jnodes, parent, ino)
    ensures EnteredRecords(d, inodes, e, jnodes, table, parent, ino)
  {
    if RecordedBut(d, table, inodes, {ino}) {
      assert RecordedBut(d, table, inodes, {parent, ino});
      forall f | f in jnodes && f !in {parent, ino} ensures f in inodes && jnodes[f] == inodes[f] && f < 4096 { assert f in inodes; }
      DataKeeps(d, mid, table, inodes, jnodes, {parent, ino});
    }
  }

  /** `dir_open`: the directory's inode, read from its record unless it is open, is the inode. */
  method OpenDir(fs: Fs, no: nat) returns (n: Node)
    requires fs.Valid() && no in fs.inodes && fs.Loads(no)
    ensures n == NodeOf(no, fs.inodes[no])
  {
    n := fs.Load(no);
  }

  /** `file_create`, from the inode number on: a new file under a new name; it halts exactly
      without a free number or with fewer free blocks than the entry takes.  The parent and
      the new inode are synced through a buffer of two sectors, and the new file is open. */
  method FileCreate(fs: Fs, parent: nat, name: Name, tail: Tail) returns (r: Made)
    requires Sound(fs) && NewName(fs, parent, name) && fs.Loads(parent)
    modifies fs`disk, fs`bytes, fs`ibytes, fs`inodes, fs`active
    ensures r.NoInode? <==> old(Full(fs.IBits()))
    ensures r.NoSpace? <==> !r.NoInode? && old(fs.Free()) < old(EntryNeed(fs.disk, fs.inodes[parent].sectors, 0))
    ensures r.Made? ==> r.ino !in old(fs.inodes) && fs.inodes.Keys == old(fs.inodes.Keys) + {r.ino} && fs.Shaped()
    ensures r.Made? ==> Below(old(fs.inodes), r.ino)
    ensures r.Made? ==> (fs.Valid() <==> old(Room(fs.disk, fs.inodes[parent])))
    ensures r.Made? ==> fs.Free() == old(fs.Free()) - old(EntryNeed(fs.disk, fs.inodes[parent].sectors, 0)) && fs.active == old(fs.active) + {r.ino}
    ensures r.Made? && old(Room(fs.disk, fs.inodes[parent])) ==>
              && Sound(fs) && fs.inodes[r.ino] == NewInode() && Untouched(old(fs.disk), old(fs.inodes), fs.disk, fs.inodes, {parent})
              && NamesOf(fs) == old(NamesOf(fs))[parent := old(NamesOf(fs))[parent][name := Entry(name, r.ino, 1)]]
              && Landed(old(fs.disk), old(fs.inodes[parent]), fs.disk, fs.inodes[parent], r.ino)
              && EnteredRecords(old(fs.disk), old(fs.inodes)[r.ino := NewInode()], fs.disk, fs.inodes, fs.table, parent, r.ino)
    ensures r.Made? && r.ino < 256 ==> NewRecords(fs.disk, fs.table, fs.inodes, parent, r.ino)
    ensures r.Made? ==> FarSame(old(fs.disk), fs.disk, fs.table)
  {
    var dir := OpenDir(fs, parent);
    r := CreateIn(fs, parent, name, tail);
  }

  /** The same once the parent is open. */
  method CreateIn(fs: Fs, parent: nat, name: Name, tail: Tail) returns (r: Made)
    requires Sound(fs) && NewName(fs, parent, name)
    modifies fs`disk, fs`bytes, fs`ibytes, fs`inodes, fs`active
    ensures r.NoInode? <==> old(Full(fs.IBits()))
    ensures r.NoSpace? <==> !r.NoInode? && old(fs.Free()) < old(EntryNeed(fs.disk, fs.inodes[parent].sectors, 0))
    ensures r.Made? ==> r.ino !in old(fs.inodes) && fs.inodes.Keys == old(fs.inodes.Keys) + {r.ino} && fs.Shaped()
    ensures r.Made? ==> Below(old(fs.inodes), r.ino)
    ensures r.Made? ==> (fs.Valid() <==> old(Room(fs.disk, fs.inodes[parent])))
    ensures r.Made? ==> fs.Free() == old(fs.Free()) - old(EntryNeed(fs.disk, fs.inodes[parent].sectors, 0)) && fs.active == old(fs.active) + {r.ino}
    ensures r.Made? && old(Room(fs.disk, fs.inodes[parent])) ==>
              && Sound(fs) && fs.inodes[r.ino] == NewInode() && Untouched(old(fs.disk), old(fs.inodes), fs.disk, fs.inodes, {parent})
              && NamesOf(fs) == old(NamesOf(fs))[parent := old(NamesOf(fs))[parent][name := Entry(name, r.ino, 1)]]
              && Landed(old(fs.disk), old(fs.inodes[parent]), fs.disk, fs.inodes[parent], r.ino)
              && EnteredRecords(old(fs.disk), old(fs.inodes)[r.ino := NewInode()], fs.disk, fs.inodes, fs.table, parent, r.ino)
    ensures r.Made? && r.ino < 256 ==> NewRecords(fs.disk, fs.table, fs.inodes, parent, r.ino)
    ensures r.Made? ==> FarSame(old(fs.disk), fs.disk, fs.table)
  {
    ghost var d0, inodes0, t := fs.disk, fs.inodes, NamesOf(fs);
    var ok, ino := NewFile(fs);
    if !ok { return NoInode; }
    FileReady(fs, inodes0, t, parent, Entry(name, ino, 1));
    var got := EnterFile(fs, parent, Entry(name, ino, 1), tail, inodes0, t);
    r := if got then Made(ino) else NoSpace;
  }

  /** A new inode, which is open from now on. */
  method NewFile(fs: Fs) returns (ok: bool, ino: nat)
    requires fs.Valid()
    modifies fs`ibytes, fs`inodes, fs`active
    ensures fs.Valid() && (ok <==> !old(Full(fs.IBits()))) && (!ok ==> unchanged(fs))
    ensures ok ==> ino < 4096 && ino !in old(fs.inodes) && fs.inodes == old(fs.inodes)[ino := NewInode()] && Below(old(fs.inodes), ino)
    ensures ok ==> fs.active == old(fs.active) + {ino}
  {
    ok, ino := fs.CreateInode();
    if ok { fs.active := fs.active + {ino}; }
  }

  /** The entry of a file whose inode is new. */
  method EnterFile(fs: Fs, parent: nat, e: Entry, tail: Tail, ghost inodes0: map<nat, Inode>, ghost t: Tables) returns (ok: bool)
    requires fs.Valid() && parent in fs.dirs && Insertable(RowsOf(fs.disk, fs.inodes[parent]), e) && Thirteen(inodes0) && fs.dirs <= inodes0.Keys
    requires e.ino !in inodes0 && e.ino != 0 && e.kind == 1 && !Dots(e.name) && fs.inodes == inodes0[e.ino := NewInode()]
    requires t == Names(fs.disk, inodes0, fs.dirs) && Tree(t, inodes0.Keys, fs.dirs) && e.name !in t[parent]
    modifies fs`disk, fs`bytes, fs`inodes
    ensures fs.Shaped()
    ensures ok <==> old(fs.Free()) >= old(EntryNeed(fs.disk, fs.inodes[parent].sectors, 0))
    ensures ok ==> fs.Free() == old(fs.Free()) - old(EntryNeed(fs.disk, fs.inodes[parent].sectors, 0)) && fs.inodes.Keys == inodes0.Keys + {e.ino}
    ensures ok ==> (fs.Valid() <==> old(Room(fs.disk, fs.inodes[parent])))
    ensures ok && e.ino < 256 ==> NewRecords(fs.disk, fs.table, fs.inodes, parent, e.ino)
    ensures ok ==> FarSame(old(fs.disk), fs.disk, fs.table)
    ensures ok && old(Room(fs.disk, fs.inodes[parent])) ==>
              && Sound(fs) && fs.inodes[e.ino] == NewInode() && Untouched(old(fs.disk), inodes0, fs.disk, fs.inodes, {parent})
              && NamesOf(fs) == t[parent := t[parent][e.name := e]]
              && Landed(old(fs.disk), old(fs.inodes[parent]), fs.disk, fs.inodes[parent], e.ino)
              && EnteredRecords(old(fs.disk), old(fs.inodes), fs.disk, fs.inodes, fs.table, parent, e.ino)
  {
    ghost var d0, room := fs.disk, Room(fs.disk, fs.inodes[parent]);
    ok := Enter(fs, parent, e, tail);
    if ok && room { CreateDone(d0, inodes0, fs.dirs, t, e.ino, fs.disk, fs.inodes, parent, e); }
  }

  /** A new number keeps the inode table right exactly if it is below 256. */
  lemma CreateRecords(d: Disk, inodes: map<nat, Inode>, e: Disk, jnodes: map<nat, Inode>, table: nat, parent: nat, ino: nat, node: Inode)
    requires Recorded(d, table, inodes) && Small(inodes) && parent in inodes && ino !in inodes && jnodes.Keys == inodes.Keys + {ino}
    requires Below(inodes, ino)
    requires EnteredRecords(d, inodes[ino := node], e, jnodes, table, parent, ino)
    ensures Recorded(e, table, jnodes) <==> ino < 256
    ensures ino < 256 ==> Small(jnodes)
  {
    var more := inodes[ino := node];
    forall f | f in more && f !in {ino} ensures RecordedAt(d, table, f, more[f]) {
      assert more[f] == inodes[f] && RecordedAt(d, table, f, inodes[f]);
    }
    assert parent < 256;
    if ino >= 256 {
      assert SyncSlot(ino) in inodes;
      assert SyncSlot(ino) in jnodes.Keys;
    } else {
      forall f | f in jnodes ensures f < 256 { assert f in jnodes.Keys; assert f in inodes || f == ino; }
    }
  }

  /** After `CreateInode` the entry may go into the parent. */
  lemma FileReady(fs: Fs, inodes0: map<nat, Inode>, t: Tables, parent: nat, e: Entry)
    requires fs.Valid() && parent in fs.dirs && fs.dirs <= inodes0.Keys && Thirteen(inodes0) && e.ino !in inodes0 && fs.inodes == inodes0[e.ino := NewInode()]
    requires t == Names(fs.disk, inodes0, fs.dirs) && Tree(t, inodes0.Keys, fs.dirs)
    requires Live(e) && GoodEntry(e) && e.name != [] && e.name !in t[parent]
    ensures Insertable(RowsOf(fs.disk, fs.inodes[parent]), e)
  {
    NamesMore(fs.disk, inodes0, fs.dirs, e.ino, NewInode());
    EntryFits(fs, t, inodes0.Keys, parent, e);
  }

  lemma EntryFits(fs: Fs, t: Tables, nodes: set<nat>, parent: nat, e: Entry)
    requires fs.Valid() && parent in fs.dirs && Tree(t, nodes, fs.dirs) && t == NamesOf(fs)
    requires Live(e) && GoodEntry(e) && e.name != [] && e.name !in t[parent] && e.ino !in nodes
    ensures Insertable(RowsOf(fs.disk, fs.inodes[parent]), e)
  {
    assert OkAt(fs.disk, fs.inodes, fs.dirs, parent);
    CanInsert(t, nodes, fs.dirs, RowsOf(fs.disk, fs.inodes[parent]), parent, e);
  }

  lemma CreateDone(d0: Disk, inodes0: map<nat, Inode>, dirs: set<nat>, t: Tables, ino: nat, d1: Disk, jnodes: map<nat, Inode>, parent: nat, e: Entry)
    requires dirs <= inodes0.Keys && Thirteen(inodes0) && Thirteen(jnodes) && t == Names(d0, inodes0, dirs) && Tree(t, inodes0.Keys, dirs)
    requires ino !in inodes0 && ino != 0 && e.ino == ino && e.kind == 1 && parent in dirs && e.name !in t[parent] && !Dots(e.name)
    requires AddedTo(d0, inodes0[ino := NewInode()], d1, jnodes, parent, e)
    ensures Names(d1, jnodes, dirs) == t[parent := t[parent][e.name := e]] && Tree(Names(d1, jnodes, dirs), jnodes.Keys, dirs)
    ensures jnodes.Keys == inodes0.Keys + {ino} && jnodes[ino] == NewInode() && Untouched(d0, inodes0, d1, jnodes, {parent})
  {
    var inodes1 := inodes0[ino := NewInode()];
    NamesMore(d0, inodes0, dirs, ino, NewInode());
    NamesChanged(d0, inodes1, d1, jnodes, dirs, parent);
    TreeAdd(t, inodes0.Keys, dirs, parent, e);
    MoreUntouched(d0, inodes0, ino, NewInode(), {parent});
    OthersUntouchedBut(d0, inodes1, d1, jnodes, parent, {parent});
    UntouchedThen(d0, inodes0, d0, inodes1, d1, jnodes, {parent});
    assert jnodes.Keys == inodes1.Keys;
    assert ino in jnodes && jnodes[ino] == inodes1[ino];
  }

  // ----- directories ---------------------------------------------------------------------------------------

  /** Lines 605-645 of `sys_mkdir`: an inode and a block with "." and "..". */
  method NewDirectory(fs: Fs, parent: nat) returns (r: Made)
    requires fs.Valid() && parent in fs.dirs
    modifies fs`disk, fs`bytes, fs`ibytes, fs`inodes, fs`dirs
    ensures r.NoInode? <==> old(Full(fs.IBits()))
    ensures (r.NoSpace? <==> !r.NoInode? && old(fs.Free()) < 1) && (r.Made? ==> fs.Shaped() && fs.Free() == old(fs.Free()) - 1)
    ensures r.Made? ==> Below(old(fs.inodes), r.ino)
    ensures r.Made? ==> TableSame(old(fs.disk), fs.disk, fs.table)
    ensures r.Made? ==> fs.Valid() && r.ino !in old(fs.inodes) && r.ino < 4096 && fs.inodes.Keys == old(fs.inodes.Keys) + {r.ino} && fs.dirs == old(fs.dirs) + {r.ino}
    ensures r.Made? ==> Untouched(old(fs.disk), old(fs.inodes), fs.disk, fs.inodes, {})
    ensures r.Made? ==> r.ino in fs.dirs && Dict(RowsOf(fs.disk, fs.inodes[r.ino])) == DotsMap(r.ino, parent)
  {
    ghost var d, inodes0 := fs.disk, fs.inodes;
    InMarked(0, fs.IBits());
    var ok, ino := fs.CreateInode();
    if !ok { return NoInode; }
    ghost var used := fs.Used();
    var lba;
    ok, lba := fs.BlockBitmapAlloc();
    if !ok { return NoSpace; }
    assert lba - fs.start != 0;                                   // the ASSERT at line 627
    FillDots(fs, ino, lba, parent, used);
    NewUntouched(d, inodes0, ino, fs.disk, fs.inodes);
    r := Made(ino);
  }

  /** Lines 630-645: the block with "." and "..". */
  method FillDots(fs: Fs, ino: nat, lba: nat, parent: nat, ghost used: set<nat>)
    requires FsOk(fs.disk, fs.inodes, fs.dirs, used, fs.pad) && ino in fs.inodes && fs.inodes[ino] == NewInode()
    requires lba !in used && lba != 0 && fs.table + 608 <= lba && ino < 0x1_0000_0000 && parent < 0x1_0000_0000
    modifies fs`disk, fs`inodes, fs`dirs
    ensures FsOk(fs.disk, fs.inodes, fs.dirs, used + {lba}, fs.pad) && OthersSame(old(fs.disk), old(fs.inodes), fs.disk, fs.inodes, ino)
    ensures fs.inodes == old(fs.inodes)[ino := Inode(48, NewInode().sectors[0 := lba])] && fs.dirs == old(fs.dirs) + {ino}
    ensures Dict(RowsOf(fs.disk, fs.inodes[ino])) == DotsMap(ino, parent) && TableSame(old(fs.disk), fs.disk, fs.table)
  {
    ghost var d := fs.disk;
    BlockOnly(fs.disk, lba, DotsBlock(ino, parent), fs.table);
    fs.disk := fs.disk[lba := DotsBlock(ino, parent)];
    NewDirOk(d, fs.inodes, fs.dirs, used, fs.pad, ino, lba, parent, fs.disk);
    fs.inodes := fs.inodes[ino := Inode(48, NewInode().sectors[0 := lba])];
    fs.dirs := fs.dirs + {ino};
  }

  lemma NewUntouched(d: Disk, inodes: map<nat, Inode>, f: nat, e: Disk, jnodes: map<nat, Inode>)
    requires Thirteen(inodes) && f !in inodes && OthersSame(d, inodes[f := NewInode()], e, jnodes, f)
    ensures Untouched(d, inodes, e, jnodes, {}) && jnodes.Keys == inodes.Keys + {f}
  {
    var inodes1 := inodes[f := NewInode()];
    assert jnodes.Keys == inodes1.Keys;
    forall g | g in inodes ensures g in jnodes && jnodes[g] == inodes[g] && SameFile(d, e, inodes[g]) {
      assert g in inodes1 && inodes1[g] == inodes[g] && g in jnodes;
      assert jnodes[g] == inodes1[g];
    }
  }

  /** The directories that were there keep their entries. */
  lemma NamesGrown(d: Disk, inodes: map<nat, Inode>, dirs: set<nat>, e: Disk, jnodes: map<nat, Inode>, f: nat)
    requires dirs <= inodes.Keys && Thirteen(inodes) && Thirteen(jnodes) && Untouched(d, inodes, e, jnodes, {}) && f in jnodes && f !in inodes
    ensures dirs + {f} <= jnodes.Keys && Names(e, jnodes, dirs + {f}) == Names(d, inodes, dirs)[f := Dict(RowsOf(e, jnodes[f]))]
  {
    assert forall g {:trigger jnodes[g]} :: g in dirs ==> g in inodes.Keys && g in jnodes;
    var a, b := Names(d, inodes, dirs), Names(e, jnodes, dirs + {f});
    forall g | g in dirs ensures b[g] == a[g] {
      assert g in inodes.Keys && inodes[g] == jnodes[g] && SameFile(d, e, inodes[g]);
      RowsSame(d, e, Slots(d, inodes[g].sectors));
    }
    OneAdded(a, b, f);
  }

  lemma OneAdded(a: Tables, b: Tables, f: nat)
    requires b.Keys == a.Keys + {f} && f !in a && forall h {:trigger b[h]} :: h in a ==> b[h] == a[h]
    ensures b == a[f := b[f]]
  {
  }

  /** A directory that is the same has the same room. */
  lemma RoomSame(d: Disk, e: Disk, f: Inode)
    requires SameFile(d, e, f)
    ensures RowsOf(e, f) == RowsOf(d, f) && (Room(e, f) <==> Room(d, f)) && (DirectRow(e, f) <==> DirectRow(d, f))
  {
    RowsSame(d, e, Slots(d, f.sectors));
  }

  lemma {:induction false} NeedSame(d: Disk, e: Disk, f: Inode, b: nat)
    requires SameFile(d, e, f)
    ensures EntryNeed(e, f.sectors, b) == EntryNeed(d, f.sectors, b)
    decreases 12 - b
  {
    if b < 12 {
      var s := Slots(d, f.sectors);
      assert s[b] == f.sectors[b];
      NeedSame(d, e, f, b + 1);
    }
  }

  lemma MkdirDone(d1: Disk, inodes1: map<nat, Inode>, dirs: set<nat>, t: Tables, nodes: set<nat>, ino: nat, e: Disk, jnodes: map<nat, Inode>, parent: nat, entry: Entry)
    requires Thirteen(inodes1) && Thirteen(jnodes) && dirs + {ino} <= inodes1.Keys == nodes + {ino} && ino !in nodes && dirs <= nodes && parent in dirs && ino != 0
    requires Tree(t, nodes, dirs) && Names(d1, inodes1, dirs + {ino}) == t[ino := DotsMap(ino, parent)]
    requires entry.ino == ino && entry.kind == 2 && entry.name !in t[parent] && !Dots(entry.name)
    requires AddedTo(d1, inodes1, e, jnodes, parent, entry)
    ensures Names(e, jnodes, dirs + {ino}) == t[ino := DotsMap(ino, parent)][parent := t[parent][entry.name := entry]]
    ensures Tree(Names(e, jnodes, dirs + {ino}), jnodes.Keys, dirs + {ino})
  {
    NamesChanged(d1, inodes1, e, jnodes, dirs + {ino}, parent);
    var u := Names(d1, inodes1, dirs + {ino});
    assert u[parent] == t[parent];
    TreeAddDir(t, nodes, dirs, parent, entry, DotsMap(ino, parent));
  }

  /** `sys_mkdir`, from the inode number on; d1 and inodes1 are the state before the entry is
      made. */
  method SysMkdir(fs: Fs, parent: nat, name: Name, tail: Tail) returns (r: Made, ghost d1: Disk, ghost inodes1: map<nat, Inode>)
    requires Sound(fs) && NewName(fs, parent, name) && fs.Loads(parent)
    modifies fs`disk, fs`bytes, fs`ibytes, fs`inodes, fs`dirs
    ensures r.NoInode? <==> old(Full(fs.IBits()))
    ensures r.NoSpace? <==> !r.NoInode? && old(fs.Free()) < 1 + old(EntryNeed(fs.disk, fs.inodes[parent].sectors, 0))
    ensures r.Made? ==> r.ino !in old(fs.inodes) && fs.inodes.Keys == old(fs.inodes.Keys) + {r.ino} && fs.dirs == old(fs.dirs) + {r.ino} && fs.Shaped()
    ensures r.Made? ==> Below(old(fs.inodes), r.ino)
    ensures r.Made? ==> (fs.Valid() <==> old(Room(fs.disk, fs.inodes[parent])))
    ensures r.Made? ==> fs.Free() == old(fs.Free()) - 1 - old(EntryNeed(fs.disk, fs.inodes[parent].sectors, 0))
    ensures r.Made? && old(Room(fs.disk, fs.inodes[parent])) ==>
              && Sound(fs) && Untouched(old(fs.disk), old(fs.inodes), fs.disk, fs.inodes, {parent})
              && NamesOf(fs) == old(NamesOf(fs))[r.ino := DotsMap(r.ino, parent)][parent := old(NamesOf(fs))[parent][name := Entry(name, r.ino, 2)]]
              && EnteredRecords(d1, inodes1, fs.disk, fs.inodes, fs.table, parent, r.ino)
              && parent in inodes1 && Landed(d1, inodes1[parent], fs.disk, fs.inodes[parent], r.ino)
    ensures r.Made? ==> TableSame(old(fs.disk), d1, fs.table) && Untouched(old(fs.disk), old(fs.inodes), d1, inodes1, {})
                        && inodes1.Keys == old(fs.inodes).Keys + {r.ino}
    ensures r.Made? && r.ino < 256 ==> NewRecords(fs.disk, fs.table, fs.inodes, parent, r.ino)
    ensures r.Made? ==> FarSame(old(fs.disk), fs.disk, fs.table)
  {
    var dir := OpenDir(fs, parent);
    r, d1, inodes1 := MkdirIn(fs, parent, name, tail);
  }

  /** The same once the parent is open; d1 and inodes1 are the state before the entry is made. */
  method MkdirIn(fs: Fs, parent: nat, name: Name, tail: Tail) returns (r: Made, ghost d1: Disk, ghost inodes1: map<nat, Inode>)
    requires Sound(fs) && NewName(fs, parent, name)
    modifies fs`disk, fs`bytes, fs`ibytes, fs`inodes, fs`dirs
    ensures r.NoInode? <==> old(Full(fs.IBits()))
    ensures r.NoSpace? <==> !r.NoInode? && old(fs.Free()) < 1 + old(EntryNeed(fs.disk, fs.inodes[parent].sectors, 0))
    ensures r.Made? ==> r.ino !in old(fs.inodes) && fs.inodes.Keys == old(fs.inodes.Keys) + {r.ino} && fs.dirs == old(fs.dirs) + {r.ino} && fs.Shaped()
    ensures r.Made? ==> Below(old(fs.inodes), r.ino)
    ensures r.Made? ==> (fs.Valid() <==> old(Room(fs.disk, fs.inodes[parent])))
    ensures r.Made? ==> fs.Free() == old(fs.Free()) - 1 - old(EntryNeed(fs.disk, fs.inodes[parent].sectors, 0))
    ensures r.Made? && old(Room(fs.disk, fs.inodes[parent])) ==>
              && Sound(fs) && Untouched(old(fs.disk), old(fs.inodes), fs.disk, fs.inodes, {parent})
              && NamesOf(fs) == old(NamesOf(fs))[r.ino := DotsMap(r.ino, parent)][parent := old(NamesOf(fs))[parent][name := Entry(name, r.ino, 2)]]
              && EnteredRecords(d1, inodes1, fs.disk, fs.inodes, fs.table, parent, r.ino)
              && parent in inodes1 && Landed(d1, inodes1[parent], fs.disk, fs.inodes[parent], r.ino)
    ensures r.Made? ==> TableSame(old(fs.disk), d1, fs.table) && Untouched(old(fs.disk), old(fs.inodes), d1, inodes1, {})
                        && inodes1.Keys == old(fs.inodes).Keys + {r.ino}
    ensures r.Made? && r.ino < 256 ==> NewRecords(fs.disk, fs.table, fs.inodes, parent, r.ino)
    ensures r.Made? ==> FarSame(old(fs.disk), fs.disk, fs.table)
  {
    ghost var d0, inodes0, dirs0, t := fs.disk, fs.inodes, fs.dirs, NamesOf(fs);
    r := NewDirectory(fs, parent);
    d1, inodes1 := fs.disk, fs.inodes;
    if !r.Made? { return; }
    MadeReady(fs, d0, inodes0, dirs0, t, parent, Entry(name, r.ino, 2));
    var ok := EnterDir(fs, parent, Entry(name, r.ino, 2), tail, inodes0.Keys, dirs0, t);
    if !ok { r := NoSpace; return; }
    FarTable(d0, d1, fs.table);
    FarTrans(d0, d1, fs.disk, fs.table);
    if Room(d0, inodes0[parent]) { MkdirUntouched(d0, inodes0, d1, inodes1, fs.disk, fs.inodes, parent); }
  }

  /** The entry of a directory whose inode is new. */
  method EnterDir(fs: Fs, parent: nat, e: Entry, tail: Tail, ghost nodes: set<nat>, ghost dirs0: set<nat>, ghost t: Tables) returns (ok: bool)
    requires fs.Valid() && fs.dirs == dirs0 + {e.ino} && dirs0 <= nodes && parent in dirs0 && Insertable(RowsOf(fs.disk, fs.inodes[parent]), e)
    requires e.ino !in nodes && e.ino != 0 && e.kind == 2 && !Dots(e.name) && fs.inodes.Keys == nodes + {e.ino}
    requires Tree(t, nodes, dirs0) && e.name !in t[parent] && NamesOf(fs) == t[e.ino := DotsMap(e.ino, parent)]
    modifies fs`disk, fs`bytes, fs`inodes
    ensures fs.Shaped()
    ensures ok <==> old(fs.Free()) >= old(EntryNeed(fs.disk, fs.inodes[parent].sectors, 0))
    ensures ok ==> fs.Free() == old(fs.Free()) - old(EntryNeed(fs.disk, fs.inodes[parent].sectors, 0)) && fs.inodes.Keys == nodes + {e.ino}
    ensures ok ==> (fs.Valid() <==> old(Room(fs.disk, fs.inodes[parent])))
    ensures ok && e.ino < 256 ==> NewRecords(fs.disk, fs.table, fs.inodes, parent, e.ino)
    ensures ok ==> FarSame(old(fs.disk), fs.disk, fs.table)
    ensures ok && old(Room(fs.disk, fs.inodes[parent])) ==>
              && Sound(fs) && OthersSame(old(fs.disk), old(fs.inodes), fs.disk, fs.inodes, parent)
              && NamesOf(fs) == t[e.ino := DotsMap(e.ino, parent)][parent := t[parent][e.name := e]]
              && EnteredRecords(old(fs.disk), old(fs.inodes), fs.disk, fs.inodes, fs.table, parent, e.ino)
              && Landed(old(fs.disk), old(fs.inodes[parent]), fs.disk, fs.inodes[parent], e.ino)
  {
    ghost var d1, inodes1, room := fs.disk, fs.inodes, Room(fs.disk, fs.inodes[parent]);
    ok := Enter(fs, parent, e, tail);
    if ok && room { MkdirDone(d1, inodes1, dirs0, t, nodes, e.ino, fs.disk, fs.inodes, parent, e); }
  }

  lemma MkdirRecords(d0: Disk, inodes0: map<nat, Inode>, d1: Disk, inodes1: map<nat, Inode>, e: Disk, jnodes: map<nat, Inode>, table: nat, parent: nat, ino: nat)
    requires Recorded(d0, table, inodes0) && Small(inodes0) && parent in inodes0 && ino !in inodes0 && ino in inodes1 && jnodes.Keys == inodes0.Keys + {ino}
    requires TableSame(d0, d1, table) && Untouched(d0, inodes0, d1, inodes1, {}) && inodes1.Keys == inodes0.Keys + {ino}
    requires Below(inodes0, ino)
    requires EnteredRecords(d1, inodes1, e, jnodes, table, parent, ino)
    ensures Recorded(e, table, jnodes) <==> ino < 256
    ensures ino < 256 ==> Small(jnodes)
  {
    forall f | f in inodes1 && f !in {ino} ensures f in inodes0 && inodes1[f] == inodes0[f] && f < 4096 {
      assert f in inodes1.Keys;
      assert f in inodes0;
      assert inodes0[f] == inodes1[f];
    }
    assert RecordedBut(d0, table, inodes0, {ino}) by {
      forall f | f in inodes0 && f !in {ino} ensures RecordedAt(d0, table, f, inodes0[f]) {}
    }
    DataKeeps(d0, d1, table, inodes0, inodes1, {ino});
    assert parent < 256;
    if ino >= 256 {
      assert SyncSlot(ino) in inodes0;
      assert SyncSlot(ino) in jnodes.Keys;
    } else {
      forall f | f in jnodes ensures f < 256 { assert f in jnodes.Keys; assert f in inodes0 || f == ino; }
    }
  }

  lemma MkdirUntouched(d0: Disk, inodes0: map<nat, Inode>, d1: Disk, inodes1: map<nat, Inode>, e: Disk, jnodes: map<nat, Inode>, parent: nat)
    requires Untouched(d0, inodes0, d1, inodes1, {}) && OthersSame(d1, inodes1, e, jnodes, parent)
    ensures Untouched(d0, inodes0, e, jnodes, {parent})
  {
    OthersUntouchedBut(d1, inodes1, e, jnodes, parent, {parent});
    assert Untouched(d0, inodes0, d1, inodes1, {parent});
    UntouchedThen(d0, inodes0, d1, inodes1, e, jnodes, {parent});
  }

  /** After `NewDirectory` the entry may go into the parent. */
  lemma MadeReady(fs: Fs, d0: Disk, inodes0: map<nat, Inode>, dirs0: set<nat>, t: Tables, parent: nat, e: Entry)
    requires fs.Valid() && parent in dirs0 && fs.dirs == dirs0 + {e.ino} && e.ino !in inodes0 && Thirteen(inodes0) && dirs0 <= inodes0.Keys
    requires t == Names(d0, inodes0, dirs0) && Tree(t, inodes0.Keys, dirs0) && Untouched(d0, inodes0, fs.disk, fs.inodes, {})
    requires Live(e) && GoodEntry(e) && e.name != [] && e.name !in t[parent] && Dict(RowsOf(fs.disk, fs.inodes[e.ino])) == DotsMap(e.ino, parent)
    ensures Insertable(RowsOf(fs.disk, fs.inodes[parent]), e)
    ensures NamesOf(fs) == t[e.ino := DotsMap(e.ino, parent)]
    ensures Room(fs.disk, fs.inodes[parent]) <==> Room(d0, inodes0[parent])
    ensures EntryNeed(fs.disk, fs.inodes[parent].sectors, 0) == EntryNeed(d0, inodes0[parent].sectors, 0)
  {
    NamesGrown(d0, inodes0, dirs0, fs.disk, fs.inodes, e.ino);
    assert parent in inodes0.Keys && fs.inodes[parent] == inodes0[parent];
    RoomSame(d0, fs.disk, inodes0[parent]);
    NeedSame(d0, fs.disk, inodes0[parent], 0);
    assert OkAt(fs.disk, fs.inodes, fs.dirs, parent);
    CanInsert(t, inodes0.Keys, dirs0, RowsOf(fs.disk, fs.inodes[parent]), parent, e);
  }

  // ----- removal -------------------------------------------------------------------------------------------

  /** The entry found for an inode is the one that the tree has for it. */
  lemma SameEntry(t: Tables, nodes: set<nat>, dirs: set<nat>, g: nat, n: Name, m: Name, i: nat)
    requires Tree(t, nodes, dirs) && Link(t, g, n, i) && m in t[g] && Target(t[g][m], i) && t[g][m].name == m
    ensures m == n
  {
    assert Link(t, g, m, i);
  }

  lemma EntryNamed(r: Rows, n: Name)
    requires n in Dict(r)
    ensures Dict(r)[n].name == n && Live(Dict(r)[n])
  {
    var k := DictFrom(r, n);
  }

  lemma UnlinkDone(d0: Disk, inodes0: map<nat, Inode>, dirs: set<nat>, t: Tables, d1: Disk, inodes1: map<nat, Inode>, e: Disk, parent: nat, name: Name, ino: nat)
    requires dirs <= inodes0.Keys && Thirteen(inodes0) && Thirteen(inodes1) && t == Names(d0, inodes0, dirs) && Tree(t, inodes0.Keys, dirs)
    requires Link(t, parent, name, ino) && ino != parent && (ino in t ==> forall m {:trigger Dots(m)} :: m in t[ino] ==> Dots(m))
    requires RemovedFrom(d0, inodes0, d1, inodes1, parent, name) && AllSame(d1, e, inodes1 - {ino})
    ensures dirs - {ino} <= (inodes1 - {ino}).Keys && Thirteen(inodes1 - {ino})
    ensures Names(e, inodes1 - {ino}, dirs - {ino}) == t[parent := t[parent] - {name}] - {ino}
    ensures Tree(Names(e, inodes1 - {ino}, dirs - {ino}), (inodes1 - {ino}).Keys, dirs - {ino})
    ensures Untouched(d0, inodes0, e, inodes1 - {ino}, {parent, ino})
  {
    var jnodes := inodes1 - {ino};
    assert inodes1.Keys == inodes0.Keys;
    NamesChanged(d0, inodes0, d1, inodes1, dirs, parent);
    NamesWithout(d1, inodes1, dirs, ino);
    NamesSame(d1, e, jnodes, dirs - {ino});
    TreeRemove(t, inodes0.Keys, dirs, parent, name, ino);
    assert jnodes.Keys == inodes0.Keys - {ino};
    OthersUntouchedBut(d0, inodes0, d1, inodes1, parent, {parent, ino});
    ReleasedUntouched(d1, inodes1, e, ino, {parent, ino});
    UntouchedThen(d0, inodes0, d1, inodes1, e, jnodes, {parent, ino});
  }

  lemma ReleasedUntouched(d: Disk, inodes: map<nat, Inode>, e: Disk, f: nat, x: set<nat>)
    requires AllSame(d, e, inodes - {f}) && f in x
    ensures Untouched(d, inodes, e, inodes - {f}, x)
  {
    var jnodes := inodes - {f};
    forall g | g in inodes && g !in x ensures g in jnodes && jnodes[g] == inodes[g] && SameFile(d, e, inodes[g]) {
      assert g in jnodes;
      assert SameFile(d, e, jnodes[g]);
    }
  }

  /** `Hung`: the loop that does not end.  `Kept`: the entry is gone, but the release did not
      come to its end. */
  datatype Unlinked = Hung | Kept(why: Release) | Gone

  /** `delete_dir_entry` and `inode_release`, as `sys_unlink` and `dir_remove` call them. */
  method RemoveNode(fs: Fs, parent: nat, ghost name: Name, ino: nat, tail: Tail) returns (r: Unlinked)
    requires Sound(fs) && Link(NamesOf(fs), parent, name, ino) && ino != parent && fs.Loads(parent)
    requires ino in fs.dirs ==> forall m {:trigger Dots(m)} :: m in NamesOf(fs)[ino] ==> Dots(m)
    modifies fs`disk, fs`bytes, fs`ibytes, fs`inodes, fs`dirs, fs`active
    ensures r.Hung? <==> old(Stuck(fs.disk, Slots(fs.disk, fs.inodes[parent].sectors), ino))
    ensures parent < 256 && !r.Hung? ==> (r.Gone? <==> old(fs.Loads(ino)))
    ensures parent < 256 && !r.Hung? ==> (r == Kept(Stopped) <==> old(fs.Opens(ino)).no != ino)
    ensures r.Gone? ==> Sound(fs) && fs.inodes.Keys == old(fs.inodes.Keys) - {ino} && fs.dirs == old(fs.dirs) - {ino} && fs.active == old(fs.active) - {ino}
    ensures r.Gone? ==> NamesOf(fs) == old(NamesOf(fs))[parent := old(NamesOf(fs))[parent] - {name}] - {ino}
    ensures r.Gone? ==> Untouched(old(fs.disk), old(fs.inodes), fs.disk, fs.inodes, {parent, ino})
    ensures r.Gone? && old(InOrder(fs)) ==> InOrder(fs)
  {
    ghost var inodes0, opens, order := fs.inodes, fs.Opens(ino), InOrder(fs);
    var dir := OpenDir(fs, parent);
    LinkedOnce(NamesOf(fs), fs.inodes.Keys, fs.dirs, RowsOf(fs.disk, fs.inodes[parent]), parent, name, ino);
    NumbersBounded(fs);
    var hung := DropName(fs, parent, name, ino, tail);
    if hung { return Hung; }
    ghost var d1, inodes1 := fs.disk, fs.inodes;
    assert parent < 256 ==> fs.Opens(ino) == opens;
    var rel := ReleaseUnlinked(fs, parent, name, ino, old(fs.disk), inodes0, old(NamesOf(fs)));
    if !rel.Released? { return Kept(rel); }
    if order {
      SameKeys(old(fs.disk), inodes0, d1, inodes1, parent, ino);
      UnlinkRecords(d1, inodes1, fs.disk, fs.table, ino);
    }
    r := Gone;
  }

  /** The entry leaves the parent. */
  method DropName(fs: Fs, parent: nat, ghost name: Name, ino: nat, tail: Tail) returns (hung: bool)
    requires fs.Valid() && parent in fs.dirs && OnlyEntry(Dict(RowsOf(fs.disk, fs.inodes[parent])), name, ino) && ino != parent && ino < 4096
    modifies fs`disk, fs`bytes, fs`inodes
    ensures hung <==> old(Stuck(fs.disk, Slots(fs.disk, fs.inodes[parent].sectors), ino))
    ensures !hung ==> fs.Valid() && RemovedFrom(old(fs.disk), old(fs.inodes), fs.disk, fs.inodes, parent, name)
    ensures !hung && parent < 256 ==> Record(fs.disk, fs.table, ino) == Record(old(fs.disk), fs.table, ino)
    ensures !hung && ino in old(fs.inodes) ==> ino in fs.inodes && fs.inodes[ino] == old(fs.inodes)[ino]
    ensures !hung && parent < 256 && old(Recorded(fs.disk, fs.table, fs.inodes)) ==> Recorded(fs.disk, fs.table, fs.inodes)
  {
    ghost var d0, inodes0, m := fs.disk, fs.inodes, Dict(RowsOf(fs.disk, fs.inodes[parent]));
    var got;
    ghost var n;
    got, n := DeleteDirEntry(fs, parent, ino, tail);
    assert !got.NoEntry? by { assert Target(m[name], ino); }
    hung := got.Hangs?;
    if !hung {
      assert Target(m[n], ino);
      SameKeys(d0, inodes0, fs.disk, fs.inodes, parent, ino);
    }
  }

  /** `name` is the one entry for inode i other than "." and "..". */
  ghost predicate OnlyEntry(m: map<Name, Entry>, name: Name, i: nat) {
    name in m && Target(m[name], i) && forall n {:trigger m[n]} :: n in m && Target(m[n], i) ==> n == name
  }

  /** So it is in a tree. */
  lemma LinkedOnce(t: Tables, nodes: set<nat>, dirs: set<nat>, r: Rows, g: nat, name: Name, i: nat)
    requires Tree(t, nodes, dirs) && Link(t, g, name, i) && t[g] == Dict(r)
    ensures OnlyEntry(Dict(r), name, i)
  {
    EntryNamed(r, name);
    forall n | n in t[g] && Target(t[g][n], i) ensures n == name {
      EntryNamed(r, n);
      SameEntry(t, nodes, dirs, g, name, n, i);
    }
  }

  lemma SameKeys(d: Disk, inodes: map<nat, Inode>, e: Disk, jnodes: map<nat, Inode>, parent: nat, ino: nat)
    requires OthersSame(d, inodes, e, jnodes, parent) && ino != parent
    ensures ino in inodes ==> ino in jnodes && jnodes[ino] == inodes[ino]
    ensures Small(inodes) ==> Small(jnodes)
  {
    if ino in inodes { assert ino in jnodes.Keys; }
    forall f | f in jnodes && Small(inodes) ensures f < 256 { assert f in jnodes.Keys; assert f in inodes; }
  }

  /** The inode whose entry is gone is released. */
  method ReleaseUnlinked(fs: Fs, parent: nat, ghost name: Name, ino: nat, ghost d0: Disk, ghost inodes0: map<nat, Inode>, ghost t: Tables) returns (rel: Release)
    requires fs.Valid() && RemovedFrom(d0, inodes0, fs.disk, fs.inodes, parent, name) && ino in fs.inodes && ino != 0 && ino != parent
    requires fs.dirs <= inodes0.Keys && Thirteen(inodes0) && t == Names(d0, inodes0, fs.dirs) && Tree(t, inodes0.Keys, fs.dirs) && Link(t, parent, name, ino)
    requires ino in t ==> forall m {:trigger Dots(m)} :: m in t[ino] ==> Dots(m)
    modifies fs`disk, fs`bytes, fs`ibytes, fs`inodes, fs`dirs, fs`active
    ensures rel.Released? <==> old(fs.Loads(ino))
    ensures rel.Stopped? <==> old(fs.Opens(ino)).no != ino
    ensures rel.Released? ==> Sound(fs) && fs.inodes == old(fs.inodes) - {ino} && fs.inodes.Keys == inodes0.Keys - {ino}
    ensures rel.Released? ==> fs.dirs == old(fs.dirs) - {ino} && fs.active == old(fs.active) - {ino}
    ensures rel.Released? ==> NamesOf(fs) == t[parent := t[parent] - {name}] - {ino}
    ensures rel.Released? ==> Untouched(d0, inodes0, fs.disk, fs.inodes, {parent, ino}) && OnlyRecord(old(fs.disk), fs.disk, fs.table, ino, ZeroRecord())
  {
    ghost var d1, inodes1, dirs0 := fs.disk, fs.inodes, fs.dirs;
    rel := fs.InodeRelease(ino);
    if rel.Released? {
      UnlinkDone(d0, inodes0, dirs0, t, d1, inodes1, fs.disk, parent, name, ino);
      assert inodes1.Keys == inodes0.Keys;
    }
  }

  lemma UnlinkRecords(d: Disk, inodes: map<nat, Inode>, e: Disk, table: nat, ino: nat)
    requires Recorded(d, table, inodes) && Small(inodes) && OnlyRecord(d, e, table, ino, ZeroRecord())
    ensures Recorded(e, table, inodes - {ino}) && Small(inodes - {ino})
  {
    ReleaseKeepsRecords(d, e, table, inodes, ino, {});
    forall f | f in inodes - {ino} ensures f < 256 { assert f in inodes; }
  }

  /** `sys_unlink` of a file that is not open.  The inode is read from its record: if that
      carries another number, the ASSERT at fs/inode.c line 192 stops the kernel. */
  method SysUnlink(fs: Fs, parent: nat, name: Name, tail: Tail) returns (r: Unlinked)
    requires Sound(fs) && parent in fs.dirs && name in NamesOf(fs)[parent] && name != [] && !Dots(name) && fs.Loads(parent)
    requires NamesOf(fs)[parent][name].ino !in fs.dirs && NamesOf(fs)[parent][name].ino !in fs.active
    modifies fs`disk, fs`bytes, fs`ibytes, fs`inodes, fs`dirs, fs`active
    ensures r.Hung? <==> old(StuckEntry(fs, parent, name))
    ensures var ino := old(NamesOf(fs)[parent][name].ino);
            && (parent < 256 && !r.Hung? ==> (r == Kept(Stopped) <==> Decode(Record(old(fs.disk), fs.table, ino)).no != ino))
            && (parent < 256 && !r.Hung? ==> (r.Gone? <==> Decode(Record(old(fs.disk), fs.table, ino)) == NodeOf(ino, old(fs.inodes)[ino])))
            && (r.Gone? ==> Sound(fs) && fs.inodes.Keys == old(fs.inodes.Keys) - {ino} && fs.dirs == old(fs.dirs) && fs.active == old(fs.active))
            && (r.Gone? ==> NamesOf(fs) == old(NamesOf(fs))[parent := old(NamesOf(fs))[parent] - {name}])
            && (r.Gone? ==> Untouched(old(fs.disk), old(fs.inodes), fs.disk, fs.inodes, {parent, ino}))
    ensures old(InOrder(fs)) ==> (r.Hung? || r.Gone?) && (r.Gone? ==> InOrder(fs))
  {
    var found := SearchDirEntry(fs, parent, name);
    var ino := found.entry.ino;
    assert Link(NamesOf(fs), parent, name, ino);
    ghost var t, order := NamesOf(fs), InOrder(fs);
    assert t[parent := t[parent] - {name}] - {ino} == t[parent := t[parent] - {name}];
    if order { CanOpen(fs, ino); assert parent < 256 by { assert parent in fs.inodes; } }
    r := RemoveNode(fs, parent, name, ino, tail);
  }

  datatype Rmdir = NotEmpty | RmHangs | RmKept | RmGone

  /** `sys_rmdir`: an empty directory goes, with its entry, its block and its inode.  The
      directory is open while it is removed. */
  method SysRmdir(fs: Fs, parent: nat, name: Name, tail: Tail) returns (r: Rmdir)
    requires Sound(fs) && parent in fs.dirs && name in NamesOf(fs)[parent] && name != [] && !Dots(name) && fs.Loads(parent)
    requires NamesOf(fs)[parent][name].ino in fs.dirs && fs.Loads(NamesOf(fs)[parent][name].ino)
    modifies fs`disk, fs`bytes, fs`ibytes, fs`inodes, fs`dirs, fs`active
    ensures var ino := old(NamesOf(fs)[parent][name].ino);
            && (r.NotEmpty? <==> old(NamesOf(fs)[NamesOf(fs)[parent][name].ino].Keys) != {[46], [46, 46]})
            && (r.NotEmpty? ==> Sound(fs) && unchanged(fs))
            && (r.RmHangs? <==> !r.NotEmpty? && old(StuckEntry(fs, parent, name)))
            && (r.RmKept? ==> parent >= 256)
            && (r.RmGone? ==> Sound(fs) && fs.inodes.Keys == old(fs.inodes.Keys) - {ino} && fs.dirs == old(fs.dirs) - {ino})
            && (r.RmGone? ==> NamesOf(fs) == old(NamesOf(fs))[parent := old(NamesOf(fs))[parent] - {name}] - {ino})
            && (r.RmGone? ==> Untouched(old(fs.disk), old(fs.inodes), fs.disk, fs.inodes, {parent, ino}))
    ensures old(InOrder(fs)) && r.RmGone? ==> InOrder(fs)
  {
    var found := SearchDirEntry(fs, parent, name);
    var ino := found.entry.ino;
    ghost var t := NamesOf(fs);
    assert Link(t, parent, name, ino);
    var dir := OpenDir(fs, ino);
    var empty := DirIsEmpty(fs, ino);
    if !empty { return NotEmpty; }
    CheckOneBlock(fs, ino);
    assert forall m {:trigger Dots(m)} :: m in t[ino] ==> m in t[ino].Keys;
    RemoveSelf(t, parent, name, ino);
    r := RemoveOpen(fs, parent, name, ino, tail);
  }

  /** The directory is open while it is removed. */
  method RemoveOpen(fs: Fs, parent: nat, ghost name: Name, ino: nat, tail: Tail) returns (r: Rmdir)
    requires Sound(fs) && Link(NamesOf(fs), parent, name, ino) && ino != parent && fs.Loads(parent) && ino in fs.inodes
    requires ino in fs.dirs ==> forall m {:trigger Dots(m)} :: m in NamesOf(fs)[ino] ==> Dots(m)
    modifies fs`disk, fs`bytes, fs`ibytes, fs`inodes, fs`dirs, fs`active
    ensures !r.NotEmpty? && (r.RmHangs? <==> old(Stuck(fs.disk, Slots(fs.disk, fs.inodes[parent].sectors), ino))) && (r.RmKept? ==> parent >= 256)
    ensures r.RmGone? ==> Sound(fs) && fs.inodes.Keys == old(fs.inodes.Keys) - {ino} && fs.dirs == old(fs.dirs) - {ino}
    ensures r.RmGone? ==> NamesOf(fs) == old(NamesOf(fs))[parent := old(NamesOf(fs))[parent] - {name}] - {ino}
    ensures r.RmGone? ==> Untouched(old(fs.disk), old(fs.inodes), fs.disk, fs.inodes, {parent, ino})
    ensures r.RmGone? && old(InOrder(fs)) ==> InOrder(fs)
  {
    fs.active := fs.active + {ino};
    var got := RemoveNode(fs, parent, name, ino, tail);
    r := if got.Hung? then RmHangs else if got.Gone? then RmGone else RmKept;
  }

  /** An empty directory is not its own parent. */
  lemma RemoveSelf(t: Tables, parent: nat, name: Name, ino: nat)
    requires Link(t, parent, name, ino) && ino in t && t[ino].Keys == {[46], [46, 46]}
    ensures ino != parent
  {
    assert !Dots(name);
  }

  // ----- open files ------------------------------------------------------------------------------------------

  /** `file_open`: the inode is in memory from now on. */
  method OpenFile(fs: Fs, ino: nat)
    requires Sound(fs) && fs.Loads(ino)
    modifies fs`active
    ensures Sound(fs) && fs.active == old(fs.active) + {ino} && (old(InOrder(fs)) ==> InOrder(fs))
  {
    var file := fs.Load(ino);
    assert file == NodeOf(ino, fs.inodes[ino]);
    fs.active := fs.active + {ino};
  }

  /** The last `file_close` of an inode other than the root. */
  method CloseFile(fs: Fs, ino: nat)
    requires Sound(fs) && ino != 0
    modifies fs`active
    ensures Sound(fs) && fs.active == old(fs.active) - {ino} && (old(InOrder(fs)) ==> InOrder(fs))
  {
    fs.active := fs.active - {ino};
  }

  /** `file_write` keeps the tree; it keeps the inode table right exactly if the memory behind
      the buffer of its sync fits. */
  method WriteFile(fs: Fs, ino: nat, buf: seq<Byte>, tail: Tail) returns (r: WriteResult, ghost mid: Disk)
    requires Sound(fs) && ino in fs.inodes && ino in fs.active && ino !in fs.dirs && |buf| <= 0xc000_0000
    modifies fs`disk, fs`bytes, fs`inodes
    ensures fs.Shaped()
    ensures r.TooBig? <==> old(fs.inodes[ino].size) + |buf| > 71680
    ensures r.TooBig? ==> Sound(fs) && unchanged(fs)
    ensures r.Halted? <==> !r.TooBig? && (old(fs.inodes[ino].size) + |buf| == 71680 || old(fs.Free()) < old(BlocksNeeded(fs.inodes[ino], |buf|)))
    ensures r.Written? ==> Sound(fs) && NamesOf(fs) == old(NamesOf(fs)) && fs.Text(ino) == old(fs.Text(ino)) + buf
    ensures r.Written? ==> Untouched(old(fs.disk), old(fs.inodes), fs.disk, fs.inodes, {ino}) && fs.inodes.Keys == old(fs.inodes.Keys)
    ensures r.Written? ==> TableSame(old(fs.disk), mid, fs.table)
    ensures r.Written? && old(InOrder(fs)) ==>
              (InOrder(fs) <==> TailOk(mid, fs.table, fs.inodes, ino, RecordBytes(NodeOf(ino, fs.inodes[ino])), tail))
  {
    ghost var d, inodes, order := fs.disk, fs.inodes, InOrder(fs);
    var pos, overran;
    r, pos, overran, mid := fs.FileWrite(ino, buf, tail);
    if r.Written? {
      NamesChanged(d, inodes, fs.disk, fs.inodes, fs.dirs, ino);
      OthersUntouchedBut(d, inodes, fs.disk, fs.inodes, ino, {ino});
      if order { WrittenRecords(d, inodes, mid, fs.disk, fs.table, fs.inodes, ino, overran, tail); }
    }
  }

  lemma WrittenRecords(d0: Disk, inodes0: map<nat, Inode>, mid: Disk, e: Disk, table: nat, inodes: map<nat, Inode>, ino: nat, overran: bool, tail: Tail)
    requires Recorded(d0, table, inodes0) && Small(inodes0) && ino in inodes && |inodes[ino].sectors| == 13
    requires OthersSame(d0, inodes0, e, inodes, ino)
    requires TableSame(d0, mid, table) && Synced(mid, e, table, NodeOf(ino, inodes[ino]), overran, tail)
    requires overran <==> BufferFor(SyncSlot(ino)) > 512
    ensures Small(inodes)
    ensures Recorded(e, table, inodes) <==> TailOk(mid, table, inodes, ino, RecordBytes(NodeOf(ino, inodes[ino])), tail)
  {
    forall f | f in inodes ensures f < 256 { assert f in inodes.Keys; assert f in inodes0; }
    forall g | g in inodes && g != ino ensures inodes[g] == inodes0[g] { assert g in inodes.Keys; assert g in inodes0; }
    WriteRecords(d0, inodes0, mid, e, table, inodes, ino, overran, tail);
  }

  /** A formatted partition is in order: nothing but the root. */
  method Format(disk0: Disk, blocks: seq<bv8>, len: nat, nodes: seq<bv8>, inode_table: nat, data_start: nat) returns (fs: Fs)
    requires |blocks| > len >= 1 && |nodes| > 512 && inode_table + 608 <= data_start && data_start + 8 * len <= 0x1_0000_0000
    requires Bit(blocks, 0) && Marked(0, View(nodes, 4096)) == {0}
    ensures fresh(fs) && InOrder(fs) && NamesOf(fs) == map[0 := DotsMap(0, 0)] && fs.start == data_start && fs.table == inode_table
    ensures fs.inodes == map[0 := RootInode(data_start)] && fs.dirs == {0} && fs.active == {0} && fs.bytes == blocks && fs.blen == len
    ensures forall f {:trigger Record(fs.disk, fs.table, f)} :: 0 < f < 4096 ==> Record(fs.disk, fs.table, f) == ZeroRecord()
  {
    fs := new Fs(disk0, blocks, len, nodes, inode_table, data_start);
    NewDirSlots(fs.disk, data_start, 0, 0);
    assert NamesOf(fs)[0] == DotsMap(0, 0);
  }

  // ----- mixed runs ----------------------------------------------------------------------------------------

  datatype Call =
    | Create(parent: nat, name: Name)
    | Mkdir(parent: nat, name: Name)
    | Open(ino: nat)
    | Close(ino: nat)
    | Write(ino: nat, buf: seq<Byte>)
    | Unlink(parent: nat, name: Name)
    | Rm(parent: nat, name: Name)

  /** The calls that the theorem covers.  The callers in fs/fs.c see to it that names are new
      or present, that what is written is open and what is unlinked is not.  Nobody sees to
      the rest: a number below 256 is free, the parent has room, and no one overwrites the
      memory behind the buffer of the sync of a straddling record. */
  ghost predicate Allowed(fs: Fs, c: Call, tail: Tail)
    reads fs
    requires fs.Valid()
  {
    match c
    case Create(p, n) => NewName(fs, p, n) && Room(fs.disk, fs.inodes[p]) && NumberLeft(fs.inodes)
    case Mkdir(p, n) => NewName(fs, p, n) && Room(fs.disk, fs.inodes[p]) && NumberLeft(fs.inodes)
    case Open(i) => i in fs.inodes
    case Close(i) => i in fs.active && i != 0
    case Write(i, buf) => i in fs.inodes && i in fs.active && i !in fs.dirs && |buf| <= 0xc000_0000 && i < 4096 && (Locate(i).two_sec ==> tail.Intact?)
    case Unlink(p, n) => p in fs.dirs && n in NamesOf(fs)[p] && n != [] && !Dots(n)
                         && NamesOf(fs)[p][n].ino !in fs.dirs && NamesOf(fs)[p][n].ino !in fs.active
    case Rm(p, n) => p in fs.dirs && n in NamesOf(fs)[p] && n != [] && !Dots(n) && NamesOf(fs)[p][n].ino in fs.dirs
  }

  /** A number that fits eight bits is free. */
  ghost predicate NumberLeft(inodes: map<nat, Inode>) { exists i {:trigger i in inodes} :: 0 <= i < 256 && i !in inodes }

  /** When a call stops in an ASSERT or a loop that does not end. */
  ghost predicate Halts(fs: Fs, c: Call, tail: Tail)
    reads fs
    requires fs.Valid() && Allowed(fs, c, tail)
  {
    match c
    case Create(p, n) => fs.Free() < EntryNeed(fs.disk, fs.inodes[p].sectors, 0)
    case Mkdir(p, n) => fs.Free() < 1 + EntryNeed(fs.disk, fs.inodes[p].sectors, 0)
    case Open(i) => false
    case Close(i) => false
    case Write(i, buf) => fs.inodes[i].size + |buf| == 71680 || (fs.inodes[i].size + |buf| < 71680 && fs.Free() < BlocksNeeded(fs.inodes[i], |buf|))
    case Unlink(p, n) => StuckEntry(fs, p, n)
    case Rm(p, n) => StuckEntry(fs, p, n) && Tree(NamesOf(fs), fs.inodes.Keys, fs.dirs) && NamesOf(fs)[NamesOf(fs)[p][n].ino].Keys == {[46], [46, 46]}
  }

  /** With a number left, the inode bitmap is not full. */
  lemma LeastLeft(fs: Fs)
    requires fs.Valid() && NumberLeft(fs.inodes)
    ensures !Full(fs.IBits())
  {
    var i :| 0 <= i < 256 && i !in fs.inodes;
    NotFull(fs, i);
  }

  lemma NotFull(fs: Fs, i: nat)
    requires fs.Valid() && i < 4096 && i !in fs.inodes
    ensures !Full(fs.IBits())
  {
    InMarked(0, fs.IBits());
    assert i !in fs.inodes.Keys;
    assert !BitAt(0, fs.IBits(), i);
  }

  /** One call: it halts exactly as `Halts` says, and otherwise keeps everything in order. */
  method Perform(fs: Fs, c: Call, tail: Tail) returns (halted: bool)
    requires InOrder(fs) && Allowed(fs, c, tail)
    modifies fs
    ensures halted <==> old(Halts(fs, c, tail))
    ensures !halted ==> InOrder(fs)
  {
    match c
    case Create(p, n) => halted := PerformCreate(fs, p, n, tail);
    case Mkdir(p, n) => halted := PerformMkdir(fs, p, n, tail);
    case Open(i) =>
      CanOpen(fs, i);
      OpenFile(fs, i);
      halted := false;
    case Close(i) =>
      CloseFile(fs, i);
      halted := false;
    case Write(i, buf) => halted := PerformWrite(fs, i, buf, tail);
    case Unlink(p, n) =>
      CanOpen(fs, p);
      var r := SysUnlink(fs, p, n, tail);
      halted := !r.Gone?;
    case Rm(p, n) => halted := PerformRm(fs, p, n, tail);
  }

  method PerformCreate(fs: Fs, p: nat, n: Name, tail: Tail) returns (halted: bool)
    requires InOrder(fs) && Allowed(fs, Create(p, n), tail)
    modifies fs`disk, fs`bytes, fs`ibytes, fs`inodes, fs`active
    ensures halted <==> old(Halts(fs, Create(p, n), tail))
    ensures !halted ==> InOrder(fs)
  {
    LeastLeft(fs);
    var r := CreateOrdered(fs, p, n, tail);
    halted := !r.Made?;
  }

  /** A new file in a file system in order: it stays so exactly if the number fits eight bits. */
  method CreateOrdered(fs: Fs, parent: nat, name: Name, tail: Tail) returns (r: Made)
    requires InOrder(fs) && NewName(fs, parent, name) && Room(fs.disk, fs.inodes[parent])
    modifies fs`disk, fs`bytes, fs`ibytes, fs`inodes, fs`active
    ensures r.NoInode? <==> old(Full(fs.IBits()))
    ensures r.NoSpace? <==> !r.NoInode? && old(fs.Free()) < old(EntryNeed(fs.disk, fs.inodes[parent].sectors, 0))
    ensures r.Made? ==> Sound(fs) && fs.inodes.Keys == old(fs.inodes.Keys) + {r.ino} && r.ino !in old(fs.inodes)
    ensures r.Made? ==> Below(old(fs.inodes), r.ino) && fs.active == old(fs.active) + {r.ino} && FarSame(old(fs.disk), fs.disk, fs.table)
    ensures r.Made? ==> fs.Free() == old(fs.Free()) - old(EntryNeed(fs.disk, fs.inodes[parent].sectors, 0))
    ensures r.Made? ==> NamesOf(fs) == old(NamesOf(fs))[parent := old(NamesOf(fs))[parent][name := Entry(name, r.ino, 1)]]
    ensures r.Made? ==> Untouched(old(fs.disk), old(fs.inodes), fs.disk, fs.inodes, {parent})
                        && Landed(old(fs.disk), old(fs.inodes[parent]), fs.disk, fs.inodes[parent], r.ino)
    ensures r.Made? ==> (Recorded(fs.disk, fs.table, fs.inodes) <==> r.ino < 256) && (InOrder(fs) <==> r.ino < 256)
  {
    ghost var d0, inodes0 := fs.disk, fs.inodes;
    CanOpen(fs, parent);
    r := FileCreate(fs, parent, name, tail);
    if r.Made? { CreateRecords(d0, inodes0, fs.disk, fs.inodes, fs.table, parent, r.ino, NewInode()); }
  }

  method PerformMkdir(fs: Fs, p: nat, n: Name, tail: Tail) returns (halted: bool)
    requires InOrder(fs) && Allowed(fs, Mkdir(p, n), tail)
    modifies fs`disk, fs`bytes, fs`ibytes, fs`inodes, fs`dirs
    ensures halted <==> old(Halts(fs, Mkdir(p, n), tail))
    ensures !halted ==> InOrder(fs)
  {
    LeastLeft(fs);
    var r := MkdirOrdered(fs, p, n, tail);
    halted := !r.Made?;
  }

  /** The same for a new directory. */
  method MkdirOrdered(fs: Fs, parent: nat, name: Name, tail: Tail) returns (r: Made)
    requires InOrder(fs) && NewName(fs, parent, name) && Room(fs.disk, fs.inodes[parent])
    modifies fs`disk, fs`bytes, fs`ibytes, fs`inodes, fs`dirs
    ensures r.NoInode? <==> old(Full(fs.IBits()))
    ensures r.NoSpace? <==> !r.NoInode? && old(fs.Free()) < 1 + old(EntryNeed(fs.disk, fs.inodes[parent].sectors, 0))
    ensures r.Made? ==> Sound(fs) && fs.inodes.Keys == old(fs.inodes.Keys) + {r.ino} && r.ino !in old(fs.inodes)
    ensures r.Made? ==> Below(old(fs.inodes), r.ino) && fs.dirs == old(fs.dirs) + {r.ino} && FarSame(old(fs.disk), fs.disk, fs.table)
    ensures r.Made? ==> fs.Free() == old(fs.Free()) - 1 - old(EntryNeed(fs.disk, fs.inodes[parent].sectors, 0))
    ensures r.Made? ==> NamesOf(fs) == old(NamesOf(fs))[r.ino := DotsMap(r.ino, parent)][parent := old(NamesOf(fs))[parent][name := Entry(name, r.ino, 2)]]
    ensures r.Made? ==> Landed(old(fs.disk), old(fs.inodes[parent]), fs.disk, fs.inodes[parent], r.ino)
    ensures r.Made? ==> (Recorded(fs.disk, fs.table, fs.inodes) <==> r.ino < 256) && (InOrder(fs) <==> r.ino < 256)
  {
    ghost var d0, inodes0 := fs.disk, fs.inodes;
    CanOpen(fs, parent);
    ghost var d1, inodes1;
    r, d1, inodes1 := SysMkdir(fs, parent, name, tail);
    if r.Made? {
      MkdirRecords(d0, inodes0, d1, inodes1, fs.disk, fs.inodes, fs.table, parent, r.ino);
      RoomSame(d0, d1, inodes0[parent]);
    }
  }

  method PerformWrite(fs: Fs, i: nat, buf: seq<Byte>, tail: Tail) returns (halted: bool)
    requires InOrder(fs) && Allowed(fs, Write(i, buf), tail)
    modifies fs`disk, fs`bytes, fs`inodes
    ensures halted <==> old(Halts(fs, Write(i, buf), tail))
    ensures !halted ==> InOrder(fs)
  {
    var r;
    ghost var mid;
    r, mid := WriteFile(fs, i, buf, tail);
    halted := r.Halted?;
    if r.Written? && Locate(i).two_sec { IntactFits(mid, fs.table, fs.inodes, i, RecordBytes(NodeOf(i, fs.inodes[i]))); }
  }

  method PerformRm(fs: Fs, p: nat, n: Name, tail: Tail) returns (halted: bool)
    requires InOrder(fs) && Allowed(fs, Rm(p, n), tail)
    modifies fs`disk, fs`bytes, fs`ibytes, fs`inodes, fs`dirs, fs`active
    ensures halted <==> old(Halts(fs, Rm(p, n), tail))
    ensures !halted ==> InOrder(fs)
  {
    CanOpen(fs, p);
    CanOpen(fs, NamesOf(fs)[p][n].ino);
    assert p < 256 by { assert p in fs.inodes; }
    var r := SysRmdir(fs, p, n, tail);
    halted := r.RmHangs?;
  }
}
