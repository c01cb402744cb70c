/** Runs from a new partition that leave what FileTree.dfy keeps in order: one file too many
    for eight bits, and a directory that overflows its direct blocks. */
module FailingRuns {
  import opened Bitmap
  import opened Files
  import opened Directory
  import opened InodeTable
  import opened Records
  import opened FileSystem
  import opened DirectoryOps
  import opened FileTree

  // ----- a new partition -----------------------------------------------------------------------------

  /** Only the first bit is set. */
  ghost predicate FirstOnly(v: seq<bool>) { v != [] && forall i :: 0 <= i < |v| ==> (v[i] <==> i == 0) }

  lemma FirstByte(bytes: seq<bv8>, n: nat)
    requires 1 <= n <= 8 * |bytes| && bytes[0] == 1 && forall i :: 1 <= i < |bytes| ==> bytes[i] == 0
    ensures FirstOnly(View(bytes, n)) && Bit(bytes, 0)
  {
    forall i | 0 <= i < n ensures View(bytes, n)[i] <==> i == 0 {
      ViewAt(bytes, n, i);
      LowBit(i % 8);
    }
  }

  lemma LowBit(k: nat)
    requires k < 8
    ensures 1 & Mask(k) != 0 <==> k == 0
    ensures 0 & Mask(k) == 0
  {
    if k == 0 {} else if k == 1 {} else if k == 2 {} else if k == 3 {} else if k == 4 {} else if k == 5 {} else if k == 6 {} else {}
  }

  lemma OneMarked(start: nat, v: seq<bool>)
    requires FirstOnly(v)
    ensures Marked(start, v) == {start}
  {
    InMarked(start, v);
    forall f ensures f in Marked(start, v) <==> f == start {
      if start <= f < start + |v| { assert BitAt(start, v, f) == v[f - start]; }
    }
  }

  lemma {:induction false} OneTaken(v: seq<bool>)
    requires FirstOnly(v)
    ensures Clear(v) == |v| - 1
  {
    if |v| > 1 {
      assert FirstOnly(v[..|v| - 1]);
      OneTaken(v[..|v| - 1]);
    } else {
      assert v[..0] == [];
    }
  }

  /** A bitmap of n bytes, and one more byte behind it. */
  method NewBitmap(n: nat) returns (b: seq<bv8>)
    requires n >= 1
    ensures |b| == n + 1 && FirstOnly(View(b, 8 * n)) && Bit(b, 0)
  {
    b := seq(n + 1, i => if i == 0 then 1 else 0);
    FirstByte(b, 8 * n);
  }

  /** 8192 blocks, of which the root has one. */
  method NewPartition() returns (fs: Fs)
    ensures fresh(fs) && InOrder(fs) && UpTo(fs.inodes, 1) && fs.dirs == {0} && 0 in fs.active && fs.Free() == 8191
    ensures NamesOf(fs) == map[0 := DotsMap(0, 0)] && fs.inodes[0].sectors[12] == 0
    ensures Record(fs.disk, fs.table, 256) == ZeroRecord()
  {
    var blocks := NewBitmap(1024);
    var nodes := NewBitmap(512);
    OneMarked(0, View(nodes, 4096));
    OneTaken(View(blocks, 8192));
    fs := Formatted(blocks, nodes);
  }

  method Formatted(blocks: seq<bv8>, nodes: seq<bv8>) returns (fs: Fs)
    requires |blocks| == 1025 && Bit(blocks, 0) && Clear(View(blocks, 8192)) == 8191 && |nodes| == 513 && Marked(0, View(nodes, 4096)) == {0}
    ensures fresh(fs) && InOrder(fs) && UpTo(fs.inodes, 1) && fs.dirs == {0} && 0 in fs.active && fs.Free() == 8191
    ensures NamesOf(fs) == map[0 := DotsMap(0, 0)] && fs.inodes[0].sectors[12] == 0
    ensures Record(fs.disk, fs.table, 256) == ZeroRecord()
  {
    fs := Format(map[], blocks, 1024, nodes, 2, 1000);
    assert 0 in fs.inodes.Keys;
    forall f | f in fs.inodes ensures f < 1 { assert f in fs.inodes.Keys; }
    RootHasNoTable(fs);
  }

  lemma RootHasNoTable(fs: Fs)
    requires fs.Valid() && fs.inodes == map[0 := RootInode(fs.start)]
    ensures fs.inodes[0].sectors[12] == 0
  {
  }

  // ----- many files --------------------------------------------------------------------------------------

  /** The inodes are exactly 0..m. */
  ghost predicate UpTo(inodes: map<nat, Inode>, m: nat) { Below(inodes, m) && forall f {:trigger f in inodes} :: f in inodes ==> f < m }

  lemma NextNumber(inodes: map<nat, Inode>, jnodes: map<nat, Inode>, m: nat, ino: nat)
    requires UpTo(inodes, m) && ino !in inodes && Below(inodes, ino) && jnodes.Keys == inodes.Keys + {ino}
    ensures ino == m && UpTo(jnodes, m + 1)
  {
    assert m !in inodes;
    assert !(ino < m) && !(m < ino);
    forall i | 0 <= i < m + 1 ensures i in jnodes { assert i in jnodes.Keys; }
    forall f | f in jnodes ensures f < m + 1 { assert f in jnodes.Keys; }
  }

  function FileName(k: nat): (n: Name)
    requires k < 250
  {
    [97, 1 + k]
  }

  /** No name from k on is taken. */
  ghost predicate NamesLeft(m: map<Name, Entry>, k: nat) { forall j {:trigger FileName(j)} :: k <= j < 250 ==> FileName(j) !in m }

  /** A directory without a table and with fewer than 252 entries has room. */
  lemma HasRow(fs: Fs, dno: nat)
    requires fs.Valid() && dno in fs.dirs && |NamesOf(fs)[dno]| < 252
    ensures DirectRow(fs.disk, fs.inodes[dno]) && Room(fs.disk, fs.inodes[dno])
  {
    assert OkAt(fs.disk, fs.inodes, fs.dirs, dno);
    LiveRowsDict(RowsOf(fs.disk, fs.inodes[dno]));
    FewEntries(fs.disk, fs.inodes[dno]);
  }

  /** One more file. */
  method CreateOne(fs: Fs, parent: nat, name: Name, m: nat)
    requires InOrder(fs) && UpTo(fs.inodes, m) && m < 256 && NewName(fs, parent, name) && |NamesOf(fs)[parent]| < 252 && fs.Free() >= 2
    modifies fs`disk, fs`bytes, fs`ibytes, fs`inodes, fs`active
    ensures InOrder(fs) && UpTo(fs.inodes, m + 1) && fs.Free() >= old(fs.Free()) - 2 && old(fs.active) <= fs.active
    ensures NamesOf(fs) == old(NamesOf(fs))[parent := old(NamesOf(fs))[parent][name := Entry(name, m, 1)]]
    ensures Keeps(old(fs.disk), old(fs.inodes), fs.disk, fs.inodes, fs.table)
  {
    HasRow(fs, parent);
    NotFull(fs, m);
    ghost var inodes := fs.inodes;
    var r := CreateOrdered(fs, parent, name, Intact);
    NextNumber(inodes, fs.inodes, m, r.ino);
    if parent != 0 { assert inodes[0] == fs.inodes[0]; }
  }

  /** k files were added to one directory, under the names 0..k. */
  ghost predicate Grew(t0: Tables, t: Tables, parent: nat, k: nat) {
    && parent in t0 && parent in t && t == t0[parent := t[parent]] && NamesLeft(t[parent], k) && |t[parent]| == |t0[parent]| + k
    && forall c: Name {:trigger c in t[parent]} :: |c| == 1 ==> (c in t[parent] <==> c in t0[parent])
  }

  lemma GrewNone(t: Tables, parent: nat)
    requires parent in t && NamesLeft(t[parent], 0)
    ensures Grew(t, t, parent, 0)
  {
    assert t == t[parent := t[parent]];
  }

  lemma GrewOne(t0: Tables, t: Tables, u: Tables, parent: nat, k: nat, e: Entry)
    requires k < 250 && Grew(t0, t, parent, k) && u == t[parent := t[parent][FileName(k) := e]]
    ensures Grew(t0, u, parent, k + 1)
  {
    OneName(t[parent], u[parent], k, e);
    assert u == t0[parent := u[parent]];
  }

  lemma OneName(a: map<Name, Entry>, b: map<Name, Entry>, k: nat, e: Entry)
    requires k < 250 && NamesLeft(a, k) && b == a[FileName(k) := e]
    ensures NamesLeft(b, k + 1) && |b| == |a| + 1
  {
    assert FileName(k) !in a;
    assert b.Keys == a.Keys + {FileName(k)} && |b| == |b.Keys| && |a| == |a.Keys|;
    forall j | k + 1 <= j < 250 ensures FileName(j) !in b { assert FileName(j) != FileName(k) by { assert FileName(j)[1] != FileName(k)[1]; } }
  }

  /** What adding files keeps: the root's table pointer and the records from 256 on. */
  ghost predicate Keeps(d0: Disk, inodes0: map<nat, Inode>, d: Disk, inodes: map<nat, Inode>, table: nat) {
    && FarSame(d0, d, table) && 0 in inodes && 0 in inodes0 && |inodes[0].sectors| == 13 && |inodes0[0].sectors| == 13
    && inodes[0].sectors[12] == inodes0[0].sectors[12]
  }

  lemma KeepsThen(d0: Disk, inodes0: map<nat, Inode>, d1: Disk, inodes1: map<nat, Inode>, d: Disk, inodes: map<nat, Inode>, table: nat)
    requires Keeps(d0, inodes0, d1, inodes1, table) && Keeps(d1, inodes1, d, inodes, table)
    ensures Keeps(d0, inodes0, d, inodes, table)
  {
    FarTrans(d0, d1, d, table);
  }

  /** One more file. */
  method CreateNext(fs: Fs, parent: nat, k: nat, m: nat, ghost t0: Tables)
    requires InOrder(fs) && UpTo(fs.inodes, m) && m < 256 && k < 250 && parent in fs.dirs && fs.Free() >= 2
    requires Grew(t0, NamesOf(fs), parent, k) && |t0[parent]| + k < 252
    modifies fs`disk, fs`bytes, fs`ibytes, fs`inodes, fs`active
    ensures InOrder(fs) && UpTo(fs.inodes, m + 1) && fs.Free() >= old(fs.Free()) - 2 && old(fs.active) <= fs.active
    ensures Grew(t0, NamesOf(fs), parent, k + 1) && Keeps(old(fs.disk), old(fs.inodes), fs.disk, fs.inodes, fs.table)
  {
    ghost var t := NamesOf(fs);
    assert FileName(k) !in t[parent];
    CreateOne(fs, parent, FileName(k), m);
    GrewOne(t0, t, NamesOf(fs), parent, k, Entry(FileName(k), m, 1));
  }

  /** n files in one directory. */
  method CreateMany(fs: Fs, parent: nat, n: nat, m: nat)
    requires InOrder(fs) && UpTo(fs.inodes, m) && m + n <= 256 && n <= 250 && parent in fs.dirs && fs.Free() >= 2 * n
    requires |NamesOf(fs)[parent]| + n <= 252 && NamesLeft(NamesOf(fs)[parent], 0)
    modifies fs`disk, fs`bytes, fs`ibytes, fs`inodes, fs`active
    ensures InOrder(fs) && UpTo(fs.inodes, m + n) && fs.Free() >= old(fs.Free()) - 2 * n && old(fs.active) <= fs.active
    ensures Grew(old(NamesOf(fs)), NamesOf(fs), parent, n) && Keeps(old(fs.disk), old(fs.inodes), fs.disk, fs.inodes, fs.table)
  {
    ghost var t0 := NamesOf(fs);
    GrewNone(t0, parent);
    FarTable(fs.disk, fs.disk, fs.table);
    assert 0 in fs.inodes;
    var k := 0;
    while k < n
      invariant 0 <= k <= n && InOrder(fs) && UpTo(fs.inodes, m + k) && fs.Free() >= old(fs.Free()) - 2 * k && old(fs.active) <= fs.active
      invariant Grew(t0, NamesOf(fs), parent, k) && Keeps(old(fs.disk), old(fs.inodes), fs.disk, fs.inodes, fs.table)
    {
      ghost var d, inodes := fs.disk, fs.inodes;
      CreateNext(fs, parent, k, m + k, t0);
      KeepsThen(old(fs.disk), old(fs.inodes), d, inodes, fs.disk, fs.inodes, fs.table);
      k := k + 1;
    }
  }

  // ----- file 256 ------------------------------------------------------------------------------------------

  /** A partition with one directory below the root. */
  method TwoDirectories() returns (fs: Fs)
    ensures fresh(fs) && InOrder(fs) && UpTo(fs.inodes, 2) && fs.dirs == {0, 1} && 0 in fs.active && fs.Free() >= 8188
    ensures NamesOf(fs)[0] == DotsMap(0, 0)[[100] := Entry([100], 1, 2)] && NamesOf(fs)[1] == DotsMap(1, 0)
    ensures 0 in fs.inodes && fs.inodes[0].sectors[12] == 0 && Record(fs.disk, fs.table, 256) == ZeroRecord()
  {
    fs := NewPartition();
    ghost var d := fs.disk;
    NoNames(0, 0);
    FirstName(fs);
    HasRow(fs, 0);
    NotFull(fs, 1);
    FirstDirectory(fs);
    assert Record(fs.disk, fs.table, 256) == Record(d, fs.table, 256);
  }

  lemma FirstName(fs: Fs)
    requires fs.Valid() && NamesOf(fs)[0] == DotsMap(0, 0) && [100] !in DotsMap(0, 0)
    ensures NewName(fs, 0, [100])
  {
    var n: Name := [100];
    assert n[0] != 46;
  }

  method FirstDirectory(fs: Fs)
    requires InOrder(fs) && UpTo(fs.inodes, 1) && fs.dirs == {0} && fs.Free() >= 8191 && NamesOf(fs)[0] == DotsMap(0, 0)
    requires NewName(fs, 0, [100]) && DirectRow(fs.disk, fs.inodes[0]) && !Full(fs.IBits())
    modifies fs`disk, fs`bytes, fs`ibytes, fs`inodes, fs`dirs
    ensures InOrder(fs) && UpTo(fs.inodes, 2) && fs.dirs == {0, 1} && fs.Free() >= 8188
    ensures NamesOf(fs)[0] == DotsMap(0, 0)[[100] := Entry([100], 1, 2)] && NamesOf(fs)[1] == DotsMap(1, 0)
    ensures Keeps(old(fs.disk), old(fs.inodes), fs.disk, fs.inodes, fs.table)
  {
    ghost var inodes0 := fs.inodes;
    ghost var t := NamesOf(fs);
    var r := MkdirOrdered(fs, 0, [100], Intact);
    NextNumber(inodes0, fs.inodes, 1, r.ino);
    TwoTables(t, NamesOf(fs), Entry([100], 1, 2));
  }

  lemma TwoTables(t: Tables, u: Tables, e: Entry)
    requires 0 in t && t[0] == DotsMap(0, 0) && u == t[1 := DotsMap(1, 0)][0 := t[0][e.name := e]]
    ensures 0 in u && 1 in u && u[0] == DotsMap(0, 0)[e.name := e] && u[1] == DotsMap(1, 0)
  {
  }

  /** 256 inodes in the root and one directory below it. */
  method ManyFiles() returns (fs: Fs)
    ensures fresh(fs) && InOrder(fs) && UpTo(fs.inodes, 256) && 0 in fs.dirs && 0 in fs.active && fs.Free() >= 2
    ensures NamesLeft(NamesOf(fs)[0], 54) && |NamesOf(fs)[0]| < 252
    ensures 0 in fs.inodes && fs.inodes[0].sectors[12] == 0 && Record(fs.disk, fs.table, 256) == ZeroRecord()
  {
    fs := TwoDirectories();
    ghost var t := NamesOf(fs);
    NoNames(1, 0);
    MoreNames();
    CreateMany(fs, 1, 200, 2);
    assert NamesOf(fs)[0] == t[0];
    CreateMany(fs, 0, 54, 202);
  }

  lemma NoNames(self: nat, parent: nat)
    ensures NamesLeft(DotsMap(self, parent), 0) && |DotsMap(self, parent)| == 2
    ensures [98] !in DotsMap(self, parent) && [99] !in DotsMap(self, parent) && [100] !in DotsMap(self, parent)
  {
    assert [98][0] != 46 && [99][0] != 46 && [100][0] != 46;
  }

  /** 250 files beside "." and "..". */
  lemma Entries(t0: Tables, t: Tables)
    requires Grew(t0, t, 0, 250) && t0[0] == DotsMap(0, 0)
    ensures |t[0]| == 252 && [98] !in t[0] && [99] !in t[0]
  {
    NoNames(0, 0);
    assert |[98]| == 1 && |[99]| == 1;
  }

  lemma MoreNames()
    ensures NamesLeft(DotsMap(0, 0)[[100] := Entry([100], 1, 2)], 0) && |DotsMap(0, 0)[[100] := Entry([100], 1, 2)]| == 3
  {
  }

  /** The 257th inode: its sync goes to the record of the root, its own record stays zero, and
      once it is closed nothing can unlink it; the ASSERT at fs/inode.c line 192 stops the
      kernel. */
  method OneTooMany() returns (fs: Fs, r: Unlinked)
    ensures r == Kept(Stopped)
  {
    fs := ManyFiles();
    var ino := CreateFar(fs);
    r := UnlinkFar(fs);
  }

  method UnlinkFar(fs: Fs) returns (r: Unlinked)
    requires Sound(fs) && 0 in fs.active && 0 in fs.dirs && 256 in fs.inodes && 256 !in fs.dirs
    requires FileName(54) in NamesOf(fs)[0] && NamesOf(fs)[0][FileName(54)] == Entry(FileName(54), 256, 1)
    requires !StuckEntry(fs, 0, FileName(54)) && Decode(Record(fs.disk, fs.table, 256)).no == 0
    modifies fs`disk, fs`bytes, fs`ibytes, fs`inodes, fs`dirs, fs`active
    ensures r == Kept(Stopped)
  {
    CloseFile(fs, 256);
    r := SysUnlink(fs, 0, FileName(54), Intact);
  }

  method CreateFar(fs: Fs) returns (ino: nat)
    requires InOrder(fs) && UpTo(fs.inodes, 256) && 0 in fs.dirs && 0 in fs.active && fs.Free() >= 2
    requires NamesLeft(NamesOf(fs)[0], 54) && |NamesOf(fs)[0]| < 252
    requires 0 in fs.inodes && fs.inodes[0].sectors[12] == 0 && Record(fs.disk, fs.table, 256) == ZeroRecord()
    modifies fs`disk, fs`bytes, fs`ibytes, fs`inodes, fs`active
    ensures ino == 256 && Sound(fs) && !Recorded(fs.disk, fs.table, fs.inodes) && 0 in fs.active && 0 in fs.dirs && 256 in fs.inodes
    ensures FileName(54) in NamesOf(fs)[0] && NamesOf(fs)[0][FileName(54)] == Entry(FileName(54), 256, 1) && 256 !in fs.dirs
    ensures !StuckEntry(fs, 0, FileName(54)) && Decode(Record(fs.disk, fs.table, 256)).no == 0
  {
    ghost var inodes := fs.inodes;
    assert FileName(54) !in NamesOf(fs)[0];
    HasRow(fs, 0);
    NotFull(fs, 256);
    var r := CreateOrdered(fs, 0, FileName(54), Intact);
    ino := r.ino;
    NextNumber(inodes, fs.inodes, 256, ino);
    assert Record(fs.disk, fs.table, 256) == ZeroRecord();
    ZeroNumber();
    NothingBehind(fs.disk, fs.inodes[0], 256);
  }

  /** Without a table nothing is stuck behind it. */
  lemma NothingBehind(d: Disk, f: Inode, ino: nat)
    requires |f.sectors| == 13 && f.sectors[12] == 0
    ensures !Stuck(d, Slots(d, f.sectors), ino)
  {
  }

  // ----- the 251st entry --------------------------------------------------------------------------------------

  /** A root whose direct blocks are full. */
  method FullRoot() returns (fs: Fs)
    ensures fresh(fs) && InOrder(fs) && UpTo(fs.inodes, 251) && 0 in fs.dirs && 0 in fs.active && fs.Free() >= 4
    ensures [98] !in NamesOf(fs)[0] && [99] !in NamesOf(fs)[0] && 0 in fs.inodes && fs.inodes[0].sectors[12] == 0
    ensures !DirectRow(fs.disk, fs.inodes[0])
  {
    fs := NewPartition();
    ghost var t := NamesOf(fs);
    NoNames(0, 0);
    CreateMany(fs, 0, 250, 1);
    Entries(t, NamesOf(fs));
    NoRow(fs, 0);
  }

  /** With 252 entries and no table, every direct row is taken. */
  lemma NoRow(fs: Fs, dno: nat)
    requires fs.Valid() && dno in fs.dirs && |NamesOf(fs)[dno]| == 252 && fs.inodes[dno].sectors[12] == 0
    ensures !DirectRow(fs.disk, fs.inodes[dno])
  {
    var f := fs.inodes[dno];
    var r := RowsOf(fs.disk, f);
    assert OkAt(fs.disk, fs.inodes, fs.dirs, dno);
    LiveRowsDict(r);
    AllCounted(fs.disk, f, 12);
    forall k | 0 <= k < 252 ensures Live(r[k]) {
      AllLive(r[..252], k);
      assert r[..252][k] == r[k];
    }
  }

  lemma {:induction false} AllLive(r: seq<Entry>, k: nat)
    requires Count(r) == |r| && k < |r|
    ensures Live(r[k])
  {
    var n := |r| - 1;
    if k < n {
      AllLive(r[..n], k);
      assert r[..n][k] == r[k];
    }
  }

  /** The entry that overflows them. */
  method Overfull() returns (fs: Fs)
    ensures fresh(fs) && InOrder(fs) && 0 in fs.dirs && 0 in fs.active && fs.Free() >= 2 && [99] !in NamesOf(fs)[0] && UpTo(fs.inodes, 252)
    ensures [98] in NamesOf(fs)[0] && NamesOf(fs)[0][[98]] == Entry([98], 251, 1) && 251 !in fs.dirs && Spilt(fs.disk, fs.inodes[0], 251)
  {
    fs := FullRoot();
    AddOver(fs);
  }

  method AddOver(fs: Fs)
    requires InOrder(fs) && UpTo(fs.inodes, 251) && 0 in fs.dirs && 0 in fs.active && fs.Free() >= 4
    requires [98] !in NamesOf(fs)[0] && [99] !in NamesOf(fs)[0] && 0 in fs.inodes && fs.inodes[0].sectors[12] == 0 && !DirectRow(fs.disk, fs.inodes[0])
    modifies fs`disk, fs`bytes, fs`ibytes, fs`inodes, fs`active
    ensures InOrder(fs) && 0 in fs.active && fs.Free() >= 2 && [99] !in NamesOf(fs)[0] && UpTo(fs.inodes, 252)
    ensures [98] in NamesOf(fs)[0] && NamesOf(fs)[0][[98]] == Entry([98], 251, 1) && 251 !in fs.dirs && Spilt(fs.disk, fs.inodes[0], 251)
  {
    ghost var inodes := fs.inodes;
    NotFull(fs, 251);
    var r := CreateOrdered(fs, 0, [98], Intact);
    NextNumber(inodes, fs.inodes, 251, r.ino);
  }

  /** Unlinking it never returns. */
  method NeverUnlinked() returns (fs: Fs, r: Unlinked)
    ensures r == Hung
  {
    fs := Overfull();
    CloseFile(fs, 251);
    assert fs.Loads(0);
    r := SysUnlink(fs, 0, [98], Intact);
  }

  /** One more entry makes the table a block that nobody owns: the file system is no longer in
      order. */
  method OverfullTwice() returns (fs: Fs, r: Made)
    ensures r.Made? && !fs.Valid()
  {
    fs := Overfull();
    NotFull(fs, 252);
    assert fs.Loads(0);
    r := FileCreate(fs, 0, [99], Intact);
  }
}
