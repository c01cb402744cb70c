/** When the inode table on disk agrees with the inodes: an inode that is not open is read
    from its record, so the calls of the file system are right only as long as it does.

    What keeps it so: syncing numbers below 256, and syncs whose short buffer is not
    overwritten from behind in a byte that belongs to an inode in use. */
module Records {
  import opened Files
  import opened InodeTable

  /** The record of an inode. */
  function NodeOf(ino: nat, f: Inode): (n: Node) { Node(ino, f.size, f.sectors) }

  /** The record of number f is that of the inode. */
  ghost predicate RecordedAt(d: Disk, table: nat, f: nat, node: Inode) {
    |node.sectors| == 13 && Record(d, table, f) == RecordBytes(NodeOf(f, node))
  }

  ghost predicate RecordedBut(d: Disk, table: nat, inodes: map<nat, Inode>, x: set<nat>) {
    forall f {:trigger RecordedAt(d, table, f, inodes[f])} :: f in inodes && f !in x ==> RecordedAt(d, table, f, inodes[f])
  }

  /** Every inode's record is on the disk. */
  ghost predicate Recorded(d: Disk, table: nat, inodes: map<nat, Inode>) { RecordedBut(d, table, inodes, {}) }

  /** Every number fits eight bits. */
  ghost predicate Small(inodes: map<nat, Inode>) { forall f {:trigger f in inodes} :: f in inodes ==> f < 256 }

  /** Every number below n is in use. */
  ghost predicate Below(inodes: map<nat, Inode>, n: nat) { forall i {:trigger i in inodes} :: 0 <= i < n ==> i in inodes }

  /** The inode table is the same on both disks. */
  ghost predicate TableSame(d: Disk, e: Disk, table: nat) {
    forall x {:trigger SectorAt(e, x)} :: table <= x < table + 608 ==> SectorAt(e, x) == SectorAt(d, x)
  }

  /** No record from number 256 on changed. */
  ghost predicate FarSame(d: Disk, e: Disk, table: nat) {
    forall j {:trigger Record(e, table, j)} :: 256 <= j < 4096 ==> Record(e, table, j) == Record(d, table, j)
  }

  lemma FarTable(d: Disk, e: Disk, table: nat)
    requires TableSame(d, e, table)
    ensures FarSame(d, e, table)
  {
    forall j | 256 <= j < 4096 ensures Record(e, table, j) == Record(d, table, j) { RecordStays(d, e, table, j); }
  }

  lemma FarSync(d: Disk, e: Disk, table: nat, i: nat, rec: seq<Byte>)
    requires i < 256 && OnlyRecord(d, e, table, i, rec)
    ensures FarSame(d, e, table)
  {
    forall j | 256 <= j < 4096 ensures Record(e, table, j) == Record(d, table, j) { OneRecord(d, e, table, i, rec, j); }
  }

  lemma FarTrans(d: Disk, e: Disk, f: Disk, table: nat)
    requires FarSame(d, e, table) && FarSame(e, f, table)
    ensures FarSame(d, f, table)
  {
    forall j | 256 <= j < 4096 ensures Record(f, table, j) == Record(d, table, j) { assert Record(e, table, j) == Record(d, table, j); }
  }

  lemma BlockOnly(d: Disk, lba: nat, s: Sector, table: nat)
    requires table + 608 <= lba
    ensures TableSame(d, d[lba := s], table)
  {
  }

  lemma RecordStays(d: Disk, e: Disk, table: nat, f: nat)
    requires TableSame(d, e, table) && f < 4096
    ensures Record(e, table, f) == Record(d, table, f)
  {
    forall a | 0 <= a < 76 ensures Record(e, table, f)[a] == Record(d, table, f)[a] {
      assert (76 * f + a) / 512 < 608;
      assert TableByte(e, table, 76 * f + a) == TableByte(d, table, 76 * f + a);
    }
  }

  /** Changes outside the table leave the records of the inodes that stay the same. */
  lemma DataKeeps(d: Disk, e: Disk, table: nat, inodes: map<nat, Inode>, jnodes: map<nat, Inode>, x: set<nat>)
    requires TableSame(d, e, table) && RecordedBut(d, table, inodes, x)
    requires forall f {:trigger jnodes[f]} :: f in jnodes && f !in x ==> f in inodes && jnodes[f] == inodes[f] && f < 4096
    ensures RecordedBut(e, table, jnodes, x)
  {
    forall f | f in jnodes && f !in x ensures RecordedAt(e, table, f, jnodes[f]) {
      assert f in inodes && jnodes[f] == inodes[f];
      assert RecordedAt(d, table, f, inodes[f]);
      RecordStays(d, e, table, f);
    }
  }

  /** What a record read back gives. */
  lemma ReadsBack(d: Disk, table: nat, f: nat, node: Inode)
    requires RecordedAt(d, table, f, node) && Fits(NodeOf(f, node))
    ensures Decode(Record(d, table, f)) == NodeOf(f, node)
  {
    DecodeRecord(NodeOf(f, node));
  }

  // ----- a sync whose buffer suffices ------------------------------------------------------------------

  /** A sync of a number below 256 puts that record in place, and leaves the others. */
  lemma SyncKeeps(d: Disk, e: Disk, table: nat, inodes: map<nat, Inode>, n: nat, x: set<nat>, y: set<nat>)
    requires n in inodes && |inodes[n].sectors| == 13 && n < 256 && RecordedBut(d, table, inodes, x) && forall f :: f in x ==> f == n || f in y
    requires OnlyRecord(d, e, table, SyncSlot(n), RecordBytes(NodeOf(n, inodes[n])))
    ensures RecordedBut(e, table, inodes, y)
  {
    forall f | f in inodes && f !in y ensures RecordedAt(e, table, f, inodes[f]) {
      OneRecord(d, e, table, SyncSlot(n), RecordBytes(NodeOf(n, inodes[n])), f);
      if f != n { assert RecordedAt(d, table, f, inodes[f]); }
    }
  }

  lemma OneRecord(d: Disk, e: Disk, table: nat, i: nat, rec: seq<Byte>, f: nat)
    requires OnlyRecord(d, e, table, i, rec)
    ensures Record(e, table, f) == if f == i then rec else Record(d, table, f)
  {
  }

  /** A change of one inode and its sync. */
  lemma ChangeKeeps(d: Disk, mid: Disk, e: Disk, table: nat, inodes: map<nat, Inode>, jnodes: map<nat, Inode>, n: nat)
    requires Recorded(d, table, inodes) && TableSame(d, mid, table) && n in jnodes && n < 256 && |jnodes[n].sectors| == 13
    requires forall f {:trigger jnodes[f]} :: f in jnodes && f != n ==> f in inodes && jnodes[f] == inodes[f] && f < 4096
    requires OnlyRecord(mid, e, table, SyncSlot(n), RecordBytes(NodeOf(n, jnodes[n])))
    ensures Recorded(e, table, jnodes)
  {
    DataKeeps(d, mid, table, inodes, jnodes, {n});
    SyncKeeps(mid, e, table, jnodes, n, {n}, {});
  }

  /** A sync of a number from 256 on spoils the record of the inode with the same last eight
      bits. */
  lemma SyncSpoils(d: Disk, e: Disk, table: nat, inodes: map<nat, Inode>, n: nat)
    requires n in inodes && n >= 256 && SyncSlot(n) in inodes
    requires Fits(NodeOf(n, inodes[n])) && Fits(NodeOf(SyncSlot(n), inodes[SyncSlot(n)]))
    requires OnlyRecord(d, e, table, SyncSlot(n), RecordBytes(NodeOf(n, inodes[n])))
    ensures !Recorded(e, table, inodes)
  {
    var i := SyncSlot(n);
    OneRecord(d, e, table, i, RecordBytes(NodeOf(n, inodes[n])), i);
    DecodeRecord(NodeOf(n, inodes[n]));
    DecodeRecord(NodeOf(i, inodes[i]));
    assert !RecordedAt(e, table, i, inodes[i]);
  }

  /** A released record is nobody's. */
  lemma ReleaseKeepsRecords(d: Disk, e: Disk, table: nat, inodes: map<nat, Inode>, n: nat, x: set<nat>)
    requires RecordedBut(d, table, inodes, x) && OnlyRecord(d, e, table, n, ZeroRecord())
    ensures RecordedBut(e, table, inodes - {n}, x)
  {
    var jnodes := inodes - {n};
    forall f | f in jnodes && f !in x ensures RecordedAt(e, table, f, jnodes[f]) {
      assert jnodes[f] == inodes[f] && RecordedAt(d, table, f, inodes[f]);
      OneRecord(d, e, table, n, ZeroRecord(), f);
    }
  }

  // ----- a sync through a short buffer --------------------------------------------------------------------

  /** Byte k of the second sector belongs to the record of an inode in use. */
  predicate InUse(inodes: map<nat, Inode>, i: nat, k: nat)
    requires i < 4096
  {
    ((Locate(i).sec + 1) * 512 + k) / 76 in inodes
  }

  /** The memory behind the buffer agrees with what was read wherever an inode in use lies. */
  ghost predicate TailFits(d: Disk, table: nat, inodes: map<nat, Inode>, i: nat, rec: seq<Byte>, tail: Tail)
    requires i < 4096 && |rec| == 76 && Locate(i).two_sec
  {
    var io := TwoSectors(d, table, i, rec);
    forall k {:trigger Second(io, tail)[k]} :: 0 <= k < 512 && InUse(inodes, i, k) ==> Second(io, tail)[k] == io[512 + k]
  }

  lemma IntactFits(d: Disk, table: nat, inodes: map<nat, Inode>, i: nat, rec: seq<Byte>)
    requires i < 4096 && |rec| == 76 && Locate(i).two_sec
    ensures TailFits(d, table, inodes, i, rec, Intact)
  {
  }

  /** The same for any record, straddling or not. */
  ghost predicate TailOk(d: Disk, table: nat, inodes: map<nat, Inode>, i: nat, rec: seq<Byte>, tail: Tail) {
    i < 4096 && |rec| == 76 && (Locate(i).two_sec ==> TailFits(d, table, inodes, i, rec, tail))
  }

  /** A sync through a short buffer keeps the table right exactly if the memory behind the
      buffer fits. */
  lemma ShortSyncKeeps(d: Disk, table: nat, inodes: map<nat, Inode>, n: nat, tail: Tail)
    requires n in inodes && |inodes[n].sectors| == 13 && n < 256 && Locate(n).two_sec && RecordedBut(d, table, inodes, {n})
    ensures Recorded(ShortSync(d, table, n, RecordBytes(NodeOf(n, inodes[n])), tail), table, inodes)
            <==> TailFits(d, table, inodes, n, RecordBytes(NodeOf(n, inodes[n])), tail)
  {
    var rec := RecordBytes(NodeOf(n, inodes[n]));
    IntactKeeps(d, table, inodes, n);
    if TailFits(d, table, inodes, n, rec, tail) { FitsThere(d, table, inodes, n, rec, tail); }
    if Recorded(ShortSync(d, table, n, rec, tail), table, inodes) { FitsBack(d, table, inodes, n, rec, tail); }
  }

  lemma IntactKeeps(d: Disk, table: nat, inodes: map<nat, Inode>, n: nat)
    requires n in inodes && |inodes[n].sectors| == 13 && n < 256 && Locate(n).two_sec && RecordedBut(d, table, inodes, {n})
    ensures Recorded(ShortSync(d, table, n, RecordBytes(NodeOf(n, inodes[n])), Intact), table, inodes)
  {
    var rec := RecordBytes(NodeOf(n, inodes[n]));
    IntactOnly(d, table, n, rec);
    SyncAll(d, ShortSync(d, table, n, rec, Intact), table, inodes, n, rec);
  }

  lemma SyncAll(d: Disk, e: Disk, table: nat, inodes: map<nat, Inode>, n: nat, rec: seq<Byte>)
    requires n in inodes && |inodes[n].sectors| == 13 && n < 256 && RecordedBut(d, table, inodes, {n})
    requires rec == RecordBytes(NodeOf(n, inodes[n])) && OnlyRecord(d, e, table, n, rec)
    ensures Recorded(e, table, inodes)
  {
    SyncKeeps(d, e, table, inodes, n, {n}, {});
  }

  lemma IntactOnly(d: Disk, table: nat, i: nat, rec: seq<Byte>)
    requires i < 4096 && |rec| == 76 && Locate(i).two_sec
    ensures OnlyRecord(d, ShortSync(d, table, i, rec, Intact), table, i, rec)
  {
    IntactPatches(d, table, i, rec);
    PatchedOnly(d, ShortSync(d, table, i, rec, Intact), table, i, rec);
  }

  lemma FitsThere(d: Disk, table: nat, inodes: map<nat, Inode>, i: nat, rec: seq<Byte>, tail: Tail)
    requires i < 4096 && |rec| == 76 && Locate(i).two_sec && TailFits(d, table, inodes, i, rec, tail)
    requires Recorded(ShortSync(d, table, i, rec, Intact), table, inodes)
    ensures Recorded(ShortSync(d, table, i, rec, tail), table, inodes)
  {
    var e, good := ShortSync(d, table, i, rec, tail), ShortSync(d, table, i, rec, Intact);
    forall f | f in inodes ensures RecordedAt(e, table, f, inodes[f]) {
      assert RecordedAt(good, table, f, inodes[f]);
      FittingRecord(d, table, inodes, i, rec, tail, f);
    }
  }

  /** With a fitting tail, the record of an inode in use is as with an intact one. */
  lemma FittingRecord(d: Disk, table: nat, inodes: map<nat, Inode>, i: nat, rec: seq<Byte>, tail: Tail, f: nat)
    requires i < 4096 && |rec| == 76 && Locate(i).two_sec && f in inodes && TailFits(d, table, inodes, i, rec, tail)
    ensures Record(ShortSync(d, table, i, rec, tail), table, f) == Record(ShortSync(d, table, i, rec, Intact), table, f)
  {
    var e, good := ShortSync(d, table, i, rec, tail), ShortSync(d, table, i, rec, Intact);
    var sec := Locate(i).sec + 1;
    forall a | 0 <= a < 76 ensures Record(e, table, f)[a] == Record(good, table, f)[a] {
      var q := 76 * f + a;
      if q / 512 == sec {
        var k := q - sec * 512;
        assert q / 76 == f && InUse(inodes, i, k);
        SecondByte(d, table, i, rec, tail, k);
        SecondByte(d, table, i, rec, Intact, k);
      } else {
        OtherByte(d, table, i, rec, tail, q);
      }
    }
  }

  lemma FitsBack(d: Disk, table: nat, inodes: map<nat, Inode>, i: nat, rec: seq<Byte>, tail: Tail)
    requires i < 4096 && |rec| == 76 && Locate(i).two_sec
    requires Recorded(ShortSync(d, table, i, rec, tail), table, inodes) && Recorded(ShortSync(d, table, i, rec, Intact), table, inodes)
    ensures TailFits(d, table, inodes, i, rec, tail)
  {
    var e, good, io := ShortSync(d, table, i, rec, tail), ShortSync(d, table, i, rec, Intact), TwoSectors(d, table, i, rec);
    forall k | 0 <= k < 512 && InUse(inodes, i, k) ensures Second(io, tail)[k] == io[512 + k] {
      var q := (Locate(i).sec + 1) * 512 + k;
      var f := q / 76;
      assert RecordedAt(e, table, f, inodes[f]) && RecordedAt(good, table, f, inodes[f]);
      SameByte(e, good, table, f, q);
      SecondByte(d, table, i, rec, tail, k);
      SecondByte(d, table, i, rec, Intact, k);
    }
  }

  lemma SameByte(d: Disk, e: Disk, table: nat, f: nat, q: nat)
    requires Record(d, table, f) == Record(e, table, f) && f == q / 76
    ensures TableByte(d, table, q) == TableByte(e, table, q)
  {
    var a := q % 76;
    assert q == 76 * f + a;
    assert Record(d, table, f)[a] == TableByte(d, table, q) && Record(e, table, f)[a] == TableByte(e, table, q);
  }

  /** The sectors written for numbers below 256 hold no record from 256 on. */
  lemma FarRecord(d: Disk, table: nat, i: nat, rec: seq<Byte>, tail: Tail, f: nat)
    requires i < 256 && |rec| == 76 && Locate(i).two_sec && f >= 256
    ensures Record(ShortSync(d, table, i, rec, tail), table, f) == Record(d, table, f)
  {
    var e := ShortSync(d, table, i, rec, tail);
    assert Locate(i).sec + 1 < 38;
    forall a | 0 <= a < 76 ensures Record(e, table, f)[a] == Record(d, table, f)[a] {
      assert (76 * f + a) / 512 >= 38;
      assert TableByte(e, table, 76 * f + a) == TableByte(d, table, 76 * f + a);
    }
  }

  /** For example, a buffer behind which zeros come to lie, when inode 6 is synced while inode 7
      is in use: the record of inode 7 is spoilt. */
  lemma ClobberedSeven(d: Disk, table: nat, inodes: map<nat, Inode>)
    requires 6 in inodes && 7 in inodes && |inodes[6].sectors| == 13 && RecordedBut(d, table, inodes, {6})
    ensures Locate(6).two_sec
    ensures !Recorded(ShortSync(d, table, 6, RecordBytes(NodeOf(6, inodes[6])), Clobbered(Blank())), table, inodes)
  {
    var rec := RecordBytes(NodeOf(6, inodes[6]));
    assert Locate(6) == Position(true, 0, 456);
    var io := TwoSectors(d, table, 6, rec);
    assert RecordedAt(d, table, 7, inodes[7]);
    assert Record(d, table, 7)[0] == ByteOf(7, 0) == 7;
    assert Record(d, table, 7)[0] == TableByte(d, table, 532) == SectorAt(d, table + 1)[20];
    SpliceAt(SectorAt(d, table) + SectorAt(d, table + 1), 456, rec, 532);
    assert io[512 + 20] == 7 && Second(io, Clobbered(Blank()))[20] == 0 && InUse(inodes, 6, 20);
    ShortSyncKeeps(d, table, inodes, 6, Clobbered(Blank()));
  }

  // ----- a new file system ----------------------------------------------------------------------------------

  /** An inode table of zeros, but for the record of the root. */
  method WriteTable(disk: Disk, table: nat, root: Inode) returns (e: Disk)
    requires |root.sectors| == 13
    ensures OutsideSame(disk, e, table) && RecordedAt(e, table, 0, root)
    ensures forall f {:trigger Record(e, table, f)} :: 0 < f < 4096 ==> Record(e, table, f) == ZeroRecord()
  {
    var blank := Zeroed(disk, table, 608);
    e := PutRecord(blank, table, 0, RecordBytes(NodeOf(0, root)));
    OneRecord(blank, e, table, 0, RecordBytes(NodeOf(0, root)), 0);
    forall x: nat | x < table || table + 608 <= x ensures SectorAt(e, x) == SectorAt(disk, x) { assert SectorAt(e, x) == SectorAt(blank, x); }
    forall f | 0 < f < 4096 ensures Record(e, table, f) == ZeroRecord() {
      OneRecord(blank, e, table, 0, RecordBytes(NodeOf(0, root)), f);
      BlankRecord(blank, table, f);
    }
  }

  /** n sectors of zeros. */
  method Zeroed(disk: Disk, from: nat, n: nat) returns (e: Disk)
    ensures forall x: nat {:trigger SectorAt(e, x)} :: SectorAt(e, x) == if from <= x < from + n then Blank() else SectorAt(disk, x)
  {
    e := disk;
    var k := 0;
    while k < n
      invariant 0 <= k <= n
      invariant forall x: nat {:trigger SectorAt(e, x)} :: SectorAt(e, x) == if from <= x < from + k then Blank() else SectorAt(disk, x)
    {
      ghost var before := e;
      e := e[from + k := Blank()];
      assert forall x: nat {:trigger SectorAt(e, x)} :: SectorAt(e, x) == if x == from + k then Blank() else SectorAt(before, x);
      k := k + 1;
    }
  }

  lemma BlankRecord(d: Disk, table: nat, f: nat)
    requires f < 4096 && forall x {:trigger SectorAt(d, x)} :: table <= x < table + 608 ==> SectorAt(d, x) == Blank()
    ensures Record(d, table, f) == ZeroRecord()
  {
    forall a | 0 <= a < 76 ensures Record(d, table, f)[a] == 0 {
      assert (76 * f + a) / 512 < 608;
      assert TableByte(d, table, 76 * f + a) == Blank()[(76 * f + a) % 512];
    }
  }

  /** A record of zeros carries number 0. */
  lemma ZeroNumber()
    ensures Decode(ZeroRecord()).no == 0
  {
  }
}
