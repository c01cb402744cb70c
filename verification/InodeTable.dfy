/** The packed inode table of fs/inode.c: 76-byte records, one after another, over 512-byte
    sectors, and the list of open inodes.

    The table is seen as one row of bytes; record j is the 76 bytes from 76*j on. */
module InodeTable {
  import opened Files

  /** The fields that reach the disk. */
  datatype Node = Node(no: nat, size: nat, sectors: seq<nat>)

  ghost predicate Fits(n: Node) {
    |n.sectors| == 13 && n.no < 0x1_0000_0000 && n.size < 0x1_0000_0000
    && forall i {:trigger n.sectors[i]} :: 0 <= i < 13 ==> n.sectors[i] < 0x1_0000_0000
  }

  // ----- records ---------------------------------------------------------------------------

  /** The 19 words of the record: i_open_cnts, write_deny and the list tag are 0. */
  function Words(n: Node): (w: seq<nat>)
    requires |n.sectors| == 13
    ensures |w| == 19
  {
    [n.no, n.size, 0, 0] + n.sectors + [0, 0]
  }

  function RecordBytes(n: Node): (b: seq<Byte>)
    requires |n.sectors| == 13
    ensures |b| == 76
  {
    seq(76, k requires 0 <= k < 76 => ByteOf(Words(n)[k / 4], k % 4))
  }

  function WordIn(b: seq<Byte>, i: nat): (w: nat)
    requires 4 * i + 4 <= |b|
  {
    (b[4 * i] as int) + 256 * (b[4 * i + 1] as int) + 65536 * (b[4 * i + 2] as int) + 16777216 * (b[4 * i + 3] as int)
  }

  function Decode(b: seq<Byte>): (n: Node)
    requires |b| == 76
  {
    Node(WordIn(b, 0), WordIn(b, 1), seq(13, i requires 0 <= i < 13 => WordIn(b, 4 + i)))
  }

  lemma WordBack(n: Node, i: nat)
    requires Fits(n) && i < 19
    ensures WordIn(RecordBytes(n), i) == Words(n)[i]
  {
    var b, w := RecordBytes(n), Words(n)[i];
    assert b[4 * i] == ByteOf(w, 0) && b[4 * i + 1] == ByteOf(w, 1);
    assert b[4 * i + 2] == ByteOf(w, 2) && b[4 * i + 3] == ByteOf(w, 3);
    WordFits(n, i);
    BytesOfWord(w);
  }

  lemma WordFits(n: Node, i: nat)
    requires Fits(n) && i < 19
    ensures Words(n)[i] < 0x1_0000_0000
  {
    if 4 <= i < 17 { assert Words(n)[i] == n.sectors[i - 4]; }
  }

  /** Where the fields of `struct inode` lie, word by word: i_no, i_size, i_open_cnts and
      write_deny, the 13 of i_sectors, and the two of inode_tag. */
  lemma RecordLayout(n: Node)
    requires Fits(n)
    ensures var b := RecordBytes(n);
            && WordIn(b, 0) == n.no && WordIn(b, 1) == n.size && WordIn(b, 2) == 0 && WordIn(b, 3) == 0
            && (forall i {:trigger n.sectors[i]} :: 0 <= i < 13 ==> WordIn(b, 4 + i) == n.sectors[i])
            && WordIn(b, 17) == 0 && WordIn(b, 18) == 0
  {
    WordBack(n, 0);
    WordBack(n, 1);
    WordBack(n, 2);
    WordBack(n, 3);
    WordBack(n, 17);
    WordBack(n, 18);
    forall i | 0 <= i < 13 ensures WordIn(RecordBytes(n), 4 + i) == n.sectors[i] { SectorWord(n, i); }
  }

  lemma SectorWord(n: Node, i: nat)
    requires Fits(n) && i < 13
    ensures WordIn(RecordBytes(n), 4 + i) == n.sectors[i]
  {
    WordBack(n, 4 + i);
    assert Words(n)[4 + i] == n.sectors[i];
  }

  /** What a record stores is read back. */
  lemma DecodeRecord(n: Node)
    requires Fits(n)
    ensures Decode(RecordBytes(n)) == n
  {
    WordBack(n, 0);
    WordBack(n, 1);
    var s := Decode(RecordBytes(n)).sectors;
    forall i | 0 <= i < 13 ensures s[i] == n.sectors[i] { SectorWord(n, i); }
    assert s == n.sectors;
  }

  // ----- where a record lies ---------------------------------------------------------------------

  /** `inode_locate`, relative to the start of the table. */
  datatype Position = Position(two_sec: bool, sec: nat, off: nat)

  function Locate(no: nat): (p: Position)
    requires no < 4096
  {
    var off := no * 76;
    Position(512 - off % 512 < 76, off / 512, off % 512)
  }

  /** A record lies inside the sectors that are read and written for it, and those inside
      the 608 sectors of the table. */
  lemma LocateFits(no: nat)
    requires no < 4096
    ensures var p := Locate(no);
            && p.sec * 512 + p.off == no * 76
            && (p.two_sec <==> p.off + 76 > 512) && p.off + 76 <= (if p.two_sec then 1024 else 512)
            && p.sec + (if p.two_sec then 2 else 1) <= 608
  {
  }

  /** Byte k of the table. */
  function TableByte(d: Disk, base: nat, k: nat): (b: Byte) { SectorAt(d, base + k / 512)[k % 512] }

  function Record(d: Disk, base: nat, j: nat): (b: seq<Byte>)
    ensures |b| == 76
  {
    seq<Byte>(76, i requires 0 <= i < 76 => TableByte(d, base, 76 * j + i))
  }

  /** Two records share no byte. */
  lemma RecordsApart(i: nat, j: nat, a: nat)
    requires i != j && a < 76
    ensures !(76 * i <= 76 * j + a < 76 * i + 76)
  {
    assert j < i ==> 76 * j + 76 <= 76 * i;
    assert i < j ==> 76 * i + 76 <= 76 * j;
  }

  // ----- reading and writing it ---------------------------------------------------------------------

  /** e is d with the bytes from `from` on replaced by b. */
  ghost predicate Patched(d: Disk, e: Disk, base: nat, from: nat, b: seq<Byte>) {
    BytesPatched(d, e, base, from, b) && OutsideSame(d, e, base)
  }

  ghost predicate BytesPatched(d: Disk, e: Disk, base: nat, from: nat, b: seq<Byte>) {
    forall k: nat {:trigger TableByte(e, base, k)} ::
      TableByte(e, base, k) == if from <= k < from + |b| then b[k - from] else TableByte(d, base, k)
  }

  /** No sector outside the table changed. */
  ghost predicate OutsideSame(d: Disk, e: Disk, base: nat) {
    forall x: nat {:trigger SectorAt(e, x)} :: x < base || base + 608 <= x ==> SectorAt(e, x) == SectorAt(d, x)
  }

  function Splice(s: seq<Byte>, off: nat, b: seq<Byte>): (r: seq<Byte>)
    requires off + |b| <= |s|
    ensures |r| == |s|
  {
    s[..off] + b + s[off + |b|..]
  }

  lemma SpliceAt(s: seq<Byte>, off: nat, b: seq<Byte>, k: nat)
    requires off + |b| <= |s| && k < |s|
    ensures Splice(s, off, b)[k] == if off <= k < off + |b| then b[k - off] else s[k]
  {
  }

  lemma PatchOne(d: Disk, base: nat, sec: nat, off: nat, b: seq<Byte>)
    requires off + |b| <= 512 && sec < 608
    ensures Patched(d, d[base + sec := Splice(SectorAt(d, base + sec), off, b)], base, sec * 512 + off, b)
  {
    var e := d[base + sec := Splice(SectorAt(d, base + sec), off, b)];
    var from := sec * 512 + off;
    assert OutsideSame(d, e, base);
    forall k: nat ensures TableByte(e, base, k) == if from <= k < from + |b| then b[k - from] else TableByte(d, base, k) {
      if k / 512 == sec {
        assert k == sec * 512 + k % 512;
        SpliceAt(SectorAt(d, base + sec), off, b, k % 512);
      }
    }
  }

  lemma PatchTwo(d: Disk, base: nat, sec: nat, off: nat, from: nat, b: seq<Byte>)
    requires off + |b| <= 1024 && sec + 1 < 608 && from == sec * 512 + off
    ensures var io := Splice(SectorAt(d, base + sec) + SectorAt(d, base + sec + 1), off, b);
            Patched(d, d[base + sec := io[..512]][base + sec + 1 := io[512..]], base, from, b)
  {
    var io := Splice(SectorAt(d, base + sec) + SectorAt(d, base + sec + 1), off, b);
    var e := d[base + sec := io[..512]][base + sec + 1 := io[512..]];
    assert OutsideSame(d, e, base);
    PatchTwoBytes(d, e, base, sec, off, b, io);
  }

  lemma PatchTwoBytes(d: Disk, e: Disk, base: nat, sec: nat, off: nat, b: seq<Byte>, io: seq<Byte>)
    requires off + |b| <= 1024
    requires io == Splice(SectorAt(d, base + sec) + SectorAt(d, base + sec + 1), off, b)
    requires e == d[base + sec := io[..512]][base + sec + 1 := io[512..]]
    ensures BytesPatched(d, e, base, sec * 512 + off, b)
  {
    var from := sec * 512 + off;
    forall k: nat ensures TableByte(e, base, k) == if from <= k < from + |b| then b[k - from] else TableByte(d, base, k) {
      PatchTwoAt(d, e, base, sec, off, b, io, from, k, k / 512, k % 512);
    }
  }

  lemma PatchTwoAt(d: Disk, e: Disk, base: nat, sec: nat, off: nat, b: seq<Byte>, io: seq<Byte>, from: nat, k: nat, q: nat, r: nat)
    requires off + |b| <= 1024 && k == 512 * q + r && r < 512 && q == k / 512 && r == k % 512 && from == sec * 512 + off
    requires io == Splice(SectorAt(d, base + sec) + SectorAt(d, base + sec + 1), off, b)
    requires e == d[base + sec := io[..512]][base + sec + 1 := io[512..]]
    ensures TableByte(e, base, k) == if from <= k < from + |b| then b[k - from] else TableByte(d, base, k)
  {
    assert TableByte(e, base, k) == SectorAt(e, base + q)[r] && TableByte(d, base, k) == SectorAt(d, base + q)[r];
    var both := SectorAt(d, base + sec) + SectorAt(d, base + sec + 1);
    if q == sec {
      SpliceAt(both, off, b, r);
      assert io[..512][r] == io[r];
    } else if q == sec + 1 {
      SpliceAt(both, off, b, 512 + r);
      assert io[512..][r] == io[512 + r];
    }
  }

  /** A patch of record i is that record, and leaves every other record alone. */
  lemma PatchedRecord(d: Disk, e: Disk, base: nat, i: nat, b: seq<Byte>, j: nat)
    requires |b| == 76 && Patched(d, e, base, 76 * i, b)
    ensures Record(e, base, j) == if j == i then b else Record(d, base, j)
  {
    forall a | 0 <= a < 76 ensures Record(e, base, j)[a] == (if j == i then b else Record(d, base, j))[a] {
      if j != i { RecordsApart(i, j, a); }
    }
  }

  /** e is d with record i replaced by b: every other record, and every sector outside the
      608 of the table, is as it was. */
  ghost predicate OnlyRecord(d: Disk, e: Disk, base: nat, i: nat, b: seq<Byte>) {
    && OutsideSame(d, e, base)
    && (forall j: nat {:trigger Record(e, base, j)} :: Record(e, base, j) == if j == i then b else Record(d, base, j))
  }

  lemma PatchedOnly(d: Disk, e: Disk, base: nat, i: nat, b: seq<Byte>)
    requires |b| == 76 && Patched(d, e, base, 76 * i, b)
    ensures OnlyRecord(d, e, base, i, b)
  {
    forall j: nat ensures Record(e, base, j) == if j == i then b else Record(d, base, j) {
      PatchedRecord(d, e, base, i, b, j);
    }
  }

  lemma PutOne(d: Disk, base: nat, i: nat, b: seq<Byte>)
    requires i < 4096 && |b| == 76 && !Locate(i).two_sec
    ensures var p := Locate(i);
            p.off + 76 <= 512 && OnlyRecord(d, d[base + p.sec := Splice(SectorAt(d, base + p.sec), p.off, b)], base, i, b)
  {
    var p := Locate(i);
    LocateFits(i);
    PatchOne(d, base, p.sec, p.off, b);
    PatchedOnly(d, d[base + p.sec := Splice(SectorAt(d, base + p.sec), p.off, b)], base, i, b);
  }

  lemma PutTwo(d: Disk, base: nat, i: nat, b: seq<Byte>)
    requires i < 4096 && |b| == 76 && Locate(i).two_sec
    ensures var p := Locate(i);
            && p.off + 76 <= 1024
            && var io := Splice(SectorAt(d, base + p.sec) + SectorAt(d, base + p.sec + 1), p.off, b);
            OnlyRecord(d, d[base + p.sec := io[..512]][base + p.sec + 1 := io[512..]], base, i, b)
  {
    var p := Locate(i);
    LocateFits(i);
    PatchTwo(d, base, p.sec, p.off, 76 * i, b);
    var io := Splice(SectorAt(d, base + p.sec) + SectorAt(d, base + p.sec + 1), p.off, b);
    PatchedOnly(d, d[base + p.sec := io[..512]][base + p.sec + 1 := io[512..]], base, i, b);
  }

  // ----- sync, open and close ------------------------------------------------------------------------

  /** An open inode and its reference count. */
  datatype Cached = Cached(node: Node, cnt: nat)

  /** The slot that `inode_sync` writes: the number is narrowed to eight bits at line 96. */
  function SyncSlot(no: nat): (i: nat)
    ensures i < 256 && (no < 256 ==> i == no)
  {
    no % 256
  }

  /** The bytes that a transfer for record i needs in the buffer. */
  function BufferFor(i: nat): (n: nat)
    requires i < 4096
  {
    if Locate(i).two_sec then 1024 else 512
  }

  /** Read the sectors of record i, put the bytes in place, write the sectors back. */
  method PutRecord(disk: Disk, base: nat, i: nat, rec: seq<Byte>) returns (e: Disk)
    requires i < 4096 && |rec| == 76
    ensures OnlyRecord(disk, e, base, i, rec)
  {
    var p := Locate(i);
    if p.two_sec {
      PutTwo(disk, base, i, rec);
      var io := Splice(SectorAt(disk, base + p.sec) + SectorAt(disk, base + p.sec + 1), p.off, rec);
      e := disk[base + p.sec := io[..512]][base + p.sec + 1 := io[512..]];
    } else {
      PutOne(disk, base, i, rec);
      e := disk[base + p.sec := Splice(SectorAt(disk, base + p.sec), p.off, rec)];
    }
  }

  /** The two sectors of a straddling record, with the record in place. */
  function TwoSectors(d: Disk, base: nat, i: nat, rec: seq<Byte>): (io: seq<Byte>)
    requires i < 4096 && |rec| == 76 && Locate(i).two_sec
    ensures |io| == 1024
  {
    LocateFits(i);
    Splice(SectorAt(d, base + Locate(i).sec) + SectorAt(d, base + Locate(i).sec + 1), Locate(i).off, rec)
  }

  /** The memory behind a buffer of one sector while two sectors go through it: nobody else
      touches it between the read and the write, or it holds these bytes at the write. */
  datatype Tail = Intact | Clobbered(bytes: Sector)

  function Second(io: seq<Byte>, tail: Tail): (s: Sector)
    requires |io| == 1024
  {
    if tail.Intact? then io[512..] else tail.bytes
  }

  /** The disk after a sync through a buffer that is one sector too short: the second sector
      is whatever the memory behind the buffer holds when it is written. */
  function ShortSync(d: Disk, base: nat, i: nat, rec: seq<Byte>, tail: Tail): (e: Disk)
    requires i < 4096 && |rec| == 76 && Locate(i).two_sec
  {
    d[base + Locate(i).sec := TwoSectors(d, base, i, rec)[..512]]
     [base + Locate(i).sec + 1 := Second(TwoSectors(d, base, i, rec), tail)]
  }

  /** `inode_sync` with a buffer of one or two sectors.  For a straddling record a short
      buffer is overrun: both sectors are read into it and written back from it, so the
      memory behind it is overwritten, and what stands there at the time of the write goes
      to the disk. */
  method SyncRecord(disk: Disk, base: nat, n: Node, len: nat, tail: Tail) returns (e: Disk, overran: bool)
    requires Fits(n) && (len == 512 || len == 1024)
    ensures overran <==> len < BufferFor(SyncSlot(n.no))
    ensures OutsideSame(disk, e, base)
    ensures !overran ==> OnlyRecord(disk, e, base, SyncSlot(n.no), RecordBytes(n))
    ensures overran ==> e == ShortSync(disk, base, SyncSlot(n.no), RecordBytes(n), tail)
  {
    var i := n.no % 256;
    overran := Locate(i).two_sec && len < 1024;
    if overran {
      LocateFits(i);
      e := ShortSync(disk, base, i, RecordBytes(n), tail);
      assert OutsideSame(disk, e, base);
    } else {
      e := PutRecord(disk, base, i, RecordBytes(n));
    }
  }

  /** An overrun changes exactly the 76 bytes of the record exactly if the memory behind the
      buffer is, at the write, what was read into it. */
  lemma ShortSyncHarmless(d: Disk, base: nat, i: nat, rec: seq<Byte>, tail: Tail)
    requires i < 4096 && |rec| == 76 && Locate(i).two_sec
    ensures Patched(d, ShortSync(d, base, i, rec, tail), base, 76 * i, rec)
            <==> Second(TwoSectors(d, base, i, rec), tail) == TwoSectors(d, base, i, rec)[512..]
  {
    var io, e, good := TwoSectors(d, base, i, rec), ShortSync(d, base, i, rec, tail), ShortSync(d, base, i, rec, Intact);
    IntactPatches(d, base, i, rec);
    if Patched(d, e, base, 76 * i, rec) {
      forall k | 0 <= k < 512 ensures Second(io, tail)[k] == io[512..][k] {
        SecondByte(d, base, i, rec, tail, k);
        SecondByte(d, base, i, rec, Intact, k);
        var q := (Locate(i).sec + 1) * 512 + k;
        assert TableByte(e, base, q) == TableByte(good, base, q);
      }
      assert Second(io, tail) == io[512..];
    }
  }

  lemma IntactPatches(d: Disk, base: nat, i: nat, rec: seq<Byte>)
    requires i < 4096 && |rec| == 76 && Locate(i).two_sec
    ensures Patched(d, ShortSync(d, base, i, rec, Intact), base, 76 * i, rec)
  {
    LocateFits(i);
    ShortPatches(d, base, Locate(i).sec, Locate(i).off, 76 * i, rec, ShortSync(d, base, i, rec, Intact));
  }

  lemma ShortPatches(d: Disk, base: nat, sec: nat, off: nat, from: nat, b: seq<Byte>, e: Disk)
    requires off + |b| <= 1024 && sec + 1 < 608 && from == sec * 512 + off
    requires var io := Splice(SectorAt(d, base + sec) + SectorAt(d, base + sec + 1), off, b);
             e == d[base + sec := io[..512]][base + sec + 1 := io[512..]]
    ensures Patched(d, e, base, from, b)
  {
    PatchTwo(d, base, sec, off, from, b);
  }

  /** Where the bytes of the second sector lie in the table. */
  lemma SecondByte(d: Disk, base: nat, i: nat, rec: seq<Byte>, tail: Tail, k: nat)
    requires i < 4096 && |rec| == 76 && Locate(i).two_sec && k < 512
    ensures TableByte(ShortSync(d, base, i, rec, tail), base, (Locate(i).sec + 1) * 512 + k) == Second(TwoSectors(d, base, i, rec), tail)[k]
  {
    var q := (Locate(i).sec + 1) * 512 + k;
    assert q / 512 == Locate(i).sec + 1 && q % 512 == k;
  }

  /** Any other byte does not depend on the memory behind the buffer. */
  lemma OtherByte(d: Disk, base: nat, i: nat, rec: seq<Byte>, tail: Tail, q: nat)
    requires i < 4096 && |rec| == 76 && Locate(i).two_sec && q / 512 != Locate(i).sec + 1
    ensures TableByte(ShortSync(d, base, i, rec, tail), base, q) == TableByte(ShortSync(d, base, i, rec, Intact), base, q)
  {
  }

  /** Lines 59-82 of `inode_open`: the record as it lies on the disk. */
  method ReadRecord(disk: Disk, base: nat, no: nat) returns (n: Node)
    requires no < 4096
    ensures n == Decode(Record(disk, base, no))
  {
    var p := Locate(no);
    LocateFits(no);
    var buf := SectorAt(disk, base + p.sec);
    if p.two_sec {
      buf := SectorAt(disk, base + p.sec) + SectorAt(disk, base + p.sec + 1);
    }
    var rec := buf[p.off..p.off + 76];
    forall i | 0 <= i < 76 ensures rec[i] == Record(disk, base, no)[i] {
      InBuffer(no, i);
    }
    assert rec == Record(disk, base, no);
    n := Decode(rec);
  }

  // ----- the open inodes ------------------------------------------------------------------------------

  ghost predicate Listed(list: seq<Cached>, no: nat) {
    exists i {:trigger list[i]} :: 0 <= i < |list| && list[i].node.no == no
  }

  /** Each number is listed at most once, exactly if it is held open, with the number of
      outstanding opens. */
  ghost predicate ListOk(list: seq<Cached>, held: multiset<nat>) {
    && (forall i, j {:trigger list[i], list[j]} :: 0 <= i < j < |list| ==> list[i].node.no != list[j].node.no)
    && (forall i {:trigger list[i]} :: 0 <= i < |list| ==> list[i].cnt == held[list[i].node.no] && list[i].cnt > 0)
    && (forall no {:trigger held[no]} :: held[no] > 0 ==> Listed(list, no))
  }

  class Inodes {
    var disk: Disk
    const base: nat
    /** part->open_inodes, newest first. */
    var list: seq<Cached>
    /** The opens not yet closed. */
    ghost var held: multiset<nat>

    constructor (disk0: Disk, table: nat)
      ensures Valid() && disk == disk0 && base == table && list == [] && held == multiset{}
    {
      disk, base, list, held := disk0, table, [], multiset{};
    }

    ghost predicate Valid()
      reads this
    {
      ListOk(list, held)
    }

    /** `inode_sync`. */
    method InodeSync(n: Node, len: nat, tail: Tail) returns (overran: bool)
      requires Fits(n) && (len == 512 || len == 1024)
      modifies this`disk
      ensures overran <==> len < BufferFor(SyncSlot(n.no))
      ensures OutsideSame(old(disk), disk, base)
      ensures !overran ==> OnlyRecord(old(disk), disk, base, SyncSlot(n.no), RecordBytes(n))
      ensures overran ==> disk == ShortSync(old(disk), base, SyncSlot(n.no), RecordBytes(n), tail)
    {
      disk, overran := SyncRecord(disk, base, n, len, tail);
    }

    /** `inode_delete`: record `no` is zeroed; the number is not narrowed here. */
    method InodeDelete(no: nat)
      requires no < 4096
      modifies this`disk
      ensures OnlyRecord(old(disk), disk, base, no, ZeroRecord())
    {
      disk := PutRecord(disk, base, no, ZeroRecord());
    }

    /** The loop of `inode_open` over the list. */
    method Find(no: nat) returns (k: nat)
      ensures k <= |list| && (k < |list| ==> list[k].node.no == no) && (k == |list| <==> !Listed(list, no))
    {
      k := 0;
      while k < |list|
        invariant 0 <= k <= |list| && forall i {:trigger list[i]} :: 0 <= i < k ==> list[i].node.no != no
      {
        if list[k].node.no == no { return; }
        k := k + 1;
      }
    }

    /** `inode_open`: the listed inode if there is one, at place k, else the record on disk,
        whatever number it carries.  The list stays in order exactly if that number is `no`. */
    method InodeOpen(no: nat) returns (n: Node, k: nat)
      requires Valid() && no < 4096
      modifies this`list, this`held
      ensures held == old(held) + multiset{no} && k <= |old(list)| && (k == |old(list)| <==> !Listed(old(list), no))
      ensures k < |old(list)| ==> n == old(list)[k].node && n.no == no && list == old(list)[k := Cached(n, old(list)[k].cnt + 1)]
      ensures k == |old(list)| ==> n == Decode(Record(disk, base, no)) && list == [Cached(n, 1)] + old(list)
      ensures Valid() <==> n.no == no
    {
      k := Find(no);
      if k < |list| {
        n := list[k].node;
        OpenAgain(list, held, k, no);
        list, held := list[k := Cached(n, list[k].cnt + 1)], held + multiset{no};
      } else {
        n := PushRecord(no);
      }
    }

    /** The inode read from the disk goes to the front of the list. */
    method PushRecord(no: nat) returns (n: Node)
      requires Valid() && no < 4096 && !Listed(list, no)
      modifies this`list, this`held
      ensures n == Decode(Record(disk, base, no)) && list == [Cached(n, 1)] + old(list) && held == old(held) + multiset{no}
      ensures Valid() <==> n.no == no
    {
      n := ReadRecord(disk, base, no);
      OpenNew(list, held, no, n);
      list, held := [Cached(n, 1)] + list, held + multiset{no};
    }

    /** `inode_close` of an open inode: the last close takes it off the list. */
    method InodeClose(no: nat)
      requires Valid() && no in held
      modifies this`list, this`held
      ensures Valid() && held == old(held) - multiset{no}
      ensures Listed(list, no) <==> old(held)[no] > 1
    {
      assert held[no] > 0;
      var k := Find(no);
      var c := list[k];
      if c.cnt - 1 == 0 {
        CloseLast(list, held, k);
        list := list[..k] + list[k + 1..];
      } else {
        CloseOne(list, held, k);
        list := list[k := Cached(c.node, c.cnt - 1)];
      }
      held := held - multiset{no};
    }
  }

  function ZeroRecord(): (b: seq<Byte>)
    ensures |b| == 76
  {
    seq(76, i => 0)
  }

  lemma InBuffer(no: nat, i: nat)
    requires no < 4096 && i < 76
    ensures var p := Locate(no); var k := 76 * no + i;
            && k / 512 == (if p.off + i < 512 then p.sec else p.sec + 1)
            && k % 512 == (if p.off + i < 512 then p.off + i else p.off + i - 512)
  {
    LocateFits(no);
    var p := Locate(no);
    assert 76 * no + i == p.sec * 512 + (p.off + i);
  }

  lemma OpenAgain(list: seq<Cached>, held: multiset<nat>, k: nat, no: nat)
    requires ListOk(list, held) && k < |list| && list[k].node.no == no
    ensures ListOk(list[k := Cached(list[k].node, list[k].cnt + 1)], held + multiset{no})
  {
    var l, h := list[k := Cached(list[k].node, list[k].cnt + 1)], held + multiset{no};
    forall i | 0 <= i < |l| ensures l[i].node == list[i].node && l[i].cnt == h[l[i].node.no] { assert i != k ==> list[i].node.no != no; }
    forall x | h[x] > 0 ensures Listed(l, x) { Relisted(list, l, k, x); }
  }

  /** Listed in the old list, and every node is where it was. */
  lemma Relisted(list: seq<Cached>, l: seq<Cached>, k: nat, x: nat)
    requires |l| == |list| && k < |list| && (forall i {:trigger l[i]} :: 0 <= i < |l| ==> l[i].node == list[i].node)
    requires Listed(list, x) || x == list[k].node.no
    ensures Listed(l, x)
  {
    if x == list[k].node.no {
      assert l[k].node.no == x;
    } else {
      var i :| 0 <= i < |list| && list[i].node.no == x;
      assert l[i].node.no == x;
    }
  }

  lemma OpenNew(list: seq<Cached>, held: multiset<nat>, no: nat, n: Node)
    requires ListOk(list, held) && !Listed(list, no)
    ensures ListOk([Cached(n, 1)] + list, held + multiset{no}) <==> n.no == no
  {
    var l, h := [Cached(n, 1)] + list, held + multiset{no};
    assert held[no] == 0;
    if n.no == no {
      forall i, j | 0 <= i < j < |l| ensures l[i].node.no != l[j].node.no {
        assert l[j] == list[j - 1];
        assert i > 0 ==> l[i] == list[i - 1];
      }
      forall i | 0 <= i < |l| ensures l[i].cnt == h[l[i].node.no] && l[i].cnt > 0 { assert i > 0 ==> l[i] == list[i - 1]; }
      forall x | h[x] > 0 ensures Listed(l, x) {
        assert l[0].node.no == no;
        if x != no {
          assert held[x] > 0;
          var i :| 0 <= i < |list| && list[i].node.no == x;
          assert l[i + 1] == list[i];
        }
      }
    } else {
      assert h[no] > 0;
      forall i | 0 <= i < |l| ensures l[i].node.no != no { assert i > 0 ==> l[i] == list[i - 1]; }
    }
  }

  lemma CloseOne(list: seq<Cached>, held: multiset<nat>, k: nat)
    requires ListOk(list, held) && k < |list| && list[k].cnt > 1
    ensures var no := list[k].node.no; var l := list[k := Cached(list[k].node, list[k].cnt - 1)];
            ListOk(l, held - multiset{no}) && Listed(l, no)
  {
    var no := list[k].node.no;
    var l, h := list[k := Cached(list[k].node, list[k].cnt - 1)], held - multiset{no};
    forall i | 0 <= i < |l| ensures l[i].node == list[i].node && l[i].cnt == h[l[i].node.no] { assert i != k ==> list[i].node.no != no; }
    forall x | h[x] > 0 ensures Listed(l, x) {
      assert held[x] > 0;
      Relisted(list, l, k, x);
    }
    Relisted(list, l, k, no);
  }

  lemma CloseLast(list: seq<Cached>, held: multiset<nat>, k: nat)
    requires ListOk(list, held) && k < |list| && list[k].cnt == 1
    ensures var no := list[k].node.no; var l := list[..k] + list[k + 1..];
            ListOk(l, held - multiset{no}) && !Listed(l, no)
  {
    var no := list[k].node.no;
    var l, h := list[..k] + list[k + 1..], held - multiset{no};
    assert h[no] == 0;
    forall i | 0 <= i < |l| ensures l[i] == list[if i < k then i else i + 1] && l[i].node.no != no {}
    forall i, j | 0 <= i < j < |l| ensures l[i].node.no != l[j].node.no {
      assert l[i] == list[if i < k then i else i + 1] && l[j] == list[if j < k then j else j + 1];
    }
    forall i | 0 <= i < |l| ensures l[i].cnt == h[l[i].node.no] && l[i].cnt > 0 {
      assert l[i] == list[if i < k then i else i + 1];
    }
    forall x | h[x] > 0 ensures Listed(l, x) {
      assert x != no && held[x] > 0;
      var i :| 0 <= i < |list| && list[i].node.no == x;
      assert l[if i < k then i else i - 1] == list[i];
    }
  }

  // ----- what a sync means for a later open -----------------------------------------------------------

  /** For a number below 256, a sync and a fresh read give the inode back, and no other
      record changes, straddling or not. */
  lemma SyncThenOpen(d: Disk, e: Disk, base: nat, n: Node, j: nat)
    requires Fits(n) && n.no < 256 && OnlyRecord(d, e, base, SyncSlot(n.no), RecordBytes(n))
    ensures Decode(Record(e, base, n.no)) == n
    ensures j != n.no ==> Record(e, base, j) == Record(d, base, j)
  {
    SyncReadsBack(d, e, base, n);
    if j != n.no { SyncOthers(d, e, base, n, j); }
  }

  lemma SyncOthers(d: Disk, e: Disk, base: nat, n: Node, j: nat)
    requires |n.sectors| == 13 && OnlyRecord(d, e, base, SyncSlot(n.no), RecordBytes(n)) && j != SyncSlot(n.no)
    ensures Record(e, base, j) == Record(d, base, j)
  {
  }

  /** Exactly when a fresh read returns what was synced: the number fits eight bits, or
      the inode's own record held it already. */
  lemma SyncReadsBack(d: Disk, e: Disk, base: nat, n: Node)
    requires Fits(n) && n.no < 4096 && OnlyRecord(d, e, base, SyncSlot(n.no), RecordBytes(n))
    ensures Decode(Record(e, base, n.no)) == n <==> n.no < 256 || Decode(Record(d, base, n.no)) == n
  {
    if n.no < 256 {
      assert Record(e, base, n.no) == RecordBytes(n);
      DecodeRecord(n);
    } else {
      assert Record(e, base, n.no) == Record(d, base, n.no);
    }
  }

  /** A number of 256 or more overwrites the record of a different inode. */
  lemma SyncClobbers(d: Disk, e: Disk, base: nat, n: Node)
    requires Fits(n) && 256 <= n.no && OnlyRecord(d, e, base, SyncSlot(n.no), RecordBytes(n))
    ensures SyncSlot(n.no) != n.no && Decode(Record(e, base, SyncSlot(n.no))) == n
  {
    DecodeRecord(n);
  }

  /** The one-sector buffer that `file_write` passes is too small exactly for the inodes
      whose records start in the last 75 bytes of a sector; number 6 is the first. */
  lemma SmallBuffer(no: nat)
    requires no < 4096
    ensures BufferFor(SyncSlot(no)) > 512 <==> SyncSlot(no) * 76 % 512 > 436
    ensures BufferFor(SyncSlot(6)) > 512 && (no < 6 ==> BufferFor(SyncSlot(no)) == 512)
  {
    assert 6 * 76 % 512 == 456;
    assert no < 6 ==> no * 76 <= 380;
  }
}
