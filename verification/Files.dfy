/** File contents on disk (fs/file.c, fs/inode.c): 512-byte sectors, twelve direct blocks,
    one indirect table of 128 little-endian words.

    A file's blocks are seen as 141 slots: 0-11 direct, 12-139 indirect, 140 the indirect
    table itself; 0 means "no block".  `Slots` reads them from the inode and the disk. */
module Files {

  type Byte = x: nat | x < 256
  type Sector = s: seq<Byte> | |s| == 512 witness seq(512, i => 0)
  type Disk = map<nat, Sector>

  function Blank(): (s: Sector) { seq(512, i => 0) }

  function SectorAt(d: Disk, lba: nat): (s: Sector) { if lba in d then d[lba] else Blank() }

  // ----- the indirect table ----------------------------------------------------------------

  function Word(s: Sector, i: nat): (w: nat)
    requires i < 128
  {
    (s[4 * i] as int) + 256 * (s[4 * i + 1] as int) + 65536 * (s[4 * i + 2] as int) + 16777216 * (s[4 * i + 3] as int)
  }

  function ByteOf(w: nat, j: nat): (b: Byte) {
    if j == 0 then w % 256 else if j == 1 then w / 256 % 256
    else if j == 2 then w / 65536 % 256 else w / 16777216 % 256
  }

  /** 128 words as they lie in a sector. */
  function Encode(ws: seq<nat>): (s: Sector)
    requires |ws| == 128
  {
    seq(512, k requires 0 <= k < 512 => ByteOf(ws[k / 4], k % 4))
  }

  lemma BytesOfWord(w: nat)
    requires w < 0x1_0000_0000
    ensures (ByteOf(w, 0) as int) + 256 * (ByteOf(w, 1) as int) + 65536 * (ByteOf(w, 2) as int) + 16777216 * (ByteOf(w, 3) as int) == w
  {
    assert w / 65536 == w / 256 / 256;
    assert w / 16777216 == w / 65536 / 256;
  }

  /** Writing a table and reading it back gives the same words. */
  lemma TableRoundTrip(ws: seq<nat>, i: nat)
    requires |ws| == 128 && i < 128 && ws[i] < 0x1_0000_0000
    ensures Word(Encode(ws), i) == ws[i]
  {
    var s := Encode(ws);
    assert s[4 * i] == ByteOf(ws[i], 0);
    assert s[4 * i + 1] == ByteOf(ws[i], 1);
    assert s[4 * i + 2] == ByteOf(ws[i], 2);
    assert s[4 * i + 3] == ByteOf(ws[i], 3);
    BytesOfWord(ws[i]);
  }

  // ----- files ---------------------------------------------------------------------------------

  datatype Inode = Inode(size: nat, sectors: seq<nat>)

  function Slot(d: Disk, sectors: seq<nat>, i: nat): (lba: nat)
    requires |sectors| == 13 && i < 141
  {
    if i < 12 then sectors[i]
    else if i == 140 then sectors[12]
    else if sectors[12] == 0 then 0
    else Word(SectorAt(d, sectors[12]), i - 12)
  }

  function Slots(d: Disk, sectors: seq<nat>): (s: seq<nat>)
    requires |sectors| == 13
    ensures |s| == 141 && forall i :: 0 <= i < 141 ==> s[i] == Slot(d, sectors, i)
  {
    seq(141, i requires 0 <= i < 141 => Slot(d, sectors, i))
  }

  /** The blocks that a size calls for: size / 512 + 1, or none before the first write. */
  function BlockCount(size: nat, sectors: seq<nat>): (n: nat)
    requires |sectors| == 13
  {
    if sectors[0] == 0 then 0 else size / 512 + 1
  }

  /** Exactly the first n blocks are there, and the table exactly if they need it. */
  ghost predicate Filled(s: seq<nat>, n: nat) {
    |s| == 141 && n <= 140 && (s[140] != 0 <==> n > 12)
    && forall i {:trigger s[i]} :: 0 <= i < 140 ==> (s[i] != 0 <==> i < n)
  }

  ghost predicate FileOk(d: Disk, f: Inode) {
    && |f.sectors| == 13 && f.size < 71680
    && (f.sectors[0] == 0 ==> f.size == 0)
    && Filled(Slots(d, f.sectors), BlockCount(f.size, f.sectors))
  }

  /** Byte k of the blocks of s. */
  function ByteAt(d: Disk, s: seq<nat>, k: nat): (b: Byte)
    requires |s| == 141 && k < 71680
  {
    SectorAt(d, s[k / 512])[k % 512]
  }

  ghost predicate AreBytes(d: Disk, s: seq<nat>, c: seq<Byte>)
    requires |s| == 141 && |c| <= 71680
  {
    forall k {:trigger ByteAt(d, s, k)} :: 0 <= k < |c| ==> c[k] == ByteAt(d, s, k)
  }

  /** The first n bytes stored in the blocks of s. */
  ghost function Contents(d: Disk, s: seq<nat>, n: nat): (c: seq<Byte>)
    requires |s| == 141 && n <= 71680
    ensures |c| == n
  {
    var all: seq<Byte> := seq(n, k requires 0 <= k < n => ByteAt(d, s, k));
    assert AreBytes(d, s, all);
    var c: seq<Byte> :| |c| == n && AreBytes(d, s, c);
    c
  }

  lemma ContentsAt(d: Disk, s: seq<nat>, n: nat, k: nat)
    requires |s| == 141 && k < n <= 71680
    ensures Contents(d, s, n)[k] == ByteAt(d, s, k)
  {
  }

  /** The contents are determined byte by byte. */
  lemma ContentsIs(d: Disk, s: seq<nat>, c: seq<Byte>)
    requires |s| == 141 && |c| <= 71680
    requires AreBytes(d, s, c)
    ensures Contents(d, s, |c|) == c
  {
    forall k | 0 <= k < |c| ensures Contents(d, s, |c|)[k] == c[k] { ContentsAt(d, s, |c|, k); }
  }

  ghost function FileContents(d: Disk, f: Inode): (c: seq<Byte>)
    requires |f.sectors| == 13 && f.size <= 71680
  {
    Contents(d, Slots(d, f.sectors), f.size)
  }

  // ----- what a change of disk leaves alone ----------------------------------------------------------

  ghost predicate DiskSame(d: Disk, e: Disk, s: seq<nat>) {
    forall i {:trigger s[i]} :: 0 <= i < |s| && s[i] != 0 ==> SectorAt(e, s[i]) == SectorAt(d, s[i])
  }

  /** A file none of whose sectors changed has the same blocks and the same contents. */
  lemma FileSame(d: Disk, e: Disk, f: Inode)
    requires FileOk(d, f) && DiskSame(d, e, Slots(d, f.sectors))
    ensures Slots(e, f.sectors) == Slots(d, f.sectors) && FileOk(e, f) && FileContents(e, f) == FileContents(d, f)
  {
    var s, t := Slots(d, f.sectors), Slots(e, f.sectors);
    assert s[140] == f.sectors[12];
    forall i | 0 <= i < 141 ensures t[i] == s[i] {}
    assert t == s;
    forall k | 0 <= k < f.size ensures Contents(d, s, f.size)[k] == ByteAt(e, s, k) {
      ContentsAt(d, s, f.size, k);
      assert s[k / 512] != 0;
    }
    ContentsIs(e, s, Contents(d, s, f.size));
  }

  // ----- who owns which block ------------------------------------------------------------------------------

  /** The blocks in a row of slots. */
  function OwnedBy(s: seq<nat>): (o: set<nat>) { (set x | x in s) - {0} }

  /** The blocks of all files. */
  function Owned(own: map<nat, seq<nat>>): (o: set<nat>) { set f, x | f in own && x in OwnedBy(own[f]) :: x }

  /** No block fills two slots. */
  ghost predicate DistinctSlots(s: seq<nat>) {
    forall i, j {:trigger s[i], s[j]} :: 0 <= i < j < |s| && s[i] != 0 ==> s[i] != s[j]
  }

  /** The blocks in use are the disjoint union of `other` and the slots of all files. */
  ghost predicate Conserved(own: map<nat, seq<nat>>, used: set<nat>, other: set<nat>) {
    && used == other + Owned(own) && other !! Owned(own)
    && (forall f {:trigger own[f]} :: f in own ==> DistinctSlots(own[f]))
    && (forall f, g {:trigger own[f], own[g]} :: f in own && g in own && f != g ==> OwnedBy(own[f]) !! OwnedBy(own[g]))
  }

  /** s grew from s0 by blocks that were not in use. */
  ghost predicate Grown(s0: seq<nat>, s: seq<nat>, used0: set<nat>, used: set<nat>) {
    && |s| == |s0| && OwnedBy(s0) <= used0 && used == used0 + OwnedBy(s) && DistinctSlots(s)
    && (forall i {:trigger s[i]} {:trigger s0[i]} :: 0 <= i < |s| ==>
          (s0[i] != 0 ==> s[i] == s0[i]) && (s0[i] == 0 && s[i] != 0 ==> s[i] !in used0))
  }

  lemma OwnedSlot(s: seq<nat>, i: nat)
    requires i < |s| && s[i] != 0
    ensures s[i] in OwnedBy(s)
  {
  }

  lemma GrowNone(s: seq<nat>, used: set<nat>)
    requires OwnedBy(s) <= used && DistinctSlots(s)
    ensures Grown(s, s, used, used)
  {
  }

  /** One more slot filled with a block not in use. */
  lemma GrowOne(s0: seq<nat>, s: seq<nat>, used0: set<nat>, used: set<nat>, i: nat, lba: nat)
    requires Grown(s0, s, used0, used) && i < |s| && s[i] == 0 && lba !in used && lba != 0
    ensures Grown(s0, s[i := lba], used0, used + {lba})
  {
    var t := s[i := lba];
    assert OwnedBy(t) == OwnedBy(s) + {lba} by {
      forall x | x in OwnedBy(s) ensures x in OwnedBy(t) {
        var j :| 0 <= j < |s| && s[j] == x;
        assert t[j] == x;
      }
      assert t[i] == lba;
    }
    forall j, k | 0 <= j < k < |t| && t[j] != 0 ensures t[j] != t[k] {
      if j != i && k != i {
        assert s[j] != s[k];
      } else if k == i {
        OwnedSlot(s, j);
      } else {
        assert s[k] != 0 ==> s[k] in OwnedBy(s);
      }
    }
    forall j | 0 <= j < |t| ensures (s0[j] != 0 ==> t[j] == s0[j]) && (s0[j] == 0 && t[j] != 0 ==> t[j] !in used0) {
      assert j != i ==> t[j] == s[j];
    }
  }

  /** A file may exchange its blocks for others that nobody else owns. */
  lemma ReplaceKeeps(own: map<nat, seq<nat>>, used: set<nat>, other: set<nat>, f: nat, s: seq<nat>)
    requires Conserved(own, used, other) && f in own && DistinctSlots(s) && OwnedBy(s) !! (used - OwnedBy(own[f]))
    ensures Conserved(own[f := s], used - OwnedBy(own[f]) + OwnedBy(s), other)
  {
    var own' := own[f := s];
    assert OwnedBy(own[f]) <= Owned(own);
    forall g | g in own && g != f ensures OwnedBy(own[g]) !! OwnedBy(s) {
      assert OwnedBy(own[g]) <= Owned(own) && OwnedBy(own[g]) !! OwnedBy(own[f]);
    }
    OwnedReplaced(own, f, s);
  }

  lemma OwnedReplaced(own: map<nat, seq<nat>>, f: nat, s: seq<nat>)
    requires f in own && forall g :: g in own && g != f ==> OwnedBy(own[g]) !! OwnedBy(own[f])
    ensures Owned(own[f := s]) == Owned(own) - OwnedBy(own[f]) + OwnedBy(s)
  {
    var own' := own[f := s];
    assert own'[f] == s;
    forall x | x in Owned(own) && x !in OwnedBy(own[f]) ensures x in Owned(own') {
      var g :| g in own && x in OwnedBy(own[g]);
      assert x in OwnedBy(own'[g]);
    }
    forall x | x in Owned(own') && x !in OwnedBy(s) ensures x in Owned(own) && x !in OwnedBy(own[f]) {
      var g :| g in own' && x in OwnedBy(own'[g]);
      assert own'[g] == own[g];
    }
  }

  /** A growing file takes only blocks that nobody owned. */
  lemma GrowKeeps(own: map<nat, seq<nat>>, used: set<nat>, other: set<nat>, f: nat, s: seq<nat>, used': set<nat>)
    requires Conserved(own, used, other) && f in own && Grown(own[f], s, used, used')
    ensures Conserved(own[f := s], used', other)
  {
    GrownBlocks(own[f], s, used, used');
    ReplaceKeeps(own, used, other, f, s);
    assert used - OwnedBy(own[f]) + OwnedBy(s) == used';
  }

  /** The old blocks are kept, and the new ones were not in use. */
  lemma GrownBlocks(s0: seq<nat>, s: seq<nat>, used: set<nat>, used': set<nat>)
    requires Grown(s0, s, used, used')
    ensures OwnedBy(s0) <= OwnedBy(s) && (OwnedBy(s) - OwnedBy(s0)) !! used
  {
    forall x | x in OwnedBy(s0) ensures x in OwnedBy(s) {
      var i :| 0 <= i < |s0| && s0[i] == x;
      assert s[i] == x;
    }
    forall x | x in OwnedBy(s) && x !in OwnedBy(s0) ensures x !in used {
      var i :| 0 <= i < |s| && s[i] == x;
      assert s0[i] == 0;
    }
  }

  /** Releasing a file gives back exactly its own blocks. */
  lemma ReleaseKeeps(own: map<nat, seq<nat>>, used: set<nat>, other: set<nat>, f: nat)
    requires Conserved(own, used, other) && f in own
    ensures Conserved(own - {f}, used - OwnedBy(own[f]), other)
  {
    var own' := own - {f};
    assert forall g :: g in own' ==> own'[g] == own[g];
    assert Owned(own') == Owned(own) - OwnedBy(own[f]) by {
      forall x | x in Owned(own) && x !in OwnedBy(own[f]) ensures x in Owned(own') {
        var g :| g in own && x in OwnedBy(own[g]);
        assert g in own' && x in OwnedBy(own'[g]);
      }
      forall x | x in Owned(own') ensures x in Owned(own) && x !in OwnedBy(own[f]) {
        var g :| g in own' && x in OwnedBy(own'[g]);
        assert own'[g] == own[g] && g != f && f in own;
        assert OwnedBy(own[f]) !! OwnedBy(own[g]);
      }
    }
    assert OwnedBy(own[f]) <= Owned(own);
  }

  /** A new file owns nothing. */
  lemma CreateKeeps(own: map<nat, seq<nat>>, used: set<nat>, other: set<nat>, f: nat, s: seq<nat>)
    requires Conserved(own, used, other) && f !in own && OwnedBy(s) == {} && DistinctSlots(s)
    ensures Conserved(own[f := s], used, other)
  {
    var own' := own[f := s];
    assert Owned(own') == Owned(own) by {
      forall x | x in Owned(own) ensures x in Owned(own') {
        var g :| g in own && x in OwnedBy(own[g]);
        assert x in OwnedBy(own'[g]);
      }
    }
  }

  /** Writing and then releasing restores the bitmap, but for what the file had before. */
  lemma GrowThenRelease(s0: seq<nat>, s: seq<nat>, used: set<nat>, used': set<nat>)
    requires Grown(s0, s, used, used')
    ensures used' - OwnedBy(s) == used - OwnedBy(s0)
  {
    GrownBlocks(s0, s, used, used');
  }
}
