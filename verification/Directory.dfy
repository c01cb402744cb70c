/** Directories (fs/dir.c): 24-byte entries packed 21 to a sector, in the blocks 0-139
    of its slots.  A directory is seen as 2940 rows; `Dict` is the finite map it stands for. */
module Directory {
  import opened Files

  type Name = seq<Byte>

  /** One `struct dir_entry`: FT_UNKNOWN is type 0 and means that the row is free. */
  datatype Entry = Entry(name: Name, ino: nat, kind: nat)

  const FreeEntry: Entry := Entry([], 0, 0)

  // ----- 24 bytes ----------------------------------------------------------------------------

  /** The bytes before the first NUL. */
  function CString(b: seq<Byte>): (s: Name)
    ensures |s| <= |b|
  {
    if b == [] || b[0] == 0 then [] else [b[0]] + CString(b[1..])
  }

  ghost predicate GoodName(s: Name) { |s| <= 15 && forall i {:trigger s[i]} :: 0 <= i < |s| ==> s[i] != 0 }

  ghost predicate GoodEntry(e: Entry) { GoodName(e.name) && e.ino < 0x1_0000_0000 && e.kind < 0x1_0000_0000 }

  function Word4(b: seq<Byte>): (w: nat)
    requires |b| == 4
  {
    (b[0] as int) + 256 * (b[1] as int) + 65536 * (b[2] as int) + 16777216 * (b[3] as int)
  }

  function Bytes4(w: nat): (b: seq<Byte>)
    ensures |b| == 4
  {
    [ByteOf(w, 0), ByteOf(w, 1), ByteOf(w, 2), ByteOf(w, 3)]
  }

  function EntryBytes(e: Entry): (b: seq<Byte>)
    requires |e.name| <= 16
    ensures |b| == 24
  {
    e.name + seq(16 - |e.name|, i => 0) + Bytes4(e.ino) + Bytes4(e.kind)
  }

  function DecodeEntry(b: seq<Byte>): (e: Entry)
    requires |b| == 24
  {
    Entry(CString(b[..16]), Word4(b[16..20]), Word4(b[20..]))
  }

  lemma {:induction false} CStringBack(s: Name, rest: seq<Byte>)
    requires forall i {:trigger s[i]} :: 0 <= i < |s| ==> s[i] != 0
    requires rest != [] && rest[0] == 0
    ensures CString(s + rest) == s
  {
    if s == [] {
      assert s + rest == rest;
    } else {
      assert (s + rest)[1..] == s[1..] + rest;
      CStringBack(s[1..], rest);
      assert (s + rest)[0] == s[0];
    }
  }

  lemma Word4Back(w: nat)
    requires w < 0x1_0000_0000
    ensures Word4(Bytes4(w)) == w
  {
    BytesOfWord(w);
  }

  /** Where the fields of `struct dir_entry` lie: the name and its NULs in bytes 0-15, i_no in
      bytes 16-19 and f_type in bytes 20-23, least significant byte first. */
  lemma EntryLayout(e: Entry)
    requires GoodEntry(e)
    ensures var b := EntryBytes(e);
            && b[..|e.name|] == e.name && (forall i {:trigger b[i]} :: |e.name| <= i < 16 ==> b[i] == 0)
            && (b[16] as int) + 0x100 * (b[17] as int) + 0x1_0000 * (b[18] as int) + 0x100_0000 * (b[19] as int) == e.ino
            && (b[20] as int) + 0x100 * (b[21] as int) + 0x1_0000 * (b[22] as int) + 0x100_0000 * (b[23] as int) == e.kind
  {
    var b := EntryBytes(e);
    Word4Back(e.ino);
    Word4Back(e.kind);
    assert b[16..20] == Bytes4(e.ino);
    assert b[20..24] == Bytes4(e.kind);
  }

  /** An entry written is read back. */
  lemma EntryBack(e: Entry)
    requires GoodEntry(e)
    ensures DecodeEntry(EntryBytes(e)) == e
  {
    var b := EntryBytes(e);
    var pad: seq<Byte> := seq(16 - |e.name|, i => 0);
    assert b[..16] == e.name + pad;
    CStringBack(e.name, pad);
    assert b[16..20] == Bytes4(e.ino);
    assert b[20..] == Bytes4(e.kind);
    Word4Back(e.ino);
    Word4Back(e.kind);
  }

  // ----- 21 rows in a sector ---------------------------------------------------------------------

  function RowAt(s: Sector, k: nat): (e: Entry)
    requires k < 21
  {
    DecodeEntry(s[24 * k..24 * k + 24])
  }

  /** memcpy of an entry into row k. */
  function PutRow(s: Sector, k: nat, e: Entry): (t: Sector)
    requires k < 21 && |e.name| <= 16
  {
    s[..24 * k] + EntryBytes(e) + s[24 * k + 24..]
  }

  lemma PutRowAt(s: Sector, k: nat, e: Entry, j: nat)
    requires k < 21 && j < 21 && GoodEntry(e)
    ensures RowAt(PutRow(s, k, e), j) == if j == k then e else RowAt(s, j)
  {
    var t := PutRow(s, k, e);
    EntryBack(e);
    if j == k {
      assert t[24 * j..24 * j + 24] == EntryBytes(e);
    } else {
      assert t[24 * j..24 * j + 24] == s[24 * j..24 * j + 24] by {
        forall i | 24 * j <= i < 24 * j + 24 ensures t[i] == s[i] {
          assert j < k ==> 24 * j + 24 <= 24 * k;
          assert k < j ==> 24 * k + 24 <= 24 * j;
        }
      }
    }
  }

  lemma BlankRow(k: nat)
    requires k < 21
    ensures RowAt(Blank(), k) == FreeEntry
  {
    var b: seq<Byte> := Blank()[24 * k..24 * k + 24];
    assert forall i {:trigger b[i]} :: 0 <= i < 24 ==> b[i] == 0;
    assert b[..16][0] == 0;
    var ino, kind := b[16..20], b[20..];
    assert forall i {:trigger ino[i]} {:trigger kind[i]} :: 0 <= i < 4 ==> ino[i] == b[16 + i] && kind[i] == b[20 + i];
  }

  // ----- 2940 rows ----------------------------------------------------------------------------------

  type Rows = r: seq<Entry> | |r| == 2940 witness seq(2940, i => FreeEntry)

  function RowOf(d: Disk, slots: seq<nat>, k: nat): (e: Entry)
    requires |slots| == 141 && k < 2940
  {
    if slots[k / 21] == 0 then FreeEntry else RowAt(SectorAt(d, slots[k / 21]), k % 21)
  }

  ghost predicate AreRows(d: Disk, slots: seq<nat>, r: Rows)
    requires |slots| == 141
  {
    forall k {:trigger RowOf(d, slots, k)} :: 0 <= k < 2940 ==> r[k] == RowOf(d, slots, k)
  }

  ghost function AllRows(d: Disk, slots: seq<nat>): (r: Rows)
    requires |slots| == 141
  {
    var all: Rows := seq(2940, k requires 0 <= k < 2940 => RowOf(d, slots, k));
    assert AreRows(d, slots, all);
    var r: Rows :| AreRows(d, slots, r);
    r
  }

  lemma RowsUnique(d: Disk, slots: seq<nat>, r: Rows)
    requires |slots| == 141 && AreRows(d, slots, r)
    ensures r == AllRows(d, slots)
  {
    forall k | 0 <= k < 2940 ensures r[k] == AllRows(d, slots)[k] { assert r[k] == RowOf(d, slots, k); }
  }

  predicate Live(e: Entry) { e.kind != 0 }

  /** The number of live rows. */
  function Count(r: seq<Entry>): (n: nat)
    ensures n <= |r|
  {
    if r == [] then 0 else Count(r[..|r| - 1]) + if Live(r[|r| - 1]) then 1 else 0
  }

  lemma {:induction false} CountUpdate(r: seq<Entry>, k: nat, e: Entry)
    requires k < |r|
    ensures Count(r[k := e]) == Count(r) - (if Live(r[k]) then 1 else 0) + (if Live(e) then 1 else 0)
  {
    var t := r[k := e];
    var n := |r| - 1;
    if k == n {
      assert t[..n] == r[..n];
    } else {
      assert t[..n] == r[..n][k := e];
      CountUpdate(r[..n], k, e);
    }
  }

  lemma {:induction false} CountFull(r: seq<Entry>)
    requires forall k {:trigger r[k]} :: 0 <= k < |r| ==> Live(r[k])
    ensures Count(r) == |r|
  {
    if r != [] {
      assert forall k {:trigger r[..|r| - 1][k]} :: 0 <= k < |r| - 1 ==> r[..|r| - 1][k] == r[k];
      CountFull(r[..|r| - 1]);
    }
  }

  lemma {:induction false} CountAtLeast(r: seq<Entry>, live: set<nat>)
    requires forall k :: k in live ==> k < |r| && Live(r[k])
    ensures |live| <= Count(r)
    decreases |r|
  {
    if r == [] {
      assert live == {};
    } else {
      var n := |r| - 1;
      var rest := live - {n};
      forall k | k in rest ensures k < n && Live(r[..n][k]) { assert r[..n][k] == r[k]; }
      CountAtLeast(r[..n], rest);
      assert n in live ==> |live| == |rest| + 1;
    }
  }

  // ----- the finite map --------------------------------------------------------------------------------

  ghost predicate NamesUnique(r: seq<Entry>) {
    forall i, j {:trigger r[i], r[j]} :: 0 <= i < j < |r| && Live(r[i]) && Live(r[j]) ==> r[i].name != r[j].name
  }

  predicate Dots(n: Name) { n == [46] || n == [46, 46] }

  /** Apart from "." and "..", no inode has two entries. */
  ghost predicate InodesUnique(r: seq<Entry>) {
    forall i, j {:trigger r[i], r[j]} :: 0 <= i < j < |r| && Live(r[i]) && Live(r[j]) && !Dots(r[i].name) && !Dots(r[j].name) ==>
      r[i].ino != r[j].ino
  }

  ghost predicate RowsOk(r: seq<Entry>) {
    && (forall k {:trigger r[k]} :: 0 <= k < |r| ==>
          GoodEntry(r[k]) && (if Live(r[k]) then r[k].name != [] else r[k] == FreeEntry))
    && NamesUnique(r) && InodesUnique(r)
  }

  /** What the directory stands for. */
  function Dict(r: seq<Entry>): (m: map<Name, Entry>) {
    if r == [] then map[]
    else
      var e, m := r[|r| - 1], Dict(r[..|r| - 1]);
      if Live(e) then m[e.name := e] else m
  }

  lemma {:induction false} DictFrom(r: seq<Entry>, name: Name) returns (k: nat)
    requires name in Dict(r)
    ensures k < |r| && Live(r[k]) && r[k].name == name && Dict(r)[name] == r[k]
  {
    var n := |r| - 1;
    if Live(r[n]) && r[n].name == name {
      k := n;
    } else {
      k := DictFrom(r[..n], name);
    }
  }

  lemma {:induction false} DictHas(r: seq<Entry>, k: nat)
    requires NamesUnique(r) && k < |r| && Live(r[k])
    ensures r[k].name in Dict(r) && Dict(r)[r[k].name] == r[k]
  {
    var n := |r| - 1;
    if k < n {
      UniquePrefix(r, n);
      assert r[..n][k] == r[k];
      DictHas(r[..n], k);
    }
  }

  lemma UniquePrefix(r: seq<Entry>, n: nat)
    requires NamesUnique(r) && n <= |r|
    ensures NamesUnique(r[..n])
  {
    forall i, j | 0 <= i < j < n && Live(r[..n][i]) && Live(r[..n][j]) ensures r[..n][i].name != r[..n][j].name {
      assert r[..n][i] == r[i] && r[..n][j] == r[j];
    }
  }

  lemma {:induction false} InsertDict(r: seq<Entry>, k: nat, e: Entry)
    requires k < |r| && !Live(r[k]) && Live(e) && e.name !in Dict(r)
    ensures Dict(r[k := e]) == Dict(r)[e.name := e]
  {
    var t, n := r[k := e], |r| - 1;
    if k == n {
      assert t[..n] == r[..n];
    } else {
      assert t[..n] == r[..n][k := e];
      assert r[..n][k] == r[k];
      InsertDict(r[..n], k, e);
      assert t[n] == r[n];
      if Live(r[n]) {
        Commute(Dict(r[..n]), e, r[n]);
      }
    }
  }

  lemma Commute(m: map<Name, Entry>, a: Entry, b: Entry)
    requires a.name != b.name
    ensures m[a.name := a][b.name := b] == m[b.name := b][a.name := a]
  {
  }

  lemma {:induction false} DeleteDict(r: seq<Entry>, k: nat)
    requires NamesUnique(r) && k < |r| && Live(r[k])
    ensures Dict(r[k := FreeEntry]) == Dict(r) - {r[k].name}
  {
    var t, n, name := r[k := FreeEntry], |r| - 1, r[k].name;
    var m := Dict(r[..n]);
    UniquePrefix(r, n);
    if k == n {
      assert t[..n] == r[..n];
      if name in m {
        var j := DictFrom(r[..n], name);
        assert false;
      }
      assert m[name := r[n]] - {name} == m;
    } else {
      assert t[..n] == r[..n][k := FreeEntry];
      assert r[..n][k] == r[k];
      DeleteDict(r[..n], k);
      assert t[n] == r[n];
      if Live(r[n]) {
        assert r[n].name != name;
        assert (m - {name})[r[n].name := r[n]] == m[r[n].name := r[n]] - {name};
      }
    }
  }

  /** e may be added: its name is new, and so is its inode unless it is "." or "..". */
  ghost predicate Insertable(r: seq<Entry>, e: Entry) {
    && Live(e) && GoodEntry(e) && e.name != [] && e.name !in Dict(r)
    && forall i {:trigger r[i]} :: 0 <= i < |r| && Live(r[i]) && !Dots(r[i].name) && !Dots(e.name) ==> r[i].ino != e.ino
  }

  lemma InsertRowsOk(r: seq<Entry>, k: nat, e: Entry)
    requires RowsOk(r) && k < |r| && !Live(r[k]) && Insertable(r, e)
    ensures RowsOk(r[k := e])
  {
    var t := r[k := e];
    forall i | 0 <= i < |r| && Live(r[i]) ensures r[i].name != e.name { DictHas(r, i); }
    forall i, j | 0 <= i < j < |t| && Live(t[i]) && Live(t[j]) ensures t[i].name != t[j].name {
      assert (i != k ==> t[i] == r[i]) && (j != k ==> t[j] == r[j]);
    }
    forall i, j | 0 <= i < j < |t| && Live(t[i]) && Live(t[j]) && !Dots(t[i].name) && !Dots(t[j].name) ensures t[i].ino != t[j].ino {
      assert (i != k ==> t[i] == r[i]) && (j != k ==> t[j] == r[j]);
    }
  }

  lemma DeleteRowsOk(r: seq<Entry>, k: nat)
    requires RowsOk(r) && k < |r|
    ensures RowsOk(r[k := FreeEntry])
  {
    var t := r[k := FreeEntry];
    forall i, j | 0 <= i < j < |t| && Live(t[i]) && Live(t[j]) ensures t[i].name != t[j].name {
      assert t[i] == r[i] && t[j] == r[j];
    }
    forall i, j | 0 <= i < j < |t| && Live(t[i]) && Live(t[j]) && !Dots(t[i].name) && !Dots(t[j].name) ensures t[i].ino != t[j].ino {
      assert t[i] == r[i] && t[j] == r[j];
    }
  }

  // ----- the live rows in order ----------------------------------------------------------------------

  function LiveRows(r: seq<Entry>): (l: seq<Entry>)
    ensures |l| == Count(r)
  {
    if r == [] then []
    else LiveRows(r[..|r| - 1]) + if Live(r[|r| - 1]) then [r[|r| - 1]] else []
  }

  lemma {:induction false} LiveRowAt(r: seq<Entry>, k: nat)
    requires k < |r| && Live(r[k])
    ensures Count(r[..k]) < Count(r) && LiveRows(r)[Count(r[..k])] == r[k]
  {
    var n := |r| - 1;
    if k < n {
      assert r[..n][..k] == r[..k] && r[..n][k] == r[k];
      LiveRowAt(r[..n], k);
    }
  }

  /** The rows enumerated are exactly the entries of the map, each once. */
  lemma {:induction false} LiveRowsDict(r: seq<Entry>)
    requires NamesUnique(r)
    ensures forall i {:trigger LiveRows(r)[i]} :: 0 <= i < Count(r) ==>
              LiveRows(r)[i].name in Dict(r) && Dict(r)[LiveRows(r)[i].name] == LiveRows(r)[i]
    ensures forall i, j {:trigger LiveRows(r)[i], LiveRows(r)[j]} :: 0 <= i < j < Count(r) ==>
              LiveRows(r)[i].name != LiveRows(r)[j].name
    ensures |Dict(r)| == Count(r)
  {
    if r != [] {
      var n := |r| - 1;
      UniquePrefix(r, n);
      LiveRowsDict(r[..n]);
      if Live(r[n]) {
        if r[n].name in Dict(r[..n]) {
          var j := DictFrom(r[..n], r[n].name);
          assert false;
        }
      }
    }
  }

  // ----- blocks of rows -----------------------------------------------------------------------------------

  /** Row k lies in block b. */
  predicate InBlock(b: nat, k: nat) { 21 * b <= k < 21 * b + 21 }

  ghost predicate BlockLive(r: Rows, b: nat) { exists k {:trigger r[k]} :: 0 <= k < 2940 && InBlock(b, k) && Live(r[k]) }

  ghost predicate HasName(r: Rows, name: Name) { exists k {:trigger r[k]} :: 0 <= k < 21 && Live(r[k]) && r[k].name == name }

  /** A well-formed directory: every block but the first holds an entry, the first holds
      "." and "..", and the size is 24 times the number of entries. */
  ghost predicate DirOk(d: Disk, slots: seq<nat>, size: nat) {
    && |slots| == 141 && (slots[140] != 0 <==> slots[12] != 0) && slots[0] != 0 && DistinctSlots(slots)
    && RowsOk(AllRows(d, slots)) && size == 24 * Count(AllRows(d, slots))
    && (forall b {:trigger BlockLive(AllRows(d, slots), b)} :: 1 <= b < 140 && slots[b] != 0 ==> BlockLive(AllRows(d, slots), b))
    && HasName(AllRows(d, slots), [46]) && HasName(AllRows(d, slots), [46, 46])
  }

  lemma BlockOf(b: nat, j: nat)
    requires b < 140 && j < 21
    ensures (21 * b + j) / 21 == b && (21 * b + j) % 21 == j && 21 * b + j < 2940 && InBlock(b, 21 * b + j)
  {
  }

  lemma RowsAfterPut(d: Disk, slots: seq<nat>, b: nat, j: nat, e: Entry)
    requires |slots| == 141 && DistinctSlots(slots) && b < 140 && j < 21 && slots[b] != 0 && GoodEntry(e)
    ensures AllRows(d[slots[b] := PutRow(SectorAt(d, slots[b]), j, e)], slots) == AllRows(d, slots)[21 * b + j := e]
  {
    BlockOf(b, j);
    var f := d[slots[b] := PutRow(SectorAt(d, slots[b]), j, e)];
    var r: Rows := AllRows(d, slots)[21 * b + j := e];
    forall k | 0 <= k < 2940 ensures RowOf(f, slots, k) == r[k] {
      assert AllRows(d, slots)[k] == RowOf(d, slots, k);
      if k / 21 == b {
        PutRowAt(SectorAt(d, slots[b]), j, e, k % 21);
        assert k == 21 * b + k % 21;
      } else {
        assert slots[k / 21] != 0 ==> slots[k / 21] != slots[b];
      }
    }
    RowsUnique(f, slots, r);
  }

  lemma RowsAfterNew(d: Disk, slots: seq<nat>, b: nat, lba: nat, e: Entry)
    requires |slots| == 141 && b < 140 && slots[b] == 0 && lba != 0 && lba !in slots && GoodEntry(e)
    ensures 21 * b < 2940 && AllRows(d[lba := PutRow(Blank(), 0, e)], slots[b := lba]) == AllRows(d, slots)[21 * b := e]
  {
    var f, after := d[lba := PutRow(Blank(), 0, e)], slots[b := lba];
    BlockOf(b, 0);
    var r: Rows := AllRows(d, slots)[21 * b := e];
    forall k | 0 <= k < 2940 ensures RowOf(f, after, k) == r[k] {
      assert AllRows(d, slots)[k] == RowOf(d, slots, k);
      if k / 21 == b {
        PutRowAt(Blank(), 0, e, k % 21);
        BlankRow(k % 21);
        assert k == 21 * b + k % 21;
      } else {
        assert after[k / 21] == slots[k / 21] != lba;
      }
    }
    RowsUnique(f, after, r);
  }

  lemma RowsAfterDrop(d: Disk, slots: seq<nat>, b: nat, j: nat)
    requires |slots| == 141 && 1 <= b < 140 && j < 21
    requires RowsOk(AllRows(d, slots))
    requires forall k {:trigger AllRows(d, slots)[k]} :: 0 <= k < 2940 && InBlock(b, k) && k != 21 * b + j ==> !Live(AllRows(d, slots)[k])
    ensures 21 * b + j < 2940 && AllRows(d, slots[b := 0]) == AllRows(d, slots)[21 * b + j := FreeEntry]
  {
    BlockOf(b, j);
    var r, after := AllRows(d, slots), slots[b := 0];
    var t: Rows := r[21 * b + j := FreeEntry];
    forall k | 0 <= k < 2940 ensures RowOf(d, after, k) == t[k] {
      assert r[k] == RowOf(d, slots, k);
      assert InBlock(b, k) <==> k / 21 == b;
      if k / 21 == b { assert k != 21 * b + j ==> r[k] == FreeEntry; }
    }
    RowsUnique(d, after, t);
  }

  lemma ThreeLive(r: Rows, b: nat)
    requires BlockLive(r, b) && b >= 1 && HasName(r, [46]) && HasName(r, [46, 46])
    ensures Count(r) >= 3
  {
    var i :| 0 <= i < 21 && Live(r[i]) && r[i].name == [46];
    var j :| 0 <= j < 21 && Live(r[j]) && r[j].name == [46, 46];
    var k :| 0 <= k < 2940 && InBlock(b, k) && Live(r[k]);
    var s := {i, j, k};
    assert |[46]| != |[46, 46]| && i != j;
    assert |s| == 3;
    CountAtLeast(r, s);
  }

  /** A directory with only "." and ".." has only its first block: the ASSERT of `dir_remove`. */
  lemma EmptyHasOneBlock(d: Disk, slots: seq<nat>, size: nat, b: nat)
    requires DirOk(d, slots, size) && size == 48 && 1 <= b < 141
    ensures slots[b] == 0
  {
    var c := if b == 140 then 12 else b;                          // a table has its first entry
    if slots[c] != 0 {
      ThreeLive(AllRows(d, slots), c);
      assert false;
    }
  }

  /** `dir_is_empty`: the size is that of two entries exactly if the map has only "." and "..". */
  lemma EmptyIsDots(d: Disk, slots: seq<nat>, size: nat)
    requires DirOk(d, slots, size)
    ensures size == 48 <==> Dict(AllRows(d, slots)).Keys == {[46], [46, 46]}
  {
    var r := AllRows(d, slots);
    LiveRowsDict(r);
    var i :| 0 <= i < 21 && Live(r[i]) && r[i].name == [46];
    var j :| 0 <= j < 21 && Live(r[j]) && r[j].name == [46, 46];
    DictHas(r, i);
    DictHas(r, j);
    var keys, dots := Dict(r).Keys, {[46], [46, 46]};
    assert |keys| == |Dict(r)| && |dots| == 2 && dots <= keys;
    if |keys| == 2 { SubsetEqual(dots, keys); }
  }

  lemma SubsetEqual(a: set<Name>, b: set<Name>)
    requires a <= b && |a| == |b|
    ensures a == b
  {
    assert b == a + (b - a);
    assert |b| == |a| + |b - a|;
  }

  // ----- a new directory -------------------------------------------------------------------------------------

  lemma {:induction false} CountFree(r: seq<Entry>)
    requires forall k {:trigger r[k]} :: 0 <= k < |r| ==> r[k] == FreeEntry
    ensures Count(r) == 0 && Dict(r) == map[]
  {
    if r != [] {
      assert forall k {:trigger r[..|r| - 1][k]} :: 0 <= k < |r| - 1 ==> r[..|r| - 1][k] == r[k];
      CountFree(r[..|r| - 1]);
    }
  }

  /** The rows of a new directory. */
  lemma NewRows(d: Disk, slots: seq<nat>, lba: nat, self: nat, parent: nat)
    requires self < 0x1_0000_0000 && parent < 0x1_0000_0000 && lba != 0 && slots == seq(141, i => 0)[0 := lba]
    requires SectorAt(d, lba) == PutRow(PutRow(Blank(), 0, Entry([46], self, 2)), 1, Entry([46, 46], parent, 2))
    ensures DirOk(d, slots, 48) && OwnedBy(slots) == {lba}
    ensures Dict(AllRows(d, slots)) == map[[46] := Entry([46], self, 2), [46, 46] := Entry([46, 46], parent, 2)]
  {
    var a, b := Entry([46], self, 2), Entry([46, 46], parent, 2);
    var free: Rows := seq(2940, i => FreeEntry);
    var one: Rows := free[0 := a];
    var two: Rows := one[1 := b];
    NewRowAt(d, slots, lba, a, b, two);
    RowsUnique(d, slots, two);
    TwoRowsCount(free, a, b);
    TwoRowsOk(two, a, b);
    assert slots[0] == lba && forall i {:trigger slots[i]} :: 1 <= i < 141 ==> slots[i] == 0;
  }

  lemma TwoRowsCount(free: Rows, a: Entry, b: Entry)
    requires forall k {:trigger free[k]} :: 0 <= k < 2940 ==> free[k] == FreeEntry
    requires Live(a) && Live(b) && a.name != b.name
    ensures Count(free[0 := a][1 := b]) == 2
    ensures Dict(free[0 := a][1 := b]) == map[a.name := a, b.name := b]
  {
    var one: Rows := free[0 := a];
    CountFree(free);
    CountUpdate(free, 0, a);
    CountUpdate(one, 1, b);
    InsertDict(free, 0, a);
    InsertDict(one, 1, b);
  }

  lemma TwoRowsOk(two: Rows, a: Entry, b: Entry)
    requires two[0] == a && two[1] == b && forall k {:trigger two[k]} :: 2 <= k < 2940 ==> two[k] == FreeEntry
    requires GoodEntry(a) && GoodEntry(b) && Live(a) && Live(b) && a.name == [46] && b.name == [46, 46]
    ensures RowsOk(two) && HasName(two, [46]) && HasName(two, [46, 46])
  {
    assert Live(two[0]) && two[0].name == [46];
    assert Live(two[1]) && two[1].name == [46, 46];
  }

  lemma NewRowAt(d: Disk, slots: seq<nat>, lba: nat, a: Entry, b: Entry, two: Rows)
    requires GoodEntry(a) && GoodEntry(b) && lba != 0 && slots == seq(141, i => 0)[0 := lba]
    requires SectorAt(d, lba) == PutRow(PutRow(Blank(), 0, a), 1, b)
    requires two == seq(2940, i => FreeEntry)[0 := a][1 := b]
    ensures AreRows(d, slots, two)
  {
    forall k | 0 <= k < 2940 ensures two[k] == RowOf(d, slots, k) {
      if k < 21 {
        assert k / 21 == 0 && k % 21 == k;
        PutRowAt(Blank(), 0, a, k);
        PutRowAt(PutRow(Blank(), 0, a), 1, b, k);
        BlankRow(k);
      } else {
        assert 1 <= k / 21 < 140;
      }
    }
  }

  // ----- what a change of disk leaves alone -------------------------------------------------------------

  /** A directory none of whose sectors changed has the same rows. */
  lemma DirSame(d: Disk, e: Disk, slots: seq<nat>, size: nat)
    requires DirOk(d, slots, size) && DiskSame(d, e, slots)
    ensures AllRows(e, slots) == AllRows(d, slots) && DirOk(e, slots, size)
  {
    RowsSame(d, e, slots);
  }

  lemma RowsSame(d: Disk, e: Disk, slots: seq<nat>)
    requires |slots| == 141 && DiskSame(d, e, slots)
    ensures AllRows(e, slots) == AllRows(d, slots)
  {
    var r := AllRows(d, slots);
    forall k | 0 <= k < 2940 ensures r[k] == RowOf(e, slots, k) { assert r[k] == RowOf(d, slots, k); }
    RowsUnique(e, slots, r);
  }

  // ----- rows behind a table that is lost -------------------------------------------------------------------

  /** The rows of the twelve direct blocks; the others are free. */
  function Cut(r: Rows): (t: Rows)
    ensures forall k {:trigger t[k]} :: 0 <= k < 2940 ==> t[k] == if k < 252 then r[k] else FreeEntry
  {
    seq(2940, k requires 0 <= k < 2940 => if k < 252 then r[k] else FreeEntry)
  }

  ghost predicate LiveBehind(r: Rows) { exists k {:trigger r[k]} :: 252 <= k < 2940 && Live(r[k]) }

  /** The rows from 252 on are lost without harm exactly if none of them is live. */
  lemma CutDict(r: Rows)
    requires NamesUnique(r)
    ensures Dict(Cut(r)) == Dict(r) <==> !LiveBehind(r)
    ensures Dict(Cut(r)).Keys <= Dict(r).Keys
  {
    var t := Cut(r);
    forall n | n in Dict(t) ensures n in Dict(r) && Dict(r)[n] == Dict(t)[n] {
      var k := DictFrom(t, n);
      DictHas(r, k);
    }
    forall k | 252 <= k < 2940 && Live(r[k]) ensures r[k].name in Dict(r) && r[k].name !in Dict(t) {
      DictHas(r, k);
      if r[k].name in Dict(t) {
        var i := DictFrom(t, r[k].name);
        assert false;
      }
    }
    forall n | n in Dict(r) && !LiveBehind(r) ensures n in Dict(t) {
      var k := DictFrom(r, n);
      CutUnique(r);
      assert t[k] == r[k];
      DictHas(t, k);
    }
  }

  lemma CutUnique(r: Rows)
    requires NamesUnique(r)
    ensures NamesUnique(Cut(r))
  {
  }

  /** Adding an entry after losing the rows from 252 on keeps the map exactly if none of
      them was live. */
  lemma CutInsert(r: Rows, k: nat, e: Entry)
    requires NamesUnique(r) && 252 <= k < 2940 && Live(e) && e.name !in Dict(r)
    ensures Dict(Cut(r)[k := e]) == Dict(Cut(r))[e.name := e]
    ensures Dict(Cut(r)[k := e]) == Dict(r)[e.name := e] <==> !LiveBehind(r)
  {
    CutDict(r);
    InsertDict(Cut(r), k, e);
    if Dict(Cut(r))[e.name := e] == Dict(r)[e.name := e] { SameWithout(Dict(Cut(r)), Dict(r), e); }
  }

  lemma SameWithout(a: map<Name, Entry>, b: map<Name, Entry>, e: Entry)
    requires e.name !in a && e.name !in b && a[e.name := e] == b[e.name := e]
    ensures a == b
  {
    assert a == a[e.name := e] - {e.name} && b == b[e.name := e] - {e.name};
  }
}
