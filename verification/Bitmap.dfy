/** The bitmap of lib/kern/bitmap.c: bytes in memory, read and written bit by bit.

    Every allocator keeps its bitmap as bytes, scans it with `Scan` and sets bits with
    `Put`.  Its specification sees the bits as a `seq<bool>`, and the numbers of the set
    bits as a set. */
module Bitmap {

  /** BITMAP_MASK << k for the eight bits of a byte. */
  function Mask(k: nat): (m: bv8)
    requires k < 8
  {
    if k == 0 then 1 else if k == 1 then 2 else if k == 2 then 4 else if k == 3 then 8
    else if k == 4 then 16 else if k == 5 then 32 else if k == 6 then 64 else 128
  }

  /** `bitmap_scan_test`. */
  predicate Bit(bytes: seq<bv8>, i: nat)
    requires i / 8 < |bytes|
  {
    bytes[i / 8] & Mask(i % 8) != 0
  }

  ghost predicate AreBits(bytes: seq<bv8>, v: seq<bool>) {
    |v| <= 8 * |bytes| && forall i {:trigger Bit(bytes, i)} :: 0 <= i < |v| ==> v[i] == Bit(bytes, i)
  }

  /** The first `n` bits. */
  ghost function View(bytes: seq<bv8>, n: nat): (v: seq<bool>)
    requires n <= 8 * |bytes|
    ensures |v| == n
  {
    var all := seq(n, i requires 0 <= i < n => Bit(bytes, i));
    assert AreBits(bytes, all);
    var v :| |v| == n && AreBits(bytes, v);
    v
  }

  lemma ViewIs(bytes: seq<bv8>, v: seq<bool>)
    requires AreBits(bytes, v)
    ensures View(bytes, |v|) == v
  {
    var w := View(bytes, |v|);
    forall i | 0 <= i < |v| ensures w[i] == v[i] { assert w[i] == Bit(bytes, i); }
  }

  lemma ViewAt(bytes: seq<bv8>, n: nat, i: nat)
    requires i < n <= 8 * |bytes|
    ensures View(bytes, n)[i] == Bit(bytes, i)
  {
  }

  /** One bit more in the view is the bit just behind. */
  lemma ViewMore(bytes: seq<bv8>, n: nat)
    requires n < 8 * |bytes|
    ensures View(bytes, n + 1) == View(bytes, n) + [Bit(bytes, n)]
  {
    var v := View(bytes, n) + [Bit(bytes, n)];
    forall i | 0 <= i < n + 1 ensures v[i] == Bit(bytes, i) {
      if i < n { ViewAt(bytes, n, i); }
    }
    ViewIs(bytes, v);
  }

  predicate Full(v: seq<bool>) { forall i :: 0 <= i < |v| ==> v[i] }

  lemma FullByte(b: bv8)
    ensures b == 0xff <==> forall k :: 0 <= k < 8 ==> b & Mask(k) != 0
  {
    if b != 0xff {
      if b & 1 == 0 { assert b & Mask(0) == 0; }
      else if b & 2 == 0 { assert b & Mask(1) == 0; }
      else if b & 4 == 0 { assert b & Mask(2) == 0; }
      else if b & 8 == 0 { assert b & Mask(3) == 0; }
      else if b & 16 == 0 { assert b & Mask(4) == 0; }
      else if b & 32 == 0 { assert b & Mask(5) == 0; }
      else if b & 64 == 0 { assert b & Mask(6) == 0; }
      else { assert b & Mask(7) == 0; }
    }
  }

  // ----- first fit ---------------------------------------------------------------

  predicate ClearRun(v: seq<bool>, s: nat, cnt: nat) {
    s + cnt <= |v| && forall j :: s <= j < s + cnt ==> !v[j]
  }

  datatype Found = None | At(start: nat)

  function FitFrom(v: seq<bool>, cnt: nat, s: nat): (r: Found)
    ensures r.At? ==> s <= r.start && ClearRun(v, r.start, cnt) && forall q :: s <= q < r.start ==> !ClearRun(v, q, cnt)
    ensures r.None? ==> forall q :: s <= q ==> !ClearRun(v, q, cnt)
    decreases |v| - s
  {
    if s + cnt > |v| then None
    else if ClearRun(v, s, cnt) then At(s)
    else FitFrom(v, cnt, s + 1)
  }

  /** The least start of `cnt` consecutive clear bits. */
  function FirstFit(v: seq<bool>, cnt: nat): (r: Found)
    ensures r.At? ==> ClearRun(v, r.start, cnt) && forall q :: 0 <= q < r.start ==> !ClearRun(v, q, cnt)
    ensures r.None? ==> forall q :: 0 <= q ==> !ClearRun(v, q, cnt)
  {
    FitFrom(v, cnt, 0)
  }

  lemma FirstFitUnique(v: seq<bool>, cnt: nat, r: Found)
    requires r.At? ==> ClearRun(v, r.start, cnt) && forall q :: 0 <= q < r.start ==> !ClearRun(v, q, cnt)
    requires r.None? ==> forall q :: 0 <= q ==> !ClearRun(v, q, cnt)
    ensures r == FirstFit(v, cnt)
  {
    var f := FirstFit(v, cnt);
    if r.At? && f.At? {
      assert !(r.start < f.start) && !(f.start < r.start);
    }
  }

  lemma FullNone(v: seq<bool>, cnt: nat)
    requires Full(v) && cnt >= 1
    ensures FirstFit(v, cnt).None?
  {
    forall q | 0 <= q ensures !ClearRun(v, q, cnt) {
      if q < |v| { assert v[q]; }
    }
    FirstFitUnique(v, cnt, None);
  }

  // ----- the scan --------------------------------------------------------------------

  datatype ScanResult = Halt | Result(found: Found)

  /** What `bitmap_scan` computes for a bitmap with the bit `behind` just past its end: with
      no clear bit the ASSERT at line 30 halts; for one bit it is first fit; for more, it is
      first fit over one bit too many. */
  function ScanSpec(v: seq<bool>, behind: bool, cnt: nat): (r: ScanResult)
    ensures r.Halt? <==> Full(v)
    ensures r.Result? && cnt == 1 ==> r.found.At?
  {
    if Full(v) then Halt
    else if cnt == 1 then
      OneClear(v);
      Result(FirstFit(v, 1))
    else Result(FirstFit(v + [behind], cnt))
  }

  lemma OneClear(v: seq<bool>)
    requires !Full(v)
    ensures FirstFit(v, 1).At?
  {
    var i :| 0 <= i < |v| && !v[i];
    assert ClearRun(v, i, 1);
  }

  /** First byte that is not 0xff, as the loop at line 28 finds it; it may look at the
      byte just past the bitmap. */
  method FirstFreeByte(bytes: seq<bv8>, len: nat) returns (k: nat)
    requires len < |bytes|
    ensures k <= len && forall i :: 0 <= i < k ==> bytes[i] == 0xff
    ensures k < len ==> bytes[k] != 0xff
  {
    k := 0;
    while bytes[k] == 0xff && k < len
      invariant k <= len && forall i :: 0 <= i < k ==> bytes[i] == 0xff
      decreases len - k
    {
      k := k + 1;
    }
  }

  method FirstFreeBit(b: bv8) returns (k: nat)
    requires b != 0xff
    ensures k < 8 && b & Mask(k) == 0 && forall i :: 0 <= i < k ==> b & Mask(i) != 0
  {
    FullByte(b);
    k := 0;
    while k < 8 && Mask(k) & b != 0
      invariant k <= 8 && forall i :: 0 <= i < k ==> b & Mask(i) != 0
    {
      k := k + 1;
    }
  }

  /** The bits before the first free one are all set. */
  lemma PrefixFull(bytes: seq<bv8>, kb: nat, k: nat, i: nat)
    requires kb < |bytes| && k < 8 && i < 8 * kb + k
    requires forall j :: 0 <= j < kb ==> bytes[j] == 0xff
    requires forall j :: 0 <= j < k ==> bytes[kb] & Mask(j) != 0
    ensures Bit(bytes, i)
  {
    if i / 8 < kb { FullByte(bytes[i / 8]); }
  }

  lemma AllBytesFull(bytes: seq<bv8>, len: nat)
    requires len <= |bytes| && forall j :: 0 <= j < len ==> bytes[j] == 0xff
    ensures Full(View(bytes, 8 * len))
  {
    forall i | 0 <= i < 8 * len ensures View(bytes, 8 * len)[i] {
      FullByte(bytes[i / 8]);
      ViewAt(bytes, 8 * len, i);
    }
  }

  /** `bitmap_scan`: the bitmap is the first `len` bytes; at least one more byte of memory
      follows, because the code reads it. */
  method Scan(bytes: seq<bv8>, len: nat, cnt: nat) returns (r: ScanResult)
    requires len < |bytes|
    ensures cnt >= 1 ==> r == ScanSpec(View(bytes, 8 * len), Bit(bytes, 8 * len), cnt)
    ensures r.Halt? <==> Full(View(bytes, 8 * len))
    ensures cnt == 0 && r.Result? && r.found.At? ==> 1 <= r.found.start <= 8 * len + 1 && Bit(bytes, r.found.start - 1)
  {
    var some, first := FirstFree(bytes, len);
    if !some { return Halt; }
    if cnt == 1 {
      OneBit(View(bytes, 8 * len), first);
      return Result(At(first));
    }
    ViewMore(bytes, 8 * len);
    var found := ScanRest(bytes, 8 * len, first, cnt);
    r := Result(found);
  }

  /** Lines 26-43: the first clear bit. */
  method FirstFree(bytes: seq<bv8>, len: nat) returns (some: bool, first: nat)
    requires len < |bytes|
    ensures !some ==> Full(View(bytes, 8 * len))
    ensures some ==> first < 8 * len && !View(bytes, 8 * len)[first] && SetBelow(View(bytes, 8 * len), first)
  {
    var kb := FirstFreeByte(bytes, len);
    if kb == len {
      AllBytesFull(bytes, len);
      return false, 0;
    }
    var kk := FirstFreeBit(bytes[kb]);
    some, first := true, 8 * kb + kk;
    FirstAt(bytes, len, kb, kk);
  }

  lemma FirstAt(bytes: seq<bv8>, len: nat, kb: nat, kk: nat)
    requires kb < len < |bytes| && kk < 8 && bytes[kb] & Mask(kk) == 0
    requires forall j :: 0 <= j < kb ==> bytes[j] == 0xff
    requires forall j :: 0 <= j < kk ==> bytes[kb] & Mask(j) != 0
    ensures !View(bytes, 8 * len)[8 * kb + kk] && SetBelow(View(bytes, 8 * len), 8 * kb + kk)
  {
    var v, first := View(bytes, 8 * len), 8 * kb + kk;
    assert first / 8 == kb && first % 8 == kk;
    ViewAt(bytes, 8 * len, first);
    forall i | 0 <= i < first ensures v[i] {
      PrefixFull(bytes, kb, kk, i);
      ViewAt(bytes, 8 * len, i);
    }
  }

  lemma OneBit(v: seq<bool>, first: nat)
    requires first < |v| && !v[first] && forall i :: 0 <= i < first ==> v[i]
    ensures FirstFit(v, 1) == At(first)
  {
    forall q | 0 <= q < first ensures !ClearRun(v, q, 1) { assert v[q]; }
    FirstFitUnique(v, 1, At(first));
  }

  ghost predicate SetBelow(v: seq<bool>, first: nat) {
    first <= |v| && forall i :: 0 <= i < first ==> v[i]
  }

  /** The counting loop at lines 47-63, over `total` bits and the bit just past them; the
      loop tests the bits first+1 up to and including that last one. */
  method ScanRest(bytes: seq<bv8>, total: nat, first: nat, cnt: nat) returns (r: Found)
    requires total < 8 * |bytes| && first < total && cnt != 1 && !View(bytes, total + 1)[first]
    requires SetBelow(View(bytes, total + 1), first)
    ensures cnt >= 2 ==> r == FirstFit(View(bytes, total + 1), cnt)
    ensures cnt == 0 && r.At? ==> 1 <= r.start <= total + 1 && Bit(bytes, r.start - 1)
  {
    ghost var v := View(bytes, total + 1);
    var left := total - first;
    var next := first + 1;
    var count := 1;
    forall q | 0 <= q && q + cnt <= next && cnt >= 2 ensures !ClearRun(v, q, cnt) { assert v[q]; }
    while left > 0
      invariant next + left == |v| && first < next && 0 <= left
      invariant 0 <= count <= next - first
      invariant cnt >= 2 ==> count < cnt
      invariant forall j :: next - count <= j < next ==> !v[j]
      invariant next - count > 0 && count < next - first ==> v[next - count - 1]
      invariant cnt >= 2 ==> forall q :: 0 <= q && q + cnt <= next ==> !ClearRun(v, q, cnt)
    {
      ghost var old_count := count;
      ViewAt(bytes, total + 1, next);
      if !Bit(bytes, next) { count := count + 1; } else { count := 0; }
      if count == cnt {
        r := At(next - cnt + 1);
        if cnt >= 2 {
          NoEarlierRun(v, cnt, next, old_count, first);
          FirstFitUnique(v, cnt, r);
        }
        return;
      }
      if cnt >= 2 { NoRunEndsHere(v, cnt, next, old_count, first); }
      next := next + 1;
      left := left - 1;
    }
    r := None;
    if cnt >= 2 { FirstFitUnique(v, cnt, r); }
  }

  lemma NoEarlierRun(v: seq<bool>, cnt: nat, next: nat, count: nat, first: nat)
    requires cnt >= 2 && next < |v| && count + 1 == cnt && count <= next - first
    requires forall q :: 0 <= q && q + cnt <= next ==> !ClearRun(v, q, cnt)
    requires forall j :: next - count <= j <= next ==> !v[j]
    ensures ClearRun(v, next - cnt + 1, cnt) && forall q :: 0 <= q < next - cnt + 1 ==> !ClearRun(v, q, cnt)
  {
  }

  lemma NoRunEndsHere(v: seq<bool>, cnt: nat, next: nat, count: nat, first: nat)
    requires cnt >= 2 && next < |v| && first < next && count <= next - first && count < cnt
    requires forall q :: 0 <= q && q + cnt <= next ==> !ClearRun(v, q, cnt)
    requires forall i :: 0 <= i < first ==> v[i]
    requires next - count > 0 && count < next - first ==> v[next - count - 1]
    requires !v[next] ==> count + 1 < cnt
    ensures forall q :: 0 <= q && q + cnt <= next + 1 ==> !ClearRun(v, q, cnt)
  {
    forall q | 0 <= q && q + cnt <= next + 1 ensures !ClearRun(v, q, cnt) {
      if q + cnt == next + 1 {
        if v[next] {
        } else if count < next - first {
          assert q <= next - count - 1 < q + cnt && v[next - count - 1];
        } else {
          assert q < first;
          assert v[q];
        }
      }
    }
  }

  // ----- what the off-by-one means ------------------------------------------------------

  /** A run that ends on the bit behind the bitmap. */
  predicate Overruns(v: seq<bool>, behind: bool, cnt: nat) {
    ScanSpec(v, behind, cnt).Result? && ScanSpec(v, behind, cnt).found.At? && ScanSpec(v, behind, cnt).found.start + cnt > |v|
  }

  /** Provided the bit just past the end is set, or the last bit is, the scan is exact
      first fit over the bitmap; so it is for a single bit. */
  lemma ScanExact(v: seq<bool>, behind: bool, cnt: nat)
    requires !Full(v) && cnt >= 1 && (cnt == 1 || behind || v[|v| - 1])
    ensures ScanSpec(v, behind, cnt) == Result(FirstFit(v, cnt)) && !Overruns(v, behind, cnt)
  {
    var w := v + [behind];
    if cnt >= 2 {
      forall q | 0 <= q ensures ClearRun(w, q, cnt) <==> ClearRun(v, q, cnt) {
        SameRun(v, behind, q, cnt);
        if ClearRun(w, q, cnt) && q + cnt == |w| { assert w[|v| - 1] == v[|v| - 1] && w[|v|] == behind; }
      }
      FirstFitUnique(v, cnt, FirstFit(w, cnt));
    }
  }

  lemma SameRun(v: seq<bool>, behind: bool, q: nat, cnt: nat)
    ensures q + cnt <= |v| ==> (ClearRun(v + [behind], q, cnt) <==> ClearRun(v, q, cnt))
  {
    if q + cnt <= |v| { assert forall j :: q <= j < q + cnt ==> (v + [behind])[j] == v[j]; }
  }

  /** Whatever the memory behind the bitmap holds, a result overruns by at most one bit. */
  lemma ScanBound(v: seq<bool>, behind: bool, cnt: nat)
    requires ScanSpec(v, behind, cnt).Result? && ScanSpec(v, behind, cnt).found.At?
    ensures ScanSpec(v, behind, cnt).found.start + cnt <= |v| + 1
  {
  }

  /** The scan overruns exactly when a page is left but no run fits inside, and the last
      cnt-1 bits and the bit past the end are all clear. */
  lemma ScanOverruns(v: seq<bool>, behind: bool, cnt: nat)
    requires cnt >= 2
    ensures Overruns(v, behind, cnt)
            <==> !Full(v) && FirstFit(v, cnt).None? && !behind && cnt <= |v| + 1 && ClearRun(v, |v| + 1 - cnt, cnt - 1)
  {
    var w := v + [behind];
    forall q | 0 <= q && q + cnt <= |v| ensures ClearRun(w, q, cnt) <==> ClearRun(v, q, cnt) { SameRun(v, behind, q, cnt); }
    if cnt <= |v| + 1 {
      var q := |v| + 1 - cnt;
      SameRun(v, behind, q, cnt - 1);
      assert ClearRun(w, q, cnt) <==> ClearRun(w, q, cnt - 1) && !w[|v|];
    }
  }

  /** What a scan of the bitmap finds inside it. */
  lemma ScanInside(v: seq<bool>, behind: bool, cnt: nat)
    requires cnt >= 1 && ScanSpec(v, behind, cnt).Result? && !Overruns(v, behind, cnt)
    ensures ScanSpec(v, behind, cnt).found == FirstFit(v, cnt)
  {
    var w := v + [behind];
    if cnt >= 2 {
      var f := FirstFit(w, cnt);
      forall q | 0 <= q && q + cnt <= |v| ensures ClearRun(w, q, cnt) <==> ClearRun(v, q, cnt) { SameRun(v, behind, q, cnt); }
      FirstFitUnique(v, cnt, f);
    }
  }

  // ----- setting a bit ---------------------------------------------------------------------

  lemma SetBit(b: bv8, k: nat, j: nat)
    requires k < 8 && j < 8
    ensures (b | Mask(k)) & Mask(j) != 0 <==> (j == k || b & Mask(j) != 0)
  {
    if k == 0 {} else if k == 1 {} else if k == 2 {} else if k == 3 {}
    else if k == 4 {} else if k == 5 {} else if k == 6 {} else {}
  }

  lemma ClearBit(b: bv8, k: nat, j: nat)
    requires k < 8 && j < 8
    ensures (b & !Mask(k)) & Mask(j) != 0 <==> (j != k && b & Mask(j) != 0)
  {
    if k == 0 {} else if k == 1 {} else if k == 2 {} else if k == 3 {}
    else if k == 4 {} else if k == 5 {} else if k == 6 {} else {}
  }

  function SetInByte(b: bv8, k: nat, value: bool): (r: bv8)
    requires k < 8
  {
    if value then b | Mask(k) else b & !Mask(k)
  }

  lemma SetInByteBit(b: bv8, k: nat, value: bool, j: nat)
    requires k < 8 && j < 8
    ensures SetInByte(b, k, value) & Mask(j) != 0 <==> (if j == k then value else b & Mask(j) != 0)
  {
    SetBit(b, k, j);
    ClearBit(b, k, j);
  }

  lemma SetInBytes(bytes: seq<bv8>, i: nat, value: bool, j: nat)
    requires i / 8 < |bytes| && j / 8 < |bytes|
    ensures Bit(bytes[i / 8 := SetInByte(bytes[i / 8], i % 8, value)], j) == if j == i then value else Bit(bytes, j)
  {
    var m, k := i / 8, i % 8;
    if j / 8 == m {
      SetInByteBit(bytes[m], k, value, j % 8);
    }
  }

  /** `bitmap_set` on bytes. */
  function Put(bytes: seq<bv8>, i: nat, value: bool): (r: seq<bv8>)
    requires i / 8 < |bytes|
    ensures |r| == |bytes|
  {
    bytes[i / 8 := SetInByte(bytes[i / 8], i % 8, value)]
  }

  /** Exactly bit `i` becomes `value`. */
  lemma PutView(bytes: seq<bv8>, i: nat, value: bool, n: nat)
    requires i < n <= 8 * |bytes|
    ensures View(Put(bytes, i, value), n) == View(bytes, n)[i := value]
  {
    var v := View(bytes, n)[i := value];
    forall j | 0 <= j < n ensures v[j] == Bit(Put(bytes, i, value), j) {
      SetInBytes(bytes, i, value, j);
      ViewAt(bytes, n, j);
    }
    ViewIs(Put(bytes, i, value), v);
  }

  /** The bits behind the bitmap stay. */
  lemma PutBehind(bytes: seq<bv8>, i: nat, value: bool, j: nat)
    requires i < j < 8 * |bytes|
    ensures Bit(Put(bytes, i, value), j) == Bit(bytes, j)
  {
    SetInBytes(bytes, i, value, j);
  }

  /** `bitmap_set` in memory. */
  method Set(bits: array<bv8>, i: nat, value: bool)
    requires i / 8 < bits.Length
    modifies bits
    ensures bits[..] == Put(old(bits[..]), i, value)
    ensures View(bits[..], 8 * bits.Length) == View(old(bits[..]), 8 * bits.Length)[i := value]
  {
    ghost var before := bits[..];
    PutView(before, i, value, 8 * bits.Length);
    bits[i / 8] := SetInByte(bits[i / 8], i % 8, value);
    assert bits[..] == Put(before, i, value);
  }

  // ----- runs of bits ----------------------------------------------------------------------------

  function SetRange(v: seq<bool>, from: nat, n: nat, value: bool): (r: seq<bool>)
    ensures |r| == |v| && forall j :: 0 <= j < |v| ==> r[j] == if from <= j < from + n then value else v[j]
  {
    seq(|v|, j requires 0 <= j < |v| => if from <= j < from + n then value else v[j])
  }

  lemma SetRangeNone(v: seq<bool>, from: nat, value: bool)
    ensures SetRange(v, from, 0, value) == v
  {
  }

  lemma SetRangeMore(v: seq<bool>, from: nat, n: nat, value: bool)
    requires from + n < |v|
    ensures SetRange(v, from, n + 1, value) == SetRange(v, from, n, value)[from + n := value]
  {
  }

  /** The loops of `vaddr_get` and `vaddr_remove`: the bits from..from+n of a bitmap. */
  method PutRange(bytes: seq<bv8>, len: nat, from: nat, n: nat, value: bool) returns (r: seq<bv8>)
    requires len < |bytes| && from + n <= 8 * len
    ensures |r| == |bytes| && View(r, 8 * len) == SetRange(View(bytes, 8 * len), from, n, value)
    ensures Bit(r, 8 * len) == Bit(bytes, 8 * len)
  {
    r := bytes;
    ghost var v := View(bytes, 8 * len);
    SetRangeNone(v, from, value);
    var cnt := 0;
    while cnt < n
      invariant 0 <= cnt <= n && |r| == |bytes|
      invariant View(r, 8 * len) == SetRange(v, from, cnt, value)
      invariant Bit(r, 8 * len) == Bit(bytes, 8 * len)
    {
      PutView(r, from + cnt, value, 8 * len);
      PutBehind(r, from + cnt, value, 8 * len);
      SetRangeMore(v, from, cnt, value);
      r := Put(r, from + cnt, value);
      cnt := cnt + 1;
    }
  }

  /** Setting the bit behind the bitmap leaves the bitmap alone. */
  lemma PutPast(bytes: seq<bv8>, len: nat)
    requires len < |bytes|
    ensures View(Put(bytes, 8 * len, true), 8 * len) == View(bytes, 8 * len) && Bit(Put(bytes, 8 * len, true), 8 * len)
  {
    var v := View(bytes, 8 * len);
    forall j | 0 <= j < 8 * len ensures v[j] == Bit(Put(bytes, 8 * len, true), j) {
      SetInBytes(bytes, 8 * len, true, j);
      ViewAt(bytes, 8 * len, j);
    }
    ViewIs(Put(bytes, 8 * len, true), v);
    SetInBytes(bytes, 8 * len, true, 8 * len);
  }

  /** Scan for n bits and set them, as `vaddr_get` does.  A run that passes the end sets the
      bit behind the bitmap. */
  method TakeRun(bytes: seq<bv8>, len: nat, n: nat) returns (got: ScanResult, r: seq<bv8>)
    requires len < |bytes| && n >= 1
    ensures |r| == |bytes| && got == ScanSpec(View(bytes, 8 * len), Bit(bytes, 8 * len), n)
    ensures !(got.Result? && got.found.At?) ==> r == bytes
    ensures got.Result? && got.found.At? ==> View(r, 8 * len) == SetRange(View(bytes, 8 * len), got.found.start, n, true)
    ensures got.Result? && got.found.At? ==> Bit(r, 8 * len) == (Bit(bytes, 8 * len) || got.found.start + n > 8 * len)
  {
    got := Scan(bytes, len, n);
    r := bytes;
    if got.Halt? || got.found.None? { return; }
    ghost var v := View(bytes, 8 * len);
    ScanBound(v, Bit(bytes, 8 * len), n);
    var start := got.found.start;
    var over := start + n > 8 * len;
    r := PutRange(bytes, len, start, if over then n - 1 else n, true);
    if over {
      PutPast(r, len);
      r := Put(r, 8 * len, true);
      assert SetRange(v, start, n - 1, true) == SetRange(v, start, n, true);
    }
  }

  // ----- the numbers of the set bits -----------------------------------------------------------------

  /** The bit of number f in a bitmap whose first bit stands for `start`. */
  predicate BitAt(start: nat, bits: seq<bool>, f: nat)
    requires start <= f < start + |bits|
  {
    bits[f - start]
  }

  function Marked(start: nat, bits: seq<bool>): (r: set<nat>) {
    if bits == [] then {}
    else Marked(start, bits[..|bits| - 1]) + if bits[|bits| - 1] then {start + |bits| - 1} else {}
  }

  lemma {:induction false} InMarked(start: nat, bits: seq<bool>)
    ensures forall f :: f in Marked(start, bits) <==> start <= f < start + |bits| && BitAt(start, bits, f)
  {
    if bits != [] {
      var rest := bits[..|bits| - 1];
      InMarked(start, rest);
      assert forall f :: start <= f < start + |rest| ==> BitAt(start, rest, f) == BitAt(start, bits, f);
    }
  }

  lemma MarkedUpdate(start: nat, bits: seq<bool>, i: nat, value: bool)
    requires i < |bits|
    ensures Marked(start, bits[i := value]) == if value then Marked(start, bits) + {start + i} else Marked(start, bits) - {start + i}
  {
    InMarked(start, bits);
    InMarked(start, bits[i := value]);
    assert forall f :: start <= f < start + |bits| ==> BitAt(start, bits[i := value], f) == if f == start + i then value else BitAt(start, bits, f);
  }

  /** The set of numbers determines the bits. */
  lemma MarkedUnique(start: nat, a: seq<bool>, b: seq<bool>)
    requires |a| == |b| && Marked(start, a) == Marked(start, b)
    ensures a == b
  {
    InMarked(start, a);
    InMarked(start, b);
    forall i | 0 <= i < |a| ensures a[i] == b[i] {
      assert BitAt(start, a, start + i) == a[i] && BitAt(start, b, start + i) == b[i];
      assert start + i in Marked(start, a) <==> start + i in Marked(start, b);
    }
  }

  /** One unit out of a bitmap, as `pmalloc` and `block_bitmap_alloc` take it: the least
      clear bit, or a halt on a full bitmap. */
  method TakeOne(bytes: seq<bv8>, len: nat, ghost start: nat) returns (ok: bool, i: nat, r: seq<bv8>)
    requires len < |bytes|
    ensures |r| == |bytes| && ok == !Full(View(bytes, 8 * len))
    ensures !ok ==> r == bytes
    ensures ok ==> i < 8 * len && View(r, 8 * len) == View(bytes, 8 * len)[i := true]
    ensures ok ==> start + i !in Marked(start, View(bytes, 8 * len)) && Marked(start, View(r, 8 * len)) == Marked(start, View(bytes, 8 * len)) + {start + i}
    ensures ok ==> forall f :: start <= f < start + i ==> f in Marked(start, View(bytes, 8 * len))
  {
    ghost var v := View(bytes, 8 * len);
    var got := Scan(bytes, len, 1);
    InMarked(start, v);
    if got.Halt? { return false, 0, bytes; }
    i := got.found.start;
    forall f | start <= f < start + i ensures f in Marked(start, v) {
      assert !ClearRun(v, f - start, 1);
      assert BitAt(start, v, f);
    }
    assert !BitAt(start, v, start + i);
    PutView(bytes, i, true, 8 * len);
    MarkedUpdate(start, v, i, true);
    ok, r := true, Put(bytes, i, true);
  }

  /** One unit given back. */
  method GiveOne(bytes: seq<bv8>, len: nat, i: nat, ghost start: nat) returns (r: seq<bv8>)
    requires len < |bytes| && i < 8 * len
    ensures |r| == |bytes| && View(r, 8 * len) == View(bytes, 8 * len)[i := false]
    ensures Marked(start, View(r, 8 * len)) == Marked(start, View(bytes, 8 * len)) - {start + i}
  {
    PutView(bytes, i, false, 8 * len);
    MarkedUpdate(start, View(bytes, 8 * len), i, false);
    r := Put(bytes, i, false);
  }

  /** The number of clear bits. */
  function Clear(v: seq<bool>): (n: nat)
    ensures n <= |v|
  {
    if v == [] then 0 else Clear(v[..|v| - 1]) + if v[|v| - 1] then 0 else 1
  }

  lemma {:induction false} ClearNone(v: seq<bool>)
    ensures Clear(v) == 0 <==> Full(v)
  {
    if v != [] {
      ClearNone(v[..|v| - 1]);
      assert Full(v) <==> Full(v[..|v| - 1]) && v[|v| - 1];
    }
  }

  lemma {:induction false} ClearTaken(v: seq<bool>, i: nat)
    requires i < |v| && !v[i]
    ensures Clear(v[i := true]) == Clear(v) - 1
  {
    var n := |v| - 1;
    if i == n {
      assert v[i := true][..n] == v[..n];
    } else {
      assert v[i := true][..n] == v[..n][i := true];
      ClearTaken(v[..n], i);
    }
  }
}
