/** The transfers of dev/ide.c: `ide_read` and `ide_write` split a transfer into commands of
    at most 256 sectors, whose count is passed in one byte, 0 standing for 256.  The lock and
    the interrupt around each command are in Sync.dfy. */
module Ide {
  import opened Files

  /** `secs_op` as the uint8_t parameter of `select_sector` and of the data routines. */
  function CountByte(n: nat): (b: Byte) { n % 256 }

  /** The number of sectors that a count byte stands for. */
  function Meant(b: Byte): (n: nat)
    ensures 1 <= n <= 256 && CountByte(n) == b
  {
    if b == 0 then 256 else b
  }

  /** Sector i of a buffer. */
  function Part(buf: seq<Byte>, i: nat): (s: Sector)
    requires 512 * i + 512 <= |buf|
  {
    buf[512 * i..512 * i + 512]
  }

  /** The buffer holds the sectors from lba on. */
  ghost predicate Holds(d: Disk, lba: nat, buf: seq<Byte>, n: nat) {
    |buf| == 512 * n && forall i {:trigger SectorAt(d, lba + i)} {:trigger Part(buf, i)} :: 0 <= i < n ==> Part(buf, i) == SectorAt(d, lba + i)
  }

  /** e is d with the sectors lba.. replaced by the first n of the buffer. */
  ghost predicate Replaced(d: Disk, e: Disk, lba: nat, buf: seq<Byte>, n: nat) {
    512 * n <= |buf|
    && forall x: nat {:trigger SectorAt(e, x)} :: SectorAt(e, x) == if lba <= x < lba + n then Part(buf, x - lba) else SectorAt(d, x)
  }

  lemma HoldsMore(d: Disk, lba: nat, buf: seq<Byte>, n: nat, s: Sector)
    requires Holds(d, lba, buf, n) && s == SectorAt(d, lba + n)
    ensures Holds(d, lba, buf + s, n + 1)
  {
    var longer := buf + s;
    forall i | 0 <= i < n + 1 ensures Part(longer, i) == SectorAt(d, lba + i) {
      if i < n {
        assert Part(longer, i) == Part(buf, i);
      } else {
        assert Part(longer, i) == s;
      }
    }
  }

  lemma ReplacedMore(d: Disk, e: Disk, lba: nat, buf: seq<Byte>, n: nat)
    requires Replaced(d, e, lba, buf, n) && 512 * n + 512 <= |buf|
    ensures Replaced(d, e[lba + n := Part(buf, n)], lba, buf, n + 1)
  {
    var f := e[lba + n := Part(buf, n)];
    forall x: nat ensures SectorAt(f, x) == if lba <= x < lba + n + 1 then Part(buf, x - lba) else SectorAt(d, x) {
      assert x != lba + n ==> SectorAt(f, x) == SectorAt(e, x);
    }
  }

  /** Where the last command of a transfer of n sectors starts. */
  function LastCommand(n: nat): (k: nat) { if n == 0 then 0 else 256 * ((n - 1) / 256) }

  /** Every command so far started within the disk. */
  predicate CommandsFit(lba: nat, done: nat, cnt: nat, max: nat) {
    (done == cnt || done % 256 == 0) && lba + LastCommand(done) <= max
  }

  lemma CommandStart(done: nat, op: nat, cnt: nat)
    requires done < cnt && done % 256 == 0 && op == if done + 256 <= cnt then 256 else cnt - done
    ensures 1 <= op <= 256 && Meant(CountByte(op)) == op && LastCommand(done + op) == done <= LastCommand(cnt)
    ensures done + op == cnt || (done + op) % 256 == 0
  {
  }

  class Drive {
    var disk: Disk
    const max_lba: nat

    /** One read command: as many sectors as the count byte means. */
    method ReadCommand(lba: nat, count: Byte, buf: seq<Byte>, ghost start: nat, ghost done: nat) returns (r: seq<Byte>)
      requires Holds(disk, start, buf, done) && lba == start + done && lba <= max_lba
      ensures Holds(disk, start, r, done + Meant(count))
    {
      r := buf;
      var k := 0;
      while k < Meant(count)
        invariant 0 <= k <= Meant(count) && Holds(disk, start, r, done + k)
      {
        HoldsMore(disk, start, r, done + k, SectorAt(disk, lba + k));
        r := r + SectorAt(disk, lba + k);
        k := k + 1;
      }
    }

    /** `ide_read`: the buffer receives exactly the sectors asked for, in order.  It halts in an
        ASSERT exactly for no sectors or when a command would start beyond `max_lba`. */
    method IdeRead(lba: nat, sec_cnt: nat) returns (ok: bool, buf: seq<Byte>)
      ensures ok <==> sec_cnt > 0 && lba + LastCommand(sec_cnt) <= max_lba
      ensures ok ==> Holds(disk, lba, buf, sec_cnt)
    {
      buf := [];
      if !(lba <= max_lba && sec_cnt > 0) { return false, buf; }               // the ASSERTs at lines 150 and 151
      var secs_done := 0;
      while secs_done < sec_cnt
        invariant 0 <= secs_done <= sec_cnt && Holds(disk, lba, buf, secs_done)
        invariant CommandsFit(lba, secs_done, sec_cnt, max_lba)
      {
        var secs_op := if secs_done + 256 <= sec_cnt then 256 else sec_cnt - secs_done;
        CommandStart(secs_done, secs_op, sec_cnt);
        if lba + secs_done > max_lba { return false, buf; }                    // the ASSERT at line 91
        buf := ReadCommand(lba + secs_done, CountByte(secs_op), buf, lba, secs_done);
        secs_done := secs_done + secs_op;
      }
      ok := true;
    }

    /** One write command, from the part of the buffer that starts at sector `done`. */
    method WriteCommand(lba: nat, count: Byte, buf: seq<Byte>, done: nat, ghost d: Disk, ghost start: nat)
      requires Replaced(d, disk, start, buf, done) && lba == start + done && 512 * (done + Meant(count)) <= |buf| && lba <= max_lba
      modifies this`disk
      ensures Replaced(d, disk, start, buf, done + Meant(count))
    {
      var k := 0;
      while k < Meant(count)
        invariant 0 <= k <= Meant(count) && Replaced(d, disk, start, buf, done + k)
      {
        ReplacedMore(d, disk, start, buf, done + k);
        disk := disk[lba + k := Part(buf, done + k)];
        k := k + 1;
      }
    }

    /** `ide_write`: exactly the sectors asked for are replaced, in order; it halts as
        `ide_read` does. */
    method IdeWrite(lba: nat, buf: seq<Byte>, sec_cnt: nat) returns (ok: bool)
      requires |buf| == 512 * sec_cnt
      modifies this`disk
      ensures ok <==> sec_cnt > 0 && lba + LastCommand(sec_cnt) <= max_lba
      ensures ok ==> Replaced(old(disk), disk, lba, buf, sec_cnt)
    {
      if !(lba <= max_lba && sec_cnt > 0) { return false; }                    // the ASSERTs at lines 193 and 194
      var secs_done := 0;
      while secs_done < sec_cnt
        invariant 0 <= secs_done <= sec_cnt && Replaced(old(disk), disk, lba, buf, secs_done)
        invariant CommandsFit(lba, secs_done, sec_cnt, max_lba)
      {
        var secs_op := if secs_done + 256 <= sec_cnt then 256 else sec_cnt - secs_done;
        CommandStart(secs_done, secs_op, sec_cnt);
        if lba + secs_done > max_lba { return false; }                         // the ASSERT at line 91
        WriteCommand(lba + secs_done, CountByte(secs_op), buf, secs_done, old(disk), lba);
        secs_done := secs_done + secs_op;
      }
      ok := true;
    }
  }

  /** What was written is read back, and only that determines what is read. */
  lemma WriteThenRead(d: Disk, e: Disk, lba: nat, buf: seq<Byte>, r: seq<Byte>, n: nat)
    requires |buf| == 512 * n && Replaced(d, e, lba, buf, n) && Holds(e, lba, r, n)
    ensures r == buf
  {
    forall k | 0 <= k < 512 * n ensures r[k] == buf[k] {
      var i := k / 512;
      assert Part(r, i) == SectorAt(e, lba + i) == Part(buf, i);
      assert Part(r, i)[k - 512 * i] == r[k] && Part(buf, i)[k - 512 * i] == buf[k];
    }
  }
}
