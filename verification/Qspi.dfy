/** qspi.c: writing a flash that can only be erased page by page and only clears
    bits when programmed. */
module Qspi {
  import opened Bytes
  import opened Bits
  import opened Errno

  // ---- the device -----------------------------------------------------------------

  const WRITE_ENABLE: byte := 0x06
  const EXT_ADDR_WRITE: byte := 0xC5
  const QUAD_READ: byte := 0x6B
  const PAGE_PROGRAM: byte := 0x02
  const QUAD_WRITE: byte := 0x32
  const ERASE_4K: byte := 0x20
  const ERASE_32K: byte := 0x52
  const ERASE_64K: byte := 0xD8

  const SECTOR := 0x100_0000
  const PAGE := 0x1000
  const LARGE_PAGE := 0x8000
  const HUGE_PAGE := 0x1_0000

  /** One flash device: its bytes, the extended address register, the write
      enable latch, and whether an erase or program is still going on. */
  datatype Chip = Chip(mem: seq<byte>, sector: byte, wel: bool, busy: bool)

  function EraseSize(op: byte): nat {
    if op == ERASE_4K then PAGE
    else if op == ERASE_32K then LARGE_PAGE
    else if op == ERASE_64K then HUGE_PAGE
    else 0
  }

  predicate IsProgram(op: byte) {
    op == PAGE_PROGRAM || op == QUAD_WRITE
  }

  function CmdAddr(sector: byte, cmd: seq<byte>): (r: int)
    requires |cmd| >= 4
    ensures r >= 0
  {
    sector as int * SECTOR + cmd[1] as int * 0x1_0000 + cmd[2] as int * 0x100 + cmd[3] as int
  }

  /** The bytes [a, b) a command changes: none, unless the device is idle and
      writing was enabled. */
  function Affects(chip: Chip, cmd: seq<byte>): (r: (int, int))
    ensures r.0 <= r.1
  {
    if |cmd| < 4 || !chip.wel || chip.busy then (0, 0)
    else
      var addr := CmdAddr(chip.sector, cmd);
      if EraseSize(cmd[0]) > 0 then
        var a := addr - addr % EraseSize(cmd[0]);
        (a, a + EraseSize(cmd[0]))
      else if IsProgram(cmd[0]) then (addr, addr + |cmd| - 4)
      else (0, 0)
  }

  /** What a device does with a command it received completely. */
  function Respond(chip: Chip, cmd: seq<byte>): Chip {
    if chip.busy then chip
    else if cmd == [WRITE_ENABLE] then chip.(wel := true)
    else if |cmd| == 2 && cmd[0] == EXT_ADDR_WRITE then
      if chip.wel then chip.(sector := cmd[1], wel := false) else chip
    else
      var (a, b) := Affects(chip, cmd);
      if a < b <= |chip.mem| then
        Chip(seq(|chip.mem|, i requires 0 <= i < |chip.mem| =>
               if i < a || b <= i then chip.mem[i]
               else if IsProgram(cmd[0]) && i - a + 4 < |cmd| then And(chip.mem[i], cmd[i - a + 4])
               else 0xFF),
             chip.sector, false, true)
      else chip
  }

  /** Nothing outside [a, b) differs. */
  predicate SameOutside(s: seq<byte>, t: seq<byte>, a: int, b: int) {
    |s| == |t| && forall j :: 0 <= j < |s| && (j < a || b <= j) ==> s[j] == t[j]
  }

  // ---- the driver -------------------------------------------------------------------

  datatype Faddr = Faddr(slave: byte, sector: byte, hi: byte, mid: byte, lo: byte)

  /** qspi_offset2faddr; shifts of a signed 64-bit offset, cut to eight bits. */
  function Offset2Faddr(off: int): Faddr {
    Faddr(off / 0x100_0000_0000_0000 % 256, off / SECTOR % 256, off / 0x1_0000 % 256, off / 0x100 % 256, off % 256)
  }

  /** qspi_faddr2offset, as an unsigned number. */
  function Faddr2Offset(f: Faddr): int {
    ((f.sector * 0x100 + f.hi) * 0x100 + f.mid) * 0x100 + f.lo + f.slave * 0x100_0000_0000_0000
  }

  lemma LowBytes(off: int)
    ensures off % U32_LIMIT ==
            off / SECTOR % 256 * SECTOR + off / 0x1_0000 % 256 * 0x1_0000 + off / 0x100 % 256 * 0x100 + off % 256
  {
    var q1 := off / 0x100;
    var q2 := q1 / 0x100;
    var q3 := q2 / 0x100;
    var q4 := q3 / 0x100;
    assert off / 0x1_0000 == q2 && off / SECTOR == q3;
    var low := q3 % 256 * SECTOR + q2 % 256 * 0x1_0000 + q1 % 256 * 0x100 + off % 256;
    assert off == q4 * U32_LIMIT + low;
    assert 0 <= low < U32_LIMIT;
  }

  const TOP := 0x100_0000_0000_0000

  lemma Reassembled(off: int)
    ensures Faddr2Offset(Offset2Faddr(off).(slave := 0)) == off % U32_LIMIT
    ensures Faddr2Offset(Offset2Faddr(off)) == off % U32_LIMIT + off / TOP % 256 * TOP
  {
    LowBytes(off);
  }

  lemma SplitTop(off: int)
    requires 0 <= off < 256 * TOP
    ensures off == off / TOP * TOP + off % TOP && 0 <= off / TOP < 256
    ensures off % U32_LIMIT == off % TOP % U32_LIMIT
  {
    var rest := off % TOP;
    assert off == (off / TOP * 0x100_0000) * U32_LIMIT + rest;
  }

  /** The split address keeps bits 0 to 31 and 56 to 63 and drops the rest, so it
      names the offset back exactly when those are zero. */
  lemma FaddrRoundTrip(off: int)
    requires 0 <= off < 256 * TOP
    ensures Faddr2Offset(Offset2Faddr(off)) == off % U32_LIMIT + off / TOP * TOP
    ensures Faddr2Offset(Offset2Faddr(off)) == off <==> off % TOP < U32_LIMIT
  {
    hide Faddr2Offset, Offset2Faddr;
    Reassembled(off);
    SplitTop(off);
  }

  /** is_valid_offset */
  predicate IsValidOffset(size: int, off: int) {
    Faddr2Offset(Offset2Faddr(off).(slave := 0)) < size
  }

  /** The number of bytes a write or read request is cut to, in 64-bit unsigned
      arithmetic. */
  function Clamp(size: int, n: int, off: int): int {
    var left := (size - off) % 0x1_0000_0000_0000_0000;
    if n < left then n else left
  }

  lemma LeftOver(size: int, off: int)
    requires 0 < size < U32_LIMIT && 0 <= off < 0x8000_0000_0000_0000
    ensures (size - off) % 0x1_0000_0000_0000_0000 ==
            if off <= size then size - off else size - off + 0x1_0000_0000_0000_0000
  {
  }

  /** Bits 32 to 55 are ignored by the check but not by the clamp: an accepted
      offset keeps every request inside the device exactly when it is a plain
      32-bit offset. */
  lemma ClampIff(size: int, off: int)
    requires 0 < size < U32_LIMIT && 0 <= off < 0x8000_0000_0000_0000 && IsValidOffset(size, off)
    ensures (forall n :: 0 <= n < 0x1_0000_0000_0000_0000 ==> off % U32_LIMIT + Clamp(size, n, off) <= size)
            <==> off < U32_LIMIT
  {
    hide Faddr2Offset, Offset2Faddr;
    Reassembled(off);
    LeftOver(size, off);
    if off >= U32_LIMIT {
      var left := size - off + 0x1_0000_0000_0000_0000;
      assert Clamp(size, left, off) == left;
    }
  }

  lemma ValidIsBelow(size: int, off: int)
    requires 0 < size < U32_LIMIT && 0 <= off < U32_LIMIT
    ensures IsValidOffset(size, off) <==> off < size
    ensures off < size ==> forall n :: 0 <= n ==> 0 <= Clamp(size, n, off) <= n && off + Clamp(size, n, off) <= size
  {
    hide Faddr2Offset, Offset2Faddr;
    Reassembled(off);
    LeftOver(size, off);
  }

  /** QSPI_PAGE_ROUNDUP: the end of the page an offset is in. */
  function PageRoundup(off: int): (r: int)
    requires off >= 0
    ensures off < r <= off + PAGE && r % PAGE == 0
  {
    if off % PAGE != 0 then (off + PAGE - 1) / PAGE * PAGE else off + PAGE
  }

  lemma SmallOffset(off: int)
    requires 0 <= off < 0x1000_0000
    ensures off % 0x1_0000_0000 == off && off / 0x100_0000 % 256 == off / 0x100_0000 < 16
  {
  }

  lemma CommandAddress(off: int)
    requires 0 <= off < 16 * SECTOR
    ensures var f := Offset2Faddr(off);
            f.sector < 16 && f.sector * SECTOR + f.hi * 0x1_0000 + f.mid * 0x100 + f.lo == off
  {
    LowBytes(off);
    SmallOffset(off);
  }

  lemma SectorByte(off: int, sector: byte, size: int)
    requires 0 <= off < size <= 16 * SECTOR && sector == Offset2Faddr(off).sector
    ensures sector == off / SECTOR && sector * SECTOR < size
  {
    assert 0 <= off / SECTOR < 16;
  }

  // ---- one command ---------------------------------------------------------------------

  /** A program command over erased bytes stores its payload. */
  lemma ProgramStores(chip: Chip, cmd: seq<byte>, off: int)
    requires |cmd| > 4 && IsProgram(cmd[0]) && chip.wel && !chip.busy
    requires off == CmdAddr(chip.sector, cmd) && off + |cmd| - 4 <= |chip.mem|
    requires Erased(chip.mem, off, off + |cmd| - 4)
    ensures Affects(chip, cmd) == (off, off + |cmd| - 4)
    ensures Respond(chip, cmd).sector == chip.sector
    ensures var m := Respond(chip, cmd).mem;
            SameOutside(chip.mem, m, off, off + |cmd| - 4) && HoldsAt(m, off, cmd[4..])
  {
    hide And, CmdAddr;
    var m := Respond(chip, cmd).mem;
    forall j | off <= j < off + |cmd| - 4 ensures m[j] == cmd[4..][j - off] {
      AndErased(cmd[j - off + 4]);
    }
  }

  /** A read command changes nothing on the device. */
  lemma ReadIsQuiet(chip: Chip, cmd: seq<byte>)
    requires |cmd| >= 8 && cmd[0] == QUAD_READ
    ensures Affects(chip, cmd) == (0, 0) && Respond(chip, cmd) == chip
  {
    hide CmdAddr;
  }

  lemma EraseErases(chip: Chip, cmd: seq<byte>, off: int, n: int)
    requires |cmd| == 4 && n == EraseSize(cmd[0]) > 0 && chip.wel && !chip.busy
    requires off == CmdAddr(chip.sector, cmd) && off % n == 0 && off + n <= |chip.mem|
    ensures Affects(chip, cmd) == (off, off + n)
    ensures Respond(chip, cmd).sector == chip.sector
    ensures var m := Respond(chip, cmd).mem; SameOutside(chip.mem, m, off, off + n) && Erased(m, off, off + n)
  {
    hide And, CmdAddr;
  }

  /** Every byte of [a, b) has all bits set. */
  predicate Erased(m: seq<byte>, a: int, b: int) {
    forall j :: a <= j < b && 0 <= j < |m| ==> m[j] == 0xFF
  }

  lemma ErasedPart(m: seq<byte>, a: int, b: int, c: int, d: int)
    requires Erased(m, a, b) && a <= c && d <= b
    ensures Erased(m, c, d)
  {
  }

  lemma Untouched(s: seq<byte>, t: seq<byte>)
    requires SameOutside(s, t, 0, 0)
    ensures s == t
  {
  }

  lemma Unchanged(s: seq<byte>, a: int, b: int)
    ensures SameOutside(s, s, a, b)
  {
  }

  lemma OutsideTrans(s: seq<byte>, t: seq<byte>, u: seq<byte>, a: int, b: int)
    requires SameOutside(s, t, a, b) && SameOutside(t, u, a, b)
    ensures SameOutside(s, u, a, b)
  {
  }

  lemma OutsideWiden(s: seq<byte>, t: seq<byte>, a: int, b: int, c: int, d: int)
    requires SameOutside(s, t, a, b) && (c <= a <= b <= d || a >= b)
    ensures SameOutside(s, t, c, d)
  {
  }

  lemma HeldOutside(s: seq<byte>, t: seq<byte>, a: int, b: int, p: int, v: seq<byte>)
    requires SameOutside(s, t, a, b) && HoldsAt(s, p, v) && (p + |v| <= a || b <= p)
    ensures HoldsAt(t, p, v)
  {
  }

  lemma HeldJoin(s: seq<byte>, p: int, v: seq<byte>, w: seq<byte>)
    requires HoldsAt(s, p, v) && HoldsAt(s, p + |v|, w)
    ensures HoldsAt(s, p, v + w)
  {
    forall j | p <= j < p + |v| + |w| ensures s[j] == (v + w)[j - p] {
      if j >= p + |v| {
        assert s[j] == w[j - (p + |v|)];
      }
    }
  }

  lemma SamePage(off: int, n: int)
    requires 0 <= off && 0 <= n && off + n < PageRoundup(off)
    ensures PageRoundup(off + n) == PageRoundup(off)
  {
    hide PageRoundup;
    var base := off - off % PAGE;
    PageStart(off);
    PageEnd(base, off);
    PageEnd(base, off + n);
  }

  lemma PageStart(off: int)
    requires 0 <= off
    ensures 0 <= off - off % 0x1000 <= off < off - off % 0x1000 + 0x1000 && (off - off % 0x1000) % 0x1000 == 0
  {
    assert off - off % 0x1000 == 0x1000 * (off / 0x1000);
  }

  /** One more piece programmed. */
  lemma PieceWritten(s: seq<byte>, t: seq<byte>, off: int, n: int, done: int, len: int, v: seq<byte>, w: seq<byte>)
    requires 0 <= off && 0 <= n && 0 <= done && |v| == n && |w| == done && n + done <= len
    requires HoldsAt(s, off, v) && Erased(s, off + n, off + len)
    requires SameOutside(s, t, off + n, off + n + done) && HoldsAt(t, off + n, w)
    ensures HoldsAt(t, off, v + w) && Erased(t, off + n + done, off + len)
  {
    HeldOutside(s, t, off + n, off + n + done, off, v);
    HeldJoin(t, off, v, w);
  }

  lemma SizeKept(s: seq<byte>, t: seq<byte>, a: int, b: int)
    requires SameOutside(s, t, a, b)
    ensures |t| == |s|
  {
  }

  lemma NothingHeld(s: seq<byte>, p: int)
    requires 0 <= p <= |s|
    ensures HoldsAt(s, p, [])
  {
  }

  lemma SliceJoin(s: seq<byte>, a: int, b: int, c: int)
    requires 0 <= a <= b <= c <= |s|
    ensures s[a..b] + s[b..c] == s[a..c]
  {
  }

  /** A buffer piece read behind the others. */
  lemma PieceRead(s: seq<byte>, t: seq<byte>, at: int, n: int, done: int, m: seq<byte>, off: int)
    requires 0 <= at && 0 <= n && 0 <= done && at + n + done <= |s| && 0 <= off && off + n + done <= |m|
    requires s[at..at + n] == m[off..off + n] && SameOutside(s, t, at + n, at + n + done)
    requires t[at + n..at + n + done] == m[off + n..off + n + done]
    ensures t[at..at + n + done] == m[off..off + n + done]
  {
    assert t[at..at + n] == s[at..at + n];
    SliceJoin(t, at, at + n, at + n + done);
    SliceJoin(m, off, off + n, off + n + done);
  }

  /** A page rebuilt around a new piece: what was read back goes back unchanged. */
  lemma PageRebuilt(s: seq<byte>, t: seq<byte>, page: seq<byte>, base: int, front: int, v: seq<byte>)
    requires 0 <= base && base + PAGE <= |s| && 0 <= front && front + |v| <= PAGE <= |page|
    requires page[..front] == s[base..base + front] && page[front..front + |v|] == v
    requires page[front + |v|..PAGE] == s[base + front + |v|..base + PAGE]
    requires SameOutside(s, t, base, base + PAGE) && HoldsAt(t, base, page[0..PAGE])
    ensures SameOutside(s, t, base + front, base + front + |v|) && HoldsAt(t, base + front, v)
  {
    assert forall j :: base <= j < base + PAGE ==> t[j] == page[0..PAGE][j - base] == page[j - base];
    forall j | base + front <= j < base + front + |v| ensures t[j] == v[j - (base + front)] {
      assert t[j] == page[j - base];
      assert page[front..front + |v|][j - base - front] == page[j - base];
    }
    forall j | 0 <= j < |s| && (j < base + front || base + front + |v| <= j) ensures s[j] == t[j] {
      if base <= j < base + front {
        assert t[j] == page[j - base];
        assert page[..front][j - base] == s[base..base + front][j - base];
      } else if base + front + |v| <= j < base + PAGE {
        assert t[j] == page[j - base];
        var i := j - base - front - |v|;
        assert page[front + |v|..PAGE][i] == s[base + front + |v|..base + PAGE][i];
      }
    }
  }

  lemma SliceKept(s: seq<byte>, t: seq<byte>, a: int, b: int, c: int, d: int)
    requires SameOutside(s, t, a, b) && 0 <= c <= d <= |s| && (d <= a || b <= c)
    ensures s[c..d] == t[c..d]
  {
  }

  // ---- where a request lands ---------------------------------------------------------------

  /** m with v written over it from a on. */
  function Splice(m: seq<byte>, a: int, v: seq<byte>): (t: seq<byte>)
    requires 0 <= a && a + |v| <= |m|
    ensures |t| == |m|
  {
    m[..a] + v + m[a + |v|..]
  }

  lemma SpliceIs(m: seq<byte>, t: seq<byte>, a: int, v: seq<byte>)
    requires 0 <= a && a + |v| <= |m|
    ensures t == Splice(m, a, v) <==> SameOutside(m, t, a, a + |v|) && HoldsAt(t, a, v)
  {
    var u := Splice(m, a, v);
    forall j | a <= j < a + |v| ensures u[j] == v[j - a] {
    }
    if SameOutside(m, t, a, a + |v|) && HoldsAt(t, a, v) {
      forall j | 0 <= j < |m| ensures t[j] == u[j] {
      }
    }
  }

  lemma SpliceTwice(m: seq<byte>, a: int, v: seq<byte>, w: seq<byte>)
    requires 0 <= a && a + |v| + |w| <= |m|
    ensures Splice(Splice(m, a, v), a + |v|, w) == Splice(m, a, v + w)
  {
  }

  lemma SpliceNothing(m: seq<byte>, a: int)
    requires 0 <= a <= |m|
    ensures Splice(m, a, []) == m
  {
  }

  /** How much of a request lies in the sector it starts in. */
  function FirstPart(off: int, n: int): (h: int)
    requires 0 <= off && 0 <= n
    ensures 0 <= h <= n && h <= SECTOR && off % SECTOR + h <= SECTOR && (h < n ==> off % SECTOR + h == SECTOR)
  {
    if n <= SECTOR - off % SECTOR then n else SECTOR - off % SECTOR
  }

  /** A request of which the part in the first sector goes d bytes beside its place. */
  function Landed(m: seq<byte>, off: int, d: int, v: seq<byte>): (t: seq<byte>)
    requires 0 <= off && off + |v| <= |m| && 0 <= off + d && off + d + FirstPart(off, |v|) <= |m|
    ensures |t| == |m|
  {
    var h := FirstPart(off, |v|);
    Splice(Splice(m, off + d, v[..h]), off + h, v[h..])
  }

  /** One more piece, inside one sector. */
  lemma LandedMore(m: seq<byte>, off: int, d: int, v: seq<byte>, w: seq<byte>)
    requires 0 <= off && off + |v| + |w| <= |m| && 0 <= off + d && off + d + SECTOR - off % SECTOR <= |m|
    requires |v| + |w| <= SECTOR - off % SECTOR || SECTOR - off % SECTOR <= |v|
    ensures var at := if |v| < SECTOR - off % SECTOR then off + |v| + d else off + |v|;
            0 <= at && at + |w| <= |m| && Landed(m, off, d, v + w) == Splice(Landed(m, off, d, v), at, w)
  {
    hide Splice;
    var room := SECTOR - off % SECTOR;
    if |v| < room {
      assert v[..|v|] == v && v[|v|..] == [] && (v + w)[..|v| + |w|] == v + w && (v + w)[|v| + |w|..] == [];
      SpliceNothing(Splice(m, off + d, v), off + |v|);
      SpliceNothing(Splice(m, off + d, v + w), off + |v| + |w|);
      SpliceTwice(m, off + d, v, w);
    } else {
      assert (v + w)[..room] == v[..room] && (v + w)[room..] == v[room..] + w;
      SpliceTwice(Splice(m, off + d, v[..room]), off + room, v[room..], w);
    }
  }

  lemma LandedAt(m: seq<byte>, off: int, d: int, v: seq<byte>, j: int)
    requires 0 <= off && off + |v| <= |m| && 0 <= off + d && off + d + FirstPart(off, |v|) <= |m|
    requires 0 <= j < |m|
    ensures var h := FirstPart(off, |v|);
            && Splice(m, off, v)[j] == (if off <= j < off + |v| then v[j - off] else m[j])
            && Landed(m, off, d, v)[j] ==
               if off + h <= j < off + |v| then v[j - off]
               else if off + d <= j < off + d + h then v[j - off - d]
               else m[j]
  {
  }

  /** The bytes of a displaced request are already there: where they should have
      gone, and where they went, up to what the rest of the request overwrites. */
  predicate AlreadyThere(m: seq<byte>, off: int, d: int, v: seq<byte>)
    requires 0 <= off
  {
    var h := FirstPart(off, |v|);
    && HoldsAt(m, off, v[..h])
    && forall j :: off + d <= j < off + d + h && 0 <= j < |m| && !(off + h <= j < off + |v|) ==> m[j] == v[j - off - d]
  }

  /** A displaced request comes out right exactly when it would not have changed
      anything in either place. */
  lemma LandedRightIff(m: seq<byte>, off: int, d: int, v: seq<byte>)
    requires 0 <= off && off + |v| <= |m| && 0 <= off + d && off + d + FirstPart(off, |v|) <= |m| && d % SECTOR == 0
    ensures Landed(m, off, d, v) == Splice(m, off, v) <==> d == 0 || AlreadyThere(m, off, d, v)
  {
    hide Landed, Splice, FirstPart;
    var h := FirstPart(off, |v|);
    var t, u := Landed(m, off, d, v), Splice(m, off, v);
    forall j | 0 <= j < |m|
      ensures t[j] == if off + h <= j < off + |v| then v[j - off]
                      else if off + d <= j < off + d + h then v[j - off - d] else m[j]
      ensures u[j] == if off <= j < off + |v| then v[j - off] else m[j]
    {
      LandedAt(m, off, d, v, j);
    }
    if d != 0 {
      Displaced(off, d, h);
      if t == u {
        forall j | off <= j < off + h ensures m[j] == v[..h][j - off] {
          assert t[j] == u[j];
        }
        forall j | off + d <= j < off + d + h && 0 <= j < |m| && !(off + h <= j < off + |v|)
          ensures m[j] == v[j - off - d]
        {
          assert t[j] == u[j];
        }
      }
      if AlreadyThere(m, off, d, v) {
        forall j | 0 <= j < |m| ensures t[j] == u[j] {
          if off <= j < off + h {
            assert m[j] == v[..h][j - off];
          }
        }
      }
    }
  }

  lemma Displaced(off: int, d: int, h: int)
    requires d % SECTOR == 0 && d != 0 && h <= SECTOR
    ensures off + d + h <= off || off + h <= off + d
  {
  }

  /** The bytes a request is read from when its first part comes from beside its place. */
  function Fetched(m: seq<byte>, off: int, d: int, n: int): (v: seq<byte>)
    requires 0 <= n && 0 <= off && off + n <= |m| && 0 <= off + d && off + d + FirstPart(off, n) <= |m|
    ensures |v| == n
  {
    var h := FirstPart(off, n);
    m[off + d..off + d + h] + m[off + h..off + n]
  }

  lemma FetchedRightIff(m: seq<byte>, off: int, d: int, n: int)
    requires 0 <= n && 0 <= off && off + n <= |m| && 0 <= off + d && off + d + FirstPart(off, n) <= |m|
    ensures var h := FirstPart(off, n);
            Fetched(m, off, d, n) == m[off..off + n] <==> m[off + d..off + d + h] == m[off..off + h]
  {
    var h := FirstPart(off, n);
    SliceJoin(m, off, off + h, off + n);
    var v := Fetched(m, off, d, n);
    assert v[..h] == m[off + d..off + d + h] && m[off..off + n][..h] == m[off..off + h];
  }

  lemma FetchedMore(m: seq<byte>, off: int, d: int, n: int, k: int)
    requires 0 <= n && 0 <= k && 0 <= off && off + n + k <= |m| && 0 <= off + d
    requires off + d + SECTOR - off % SECTOR <= |m|
    requires n + k <= SECTOR - off % SECTOR || SECTOR - off % SECTOR <= n
    ensures var at := if n < SECTOR - off % SECTOR then off + n + d else off + n;
            0 <= at && at + k <= |m| && Fetched(m, off, d, n + k) == Fetched(m, off, d, n) + m[at..at + k]
  {
    var room := SECTOR - off % SECTOR;
    if n < room {
      SliceJoin(m, off + d, off + d + n, off + d + n + k);
      assert m[off + n..off + n] == [] && m[off + n + k..off + n + k] == [];
    } else {
      SliceJoin(m, off + room, off + n, off + n + k);
    }
  }

  /** Nothing outside [a, b) and [c, e) differs. */
  predicate SameBut(s: seq<byte>, t: seq<byte>, a: int, b: int, c: int, e: int) {
    |s| == |t| && forall j :: 0 <= j < |s| && (j < a || b <= j) && (j < c || e <= j) ==> s[j] == t[j]
  }

  lemma SameButMore(m: seq<byte>, s: seq<byte>, t: seq<byte>, a: int, b: int, c: int, e: int, x: int, y: int)
    requires SameBut(m, s, a, b, c, e) && SameOutside(s, t, x, y) && ((a <= x && y <= b) || (c <= x && y <= e))
    ensures SameBut(m, t, a, b, c, e)
  {
  }

  // ---- selecting a sector ----------------------------------------------------------------------

  /** How a select ends: carried out and acknowledged, lost before it reached the
      device, or carried out with the acknowledgement lost (a time-out or an error
      status after the transfer was started). */
  datatype Outcome = Done | Lost | Late

  /** What qspi_set_sector leaves: the remembered sector and the device's register. */
  datatype Select = Select(curr: byte, reg: byte)

  function AfterSelect(x: Select, sector: byte, out: Outcome): Select {
    if sector == x.curr then x
    else match out
      case Done => Select(sector, sector)
      case Lost => x
      case Late => Select(x.curr, sector)
  }

  /** The sector that commands for sector s go to. */
  function Serving(x: Select, s: int): int {
    if x.curr == s then x.reg else s
  }

  /** No sector is served by another one. */
  predicate Synced(x: Select) {
    x.curr == 0xff || x.curr == x.reg
  }

  function SelectAll(x: Select, sectors: seq<byte>, outs: seq<Outcome>): Select
    requires |sectors| == |outs|
    decreases |sectors|
  {
    if sectors == [] then x else SelectAll(AfterSelect(x, sectors[0], outs[0]), sectors[1..], outs[1..])
  }

  lemma SyncedIff(x: Select)
    ensures Synced(x) <==> forall s :: 0 <= s < 0xff ==> Serving(x, s) == s
  {
    assert x.curr != 0xff ==> Serving(x, x.curr) == x.reg;
  }

  /** One select: it puts things right when it is acknowledged, and wrong exactly
      when its acknowledgement is lost and it changed the register. */
  lemma SelectSyncs(x: Select, sector: byte, out: Outcome)
    ensures Synced(AfterSelect(x, sector, out)) <==>
            if sector == x.curr then Synced(x)
            else match out
              case Done => true
              case Lost => Synced(x)
              case Late => x.curr == 0xff
  {
  }

  /** Over any run of selects only one that was carried out without an
      acknowledgement can break it. */
  lemma {:induction false} RunSynced(x: Select, sectors: seq<byte>, outs: seq<Outcome>)
    requires |sectors| == |outs| && Synced(x) && Late !in outs
    ensures Synced(SelectAll(x, sectors, outs))
    decreases |sectors|
  {
    if sectors != [] {
      SelectSyncs(x, sectors[0], outs[0]);
      assert outs[0] in outs && forall o :: o in outs[1..] ==> o in outs;
      RunSynced(AfterSelect(x, sectors[0], outs[0]), sectors[1..], outs[1..]);
    }
  }

  /** A write to sector 0, one to sector 1 whose select times out although it was
      carried out, and a write to sector 0 again: that one goes to sector 1. */
  lemma StaleSelect(reg: byte)
    ensures var x := SelectAll(Select(0xff, reg), [0, 1, 0], [Done, Late, Done]);
            x == Select(0, 1) && Serving(x, 0) == 1 && !Synced(x)
  {
    var a, b := Select(0xff, reg), Select(0, 0);
    assert [0, 1, 0][1..] == [1, 0] && [Done, Late, Done][1..] == [Late, Done];
    assert [1, 0][1..] == [0] && [Late, Done][1..] == [Done];
    assert SelectAll(a, [0, 1, 0], [Done, Late, Done]) == SelectAll(b, [1, 0], [Late, Done])
        == SelectAll(Select(0, 1), [0], [Done]) == SelectAll(Select(0, 1), [], []);
  }

  /** There one byte written to an erased flash appears in the wrong sector. */
  lemma StaleWrite(m: seq<byte>, v: byte)
    requires |m| == 2 * SECTOR && Erased(m, 0, |m|) && v != 0xFF
    ensures var t := Landed(m, 0, (Serving(Select(0, 1), 0) - 0) * SECTOR, [v]);
            t[0] == 0xFF && t[SECTOR] == v && t != Splice(m, 0, [v])
  {
    assert FirstPart(0, 1) == 1 && [v][..1] == [v] && [v][1..] == [];
    assert Splice(m, 0, [v])[0] == v;
  }

  lemma SectorOf(off: int, n: int)
    requires 0 <= off && 0 <= n && off % SECTOR + n < SECTOR
    ensures (off + n) / SECTOR == off / SECTOR && (off + n) % SECTOR == off % SECTOR + n
  {
  }

  lemma WholePagesIn(x: int, pagesz: int)
    requires 0 <= x < SECTOR && (pagesz == PAGE || pagesz == LARGE_PAGE || pagesz == HUGE_PAGE)
    ensures 0 <= x - x % pagesz && x - x % pagesz + pagesz <= SECTOR && (x - x % pagesz) % pagesz == 0
  {
  }

  lemma SmallPages(k: int, x: int)
    ensures (k * PAGE + x) % PAGE == x % PAGE
  {
  }

  lemma LargePages(k: int, x: int)
    ensures (k * LARGE_PAGE + x) % LARGE_PAGE == x % LARGE_PAGE
  {
  }

  lemma HugePages(k: int, x: int)
    ensures (k * HUGE_PAGE + x) % HUGE_PAGE == x % HUGE_PAGE
  {
  }

  lemma PagesOfSectors(q: int, x: int, pagesz: int)
    requires pagesz == PAGE || pagesz == LARGE_PAGE || pagesz == HUGE_PAGE
    ensures (q * SECTOR + x) % pagesz == x % pagesz
  {
    if pagesz == PAGE {
      SmallPages(q * 4096, x);
    } else if pagesz == LARGE_PAGE {
      LargePages(q * 512, x);
    } else {
      HugePages(q * 256, x);
    }
  }

  /** Pages do not cross sectors, whatever their size. */
  lemma PageInSector(off: int, pagesz: int)
    requires 0 <= off && (pagesz == PAGE || pagesz == LARGE_PAGE || pagesz == HUGE_PAGE)
    ensures var base := off - off % pagesz;
            0 <= base && base / SECTOR == off / SECTOR && base % SECTOR + pagesz <= SECTOR && base % pagesz == 0
            && base % SECTOR == off % SECTOR - off % pagesz
  {
    var q, x := off / SECTOR, off % SECTOR;
    var y := x - x % pagesz;
    PagesOfSectors(q, x, pagesz);
    WholePagesIn(x, pagesz);
    PagesOfSectors(q, y, pagesz);
    SectorOf(q * SECTOR, y);
  }

  lemma ShiftAligned(off: int, d: int, pagesz: int)
    requires (pagesz == PAGE || pagesz == LARGE_PAGE || pagesz == HUGE_PAGE) && off % pagesz == 0 && d % SECTOR == 0
    ensures (off + d) % pagesz == 0
  {
    PagesOfSectors(d / SECTOR, off, pagesz);
  }

  /** The bytes of a request behind cnt of them. */
  lemma NextSector(base: int, cnt: int)
    requires 0 <= base && 0 < cnt
    ensures var room, was, now := SECTOR - base % SECTOR, (base + cnt - 1) / SECTOR, (base + cnt) / SECTOR;
            && (was == now ==> cnt != room) && (was != now ==> cnt >= room)
            && (cnt <= room ==> was == base / SECTOR) && (cnt < room ==> now == base / SECTOR)
            && (cnt == room ==> now == base / SECTOR + 1)
  {
    var q, x := base / SECTOR, base % SECTOR;
    assert base == q * SECTOR + x;
    if cnt <= SECTOR - x {
      assert base + cnt - 1 == q * SECTOR + (x + cnt - 1);
    }
  }

  lemma ByEight(a: int, r: int)
    requires 0 <= r < 0x100
    ensures (0x100 * a + r) / 0x100 == a && (0x100 * a + r) % 0x100 == r
  {
  }

  lemma BySixteen(a: int, r: int)
    requires 0 <= r < 0x1_0000
    ensures (0x1_0000 * a + r) / 0x1_0000 == a && (0x1_0000 * a + r) % 0x1_0000 == r
  {
  }

  lemma BySector(a: int, r: int)
    requires 0 <= r < 0x100_0000
    ensures (0x100_0000 * a + r) / 0x100_0000 == a
  {
  }

  lemma LowSector(q: int, x: int)
    ensures (q * 0x1_0000_0000 + x) / 0x100_0000 == q * 0x100 + x / 0x100_0000
    ensures (q * 0x1_0000_0000 + x) / 0x1_0000 == q * 0x1_0000 + x / 0x1_0000
    ensures (q * 0x1_0000_0000 + x) % 0x1_0000 == x % 0x1_0000
  {
    BySector(q * 0x100 + x / 0x100_0000, x % 0x100_0000);
    BySixteen(q * 0x1_0000 + x / 0x1_0000, x % 0x1_0000);
  }

  lemma LowMiddle(q: int, x: int)
    ensures (q * 0x1_0000_0000 + x) / 0x100 == q * 0x100_0000 + x / 0x100
    ensures (q * 0x1_0000_0000 + x) % 0x100 == x % 0x100
  {
    ByEight(q * 0x100_0000 + x / 0x100, x % 0x100);
  }

  lemma LowByte(q: int, y: int)
    ensures (q * 0x100 + y) % 0x100 == y % 0x100
  {
    ByEight(q + y / 0x100, y % 0x100);
  }

  /** The split address and the alignment of an offset see its low 32 bits only. */
  lemma LowBits(off: int, cnt: int)
    requires 0 <= off < TOP && 0 <= cnt && off % U32_LIMIT + cnt < U32_LIMIT
    ensures Offset2Faddr(off + cnt).(slave := 0) == Offset2Faddr(off % U32_LIMIT + cnt)
    ensures (off + cnt) % HUGE_PAGE == (off % U32_LIMIT + cnt) % HUGE_PAGE
  {
    var q, x := off / 0x1_0000_0000, off % 0x1_0000_0000 + cnt;
    assert off + cnt == q * 0x1_0000_0000 + x;
    LowSector(q, x);
    LowMiddle(q, x);
    LowByte(q, x / 0x100_0000);
    LowByte(q * 0x100, x / 0x1_0000);
    LowByte(q * 0x1_0000, x / 0x100);
    assert x / 0x100_0000_0000_0000 == 0;
  }

  /** The page of an offset, d bytes beside its place, and what lies in it behind
      the first bytes. */
  lemma PagePlace(off: int, mid: int, d: int, size: int)
    requires 0 < mid && 0 <= off < size && size % SECTOR == 0 && off % PAGE + mid <= PAGE
    requires off % SECTOR <= off + d && off + d + SECTOR - off % SECTOR <= size
    ensures var base, next := off - off % PAGE, off + mid;
            && 0 <= base && base + PAGE <= size && 0 <= base + d && base + d + PAGE <= size
            && base / SECTOR == off / SECTOR && base % SECTOR + PAGE <= SECTOR && PageRoundup(base) == base + PAGE
            && (next < base + PAGE ==>
                  && next / SECTOR == off / SECTOR && next % SECTOR + (base + PAGE - next) <= SECTOR
                  && PageRoundup(next) == base + PAGE)
  {
    hide PageRoundup;
    var base := off - off % PAGE;
    PageFits(off, size);
    PageInSector(off, PAGE);
    PageEnd(base, base);
    if off + mid < base + PAGE {
      PageEnd(base, off + mid);
      SectorOf(base, off % PAGE + mid);
    }
  }

  /** The two states differ at most in the pages of a request and of the place its
      first part goes to. */
  predicate AroundOf(m: seq<byte>, t: seq<byte>, lo: int, n: int, d: int)
    requires 0 <= lo && 0 < n
  {
    var h := FirstPart(lo, n);
    SameBut(m, t, lo - lo % PAGE, PageRoundup(lo + n - 1),
            lo - lo % PAGE + d, if h == 0 then lo - lo % PAGE + d else PageRoundup(lo + h - 1) + d)
  }

  /** One round of the loop stays in those pages. */
  lemma PieceAround(m: seq<byte>, s: seq<byte>, t: seq<byte>, lo: int, n: int, d: int, cnt: int, x: int, y: int)
    requires 0 <= lo && 0 <= cnt < n && AroundOf(m, s, lo, n, d) && SameOutside(s, t, x, y)
    requires var o, e := lo + cnt, if cnt < SECTOR - lo % SECTOR then d else 0;
             || (x == o + e && y == o + e + FirstPart(o, n - cnt))
             || (x == o + e - o % PAGE && y == o + e - o % PAGE + PAGE)
    ensures AroundOf(m, t, lo, n, d)
  {
    hide SameBut, SameOutside, PageRoundup, FirstPart;
    var h := FirstPart(lo, n);
    var a, b := lo - lo % PAGE, PageRoundup(lo + n - 1);
    FirstPartIs(lo, n, cnt);
    CoverOfPage(lo, cnt, n);
    if cnt < h {
      CoverOfPage(lo, cnt, h);
    }
    SameButMore(m, s, t, a, b, a + d, PageRoundup(lo + h - 1) + d, x, y);
  }

  class Driver {
    const size: int
    const ioBuf: array<byte>
    const writeCmd: byte
    // whether the bus, the device or the user's memory may fail; if not, every
    // status read finds the device finished
    const faulty: bool
    var currSector: byte
    // the device on the bus, as slave 0
    var chip: Chip

    constructor (sectors: nat, depth: nat, cmd: byte, flash: Chip, mayFail: bool)
      requires 1 <= sectors <= 16 && depth > 8 && IsProgram(cmd)
      requires |flash.mem| == sectors * SECTOR && !flash.busy
      ensures Valid() && InSync() && Idle() && chip == flash && faulty == mayFail
    {
      size := sectors * SECTOR;
      ioBuf := new byte[depth](_ => 0);
      writeCmd := cmd;
      faulty := mayFail;
      currSector := 0xff;
      chip := flash;
    }

    predicate Valid()
      reads this
    {
      && 0 < size <= 16 * SECTOR && size % SECTOR == 0 && |chip.mem| == size
      && ioBuf.Length > 8 && IsProgram(writeCmd)
      && (currSector != 0xff ==> chip.sector * SECTOR < size)
    }

    /** The remembered sector and the register of the device. */
    function Selection(): Select
      reads this
    {
      Select(currSector, chip.sector)
    }

    /** What the driver believes the extended address register holds is true. */
    predicate InSync()
      reads this
    {
      Synced(Selection())
    }

    /** How far from their place commands for sector s go. */
    function Shift(s: int): (d: int)
      reads this
      ensures d % SECTOR == 0
    {
      (Serving(Selection(), s) - s) * SECTOR
    }

    predicate Idle()
      reads this
    {
      !chip.busy
    }

    /** The sector stands selected, wherever its commands go. */
    predicate Selected(s: int, d: int)
      reads this
    {
      currSector == s && Shift(s) == d
    }

    lemma ShiftFits(off: int)
      requires Valid() && 0 <= off < size
      ensures var d := Shift(off / SECTOR); off % SECTOR <= off + d && off + d + SECTOR - off % SECTOR <= size
      ensures off + SECTOR - off % SECTOR <= size
    {
      var q, w, n := off / SECTOR, Serving(Selection(), off / SECTOR), size / SECTOR;
      assert off == q * SECTOR + off % SECTOR && size == n * SECTOR;
      assert w < n && q < n;
      assert off + Shift(q) == w * SECTOR + off % SECTOR;
    }

    /** qspi_transaction. It may fail at any point; then the bytes the command is
        about may hold anything, and a select may have been carried out or not. */
    method Transaction(buf: array<byte>, len: int, output: bool) returns (ret: int)
      requires 1 <= len <= buf.Length
      modifies this`chip, buf
      ensures ret == 0 || ret == EINVAL || ret == ETIMEDOUT
      ensures !faulty ==> ret == 0
      ensures ret == 0 ==> chip == Respond(old(chip), old(buf[..len]))
      ensures ret != 0 ==>
        var (a, b) := Affects(old(chip), old(buf[..len])); SameOutside(old(chip.mem), chip.mem, a, b)
      ensures ret != 0 ==>
        chip.sector == old(chip.sector) || (len == 2 && old(buf[0]) == EXT_ADDR_WRITE && chip.sector == old(buf[1]))
      ensures !output ==> buf[..] == old(buf[..])
      ensures output && ret == 0 && len >= 8 && old(buf[0]) == QUAD_READ && !old(chip.busy) ==>
        var addr := CmdAddr(old(chip.sector), old(buf[..len]));
        addr + len - 8 <= |old(chip.mem)| ==> buf[8..len] == old(chip.mem)[addr..addr + len - 8]
    {
      var cmd := buf[..len];
      var failed: bool := *;
      if faulty && failed {
        var (a, b) := Affects(chip, cmd);
        var any: Chip := *;
        if SameOutside(chip.mem, any.mem, a, b)
           && (any.sector == chip.sector || (len == 2 && cmd[0] == EXT_ADDR_WRITE && any.sector == cmd[1])) {
          chip := any;
        }
        var timeout: bool := *;
        return if timeout then ETIMEDOUT else EINVAL;
      }
      if output {
        var garbage: byte := *;
        var m, addr := chip.mem, if len >= 4 then CmdAddr(chip.sector, cmd) else 0;
        forall j | 0 <= j < len {
          buf[j] := if 8 <= j && addr + j - 8 < |m| then m[addr + j - 8] else garbage;
        }
      }
      chip := Respond(chip, cmd);
      return 0;
    }

    /** qspi_is_ready: a status read; the device may have finished meanwhile. */
    method IsReady() returns (r: bool)
      modifies this`chip
      ensures chip == old(chip) || chip == old(chip).(busy := false)
      ensures r ==> Idle()
      ensures !faulty ==> r
    {
      var failed: bool := *;
      if faulty && failed {
        return false;
      }
      var finished: bool := *;
      if finished || !faulty {
        chip := chip.(busy := false);
      }
      return !chip.busy;
    }

    /** qspi_wait_until_ready: at most one second, in steps of 5 microseconds. */
    method WaitUntilReady() returns (r: bool)
      modifies this`chip
      ensures chip == old(chip) || chip == old(chip).(busy := false)
      ensures r ==> Idle()
      ensures !faulty ==> r
      ensures old(Valid()) ==> Valid()
    {
      var retry := 1000 * 1000 / 5;
      r := IsReady();
      while retry != 0 && !r
        invariant retry >= 0
        invariant chip == old(chip) || chip == old(chip).(busy := false)
        invariant r ==> Idle()
        invariant !faulty ==> r && retry != 0
      {
        retry := retry - 1;
        if retry != 0 {
          r := IsReady();
        }
      }
      return retry != 0;
    }

    /** qspi_enable_write */
    method EnableWrite() returns (ret: int)
      requires Valid() && Idle()
      modifies this`chip
      ensures ret == 0 || ret == EINVAL || ret == ETIMEDOUT
      ensures !faulty ==> ret == 0
      ensures ret == 0 ==> chip == old(chip).(wel := true)
      ensures chip.mem == old(chip.mem) && chip.sector == old(chip.sector)
    {
      var cmd := new byte[1][WRITE_ENABLE];
      assert cmd[..1] == [WRITE_ENABLE];
      ghost var m := chip.mem;
      ret := Transaction(cmd, 1, false);
      if ret != 0 {
        Untouched(m, chip.mem);
      }
    }

    /** qspi_set_sector: one select, with any outcome. It says 0 exactly when it
        was acknowledged or believed not to be needed. */
    method SetSector(sector: byte) returns (ret: int, ghost out: Outcome)
      requires Valid() && Idle() && sector * SECTOR < size
      modifies this`chip, this`currSector
      ensures ret == 0 || ret == EINVAL || ret == ETIMEDOUT
      ensures !faulty ==> ret == 0
      ensures Selection() == AfterSelect(old(Selection()), sector, out)
      ensures ret == 0 <==> sector == old(currSector) || out == Done
      ensures ret == 0 ==> Idle() && Selected(sector, old(Shift(sector)))
      ensures chip.mem == old(chip.mem) && Valid()
    {
      out := Done;
      var cmd := new byte[2][EXT_ADDR_WRITE, sector];
      if sector == currSector {
        return 0, out;
      }
      ret := EnableWrite();
      if ret != 0 {
        return ret, Lost;
      }
      assert cmd[..2] == [EXT_ADDR_WRITE, sector];
      ghost var m := chip.mem;
      ret := Transaction(cmd, 2, false);
      if ret != 0 {
        Untouched(m, chip.mem);
        out := if chip.sector == old(chip.sector) then Lost else Late;
        return;
      }
      currSector := sector;
    }

    /** qspi_setup_io_cmd_header */
    method SetupHeader(op: byte, off: int, ghost d: int) returns (ret: int)
      requires Valid() && Idle() && 0 <= off < size && d == Shift(off / SECTOR)
      modifies this`chip, this`currSector, ioBuf
      ensures ret == 0 || ret == EINVAL || ret == ETIMEDOUT
      ensures !faulty ==> ret == 0
      ensures chip.mem == old(chip.mem) && Valid()
      ensures ret == 0 ==>
        && Idle() && Selected(off / SECTOR, d) && ioBuf[0] == op
        && CmdAddr(chip.sector, ioBuf[..4]) == off + d
    {
      hide Offset2Faddr, Serving;
      CommandAddress(off);
      var faddr := Offset2Faddr(off);
      SectorByte(off, faddr.sector, size);
      ghost var out;
      ret, out := SetSector(faddr.sector);
      if ret == 0 {
        ioBuf[0] := op;
        ioBuf[1] := faddr.hi;
        ioBuf[2] := faddr.mid;
        ioBuf[3] := faddr.lo;
        SelectedIs(off / SECTOR, d);
      }
    }

    lemma SelectedIs(s: int, d: int)
      requires Selected(s, d)
      ensures d == (chip.sector - s) * SECTOR
    {
    }

    method Memcpy(dst: array<byte>, at: int, v: seq<byte>)
      requires 0 <= at && at + |v| <= dst.Length
      modifies dst
      ensures SameOutside(old(dst[..]), dst[..], at, at + |v|) && dst[at..at + |v|] == v
    {
      forall j | at <= j < at + |v| {
        dst[j] := v[j - at];
      }
    }

    /** qspi_fifo_rd: one command's worth of a read that stays in one page. */
    method FifoRd(off: int, buf: array<byte>, at: int, cnt: int, ghost d: int) returns (ret: int, done: int)
      requires Valid() && Idle() && d == Shift(off / SECTOR) && buf != ioBuf
      requires 0 < cnt && 0 <= off && off + cnt <= PageRoundup(off) && off + cnt <= size
      requires 0 <= off + d && off + d + cnt <= size && 0 <= at && at + cnt <= buf.Length
      modifies this`chip, this`currSector, ioBuf, buf
      ensures ret == 0 || ret == EINVAL || ret == ETIMEDOUT
      ensures !faulty ==> ret == 0
      ensures chip.mem == old(chip.mem) && Valid()
      ensures 0 < done <= cnt
      ensures SameOutside(old(buf[..]), buf[..], at, at + done)
      ensures ret == 0 ==> Idle() && Selected(off / SECTOR, d)
      ensures ret == 0 ==> buf[at..at + done] == chip.mem[off + d..off + d + done]
    {
      hide CmdAddr, PageRoundup, Serving, SameOutside, Affects, Respond;
      done := cnt;
      Unchanged(buf[..], at, at + cnt);
      ret := SetupHeader(QUAD_READ, off, d);
      if ret != 0 {
        return;
      }
      var payload := if cnt < ioBuf.Length - 8 then cnt else ioBuf.Length - 8;
      var total := payload + 8;
      ghost var cmd, m := ioBuf[..total], chip.mem;
      PrefixAddr(chip.sector, ioBuf[..4], cmd);
      ReadIsQuiet(chip, cmd);
      ret := Transaction(ioBuf, total, true);
      if ret != 0 {
        Untouched(m, chip.mem);
        return;
      }
      Memcpy(buf, at, ioBuf[8..total]);
      done := payload;
    }

    /** qspi_fifo_wr: one program command, to bytes that are erased. */
    method FifoWr(off: int, buf: array<byte>, at: int, cnt: int, ghost d: int) returns (ret: int, done: int)
      requires Valid() && Idle() && d == Shift(off / SECTOR) && buf != ioBuf
      requires 0 < cnt && 0 <= off && off + cnt <= size && 0 <= off + d && off + d + cnt <= size
      requires Erased(chip.mem, off + d, off + d + cnt) && 0 <= at && at + cnt <= buf.Length
      modifies this`chip, this`currSector, ioBuf
      ensures ret == 0 || ret == EINVAL || ret == ETIMEDOUT
      ensures !faulty ==> ret == 0
      ensures 0 < done <= cnt && Valid()
      ensures SameOutside(old(chip.mem), chip.mem, off + d, off + d + done)
      ensures ret == 0 ==> Idle() && Selected(off / SECTOR, d) && HoldsAt(chip.mem, off + d, buf[at..at + done])
    {
      hide CmdAddr, Respond, Affects, SameOutside, HoldsAt, Erased, Serving;
      done := cnt;
      Unchanged(chip.mem, off + d, off + d + cnt);
      ret := SetupHeader(writeCmd, off, d);
      if ret != 0 {
        return;
      }
      var payload := if cnt < ioBuf.Length - 4 then cnt else ioBuf.Length - 4;
      payload := if payload < 128 then payload else 128;
      var total := payload + 4;
      ghost var head := ioBuf[..4];
      forall j | 0 <= j < payload {
        ioBuf[4 + j] := buf[at + j];
      }
      ghost var cmd := ioBuf[..total];
      assert ioBuf[..4] == head && cmd[4..] == buf[at..at + payload];
      PrefixAddr(chip.sector, head, cmd);
      ret := EnableWrite();
      if ret != 0 {
        return;
      }
      done := payload;
      Unchanged(chip.mem, off + d, off + d + payload);
      ErasedPart(chip.mem, off + d, off + d + cnt, off + d, off + d + payload);
      ProgramStores(chip, cmd, off + d);
      ghost var m := chip.mem;
      ret := Transaction(ioBuf, total, false);
      SizeKept(m, chip.mem, off + d, off + d + payload);
      if ret != 0 {
        return;
      }
      var ready := WaitUntilReady();
      if !ready {
        ret := EINVAL;
      }
    }

    /** One more command of a buffer write: n bytes are done. */
    method WriteMore(buf: array<byte>, at: int, off: int, n: int, len: int, ghost d: int, ghost m0: seq<byte>)
      returns (ret: int, done: int)
      requires Valid() && Idle() && d == Shift(off / SECTOR) && buf != ioBuf
      requires 0 <= n < len && 0 <= off && off + len <= size && off % SECTOR + len <= SECTOR
      requires 0 <= off + d && off + d + len <= size && 0 <= at && at + len <= buf.Length
      requires SameOutside(m0, chip.mem, off + d, off + d + len)
      requires HoldsAt(chip.mem, off + d, buf[at..at + n]) && Erased(chip.mem, off + d + n, off + d + len)
      modifies this`chip, this`currSector, ioBuf
      ensures ret == 0 || ret == EINVAL || ret == ETIMEDOUT
      ensures !faulty ==> ret == 0
      ensures Valid() && 0 < done <= len - n && SameOutside(m0, chip.mem, off + d, off + d + len)
      ensures ret == 0 ==>
        && Idle() && Selected(off / SECTOR, d)
        && HoldsAt(chip.mem, off + d, buf[at..at + n + done]) && Erased(chip.mem, off + d + n + done, off + d + len)
    {
      hide SameOutside, HoldsAt, Erased, Serving;
      ghost var m, p := chip.mem, off + d;
      SectorOf(off, n);
      ret, done := FifoWr(off + n, buf, at + n, len - n, d);
      OutsideWiden(m, chip.mem, p + n, p + n + done, p, p + len);
      OutsideTrans(m0, m, chip.mem, p, p + len);
      if ret == 0 {
        PieceWritten(m, chip.mem, p, n, done, len, buf[at..at + n], buf[at + n..at + n + done]);
        SliceJoin(buf[..], at, at + n, at + n + done);
      }
    }

    /** One more command of a buffer read inside one page. */
    method ReadMore(buf: array<byte>, at: int, off: int, n: int, len: int, ghost d: int, ghost b0: seq<byte>)
      returns (ret: int, done: int)
      requires Valid() && Idle() && d == Shift(off / SECTOR) && buf != ioBuf
      requires 0 <= n < len && 0 <= off && off + len <= size && off % SECTOR + len <= SECTOR
      requires 0 <= off + d && off + d + len <= size && 0 <= at && at + len <= buf.Length
      requires off + len <= PageRoundup(off) && SameOutside(b0, buf[..], at, at + len)
      requires buf[at..at + n] == chip.mem[off + d..off + d + n]
      modifies this`chip, this`currSector, ioBuf, buf
      ensures ret == 0 || ret == EINVAL || ret == ETIMEDOUT
      ensures !faulty ==> ret == 0
      ensures Valid() && 0 < done <= len - n && chip.mem == old(chip.mem) && SameOutside(b0, buf[..], at, at + len)
      ensures ret == 0 ==>
        Idle() && Selected(off / SECTOR, d) && buf[at..at + n + done] == chip.mem[off + d..off + d + n + done]
    {
      hide SameOutside, HoldsAt, Erased, PageRoundup, Serving;
      ghost var s := buf[..];
      SamePage(off, n);
      SectorOf(off, n);
      ret, done := FifoRd(off + n, buf, at + n, len - n, d);
      OutsideWiden(s, buf[..], at + n, at + n + done, at, at + len);
      OutsideTrans(b0, s, buf[..], at, at + len);
      if ret == 0 {
        PieceRead(s, buf[..], at, n, done, chip.mem, off + d);
      }
    }

    /** qspi_buf_rdwr, for a piece inside one sector, d bytes beside its place. */
    method BufRdWr(buf: array<byte>, at: int, off: int, len: int, write: bool, ghost d: int) returns (ret: int)
      requires Valid() && Idle() && d == Shift(off / SECTOR) && buf != ioBuf
      requires 0 <= len && 0 <= off && off + len <= size && off % SECTOR + len <= SECTOR
      requires 0 <= off + d && off + d + len <= size && 0 <= at && at + len <= buf.Length
      requires if write then Erased(chip.mem, off + d, off + d + len) else off + len <= PageRoundup(off)
      modifies this`chip, this`currSector, ioBuf, buf
      ensures ret == 0 || ret == EINVAL || ret == ETIMEDOUT
      ensures !faulty ==> ret == 0
      ensures Valid()
      ensures ret == 0 ==> Idle() && Shift(off / SECTOR) == d && (len > 0 ==> currSector as int == off / SECTOR)
      ensures ret == 0 && len == 0 ==> Selection() == old(Selection())
      ensures write ==> buf[..] == old(buf[..]) && SameOutside(old(chip.mem), chip.mem, off + d, off + d + len)
      ensures write && ret == 0 ==> HoldsAt(chip.mem, off + d, buf[at..at + len])
      ensures !write ==> chip.mem == old(chip.mem) && SameOutside(old(buf[..]), buf[..], at, at + len)
      ensures !write && ret == 0 ==> buf[at..at + len] == chip.mem[off + d..off + d + len]
    {
      hide SameOutside, HoldsAt, Erased, PageRoundup, Serving, Shift;
      ghost var m0, b0, p := chip.mem, buf[..], off + d;
      var n := 0;
      ret := 0;
      Unchanged(m0, p, p + len);
      Unchanged(b0, at, at + len);
      NothingHeld(m0, p);
      assert buf[at..at] == [];
      while ret == 0 && n < len
        invariant 0 <= n <= len && Valid()
        invariant ret == 0 || ret == EINVAL || ret == ETIMEDOUT
        invariant !faulty ==> ret == 0
        invariant ret == 0 ==> Idle() && Shift(off / SECTOR) == d && (n > 0 ==> currSector as int == off / SECTOR)
        invariant n == 0 ==> Selection() == old(Selection())
        invariant write ==> buf[..] == b0 && SameOutside(m0, chip.mem, p, p + len)
        invariant write && ret == 0 ==> HoldsAt(chip.mem, p, buf[at..at + n]) && Erased(chip.mem, p + n, p + len)
        invariant !write ==> chip.mem == m0 && SameOutside(b0, buf[..], at, at + len)
        invariant !write && ret == 0 ==> buf[at..at + n] == m0[p..p + n]
        decreases len - n
      {
        var curlen;
        if write {
          ret, curlen := WriteMore(buf, at, off, n, len, d, m0);
        } else {
          ret, curlen := ReadMore(buf, at, off, n, len, d, b0);
        }
        n := n + curlen;
      }
    }

    /** qspi_page_erase */
    method PageErase(off: int, pagesz: int, ghost d: int) returns (ret: int)
      requires Valid() && Idle() && d == Shift(off / SECTOR)
      requires pagesz == PAGE || pagesz == LARGE_PAGE || pagesz == HUGE_PAGE
      requires 0 <= off && off % pagesz == 0 && off + pagesz <= size && 0 <= off + d && off + d + pagesz <= size
      modifies this`chip, this`currSector, ioBuf
      ensures ret == 0 || ret == EINVAL || ret == ETIMEDOUT
      ensures !faulty ==> ret == 0
      ensures Valid()
      ensures SameOutside(old(chip.mem), chip.mem, off + d, off + d + pagesz)
      ensures ret == 0 ==> Idle() && Selected(off / SECTOR, d) && Erased(chip.mem, off + d, off + d + pagesz)
    {
      hide CmdAddr, Respond, Affects, Erased, Serving, SameOutside;
      Unchanged(chip.mem, off + d, off + d + pagesz);
      var cmd := EraseCmd(pagesz);
      var ready := WaitUntilReady();
      if !ready {
        return EINVAL;
      }
      ret := SetupHeader(cmd, off, d);
      if ret != 0 {
        return;
      }
      ret := EnableWrite();
      if ret != 0 {
        return;
      }
      ShiftAligned(off, d, pagesz);
      EraseErases(chip, ioBuf[..4], off + d, pagesz);
      ghost var m := chip.mem;
      ret := Transaction(ioBuf, 4, false);
      SizeKept(m, chip.mem, off + d, off + d + pagesz);
      if ret != 0 {
        return;
      }
      ready := WaitUntilReady();
      if !ready {
        ret := EINVAL;
      }
    }

    /** What both page writes end with: erase, then program the buffer. */
    method PageRewrite(kbuf: array<byte>, off: int, pagesz: int, ghost d: int) returns (ret: int)
      requires Valid() && Idle() && d == Shift(off / SECTOR) && kbuf != ioBuf && pagesz <= kbuf.Length
      requires pagesz == PAGE || pagesz == LARGE_PAGE || pagesz == HUGE_PAGE
      requires 0 <= off && off % pagesz == 0 && off + pagesz <= size && off % SECTOR + pagesz <= SECTOR
      requires 0 <= off + d && off + d + pagesz <= size
      modifies this`chip, this`currSector, ioBuf, kbuf
      ensures ret == 0 || ret == EINVAL || ret == ETIMEDOUT
      ensures !faulty ==> ret == 0
      ensures Valid() && kbuf[..] == old(kbuf[..])
      ensures SameOutside(old(chip.mem), chip.mem, off + d, off + d + pagesz)
      ensures ret == 0 ==>
        Idle() && Selected(off / SECTOR, d) && HoldsAt(chip.mem, off + d, kbuf[0..pagesz])
    {
      hide SameOutside, HoldsAt, Erased, PageRoundup, Serving, Shift;
      ghost var m := chip.mem;
      ret := PageErase(off, pagesz, d);
      if ret == 0 {
        ghost var e := chip.mem;
        ret := BufRdWr(kbuf, 0, off, pagesz, true, d);
        OutsideTrans(m, e, chip.mem, off + d, off + d + pagesz);
      }
    }

    /** copy_from_user: 0 when everything could be copied. */
    method CopyFromUser(buf: array<byte>, at: int, v: seq<byte>) returns (left: int)
      requires 0 <= at && at + |v| <= buf.Length
      modifies buf
      ensures left >= 0 && SameOutside(old(buf[..]), buf[..], at, at + |v|)
      ensures !faulty ==> left == 0
      ensures left == 0 ==> buf[at..at + |v|] == v
    {
      left := *;
      if left < 0 || |v| < left || !faulty {
        left := 0;
      }
      forall j | at <= j < at + |v| - left {
        buf[j] := v[j - at];
      }
    }

    lemma Fits()
      requires Valid()
      ensures |chip.mem| == size && 0 < size <= 16 * SECTOR
    {
    }

    /** Sector s stands selected, or nothing was done about it. */
    predicate OneOf(s: int, was: Select)
      reads this
    {
      currSector as int == s || Selection() == was
    }

    /** First half of qspi_page_rmw: what is in front of the request in its page, and
        the request. */
    method FillFront(ubuf: seq<byte>, kbuf: array<byte>, off: int, base: int, ghost d: int) returns (ret: int)
      requires Valid() && Idle() && d == Shift(off / SECTOR) && kbuf != ioBuf && off - base + |ubuf| <= kbuf.Length
      requires 0 <= base <= off && 0 <= base + d && off <= size && off + d <= size && base / SECTOR == off / SECTOR
      requires base % SECTOR + off - base <= SECTOR && off <= PageRoundup(base)
      modifies this`chip, this`currSector, ioBuf, kbuf
      ensures ret == 0 || ret == EINVAL || ret == ETIMEDOUT || ret == EFAULT
      ensures !faulty ==> ret == 0
      ensures Valid() && chip.mem == old(chip.mem)
      ensures ret == 0 || ret == EFAULT ==> Idle() && Shift(off / SECTOR) == d && OneOf(off / SECTOR, old(Selection()))
      ensures ret == 0 ==>
        kbuf[..off - base] == chip.mem[base + d..off + d] && kbuf[off - base..off - base + |ubuf|] == ubuf
    {
      hide SameOutside, HoldsAt, Erased, PageRoundup, Serving, Shift;
      var front := off - base;
      ret := 0;
      if front != 0 {
        ret := BufRdWr(kbuf, 0, base, front, false, d);
        if ret != 0 {
          return;
        }
      }
      ghost var k := kbuf[..];
      var left := CopyFromUser(kbuf, front, ubuf);
      SliceKept(k, kbuf[..], front, front + |ubuf|, 0, front);
      if left != 0 {
        return EFAULT;
      }
    }

    /** ... and what is behind: the page as it is to be. */
    method FillPage(ubuf: seq<byte>, kbuf: array<byte>, off: int, mid: int, ghost d: int) returns (ret: int)
      requires Valid() && Idle() && d == Shift(off / SECTOR) && kbuf != ioBuf && kbuf.Length >= PAGE
      requires 0 < mid == |ubuf| && 0 <= off < size && off % PAGE + mid <= PAGE
      modifies this`chip, this`currSector, ioBuf, kbuf
      ensures ret == 0 || ret == EINVAL || ret == ETIMEDOUT || ret == EFAULT
      ensures !faulty ==> ret == 0
      ensures Valid() && chip.mem == old(chip.mem)
      ensures ret == 0 || ret == EFAULT ==> Idle() && Shift(off / SECTOR) == d && OneOf(off / SECTOR, old(Selection()))
      ensures var front := off % PAGE;
              ret == 0 ==>
                && 0 <= off + d - front && off + d - front + PAGE <= size
                && kbuf[..front] == chip.mem[off + d - front..off + d] && kbuf[front..front + mid] == ubuf
                && kbuf[front + mid..PAGE] == chip.mem[off + d + mid..off + d - front + PAGE]
    {
      hide SameOutside, HoldsAt, Erased, PageRoundup, Serving, Shift;
      var front := off % PAGE;
      var last := PAGE - front - mid;
      ShiftFits(off);
      PagePlace(off, mid, d, size);
      ret := FillFront(ubuf, kbuf, off, off - front, d);
      if ret == 0 && last != 0 {
        ghost var k := kbuf[..];
        ret := BufRdWr(kbuf, front + mid, off + mid, last, false, d);
        SliceKept(k, kbuf[..], front + mid, PAGE, 0, front);
        SliceKept(k, kbuf[..], front + mid, PAGE, front, front + mid);
      }
    }

    /** qspi_page_rmw: the part of the request that lies in the page of off. */
    method PageRmw(ubuf: seq<byte>, kbuf: array<byte>, off: int, cnt: int, ghost d: int) returns (ret: int, done: int)
      requires Valid() && Idle() && d == Shift(off / SECTOR) && kbuf != ioBuf && kbuf.Length >= PAGE
      requires 0 < cnt <= |ubuf| && 0 <= off && off + cnt <= size
      modifies this`chip, this`currSector, ioBuf, kbuf
      ensures ret == 0 || ret == EINVAL || ret == ETIMEDOUT || ret == EFAULT
      ensures !faulty ==> ret == 0
      ensures Valid()
      ensures SameOutside(old(chip.mem), chip.mem, off + d - off % PAGE, off + d - off % PAGE + PAGE)
      ensures ret == EFAULT ==>
        Idle() && chip.mem == old(chip.mem) && Shift(off / SECTOR) == d && OneOf(off / SECTOR, old(Selection()))
      ensures ret == 0 ==>
        && Idle() && Selected(off / SECTOR, d) && 0 < done <= cnt && off % SECTOR + done <= SECTOR
        && 0 <= off + d && off + d + done <= size && HoldsAt(chip.mem, off + d, ubuf[..done])
        && SameOutside(old(chip.mem), chip.mem, off + d, off + d + done)
    {
      hide SameOutside, HoldsAt, Erased, PageRoundup, Serving, Shift;
      var front := off % PAGE;
      var base := off - front;
      ghost var m, p := chip.mem, base + d;
      done := if cnt < PAGE - front then cnt else PAGE - front;
      ShiftFits(off);
      PagePlace(off, done, d, size);
      Unchanged(m, p, p + PAGE);
      ret := FillPage(ubuf[..done], kbuf, off, done, d);
      if ret != 0 {
        return;
      }
      PageInSector(off, PAGE);
      ret := PageRewrite(kbuf, base, PAGE, d);
      if ret == 0 {
        PageRebuilt(m, chip.mem, kbuf[..], p, front, ubuf[..done]);
      }
    }

    /** qspi_page_wr: erase and write one whole page of the largest size that
        fits, or EOPNOTSUPP when not even the smallest does. */
    method PageWr(ubuf: seq<byte>, kbuf: array<byte>, off: int, cnt: int, ghost d: int) returns (ret: int, done: int)
      requires Valid() && Idle() && d == Shift(off / SECTOR) && kbuf != ioBuf && kbuf.Length == HUGE_PAGE
      requires 0 < cnt <= |ubuf| && 0 <= off && off + cnt <= size
      modifies this`chip, this`currSector, ioBuf, kbuf
      ensures ret == 0 || ret == EINVAL || ret == ETIMEDOUT || ret == EFAULT || ret == EOPNOTSUPP
      ensures !faulty ==> ret == if off % PAGE != 0 || cnt < PAGE then EOPNOTSUPP else 0
      ensures Valid()
      ensures SameOutside(old(chip.mem), chip.mem, off + d, off + d + FirstPart(off, cnt))
      ensures ret == EOPNOTSUPP ==> done == cnt
      ensures ret == EOPNOTSUPP || ret == EFAULT ==> Idle() && chip == old(chip) && currSector == old(currSector)
      ensures ret == 0 ==>
        && Idle() && Selected(off / SECTOR, d) && 0 < done <= cnt && off % SECTOR + done <= SECTOR
        && 0 <= off + d && off + d + done <= size && HoldsAt(chip.mem, off + d, ubuf[..done])
        && SameOutside(old(chip.mem), chip.mem, off + d, off + d + done)
    {
      hide SameOutside, HoldsAt, Erased, PageRoundup, Serving, Shift;
      ghost var m, p, first := chip.mem, off + d, FirstPart(off, cnt);
      done := cnt;
      Unchanged(m, p, p + first);
      var thislen := PageIoSize(off, cnt);
      if thislen == 0 {
        return EOPNOTSUPP, done;
      }
      done := thislen;
      PageInSector(off, thislen);
      ShiftFits(off);
      var left := CopyFromUser(kbuf, 0, ubuf[..thislen]);
      if left != 0 {
        return EFAULT, done;
      }
      ret := PageRewrite(kbuf, off, thislen, d);
      OutsideWiden(m, chip.mem, p, p + thislen, p, p + first);
    }

    /** The sector of the next byte of a request goes d bytes beside its place, as
        long as that is the first sector of the request. */
    predicate Ahead(lo: int, cnt: int, d: int)
      requires 0 <= lo && 0 <= cnt
      reads this
    {
      Shift((lo + cnt) / SECTOR) == if cnt < SECTOR - lo % SECTOR then d else 0
    }

    /** The sector of the last byte done stands selected. */
    predicate Behind(lo: int, cnt: int, d: int)
      requires 0 <= lo && 0 <= cnt
      reads this
    {
      cnt > 0 ==> Selected((lo + cnt - 1) / SECTOR, if cnt <= SECTOR - lo % SECTOR then d else 0)
    }

    lemma FirstAhead(lo: int, d: int, first: Select)
      requires 0 <= lo && Selection() == first && d == (Serving(first, lo / SECTOR) - lo / SECTOR) * SECTOR
      ensures Ahead(lo, 0, d) && Behind(lo, 0, d)
    {
    }

    lemma AheadFits(off: int, d: int)
      requires Valid() && 0 <= off < size && Ahead(off, 0, d)
      ensures 0 <= off + d && off + d + SECTOR - off % SECTOR <= size
    {
      hide Shift;
      ShiftFits(off);
    }

    lemma NothingAround(m: seq<byte>, lo: int, d: int, n: int)
      requires 0 <= lo <= |m| && 0 <= lo + d <= |m| && 0 < n && chip.mem == m
      ensures SameAround(m, lo, n, d) && Landed(m, lo, d, []) == m
    {
      hide PageRoundup;
      Nothing(m, lo, d, n);
    }

    lemma ShiftIs(s: int)
      ensures Shift(s) == (Serving(Selection(), s) - s) * SECTOR
    {
    }

    lemma NextAhead(lo: int, cnt: int, d: int)
      requires 0 <= lo && 0 < cnt && Behind(lo, cnt, d)
      ensures Ahead(lo, cnt, d)
    {
      NextSector(lo, cnt);
    }

    /** One page of the loop of qspi_write: as a whole page or by read, modify and
        write; cnt bytes of the request were done before. */
    method WritePiece(buf: seq<byte>, page: array<byte>, lo: int, cnt: int, n: int, ghost d: int, ghost m: seq<byte>)
      returns (ret: int, thislen: int)
      requires Valid() && Idle() && page != ioBuf && page.Length == HUGE_PAGE
      requires 0 <= lo && 0 <= cnt < n <= |buf| && lo + n <= size && |m| == size
      requires 0 <= lo + d && lo + d + SECTOR - lo % SECTOR <= size && Ahead(lo, cnt, d)
      requires chip.mem == Landed(m, lo, d, buf[..cnt]) && SameAround(m, lo, n, d)
      modifies this`chip, this`currSector, ioBuf, page
      ensures ret == 0 || ret == EINVAL || ret == ETIMEDOUT || ret == EFAULT
      ensures !faulty ==> ret == 0
      ensures Valid() && SameAround(m, lo, n, d)
      ensures ret == EFAULT ==> Idle() && Ahead(lo, cnt, d) && OneOf((lo + cnt) / SECTOR, old(Selection()))
      ensures ret == 0 ==>
        && Idle() && 0 < thislen && cnt + thislen <= n && Behind(lo, cnt + thislen, d)
        && chip.mem == Landed(m, lo, d, buf[..cnt + thislen])
    {
      hide SameOutside, HoldsAt, Erased, PageRoundup, Landed, Splice, FirstPart, AroundOf, Shift, Serving;
      ghost var s := chip.mem;
      ghost var thisoff, e := lo + cnt, if cnt < SECTOR - lo % SECTOR then d else 0;
      ret, thislen := PageWr(buf[cnt..], page, lo + cnt, n - cnt, e);
      PieceAround(m, s, chip.mem, lo, n, d, cnt, thisoff + e, thisoff + e + FirstPart(thisoff, n - cnt));
      if ret == EOPNOTSUPP {
        s := chip.mem;
        ret, thislen := PageRmw(buf[cnt..], page, lo + cnt, n - cnt, e);
        PieceAround(m, s, chip.mem, lo, n, d, cnt, thisoff + e - thisoff % PAGE, thisoff + e - thisoff % PAGE + PAGE);
      }
      if ret == 0 {
        PieceLanded(m, s, chip.mem, lo, d, buf, cnt, thislen, e);
        PieceSector(lo, cnt, thislen);
      }
    }

    /** Nothing differs from m outside the pages of the request and of the place
        its first part goes to. */
    predicate SameAround(m: seq<byte>, lo: int, n: int, d: int)
      requires 0 <= lo && 0 < n
      reads this
    {
      AroundOf(m, chip.mem, lo, n, d)
    }

    /** qspi_write. On success the first part of the request is where commands for
        its first sector go, and the rest in its place; so the flash holds its old
        contents with exactly the requested bytes replaced if and only if that is
        their sector, or both places held the bytes already. The new file offset is
        off plus the result. */
    method Write(buf: seq<byte>, off: int) returns (r: int)
      requires Valid() && 0 <= off < TOP
      requires off % U32_LIMIT < size ==> off % U32_LIMIT + Clamp(size, |buf|, off) <= size
      modifies this`chip, this`currSector, ioBuf
      ensures Valid()
      ensures r == ENOSPC <==> |buf| == 0 || off % U32_LIMIT >= size
      ensures !faulty ==> r == if |buf| == 0 || off % U32_LIMIT >= size then ENOSPC else Clamp(size, |buf|, off)
      ensures r == ENOSPC ==> chip == old(chip) && currSector == old(currSector)
      ensures r >= 0 ==>
        var lo, d, m := off % U32_LIMIT, old(Shift(off % U32_LIMIT / SECTOR)), old(chip.mem);
        && r == Clamp(size, |buf|, off) && 0 < r <= |buf| && lo + r <= |m|
        && 0 <= lo + d && lo + d + FirstPart(lo, r) <= |m|
        && chip.mem == Landed(m, lo, d, buf[..r])
        && (chip.mem == Splice(m, lo, buf[..r]) <==> d == 0 || AlreadyThere(m, lo, d, buf[..r]))
        && Idle() && (InSync() <==> d == 0 || lo % SECTOR + r > SECTOR)
      ensures r == EFAULT && old(InSync()) ==> InSync()
      ensures r < 0 && r != ENOSPC ==>
        var lo, n := off % U32_LIMIT, Clamp(size, |buf|, off);
        0 < n && SameAround(old(chip.mem), lo, n, old(Shift(off % U32_LIMIT / SECTOR)))
    {
      hide SameOutside, HoldsAt, Erased, PageRoundup, IsValidOffset, Clamp, Landed, Splice, Serving, Shift, SameBut,
        Synced,
        AlreadyThere, Selected, Ahead, Behind, SameAround, OneOf, FirstPart;
      // the driver splits off and looks at its alignment: see LowBits
      var lo := off % U32_LIMIT;
      ValidLow(size, off);
      if |buf| == 0 || !IsValidOffset(size, off) {
        return ENOSPC;
      }
      ghost var m, d := chip.mem, Shift(lo / SECTOR);
      var n := Clamp(size, |buf|, off);
      ClampSome(size, |buf|, off);
      ShiftFits(lo);
      ShiftIs(lo / SECTOR);
      FirstPartIs(lo, n, 0);
      var page := new byte[HUGE_PAGE](_ => 0);
      var cnt, ret := 0, 0;
      var ready := WaitUntilReady();
      if !ready {
        ret := EINVAL;
      }
      FirstAhead(lo, d, old(Selection()));
      NothingAround(m, lo, d, n);
      assert buf[..0] == [];
      while ret == 0 && cnt < n
        invariant Valid() && 0 <= cnt <= n && fresh(page) && page.Length == HUGE_PAGE
        invariant ret == 0 || ret == EINVAL || ret == ETIMEDOUT || ret == EFAULT
        invariant !faulty ==> ret == 0
        invariant SameAround(m, lo, n, d)
        invariant cnt == 0 && ret == 0 ==> Selection() == old(Selection())
        invariant ret == 0 ==>
          && Idle() && Behind(lo, cnt, d) && (cnt < n ==> Ahead(lo, cnt, d)) && chip.mem == Landed(m, lo, d, buf[..cnt])
        invariant ret == EFAULT && old(InSync()) ==> InSync()
        decreases n - cnt
      {
        var thislen;
        ghost var was := Selection();
        SyncedSoFar(lo, cnt, d, old(Selection()));
        ret, thislen := WritePiece(buf, page, lo, cnt, n, d, m);
        if ret != 0 {
          StillSynced(lo, cnt, d, was, old(Selection()));
          break;
        }
        cnt := cnt + thislen;
        NextAhead(lo, cnt, d);
      }
      if ret != 0 {
        return ret;
      }
      LandedRightIff(m, lo, d, buf[..n]);
      SyncedNow(lo, n, d);
      return n;
    }

    /** While pieces go well the driver stays in sync if it was. */
    lemma SyncedSoFar(lo: int, cnt: int, d: int, first: Select)
      requires 0 <= lo && 0 <= cnt && Behind(lo, cnt, d) && (cnt == 0 ==> Selection() == first)
      requires Valid() && lo + cnt < size && d == (Serving(first, lo / SECTOR) - lo / SECTOR) * SECTOR
      ensures Synced(first) ==> InSync()
    {
      assert 0 <= lo / SECTOR < 16;
    }

    lemma StillSynced(lo: int, cnt: int, d: int, was: Select, first: Select)
      requires 0 <= lo && 0 <= cnt && lo + cnt < size && Valid()
      requires Synced(first) ==> Synced(was)
      requires d == (Serving(first, lo / SECTOR) - lo / SECTOR) * SECTOR
      ensures Ahead(lo, cnt, d) && OneOf((lo + cnt) / SECTOR, was) && Synced(first) ==> InSync()
    {
      assert 0 <= lo / SECTOR < 16;
    }

    lemma SyncedNow(lo: int, n: int, d: int)
      requires 0 <= lo && 0 < n && lo + n <= size <= 16 * SECTOR && Behind(lo, n, d) && d % SECTOR == 0
      ensures InSync() <==> d == 0 || lo % SECTOR + n > SECTOR
    {
      assert 0 <= (lo + n - 1) / SECTOR < 16;
    }

    /** One round of the loop of qspi_do_read: up to the end of the page. */
    method ReadPiece(kbuf: array<byte>, page: array<byte>, cnt: int, left: int, off: int, ghost d: int)
      returns (ret: int, done: int)
      requires Valid() && Idle() && d == Shift(off / SECTOR)
      requires kbuf != ioBuf && page != ioBuf && page != kbuf && page.Length == PAGE
      requires 0 < left && 0 <= cnt && cnt + left <= kbuf.Length && 0 <= off && off + left <= size
      modifies this`chip, this`currSector, ioBuf, kbuf, page
      ensures Valid() && chip.mem == old(chip.mem) && 0 < done <= left && off % SECTOR + done <= SECTOR
      ensures 0 <= off + d && off + d + done <= size
      ensures ret == 0 || ret == EINVAL || ret == ETIMEDOUT
      ensures !faulty ==> ret == 0
      ensures SameOutside(old(kbuf[..]), kbuf[..], cnt, cnt + done)
      ensures ret == 0 ==>
        Idle() && Selected(off / SECTOR, d) && kbuf[cnt..cnt + done] == chip.mem[off + d..off + d + done]
    {
      hide SameOutside, HoldsAt, Erased, PageRoundup, Shift, Serving;
      PageEnd(off - off % PAGE, off);
      PageInSector(off, PAGE);
      ShiftFits(off);
      done := if left < PageRoundup(off) - off then left else PageRoundup(off) - off;
      Unchanged(kbuf[..], cnt, cnt + done);
      ret := BufRdWr(page, off % PAGE, off, done, false, d);
      if ret != 0 {
        return;
      }
      Memcpy(kbuf, cnt, page[off % PAGE..off % PAGE + done]);
    }

    /** ... and what was read so far with it. */
    method ReadNext(kbuf: array<byte>, page: array<byte>, cnt: int, n: int, off: int, ghost d: int)
      returns (ret: int, done: int)
      requires Valid() && Idle() && kbuf != ioBuf && page != ioBuf && page != kbuf && page.Length == PAGE
      requires 0 <= cnt < n <= kbuf.Length && 0 <= off && off + n <= size
      requires 0 <= off + d && off + d + SECTOR - off % SECTOR <= size
      requires Ahead(off, cnt, d) && FirstPart(off, cnt) <= SECTOR - off % SECTOR
      requires kbuf[..cnt] == Fetched(chip.mem, off, d, cnt)
      modifies this`chip, this`currSector, ioBuf, kbuf, page
      ensures Valid() && chip.mem == old(chip.mem) && 0 < done <= n - cnt
      ensures ret == 0 || ret == EINVAL || ret == ETIMEDOUT
      ensures !faulty ==> ret == 0
      ensures FirstPart(off, cnt + done) <= SECTOR - off % SECTOR
      ensures ret == 0 ==>
        && Idle() && Behind(off, cnt + done, d) && Ahead(off, cnt + done, d)
        && kbuf[..cnt + done] == Fetched(chip.mem, off, d, cnt + done)
    {
      hide SameOutside, Shift, Serving, Fetched, FirstPart;
      ghost var k, e := kbuf[..], if cnt < SECTOR - off % SECTOR then d else 0;
      FirstPartIs(off, n, cnt);
      ret, done := ReadPiece(kbuf, page, cnt, n - cnt, off + cnt, e);
      if ret == 0 {
        PieceFetched(chip.mem, k, kbuf[..], off, d, cnt, done, e);
        PieceSector(off, cnt, done);
        NextAhead(off, cnt + done, d);
      }
    }

    /** The loop of qspi_do_read. */
    method ReadAll(kbuf: array<byte>, n: int, off: int, ghost d: int) returns (ret: int)
      requires Valid() && Idle() && kbuf != ioBuf && 0 < n <= kbuf.Length && 0 <= off && off + n <= size
      requires 0 <= off + d && off + d + SECTOR - off % SECTOR <= size && Ahead(off, 0, d) && Behind(off, 0, d)
      modifies this`chip, this`currSector, ioBuf, kbuf
      ensures Valid() && chip.mem == old(chip.mem)
      ensures ret == 0 || ret == EINVAL || ret == ETIMEDOUT
      ensures !faulty ==> ret == 0
      ensures FirstPart(off, n) <= SECTOR - off % SECTOR
      ensures ret == 0 ==> Idle() && Behind(off, n, d) && kbuf[..n] == Fetched(chip.mem, off, d, n)
    {
      hide Valid, Shift, Serving, Fetched, Selected, Ahead, Behind, FirstPart;
      Fits();
      ghost var m := chip.mem;
      FirstPartIs(off, n, 0);
      FetchedNone(m, off, d);
      var page := new byte[PAGE](_ => 0);
      var cnt := 0;
      ret := 0;
      while ret == 0 && cnt < n
        invariant Valid() && 0 <= cnt <= n && chip.mem == m
        invariant ret == 0 || ret == EINVAL || ret == ETIMEDOUT
        invariant !faulty ==> ret == 0
        invariant ret == 0 ==>
          Idle() && Behind(off, cnt, d) && (cnt < n ==> Ahead(off, cnt, d)) && kbuf[..cnt] == Fetched(m, off, d, cnt)
        decreases n - cnt
      {
        var thislen;
        ret, thislen := ReadNext(kbuf, page, cnt, n, off, d);
        cnt := cnt + thislen;
      }
    }

    /** qspi_do_read; the caller keeps the request inside the flash. A successful
        read returns the bytes of the range, its first part from where commands for
        its first sector go. */
    method DoRead(kbuf: array<byte>, n: int, off: int) returns (ret: int)
      requires Valid() && kbuf != ioBuf
      requires 0 <= n <= kbuf.Length && 0 <= off && off + n <= size
      modifies this`chip, this`currSector, ioBuf, kbuf
      ensures Valid() && chip.mem == old(chip.mem)
      ensures ret == 0 || ret == EINVAL || ret == ETIMEDOUT
      ensures !faulty ==> ret == 0
      ensures ret == 0 && n > 0 ==>
        var d := old(Shift(off / SECTOR));
        var h := FirstPart(off, n);
        && Idle() && (InSync() <==> d == 0 || off % SECTOR + n > SECTOR)
        && 0 <= off + d && off + d + h <= |chip.mem| && kbuf[..n] == Fetched(chip.mem, off, d, n)
        && (kbuf[..n] == chip.mem[off..off + n] <==> chip.mem[off + d..off + d + h] == chip.mem[off..off + h])
    {
      hide Valid, Shift, Serving, Fetched, Synced, Selected, Ahead, Behind, FirstPart;
      ghost var d := Shift(off / SECTOR);
      ShiftIs(off / SECTOR);
      var ready := WaitUntilReady();
      if !ready {
        return EINVAL;
      }
      if n == 0 {
        // the loop has no rounds
        return 0;
      }
      Fits();
      FirstAhead(off, d, old(Selection()));
      AheadFits(off, d);
      ret := ReadAll(kbuf, n, off, d);
      if ret == 0 {
        FetchedRightIff(chip.mem, off, d, n);
        SyncedNow(off, n, d);
      }
    }
  }

  lemma ValidLow(size: int, off: int)
    requires 0 < size < U32_LIMIT && 0 <= off < TOP
    ensures IsValidOffset(size, off) <==> off % U32_LIMIT < size
  {
    hide Faddr2Offset, Offset2Faddr;
    Reassembled(off);
  }

  lemma ClampSome(size: int, n: int, off: int)
    requires 0 < size < U32_LIMIT && 0 <= off < TOP && off % U32_LIMIT < size && 0 < n
    ensures 0 < Clamp(size, n, off) <= n
  {
    LeftOver(size, off);
    if off < U32_LIMIT {
      assert off % U32_LIMIT == off;
    }
  }

  /** The part of a request in its first sector, seen from behind cnt bytes. */
  lemma FirstPartIs(lo: int, n: int, cnt: int)
    requires 0 <= lo && 0 <= cnt < n
    ensures var h, room := FirstPart(lo, n), SECTOR - lo % SECTOR;
            && h > 0 && h == (if n <= room then n else room)
            && FirstPart(lo + cnt, n - cnt) <= n - cnt
            && (cnt < room ==> cnt + FirstPart(lo + cnt, n - cnt) == h)
    ensures forall k :: 0 <= k ==> FirstPart(lo, k) <= SECTOR - lo % SECTOR
  {
    if cnt < SECTOR - lo % SECTOR {
      SectorOf(lo, cnt);
    }
  }

  lemma Nothing(m: seq<byte>, lo: int, d: int, n: int)
    requires 0 <= lo <= |m| && 0 <= lo + d <= |m| && 0 < n
    ensures Landed(m, lo, d, []) == m
    ensures SameBut(m, m, lo - lo % PAGE, PageRoundup(lo + n - 1), lo - lo % PAGE + d,
                    if FirstPart(lo, n) == 0 then lo - lo % PAGE + d else PageRoundup(lo + FirstPart(lo, n) - 1) + d)
  {
    SpliceNothing(m, lo + d);
    SpliceNothing(m, lo);
  }

  lemma FetchedNone(m: seq<byte>, off: int, d: int)
    requires 0 <= off <= |m| && 0 <= off + d <= |m|
    ensures Fetched(m, off, d, 0) == []
  {
  }

  /** One more piece in its place, or beside it. */
  lemma PieceLanded(m: seq<byte>, s: seq<byte>, t: seq<byte>, lo: int, d: int, buf: seq<byte>, cnt: int, len: int,
                    e: int)
    requires 0 <= lo && 0 <= cnt && 0 < len && cnt + len <= |buf| && lo + cnt + len <= |m|
    requires 0 <= lo + d && lo + d + SECTOR - lo % SECTOR <= |m|
    requires (lo + cnt) % SECTOR + len <= SECTOR && e == if cnt < SECTOR - lo % SECTOR then d else 0
    requires s == Landed(m, lo, d, buf[..cnt])
    requires HoldsAt(t, lo + cnt + e, buf[cnt..][..len]) && SameOutside(s, t, lo + cnt + e, lo + cnt + e + len)
    ensures t == Landed(m, lo, d, buf[..cnt + len])
  {
    hide HoldsAt, SameOutside, Landed, Splice;
    if cnt < SECTOR - lo % SECTOR {
      SectorOf(lo, cnt);
    }
    assert buf[..cnt] + buf[cnt..][..len] == buf[..cnt + len];
    LandedMore(m, lo, d, buf[..cnt], buf[cnt..][..len]);
    SpliceIs(s, t, lo + cnt + e, buf[cnt..][..len]);
  }

  lemma PieceFetched(m: seq<byte>, k: seq<byte>, t: seq<byte>, off: int, d: int, cnt: int, len: int, e: int)
    requires 0 <= off && 0 <= cnt && 0 < len && off + cnt + len <= |m| && cnt + len <= |k|
    requires 0 <= off + d && off + d + SECTOR - off % SECTOR <= |m|
    requires (off + cnt) % SECTOR + len <= SECTOR && e == if cnt < SECTOR - off % SECTOR then d else 0
    requires k[..cnt] == Fetched(m, off, d, cnt) && SameOutside(k, t, cnt, cnt + len)
    requires 0 <= off + cnt + e && off + cnt + e + len <= |m|
    requires t[cnt..cnt + len] == m[off + cnt + e..off + cnt + e + len]
    ensures t[..cnt + len] == Fetched(m, off, d, cnt + len)
  {
    hide Fetched;
    if cnt < SECTOR - off % SECTOR {
      SectorOf(off, cnt);
    }
    FetchedMore(m, off, d, cnt, len);
    SliceKept(k, t, cnt, cnt + len, 0, cnt);
    assert t[..cnt + len] == t[..cnt] + t[cnt..cnt + len];
  }

  /** A piece inside one sector ends in the sector it starts in. */
  lemma PieceSector(lo: int, cnt: int, len: int)
    requires 0 <= lo && 0 <= cnt && 0 < len && (lo + cnt) % SECTOR + len <= SECTOR
    ensures (lo + cnt + len - 1) / SECTOR == (lo + cnt) / SECTOR
    ensures cnt < SECTOR - lo % SECTOR <==> cnt + len <= SECTOR - lo % SECTOR
  {
    SectorOf(lo + cnt, len - 1);
    if cnt < SECTOR - lo % SECTOR {
      SectorOf(lo, cnt);
    }
  }

  /** qspi_get_page_io_size */
  function PageIoSize(off: int, sz: int): (r: int)
    requires off >= 0
    ensures r > 0 ==> off % r == 0 && r <= sz && (r == PAGE || r == LARGE_PAGE || r == HUGE_PAGE)
    ensures r == 0 <==> off % PAGE != 0 || sz < PAGE
  {
    if off % HUGE_PAGE == 0 && sz >= HUGE_PAGE then HUGE_PAGE
    else if off % LARGE_PAGE == 0 && sz >= LARGE_PAGE then LARGE_PAGE
    else if off % PAGE == 0 && sz >= PAGE then PAGE
    else 0
  }

  /** The page of every byte of a request is one of the pages it covers. */
  lemma CoverOfPage(off: int, cnt: int, n: int)
    requires 0 <= off && 0 <= cnt < n
    ensures off - off % PAGE <= off + cnt - (off + cnt) % PAGE
    ensures off + cnt - (off + cnt) % PAGE + PAGE <= PageRoundup(off + n - 1)
    ensures off + n <= PageRoundup(off + n - 1)
  {
    var x, y := off + cnt, off + n - 1;
    assert x / PAGE <= y / PAGE;
    assert PageRoundup(y) == y / PAGE * PAGE + PAGE;
  }

  lemma WholePages(p: int, r: int, q: int)
    requires 0 <= r < 0x1000 && p * 0x1000 + r < q * 0x100_0000
    ensures p * 0x1000 + 0x1000 <= q * 0x100_0000
  {
    assert p < q * 0x1000;
  }

  lemma PageFits(off: int, size: int)
    requires 0 <= off < size && size % SECTOR == 0
    ensures off - off % PAGE + PAGE <= size && (off - off % PAGE) % PAGE == 0
  {
    PageStart(off);
    WholePages(off / 0x1000, off % 0x1000, size / 0x100_0000);
    assert off == off / 0x1000 * 0x1000 + off % 0x1000 && size == size / 0x100_0000 * 0x100_0000;
  }

  lemma PageEnd(base: int, x: int)
    requires 0 <= base <= x < base + PAGE && base % PAGE == 0
    ensures PageRoundup(x) == base + PAGE
  {
  }

  /** qspi_erase_cmd */
  function EraseCmd(pagesz: int): (cmd: byte)
    ensures pagesz == PAGE || pagesz == LARGE_PAGE || pagesz == HUGE_PAGE ==> EraseSize(cmd) == pagesz
  {
    var k := pagesz / 1024;
    if k == 4 then ERASE_4K else if k == 32 then ERASE_32K else if k == 64 then ERASE_64K else 0
  }

  lemma PrefixAddr(sector: byte, head: seq<byte>, cmd: seq<byte>)
    requires |head| == 4 && |cmd| >= 4 && cmd[..4] == head
    ensures CmdAddr(sector, cmd) == CmdAddr(sector, head)
  {
    assert cmd[..4][1] == cmd[1] && cmd[..4][2] == cmd[2] && cmd[..4][3] == cmd[3];
  }
}
