/** fdt_pack: closing the gaps between the blocks, in place. */
module FdtPack {
  import opened Bytes
  import opened FdtFormat
  import opened FdtTree
  import opened FdtBlob

  /** The 64-bit size word of the reserve entry at off is zero. */
  predicate ZeroSize(raw: seq<byte>, off: int)
    requires 0 <= off && off + RSV_ENTRY <= |raw|
  {
    Word(raw, off + 8) == 0 && Word(raw, off + 12) == 0
  }

  /** Entries with a non-zero size from off on, if a terminating one follows
      before the limit. */
  function RsvCount(raw: seq<byte>, off: int, limit: int): (n: int)
    ensures n >= 0 ==> off + RSV_ENTRY * (n + 1) <= limit
    ensures n < 0 ==> n == TRUNCATED
    decreases limit - off
  {
    if off < 0 || off + RSV_ENTRY > limit || limit > |raw| then TRUNCATED
    else if ZeroSize(raw, off) then 0
    else
      var r := RsvCount(raw, off + RSV_ENTRY, limit);
      if r < 0 then r else r + 1
  }

  /** A reserve entry, and its sixteen bytes: two big-endian 64-bit words. */
  type u64 = n: int | 0 <= n < 0x1_0000_0000_0000_0000

  datatype Reserve = Reserve(address: u64, size: u64)

  function RsvEntry(r: Reserve): (s: seq<byte>)
    ensures |s| == RSV_ENTRY
  {
    Be32(r.address / 0x1_0000_0000) + Be32(r.address % 0x1_0000_0000)
    + Be32(r.size / 0x1_0000_0000) + Be32(r.size % 0x1_0000_0000)
  }

  function RsvMap(rs: seq<Reserve>): (s: seq<byte>)
    ensures |s| == RSV_ENTRY * |rs|
  {
    if rs == [] then [] else RsvEntry(rs[0]) + RsvMap(rs[1..])
  }

  /** The number of entries in front of the first one without a size. */
  function Sized(rs: seq<Reserve>): nat {
    if rs == [] || rs[0].size == 0 then 0 else 1 + Sized(rs[1..])
  }

  lemma {:induction false} RsvMapMore(rs: seq<Reserve>, r: Reserve)
    ensures RsvMap(rs + [r]) == RsvMap(rs) + RsvEntry(r)
    decreases |rs|
  {
    hide RsvEntry;
    if rs == [] {
      assert [r][1..] == [] && RsvMap([]) == [] && RsvEntry(r) + [] == RsvEntry(r);
    } else {
      RsvMapMore(rs[1..], r);
      assert (rs + [r])[1..] == rs[1..] + [r];
      assert RsvEntry(rs[0]) + (RsvMap(rs[1..]) + RsvEntry(r)) == RsvEntry(rs[0]) + RsvMap(rs[1..]) + RsvEntry(r);
    }
  }

  lemma WordInside(raw: seq<byte>, i: int, n: int)
    requires 0 <= i && i + 4 <= |raw| && 0 <= n < U32_LIMIT && raw[i..i + 4] == Be32(n)
    ensures Word(raw, i) == n
  {
    hide Word, Be32;
    WordOfBe32(n);
    forall j | 0 <= j < 4 ensures Be32(n)[j] == raw[j - 0 + i] {
      assert raw[i..i + 4][j] == raw[i + j];
    }
    SameWord(Be32(n), 0, raw, i);
  }

  lemma SizeRead(raw: seq<byte>, off: int, r: Reserve)
    requires 0 <= off && off + RSV_ENTRY <= |raw| && raw[off..off + RSV_ENTRY] == RsvEntry(r)
    ensures ZeroSize(raw, off) <==> r.size == 0
  {
    hide Word, Be32;
    var s := RsvEntry(r);
    assert raw[off..off + RSV_ENTRY][8..12] == raw[off + 8..off + 12];
    assert raw[off..off + RSV_ENTRY][12..16] == raw[off + 12..off + 16];
    assert s[8..12] == Be32(r.size / 0x1_0000_0000) && s[12..16] == Be32(r.size % 0x1_0000_0000);
    WordInside(raw, off + 8, r.size / 0x1_0000_0000);
    WordInside(raw, off + 12, r.size % 0x1_0000_0000);
  }

  /** What is counted in a map of entries and a terminating one are the entries in
      front of the first without a size. */
  lemma {:induction false} RsvCountIs(raw: seq<byte>, a: int, e: int, rs: seq<Reserve>)
    requires 0 <= a <= e <= |raw| && raw[a..e] == RsvMap(rs) + RsvEntry(Reserve(0, 0))
    ensures RsvCount(raw, a, e) == Sized(rs)
    decreases |rs|
  {
    hide ZeroSize, RsvEntry;
    var b := a + RSV_ENTRY;
    var all := raw[a..e];
    assert all[..RSV_ENTRY] == raw[a..b];
    if rs == [] {
      assert all == RsvEntry(Reserve(0, 0));
      assert all[..RSV_ENTRY] == all;
      SizeRead(raw, a, Reserve(0, 0));
    } else {
      assert all == RsvEntry(rs[0]) + (RsvMap(rs[1..]) + RsvEntry(Reserve(0, 0)));
      assert all[..RSV_ENTRY] == RsvEntry(rs[0]);
      SizeRead(raw, a, rs[0]);
      assert all[RSV_ENTRY..] == raw[b..e];
      assert all[RSV_ENTRY..] == RsvMap(rs[1..]) + RsvEntry(Reserve(0, 0));
      RsvCountIs(raw, b, e, rs[1..]);
    }
  }

  lemma {:induction false} RsvCountLimit(raw: seq<byte>, off: int, limit: int, total: int)
    requires RsvCount(raw, off, limit) >= 0 && limit <= total <= |raw|
    ensures RsvCount(raw, off, total) == RsvCount(raw, off, limit)
    decreases limit - off
  {
    if !ZeroSize(raw, off) {
      RsvCountLimit(raw, off + RSV_ENTRY, limit, total);
    }
  }

  /** fdt_num_mem_rsv */
  method NumMemRsv(b: Blob) returns (n: int)
    requires Laid(b.h, b.buf.Length)
    ensures n == RsvCount(b.buf[..], b.h.offRsv, b.h.totalsize)
  {
    n := 0;
    ghost var all := RsvCount(b.buf[..], b.h.offRsv, b.h.totalsize);
    var raw := b.buf[..];
    while b.h.offRsv + RSV_ENTRY * n <= b.h.totalsize - RSV_ENTRY
      invariant n >= 0
      invariant var r := RsvCount(raw, b.h.offRsv + RSV_ENTRY * n, b.h.totalsize);
                all == if r < 0 then r else n + r
      decreases b.h.totalsize - RSV_ENTRY * n
    {
      if ZeroSize(raw, b.h.offRsv + RSV_ENTRY * n) {
        return;
      }
      n := n + 1;
    }
    n := TRUNCATED;
  }

  lemma KeptBehind(s: seq<byte>, t: seq<byte>, dst: int, n: int, a: int, m: int)
    requires Same(s, dst + n, t, dst + n, |s| - dst - n) && |t| == |s|
    requires dst + n <= a && 0 <= m && a + m <= |s|
    ensures Same(s, a, t, a, m)
  {
    SamePart(s, dst + n, t, dst + n, |s| - dst - n, a - dst - n, m);
  }

  lemma SameTrans(s: seq<byte>, a: int, t: seq<byte>, b: int, u: seq<byte>, c: int, n: int)
    requires Same(s, a, t, b, n) && Same(t, b, u, c, n)
    ensures Same(s, a, u, c, n)
  {
    forall j | a <= j < a + n ensures s[j] == u[j - a + c] {
      assert s[j] == t[j - a + b];
      assert t[j - a + b] == u[j - a + b - b + c];
    }
  }

  /** fdt_packblocks_ with source and destination the same buffer. */
  method PackBlocks(b: Blob, rsvSize: int, structSize: int)
    requires Laid(b.h, b.buf.Length) && structSize == b.h.sizeStruct
    requires RSV_ENTRY <= rsvSize && b.h.offRsv + rsvSize <= b.h.offStruct
    modifies b, b.buf
    ensures b.h == old(b.h).(offRsv := HEADER_SIZE, offStruct := b.h.offStruct, offStrings := b.h.offStrings)
    ensures b.h.offStruct == HEADER_SIZE + rsvSize
    ensures b.h.offStrings == HEADER_SIZE + rsvSize + structSize
    ensures Same(old(b.buf[..]), old(b.h).offRsv, b.buf[..], b.h.offRsv, rsvSize)
    ensures Same(old(b.buf[..]), old(b.h).offStruct, b.buf[..], b.h.offStruct, structSize)
    ensures Same(old(b.buf[..]), old(b.h).offStrings, b.buf[..], b.h.offStrings, b.h.sizeStrings)
  {
    hide Same;
    ghost var s0, h := b.buf[..], b.h;
    var rsvOff := HEADER_SIZE;
    var structOff := rsvOff + rsvSize;
    var stringsOff := structOff + structSize;
    Memmove(b.buf, rsvOff, b.h.offRsv, rsvSize);
    ghost var s1 := b.buf[..];
    b.h := b.h.(offRsv := rsvOff);
    Memmove(b.buf, structOff, b.h.offStruct, structSize);
    ghost var s2 := b.buf[..];
    b.h := b.h.(offStruct := structOff, sizeStruct := structSize);
    Memmove(b.buf, stringsOff, b.h.offStrings, b.h.sizeStrings);
    ghost var s3 := b.buf[..];
    b.h := b.h.(offStrings := stringsOff);
    KeptBehind(s0, s1, rsvOff, rsvSize, h.offStruct, structSize);
    KeptBehind(s0, s1, rsvOff, rsvSize, h.offStrings, h.sizeStrings);
    KeptBehind(s1, s2, structOff, structSize, h.offStrings, h.sizeStrings);
    SamePart(s1, 0, s2, 0, structOff, rsvOff, rsvSize);
    SamePart(s2, 0, s3, 0, stringsOff, rsvOff, rsvSize);
    SamePart(s2, 0, s3, 0, stringsOff, structOff, structSize);
    SameTrans(s0, h.offRsv, s1, rsvOff, s2, rsvOff, rsvSize);
    SameTrans(s0, h.offRsv, s2, rsvOff, s3, rsvOff, rsvSize);
    SameTrans(s0, h.offStruct, s1, h.offStruct, s2, structOff, structSize);
    SameTrans(s0, h.offStruct, s2, structOff, s3, structOff, structSize);
    SameTrans(s0, h.offStrings, s1, h.offStrings, s2, h.offStrings, h.sizeStrings);
    SameTrans(s0, h.offStrings, s2, h.offStrings, s3, stringsOff, h.sizeStrings);
  }

  /** fdt_pack: the three blocks keep their contents, the total size becomes the
      header plus exactly the three blocks. */
  method Pack(b: Blob, ghost f: Forest) returns (err: int)
    requires RwProbe(b.h) == 0 ==>
      Holds(b, f) && RsvCount(b.buf[..], b.h.offRsv, b.h.offStruct) >= 0
    modifies b, b.buf
    ensures RwProbe(old(b.h)) != 0 ==> err == RwProbe(old(b.h)) && b.h == old(b.h) && b.buf[..] == old(b.buf[..])
    ensures RwProbe(old(b.h)) == 0 ==>
      && err == 0 && Holds(b, f)
      && b.StructBlock() == old(b.StructBlock()) && b.Strings() == old(b.Strings())
      && var map_ := RSV_ENTRY * (old(RsvCount(b.buf[..], b.h.offRsv, b.h.offStruct)) + 1);
      && b.Rsv() == Region(old(b.buf[..]), old(b.h).offRsv, map_)
      && b.h.totalsize == HEADER_SIZE + map_ + |b.StructBlock()| + |b.Strings()|
      && b.h.totalsize <= old(b.h).totalsize
  {
    hide Same, Region, TreeIn, NamesOk, RsvCount;
    var p := RwProbe(b.h);
    if p != 0 {
      return p;
    }
    ghost var s, h := b.buf[..], b.h;
    BlockSizes(b);
    var count := NumMemRsv(b);
    RsvCountLimit(s, h.offRsv, h.offStruct, h.totalsize);
    var rsvSize := (count + 1) * RSV_ENTRY;
    PackBlocks(b, rsvSize, b.h.sizeStruct);
    RegionSame(s, h.offRsv, b.buf[..], b.h.offRsv, rsvSize);
    RegionSame(s, h.offStruct, b.buf[..], b.h.offStruct, h.sizeStruct);
    RegionSame(s, h.offStrings, b.buf[..], b.h.offStrings, h.sizeStrings);
    b.h := b.h.(totalsize := b.h.offStrings + b.h.sizeStrings);
    BlockSizes(b);
    err := 0;
  }
}
