/** A flattened device tree in memory: the header fields, the buffer, and the
    primitive moves and writes the editing code is made of. */
module FdtBlob {
  import opened Bytes
  import opened FdtFormat
  import opened FdtTree

  type u32 = x: int | 0 <= x < U32_LIMIT

  const FDT_MAGIC: u32 := 0xd00d_feed
  const FDT_SW_MAGIC: u32 := 0x2ff2_0112

  const NOTFOUND := -1
  const EXISTS := -2
  const NOSPACE := -3
  const BADOFFSET := -4
  const BADPHANDLE := -6
  const BADSTATE := -7
  const BADMAGIC := -9
  const BADVERSION := -10
  const BADLAYOUT := -12
  const INTERNAL := -13
  const BADOVERLAY := -16

  /** struct fdt_header, in host order. */
  datatype Header = Header(
    magic: u32, totalsize: u32, offStruct: u32, offStrings: u32, offRsv: u32,
    version: u32, lastComp: u32, sizeStrings: u32, sizeStruct: u32)

  const HEADER_SIZE := 40
  const RSV_ENTRY := 16

  /** The header rounded up to a reserve entry, as the sequential writer does. */
  const SW_HEADER_SIZE := 48

  class Blob {
    const buf: array<byte>
    var h: Header

    constructor (size: nat)
      ensures fresh(buf) && buf.Length == size
    {
      buf := new byte[size](_ => 0);
      h := Header(0, 0, 0, 0, 0, 0, 0, 0, 0);
    }

    function StructBlock(): seq<byte>
      reads this, buf
    {
      Region(buf[..], h.offStruct, h.sizeStruct)
    }

    function Strings(): seq<byte>
      reads this, buf
    {
      Region(buf[..], h.offStrings, h.sizeStrings)
    }

    /** The reserve map and whatever lies between it and the structure block. */
    function Rsv(): seq<byte>
      reads this, buf
    {
      Region(buf[..], h.offRsv, h.offStruct - h.offRsv)
    }
  }

  function Region(raw: seq<byte>, a: int, n: int): (r: seq<byte>)
    ensures 0 <= a && 0 <= n && a + n <= |raw| ==> |r| == n
  {
    if 0 <= a && 0 <= n && a + n <= |raw| then raw[a..a + n] else []
  }

  // ---- probes -----------------------------------------------------------------

  /** fdt_ro_probe_: the total size, or what is wrong with the header. */
  function RoProbe(h: Header): int {
    if h.magic == FDT_MAGIC && (h.version < 2 || h.lastComp > 17) then BADVERSION
    else if h.magic == FDT_SW_MAGIC && h.sizeStruct == 0 then BADSTATE
    else if h.magic != FDT_MAGIC && h.magic != FDT_SW_MAGIC then BADMAGIC
    else if h.totalsize < INT_LIMIT - 1 then h.totalsize
    else TRUNCATED
  }

  /** fdt_blocks_misordered_, sums taken modulo 2^32 as in the code. */
  predicate Misordered(h: Header, rsvSize: int, structSize: int) {
    || h.offRsv < HEADER_SIZE
    || h.offStruct < (h.offRsv + rsvSize) % U32_LIMIT
    || h.offStrings < (h.offStruct + structSize) % U32_LIMIT
    || h.totalsize < (h.offStrings + h.sizeStrings) % U32_LIMIT
  }

  /** fdt_rw_probe_ on headers whose version is at most 17. */
  function RwProbe(h: Header): int {
    if RoProbe(h) < 0 then RoProbe(h)
    else if h.version < 17 then BADVERSION
    else if Misordered(h, RSV_ENTRY, h.sizeStruct) then BADLAYOUT
    else 0
  }

  /** A finished version-17 header over a buffer of cap bytes, its blocks in
      order and inside the total size. */
  predicate Laid(h: Header, cap: int) {
    && h.magic == FDT_MAGIC && h.version == 17 && h.lastComp <= 17
    && HEADER_SIZE <= h.offRsv
    && h.offRsv + RSV_ENTRY <= h.offStruct
    && h.offStruct + h.sizeStruct <= h.offStrings
    && h.offStrings + h.sizeStrings <= h.totalsize <= cap
    && h.totalsize < INT_LIMIT - 1
  }

  /** An unfinished blob of the sequential writer, past the reserve map: the
      structure grows up from its offset, the strings grow down from the end. */
  predicate SwLaid(h: Header, cap: int) {
    && h.magic == FDT_SW_MAGIC && h.version == 17
    && h.offRsv == SW_HEADER_SIZE && SW_HEADER_SIZE + RSV_ENTRY <= h.offStruct
    && h.offStruct + h.sizeStruct + h.sizeStrings <= h.totalsize <= cap
    && h.totalsize < INT_LIMIT - 1
  }

  lemma LaidPassesProbe(h: Header, cap: int)
    requires Laid(h, cap)
    ensures RoProbe(h) == h.totalsize && RwProbe(h) == 0
  {
  }

  predicate OnlyNops(f: Forest) {
    match f
    case Nil => true
    case Nop(n) => OnlyNops(n)
    case _ => false
  }

  /** s is a whole structure block: the root node at offset 0, NOPs, END. */
  ghost predicate TreeIn(s: seq<byte>, f: Forest) {
    && At(s, 0, f) && f.Sub? && OnlyNops(f.next)
    && IsTag(s, Size(f), END) && |s| == Size(f) + 4 && |s| < INT_LIMIT
  }

  /** b is a well-formed blob whose structure block is f. */
  ghost predicate Holds(b: Blob, f: Forest)
    reads b, b.buf
  {
    && Laid(b.h, b.buf.Length)
    && TreeIn(b.StructBlock(), f)
    && NamesOk(f, b.Strings())
  }

  /** The device tree a blob holds is determined by its bytes. */
  lemma HoldsUnique(b: Blob, f: Forest, g: Forest)
    requires Holds(b, f) && Holds(b, g)
    ensures f == g
  {
    AtUnique(b.StructBlock(), 0, f, g, END, END);
  }

  lemma BlockSizes(b: Blob)
    requires Laid(b.h, b.buf.Length)
    ensures |b.StructBlock()| == b.h.sizeStruct < INT_LIMIT && |b.Strings()| == b.h.sizeStrings < INT_LIMIT
  {
  }

  // ---- moving -----------------------------------------------------------------

  method Memmove(a: array<byte>, dst: int, src: int, n: int)
    requires 0 <= n && 0 <= dst && dst + n <= a.Length && 0 <= src && src + n <= a.Length
    modifies a
    ensures Same(old(a[..]), src, a[..], dst, n)
    ensures Same(old(a[..]), 0, a[..], 0, dst)
    ensures Same(old(a[..]), dst + n, a[..], dst + n, a.Length - dst - n)
  {
    forall i | dst <= i < dst + n {
      a[i] := a[i - dst + src];
    }
    forall j | src <= j < src + n ensures old(a[..])[j] == a[..][j - src + dst] {
      assert a[j - src + dst] == old(a[j - src + dst - dst + src]);
    }
  }

  method Memcpy(a: array<byte>, dst: int, v: seq<byte>)
    requires 0 <= dst && dst + |v| <= a.Length
    modifies a
    ensures Patched(old(a[..]), a[..], dst, v)
  {
    forall i | dst <= i < dst + |v| {
      a[i] := v[i - dst];
    }
  }

  function SpliceErr(h: Header, p: int, oldlen: int, newlen: int): int {
    var dsize := h.offStrings + h.sizeStrings;
    if oldlen < 0 || p + oldlen > dsize then BADOFFSET
    else if p < 0 || dsize + newlen < oldlen then BADOFFSET
    else if dsize - oldlen + newlen > h.totalsize then NOSPACE
    else 0
  }

  /** Everything before p stays; the used bytes behind p + oldlen move. */
  predicate TailMoved(s: seq<byte>, t: seq<byte>, p: int, oldlen: int, newlen: int, dsize: int) {
    && |t| == |s|
    && Same(s, 0, t, 0, p)
    && Same(s, p + oldlen, t, p + newlen, dsize - p - oldlen)
  }

  /** fdt_splice_ */
  method Splice(b: Blob, p: int, oldlen: int, newlen: int) returns (err: int)
    requires Laid(b.h, b.buf.Length) && 0 <= newlen
    modifies b.buf
    ensures err == SpliceErr(b.h, p, oldlen, newlen)
    ensures err != 0 ==> b.buf[..] == old(b.buf[..])
    ensures err == 0 ==>
      TailMoved(old(b.buf[..]), b.buf[..], p, oldlen, newlen, b.h.offStrings + b.h.sizeStrings)
  {
    var dsize := b.h.offStrings + b.h.sizeStrings;
    if oldlen < 0 || p + oldlen > dsize {
      return BADOFFSET;
    }
    if p < 0 || dsize + newlen < oldlen {
      return BADOFFSET;
    }
    if dsize - oldlen + newlen > b.h.totalsize {
      return NOSPACE;
    }
    Memmove(b.buf, p + newlen, p + oldlen, dsize - (p + oldlen));
    SamePart(old(b.buf[..]), 0, b.buf[..], 0, p + newlen, 0, p);
    return 0;
  }

  lemma SameRegion(s: seq<byte>, a: int, n: int, t: seq<byte>, b: int, m: int, i: int, j: int, k: int)
    requires 0 <= a && 0 <= n && a + n <= |s| && 0 <= b && 0 <= m && b + m <= |t|
    requires 0 <= i && 0 <= k && i + k <= n && 0 <= j && j + k <= m
    requires Same(s, a + i, t, b + j, k)
    ensures Same(Region(s, a, n), i, Region(t, b, m), j, k)
  {
    var u, v := Region(s, a, n), Region(t, b, m);
    forall x | i <= x < i + k ensures u[x] == v[x - i + j] {
      assert s[a + x] == t[a + x - (a + i) + (b + j)];
    }
  }

  lemma SameAll(s: seq<byte>, t: seq<byte>)
    requires |s| == |t| && Same(s, 0, t, 0, |s|)
    ensures s == t
  {
    forall j | 0 <= j < |s| ensures s[j] == t[j] {
      assert s[j] == t[j - 0 + 0];
    }
  }

  lemma RegionSame(s: seq<byte>, a: int, t: seq<byte>, b: int, n: int)
    requires Same(s, a, t, b, n)
    ensures Region(s, a, n) == Region(t, b, n)
  {
    SameRegion(s, a, n, t, b, n, 0, 0, n);
    SameAll(Region(s, a, n), Region(t, b, n));
  }

  /** What a splice inside the structure block does to that block... */
  lemma TailMovedStruct(h: Header, s: seq<byte>, t: seq<byte>, p: int, oldlen: int, newlen: int)
    requires Laid(h, |s|)
    requires 0 <= p && 0 <= oldlen && p + oldlen <= h.sizeStruct && 0 <= newlen
    requires h.offStrings + h.sizeStrings - oldlen + newlen <= h.totalsize
    requires TailMoved(s, t, h.offStruct + p, oldlen, newlen, h.offStrings + h.sizeStrings)
    ensures Spliced(Region(s, h.offStruct, h.sizeStruct),
                    Region(t, h.offStruct, h.sizeStruct - oldlen + newlen), p, oldlen, newlen)
  {
    hide Same, Region;
    var size := h.sizeStruct - oldlen + newlen;
    var q := h.offStruct + p;
    var rest := h.sizeStruct - p - oldlen;
    SamePart(s, 0, t, 0, q, h.offStruct, p);
    SameRegion(s, h.offStruct, h.sizeStruct, t, h.offStruct, size, 0, 0, p);
    SamePart(s, q + oldlen, t, q + newlen, h.offStrings + h.sizeStrings - q - oldlen, 0, rest);
    SameRegion(s, h.offStruct, h.sizeStruct, t, h.offStruct, size, p + oldlen, p + newlen, rest);
    SplicedRegions(Region(s, h.offStruct, h.sizeStruct), Region(t, h.offStruct, size), p, oldlen, newlen);
  }

  lemma SplicedRegions(u: seq<byte>, v: seq<byte>, p: int, oldlen: int, newlen: int)
    requires Same(u, 0, v, 0, p) && |v| == |u| - oldlen + newlen
    requires Same(u, p + oldlen, v, p + newlen, |u| - p - oldlen)
    ensures Spliced(u, v, p, oldlen, newlen)
  {
  }

  /** ... and to its neighbours: nothing. */
  lemma TailMovedOthers(h: Header, s: seq<byte>, t: seq<byte>, p: int, oldlen: int, newlen: int)
    requires Laid(h, |s|)
    requires 0 <= p && 0 <= oldlen && p + oldlen <= h.sizeStruct && 0 <= newlen
    requires h.offStrings + h.sizeStrings - oldlen + newlen <= h.totalsize
    requires TailMoved(s, t, h.offStruct + p, oldlen, newlen, h.offStrings + h.sizeStrings)
    ensures Region(t, h.offStrings - oldlen + newlen, h.sizeStrings) == Region(s, h.offStrings, h.sizeStrings)
    ensures Region(t, h.offRsv, h.offStruct - h.offRsv) == Region(s, h.offRsv, h.offStruct - h.offRsv)
  {
    var q := h.offStruct + p;
    var dsize := h.offStrings + h.sizeStrings;
    SamePart(s, q + oldlen, t, q + newlen, dsize - q - oldlen, h.offStrings - q - oldlen, h.sizeStrings);
    RegionSame(s, h.offStrings, t, h.offStrings - oldlen + newlen, h.sizeStrings);
    SamePart(s, 0, t, 0, q, h.offRsv, h.offStruct - h.offRsv);
    RegionSame(s, h.offRsv, t, h.offRsv, h.offStruct - h.offRsv);
  }

  /** fdt_splice_struct_: p is an offset in the structure block. */
  method SpliceStruct(b: Blob, p: int, oldlen: int, newlen: int) returns (err: int)
    requires Laid(b.h, b.buf.Length)
    requires 0 <= p && 0 <= oldlen && p + oldlen <= b.h.sizeStruct && 0 <= newlen
    modifies b, b.buf
    ensures err == SpliceErr(old(b.h), old(b.h).offStruct + p, oldlen, newlen)
    ensures err != 0 ==> err == NOSPACE && b.h == old(b.h) && b.buf[..] == old(b.buf[..])
    ensures err == 0 ==>
      && Laid(b.h, b.buf.Length)
      && b.h == old(b.h).(sizeStruct := old(b.h).sizeStruct - oldlen + newlen,
                          offStrings := old(b.h).offStrings - oldlen + newlen)
      && Spliced(old(b.StructBlock()), b.StructBlock(), p, oldlen, newlen)
      && b.Strings() == old(b.Strings()) && b.Rsv() == old(b.Rsv())
  {
    hide Same, Region, Spliced;
    var delta := newlen - oldlen;
    err := Splice(b, b.h.offStruct + p, oldlen, newlen);
    if err != 0 {
      return;
    }
    TailMovedStruct(b.h, old(b.buf[..]), b.buf[..], p, oldlen, newlen);
    TailMovedOthers(b.h, old(b.buf[..]), b.buf[..], p, oldlen, newlen);
    b.h := b.h.(sizeStruct := b.h.sizeStruct + delta);
    b.h := b.h.(offStrings := b.h.offStrings + delta);
  }

  lemma PatchedBlocks(h: Header, s: seq<byte>, t: seq<byte>, p: int, v: seq<byte>)
    requires Laid(h, |s|)
    requires 0 <= p && p + |v| <= h.sizeStruct
    requires Patched(s, t, h.offStruct + p, v)
    ensures Patched(Region(s, h.offStruct, h.sizeStruct), Region(t, h.offStruct, h.sizeStruct), p, v)
    ensures Region(t, h.offStrings, h.sizeStrings) == Region(s, h.offStrings, h.sizeStrings)
    ensures Region(t, h.offRsv, h.offStruct - h.offRsv) == Region(s, h.offRsv, h.offStruct - h.offRsv)
  {
    var q := h.offStruct + p;
    var rest := h.sizeStruct - p - |v|;
    var u, w := Region(s, h.offStruct, h.sizeStruct), Region(t, h.offStruct, h.sizeStruct);
    SamePart(s, 0, t, 0, q, h.offStruct, p);
    SameRegion(s, h.offStruct, h.sizeStruct, t, h.offStruct, h.sizeStruct, 0, 0, p);
    SamePart(s, q + |v|, t, q + |v|, |s| - q - |v|, 0, rest);
    SameRegion(s, h.offStruct, h.sizeStruct, t, h.offStruct, h.sizeStruct, p + |v|, p + |v|, rest);
    forall j | p <= j < p + |v| ensures w[j] == v[j - p] {
      assert t[h.offStruct + j] == v[h.offStruct + j - q];
    }
    SamePart(s, q + |v|, t, q + |v|, |s| - q - |v|, h.offStrings - q - |v|, h.sizeStrings);
    RegionSame(s, h.offStrings, t, h.offStrings, h.sizeStrings);
    SamePart(s, 0, t, 0, q, h.offRsv, h.offStruct - h.offRsv);
    RegionSame(s, h.offRsv, t, h.offRsv, h.offStruct - h.offRsv);
  }

  /** Stores through a pointer into the structure block. */
  method WriteStruct(b: Blob, p: int, v: seq<byte>)
    requires Laid(b.h, b.buf.Length)
    requires 0 <= p && p + |v| <= b.h.sizeStruct
    modifies b.buf
    ensures Patched(old(b.StructBlock()), b.StructBlock(), p, v)
    ensures b.Strings() == old(b.Strings()) && b.Rsv() == old(b.Rsv())
  {
    Memcpy(b.buf, b.h.offStruct + p, v);
    PatchedBlocks(b.h, old(b.buf[..]), b.buf[..], p, v);
  }

  // ---- the strings block ---------------------------------------------------------

  lemma StringsGrown(h: Header, s: seq<byte>, t: seq<byte>, v: seq<byte>)
    requires Laid(h, |s|) && h.offStrings + h.sizeStrings + |v| <= h.totalsize && |t| == |s|
    requires Same(s, 0, t, 0, h.offStrings + h.sizeStrings) && HoldsAt(t, h.offStrings + h.sizeStrings, v)
    ensures Region(t, h.offStrings, h.sizeStrings + |v|) == Region(s, h.offStrings, h.sizeStrings) + v
    ensures Region(t, h.offStruct, h.sizeStruct) == Region(s, h.offStruct, h.sizeStruct)
    ensures Region(t, h.offRsv, h.offStruct - h.offRsv) == Region(s, h.offRsv, h.offStruct - h.offRsv)
  {
    hide Region, Same, HoldsAt;
    var e := h.offStrings + h.sizeStrings;
    SamePart(s, 0, t, 0, e, h.offStruct, h.sizeStruct);
    RegionSame(s, h.offStruct, t, h.offStruct, h.sizeStruct);
    SamePart(s, 0, t, 0, e, h.offRsv, h.offStruct - h.offRsv);
    RegionSame(s, h.offRsv, t, h.offRsv, h.offStruct - h.offRsv);
    SamePart(s, 0, t, 0, e, h.offStrings, h.sizeStrings);
    RegionGrown(s, t, h.offStrings, h.sizeStrings, v);
  }

  lemma RegionGrown(s: seq<byte>, t: seq<byte>, a: int, n: int, v: seq<byte>)
    requires Same(s, a, t, a, n) && HoldsAt(t, a + n, v)
    ensures Region(t, a, n + |v|) == Region(s, a, n) + v
  {
    var x, y := Region(t, a, n + |v|), Region(s, a, n) + v;
    forall j | 0 <= j < |x| ensures x[j] == y[j] {
      assert x[j] == t[a + j];
      if j < n {
        assert s[a + j] == t[a + j - a + a];
        assert y[j] == s[a + j];
      } else {
        assert t[a + j] == v[a + j - (a + n)];
        assert y[j] == v[j - n];
      }
    }
  }

  /** fdt_splice_string_ and the store that follows it: v behind the strings. */
  method AppendString(b: Blob, v: seq<byte>) returns (err: int)
    requires Laid(b.h, b.buf.Length)
    modifies b, b.buf
    ensures err == 0 || err == NOSPACE
    ensures err == 0 <==> old(b.h).offStrings + old(b.h).sizeStrings + |v| <= old(b.h).totalsize
    ensures err != 0 ==> b.h == old(b.h) && b.buf[..] == old(b.buf[..])
    ensures err == 0 ==>
      && b.h == old(b.h).(sizeStrings := old(b.h).sizeStrings + |v|) && Laid(b.h, b.buf.Length)
      && b.Strings() == old(b.Strings()) + v
      && b.StructBlock() == old(b.StructBlock()) && b.Rsv() == old(b.Rsv())
  {
    hide Same, Region, Patched;
    ghost var s := b.buf[..];
    var p := b.h.offStrings + b.h.sizeStrings;
    err := Splice(b, p, 0, |v|);
    if err != 0 {
      return;
    }
    ghost var t := b.buf[..];
    Memcpy(b.buf, p, v);
    PatchAfter(s, t, b.buf[..], p, v);
    StringsGrown(b.h, s, b.buf[..], v);
    b.h := b.h.(sizeStrings := b.h.sizeStrings + |v|);
  }

  /** What lies behind the strings is not part of the tree. */
  lemma PatchAfter(s: seq<byte>, t: seq<byte>, u: seq<byte>, p: int, v: seq<byte>)
    requires 0 <= p && p + |v| <= |s| && |s| == |t|
    requires TailMoved(s, t, p, 0, |v|, p) && Patched(t, u, p, v)
    ensures Same(s, 0, u, 0, p) && HoldsAt(u, p, v) && |u| == |s|
  {
  }
}
