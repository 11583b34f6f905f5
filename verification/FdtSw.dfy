/** fdt_sw.c: writing a tree sequentially, and reading it back. */
module FdtSw {
  import opened Bytes
  import opened FdtFormat
  import opened FdtTree
  import opened FdtBlob
  import opened Fdt
  import opened FdtEdits
  import opened FdtPack

  /** One call of the structure state of the writer. */
  datatype Op = Open(name: seq<byte>) | Close | Attr(name: seq<byte>, val: seq<byte>)

  /** The calls that write a sibling list. */
  function OpsOf(t: Dt): seq<Op> {
    match t
    case DNil => []
    case DProp(name, val, n) => [Attr(name, val)] + OpsOf(n)
    case DNode(name, k, n) => [Open(name)] + OpsOf(k) + [Close] + OpsOf(n)
  }

  function OpSize(op: Op): (r: int)
    ensures r > 0 && r % 4 == 0
  {
    match op
    case Open(name) => HdrSize(name)
    case Close => 4
    case Attr(_, val) => PropSize(val)
  }

  lemma WordsAdd(a: int, b: int)
    requires a % 4 == 0 && b % 4 == 0
    ensures (a + b) % 4 == 0
  {
  }

  function OpsSize(ops: seq<Op>): (r: int)
    ensures r >= 0 && r % 4 == 0
  {
    if ops == [] then 0
    else
      WordsAdd(OpSize(ops[0]), OpsSize(ops[1..]));
      OpSize(ops[0]) + OpsSize(ops[1..])
  }

  /** The bytes one call wrote. A name offset is a 32-bit number that counts,
      plus the bias, from the start of the strings. */
  predicate OpAt(s: seq<byte>, off: int, op: Op, strs: seq<byte>, bias: int) {
    match op
    case Open(name) => NodeHdr(s, off, name)
    case Close => IsTag(s, off, END_NODE)
    case Attr(name, val) =>
      && 0 <= off && off + 12 <= |s|
      && PropHdr(s, off, Word(s, off + 8), val)
      && IsStrAt(strs, (Word(s, off + 8) + bias) % U32_LIMIT, name)
  }

  ghost predicate OpsAt(s: seq<byte>, off: int, ops: seq<Op>, strs: seq<byte>, bias: int)
    decreases |ops|
  {
    true == if ops == [] then 0 <= off <= |s|
    else OpAt(s, off, ops[0], strs, bias) && OpsAt(s, off + OpSize(ops[0]), ops[1..], strs, bias)
  }

  lemma OpAtFits(s: seq<byte>, off: int, op: Op, strs: seq<byte>, bias: int)
    requires OpAt(s, off, op, strs, bias)
    ensures 0 <= off && off + OpSize(op) <= |s|
  {
  }

  lemma {:induction false} OpsAtFits(s: seq<byte>, off: int, ops: seq<Op>, strs: seq<byte>, bias: int)
    requires OpsAt(s, off, ops, strs, bias)
    ensures 0 <= off && off + OpsSize(ops) <= |s|
    decreases |ops|
  {
    hide OpAt, OpSize;
    if ops != [] {
      OpAtFits(s, off, ops[0], strs, bias);
      OpsAtFits(s, off + OpSize(ops[0]), ops[1..], strs, bias);
    }
  }

  lemma OpMoves(s: seq<byte>, a: int, t: seq<byte>, b: int, op: Op, strs: seq<byte>, bias: int)
    requires Same(s, a, t, b, OpSize(op)) && OpAt(s, a, op, strs, bias)
    ensures OpAt(t, b, op, strs, bias)
  {
    hide Word, HdrWords, PropWords, IsStrAt, Same, NodeHdr, PropHdr;
    match op
    case Open(name) => NodeHdrMoves(s, a, t, b, name);
    case Close => IsTagMoves(s, a, t, b, 4, 0, END_NODE);
    case Attr(name, val) =>
      PropHdrMoves(s, a, t, b, Word(s, a + 8), val);
      PropHdrHas(t, b, Word(s, a + 8), val);
  }

  lemma PropHdrHas(t: seq<byte>, b: int, no: int, val: seq<byte>)
    requires PropHdr(t, b, no, val)
    ensures 0 <= b && b + 12 <= |t| && Word(t, b + 8) == no
  {
  }

  lemma {:induction false} OpsMove(s: seq<byte>, a: int, t: seq<byte>, b: int, ops: seq<Op>, strs: seq<byte>, bias: int)
    requires Same(s, a, t, b, OpsSize(ops)) && OpsAt(s, a, ops, strs, bias)
    ensures OpsAt(t, b, ops, strs, bias)
    decreases |ops|
  {
    hide OpAt, OpSize, Same;
    if ops == [] {
      EmptyMoves(s, a, t, b);
    } else {
      var n := OpSize(ops[0]);
      SamePart(s, a, t, b, OpsSize(ops), 0, n);
      OpMoves(s, a, t, b, ops[0], strs, bias);
      SamePart(s, a, t, b, OpsSize(ops), n, OpsSize(ops[1..]));
      OpsMove(s, a + n, t, b + n, ops[1..], strs, bias);
    }
  }

  lemma EmptyMoves(s: seq<byte>, a: int, t: seq<byte>, b: int)
    requires Same(s, a, t, b, 0)
    ensures 0 <= b <= |t|
  {
  }

  lemma {:induction false} OpsSplit(s: seq<byte>, off: int, ops: seq<Op>, more: seq<Op>, strs: seq<byte>, bias: int)
    ensures OpsSize(ops + more) == OpsSize(ops) + OpsSize(more)
    ensures OpsAt(s, off, ops + more, strs, bias) <==>
            OpsAt(s, off, ops, strs, bias) && OpsAt(s, off + OpsSize(ops), more, strs, bias)
    decreases |ops|
  {
    hide OpAt, OpSize;
    if ops == [] {
      assert ops + more == more;
      if OpsAt(s, off, more, strs, bias) {
        OpsAtFits(s, off, more, strs, bias);
      }
    } else {
      assert (ops + more)[0] == ops[0] && (ops + more)[1..] == ops[1..] + more;
      OpsSplit(s, off + OpSize(ops[0]), ops[1..], more, strs, bias);
    }
  }

  lemma OneOp(s: seq<byte>, off: int, op: Op, strs: seq<byte>, bias: int)
    ensures OpsSize([op]) == OpSize(op)
    ensures OpsAt(s, off, [op], strs, bias) <==> OpAt(s, off, op, strs, bias)
  {
    hide OpAt, OpSize;
    assert [op][1..] == [];
    assert OpsSize([]) == 0;
    if OpAt(s, off, op, strs, bias) {
      OpAtFits(s, off, op, strs, bias);
      assert OpsAt(s, off + OpSize(op), [], strs, bias);
    }
  }

  // ---- reading back ---------------------------------------------------------------------

  /** The calls of a tree, finished, are that tree. */
  lemma {:induction false} ReadBack(s: seq<byte>, off: int, t: Dt, strs: seq<byte>) returns (f: Forest)
    requires OpsAt(s, off, OpsOf(t), strs, 0)
    ensures At(s, off, f) && Size(f) == OpsSize(OpsOf(t))
    ensures NamesOk(f, strs) && View(f, strs) == t
    ensures t.DNode? ==> f.Sub?
    ensures t.DNil? ==> f.Nil?
    ensures t.DNode? && t.next.DNil? ==> f.next.Nil?
    decreases t
  {
    hide HdrSize, PropSize, IsStrAt, NodeHdr, PropHdr, IsTag, StrAt, NameOk, NamesOk, OpsAt, OpAt, OpsSize, OpsOf,
      Size, At, View;
    match t
    case DNil =>
      ReadNil(s, off, strs);
      f := Nil;
    case DProp(name, val, n) =>
      SplitAttr(s, off, name, val, n, strs);
      var g := ReadBack(s, off + PropSize(val), n, strs);
      f := ReadProp(s, off, name, val, g, strs);
    case DNode(name, k, n) =>
      SplitNode(s, off, name, k, n, strs);
      var e := off + HdrSize(name) + OpsSize(OpsOf(k));
      var g := ReadBack(s, off + HdrSize(name), k, strs);
      var h := ReadBack(s, e + 4, n, strs);
      f := Sub(name, g, h);
      ReadSub(s, off, name, g, h, strs);
  }

  lemma ReadNil(s: seq<byte>, off: int, strs: seq<byte>)
    requires OpsAt(s, off, OpsOf(DNil), strs, 0)
    ensures At(s, off, Nil) && Size(Nil) == OpsSize(OpsOf(DNil)) && NamesOk(Nil, strs) && View(Nil, strs) == DNil
  {
  }

  lemma SplitAttr(s: seq<byte>, off: int, name: seq<byte>, val: seq<byte>, n: Dt, strs: seq<byte>)
    requires OpsAt(s, off, OpsOf(DProp(name, val, n)), strs, 0)
    ensures OpAt(s, off, Attr(name, val), strs, 0) && OpsAt(s, off + PropSize(val), OpsOf(n), strs, 0)
    ensures OpsSize(OpsOf(DProp(name, val, n))) == PropSize(val) + OpsSize(OpsOf(n))
  {
    hide HdrSize, PropSize, OpsAt, OpAt, OpsSize;
    OneOp(s, off, Attr(name, val), strs, 0);
    OpsSplit(s, off, [Attr(name, val)], OpsOf(n), strs, 0);
  }

  lemma ReadSub(s: seq<byte>, off: int, name: seq<byte>, g: Forest, h: Forest, strs: seq<byte>)
    requires NodeHdr(s, off, name) && At(s, off + HdrSize(name), g)
    requires IsTag(s, off + HdrSize(name) + Size(g), END_NODE) && At(s, off + HdrSize(name) + Size(g) + 4, h)
    requires NamesOk(g, strs) && NamesOk(h, strs)
    ensures At(s, off, Sub(name, g, h)) && Size(Sub(name, g, h)) == HdrSize(name) + Size(g) + 4 + Size(h)
    ensures NamesOk(Sub(name, g, h), strs) && View(Sub(name, g, h), strs) == DNode(name, View(g, strs), View(h, strs))
  {
    hide HdrSize, NodeHdr, IsTag, StrAt, NameOk, At;
    AtSub(s, off, name, g, h);
    SubSize(Sub(name, g, h));
  }

  lemma SplitNode(s: seq<byte>, off: int, name: seq<byte>, k: Dt, n: Dt, strs: seq<byte>)
    requires OpsAt(s, off, OpsOf(DNode(name, k, n)), strs, 0)
    ensures NodeHdr(s, off, name) && OpsAt(s, off + HdrSize(name), OpsOf(k), strs, 0)
    ensures var e := off + HdrSize(name) + OpsSize(OpsOf(k));
            IsTag(s, e, END_NODE) && OpsAt(s, e + 4, OpsOf(n), strs, 0)
    ensures OpsSize(OpsOf(DNode(name, k, n))) == HdrSize(name) + OpsSize(OpsOf(k)) + 4 + OpsSize(OpsOf(n))
  {
    hide HdrWords, PropWords, NodeHdr, PropHdr, IsTag, OpsAt, OpsSize;
    var a, b, c := [Open(name)], OpsOf(k), [Close];
    OneOp(s, off, Open(name), strs, 0);
    OpsSplit(s, off, a, b, strs, 0);
    OpsSplit(s, off, a + b, c, strs, 0);
    OpsSplit(s, off, a + b + c, OpsOf(n), strs, 0);
    OneOp(s, off + HdrSize(name) + OpsSize(b), Close, strs, 0);
  }

  lemma ReadProp(s: seq<byte>, off: int, name: seq<byte>, val: seq<byte>, g: Forest, strs: seq<byte>)
    returns (f: Forest)
    requires OpAt(s, off, Attr(name, val), strs, 0) && At(s, off + PropSize(val), g) && NamesOk(g, strs)
    ensures f.Prop? && At(s, off, f) && Size(f) == PropSize(val) + Size(g)
    ensures NamesOk(f, strs) && View(f, strs) == DProp(name, val, View(g, strs))
  {
    hide HdrSize, PropSize, Size, NodeHdr, PropHdr, IsStrAt, NameOk, NamesOk, View;
    f := Prop(Word(s, off + 8), val, g);
    NameRead(strs, Word(s, off + 8), name, val, g);
    PropParts(Word(s, off + 8), val, g);
  }

  lemma NameRead(strs: seq<byte>, no: int, name: seq<byte>, val: seq<byte>, g: Forest)
    requires IsStrAt(strs, no, name) && NamesOk(g, strs)
    ensures NamesOk(Prop(no, val, g), strs) && View(Prop(no, val, g), strs) == DProp(name, val, View(g, strs))
  {
    hide NulFrom;
    StrAtIs(strs, no, name);
  }

  // ---- the writer ---------------------------------------------------------------------------

  const NO_NAME_DEDUP: u32 := 1
  const BADFLAGS := -18

  /** The strings written so far, at the end of the buffer. */
  function Tail(h: Header, raw: seq<byte>): seq<byte> {
    Region(raw, h.totalsize - h.sizeStrings, h.sizeStrings)
  }

  /** In the structure state, after exactly the calls ops. */
  ghost predicate Writing(b: Blob, ops: seq<Op>)
    reads b, b.buf
  {
    && SwLaid(b.h, b.buf.Length) && b.h.offStrings == b.h.totalsize
    && b.h.sizeStruct == OpsSize(ops)
    && OpsAt(b.buf[..], b.h.offStruct, ops, Tail(b.h, b.buf[..]), b.h.sizeStrings)
  }

  function Free(h: Header): int {
    h.totalsize - h.sizeStrings - h.offStruct - h.sizeStruct
  }

  /** fdt_create_with_flags */
  method CreateWithFlags(b: Blob, bufsize: int, flags: u32) returns (err: int)
    requires 0 <= bufsize <= b.buf.Length && bufsize < INT_LIMIT - 1
    modifies b, b.buf
    ensures err == (if bufsize < SW_HEADER_SIZE then NOSPACE else if flags > 1 then BADFLAGS else 0)
    ensures err == 0 ==>
      b.h == Header(FDT_SW_MAGIC, bufsize, SW_HEADER_SIZE, 0, SW_HEADER_SIZE, 17, flags, 0, 0)
  {
    if bufsize < SW_HEADER_SIZE {
      return NOSPACE;
    }
    if flags > NO_NAME_DEDUP {
      return BADFLAGS;
    }
    forall i | 0 <= i < bufsize {
      b.buf[i] := 0;
    }
    b.h := Header(FDT_SW_MAGIC, bufsize, SW_HEADER_SIZE, 0, SW_HEADER_SIZE, 17, flags, 0, 0);
    return 0;
  }

  /** The reserve-map state: entries written so far end where the structure will
      begin. */
  predicate InRsvMap(h: Header, cap: int) {
    && h.magic == FDT_SW_MAGIC && h.version == 17 && h.offRsv == SW_HEADER_SIZE <= h.offStruct
    && h.offStrings == 0 && h.sizeStrings == 0 && h.sizeStruct == 0
    && h.offStruct <= h.totalsize <= cap && h.totalsize < INT_LIMIT - 1
  }

  /** fdt_add_reservemap_entry */
  method AddReservemapEntry(b: Blob, address: u64, size: u64) returns (err: int)
    requires InRsvMap(b.h, b.buf.Length)
    modifies b, b.buf
    ensures err == if old(b.h).offStruct + RSV_ENTRY > old(b.h).totalsize then NOSPACE else 0
    ensures err != 0 ==> b.h == old(b.h) && b.buf[..] == old(b.buf[..])
    ensures err == 0 ==>
      && b.h == old(b.h).(offStruct := old(b.h).offStruct + RSV_ENTRY)
      && InRsvMap(b.h, b.buf.Length) && b.Rsv() == old(b.Rsv()) + RsvEntry(Reserve(address, size))
  {
    hide RsvEntry;
    var entry := RsvEntry(Reserve(address, size));
    var offset := b.h.offStruct;
    if offset + RSV_ENTRY > b.h.totalsize {
      return NOSPACE;
    }
    ghost var s, h := b.buf[..], b.h;
    Memcpy(b.buf, offset, entry);
    EntryAdded(s, b.buf[..], h.offRsv, offset, entry);
    b.h := b.h.(offStruct := offset + RSV_ENTRY);
    return 0;
  }

  lemma EntryAdded(s: seq<byte>, t: seq<byte>, a: int, p: int, v: seq<byte>)
    requires Patched(s, t, p, v) && 0 <= a <= p
    ensures Region(t, a, p + |v| - a) == Region(s, a, p - a) + v
  {
    var x, y := Region(t, a, p + |v| - a), Region(s, a, p - a) + v;
    forall j | 0 <= j < |x| ensures x[j] == y[j] {
      if j < p - a {
        assert s[a + j] == t[a + j - 0 + 0];
      } else {
        assert t[a + j] == v[a + j - p];
      }
    }
  }

  /** fdt_finish_reservemap */
  method FinishReservemap(b: Blob) returns (err: int)
    requires InRsvMap(b.h, b.buf.Length)
    modifies b, b.buf
    ensures err == if old(b.h).offStruct + RSV_ENTRY > old(b.h).totalsize then NOSPACE else 0
    ensures err != 0 ==> b.h == old(b.h) && b.buf[..] == old(b.buf[..])
    ensures err == 0 ==>
      && Writing(b, []) && b.h.lastComp == old(b.h).lastComp && b.h.totalsize == old(b.h).totalsize
      && b.h.offStruct == old(b.h).offStruct + RSV_ENTRY && b.h.sizeStrings == 0
      && b.Rsv() == old(b.Rsv()) + RsvEntry(Reserve(0, 0))
  {
    hide RsvEntry;
    err := AddReservemapEntry(b, 0, 0);
    if err != 0 {
      return;
    }
    b.h := b.h.(offStrings := b.h.totalsize);
  }

  /** fdt_grab_space_: the offset of len fresh bytes, or -1. */
  method GrabSpace(b: Blob, len: int) returns (p: int)
    requires SwLaid(b.h, b.buf.Length) && 0 <= len < U32_LIMIT
    modifies b
    ensures p < 0 <==> len > Free(old(b.h))
    ensures p < 0 ==> b.h == old(b.h)
    ensures p >= 0 ==>
      && p == old(b.h).offStruct + old(b.h).sizeStruct
      && b.h == old(b.h).(sizeStruct := old(b.h).sizeStruct + len)
  {
    var offset := b.h.sizeStruct;
    var spaceleft := b.h.totalsize - b.h.offStruct - b.h.sizeStrings;
    if offset + len < offset || offset + len > spaceleft {
      return -1;
    }
    b.h := b.h.(sizeStruct := offset + len);
    return b.h.offStruct + offset;
  }

  lemma TailKept(h: Header, s: seq<byte>, t: seq<byte>, p: int, n: int)
    requires SwLaid(h, |s|) && Spliced(s, t, p, n, n) && 0 <= n && p + n <= h.totalsize - h.sizeStrings
    ensures Tail(h, t) == Tail(h, s)
  {
    var q := h.totalsize - h.sizeStrings;
    SamePart(s, p + n, t, p + n, |s| - p - n, q - p - n, h.sizeStrings);
    RegionSame(s, q, t, q, h.sizeStrings);
  }

  lemma RsvKept(h: Header, s: seq<byte>, t: seq<byte>, p: int, n: int)
    requires SwLaid(h, |s|) && Spliced(s, t, p, n, n) && h.offStruct <= p
    ensures Region(t, h.offRsv, h.offStruct - h.offRsv) == Region(s, h.offRsv, h.offStruct - h.offRsv)
  {
    SamePart(s, 0, t, 0, p, h.offRsv, h.offStruct - h.offRsv);
    RegionSame(s, h.offRsv, t, h.offRsv, h.offStruct - h.offRsv);
  }

  /** One more call written behind the others. */
  lemma Extended(h: Header, s: seq<byte>, t: seq<byte>, ops: seq<Op>, op: Op)
    requires SwLaid(h, |s|) && h.sizeStruct == OpsSize(ops)
    requires OpsAt(s, h.offStruct, ops, Tail(h, s), h.sizeStrings)
    requires Spliced(s, t, h.offStruct + h.sizeStruct, OpSize(op), OpSize(op))
    requires OpSize(op) <= Free(h)
    requires OpAt(t, h.offStruct + h.sizeStruct, op, Tail(h, s), h.sizeStrings)
    ensures OpsAt(t, h.offStruct, ops + [op], Tail(h, t), h.sizeStrings)
    ensures OpsSize(ops + [op]) == h.sizeStruct + OpSize(op) && Tail(h, t) == Tail(h, s)
    ensures Region(t, h.offRsv, h.offStruct - h.offRsv) == Region(s, h.offRsv, h.offStruct - h.offRsv)
  {
    hide OpAt, OpSize, OpsAt, OpsSize, Spliced, Region;
    var p := h.offStruct + h.sizeStruct;
    TailKept(h, s, t, p, OpSize(op));
    RsvKept(h, s, t, p, OpSize(op));
    PrefixSame(s, t, p, OpSize(op), h.offStruct, h.sizeStruct);
    OpsMove(s, h.offStruct, t, h.offStruct, ops, Tail(h, s), h.sizeStrings);
    OneOp(t, p, op, Tail(h, s), h.sizeStrings);
    OpsSplit(t, h.offStruct, ops, [op], Tail(h, s), h.sizeStrings);
  }

  lemma PrefixSame(s: seq<byte>, t: seq<byte>, p: int, n: int, a: int, m: int)
    requires Spliced(s, t, p, n, n) && 0 <= a && 0 <= m && a + m <= p
    ensures Same(s, a, t, a, m)
  {
    SamePart(s, 0, t, 0, p, a, m);
  }

  /** fdt_begin_node */
  method BeginNode(b: Blob, name: seq<byte>, ghost ops: seq<Op>) returns (err: int)
    requires Writing(b, ops) && 0 !in name && |name| < INT_LIMIT - 16
    modifies b, b.buf
    ensures err == if HdrSize(name) > Free(old(b.h)) then NOSPACE else 0
    ensures err != 0 ==> b.h == old(b.h) && b.buf[..] == old(b.buf[..])
    ensures err == 0 ==> Writing(b, ops + [Open(name)]) && b.Rsv() == old(b.Rsv())
    ensures Tail(b.h, b.buf[..]) == old(Tail(b.h, b.buf[..]))
    ensures err == 0 ==> b.h == old(b.h).(sizeStruct := b.h.sizeStruct)
  {
    hide OpAt, OpsAt, OpsSize, Spliced, Region, Patched, Be32, HdrWords, NodeHdr, HoldsAt;
    ghost var s, h := b.buf[..], b.h;
    HdrBound(name);
    var p := GrabSpace(b, HdrSize(name));
    if p < 0 {
      return NOSPACE;
    }
    UnchangedSpliced(s, p, HdrSize(name));
    Memcpy(b.buf, p, Be32(BEGIN_NODE));
    ghost var t := b.buf[..];
    Memcpy(b.buf, p + 4, name + [0]);
    BeginWritten(s, t, b.buf[..], p, name);
    OpenAt(b.buf[..], p, name, Tail(h, s), h.sizeStrings);
    Extended(h, s, b.buf[..], ops, Open(name));
    err := 0;
  }

  lemma HdrBound(name: seq<byte>)
    ensures HdrSize(name) <= |name| + 8
  {
  }

  lemma BeginWritten(s: seq<byte>, t: seq<byte>, u: seq<byte>, p: int, name: seq<byte>)
    requires Patched(s, t, p, Be32(BEGIN_NODE)) && Patched(t, u, p + 4, name + [0])
    requires p + HdrSize(name) <= |s| && 0 !in name && 0 <= p
    ensures Spliced(s, u, p, HdrSize(name), HdrSize(name)) && NodeHdr(u, p, name)
  {
    hide Spliced, Patched, Be32, HdrWords, NodeHdr, HoldsAt;
    var n := HdrSize(name);
    UnchangedSpliced(s, p, n);
    SplicedPatched(s, s, t, p, n, n, p, Be32(BEGIN_NODE));
    SplicedPatched(s, t, u, p, n, n, p + 4, name + [0]);
    PatchedSizes(s, t, p, Be32(BEGIN_NODE));
    PatchedSizes(t, u, p + 4, name + [0]);
    PatchedHeld(t, u, p + 4, name + [0], p, Be32(BEGIN_NODE));
    assert name == (name + [0])[0..|name|] && [0] == (name + [0])[|name|..|name| + 1];
    PatchedSmaller(t, u, 0, name, p + 4, name + [0]);
    PatchedSmaller(t, u, |name|, [0], p + 4, name + [0]);
    NamedNode(u, p, name);
  }

  lemma OpenAt(s: seq<byte>, p: int, name: seq<byte>, strs: seq<byte>, bias: int)
    requires NodeHdr(s, p, name)
    ensures OpAt(s, p, Open(name), strs, bias)
  {
  }

  /** fdt_end_node */
  method EndNode(b: Blob, ghost ops: seq<Op>) returns (err: int)
    requires Writing(b, ops)
    modifies b, b.buf
    ensures err == if 4 > Free(old(b.h)) then NOSPACE else 0
    ensures err != 0 ==> b.h == old(b.h) && b.buf[..] == old(b.buf[..])
    ensures err == 0 ==> Writing(b, ops + [Close]) && b.Rsv() == old(b.Rsv())
    ensures Tail(b.h, b.buf[..]) == old(Tail(b.h, b.buf[..]))
    ensures err == 0 ==> b.h == old(b.h).(sizeStruct := b.h.sizeStruct)
  {
    hide OpAt, OpsAt, OpsSize, Spliced, Region, Patched, Be32, HoldsAt;
    ghost var s, h := b.buf[..], b.h;
    var p := GrabSpace(b, 4);
    if p < 0 {
      return NOSPACE;
    }
    Memcpy(b.buf, p, Be32(END_NODE));
    UnchangedSpliced(s, p, 4);
    SplicedPatched(s, s, b.buf[..], p, 4, 4, p, Be32(END_NODE));
    CloseAt(s, b.buf[..], p, Tail(h, s), h.sizeStrings);
    Extended(h, s, b.buf[..], ops, Close);
    err := 0;
  }

  lemma CloseAt(s: seq<byte>, t: seq<byte>, p: int, strs: seq<byte>, bias: int)
    requires Patched(s, t, p, Be32(END_NODE))
    ensures OpAt(t, p, Close, strs, bias)
  {
    PatchedSizes(s, t, p, Be32(END_NODE));
    HeldTag(t, p, END_NODE);
  }

  // ---- names --------------------------------------------------------------------------------

  /** The comparison of fdt_add_string_ is unsigned. It reports a lack of room
      exactly when there is none, as long as the name and the strings already
      stored do not exceed the whole buffer; beyond that it never does. */
  lemma StringRoomIff(h: Header, cap: int, len: int)
    requires SwLaid(h, cap) && 0 <= len < INT_LIMIT
    ensures ((h.totalsize - h.sizeStrings - len) % U32_LIMIT < h.offStruct + h.sizeStruct <==> len > Free(h))
            <==> h.sizeStrings + len <= h.totalsize
  {
    var x := h.totalsize - h.sizeStrings - len;
    if x < 0 {
      assert x % U32_LIMIT == x + U32_LIMIT;
    } else {
      assert x % U32_LIMIT == x;
    }
  }

  /** fdt_add_string_: minus the distance of the new string from the end of the
      buffer, or 0 when there is no room. */
  method AddString(b: Blob, name: seq<byte>) returns (r: int)
    requires SwLaid(b.h, b.buf.Length) && b.h.sizeStrings + |name| + 1 <= b.h.totalsize
    modifies b, b.buf
    ensures r == if |name| + 1 > Free(old(b.h)) then 0 else 0 - old(b.h).sizeStrings - |name| - 1
    ensures r == 0 ==> b.h == old(b.h) && b.buf[..] == old(b.buf[..])
    ensures r != 0 ==>
      && b.h == old(b.h).(sizeStrings := -r)
      && Patched(old(b.buf[..]), b.buf[..], b.h.totalsize + r, name + [0])
  {
    hide Patched;
    var len := |name| + 1;
    var offset := 0 - b.h.sizeStrings - len;
    var structTop := b.h.offStruct + b.h.sizeStruct;
    StringRoomIff(b.h, b.buf.Length, len);
    if (b.h.totalsize + offset) % U32_LIMIT < structTop {
      return 0;
    }
    Memcpy(b.buf, b.h.totalsize + offset, name + [0]);
    b.h := b.h.(sizeStrings := b.h.sizeStrings + len);
    return offset;
  }

  /** fdt_del_last_string_ */
  method DelLastString(b: Blob, name: seq<byte>)
    requires |name| + 1 <= b.h.sizeStrings
    modifies b
    ensures b.h == old(b.h).(sizeStrings := old(b.h).sizeStrings - |name| - 1)
  {
    b.h := b.h.(sizeStrings := b.h.sizeStrings - (|name| + 1));
  }

  lemma PrefixedString(x: seq<byte>, strs: seq<byte>, i: int, name: seq<byte>)
    requires IsStrAt(strs, i, name)
    ensures IsStrAt(x + strs, |x| + i, name)
  {
    forall j | |x| + i <= j < |x| + i + |name| ensures (x + strs)[j] == name[j - (|x| + i)] {
      assert strs[j - |x|] == name[j - |x| - i];
    }
  }

  /** Strings are added in front of the others: a name offset, counted from the
      end of the buffer, keeps naming the same string. */
  lemma {:induction false} OpsPrepend(s: seq<byte>, off: int, ops: seq<Op>, x: seq<byte>, strs: seq<byte>, bias: int)
    requires OpsAt(s, off, ops, strs, bias) && |x| + |strs| < U32_LIMIT
    ensures OpsAt(s, off, ops, x + strs, bias + |x|)
    decreases |ops|
  {
    hide OpAt, OpSize;
    if ops != [] {
      OpPrepend(s, off, ops[0], x, strs, bias);
      OpsPrepend(s, off + OpSize(ops[0]), ops[1..], x, strs, bias);
    }
  }

  lemma OpPrepend(s: seq<byte>, off: int, op: Op, x: seq<byte>, strs: seq<byte>, bias: int)
    requires OpAt(s, off, op, strs, bias) && |x| + |strs| < U32_LIMIT
    ensures OpAt(s, off, op, x + strs, bias + |x|)
  {
    hide Word, HdrWords, PropWords, IsStrAt, NodeHdr, PropHdr;
    if op.Attr? {
      var i := (Word(s, off + 8) + bias) % U32_LIMIT;
      StrFits(strs, i, op.name);
      ShiftMod(Word(s, off + 8) + bias, |x|);
      PrefixedString(x, strs, i, op.name);
    }
  }

  lemma StrFits(strs: seq<byte>, i: int, name: seq<byte>)
    requires IsStrAt(strs, i, name)
    ensures 0 <= i && i + |name| < |strs|
  {
  }

  lemma ShiftMod(a: int, n: int)
    requires n >= 0 && a % U32_LIMIT + n < U32_LIMIT
    ensures (a + n) % U32_LIMIT == a % U32_LIMIT + n
  {
    var q := a / U32_LIMIT;
    assert a + n == U32_LIMIT * q + (a % U32_LIMIT + n);
  }

  lemma NameAdded(h: Header, s: seq<byte>, t: seq<byte>, ops: seq<Op>, name: seq<byte>)
    requires SwLaid(h, |s|) && h.sizeStruct == OpsSize(ops) && |name| + 1 <= Free(h) && 0 !in name
    requires OpsAt(s, h.offStruct, ops, Tail(h, s), h.sizeStrings)
    requires Patched(s, t, h.totalsize - h.sizeStrings - |name| - 1, name + [0])
    ensures var g := h.(sizeStrings := h.sizeStrings + |name| + 1);
            && SwLaid(g, |t|) && IsStrAt(Tail(g, t), 0, name) && Tail(g, t) == name + [0] + Tail(h, s)
            && OpsAt(t, g.offStruct, ops, Tail(g, t), g.sizeStrings)
            && OpsAt(t, h.offStruct, ops, Tail(h, t), h.sizeStrings)
            && Region(t, h.offRsv, h.offStruct - h.offRsv) == Region(s, h.offRsv, h.offStruct - h.offRsv)
  {
    hide OpAt, OpSize, OpsAt, OpsSize, Same, Region, HoldsAt, IsStrAt;
    var g := h.(sizeStrings := h.sizeStrings + |name| + 1);
    var p := h.totalsize - h.sizeStrings - |name| - 1;
    SamePart(s, 0, t, 0, p, h.offStruct, h.sizeStruct);
    OpsMove(s, h.offStruct, t, h.offStruct, ops, Tail(h, s), h.sizeStrings);
    SamePart(s, 0, t, 0, p, h.offRsv, h.offStruct - h.offRsv);
    RegionSame(s, h.offRsv, t, h.offRsv, h.offStruct - h.offRsv);
    LongerTail(h, s, t, name);
    OpsPrepend(t, h.offStruct, ops, name + [0], Tail(h, s), h.sizeStrings);
  }

  lemma LongerTail(h: Header, s: seq<byte>, t: seq<byte>, name: seq<byte>)
    requires SwLaid(h, |s|) && |name| + 1 <= Free(h) && 0 !in name
    requires Patched(s, t, h.totalsize - h.sizeStrings - |name| - 1, name + [0])
    ensures var g := h.(sizeStrings := h.sizeStrings + |name| + 1);
            && Tail(h, t) == Tail(h, s) && Tail(g, t) == (name + [0]) + Tail(h, s)
            && IsStrAt(Tail(g, t), 0, name)
    ensures |Tail(h, s)| == h.sizeStrings
  {
    var g := h.(sizeStrings := h.sizeStrings + |name| + 1);
    var p, x := h.totalsize - h.sizeStrings - |name| - 1, name + [0];
    var y, z := Tail(g, t), x + Tail(h, s);
    RegionSame(s, p + |x|, t, p + |x|, h.sizeStrings);
    forall j | 0 <= j < |y| ensures y[j] == z[j] {
      if j < |x| {
        assert t[p + j] == x[p + j - p];
      } else {
        assert s[p + j] == t[p + j - (p + |x|) + (p + |x|)];
      }
    }
  }

  /** The name is among the strings. */
  ghost predicate Among(strs: seq<byte>, name: seq<byte>) {
    exists i :: 0 <= i && IsStrAt(strs, i, name)
  }

  ghost predicate Known(h: Header, raw: seq<byte>, name: seq<byte>) {
    Among(Tail(h, raw), name)
  }

  /** The strings once they hold the name. */
  ghost function Stored(strs: seq<byte>, name: seq<byte>, share: bool): seq<byte> {
    if share && Among(strs, name) then strs else name + [0] + strs
  }

  predicate Dedup(h: Header) {
    h.lastComp % 2 == 0
  }

  /** fdt_find_add_string_ */
  method FindAddString(b: Blob, name: seq<byte>, ghost ops: seq<Op>) returns (r: int, added: bool)
    requires Writing(b, ops) && 0 !in name
    requires Known(b.h, b.buf[..], name) || b.h.sizeStrings + |name| + 1 <= b.h.totalsize
    modifies b, b.buf
    ensures added <==> !Known(old(b.h), old(b.buf[..]), name)
    ensures r == 0 <==> added && |name| + 1 > Free(old(b.h))
    ensures !added || r == 0 ==> b.h == old(b.h) && b.buf[..] == old(b.buf[..])
    ensures r != 0 && !added ==> r < 0 && IsStrAt(Tail(b.h, b.buf[..]), r + b.h.sizeStrings, name)
    ensures r != 0 && added ==>
      && r == 0 - old(b.h).sizeStrings - |name| - 1 && b.h == old(b.h).(sizeStrings := -r)
      && Patched(old(b.buf[..]), b.buf[..], b.h.totalsize + r, name + [0])
  {
    hide OpsAt, OpsSize, Patched, IsStrAt;
    var strs := Tail(b.h, b.buf[..]);
    var p := FindString(strs, name);
    if p >= 0 {
      StrFits(strs, p, name);
      return p - b.h.sizeStrings, false;
    }
    r := AddString(b, name);
    added := true;
  }

  /** Bytes a property takes in the strings: none if its name may be shared. */
  ghost function NameRoom(h: Header, raw: seq<byte>, name: seq<byte>): int {
    if Dedup(h) && Known(h, raw, name) then 0 else |name| + 1
  }

  /** The offset of the name, by the rule the flags ask for. */
  method NameOffset(b: Blob, name: seq<byte>, ghost ops: seq<Op>) returns (r: int, added: bool)
    requires Writing(b, ops) && 0 !in name && b.h.sizeStrings + NameRoom(b.h, b.buf[..], name) <= b.h.totalsize
    modifies b, b.buf
    ensures added <==> !(Dedup(old(b.h)) && Known(old(b.h), old(b.buf[..]), name))
    ensures r == 0 <==> added && |name| + 1 > Free(old(b.h))
    ensures r == 0 ==> b.h == old(b.h)
    ensures Writing(b, ops) && b.Rsv() == old(b.Rsv())
    ensures r != 0 ==>
      && b.h == old(b.h).(sizeStrings := if added then old(b.h).sizeStrings + |name| + 1 else old(b.h).sizeStrings)
      && r < 0 && IsStrAt(Tail(b.h, b.buf[..]), r + b.h.sizeStrings, name)
    ensures r != 0 ==> Tail(b.h, b.buf[..]) == Stored(old(Tail(b.h, b.buf[..])), name, Dedup(b.h))
    ensures r != 0 && added ==> OpsAt(b.buf[..], b.h.offStruct, ops, Tail(old(b.h), b.buf[..]), old(b.h).sizeStrings)
  {
    hide OpsAt, OpsSize, Patched, IsStrAt, Region, Tail, Among;
    ghost var s, h := b.buf[..], b.h;
    if !Dedup(b.h) {
      added := true;
      r := AddString(b, name);
    } else {
      r, added := FindAddString(b, name, ops);
    }
    if r != 0 && added {
      NameAdded(h, s, b.buf[..], ops, name);
    }
  }

  // ---- properties -----------------------------------------------------------------------------

  /** The space is taken and struct fdt_property is written at p. */
  ghost predicate HasHeader(b: Blob, ops: seq<Op>, p: int, name: seq<byte>, len: int)
    reads b, b.buf
  {
    && SwLaid(b.h, b.buf.Length) && b.h.offStrings == b.h.totalsize && 0 <= len < INT_LIMIT
    && p == b.h.offStruct + OpsSize(ops) && b.h.sizeStruct == OpsSize(ops) + 12 + Align4(len)
    && OpsAt(b.buf[..], b.h.offStruct, ops, Tail(b.h, b.buf[..]), b.h.sizeStrings)
    && exists no: u32 ::
         && HoldsAt(b.buf[..], p, PropStruct(len, no))
         && IsStrAt(Tail(b.h, b.buf[..]), (no + b.h.sizeStrings) % U32_LIMIT, name)
  }

  ghost function PropRoom(h: Header, raw: seq<byte>, name: seq<byte>, len: int): int {
    12 + Align4(len) + NameRoom(h, raw, name)
  }

  /** fdt_property_placeholder */
  method PropertyPlaceholder(b: Blob, name: seq<byte>, len: int, ghost ops: seq<Op>) returns (err: int, p: int)
    requires Writing(b, ops) && 0 !in name && b.h.sizeStrings + NameRoom(b.h, b.buf[..], name) <= b.h.totalsize
    requires 0 <= len < INT_LIMIT - 32
    modifies b, b.buf
    ensures err == if PropRoom(old(b.h), old(b.buf[..]), name, len) > Free(old(b.h)) then NOSPACE else 0
    ensures err != 0 ==> b.h == old(b.h) && Writing(b, ops)
    ensures b.Rsv() == old(b.Rsv())
    ensures err == 0 ==> HasHeader(b, ops, p, name, len)
    ensures err == 0 ==> b.h == old(b.h).(sizeStruct := b.h.sizeStruct, sizeStrings := b.h.sizeStrings)
    ensures err == 0 ==> b.h.sizeStrings == old(b.h).sizeStrings + NameRoom(old(b.h), old(b.buf[..]), name)
    ensures err == 0 ==> Tail(b.h, b.buf[..]) == Stored(old(Tail(b.h, b.buf[..])), name, Dedup(b.h))
  {
    hide OpsAt, OpsSize, Patched, IsStrAt, Region, Known, HoldsAt, PropStruct;
    ghost var h := b.h;
    var nameoff, added := NameOffset(b, name, ops);
    if nameoff == 0 {
      return NOSPACE, 0;
    }
    ghost var s, g := b.buf[..], b.h;
    p := GrabSpace(b, 12 + Align4(len));
    if p < 0 {
      if added {
        DelLastString(b, name);
      }
      return NOSPACE, 0;
    }
    err := 0;
    var no: u32 := nameoff % U32_LIMIT;
    Memcpy(b.buf, p, PropStruct(len, no));
    HeaderWritten(g, s, b.buf[..], ops, p, len, no, name, nameoff);
  }

  lemma HeaderWritten(h: Header, s: seq<byte>, t: seq<byte>, ops: seq<Op>, p: int, len: int, no: u32,
                      name: seq<byte>, nameoff: int)
    requires SwLaid(h, |s|) && h.sizeStruct == OpsSize(ops) && p == h.offStruct + h.sizeStruct
    requires OpsAt(s, h.offStruct, ops, Tail(h, s), h.sizeStrings)
    requires 0 <= len < INT_LIMIT && Patched(s, t, p, PropStruct(len, no)) && 12 + Align4(len) <= Free(h)
    requires no == nameoff % U32_LIMIT && IsStrAt(Tail(h, s), nameoff + h.sizeStrings, name)
    ensures OpsAt(t, h.offStruct, ops, Tail(h, t), h.sizeStrings)
    ensures HoldsAt(t, p, PropStruct(len, no))
    ensures IsStrAt(Tail(h, t), (no + h.sizeStrings) % U32_LIMIT, name) && Tail(h, t) == Tail(h, s)
    ensures Region(t, h.offRsv, h.offStruct - h.offRsv) == Region(s, h.offRsv, h.offStruct - h.offRsv)
  {
    hide OpsAt, OpsSize, Patched, IsStrAt, HoldsAt, PropStruct, Region, Spliced;
    var v := PropStruct(len, no);
    PatchedSizes(s, t, p, v);
    PatchedSplice(s, t, p, v, p, 12);
    TailKept(h, s, t, p, 12);
    RsvKept(h, s, t, p, 12);
    PrefixSame(s, t, p, 12, h.offStruct, h.sizeStruct);
    OpsMove(s, h.offStruct, t, h.offStruct, ops, Tail(h, s), h.sizeStrings);
    StrFits(Tail(h, s), nameoff + h.sizeStrings, name);
    TailSize(h, s);
    BackToIndex(nameoff, h.sizeStrings);
  }

  lemma TailSize(h: Header, s: seq<byte>)
    requires SwLaid(h, |s|)
    ensures |Tail(h, s)| == h.sizeStrings
  {
  }

  lemma BackToIndex(a: int, n: int)
    requires 0 <= a + n < U32_LIMIT
    ensures (a % U32_LIMIT + n) % U32_LIMIT == a + n
  {
    var q := a / U32_LIMIT;
    assert a % U32_LIMIT + n == a + n - U32_LIMIT * q;
  }

  /** fdt_property. On a lack of space the string that was added for it is
      withdrawn, and everything written before is still there. */
  method Property(b: Blob, name: seq<byte>, val: seq<byte>, ghost ops: seq<Op>) returns (err: int)
    requires Writing(b, ops) && 0 !in name && b.h.sizeStrings + NameRoom(b.h, b.buf[..], name) <= b.h.totalsize
    requires |val| < INT_LIMIT - 32
    modifies b, b.buf
    ensures err == if PropRoom(old(b.h), old(b.buf[..]), name, |val|) > Free(old(b.h)) then NOSPACE else 0
    ensures err != 0 ==> b.h == old(b.h) && Writing(b, ops)
    ensures err == 0 ==> Writing(b, ops + [Attr(name, val)])
    ensures err == 0 ==> b.h == old(b.h).(sizeStruct := b.h.sizeStruct, sizeStrings := b.h.sizeStrings)
    ensures err == 0 ==> b.h.sizeStrings == old(b.h).sizeStrings + NameRoom(old(b.h), old(b.buf[..]), name)
    ensures err == 0 ==> Tail(b.h, b.buf[..]) == Stored(old(Tail(b.h, b.buf[..])), name, Dedup(b.h))
    ensures b.Rsv() == old(b.Rsv())
  {
    hide OpAt, OpsAt, OpsSize, Patched, IsStrAt, Region, Tail, Known, HoldsAt, PropStruct;
    var p;
    err, p := PropertyPlaceholder(b, name, |val|, ops);
    if err != 0 {
      return;
    }
    ghost var s := b.buf[..];
    ghost var no: u32 :|
      HoldsAt(s, p, PropStruct(|val|, no)) && IsStrAt(Tail(b.h, s), (no + b.h.sizeStrings) % U32_LIMIT, name);
    Memcpy(b.buf, p + 12, val);
    AttrWritten(b.h, s, b.buf[..], ops, p, no, name, val);
  }

  lemma AttrWritten(h: Header, s: seq<byte>, t: seq<byte>, ops: seq<Op>, p: int, no: u32, name: seq<byte>,
                    val: seq<byte>)
    requires SwLaid(h, |s|) && h.sizeStruct == OpsSize(ops) + 12 + Align4(|val|) && |val| < INT_LIMIT
    requires p == h.offStruct + OpsSize(ops)
    requires OpsAt(s, h.offStruct, ops, Tail(h, s), h.sizeStrings)
    requires HoldsAt(s, p, PropStruct(|val|, no)) && Patched(s, t, p + 12, val)
    requires IsStrAt(Tail(h, s), (no + h.sizeStrings) % U32_LIMIT, name)
    ensures OpsAt(t, h.offStruct, ops + [Attr(name, val)], Tail(h, t), h.sizeStrings)
    ensures OpsSize(ops + [Attr(name, val)]) == h.sizeStruct && Tail(h, t) == Tail(h, s)
    ensures Region(t, h.offRsv, h.offStruct - h.offRsv) == Region(s, h.offRsv, h.offStruct - h.offRsv)
  {
    hide OpAt, OpsAt, OpsSize, Patched, IsStrAt, HoldsAt, PropStruct, Region, Spliced, PropWords;
    var g := h.(sizeStruct := OpsSize(ops));
    PropSizes(val);
    PatchedSizes(s, t, p + 12, val);
    PatchedSplice(s, t, p + 12, val, p, PropSize(val));
    AttrAt(s, t, p, no, name, val, Tail(h, s), h.sizeStrings);
    Extended(g, s, t, ops, Attr(name, val));
  }

  lemma AttrAt(s: seq<byte>, t: seq<byte>, p: int, no: u32, name: seq<byte>, val: seq<byte>, strs: seq<byte>, bias: int)
    requires |val| < INT_LIMIT && HoldsAt(s, p, PropStruct(|val|, no)) && Patched(s, t, p + 12, val)
    requires p + PropSize(val) <= |s| && IsStrAt(strs, (no + bias) % U32_LIMIT, name)
    ensures OpAt(t, p, Attr(name, val), strs, bias)
  {
    hide Patched, IsStrAt, HoldsAt, PropStruct, PropWords, Word;
    PatchedSizes(s, t, p + 12, val);
    HeldIn(s, p, PropStruct(|val|, no));
    PatchedHeld(s, t, p + 12, val, p, PropStruct(|val|, no));
    PropStructWords(t, p, |val|, no);
  }

  lemma HeldIn(s: seq<byte>, p: int, v: seq<byte>)
    requires HoldsAt(s, p, v)
    ensures 0 <= p && p + |v| <= |s|
  {
  }
}
