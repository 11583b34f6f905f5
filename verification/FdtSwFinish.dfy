/** fdt_finish, the round trip through the sequential writer, and
    fdt_create_empty_tree. */
module FdtSwFinish {
  import opened Bytes
  import opened FdtFormat
  import opened FdtTree
  import opened FdtBlob
  import opened Fdt
  import opened FdtEdits
  import opened FdtPack
  import opened FdtSw

  function TagOf(op: Op): int {
    match op
    case Open(_) => BEGIN_NODE
    case Close => END_NODE
    case Attr(_, _) => PROP
  }

  lemma NextOp(s: seq<byte>, off: int, op: Op, strs: seq<byte>, bias: int)
    requires OpAt(s, off, op, strs, bias) && off % 4 == 0 && |s| < INT_LIMIT
    ensures off >= 0 && TagAt(s, off) == Step(TagOf(op), off + OpSize(op)) && off + OpSize(op) <= |s|
    ensures op.Attr? ==> off + 12 <= |s|
  {
    hide HdrWords, PropWords, IsStrAt, NodeHdr, PropHdr, TagAt;
    OpAtFits(s, off, op, strs, bias);
    match op
    case Open(name) => TagAtNode(s, off, name);
    case Close => TagAtClose(s, off);
    case Attr(_, val) => TagAtProp(s, off, Word(s, off + 8), val);
  }

  lemma TagAtClose(s: seq<byte>, off: int)
    requires IsTag(s, off, END_NODE) && off % 4 == 0
    ensures TagAt(s, off) == Step(END_NODE, off + 4)
  {
  }

  lemma TagAtEnd(s: seq<byte>, off: int)
    requires IsTag(s, off, END) && off % 4 == 0
    ensures TagAt(s, off) == Step(END, off + 4)
  {
  }

  /** Only property names depend on the strings. */
  lemma NoName(s: seq<byte>, off: int, op: Op, strs: seq<byte>, bias: int)
    requires OpAt(s, off, op, strs, bias) && !op.Attr?
    ensures OpAt(s, off, op, strs, 0)
  {
  }

  lemma AttrParts(s: seq<byte>, off: int, name: seq<byte>, val: seq<byte>, strs: seq<byte>, bias: int)
    requires OpAt(s, off, Attr(name, val), strs, bias)
    ensures 0 <= off && off + PropSize(val) <= |s| && Word(s, off) == PROP && Word(s, off + 4) == |val|
    ensures HoldsAt(s, off + 12, val) && IsStrAt(strs, (Word(s, off + 8) + bias) % U32_LIMIT, name)
  {
  }

  lemma AttrMade(s: seq<byte>, off: int, name: seq<byte>, val: seq<byte>, strs: seq<byte>)
    requires 0 <= off && off + PropSize(val) <= |s| && Word(s, off) == PROP && Word(s, off + 4) == |val|
    requires HoldsAt(s, off + 12, val) && IsStrAt(strs, Word(s, off + 8), name)
    ensures OpAt(s, off, Attr(name, val), strs, 0)
  {
  }

  /** The name offset of one property counted from the end of the buffer becomes
      one counted from the start of the strings. */
  lemma NameCorrected(s: seq<byte>, t: seq<byte>, off: int, name: seq<byte>, val: seq<byte>, strs: seq<byte>, bias: int)
    requires OpAt(s, off, Attr(name, val), strs, bias) && off + 12 <= |s|
    requires Patched(s, t, off + 8, Be32((Word(s, off + 8) + bias) % U32_LIMIT))
    ensures OpAt(t, off, Attr(name, val), strs, 0)
  {
    hide Patched, Be32, IsStrAt, HoldsAt, Word, PropWords;
    var no := (Word(s, off + 8) + bias) % U32_LIMIT;
    AttrParts(s, off, name, val, strs, bias);
    PatchedWord(s, t, off + 8, Be32(no), off);
    PatchedWord(s, t, off + 8, Be32(no), off + 4);
    PatchedHeld(s, t, off + 8, Be32(no), off + 12, val);
    PatchedSizes(s, t, off + 8, Be32(no));
    HeldTag(t, off + 8, no);
    AttrMade(t, off, name, val, strs);
  }

  /** How far the correction has come: the names of done are relocated, those of
      rest are not yet. */
  ghost predicate Halfway(s: seq<byte>, done: seq<Op>, rest: seq<Op>, strs: seq<byte>) {
    && OpsAt(s, 0, done, strs, 0)
    && OpsAt(s, OpsSize(done), rest, strs, |strs|)
    && IsTag(s, OpsSize(done) + OpsSize(rest), END)
    && |s| == OpsSize(done) + OpsSize(rest) + 4
    && |s| < INT_LIMIT && |strs| < INT_LIMIT
  }

  lemma HalfwayTag(s: seq<byte>, done: seq<Op>, rest: seq<Op>, strs: seq<byte>)
    requires Halfway(s, done, rest, strs)
    ensures var off := OpsSize(done);
            if rest == [] then TagAt(s, off) == Step(END, off + 4)
            else
              && OpAt(s, off, rest[0], strs, |strs|)
              && TagAt(s, off) == Step(TagOf(rest[0]), off + OpSize(rest[0])) && off + OpSize(rest[0]) <= |s|
              && (rest[0].Attr? ==> off + 12 <= |s|)
  {
    hide OpAt, OpSize, TagAt, Word;
    if rest != [] {
      NextOp(s, OpsSize(done), rest[0], strs, |strs|);
    } else {
      TagAtEnd(s, OpsSize(done));
    }
  }

  lemma HalfwayStep(s: seq<byte>, t: seq<byte>, done: seq<Op>, rest: seq<Op>, strs: seq<byte>)
    requires Halfway(s, done, rest, strs) && rest != [] && OpAt(s, OpsSize(done), rest[0], strs, |strs|)
    requires if rest[0].Attr? then
               && OpsSize(done) + 12 <= |s|
               && Patched(s, t, OpsSize(done) + 8, Be32((Word(s, OpsSize(done) + 8) + |strs|) % U32_LIMIT))
             else t == s
    ensures Halfway(t, done + [rest[0]], rest[1..], strs)
    ensures OpsSize(done + [rest[0]]) == OpsSize(done) + OpSize(rest[0])
  {
    hide OpAt, OpSize, Word, Patched, IsTag, Be32, OpsAt;
    var off, op := OpsSize(done), rest[0];
    FirstOp(s, off, rest, strs, |strs|);
    OpAtFits(s, off, op, strs, |strs|);
    if op.Attr? {
      AttrRoom(s, off, op, strs, |strs|);
      NameCorrected(s, t, off, op.name, op.val, strs, |strs|);
      OthersKept(s, t, done, OpSize(op), rest[1..], strs, Be32((Word(s, off + 8) + |strs|) % U32_LIMIT));
    } else {
      NoName(s, off, op, strs, |strs|);
    }
    OneOp(t, off, op, strs, 0);
    OpsSplit(t, 0, done, [op], strs, 0);
  }

  lemma FirstOp(s: seq<byte>, off: int, ops: seq<Op>, strs: seq<byte>, bias: int)
    requires ops != [] && OpsAt(s, off, ops, strs, bias)
    ensures OpsSize(ops) == OpSize(ops[0]) + OpsSize(ops[1..])
    ensures OpsAt(s, off + OpSize(ops[0]), ops[1..], strs, bias)
  {
    hide OpAt, OpSize;
  }

  lemma AttrRoom(s: seq<byte>, off: int, op: Op, strs: seq<byte>, bias: int)
    requires OpAt(s, off, op, strs, bias) && op.Attr?
    ensures OpSize(op) >= 12
  {
  }

  /** The write goes to one property only. */
  lemma OthersKept(s: seq<byte>, t: seq<byte>, done: seq<Op>, n: int, rest: seq<Op>, strs: seq<byte>, v: seq<byte>)
    requires n >= 12 && |v| == 4 && Patched(s, t, OpsSize(done) + 8, v)
    requires OpsAt(s, 0, done, strs, 0) && OpsAt(s, OpsSize(done) + n, rest, strs, |strs|)
    requires IsTag(s, OpsSize(done) + n + OpsSize(rest), END) && |s| == OpsSize(done) + n + OpsSize(rest) + 4
    ensures OpsAt(t, 0, done, strs, 0) && OpsAt(t, OpsSize(done) + n, rest, strs, |strs|)
    ensures IsTag(t, OpsSize(done) + n + OpsSize(rest), END) && |t| == |s|
  {
    hide OpAt, OpSize, Spliced, OpsAt, Patched, Same, IsTag, HoldsAt, OpsSize;
    var off := OpsSize(done);
    PatchedSizes(s, t, off + 8, v);
    PatchedSplice(s, t, off + 8, v, off, n);
    PrefixSame(s, t, off, n, 0, off);
    OpsMove(s, 0, t, 0, done, strs, 0);
    SuffixSame(s, t, off, n);
    SamePart(s, off + n, t, off + n, |s| - off - n, 0, OpsSize(rest));
    OpsMove(s, off + n, t, off + n, rest, strs, |strs|);
    IsTagMoves(s, off + n, t, off + n, |s| - off - n, OpsSize(rest), END);
  }

  lemma SuffixSame(s: seq<byte>, t: seq<byte>, p: int, n: int)
    requires Spliced(s, t, p, n, n)
    ensures Same(s, p + n, t, p + n, |s| - p - n)
  {
  }

  // ---- fdt_finish -------------------------------------------------------------------

  /** The header fdt_finish leaves, from the one its loop works under. */
  function DoneHeader(h: Header): Header
    requires h.offStrings + h.sizeStrings < U32_LIMIT
  {
    h.(magic := FDT_MAGIC, lastComp := 2, totalsize := h.offStrings + h.sizeStrings)
  }

  /** END is written and the strings are moved behind it. */
  lemma Relocated(h: Header, s: seq<byte>, t: seq<byte>, u: seq<byte>, ops: seq<Op>)
    requires SwLaid(h, |s|) && h.sizeStruct == OpsSize(ops) && 4 <= Free(h)
    requires OpsAt(s, h.offStruct, ops, Tail(h, s), h.sizeStrings)
    requires Patched(s, t, h.offStruct + h.sizeStruct, Be32(END))
    requires |u| == |t| && Same(t, 0, u, 0, h.offStruct + h.sizeStruct + 4)
    requires Same(t, h.totalsize - h.sizeStrings, u, h.offStruct + h.sizeStruct + 4, h.sizeStrings)
    ensures Region(u, h.offStruct + h.sizeStruct + 4, h.sizeStrings) == Tail(h, s)
    ensures Halfway(Region(u, h.offStruct, h.sizeStruct + 4), [], ops, Tail(h, s))
    ensures Region(u, h.offRsv, h.offStruct - h.offRsv) == Region(s, h.offRsv, h.offStruct - h.offRsv)
  {
    hide OpAt, OpSize, Same, Region, Spliced, Patched, IsTag, HoldsAt, Be32;
    var p := h.offStruct + h.sizeStruct;
    var st := Region(u, h.offStruct, h.sizeStruct + 4);
    PatchedSizes(s, t, p, Be32(END));
    PatchedSplice(s, t, p, Be32(END), p, 4);
    TailKept(h, s, t, p, 4);
    RsvKept(h, s, t, p, 4);
    RegionSame(t, h.totalsize - h.sizeStrings, u, p + 4, h.sizeStrings);
    SamePart(t, 0, u, 0, p + 4, h.offRsv, h.offStruct - h.offRsv);
    RegionSame(t, h.offRsv, u, h.offRsv, h.offStruct - h.offRsv);
    PrefixSame(s, t, p, 4, h.offStruct, h.sizeStruct);
    OpsMove(s, h.offStruct, t, h.offStruct, ops, Tail(h, s), h.sizeStrings);
    HeldTag(t, p, END);
    SamePart(t, 0, u, 0, p + 4, h.offStruct, h.sizeStruct + 4);
    InRegion(t, u, h.offStruct, h.sizeStruct + 4);
    SamePart(t, h.offStruct, st, 0, h.sizeStruct + 4, 0, h.sizeStruct);
    OpsMove(t, h.offStruct, st, 0, ops, Tail(h, s), h.sizeStrings);
    IsTagMoves(t, h.offStruct, st, 0, h.sizeStruct + 4, h.sizeStruct, END);
    TailSize(h, s);
    Nothing(st, Tail(h, s));
  }

  lemma Nothing(s: seq<byte>, strs: seq<byte>)
    ensures OpsAt(s, 0, [], strs, 0) && OpsSize([]) == 0
  {
  }

  lemma InRegion(s: seq<byte>, t: seq<byte>, a: int, n: int)
    requires Same(s, a, t, a, n)
    ensures Same(s, a, Region(t, a, n), 0, n) && |Region(t, a, n)| == n
  {
    var r := Region(t, a, n);
    forall j | a <= j < a + n ensures s[j] == r[j - a + 0] {
      assert s[j] == t[j - a + a];
    }
  }

  /** A finished blob whose structure block is what the calls ops wrote. */
  ghost predicate Finished(b: Blob, ops: seq<Op>)
    reads b, b.buf
  {
    && Laid(b.h, b.buf.Length)
    && |b.StructBlock()| == OpsSize(ops) + 4 && |b.StructBlock()| < INT_LIMIT
    && OpsAt(b.StructBlock(), 0, ops, b.Strings(), 0)
    && IsTag(b.StructBlock(), OpsSize(ops), END)
  }

  /** The loop of fdt_finish, with the strings already in their final place. */
  method CorrectNames(b: Blob, ghost ops: seq<Op>) returns (nextoffset: int)
    requires SwLaid(b.h, b.buf.Length) && b.h.offStrings == b.h.offStruct + b.h.sizeStruct
    requires b.h.lastComp <= 17 && b.h.sizeStrings == |b.Strings()|
    requires Halfway(b.StructBlock(), [], ops, b.Strings())
    modifies b.buf
    ensures nextoffset >= 0
    ensures b.Strings() == old(b.Strings()) && b.Rsv() == old(b.Rsv())
    ensures Halfway(b.StructBlock(), ops, [], b.Strings())
  {
    hide OpAt, OpSize, OpsAt, OpsSize, TagAt, Region, Patched, Be32, Halfway, Word;
    ghost var strs, rsv, g := b.Strings(), b.Rsv(), DoneHeader(b.h);
    ghost var done, rest := [], ops;
    Nothing(b.StructBlock(), strs);
    HalfwayTag(b.StructBlock(), done, rest, strs);
    var offset := 0;
    var tag;
    tag, nextoffset := NextTag(b, offset);
    while tag != END
      invariant b.Strings() == strs && b.Rsv() == rsv
      invariant offset == OpsSize(done) && done + rest == ops
      invariant Halfway(b.StructBlock(), done, rest, strs)
      invariant Step(tag, nextoffset) == TagAt(b.StructBlock(), offset)
      decreases |rest|
    {
      ghost var s, raw := b.StructBlock(), b.buf[..];
      HalfwayTag(s, done, rest, strs);
      if tag == PROP {
        var nameoff := Word(b.StructBlock(), offset + 8) + b.h.sizeStrings;
        Memcpy(b.buf, b.h.offStruct + offset + 8, Be32(nameoff % U32_LIMIT));
        PatchedBlocks(g, raw, b.buf[..], offset + 8, Be32(nameoff % U32_LIMIT));
      }
      HalfwayStep(s, b.StructBlock(), done, rest, strs);
      offset := nextoffset;
      done, rest := done + [rest[0]], rest[1..];
      HalfwayTag(b.StructBlock(), done, rest, strs);
      tag, nextoffset := NextTag(b, offset);
    }
    HalfwayTag(b.StructBlock(), done, rest, strs);
    assert rest == [] && done == ops;
  }

  /** fdt_finish */
  method Finish(b: Blob, ghost ops: seq<Op>) returns (err: int)
    requires Writing(b, ops) && b.h.lastComp <= 17
    modifies b, b.buf
    ensures err == if 4 > Free(old(b.h)) then NOSPACE else 0
    ensures err != 0 ==> b.h == old(b.h) && b.buf[..] == old(b.buf[..])
    ensures err == 0 ==> Finished(b, ops) && b.Rsv() == old(b.Rsv())
    ensures err == 0 ==> b.Strings() == old(Tail(b.h, b.buf[..]))
    ensures err == 0 ==> b.h.offStrings + b.h.sizeStrings == b.h.totalsize
    ensures err == 0 ==> b.h.totalsize == old(b.h).offStruct + OpsSize(ops) + 4 + old(b.h).sizeStrings
    ensures err == 0 ==> b.h.totalsize == b.h.offStruct + b.h.sizeStruct + b.h.sizeStrings
    ensures err == 0 ==> b.h.offRsv == SW_HEADER_SIZE
    ensures err == 0 ==> b.h.offStruct == old(b.h).offStruct && b.h.totalsize <= old(b.h).totalsize
  {
    hide OpAt, OpSize, OpsAt, OpsSize, Region, Patched, Be32, Same;
    ghost var s, h := b.buf[..], b.h;
    var p := GrabSpace(b, 4);
    if p < 0 {
      return NOSPACE;
    }
    Memcpy(b.buf, p, Be32(END));
    ghost var t := b.buf[..];
    var oldStr := b.h.totalsize - b.h.sizeStrings;
    var newStr := b.h.offStruct + b.h.sizeStruct;
    Memmove(b.buf, newStr, oldStr, b.h.sizeStrings);
    b.h := b.h.(offStrings := newStr);
    Relocated(h, s, t, b.buf[..], ops);
    TailSize(h, s);
    Nothing(s, []);
    var nextoffset := CorrectNames(b, ops);
    if nextoffset < 0 {
      return nextoffset;
    }
    b.h := b.h.(totalsize := newStr + b.h.sizeStrings);
    b.h := b.h.(lastComp := 2);
    b.h := b.h.(magic := FDT_MAGIC);
    AllDone(b.StructBlock(), ops, b.Strings());
    err := 0;
  }

  lemma AllDone(s: seq<byte>, ops: seq<Op>, strs: seq<byte>)
    requires Halfway(s, ops, [], strs)
    ensures OpsAt(s, 0, ops, strs, 0) && IsTag(s, OpsSize(ops), END) && |s| == OpsSize(ops) + 4 && |s| < INT_LIMIT
  {
  }

  /** A finished script of one whole node is a blob, and what the blob means is
      that node. */
  lemma FinishedTree(b: Blob, t: Dt) returns (f: Forest)
    requires Finished(b, OpsOf(t)) && t.DNode? && t.next.DNil?
    ensures Holds(b, f) && View(f, b.Strings()) == t
  {
    hide OpsAt, OpsSize, At, View, NamesOk, IsTag, Region, Words;
    f := ReadBack(b.StructBlock(), 0, t, b.Strings());
  }

  // ---- the round trip -----------------------------------------------------------------

  /** What C callers can pass: terminated names, lengths that are positive ints. */
  predicate Writable(op: Op) {
    match op
    case Open(name) => 0 !in name && |name| < INT_LIMIT - 16
    case Close => true
    case Attr(name, val) => 0 !in name && |val| < INT_LIMIT - 32
  }

  /** The strings after one more call. */
  ghost function WithName(strs: seq<byte>, op: Op, share: bool): seq<byte> {
    if op.Attr? then Stored(strs, op.name, share) else strs
  }

  /** The strings after the calls: each name in front of the others, a known one
      not again if names are shared. */
  ghost function Names(ops: seq<Op>, share: bool): seq<byte> {
    if ops == [] then [] else WithName(Names(ops[..|ops| - 1], share), ops[|ops| - 1], share)
  }

  /** Bytes of all property names, each counted as often as it is used. */
  function NameBytes(ops: seq<Op>): nat {
    if ops == [] then 0
    else
      var op := ops[|ops| - 1];
      NameBytes(ops[..|ops| - 1]) + if op.Attr? then |op.name| + 1 else 0
  }

  /** ... which is what the names take when they are not shared, and at least what
      they take when they are. */
  lemma {:induction false} NamesSize(ops: seq<Op>)
    ensures |Names(ops, true)| <= |Names(ops, false)| == NameBytes(ops)
    decreases |ops|
  {
    hide Among;
    if ops != [] {
      NamesSize(ops[..|ops| - 1]);
    }
  }

  lemma {:induction false} NamesGrow(ops: seq<Op>, i: int, share: bool)
    requires 0 <= i <= |ops|
    ensures |Names(ops[..i], share)| <= |Names(ops, share)|
    decreases |ops|
  {
    hide Among;
    if i == |ops| {
      assert ops[..i] == ops;
    } else {
      NamesGrow(ops[..|ops| - 1], i, share);
      assert ops[..|ops| - 1][..i] == ops[..i];
    }
  }

  lemma {:induction false} SizeSplit(ops: seq<Op>, more: seq<Op>)
    ensures OpsSize(ops + more) == OpsSize(ops) + OpsSize(more)
  {
    OpsSplit([], 0, ops, more, [], 0);
  }

  /** Room for header, terminating reserve entry, all calls, END, and the names. */
  ghost function Room(ops: seq<Op>, share: bool): int {
    SW_HEADER_SIZE + RSV_ENTRY + OpsSize(ops) + 4 + |Names(ops, share)|
  }

  /** The unsigned comparison of fdt_add_string_ is right throughout: as far as the
      calls fit, behind reserve entries of map_ bytes, the next name and the strings
      are not longer than the buffer. */
  ghost predicate NamesInBuffer(map_: int, ops: seq<Op>, share: bool, bufsize: int) {
    forall i :: 0 <= i < |ops| ==> NameInBuffer(map_, ops, share, bufsize, i)
  }

  ghost predicate NameInBuffer(map_: int, ops: seq<Op>, share: bool, bufsize: int, i: int)
    requires 0 <= i < |ops|
  {
    map_ + Room(ops[..i], share) - 4 <= bufsize ==> |Names(ops[..i + 1], share)| <= bufsize
  }

  /** It is if all names together are not longer, and so if everything fits. */
  lemma NamesAllIn(map_: int, ops: seq<Op>, share: bool, bufsize: int)
    requires |Names(ops, share)| <= bufsize
    ensures NamesInBuffer(map_, ops, share, bufsize)
  {
    hide Room;
    forall i | 0 <= i < |ops| ensures NameInBuffer(map_, ops, share, bufsize, i) {
      NamesGrow(ops, i + 1, share);
    }
  }

  /** Accounting for one call of a script. */
  lemma OneMore(ops: seq<Op>, i: int, share: bool)
    requires 0 <= i < |ops|
    ensures ops[..i + 1] == ops[..i] + [ops[i]]
    ensures Names(ops[..i + 1], share) == WithName(Names(ops[..i], share), ops[i], share)
    ensures Room(ops[..i + 1], share) <= Room(ops, share)
    ensures OpsSize(ops[..i + 1]) == OpsSize(ops[..i]) + OpSize(ops[i])
  {
    hide OpSize, WithName;
    assert ops[..i + 1][..i] == ops[..i];
    assert ops[..i + 1] + ops[i + 1..] == ops;
    OneOp([], 0, ops[i], [], 0);
    SizeSplit(ops[..i], [ops[i]]);
    SizeSplit(ops[..i + 1], ops[i + 1..]);
    NonNegSize(ops[i + 1..]);
    NamesGrow(ops, i + 1, share);
  }

  lemma NonNegSize(ops: seq<Op>)
    ensures OpsSize(ops) >= 0
  {
  }

  /** One call, dispatched. */
  method Call(b: Blob, op: Op, ghost ops: seq<Op>) returns (err: int)
    requires Writing(b, ops) && Writable(op)
    requires |WithName(Tail(b.h, b.buf[..]), op, Dedup(b.h))| <= b.h.totalsize
    modifies b, b.buf
    ensures var strs := old(Tail(b.h, b.buf[..]));
            var more := |WithName(strs, op, Dedup(old(b.h)))| - |strs|;
            err == if OpSize(op) + more > Free(old(b.h)) then NOSPACE else 0
    ensures err == 0 ==> Writing(b, ops + [op]) && b.Rsv() == old(b.Rsv())
    ensures err == 0 ==> b.h == old(b.h).(sizeStruct := b.h.sizeStruct, sizeStrings := b.h.sizeStrings)
    ensures err == 0 ==> Tail(b.h, b.buf[..]) == WithName(old(Tail(b.h, b.buf[..])), op, Dedup(b.h))
  {
    hide OpsAt, OpsSize, Region, HdrWords, PropWords, Among, Tail;
    TailSize(b.h, b.buf[..]);
    match op
    case Open(name) => err := BeginNode(b, name, ops);
    case Close => err := EndNode(b, ops);
    case Attr(name, val) =>
      PropSizes(val);
      err := Property(b, name, val, ops);
  }

  /** Create, then the reserve map. */
  method WriteMap(b: Blob, bufsize: int, flags: u32, rs: seq<Reserve>) returns (err: int)
    requires 0 <= bufsize <= b.buf.Length && bufsize < INT_LIMIT - 1 && flags <= NO_NAME_DEDUP
    modifies b, b.buf
    ensures err == if SW_HEADER_SIZE + RSV_ENTRY * (|rs| + 1) > bufsize then NOSPACE else 0
    ensures err == 0 ==> Writing(b, []) && b.Rsv() == RsvMap(rs) + RsvEntry(Reserve(0, 0))
    ensures err == 0 ==>
      && b.h.totalsize == bufsize && b.h.lastComp == flags && b.h.sizeStrings == 0
      && b.h.offStruct == SW_HEADER_SIZE + RSV_ENTRY * (|rs| + 1)
  {
    hide OpsAt, Region, RsvEntry, RsvMap;
    err := CreateWithFlags(b, bufsize, flags);
    if err != 0 {
      return;
    }
    NoEntries(b.buf[..], b.h.offRsv);
    var i := 0;
    while i < |rs|
      invariant 0 <= i <= |rs| && InRsvMap(b.h, b.buf.Length) && b.Rsv() == RsvMap(rs[..i])
      invariant b.h.totalsize == bufsize && b.h.lastComp == flags
      invariant b.h.offStruct == SW_HEADER_SIZE + RSV_ENTRY * i
    {
      err := AddReservemapEntry(b, rs[i].address, rs[i].size);
      if err != 0 {
        return;
      }
      RsvMapMore(rs[..i], rs[i]);
      assert rs[..i + 1] == rs[..i] + [rs[i]];
      i := i + 1;
    }
    assert rs[..i] == rs;
    err := FinishReservemap(b);
    if err == 0 {
      Nothing(Region(b.buf[..], b.h.offStruct, 0), []);
      NoneWritten(b.buf[..], b.h.offStruct, Tail(b.h, b.buf[..]), b.h.sizeStrings);
    }
  }

  lemma NoneWritten(s: seq<byte>, off: int, strs: seq<byte>, bias: int)
    requires 0 <= off <= |s|
    ensures OpsAt(s, off, [], strs, bias) && OpsSize([]) == 0
  {
  }

  /** A client of the writer: create, the reserve map, the calls in order, finish,
      stopping at the first error. It succeeds exactly when everything fits, with
      shared names or without. */
  method WriteAll(b: Blob, bufsize: int, flags: u32, rs: seq<Reserve>, ops: seq<Op>) returns (err: int)
    requires 0 <= bufsize <= b.buf.Length && bufsize < INT_LIMIT - 1 && flags <= NO_NAME_DEDUP
    requires NamesInBuffer(RSV_ENTRY * |rs|, ops, flags == 0, bufsize)
    requires forall i :: 0 <= i < |ops| ==> Writable(ops[i])
    modifies b, b.buf
    ensures err == if RSV_ENTRY * |rs| + Room(ops, flags == 0) > bufsize then NOSPACE else 0
    ensures err == 0 ==> Finished(b, ops) && b.h.totalsize == RSV_ENTRY * |rs| + Room(ops, flags == 0)
    ensures err == 0 ==> b.Strings() == Names(ops, flags == 0)
    ensures err == 0 ==> b.h.offRsv == SW_HEADER_SIZE && b.Rsv() == RsvMap(rs) + RsvEntry(Reserve(0, 0))
  {
    hide OpsAt, OpsSize, Region, OpSize, WithName, Names, Writable, Among, Tail, NamesInBuffer, Finished, RsvMap,
      RsvEntry;
    ghost var share, map_ := flags == 0, RSV_ENTRY * |rs|;
    NonNegSize(ops);
    err := WriteMap(b, bufsize, flags, rs);
    if err != 0 {
      return;
    }
    TailSize(b.h, b.buf[..]);
    NoCalls(ops, share);
    var i := 0;
    while i < |ops|
      invariant 0 <= i <= |ops|
      invariant Writing(b, ops[..i]) && b.Rsv() == RsvMap(rs) + RsvEntry(Reserve(0, 0))
      invariant b.h.totalsize == bufsize && b.h.lastComp == flags
      invariant b.h.offStruct == SW_HEADER_SIZE + RSV_ENTRY + map_
      invariant Tail(b.h, b.buf[..]) == Names(ops[..i], share)
    {
      TailSize(b.h, b.buf[..]);
      OneMore(ops, i, share);
      NextName(map_, ops, share, bufsize, i);
      err := Call(b, ops[i], ops[..i]);
      if err != 0 {
        return;
      }
      i := i + 1;
    }
    assert ops[..i] == ops;
    TailSize(b.h, b.buf[..]);
    err := Finish(b, ops);
  }

  lemma NextName(map_: int, ops: seq<Op>, share: bool, bufsize: int, i: int)
    requires 0 <= i < |ops| && NamesInBuffer(map_, ops, share, bufsize)
    ensures map_ + Room(ops[..i], share) - 4 <= bufsize ==> |Names(ops[..i + 1], share)| <= bufsize
  {
    assert NameInBuffer(map_, ops, share, bufsize, i);
  }

  lemma NoCalls(ops: seq<Op>, share: bool)
    ensures ops[..0] == [] && Names([], share) == [] && OpsSize([]) == 0
  {
  }

  lemma NoEntries(s: seq<byte>, a: int)
    requires 0 <= a <= |s|
    ensures Region(s, a, 0) == []
  {
  }

  /** Printer and parser: a tree written call by call is the tree the blob
      holds, whether or not equal names share their bytes. */
  method WriteTree(b: Blob, bufsize: int, flags: u32, rs: seq<Reserve>, t: Dt) returns (err: int)
    requires 0 <= bufsize <= b.buf.Length && bufsize < INT_LIMIT - 1 && flags <= NO_NAME_DEDUP
    requires t.DNode? && t.next.DNil?
    requires NamesInBuffer(RSV_ENTRY * |rs|, OpsOf(t), flags == 0, bufsize)
    requires forall i :: 0 <= i < |OpsOf(t)| ==> Writable(OpsOf(t)[i])
    modifies b, b.buf
    ensures err == if RSV_ENTRY * |rs| + Room(OpsOf(t), flags == 0) > bufsize then NOSPACE else 0
    ensures err == 0 ==> exists f :: Holds(b, f) && View(f, b.Strings()) == t
    ensures err == 0 ==>
      && b.Strings() == Names(OpsOf(t), flags == 0)
      && b.h.totalsize == RSV_ENTRY * |rs| + Room(OpsOf(t), flags == 0)
    ensures err == 0 ==>
      && b.h.offRsv == SW_HEADER_SIZE && b.Rsv() == RsvMap(rs) + RsvEntry(Reserve(0, 0))
      && RsvCount(b.buf[..], b.h.offRsv, b.h.totalsize) == Sized(rs)
  {
    hide Finished, OpsAt, OpsSize, Region, Holds, View, OpsOf, Names, Room, NamesInBuffer, RsvMap, RsvEntry, RsvCount,
      Sized;
    err := WriteAll(b, bufsize, flags, rs, OpsOf(t));
    if err == 0 {
      ghost var f := FinishedTree(b, t);
      LaidTreeOf(b, f);
      MapCount(b.buf[..], b.h.offRsv, b.h.offStruct, rs);
      RsvCountLimit(b.buf[..], b.h.offRsv, b.h.offStruct, b.h.totalsize);
    }
  }

  lemma LaidTreeOf(b: Blob, f: Forest)
    requires Holds(b, f)
    ensures Laid(b.h, b.buf.Length)
  {
  }

  lemma MapCount(raw: seq<byte>, a: int, e: int, rs: seq<Reserve>)
    requires 0 <= a <= e <= |raw| && Region(raw, a, e - a) == RsvMap(rs) + RsvEntry(Reserve(0, 0))
    ensures RsvCount(raw, a, e) == Sized(rs)
  {
    hide RsvMap, RsvEntry, RsvCount, Sized;
    RsvCountIs(raw, a, e, rs);
  }

  // ---- fdt_create_empty_tree --------------------------------------------------------------

  /** fdt_open_into with source and destination the same buffer, blocks in
      order. */
  method OpenInPlace(b: Blob, bufsize: int, ghost f: Forest) returns (err: int)
    requires Holds(b, f) && RsvCount(b.buf[..], b.h.offRsv, b.h.offStruct) >= 0
    requires 0 <= bufsize <= b.buf.Length && bufsize < INT_LIMIT - 1
    modifies b
    ensures err == if old(b.h).totalsize > bufsize then NOSPACE else 0
    ensures err != 0 ==> b.h == old(b.h)
    ensures err == 0 ==> b.h == old(b.h).(totalsize := bufsize)
    ensures Holds(b, f) && b.Strings() == old(b.Strings())
  {
    hide TreeIn, NamesOk, Region, RsvCount;
    RsvCountLimit(b.buf[..], b.h.offRsv, b.h.offStruct, b.h.totalsize);
    var count := NumMemRsv(b);
    var rsvSize := (count + 1) * RSV_ENTRY;
    if Misordered(b.h, rsvSize, b.h.sizeStruct) {
      assert false;
    }
    if b.h.totalsize > bufsize {
      return NOSPACE;
    }
    b.h := b.h.(version := 17, totalsize := bufsize);
    err := 0;
  }

  /** The empty tree: a root without a name. */
  const EMPTY: Dt := DNode([], DNil, DNil)

  lemma EmptyOps()
    ensures OpsOf(EMPTY) == [Open([]), Close] && OpsSize(OpsOf(EMPTY)) == 12
    ensures [Open([])] + [Close] == OpsOf(EMPTY)
    ensures OpsSize([Open([])]) == 8 && HdrSize([]) == 8
  {
    OneOp([], 0, Open([]), [], 0);
    OneOp([], 0, Close, [], 0);
    SizeSplit([Open([])], [Close]);
  }

  /** fdt_create_empty_tree */
  method CreateEmptyTree(b: Blob, bufsize: int) returns (err: int, ghost f: Forest)
    requires 0 <= bufsize <= b.buf.Length && bufsize < INT_LIMIT - 1
    modifies b, b.buf
    ensures err == if bufsize < 80 then NOSPACE else 0
    ensures err == 0 ==> Holds(b, f) && View(f, b.Strings()) == EMPTY && b.h.totalsize == bufsize
    ensures err == 0 ==> RsvCount(b.buf[..], b.h.offRsv, b.h.offStruct) == 0
    ensures err == 0 ==> b.h.offStrings + b.h.sizeStrings == 80
  {
    hide OpsAt, OpsSize, Region, OpSize, OpsOf, RsvCount, View, Holds, Finished, SwLaid, RsvEntry;
    f := Nil;
    Nothing([], []);
    EmptyOps();
    err := CreateWithFlags(b, bufsize, 0);
    if err != 0 {
      return;
    }
    NoEntries(b.buf[..], b.h.offRsv);
    err := FinishReservemap(b);
    if err != 0 {
      return;
    }
    err := BeginNode(b, [], []);
    if err != 0 {
      return;
    }
    assert [] + [Open([])] == [Open([])];
    err := EndNode(b, [Open([])]);
    if err != 0 {
      return;
    }
    err := Finish(b, OpsOf(EMPTY));
    if err != 0 {
      return;
    }
    f := FinishedTree(b, EMPTY);
    LaidTreeOf(b, f);
    assert RsvMap([]) + RsvEntry(Reserve(0, 0)) == [] + RsvEntry(Reserve(0, 0));
    MapCount(b.buf[..], b.h.offRsv, b.h.offStruct, []);
    err := OpenInPlace(b, bufsize, f);
  }
}
