/** fdt_wip.c: edits that move nothing. */
module FdtWip {
  import opened Bytes
  import opened FdtFormat
  import opened FdtTree
  import opened FdtBlob
  import opened Fdt
  import opened FdtRo
  import opened FdtEdits

  /** Where a walk leaves its starting node. */
  function LeaveAt(off: int, f: Forest, k: Cont): int {
    var (o, n) := ToEdge(off, f, k);
    o + Size(n) + 4
  }

  /** fdt_node_end_offset_: the first offset behind a node. */
  method NodeEndOffset(b: Blob, offset: int, ghost f: Forest) returns (r: int)
    requires Laid(b.h, b.buf.Length) && TreeIn(b.StructBlock(), f) && IsNode(f, offset)
    ensures r == offset + NodeSize(RestAt(f, offset).value) && r >= 0
  {
    hide Point, TreeIn, NodeCheck, At, NodeHdr, HdrWords, Seek, RestAt, Region, Words, ToEdge;
    ghost var s := b.StructBlock();
    ghost var cname, cf, ck := StartSearch(s, f, offset, []);
    ghost var goal := LeaveAt(offset + HdrSize(cname), cf, ck);
    EdgeLeave(offset + HdrSize(cname), cf);
    var depth := 0;
    r := offset;
    while r >= 0 && depth >= 0
      invariant depth >= 0 ==>
        Entered(s, r, cname, cf, ck) && LeaveAt(r + HdrSize(cname), cf, ck) == goal && depth == Height(ck)
      invariant depth < 0 ==> r >= 0 && r == goal
      decreases depth >= 0, |s| - r
    {
      ghost var stop := Seek(r + HdrSize(cname), cf, ck);
      LeaveStep(s, r, cname, cf, ck);
      r, depth := NextNode(b, r, depth, true, cname, cf, ck);
      if stop.Node? {
        cname, cf, ck := stop.f.name, stop.f.kids, Up(stop.at, stop.f.name, stop.f.next, stop.k);
      }
    }
  }

  lemma EdgeLeave(off: int, f: Forest)
    ensures LeaveAt(off, f, Edge) == off + Size(f) + 4
  {
  }

  lemma LeaveStep(s: seq<byte>, r: int, cname: seq<byte>, cf: Forest, ck: Cont)
    requires Entered(s, r, cname, cf, ck)
    ensures var at := r + HdrSize(cname);
            var stop := Seek(at, cf, ck);
            && !stop.Done?
            && (stop.Left? ==> stop.at == LeaveAt(at, cf, ck) && stop.at >= 0)
            && (stop.Node? ==>
                  && r < stop.at <= |s|
                  && Entered(s, stop.at, stop.f.name, stop.f.kids, Up(stop.at, stop.f.name, stop.f.next, stop.k))
                  && LeaveAt(stop.at + HdrSize(stop.f.name), stop.f.kids, Up(stop.at, stop.f.name, stop.f.next, stop.k))
                     == LeaveAt(at, cf, ck))
  {
    hide Point, At, NodeHdr, HdrWords, Seek, Words;
    var at := r + HdrSize(cname);
    var stop := Seek(at, cf, ck);
    SeekToEdge(at, cf, ck);
    SeekPoint(s, at, cf, ck);
    if stop.Node? {
      EnterPoint(s, stop.at, stop.f, stop.k);
      SubSize(stop.f);
      if stop.k.Up? {
        EnterToEdge(stop.at, stop.f, stop.k);
      } else {
        assert ToEdge(stop.at + NodeSize(stop.f), stop.f.next, Edge) == (stop.at + NodeSize(stop.f), stop.f.next);
      }
    }
  }

  // ---- NOP tags ---------------------------------------------------------------------

  function Nops(n: nat, rest: Forest): Forest {
    if n == 0 then rest else Nop(Nops(n - 1, rest))
  }

  ghost predicate NopWords(t: seq<byte>, p: int, n: nat) {
    0 <= p && p + 4 * n <= |t| && forall q :: p <= q < p + 4 * n && (q - p) % 4 == 0 ==> IsTag(t, q, NOP)
  }

  lemma {:induction false} NopsSize(n: nat, rest: Forest)
    ensures Size(Nops(n, rest)) == 4 * n + Size(rest)
  {
    if n > 0 {
      NopsSize(n - 1, rest);
    }
  }

  lemma {:induction false} NopsAt(t: seq<byte>, p: int, n: nat, rest: Forest)
    requires NopWords(t, p, n) && At(t, p + 4 * n, rest)
    ensures At(t, p, Nops(n, rest))
    decreases n
  {
    hide IsTag;
    if n > 0 {
      assert IsTag(t, p, NOP);
      NopsAt(t, p + 4, n - 1, rest);
    }
  }

  lemma {:induction false} NopsView(n: nat, rest: Forest, strs: seq<byte>)
    ensures View(Nops(n, rest), strs) == View(rest, strs)
    ensures NamesOk(rest, strs) ==> NamesOk(Nops(n, rest), strs)
  {
    if n > 0 {
      NopsView(n - 1, rest, strs);
    }
  }

  /** fdt_nop_region_ over n words of the structure block. */
  method NopRegion(b: Blob, start: int, n: nat)
    requires Laid(b.h, b.buf.Length) && 0 <= start && start + 4 * n <= b.h.sizeStruct
    modifies b.buf
    ensures b.Strings() == old(b.Strings()) && b.Rsv() == old(b.Rsv())
    ensures Spliced(old(b.StructBlock()), b.StructBlock(), start, 4 * n, 4 * n)
    ensures NopWords(b.StructBlock(), start, n)
  {
    hide Spliced, Patched, Region, Be32, IsTag, HoldsAt;
    BlockSizes(b);
    ghost var s := b.StructBlock();
    var i := 0;
    UnchangedSpliced(s, start, 4 * n);
    while i < n
      invariant 0 <= i <= n
      invariant Spliced(s, b.StructBlock(), start, 4 * n, 4 * n)
      invariant b.Strings() == old(b.Strings()) && b.Rsv() == old(b.Rsv())
      invariant |b.StructBlock()| == |s| && NopWords(b.StructBlock(), start, i)
    {
      ghost var t := b.StructBlock();
      WriteStruct(b, start + 4 * i, Be32(NOP));
      SplicedPatched(s, t, b.StructBlock(), start, 4 * n, 4 * n, start + 4 * i, Be32(NOP));
      NopWritten(t, b.StructBlock(), start, i);
      i := i + 1;
    }
  }

  lemma NopWritten(s: seq<byte>, t: seq<byte>, start: int, i: nat)
    requires NopWords(s, start, i) && Patched(s, t, start + 4 * i, Be32(NOP))
    ensures NopWords(t, start, i + 1) && |t| == |s|
  {
    hide Patched, Be32, Word, HoldsAt;
    PatchedSizes(s, t, start + 4 * i, Be32(NOP));
    assert Be32(NOP)[0..4] == Be32(NOP);
    HeldWord(t, start + 4 * i, Be32(NOP), 0, NOP);
    forall q | start <= q < start + 4 * (i + 1) && (q - start) % 4 == 0 ensures IsTag(t, q, NOP) {
      if q != start + 4 * i {
        assert IsTag(s, q, NOP);
        PatchedWord(s, t, start + 4 * i, Be32(NOP), q);
      }
    }
  }

  /** The first item of a list overwritten by NOPs. */
  lemma Nopped(s: seq<byte>, t: seq<byte>, at: int, n: nat, x: Forest, rest: Forest)
    requires At(s, at, x) && at >= 0 && Size(x) == 4 * n + Size(rest) && at + Size(x) <= |s|
    requires At(s, at + 4 * n, rest)
    requires Spliced(s, t, at, 4 * n, 4 * n) && NopWords(t, at, n)
    ensures Spliced(s, t, at, Size(x), Size(Nops(n, rest))) && At(t, at, Nops(n, rest))
  {
    hide Words, Spliced, At, NopWords;
    SizeNonNeg(rest);
    NopsSize(n, rest);
    SuffixForest(s, t, at, 4 * n, 4 * n, at + 4 * n, rest);
    NopsAt(t, at, n, rest);
    SplicedWiden(s, t, at, 4 * n, 4 * n, Size(rest));
  }

  /** fdt_nop_property: the same tree as deleting the property. */
  method NopProperty(b: Blob, node: int, name: seq<byte>, ghost f: Forest)
    returns (err: int, ghost k: Forest, ghost at: int)
    requires Holds(b, f) && IsNode(f, node)
    modifies b.buf
    ensures err == 0 || err == NOTFOUND
    ensures err == 0 <==> VGet(VKids(View(f, old(b.Strings())), PathOf(f, node)), name).Some?
    ensures b.Strings() == old(b.Strings()) && b.Rsv() == old(b.Rsv())
    ensures err != 0 ==> b.buf[..] == old(b.buf[..])
    ensures err == 0 ==>
      && Holds(b, PutKids(f, node, k))
      && var was := View(f, b.Strings());
         var p := PathOf(f, node);
         View(PutKids(f, node, k), b.Strings()) == VPutKids(was, p, VDelProp(VKids(was, p), name))
    ensures err == 0 ==>
      && RestAt(f, at).Some? && RestAt(f, at).value.Prop?
      && var y := RestAt(f, at).value;
         PutKids(f, node, k) == Put(f, at, Nops(PropSize(y.val) / 4, y.next))
  {
    hide HdrWords, PropWords, Words, Put, RestAt, Region, TreeIn, At, PropOff, Align4, NameOk, StrAt, Word,
      NopWords, Spliced, View, VDelProp, VPutKids, VKids, PathOf, VGet;
    k, at := Nil, 0;
    ghost var s, strs := b.StructBlock(), b.Strings();
    ghost var x := RestAt(f, node).value;
    NamesOfKids(f, node, strs);
    KidsView(f, node, x.kids, strs);
    NodeRoom(s, f, node);
    PropFound(node + HdrSize(x.name), x.kids, strs, name, []);
    var off, len := GetProperty(b, node, name, f);
    if off < 0 {
      return len, k, 0;
    }
    ghost var e := off - node - HdrSize(x.name);
    ghost var y := RestAt(x.kids, e).value;
    PropAt(s, f, node, e);
    PropTaken(s, off, y);
    PropParts(y.nameoff, y.val, y.next);
    SizeNonNeg(y.next);
    BlockSizes(b);
    RegionWords(y.val);
    var n := (len + 12 + 3) / 4;
    NopRegion(b, off, n);
    BlockSizes(b);
    Nopped(s, b.StructBlock(), off, n, y, y.next);
    k := Put(x.kids, e, Nops(n, y.next));
    EditKids(s, b.StructBlock(), f, node, e, Nops(n, y.next));
    NopInKids(x.kids, e, n, y, strs);
    KidsView(f, node, k, strs);
    PutNested(f, node, e, Nops(n, y.next));
    at := off;
    err := 0;
  }

  lemma RegionWords(val: seq<byte>)
    ensures 4 * ((|val| + 12 + 3) / 4) == PropSize(val)
  {
  }

  lemma NopInKids(k: Forest, e: int, n: nat, y: Forest, strs: seq<byte>)
    requires NamesOk(k, strs) && RestAt(k, e) == Some(y) && !y.Nil?
    ensures NamesOk(Put(k, e, Nops(n, y.next)), strs)
    ensures View(Put(k, e, Nops(n, y.next)), strs) == View(Put(k, e, y.next), strs)
  {
    hide HdrWords, PropWords, Words, Put, RestAt, NameOk, StrAt;
    ViewPut(k, e, Nops(n, y.next), strs);
    ViewPut(k, e, y.next, strs);
    NopsView(n, y.next, strs);
    NamesPut(k, e, Nops(n, y.next), strs);
    NamesNext(y, strs);
  }

  lemma NamesNext(y: Forest, strs: seq<byte>)
    requires NamesOk(y, strs) && !y.Nil?
    ensures NamesOk(y.next, strs)
  {
  }

  /** fdt_nop_node: the same tree as deleting the node. */
  method NopNode(b: Blob, node: int, ghost f: Forest) returns (err: int)
    requires Holds(b, f) && IsNode(f, node)
    modifies b.buf
    ensures err == 0 && b.Strings() == old(b.Strings()) && b.Rsv() == old(b.Rsv())
    ensures var x := RestAt(f, node).value;
            var g := Put(f, node, Nops(NodeSize(x) / 4, x.next));
            && At(b.StructBlock(), 0, g) && |b.StructBlock()| == |old(b.StructBlock())|
            && View(g, b.Strings()) == VPut(View(f, b.Strings()), PathOf(f, node), View(x.next, b.Strings()))
            && (node != 0 ==> Holds(b, g))
  {
    hide HdrWords, PropWords, Words, Put, RestAt, Region, TreeIn, At, NameOk, StrAt, Word,
      NopWords, Spliced, View, PathOf, VPut, HdrSize;
    ghost var s, strs := b.StructBlock(), b.Strings();
    ghost var x := RestAt(f, node).value;
    NodeBytes(s, f, node);
    WholeWords(x);
    BlockSizes(b);
    var endoffset := NodeEndOffset(b, node, f);
    if endoffset < 0 {
      return endoffset;
    }
    var n := (endoffset - node) / 4;
    SizeNonNeg(x.next);
    NopRegion(b, node, n);
    BlockSizes(b);
    Nopped(s, b.StructBlock(), node, n, x, x.next);
    TreeAt(s, f);
    SplicePut(s, b.StructBlock(), 0, f, node, Nops(n, x.next));
    ViewPut(f, node, Nops(n, x.next), strs);
    NopsView(n, x.next, strs);
    if node != 0 {
      WithoutNode(s, b.StructBlock(), f, node, Nops(n, x.next));
      NamesPut(f, node, Nops(n, x.next), strs);
      NamesNext(x, strs);
    }
    err := 0;
  }

  lemma WholeWords(x: Forest)
    requires x.Sub?
    ensures NodeSize(x) % 4 == 0 && 4 * (NodeSize(x) / 4) == NodeSize(x)
  {
  }

  /** Deleting a node or property with NOPs leaves every other item where it
      was: same offset, same kind, same name, same value. */
  predicate SameItem(x: Forest, y: Forest) {
    match (x, y)
    case (Nil, Nil) => true
    case (Nop(_), Nop(_)) => true
    case (Prop(no, v, _), Prop(no', v', _)) => no == no' && v == v'
    case (Sub(m, _, _), Sub(m', _, _)) => m == m'
    case _ => false
  }

  lemma {:induction false} RestBehind(x: Forest, o: int)
    requires RestAt(x, o).Some? && !x.Nil? && o >= ItemSize(x)
    ensures RestAt(x, o) == RestAt(x.next, o - ItemSize(x))
  {
  }

  lemma {:induction false} RestInNops(n: nat, rest: Forest, o: int)
    requires o >= 4 * n && RestAt(rest, o - 4 * n).Some?
    ensures RestAt(Nops(n, rest), o) == RestAt(rest, o - 4 * n)
    decreases n
  {
    if n > 0 {
      RestInNops(n - 1, rest, o - 4);
    }
  }

  lemma {:induction false} NopKeepsOffsets(f: Forest, d: int, n: nat, x: Forest, o: int)
    requires RestAt(f, d) == Some(x) && !x.Nil? && ItemSize(x) == 4 * n
    requires RestAt(f, o).Some? && (o < d || o >= d + 4 * n)
    ensures RestAt(Put(f, d, Nops(n, x.next)), o).Some?
    ensures SameItem(RestAt(f, o).value, RestAt(Put(f, d, Nops(n, x.next)), o).value)
    decreases f
  {
    hide HdrSize, PropSize, Size, RestAt, Put, Nops, SameItem;
    var g := Nops(n, x.next);
    StepDown(f, d, g);
    StepDown(f, o, g);
    RestInside(f, d);
    RestInside(f, o);
    SameSelf(RestAt(f, o).value);
    if d == 0 {
      RestBehind(x, o);
      RestInNops(n, x.next, o);
    } else if o == 0 {
      SameHead(f, d, g);
    } else {
      RestOfItem(Put(f, d, g), o);
      match f
      case Nop(m) => NopKeepsOffsets(m, d - 4, n, x, o - 4);
      case Prop(_, v, m) => NopKeepsOffsets(m, d - PropSize(v), n, x, o - PropSize(v));
      case Sub(_, _, _) => NopKeepsInNode(f, d, n, x, o);
    }
  }

  /** The first item is not the one that was replaced. */
  lemma SameHead(f: Forest, d: int, g: Forest)
    requires RestAt(f, d).Some? && d != 0
    ensures RestAt(f, 0) == Some(f) && RestAt(Put(f, d, g), 0) == Some(Put(f, d, g)) && SameItem(f, Put(f, d, g))
  {
    hide HdrSize, PropSize, Size;
  }

  lemma SameSelf(x: Forest)
    ensures SameItem(x, x)
  {
  }

  lemma {:induction false} NopKeepsInNode(f: Forest, d: int, n: nat, x: Forest, o: int)
    requires f.Sub? && d != 0 && o != 0
    requires RestAt(f, d) == Some(x) && !x.Nil? && ItemSize(x) == 4 * n
    requires RestAt(f, o).Some? && (o < d || o >= d + 4 * n)
    ensures RestAt(Put(f, d, Nops(n, x.next)), o).Some?
    ensures SameItem(RestAt(f, o).value, RestAt(Put(f, d, Nops(n, x.next)), o).value)
    decreases f, 0
  {
    hide HdrSize, PropSize, Size, RestAt, Put, Nops, SameItem;
    var g := Nops(n, x.next);
    var h := HdrSize(f.name);
    StepDown(f, d, g);
    StepDown(f, o, g);
    RestOfItem(Put(f, d, g), o);
    NopsSize(n, x.next);
    SameSelf(RestAt(f, o).value);
    if d < NodeSize(f) {
      PutSize(f.kids, d - h, g);
      if o < NodeSize(f) {
        NopKeepsOffsets(f.kids, d - h, n, x, o - h);
      }
    } else if o >= NodeSize(f) {
      NopKeepsOffsets(f.next, d - NodeSize(f), n, x, o - NodeSize(f));
    }
  }

  // ---- writing in place -----------------------------------------------------------------

  /** A write of part of a value is a write of the whole value. */
  lemma PartIsWhole(s: seq<byte>, t: seq<byte>, p: int, was: seq<byte>, idx: int, v: seq<byte>)
    requires HoldsAt(s, p, was) && 0 <= idx && idx + |v| <= |was|
    requires Patched(s, t, p + idx, v)
    ensures Patched(s, t, p, was[..idx] + v + was[idx + |v|..])
  {
    var w := was[..idx] + v + was[idx + |v|..];
    var q := p + idx;
    SamePart(s, 0, t, 0, q, 0, p);
    SamePart(s, q + |v|, t, q + |v|, |s| - q - |v|, p + |w| - q - |v|, |s| - p - |w|);
    forall j | p <= j < p + |w| ensures t[j] == w[j - p] {
      if j < q {
        assert s[j] == t[j - 0 + 0];
        assert s[j] == was[j - p];
      } else if j < q + |v| {
        assert t[j] == v[j - q];
      } else {
        assert s[j] == t[j - (q + |v|) + (q + |v|)];
        assert s[j] == was[j - p];
      }
    }
  }

  /** A value with v written over it from idx on, if it fits. */
  function Overwritten(was: seq<byte>, idx: int, v: seq<byte>): (w: seq<byte>)
    ensures |w| == |was|
  {
    if 0 <= idx && idx + |v| <= |was| then was[..idx] + v + was[idx + |v|..] else was
  }

  /** Part of a value replaced; everything else of the tree stays. */
  function VPatchProp(d: Dt, name: seq<byte>, idx: int, v: seq<byte>): Dt {
    match VGet(d, name)
    case Some(was) => if 0 <= idx && idx + |v| <= |was| then VOverwrite(d, name, Overwritten(was, idx, v)) else d
    case None => d
  }

  /** Whether a 32-bit unsigned sum of offset and length is compared rightly with a
      value of plen bytes. */
  predicate GuardAgrees(plen: int, len: int, idx: int) {
    idx + len < U32_LIMIT || plen < idx + len - U32_LIMIT
  }

  /** ... which is what keeps fdt_setprop_inplace_namelen_partial inside the value. */
  lemma GuardIff(plen: int, len: int, idx: int)
    requires 0 <= plen < INT_LIMIT && 0 <= len < INT_LIMIT && 0 <= idx < U32_LIMIT
    ensures (plen < (len + idx) % U32_LIMIT <==> plen < len + idx) <==> GuardAgrees(plen, len, idx)
  {
    assert idx + len >= U32_LIMIT ==> (len + idx) % U32_LIMIT == idx + len - U32_LIMIT;
  }

  /** An offset four below 2^32 passes the guard for every value there is, although
      it is outside of it. */
  lemma GuardPassed(plen: int)
    requires 0 <= plen < INT_LIMIT
    ensures !(plen < (4 + 0xffff_fffc) % U32_LIMIT) && plen < 4 + 0xffff_fffc
  {
    GuardIff(plen, 4, 0xffff_fffc);
  }

  /** What the lookup of a property finds in the bytes and in the tree. */
  lemma ValueFound(s: seq<byte>, f: Forest, node: int, name: seq<byte>, strs: seq<byte>) returns (off: int)
    requires TreeIn(s, f) && IsNode(f, node) && NamesOk(f, strs)
    ensures off == PropOff(node + HdrSize(RestAt(f, node).value.name), RestAt(f, node).value.kids, strs, name)
    ensures var was := VGet(VKids(View(f, strs), PathOf(f, node)), name);
            && (off < 0 ==> was == None)
            && (off >= 0 ==> was.Some? && off + 12 + |was.value| <= |s| && Word(s, off + 4) == |was.value|)
  {
    hide HdrWords, PropWords, Words, Put, RestAt, TreeIn, At, PropOff, Align4, NameOk, StrAt, Word, View, VOverwrite,
      VPutKids, VKids, PathOf, VGet;
    var x := RestAt(f, node).value;
    off := PropOff(node + HdrSize(x.name), x.kids, strs, name);
    NamesOfKids(f, node, strs);
    KidsView(f, node, x.kids, strs);
    NodeRoom(s, f, node);
    PropFound(node + HdrSize(x.name), x.kids, strs, name, []);
    if off >= 0 {
      var e := off - node - HdrSize(x.name);
      PropAt(s, f, node, e);
      PropTaken(s, off, RestAt(x.kids, e).value);
      PropRoom(RestAt(x.kids, e).value);
    }
  }

  lemma PropRoom(y: Forest)
    requires y.Prop?
    ensures PropSize(y.val) >= 12 + |y.val| && Size(y.next) >= 0
  {
  }

  /** Part of a value written over in the bytes is the tree with that part replaced. */
  lemma PartWritten(s: seq<byte>, t: seq<byte>, f: Forest, node: int, name: seq<byte>, idx: int, v: seq<byte>,
        strs: seq<byte>)
    returns (k: Forest)
    requires TreeIn(s, f) && IsNode(f, node) && NamesOk(f, strs)
    requires var was := VGet(VKids(View(f, strs), PathOf(f, node)), name);
             was.Some? && 0 <= idx && idx + |v| <= |was.value|
    requires var x := RestAt(f, node).value;
             Patched(s, t, PropOff(node + HdrSize(x.name), x.kids, strs, name) + 12 + idx, v)
    ensures TreeIn(t, PutKids(f, node, k)) && NamesOk(PutKids(f, node, k), strs)
    ensures Size(PutKids(f, node, k)) == Size(f)
    ensures var d := View(RestAt(f, node).value.kids, strs);
            && View(k, strs) == VPatchProp(d, name, idx, v)
            && VGet(d, name).Some?
            && k == FSetVal(RestAt(f, node).value.kids, strs, name, Overwritten(VGet(d, name).value, idx, v))
    ensures View(PutKids(f, node, k), strs) ==
            VPutKids(View(f, strs), PathOf(f, node), VPatchProp(VKids(View(f, strs), PathOf(f, node)), name, idx, v))
  {
    hide HdrWords, PropWords, Words, Put, RestAt, TreeIn, At, PropOff, Align4, NameOk, StrAt, Word, Patched, View,
      VOverwrite, VPutKids, VKids, PathOf, VGet;
    var x := RestAt(f, node).value;
    var base := node + HdrSize(x.name);
    NamesOfKids(f, node, strs);
    KidsView(f, node, x.kids, strs);
    NodeRoom(s, f, node);
    PropFound(base, x.kids, strs, name, []);
    var e := PropOff(base, x.kids, strs, name) - base;
    var y := RestAt(x.kids, e).value;
    var whole := Overwritten(y.val, idx, v);
    PropAt(s, f, node, e);
    PropTaken(s, base + e, y);
    PartIsWhole(s, t, base + e + 12, y.val, idx, v);
    ValueWritten(s, t, f, node, e, whole);
    PropFound(base, x.kids, strs, name, whole);
    FSetIs(base, x.kids, strs, name, whole);
    k := Put(x.kids, e, Prop(y.nameoff, whole, y.next));
    PropKept(x.kids, e, y, whole, strs);
    KidsView(f, node, k, strs);
    SameBlockSize(s, f, t, PutKids(f, node, k));
  }

  /** fdt_setprop_inplace_namelen_partial, when the guard does not let it write
      outside the value. */
  method SetPropInplacePartial(b: Blob, node: int, name: seq<byte>, idx: int, val: seq<byte>, ghost f: Forest)
    returns (err: int, ghost k: Forest)
    requires Holds(b, f) && IsNode(f, node)
    requires 0 <= idx < U32_LIMIT && |val| < INT_LIMIT
    requires var was := VGet(VKids(View(f, b.Strings()), PathOf(f, node)), name);
             was.Some? ==> GuardAgrees(|was.value|, |val|, idx)
    modifies b.buf
    ensures b.Strings() == old(b.Strings()) && b.Rsv() == old(b.Rsv())
    ensures err == 0 || err == NOTFOUND || err == NOSPACE
    ensures var was := VGet(VKids(View(f, old(b.Strings())), PathOf(f, node)), name);
            && (err == NOTFOUND <==> was == None)
            && (err == 0 <==> was.Some? && idx + |val| <= |was.value|)
    ensures err != 0 ==> b.buf[..] == old(b.buf[..]) && Holds(b, f)
    ensures err == 0 ==>
      && Holds(b, PutKids(f, node, k)) && Size(PutKids(f, node, k)) == Size(f)
      && (var d := View(RestAt(f, node).value.kids, b.Strings());
          && View(k, b.Strings()) == VPatchProp(d, name, idx, val)
          && VGet(d, name).Some?
          && k == FSetVal(RestAt(f, node).value.kids, b.Strings(), name, Overwritten(VGet(d, name).value, idx, val)))
      && var was := View(f, b.Strings());
         var p := PathOf(f, node);
         View(PutKids(f, node, k), b.Strings()) == VPutKids(was, p, VPatchProp(VKids(was, p), name, idx, val))
  {
    hide HdrSize, Put, PutKids, RestAt, Region, TreeIn, PropOff, NamesOk, Word, Patched, View, VPatchProp, Overwritten,
      VPutKids, VKids, PathOf, VGet, FSetVal, Size;
    k := Nil;
    ghost var s, strs := b.StructBlock(), b.Strings();
    BlockSizes(b);
    ghost var at := ValueFound(s, f, node, name, strs);
    var off, len := GetProperty(b, node, name, f);
    if off < 0 {
      return len, k;
    }
    GuardIff(len, |val|, idx);
    if len < (|val| + idx) % U32_LIMIT {
      return NOSPACE, k;
    }
    WriteStruct(b, off + 12 + idx, val);
    k := PartWritten(s, b.StructBlock(), f, node, name, idx, val, strs);
    err := 0;
  }

  lemma PropKept(k: Forest, e: int, y: Forest, w: seq<byte>, strs: seq<byte>)
    requires RestAt(k, e) == Some(y) && y.Prop? && |w| == |y.val| && NamesOk(k, strs)
    ensures NamesOk(Put(k, e, Prop(y.nameoff, w, y.next)), strs)
    ensures Size(Put(k, e, Prop(y.nameoff, w, y.next))) == Size(k)
  {
    hide HdrWords, PropWords, Words, Put, RestAt, NameOk, StrAt;
    NamesPut(k, e, Prop(y.nameoff, w, y.next), strs);
    NamesHead(y, strs);
    SameLength(y.val, w);
    PropParts(y.nameoff, y.val, y.next);
    PropParts(y.nameoff, w, y.next);
    PutSize(k, e, Prop(y.nameoff, w, y.next));
  }

  lemma SameBlockSize(s: seq<byte>, f: Forest, t: seq<byte>, g: Forest)
    requires TreeIn(s, f) && TreeIn(t, g) && |s| == |t|
    ensures Size(f) == Size(g)
  {
  }
}
