/** fdt_rw.c: editing a blob in place. Every operation is shown to be the edit
    of the same name on the abstract tree. */
module FdtRw {
  import opened Bytes
  import opened FdtFormat
  import opened FdtTree
  import opened FdtBlob
  import opened Fdt
  import opened FdtRo
  import opened FdtEdits
  import opened FdtWip

  // ---- names of properties ------------------------------------------------------------

  ghost predicate StrKnown(strs: seq<byte>, name: seq<byte>) {
    exists q :: 0 <= q && IsStrAt(strs, q, name)
  }

  lemma StringAdded(strs: seq<byte>, name: seq<byte>)
    requires 0 !in name
    ensures IsStrAt(strs + (name + [0]), |strs|, name)
  {
    var t := strs + (name + [0]);
    forall j | |strs| <= j < |strs| + |name| ensures t[j] == name[j - |strs|] { }
  }

  /** fdt_find_add_string_ */
  method FindAddString(b: Blob, name: seq<byte>) returns (r: int, added: bool)
    requires Laid(b.h, b.buf.Length) && 0 !in name
    modifies b, b.buf
    ensures r >= 0 || r == NOSPACE
    ensures added <==> r >= 0 && !StrKnown(old(b.Strings()), name)
    ensures r < 0 <==> !StrKnown(old(b.Strings()), name)
                       && old(b.h).offStrings + old(b.h).sizeStrings + |name| + 1 > old(b.h).totalsize
    ensures !added ==> b.h == old(b.h) && b.Strings() == old(b.Strings())
    ensures added ==> b.h == old(b.h).(sizeStrings := old(b.h).sizeStrings + |name| + 1)
                          && b.Strings() == old(b.Strings()) + (name + [0])
    ensures r >= 0 ==> IsStrAt(b.Strings(), r, name)
    ensures Laid(b.h, b.buf.Length)
    ensures b.StructBlock() == old(b.StructBlock()) && b.Rsv() == old(b.Rsv())
  {
    hide Region, IsStrAt;
    var p := FindString(b.Strings(), name);
    if p >= 0 {
      return p, false;
    }
    var new_ := b.h.sizeStrings;
    BlockSizes(b);
    StringAdded(b.Strings(), name);
    var err := AppendString(b, name + [0]);
    if err != 0 {
      return err, false;
    }
    return new_, true;
  }

  // ---- properties -----------------------------------------------------------------------

  /** The property that name stands for in the item list k: one that is there
      already, at e, or a new one in front. */
  predicate PropSlot(k: Forest, strs: seq<byte>, name: seq<byte>, e: int, no: int, n: Forest) {
    || (var r := PropOff(0, k, strs, name);
        r >= 0 && e == r && RestAt(k, e).Some? && RestAt(k, e).value.Prop?
        && no == RestAt(k, e).value.nameoff && n == RestAt(k, e).value.next)
    || (PropOff(0, k, strs, name) < 0 && e == 0 && n == k)
  }

  lemma {:induction false} PropOffShift(a: int, off: int, k: Forest, strs: seq<byte>, name: seq<byte>)
    requires a >= 0 && off >= 0
    ensures var r := PropOff(a, k, strs, name);
            var q := PropOff(off, k, strs, name);
            if r < 0 then r == NOTFOUND && q == NOTFOUND else q == r - a + off && q >= off
    decreases k
  {
    hide HdrWords, PropWords, NameOk, StrAt;
    match k
    case Nop(n) => PropOffShift(a + 4, off + 4, n, strs, name);
    case Prop(_, v, n) => PropOffShift(a + PropSize(v), off + PropSize(v), n, strs, name);
    case _ =>
  }

  /** Filling the slot sets the property. */
  lemma SlotSets(k: Forest, was: seq<byte>, strs: seq<byte>, name: seq<byte>, e: int, no: int, n: Forest,
                 val: seq<byte>)
    requires NamesOk(k, was) && PropSlot(k, was, name, e, no, n)
    requires exists more :: strs == was + more
    requires PropOff(0, k, was, name) < 0 ==> IsStrAt(strs, no, name)
    ensures RestAt(k, e).Some? && NamesOk(Put(k, e, Prop(no, val, n)), strs)
    ensures View(Put(k, e, Prop(no, val, n)), strs) == VSetProp(View(k, was), name, val)
  {
    hide HdrWords, PropWords;
    var more :| strs == was + more;
    ViewExtends(k, was, more);
    PropFound(0, k, was, name, val);
    PropFound(0, k, strs, name, val);
    RestZero(k);
    if PropOff(0, k, was, name) < 0 {
      StrAtIs(strs, no, name);
    } else {
      PropSame(0, k, was, more, name);
      NamesPut(k, e, Prop(no, val, n), strs);
    }
  }

  lemma {:induction false} PropSame(off: int, k: Forest, strs: seq<byte>, more: seq<byte>, name: seq<byte>)
    requires NamesOk(k, strs)
    ensures PropOff(off, k, strs + more, name) == PropOff(off, k, strs, name)
    decreases k
  {
    hide HdrWords, PropWords, NameOk, StrAt;
    match k
    case Nop(n) => PropSame(off + 4, n, strs, more, name);
    case Prop(no, v, n) =>
      NamesHead(k, strs);
      NameExtends(no, strs, more);
      PropSame(off + PropSize(v), n, strs, more, name);
    case _ =>
  }

  /** A property whose value area changed size, after its length word is set:
      the value is whatever the bytes now are. */
  lemma Resized(s: seq<byte>, t: seq<byte>, u: seq<byte>, f: Forest, d: int, e: int, len: int)
    returns (v: seq<byte>)
    requires TreeIn(s, f) && IsNode(f, d) && 0 <= len < INT_LIMIT - 16
    requires RestAt(RestAt(f, d).value.kids, e).Some? && RestAt(RestAt(f, d).value.kids, e).value.Prop?
    requires var x := RestAt(f, d).value;
             var y := RestAt(x.kids, e).value;
             var at := d + HdrSize(x.name) + e;
             && Spliced(s, t, at + 12, Align4(|y.val|), Align4(len))
             && Patched(t, u, at + 4, Be32(len))
    requires |u| < INT_LIMIT
    ensures |v| == len
    ensures var x := RestAt(f, d).value;
            var y := RestAt(x.kids, e).value;
            TreeIn(u, PutKids(f, d, Put(x.kids, e, Prop(y.nameoff, v, y.next))))
  {
    hide HdrWords, Words, Put, RestAt, Patched, Spliced, PropHdr, TreeIn, IsTag, HoldsAt, Word, At;
    var x := RestAt(f, d).value;
    var y := RestAt(x.kids, e).value;
    var at := d + HdrSize(x.name) + e;
    PropAt(s, f, d, e);
    SplicedLength(s, t, at + 12, Align4(|y.val|), Align4(len));
    PatchedSizes(t, u, at + 4, Be32(len));
    PropSizes(y.val);
    PropParts(y.nameoff, y.val, y.next);
    SizeNonNeg(y.next);
    v := u[at + 12..at + 12 + len];
    PropSizes(v);
    ResizedSplice(s, t, u, at, y, v);
    ResizedAt(s, t, u, at, y, v);
    EditKids(s, u, f, d, e, Prop(y.nameoff, v, y.next));
  }

  lemma ResizedSplice(s: seq<byte>, t: seq<byte>, u: seq<byte>, at: int, y: Forest, v: seq<byte>)
    requires y.Prop? && at >= 0 && at + Size(y) <= |s| && |v| < INT_LIMIT - 16
    requires Spliced(s, t, at + 12, Align4(|y.val|), Align4(|v|))
    requires Patched(t, u, at + 4, Be32(|v|))
    ensures Spliced(s, u, at, PropSize(y.val), PropSize(v))
    ensures Spliced(s, u, at, Size(y), Size(Prop(y.nameoff, v, y.next)))
  {
    hide HdrWords, Patched, Spliced, Words, Align4;
    SizeNonNeg(y.next);
    PropSizes(y.val);
    PropSizes(v);
    PropParts(y.nameoff, y.val, y.next);
    PropParts(y.nameoff, v, y.next);
    SplicedBefore(s, t, at + 12, Align4(|y.val|), Align4(|v|), 12);
    SplicedPatched(s, t, u, at, PropSize(y.val), PropSize(v), at + 4, Be32(|v|));
    SplicedWiden(s, u, at, PropSize(y.val), PropSize(v), Size(y.next));
  }

  lemma SplicedBefore(s: seq<byte>, t: seq<byte>, at: int, was: int, now: int, e: int)
    requires Spliced(s, t, at, was, now) && 0 <= e <= at
    ensures Spliced(s, t, at - e, was + e, now + e)
  {
    SamePart(s, 0, t, 0, at, 0, at - e);
  }

  lemma ResizedAt(s: seq<byte>, t: seq<byte>, u: seq<byte>, at: int, y: Forest, v: seq<byte>)
    requires y.Prop? && at >= 0 && At(s, at, y) && at + Size(y) <= |s| && |v| < INT_LIMIT - 16
    requires Spliced(s, t, at + 12, Align4(|y.val|), Align4(|v|))
    requires Patched(t, u, at + 4, Be32(|v|))
    requires at + PropSize(v) <= |u| && v == u[at + 12..at + 12 + |v|]
    ensures At(u, at, Prop(y.nameoff, v, y.next))
  {
    hide HdrWords, PropWords, Patched, Spliced, Words, Align4, At, Word, HoldsAt;
    ResizedSplice(s, t, u, at, y, v);
    PropSizes(y.val);
    PropSizes(v);
    PropTaken(s, at, y);
    SuffixForest(s, u, at, PropSize(y.val), PropSize(v), at + PropSize(y.val), y.next);
    SplicedWord(s, t, at + 12, Align4(|y.val|), Align4(|v|), at);
    SplicedWord(s, t, at + 12, Align4(|y.val|), Align4(|v|), at + 8);
    PatchedSizes(t, u, at + 4, Be32(|v|));
    PatchedWord(t, u, at + 4, Be32(|v|), at);
    PatchedWord(t, u, at + 4, Be32(|v|), at + 8);
    HeldWord(u, at + 4, Be32(|v|), 0, |v|);
    HeldSlice(u, at + 12, |v|);
    PropAssembled(u, at, y.nameoff, v, y.next);
  }

  lemma SplicedWord(s: seq<byte>, t: seq<byte>, at: int, was: int, now: int, q: int)
    requires Spliced(s, t, at, was, now) && 0 <= q && q + 4 <= at && at <= |s|
    ensures q + 4 <= |t| && Word(t, q) == Word(s, q)
  {
    SamePart(s, 0, t, 0, at, q, 4);
    SameWord(s, q, t, q);
  }

  /** A new property in front of a node's items. */
  lemma Added(s: seq<byte>, t: seq<byte>, u: seq<byte>, f: Forest, d: int, no: int, len: int)
    returns (v: seq<byte>)
    requires TreeIn(s, f) && IsNode(f, d) && 0 <= len < INT_LIMIT - 16 && 0 <= no < U32_LIMIT
    requires var at := d + HdrSize(RestAt(f, d).value.name);
             && Spliced(s, t, at, 0, 12 + Align4(len))
             && Patched(t, u, at, PropStruct(len, no))
    requires |u| < INT_LIMIT
    ensures |v| == len
    ensures var k := RestAt(f, d).value.kids;
            TreeIn(u, PutKids(f, d, Put(k, 0, Prop(no, v, k))))
  {
    hide HdrWords, PropWords, Words, Put, RestAt, Patched, Spliced, TreeIn, HoldsAt, Word, At, PropStruct, Align4;
    var x := RestAt(f, d).value;
    var k := x.kids;
    var at := d + HdrSize(x.name);
    RestZero(k);
    PropAt(s, f, d, 0);
    SplicedLength(s, t, at, 0, 12 + Align4(len));
    PatchedSizes(t, u, at, PropStruct(len, no));
    v := u[at + 12..at + 12 + len];
    PropSizes(v);
    PropParts(no, v, k);
    SplicedPatched(s, t, u, at, 0, PropSize(v), at, PropStruct(len, no));
    SplicedWiden(s, u, at, 0, PropSize(v), Size(k));
    SuffixForest(s, u, at, 0, PropSize(v), at, k);
    PropStructWords(u, at, len, no);
    HeldSlice(u, at + 12, len);
    PropAssembled(u, at, no, v, k);
    EditKids(s, u, f, d, 0, Prop(no, v, k));
  }

  // ---- fdt_setprop ------------------------------------------------------------------------

  /** fdt_resize_property_ */
  method ResizeProperty(b: Blob, node: int, name: seq<byte>, len: int, ghost f: Forest)
    returns (err: int, off: int, ghost e: int, ghost v: seq<byte>)
    requires Holds(b, f) && IsNode(f, node) && 0 <= len < INT_LIMIT - 16
    modifies b, b.buf
    ensures err == 0 || err == NOSPACE || err == NOTFOUND
    ensures Laid(b.h, b.buf.Length) && b.h.totalsize == old(b.h).totalsize
    ensures b.Strings() == old(b.Strings()) && b.Rsv() == old(b.Rsv())
    ensures var k := RestAt(f, node).value.kids;
            && (err == NOTFOUND <==> PropOff(0, k, b.Strings(), name) < 0)
            && (err != NOTFOUND ==>
                  && e == PropOff(0, k, b.Strings(), name)
                  && RestAt(k, e).Some? && RestAt(k, e).value.Prop?
                  && (err == 0 <==>
                      old(b.h).offStrings + old(b.h).sizeStrings - Align4(|RestAt(k, e).value.val|) + Align4(len)
                      <= b.h.totalsize))
    ensures err != 0 ==> b.h == old(b.h) && b.StructBlock() == old(b.StructBlock())
    ensures err == 0 ==>
      b.h.offStrings + b.h.sizeStrings == old(b.h).offStrings + old(b.h).sizeStrings
        - Align4(|RestAt(RestAt(f, node).value.kids, e).value.val|) + Align4(len)
    ensures err == 0 ==>
      && |v| == len
      && off == node + HdrSize(RestAt(f, node).value.name) + e
      && var k := RestAt(f, node).value.kids;
      && var y := RestAt(k, e).value;
      && TreeIn(b.StructBlock(), PutKids(f, node, Put(k, e, Prop(y.nameoff, v, y.next))))
  {
    hide HdrWords, PropWords, Words, Put, RestAt, Region, TreeIn, At, Patched, Spliced, PropOff, Align4, Word;
    ghost var s := b.StructBlock();
    ghost var x := RestAt(f, node).value;
    var oldlen;
    e, v := 0, [];
    FindSlot(b, f, node, name);
    off, oldlen := GetProperty(b, node, name, f);
    if off < 0 {
      return oldlen, off, 0, [];
    }
    e := off - node - HdrSize(x.name);
    ghost var y := RestAt(x.kids, e).value;
    PropAt(s, f, node, e);
    PropTaken(s, off, y);
    PropParts(y.nameoff, y.val, y.next);
    PropSizes(y.val);
    SizeNonNeg(y.next);
    BlockSizes(b);
    err := SpliceStruct(b, off + 12, Align4(oldlen), Align4(len));
    if err != 0 {
      return;
    }
    ghost var t := b.StructBlock();
    BlockSizes(b);
    WriteStruct(b, off + 4, Be32(len));
    BlockSizes(b);
    v := Resized(s, t, b.StructBlock(), f, node, e, len);
  }

  /** Where the lookup in a blob and the slot in the item list agree. */
  lemma FindSlot(b: Blob, f: Forest, node: int, name: seq<byte>)
    requires Holds(b, f) && IsNode(f, node)
    ensures var x := RestAt(f, node).value;
            var r := PropOff(0, x.kids, b.Strings(), name);
            && NamesOk(x.kids, b.Strings()) && node >= 0
            && (r < 0 ==> r == NOTFOUND && PropOff(node + HdrSize(x.name), x.kids, b.Strings(), name) == NOTFOUND)
            && (r >= 0 ==>
                  && PropOff(node + HdrSize(x.name), x.kids, b.Strings(), name) == node + HdrSize(x.name) + r
                  && RestAt(x.kids, r).Some? && RestAt(x.kids, r).value.Prop?)
  {
    hide HdrWords, PropWords, Words, Put, RestAt, Region, TreeIn, At, PropOff, NameOk, StrAt, Laid;
    var x := RestAt(f, node).value;
    RestAtBounds(f, node);
    NamesPut(f, node, f, b.Strings());
    PropOffShift(0, node + HdrSize(x.name), x.kids, b.Strings(), name);
    PropFound(0, x.kids, b.Strings(), name, []);
  }

  /** fdt_add_property_: the string first, then the room in the structure block;
      the string is taken back when that fails. */
  method AddProperty(b: Blob, node: int, name: seq<byte>, len: int, ghost f: Forest)
    returns (err: int, off: int, no: int, ghost v: seq<byte>)
    requires Holds(b, f) && IsNode(f, node) && 0 <= len < INT_LIMIT - 16 && 0 !in name
    modifies b, b.buf
    ensures err == 0 || err == NOSPACE
    ensures Laid(b.h, b.buf.Length) && b.h.totalsize == old(b.h).totalsize && b.Rsv() == old(b.Rsv())
    ensures err == 0 <==>
      old(b.h).offStrings + old(b.h).sizeStrings
        + (if StrKnown(old(b.Strings()), name) then 0 else |name| + 1) + 12 + Align4(len) <= b.h.totalsize
    ensures err != 0 ==>
      b.h == old(b.h) && b.StructBlock() == old(b.StructBlock()) && b.Strings() == old(b.Strings())
    ensures err == 0 ==>
      b.h.offStrings + b.h.sizeStrings == old(b.h).offStrings + old(b.h).sizeStrings
        + (if StrKnown(old(b.Strings()), name) then 0 else |name| + 1) + 12 + Align4(len)
    ensures err == 0 ==>
      && |v| == len && 0 <= no < U32_LIMIT
      && b.Strings() == old(b.Strings()) + (if StrKnown(old(b.Strings()), name) then [] else name + [0])
      && IsStrAt(b.Strings(), no, name)
      && off == node + HdrSize(RestAt(f, node).value.name)
      && var k := RestAt(f, node).value.kids;
      && TreeIn(b.StructBlock(), PutKids(f, node, Put(k, 0, Prop(no, v, k))))
  {
    hide HdrWords, PropWords, Words, Put, RestAt, Region, TreeIn, At, Patched, Spliced, PropOff, Align4, Word,
      IsStrAt, NodeCheck, StrKnown, Laid, SpliceErr, PropStruct, PutKids;
    ghost var s := b.StructBlock();
    ghost var strs := b.Strings();
    off, no, v := 0, 0, [];
    NodeRoom(s, f, node);
    BlockSizes(b);
    var next := CheckNodeOffset(b, node);
    if next < 0 {
      return next, off, no, v;
    }
    var added;
    no, added := FindAddString(b, name);
    if no < 0 {
      return no, off, 0, v;
    }
    off := next;
    StrInBlock(b.Strings(), no, name);
    BlockSizes(b);
    InsertErr(b.h, b.buf.Length, off, 12 + Align4(len));
    PropStructSize(len, no);
    err := SpliceStruct(b, off, 0, 12 + Align4(len));
    if err != 0 {
      if added {
        DelLastString(b, name, strs);
      }
      return;
    }
    ghost var t := b.StructBlock();
    BlockSizes(b);
    SplicedLength(s, t, off, 0, 12 + Align4(len));
    WriteStruct(b, off, PropStruct(len, no));
    BlockSizes(b);
    v := Added(s, t, b.StructBlock(), f, node, no, len);
  }

  lemma InsertErr(h: Header, cap: int, at: int, n: int)
    requires Laid(h, cap) && 0 <= at <= h.sizeStruct && 0 <= n
    ensures SpliceErr(h, h.offStruct + at, 0, n) ==
            if h.offStrings + h.sizeStrings + n > h.totalsize then NOSPACE else 0
  {
  }

  lemma PropStructSize(len: int, no: int)
    requires 0 <= len < U32_LIMIT && 0 <= no < U32_LIMIT
    ensures |PropStruct(len, no)| == 12 && 0 <= Align4(len)
  {
  }

  lemma StrInBlock(strs: seq<byte>, no: int, name: seq<byte>)
    requires IsStrAt(strs, no, name)
    ensures 0 <= no < |strs|
  {
  }

  /** fdt_del_last_string_ */
  method DelLastString(b: Blob, name: seq<byte>, ghost strs: seq<byte>)
    requires Laid(b.h, b.buf.Length) && b.Strings() == strs + (name + [0])
    modifies b
    ensures b.h == old(b.h).(sizeStrings := old(b.h).sizeStrings - |name| - 1)
    ensures Laid(b.h, b.buf.Length) && b.Strings() == strs
    ensures b.StructBlock() == old(b.StructBlock()) && b.Rsv() == old(b.Rsv())
  {
    BlockSizes(b);
    ghost var all := b.Strings();
    b.h := b.h.(sizeStrings := b.h.sizeStrings - |name| - 1);
    assert b.Strings() == all[..|strs|];
  }

  /** Bytes by which fdt_setprop grows the used part of the blob. */
  ghost function SetPropGrowth(k: Forest, strs: seq<byte>, name: seq<byte>, len: int): int
    requires NamesOk(k, strs)
  {
    var e := PropOff(0, k, strs, name);
    if e >= 0 then
      PropFound(0, k, strs, name, []);
      Align4(len) - Align4(|RestAt(k, e).value.val|)
    else (if StrKnown(strs, name) then 0 else |name| + 1) + 12 + Align4(len)
  }

  /** fdt_setprop_placeholder: make room for a value of len bytes. */
  method SetPropPlaceholder(b: Blob, node: int, name: seq<byte>, len: int, ghost f: Forest)
    returns (err: int, off: int, ghost e: int, ghost no: int, ghost n: Forest, ghost v: seq<byte>)
    requires Holds(b, f) && IsNode(f, node) && 0 <= len < INT_LIMIT - 16 && 0 !in name
    modifies b, b.buf
    ensures err == 0 || err == NOSPACE
    ensures Laid(b.h, b.buf.Length) && b.h.totalsize == old(b.h).totalsize && b.Rsv() == old(b.Rsv())
    ensures NamesOk(RestAt(f, node).value.kids, old(b.Strings()))
    ensures err == 0 <==>
      old(b.h).offStrings + old(b.h).sizeStrings
        + SetPropGrowth(RestAt(f, node).value.kids, old(b.Strings()), name, len) <= b.h.totalsize
    ensures err != 0 ==>
      b.h == old(b.h) && b.StructBlock() == old(b.StructBlock()) && b.Strings() == old(b.Strings())
    ensures err == 0 ==>
      b.h.offStrings + b.h.sizeStrings == old(b.h).offStrings + old(b.h).sizeStrings
        + SetPropGrowth(RestAt(f, node).value.kids, old(b.Strings()), name, len)
    ensures err == 0 ==>
      && |v| == len
      && (exists more :: b.Strings() == old(b.Strings()) + more)
      && var k := RestAt(f, node).value.kids;
      && PropSlot(k, old(b.Strings()), name, e, no, n)
      && (PropOff(0, k, old(b.Strings()), name) < 0 ==> IsStrAt(b.Strings(), no, name))
      && off == node + HdrSize(RestAt(f, node).value.name) + e
      && TreeIn(b.StructBlock(), PutKids(f, node, Put(k, e, Prop(no, v, n))))
  {
    hide HdrWords, PropWords, Words, Put, RestAt, Region, TreeIn, At, PropOff, Align4, IsStrAt, NameOk, StrAt;
    ghost var k := RestAt(f, node).value.kids;
    ghost var strs := b.Strings();
    FindSlot(b, f, node, name);
    err, off, e, v := ResizeProperty(b, node, name, len, f);
    if err == NOTFOUND {
      err, off, no, v := AddProperty(b, node, name, len, f);
      e, n := 0, k;
    } else {
      no, n := RestAt(k, e).value.nameoff, RestAt(k, e).value.next;
      assert b.Strings() == strs + [];
    }
  }

  /** An item of a node after it was put there. */
  lemma SlotFilled(s: seq<byte>, f: Forest, node: int, e: int, x: Forest, y: Forest)
    requires IsNode(f, node) && RestAt(RestAt(f, node).value.kids, e).Some? && x.Prop?
    requires TreeIn(s, PutKids(f, node, Put(RestAt(f, node).value.kids, e, x)))
    ensures var k := RestAt(f, node).value.kids;
            var g := PutKids(f, node, Put(k, e, x));
            && IsNode(g, node)
            && RestAt(g, node).value.name == RestAt(f, node).value.name
            && RestAt(g, node).value.kids == Put(k, e, x)
            && RestAt(Put(k, e, x), e) == Some(x)
            && PutKids(g, node, Put(Put(k, e, x), e, y)) == PutKids(f, node, Put(k, e, y))
            && node >= 0 && e >= 0
            && node + HdrSize(RestAt(f, node).value.name) + e + 12 + |x.val| <= |s|
  {
    hide HdrWords, PropWords, Words, Put, RestAt, TreeIn, At;
    var k := RestAt(f, node).value.kids;
    PutKidsTwice(f, node, Put(k, e, x), Put(k, e, y));
    PutGet(k, e, x);
    PutPut(k, e, x, y);
    PropAt(s, PutKids(f, node, Put(k, e, x)), node, e);
    PropParts(x.nameoff, x.val, x.next);
    SizeNonNeg(x.next);
  }

  lemma SetMeaning(f: Forest, node: int, k: Forest, strs: seq<byte>, more: seq<byte>, name: seq<byte>, val: seq<byte>)
    requires IsNode(f, node) && NamesOk(f, strs) && NamesOk(k, strs + more)
    requires View(k, strs + more) == VSetProp(View(RestAt(f, node).value.kids, strs), name, val)
    ensures NamesOk(PutKids(f, node, k), strs + more)
    ensures var was, p := View(f, strs), PathOf(f, node);
            View(PutKids(f, node, k), strs + more) == VPutKids(was, p, VSetProp(VKids(was, p), name, val))
  {
    hide HdrWords, PropWords, Words, Put, RestAt, PathOf, View, VSetProp, VPutKids, VKids, NamesOk;
    ViewExtends(f, strs, more);
    KidsView(f, node, k, strs + more);
    NamesPut(f, node, f, strs);
    NamesOfKids(f, node, strs);
    ViewExtends(RestAt(f, node).value.kids, strs, more);
  }

  /** fdt_setprop: the tree after it is the tree before it with that node's
      property set, or the call fails for want of space and nothing changed. */
  method SetProp(b: Blob, node: int, name: seq<byte>, val: seq<byte>, ghost f: Forest)
    returns (err: int, ghost k: Forest)
    requires RwProbe(b.h) == 0 ==> Holds(b, f) && IsNode(f, node)
    requires |val| < INT_LIMIT - 16 && 0 !in name
    modifies b, b.buf
    ensures RwProbe(old(b.h)) != 0 ==> err == RwProbe(old(b.h)) && b.h == old(b.h) && b.buf[..] == old(b.buf[..])
    ensures RwProbe(old(b.h)) == 0 ==>
      && (err == 0 || err == NOSPACE)
      && NamesOk(RestAt(f, node).value.kids, old(b.Strings()))
      && (err == 0 <==>
          old(b.h).offStrings + old(b.h).sizeStrings
            + SetPropGrowth(RestAt(f, node).value.kids, old(b.Strings()), name, |val|) <= b.h.totalsize)
      && b.Rsv() == old(b.Rsv()) && b.h.totalsize == old(b.h).totalsize
    ensures RwProbe(old(b.h)) == 0 && err != 0 ==>
      b.h == old(b.h) && b.StructBlock() == old(b.StructBlock()) && b.Strings() == old(b.Strings())
    ensures RwProbe(old(b.h)) == 0 && err == 0 ==>
      && b.h.offStrings + b.h.sizeStrings == old(b.h).offStrings + old(b.h).sizeStrings
           + SetPropGrowth(RestAt(f, node).value.kids, old(b.Strings()), name, |val|)
      && Holds(b, PutKids(f, node, k))
      && (exists more :: b.Strings() == old(b.Strings()) + more)
      && View(k, b.Strings()) == VSetProp(View(RestAt(f, node).value.kids, old(b.Strings())), name, val)
      && var was := View(f, old(b.Strings()));
         var p := PathOf(f, node);
         View(PutKids(f, node, k), b.Strings()) == VPutKids(was, p, VSetProp(VKids(was, p), name, val))
  {
    hide HdrWords, PropWords, Words, Put, RestAt, Region, TreeIn, At, PropOff, Align4, IsStrAt, NameOk, StrAt,
      Patched, View, VSetProp, VPutKids, VKids, PathOf, VAt, VPut, SetPropGrowth, PropSlot, RwProbe;
    k := Nil;
    var p := RwProbe(b.h);
    if p != 0 {
      return p, k;
    }
    ghost var strs := b.Strings();
    ghost var kids := RestAt(f, node).value.kids;
    ghost var e, no, n, v;
    var off;
    NodeRoom(b.StructBlock(), f, node);
    err, off, e, no, n, v := SetPropPlaceholder(b, node, name, |val|, f);
    if err != 0 {
      return;
    }
    ghost var more :| b.Strings() == strs + more;
    ghost var g := PutKids(f, node, Put(kids, e, Prop(no, v, n)));
    ghost var s := b.StructBlock();
    SlotSets(kids, strs, b.Strings(), name, e, no, n, val);
    SlotFilled(s, f, node, e, Prop(no, v, n), Prop(no, val, n));
    BlockSizes(b);
    if |val| != 0 {
      WriteStruct(b, off + 12, val);
      ValueWritten(s, b.StructBlock(), g, node, e, val);
    }
    k := Put(kids, e, Prop(no, val, n));
    SetMeaning(f, node, k, strs, more, name, val);
  }

  // ---- removing and adding -------------------------------------------------------------------

  /** Removing n bytes, which are exactly the first items of x. */
  lemma Removed(s: seq<byte>, t: seq<byte>, at: int, n: int, x: Forest, rest: Forest)
    requires At(s, at, x) && at >= 0 && n >= 0 && Size(x) == n + Size(rest)
    requires At(s, at + n, rest) && at + Size(x) <= |s|
    requires Spliced(s, t, at, n, 0)
    ensures Spliced(s, t, at, Size(x), Size(rest)) && At(t, at, rest)
  {
    hide Words, Spliced, At;
    SizeNonNeg(rest);
    SplicedWiden(s, t, at, n, 0, Size(rest));
    SuffixForest(s, t, at, n, 0, at + n, rest);
  }

  /** fdt_delprop */
  method DelProp(b: Blob, node: int, name: seq<byte>, ghost f: Forest) returns (err: int, ghost k: Forest)
    requires RwProbe(b.h) == 0 ==> Holds(b, f) && IsNode(f, node)
    modifies b, b.buf
    ensures RwProbe(old(b.h)) != 0 ==> err == RwProbe(old(b.h)) && b.h == old(b.h) && b.buf[..] == old(b.buf[..])
    ensures RwProbe(old(b.h)) == 0 ==>
      && (err == 0 || err == NOTFOUND)
      && (err == 0 <==> VGet(VKids(View(f, old(b.Strings())), PathOf(f, node)), name).Some?)
      && b.Strings() == old(b.Strings()) && b.Rsv() == old(b.Rsv()) && b.h.totalsize == old(b.h).totalsize
    ensures RwProbe(old(b.h)) == 0 && err != 0 ==> b.h == old(b.h) && b.buf[..] == old(b.buf[..])
    ensures RwProbe(old(b.h)) == 0 && err == 0 ==>
      && Holds(b, PutKids(f, node, k))
      && View(k, b.Strings()) == VDelProp(View(RestAt(f, node).value.kids, b.Strings()), name)
      && var was := View(f, b.Strings());
         var p := PathOf(f, node);
         View(PutKids(f, node, k), b.Strings()) == VPutKids(was, p, VDelProp(VKids(was, p), name))
  {
    hide HdrWords, PropWords, Words, Put, RestAt, Region, TreeIn, At, PropOff, Align4, NameOk, StrAt, Word,
      Patched, Spliced, View, VDelProp, VPutKids, VKids, PathOf, VAt, VPut, VGet, RwProbe;
    k := Nil;
    var p := RwProbe(b.h);
    if p != 0 {
      return p, k;
    }
    ghost var s, strs := b.StructBlock(), b.Strings();
    ghost var x := RestAt(f, node).value;
    FindSlot(b, f, node, name);
    PropFound(0, x.kids, strs, name, []);
    KidsView(f, node, x.kids, strs);
    var off, len := GetProperty(b, node, name, f);
    if off < 0 {
      return len, k;
    }
    ghost var e := off - node - HdrSize(x.name);
    ghost var y := RestAt(x.kids, e).value;
    PropAt(s, f, node, e);
    PropTaken(s, off, y);
    PropParts(y.nameoff, y.val, y.next);
    PropSizes(y.val);
    SizeNonNeg(y.next);
    BlockSizes(b);
    err := SpliceStruct(b, off, 12 + Align4(len), 0);
    if err != 0 {
      return;
    }
    k := Put(x.kids, e, y.next);
    Removed(s, b.StructBlock(), off, 12 + Align4(len), y, y.next);
    BlockSizes(b);
    EditKids(s, b.StructBlock(), f, node, e, y.next);
    NamesPut(x.kids, e, y.next, strs);
    KidsView(f, node, k, strs);
  }

  /** fdt_del_node, for any node; without its root a block holds no tree. */
  method DelNode(b: Blob, node: int, ghost f: Forest) returns (err: int)
    requires RwProbe(b.h) == 0 ==> Holds(b, f) && IsNode(f, node)
    modifies b, b.buf
    ensures RwProbe(old(b.h)) != 0 ==> err == RwProbe(old(b.h)) && b.h == old(b.h) && b.buf[..] == old(b.buf[..])
    ensures RwProbe(old(b.h)) == 0 ==>
      && err == 0
      && var x := RestAt(f, node).value;
      && b.h == old(b.h).(sizeStruct := b.h.sizeStruct, offStrings := b.h.offStrings)
      && b.h.sizeStruct == old(b.h).sizeStruct - NodeSize(x)
      && b.h.offStrings == old(b.h).offStrings - NodeSize(x)
      && Spliced(old(b.StructBlock()), b.StructBlock(), node, NodeSize(x), 0)
      && b.Strings() == old(b.Strings()) && b.Rsv() == old(b.Rsv())
      && At(b.StructBlock(), 0, Put(f, node, x.next))
      && View(Put(f, node, x.next), b.Strings())
         == VPut(View(f, b.Strings()), PathOf(f, node), View(x.next, b.Strings()))
      && (node != 0 ==> Holds(b, Put(f, node, x.next)))
  {
    hide HdrWords, PropWords, Words, Put, RestAt, Region, TreeIn, At, PropOff, NameOk, StrAt, Word,
      Spliced, View, PathOf, VPut, HdrSize;
    var p := RwProbe(b.h);
    if p != 0 {
      return p;
    }
    ghost var s := b.StructBlock();
    ghost var x := RestAt(f, node).value;
    NodeBytes(s, f, node);
    SizeNonNeg(x.next);
    BlockSizes(b);
    var endoffset := NodeEndOffset(b, node, f);
    if endoffset < 0 {
      return endoffset;
    }
    err := SpliceStruct(b, node, endoffset - node, 0);
    if err != 0 {
      return;
    }
    BlockSizes(b);
    Removed(s, b.StructBlock(), node, NodeSize(x), x, x.next);
    TreeAt(s, f);
    SplicePut(s, b.StructBlock(), 0, f, node, x.next);
    ViewPut(f, node, x.next, b.Strings());
    if node != 0 {
      WithoutNode(s, b.StructBlock(), f, node, x.next);
      NamesPut(f, node, x.next, b.Strings());
      NamesTail(x, b.Strings());
    }
  }

  lemma NamesTail(x: Forest, strs: seq<byte>)
    requires x.Sub? && NamesOk(x, strs)
    ensures NamesOk(x.next, strs)
  {
  }

  // ---- fdt_add_subnode -------------------------------------------------------------------------

  /** BEGIN_NODE, the name in a zero-filled area, END_NODE; s is the structure
      block from before room was made. */
  method WriteEmptyNode(b: Blob, off: int, name: seq<byte>, ghost s: seq<byte>)
    requires Laid(b.h, b.buf.Length) && off >= 0 && 0 !in name
    requires off + HdrSize(name) + 4 <= b.h.sizeStruct
    requires Spliced(s, b.StructBlock(), off, 0, HdrSize(name) + 4)
    modifies b.buf
    ensures b.Strings() == old(b.Strings()) && b.Rsv() == old(b.Rsv())
    ensures Spliced(s, b.StructBlock(), off, 0, HdrSize(name) + 4)
    ensures NodeHdr(b.StructBlock(), off, name) && IsTag(b.StructBlock(), off + HdrSize(name), END_NODE)
  {
    hide Spliced, Patched, HoldsAt, NodeHdr, IsTag, Region, HdrWords, Be32, Align4;
    var n := HdrSize(name) + 4;
    NameArea(name);
    BlockSizes(b);
    ghost var t0 := b.StructBlock();
    WriteStruct(b, off, Be32(BEGIN_NODE));
    ghost var t1 := b.StructBlock();
    var zeros: seq<byte> := seq(HdrSize(name) - 4, _ => 0);
    WriteStruct(b, off + 4, zeros);
    ghost var t2 := b.StructBlock();
    WriteStruct(b, off + 4, name);
    ghost var t3 := b.StructBlock();
    WriteStruct(b, off + n - 4, Be32(END_NODE));
    ghost var t4 := b.StructBlock();
    EmptyNodeWritten(s, t0, t1, t2, t3, t4, off, name, zeros);
  }

  lemma NameArea(name: seq<byte>)
    ensures HdrSize(name) - 4 == Align4(|name| + 1) >= |name| + 1
  {
  }

  lemma EmptyNodeWritten(s: seq<byte>, t0: seq<byte>, t1: seq<byte>, t2: seq<byte>, t3: seq<byte>, t4: seq<byte>,
                         off: int, name: seq<byte>, zeros: seq<byte>)
    requires off >= 0 && 0 !in name && Spliced(s, t0, off, 0, HdrSize(name) + 4)
    requires |zeros| == HdrSize(name) - 4 >= |name| + 1 && forall i :: 0 <= i < |zeros| ==> zeros[i] == 0
    requires Patched(t0, t1, off, Be32(BEGIN_NODE)) && Patched(t1, t2, off + 4, zeros)
    requires Patched(t2, t3, off + 4, name) && Patched(t3, t4, off + HdrSize(name), Be32(END_NODE))
    ensures Spliced(s, t4, off, 0, HdrSize(name) + 4)
    ensures NodeHdr(t4, off, name) && IsTag(t4, off + HdrSize(name), END_NODE)
  {
    hide Spliced, Patched, HoldsAt, NodeHdr, IsTag, HdrWords, Be32;
    var n := HdrSize(name) + 4;
    SplicedPatched(s, t0, t1, off, 0, n, off, Be32(BEGIN_NODE));
    SplicedPatched(s, t1, t2, off, 0, n, off + 4, zeros);
    SplicedPatched(s, t2, t3, off, 0, n, off + 4, name);
    SplicedPatched(s, t3, t4, off, 0, n, off + HdrSize(name), Be32(END_NODE));
    PatchedSizes(t0, t1, off, Be32(BEGIN_NODE));
    PatchedSizes(t1, t2, off + 4, zeros);
    PatchedSizes(t2, t3, off + 4, name);
    PatchedSizes(t3, t4, off + HdrSize(name), Be32(END_NODE));
    PatchedHeld(t1, t2, off + 4, zeros, off, Be32(BEGIN_NODE));
    PatchedHeld(t2, t3, off + 4, name, off, Be32(BEGIN_NODE));
    PatchedHeld(t3, t4, off + HdrSize(name), Be32(END_NODE), off, Be32(BEGIN_NODE));
    assert [0] == zeros[|name|..|name| + 1];
    PatchedSmaller(t1, t2, |name|, [0], off + 4, zeros);
    PatchedHeld(t2, t3, off + 4, name, off + 4 + |name|, [0]);
    PatchedHeld(t3, t4, off + HdrSize(name), Be32(END_NODE), off + 4 + |name|, [0]);
    PatchedHeld(t3, t4, off + HdrSize(name), Be32(END_NODE), off + 4, name);
    NamedNode(t4, off, name);
    HeldTag(t4, off + HdrSize(name), END_NODE);
  }

  /** The skip loop of fdt_add_subnode_namelen. */
  method SkipProperties(b: Blob, parent: int, ghost f: Forest) returns (off: int)
    requires Holds(b, f) && IsNode(f, parent)
    ensures var x := RestAt(f, parent).value; off == AddOff(parent + HdrSize(x.name), x.kids)
  {
    hide Point, At, NodeHdr, HdrWords, PropWords, Words, RestAt, Region, TagAt, Seek, AddOff, TreeIn, NodeCheck;
    ghost var s := b.StructBlock();
    ghost var x := RestAt(f, parent).value;
    ghost var goal := AddOff(parent + HdrSize(x.name), x.kids);
    ghost var k := x.kids;
    NodeRoom(s, f, parent);
    KidsPoint(s, f, parent);
    NodeCheckTag(s, parent);
    var tag, next := NextTag(b, parent);
    while true
      invariant next >= 0 && Point(s, next, k, Edge) && AddOff(next, k) == goal
      decreases k
    {
      off := next;
      AddStep(s, off, k);
      tag, next := NextTag(b, off);
      if tag != PROP && tag != NOP {
        return;
      }
      k := k.next;
    }
  }

  lemma NodeCheckTag(s: seq<byte>, off: int)
    requires NodeCheck(s, off) >= 0
    ensures off >= 0 && TagAt(s, off).next == NodeCheck(s, off)
  {
  }

  lemma AddStep(s: seq<byte>, off: int, k: Forest)
    requires Point(s, off, k, Edge) && |s| < INT_LIMIT
    ensures off >= 0 && TagAt(s, off).next > off
    ensures k.Nop? || k.Prop? <==> TagAt(s, off).tag == PROP || TagAt(s, off).tag == NOP
    ensures k.Nop? || k.Prop? ==>
      Point(s, TagAt(s, off).next, k.next, Edge) && AddOff(TagAt(s, off).next, k.next) == AddOff(off, k)
    ensures k.Nil? || k.Sub? ==> AddOff(off, k) == off
  {
    hide HdrWords, PropWords, At, TagAt, Point;
    PointTag(s, off, k, Edge);
    PointItems(s, off, k);
  }

  lemma PointItems(s: seq<byte>, off: int, k: Forest)
    requires Point(s, off, k, Edge) && |s| < INT_LIMIT
    ensures k.Nop? ==> TagAt(s, off).next == off + 4
    ensures k.Prop? ==> TagAt(s, off).next == off + PropSize(k.val)
  {
    TagAtForest(s, off, k);
  }

  /** fdt_add_subnode: the new node is the first child, at the returned offset. */
  method AddSubnode(b: Blob, parent: int, name: seq<byte>, ghost f: Forest) returns (r: int, ghost k: Forest)
    requires RwProbe(b.h) == 0 ==> Holds(b, f) && IsNode(f, parent)
    requires 0 !in name && |name| < INT_LIMIT - 16
    modifies b, b.buf
    ensures RwProbe(old(b.h)) != 0 ==> r == RwProbe(old(b.h)) && b.h == old(b.h) && b.buf[..] == old(b.buf[..])
    ensures RwProbe(old(b.h)) == 0 ==>
      && (r >= 0 || r == EXISTS || r == NOSPACE)
      && (r == EXISTS <==> VChild(VKids(View(f, old(b.Strings())), PathOf(f, parent)), name).Some?)
      && (r >= 0 ==> old(b.h).offStrings + old(b.h).sizeStrings + HdrSize(name) + 4 <= b.h.totalsize)
      && (r == NOSPACE ==> old(b.h).offStrings + old(b.h).sizeStrings + HdrSize(name) + 4 > b.h.totalsize)
      && b.Strings() == old(b.Strings()) && b.Rsv() == old(b.Rsv()) && b.h.totalsize == old(b.h).totalsize
    ensures RwProbe(old(b.h)) == 0 && r < 0 ==> b.h == old(b.h) && b.buf[..] == old(b.buf[..])
    ensures RwProbe(old(b.h)) == 0 && r >= 0 ==>
      && Holds(b, PutKids(f, parent, k))
      && Spliced(old(b.StructBlock()), b.StructBlock(), r, 0, HdrSize(name) + 4)
      && b.h == old(b.h).(sizeStruct := b.h.sizeStruct, offStrings := b.h.offStrings)
      && b.h.sizeStruct == old(b.h).sizeStruct + HdrSize(name) + 4
      && b.h.offStrings == old(b.h).offStrings + HdrSize(name) + 4
      && View(k, b.Strings()) == VAddChild(View(RestAt(f, parent).value.kids, b.Strings()), name)
      && (var was := View(f, b.Strings());
          var p := PathOf(f, parent);
          View(PutKids(f, parent, k), b.Strings()) == VPutKids(was, p, VAddChild(VKids(was, p), name)))
      && var e := r - parent - HdrSize(RestAt(f, parent).value.name);
         && r == AddOff(r - e, RestAt(f, parent).value.kids)
         && RestAt(RestAt(f, parent).value.kids, e).Some?
         && var x := RestAt(RestAt(f, parent).value.kids, e).value;
         && k == Put(RestAt(f, parent).value.kids, e, Sub(name, Nil, x))
         && RestAt(PutKids(f, parent, k), r) == Some(Sub(name, Nil, x))
  {
    hide HdrSize, Put, PutKids, RestAt, Region, TreeIn, NamesOk, NodeHdr, IsTag, Spliced, View, VAddChild, VPutKids,
      VKids, VChild, PathOf, AddOff, ChildOff, RwProbe, SpliceErr, Size;
    k := Nil;
    var p := RwProbe(b.h);
    if p != 0 {
      return p, k;
    }
    ghost var s, strs := b.StructBlock(), b.Strings();
    BlockSizes(b);
    ghost var at := PlaceOfChild(s, f, parent, name, strs);
    r := SubnodeOffset(b, parent, name, f);
    if r >= 0 {
      return EXISTS, k;
    } else if r != NOTFOUND {
      return r, k;
    }
    var off := SkipProperties(b, parent, f);
    NameArea(name);
    InsertErr(b.h, b.buf.Length, at, HdrSize(name) + 4);
    var err := SpliceStruct(b, off, 0, HdrSize(name) + 4);
    if err != 0 {
      return err, k;
    }
    BlockSizes(b);
    WriteEmptyNode(b, off, name, s);
    BlockSizes(b);
    ghost var e;
    e, k := NodeWritten(s, b.StructBlock(), f, parent, RestAt(f, parent).value, off, name, strs);
    r := off;
  }

  /** Where a new child goes, and what the lookup of its name finds. */
  lemma PlaceOfChild(s: seq<byte>, f: Forest, d: int, name: seq<byte>, strs: seq<byte>) returns (at: int)
    requires TreeIn(s, f) && IsNode(f, d) && NamesOk(f, strs)
    ensures var base, kids := d + HdrSize(RestAt(f, d).value.name), RestAt(f, d).value.kids;
            && at == AddOff(base, kids) && 0 <= base <= at < |s|
            && (ChildOff(base, kids, name) < 0 ==> ChildOff(base, kids, name) == NOTFOUND)
            && (ChildOff(base, kids, name) >= 0 <==> VChild(VKids(View(f, strs), PathOf(f, d)), name).Some?)
  {
    hide HdrWords, PropWords, Words, Put, RestAt, TreeIn, At, NameOk, StrAt, View, VAddChild, VPutKids, VKids, VChild,
      PathOf, VAt, AddOff, ChildOff;
    var x := RestAt(f, d).value;
    var base := d + HdrSize(x.name);
    NodeRoom(s, f, d);
    NamesOfKids(f, d, strs);
    ChildFound(base, x.kids, strs, name);
    KidsView(f, d, x.kids, strs);
    AddPlace(base, x.kids, strs, name);
    at := AddOff(base, x.kids);
    PropAt(s, f, d, at - base);
  }

  /** An empty node written there is the new first child of the node. */
  lemma NodeWritten(s: seq<byte>, t: seq<byte>, f: Forest, d: int, x: Forest, at: int, name: seq<byte>, strs: seq<byte>)
    returns (e: int, k: Forest)
    requires TreeIn(s, f) && NamesOk(f, strs) && |t| < INT_LIMIT && IsNode(f, d) && RestAt(f, d) == Some(x)
    requires at == AddOff(d + HdrSize(x.name), x.kids) && Spliced(s, t, at, 0, HdrSize(name) + 4)
    requires NodeHdr(t, at, name) && IsTag(t, at + HdrSize(name), END_NODE)
    ensures TreeIn(t, PutKids(f, d, k)) && NamesOk(PutKids(f, d, k), strs)
    ensures View(k, strs) == VAddChild(View(x.kids, strs), name)
    ensures View(PutKids(f, d, k), strs) ==
            VPutKids(View(f, strs), PathOf(f, d), VAddChild(VKids(View(f, strs), PathOf(f, d)), name))
    ensures at == d + HdrSize(x.name) + e && RestAt(x.kids, e).Some?
    ensures k == Put(x.kids, e, Sub(name, Nil, RestAt(x.kids, e).value))
    ensures RestAt(PutKids(f, d, k), at) == Some(Sub(name, Nil, RestAt(x.kids, e).value))
  {
    hide HdrWords, PropWords, Words, Put, RestAt, TreeIn, At, NameOk, StrAt, NodeHdr, IsTag, Spliced, View, VAddChild,
      VPutKids, VKids, PathOf, VAt, AddOff;
    var base := d + HdrSize(x.name);
    NodeRoom(s, f, d);
    NamesOfKids(f, d, strs);
    AddPlace(base, x.kids, strs, name);
    e := at - base;
    k := Put(x.kids, e, Sub(name, Nil, RestAt(x.kids, e).value));
    NodeAdded(s, t, f, d, e, name, strs);
    KidsView(f, d, k, strs);
  }

  lemma NodeAdded(s: seq<byte>, t: seq<byte>, f: Forest, d: int, e: int, name: seq<byte>, strs: seq<byte>)
    requires TreeIn(s, f) && IsNode(f, d) && RestAt(RestAt(f, d).value.kids, e).Some?
    requires var at := d + HdrSize(RestAt(f, d).value.name) + e;
             && Spliced(s, t, at, 0, HdrSize(name) + 4) && |t| < INT_LIMIT
             && NodeHdr(t, at, name) && IsTag(t, at + HdrSize(name), END_NODE)
    requires NamesOk(RestAt(f, d).value.kids, strs)
    ensures var k := RestAt(f, d).value.kids;
            var l := Put(k, e, Sub(name, Nil, RestAt(k, e).value));
            && TreeIn(t, PutKids(f, d, l)) && NamesOk(l, strs)
            && RestAt(PutKids(f, d, l), d + HdrSize(RestAt(f, d).value.name) + e) == RestAt(l, e)
            && RestAt(l, e) == Some(Sub(name, Nil, RestAt(k, e).value))
  {
    hide HdrWords, PropWords, Words, Put, RestAt, Spliced, IsTag, At, NodeHdr, TreeIn, NameOk;
    var x := RestAt(f, d).value;
    var at := d + HdrSize(x.name) + e;
    var y := RestAt(x.kids, e).value;
    var g := Sub(name, Nil, y);
    PropAt(s, f, d, e);
    NamesPut(x.kids, e, g, strs);
    NewNodeNames(name, y, strs);
    NewNodeSize(name, y);
    SuffixForest(s, t, at, 0, HdrSize(name) + 4, at, y);
    NewNodeAt(t, at, name, y);
    SplicedWiden(s, t, at, 0, HdrSize(name) + 4, Size(y));
    EditKids(s, t, f, d, e, g);
    PutGet(x.kids, e, g);
    PutKidsTwice(f, d, Put(x.kids, e, g), Nil);
    PutNested(PutKids(f, d, Put(x.kids, e, g)), d, e, g);
  }

  lemma NewNodeSize(name: seq<byte>, y: Forest)
    ensures Size(Sub(name, Nil, y)) == HdrSize(name) + 4 + Size(y)
  {
    assert Size(Nil) == 0;
  }

  lemma NewNodeNames(name: seq<byte>, y: Forest, strs: seq<byte>)
    requires NamesOk(y, strs)
    ensures NamesOk(Sub(name, Nil, y), strs)
  {
    assert NamesOk(Nil, strs);
  }

  lemma NewNodeAt(t: seq<byte>, at: int, name: seq<byte>, y: Forest)
    requires NodeHdr(t, at, name) && IsTag(t, at + HdrSize(name), END_NODE) && At(t, at + HdrSize(name) + 4, y)
    ensures At(t, at, Sub(name, Nil, y))
  {
    AtSub(t, at, name, Nil, y);
  }

  // ---- adding a node and deleting it again -------------------------------------------------------

  lemma SplicedBack(s: seq<byte>, t: seq<byte>, u: seq<byte>, at: int, n: int)
    requires Spliced(s, t, at, 0, n) && Spliced(t, u, at, n, 0)
    ensures u == s
  {
    forall j | 0 <= j < |s| ensures s[j] == u[j] {
      if j < at {
        assert s[j] == t[j - 0 + 0];
        assert t[j] == u[j - 0 + 0];
      } else {
        assert s[j] == t[j - (at + 0) + (at + n)];
        assert t[j + n] == u[j + n - (at + n) + (at + 0)];
      }
    }
  }

  /** fdt_del_node undoes fdt_add_subnode: header, structure block and strings
      block come back byte for byte. */
  method AddThenDel(b: Blob, parent: int, name: seq<byte>, ghost f: Forest) returns (r: int)
    requires Holds(b, f) && IsNode(f, parent)
    requires 0 !in name && |name| < INT_LIMIT - 16
    modifies b, b.buf
    ensures b.h == old(b.h)
    ensures b.StructBlock() == old(b.StructBlock()) && b.Strings() == old(b.Strings()) && b.Rsv() == old(b.Rsv())
  {
    hide HdrWords, PropWords, Words, Put, RestAt, Region, TreeIn, At, View, PathOf, VChild, VKids, VPutKids,
      VAddChild, Spliced, VPut, NodeHdr;
    LaidPassesProbe(b.h, b.buf.Length);
    ghost var s := b.StructBlock();
    ghost var k;
    r, k := AddSubnode(b, parent, name, f);
    if r >= 0 {
      ghost var t := b.StructBlock();
      LaidPassesProbe(b.h, b.buf.Length);
      NewNodeSizes(name);
      var err := DelNode(b, r, PutKids(f, parent, k));
      SplicedBack(s, t, b.StructBlock(), r, HdrSize(name) + 4);
    }
  }

  lemma NewNodeSizes(name: seq<byte>)
    ensures forall y :: NodeSize(Sub(name, Nil, y)) == HdrSize(name) + 4
  {
  }
}
