/** fdt_ro.c: looking up names, properties and child nodes. */
module FdtRo {
  import opened Bytes
  import opened FdtFormat
  import opened FdtTree
  import opened FdtBlob
  import opened Fdt

  const AT_SIGN: byte := 64

  // ---- strings and names ----------------------------------------------------------

  /** fdt_get_string on a finished blob. */
  method GetString(b: Blob, stroffset: int) returns (err: int, name: seq<byte>)
    requires Laid(b.h, b.buf.Length)
    ensures err == 0 <==> NameOk(stroffset, b.Strings())
    ensures err == 0 ==> name == StrAt(b.Strings(), stroffset)
    ensures err == BADOFFSET <==> !(0 <= stroffset < |b.Strings()|)
    ensures err == TRUNCATED <==> 0 <= stroffset < |b.Strings()| && 0 !in b.Strings()[stroffset..]
    ensures err == 0 || err == BADOFFSET || err == TRUNCATED
  {
    name := [];
    var absoffset := (stroffset + b.h.offStrings) % U32_LIMIT;
    if absoffset >= b.h.totalsize || stroffset < 0 || stroffset >= b.h.sizeStrings {
      return BADOFFSET, [];
    }
    var strs := b.Strings();
    var e := NulFrom(strs, stroffset);
    if e == |strs| {
      assert forall j :: 0 <= j < |strs| - stroffset ==> strs[stroffset..][j] == strs[stroffset + j];
      return TRUNCATED, [];
    }
    assert strs[stroffset..][e - stroffset] == 0;
    return 0, strs[stroffset..e];
  }

  /** fdt_get_name */
  method GetName(b: Blob, offset: int) returns (err: int, name: seq<byte>)
    requires Laid(b.h, b.buf.Length)
    ensures if NodeCheck(b.StructBlock(), offset) < 0 then err == NodeCheck(b.StructBlock(), offset)
            else err == 0 && name == StrAt(b.StructBlock(), offset + 4)
  {
    var next := CheckNodeOffset(b, offset);
    if next < 0 {
      return next, [];
    }
    var s := b.StructBlock();
    return 0, s[offset + 4..NulFrom(s, offset + 4)];
  }

  /** fdt_nodename_eq_: the whole name, or the part before a unit address when
      the pattern has none. */
  predicate NameEq(name: seq<byte>, pat: seq<byte>) {
    && |name| >= |pat|
    && name[..|pat|] == pat
    && (|name| == |pat| || (AT_SIGN !in pat && name[|pat|] == AT_SIGN))
  }

  lemma NodeName(s: seq<byte>, off: int, name: seq<byte>)
    requires NodeHdr(s, off, name)
    ensures StrAt(s, off + 4) == name
  {
    StrAtIs(s, off + 4, name);
  }

  // ---- properties ---------------------------------------------------------------------

  /** nextprop_ over the items of a node. */
  function NextProp(off: int, f: Forest): int
    decreases f
  {
    match f
    case Nop(n) => NextProp(off + 4, n)
    case Prop(_, _, _) => off
    case _ => NOTFOUND
  }

  method NextPropFrom(b: Blob, start: int, ghost f: Forest) returns (r: int)
    requires Laid(b.h, b.buf.Length) && |b.StructBlock()| < INT_LIMIT
    requires start >= 0 && Point(b.StructBlock(), start, f, Edge)
    ensures r == NextProp(start, f)
  {
    hide Point, TagAt, Seek;
    ghost var cf := f;
    var offset := start;
    while true
      invariant offset >= 0 && Point(b.StructBlock(), offset, cf, Edge)
      invariant NextProp(offset, cf) == NextProp(start, f)
      decreases cf
    {
      PointTag(b.StructBlock(), offset, cf, Edge);
      PointNop(b.StructBlock(), offset, cf, Edge);
      var tag, next := NextTag(b, offset);
      if tag == END {
        return if next >= 0 then BADSTRUCTURE else next;
      }
      if tag == PROP {
        return offset;
      }
      offset := next;
      if tag != NOP {
        return NOTFOUND;
      }
      cf := cf.next;
    }
  }

  lemma PointNop(s: seq<byte>, off: int, f: Forest, k: Cont)
    requires Point(s, off, f, k)
    ensures f.Nop? ==> TagAt(s, off) == Step(NOP, off + 4) && Point(s, off + 4, f.next, k)
  {
  }

  lemma PointProp(s: seq<byte>, off: int, f: Forest, k: Cont)
    requires Point(s, off, f, k) && f.Prop? && |s| < INT_LIMIT
    ensures PropHdr(s, off, f.nameoff, f.val) && off >= 0
    ensures PropCheck(s, off) == off + PropSize(f.val)
    ensures Point(s, off + PropSize(f.val), f.next, k)
  {
    hide HdrWords, PropWords, TagAt;
    TagAtProp(s, off, f.nameoff, f.val);
  }

  /** fdt_first_property_offset */
  method FirstProperty(b: Blob, node: int, ghost f: Forest) returns (r: int)
    requires Laid(b.h, b.buf.Length) && TreeIn(b.StructBlock(), f) && IsNode(f, node)
    ensures var x := RestAt(f, node).value;
            r == NextProp(node + HdrSize(x.name), x.kids)
  {
    hide Point, TreeIn, NodeCheck, At, NodeHdr, HdrWords, Region, Laid;
    ghost var x := RestAt(f, node).value;
    SmallBlock(b.StructBlock(), f);
    NodeFacts(b.StructBlock(), f, node);
    r := CheckNodeOffset(b, node);
    if r < 0 {
      return;
    }
    r := NextPropFrom(b, r, x.kids);
  }

  lemma SmallBlock(s: seq<byte>, f: Forest)
    requires TreeIn(s, f)
    ensures |s| < INT_LIMIT
  {
  }

  /** fdt_next_property_offset */
  method NextProperty(b: Blob, off: int, ghost f: Forest) returns (r: int)
    requires Laid(b.h, b.buf.Length) && |b.StructBlock()| < INT_LIMIT
    requires Point(b.StructBlock(), off, f, Edge) && f.Prop?
    ensures r == NextProp(off + PropSize(f.val), f.next)
  {
    PointProp(b.StructBlock(), off, f, Edge);
    r := CheckPropOffset(b, off);
    if r < 0 {
      return;
    }
    r := NextPropFrom(b, r, f.next);
  }

  /** Offset of the first leading property of that name, in a list at off. */
  function PropOff(off: int, f: Forest, strs: seq<byte>, name: seq<byte>): int
    decreases f
  {
    match f
    case Nop(n) => PropOff(off + 4, n, strs, name)
    case Prop(no, val, n) =>
      if NameOk(no, strs) && StrAt(strs, no) == name then off else PropOff(off + PropSize(val), n, strs, name)
    case _ => NOTFOUND
  }

  /** fdt_get_property: the offset of the property instead of a pointer to it,
      and the stored length. */
  method GetProperty(b: Blob, node: int, name: seq<byte>, ghost f: Forest) returns (off: int, len: int)
    requires Laid(b.h, b.buf.Length) && TreeIn(b.StructBlock(), f) && IsNode(f, node)
    ensures var x := RestAt(f, node).value;
            off == PropOff(node + HdrSize(x.name), x.kids, b.Strings(), name)
    ensures off >= 0 ==> off + 12 <= |b.StructBlock()| && len == Word(b.StructBlock(), off + 4)
    ensures off < 0 ==> off == NOTFOUND && len == NOTFOUND
  {
    hide Point, TreeIn, NodeHdr, HdrWords, PropWords, NameOk, StrAt, SkipNops, NextProp, PropOff, Words, Word,
      RestAt, Region, Laid, At;
    ghost var s, strs := b.StructBlock(), b.Strings();
    ghost var x := RestAt(f, node).value;
    ghost var goal := PropOff(node + HdrSize(x.name), x.kids, strs, name);
    ghost var o, n := node + HdrSize(x.name), x.kids;
    KidsPoint(s, f, node);
    off := FirstProperty(b, node, f);
    while off >= 0
      invariant o >= 0 && Point(s, o, n, Edge) && off == NextProp(o, n) && PropOff(o, n, strs, name) == goal
      decreases n
    {
      ghost var m := SkipNops(n);
      PropStep(s, o, n, strs, name);
      len := Word(b.StructBlock(), off + 4);
      var err, str := GetString(b, Word(b.StructBlock(), off + 8));
      if err == 0 && str == name {
        return;
      }
      o, n := off + PropSize(m.val), m.next;
      off := NextProperty(b, off, m);
    }
    NoProp(o, n, strs, name);
    len := off;
  }

  lemma KidsPoint(s: seq<byte>, f: Forest, node: int)
    requires TreeIn(s, f) && IsNode(f, node)
    ensures var x := RestAt(f, node).value; Point(s, node + HdrSize(x.name), x.kids, Edge)
    ensures |s| < INT_LIMIT && node >= 0
  {
    NodeFacts(s, f, node);
  }

  /** One property of the search. */
  lemma PropStep(s: seq<byte>, o: int, n: Forest, strs: seq<byte>, name: seq<byte>)
    requires Point(s, o, n, Edge) && NextProp(o, n) >= 0 && |s| < INT_LIMIT
    ensures var m, off := SkipNops(n), NextProp(o, n);
            && m.Prop? && (m == n || m < n) && m.next < n
            && off + 12 <= |s| && Word(s, off + 8) == m.nameoff
            && Point(s, off, m, Edge) && Point(s, off + PropSize(m.val), m.next, Edge)
            && PropOff(o, n, strs, name) ==
               if NameOk(m.nameoff, strs) && StrAt(strs, m.nameoff) == name then off
               else PropOff(off + PropSize(m.val), m.next, strs, name)
  {
    hide Point, At, NodeHdr, NodeCheck, HdrWords, PropWords, NameOk, StrAt, Word, PropHdr;
    PointBounds(s, o, n);
    NopsToProp(s, o, n, strs, name);
    PointProp(s, NextProp(o, n), SkipNops(n), Edge);
    PropWordsOf(s, NextProp(o, n), SkipNops(n));
  }

  lemma PointBounds(s: seq<byte>, o: int, n: Forest)
    requires Point(s, o, n, Edge)
    ensures o >= 0
  {
    AtFits(s, o, n);
  }

  function SkipNops(f: Forest): Forest {
    if f.Nop? then SkipNops(f.next) else f
  }

  lemma {:induction false} NopsToProp(s: seq<byte>, off: int, f: Forest, strs: seq<byte>, name: seq<byte>)
    requires Point(s, off, f, Edge) && off >= 0 && NextProp(off, f) >= 0
    ensures var m := SkipNops(f);
            && m.Prop? && (m == f || m < f)
            && Point(s, NextProp(off, f), m, Edge)
            && PropOff(NextProp(off, f), m, strs, name) == PropOff(off, f, strs, name)
    decreases f
  {
    hide NameOk, StrAt, Word, NodeHdr, PropHdr, HdrWords, PropWords;
    if f.Nop? {
      NopsToProp(s, off + 4, f.next, strs, name);
    }
  }

  lemma PropWordsOf(s: seq<byte>, off: int, m: Forest)
    requires m.Prop? && PropHdr(s, off, m.nameoff, m.val)
    ensures off + 12 <= |s| && Word(s, off + 4) == |m.val| && Word(s, off + 8) == m.nameoff
  {
  }

  lemma {:induction false} NoProp(off: int, f: Forest, strs: seq<byte>, name: seq<byte>)
    requires off >= 0 && NextProp(off, f) < 0
    ensures NextProp(off, f) == NOTFOUND && PropOff(off, f, strs, name) == NOTFOUND
    decreases f
  {
    if f.Nop? {
      NoProp(off + 4, f.next, strs, name);
    }
  }

  // ---- child nodes ----------------------------------------------------------------------

  /** Offset of the first child whose name matches. */
  function ChildOff(off: int, f: Forest, name: seq<byte>): int
    decreases f
  {
    match f
    case Nil => NOTFOUND
    case Nop(n) => ChildOff(off + 4, n, name)
    case Prop(_, val, n) => ChildOff(off + PropSize(val), n, name)
    case Sub(m, kids, n) => if NameEq(m, name) then off else ChildOff(off + NodeSize(f), n, name)
  }

  /** The search stands at the node cname at r, inside which cf and ck follow. */
  ghost predicate Entered(s: seq<byte>, r: int, cname: seq<byte>, cf: Forest, ck: Cont) {
    && r >= 0 && r % 4 == 0 && NodeHdr(s, r, cname)
    && Point(s, r + HdrSize(cname), cf, ck) && Bottom(ck) == Edge
  }

  /** goal is what the search will answer from there. */
  predicate Pending(r: int, cname: seq<byte>, cf: Forest, ck: Cont, name: seq<byte>, goal: int) {
    if !ck.Up? then goal == ChildOff(r + HdrSize(cname), cf, name)
    else if !ck.k.Up? then goal == ChildOff(r, Sub(cname, cf, ck.next), name)
    else var (o, n) := ToEdge(r + HdrSize(cname), cf, ck); goal == ChildOff(o, n, name)
  }

  /** fdt_subnode_offset_namelen */
  method SubnodeOffset(b: Blob, parent: int, name: seq<byte>, ghost f: Forest) returns (r: int)
    requires Laid(b.h, b.buf.Length) && TreeIn(b.StructBlock(), f) && IsNode(f, parent)
    ensures var x := RestAt(f, parent).value;
            r == ChildOff(parent + HdrSize(x.name), x.kids, name)
  {
    hide Point, TreeIn, NodeCheck, At, NodeHdr, HdrWords, Seek, NameEq, RestAt, ChildOff, Pending;
    ghost var s := b.StructBlock();
    ghost var cname, cf, ck := StartSearch(s, f, parent, name);
    ghost var goal := ChildOff(parent + HdrSize(cname), cf, name);
    var depth := 0;
    r := parent;
    while r >= 0 && depth >= 0
      invariant depth >= 0 ==>
        Entered(s, r, cname, cf, ck) && Pending(r, cname, cf, ck, name, goal) && depth == Height(ck)
      invariant depth < 0 ==> r >= 0 && goal == NOTFOUND
      decreases depth >= 0, |s| - r
    {
      if depth == 1 {
        var err, nm := GetName(b, r);
        NodeNameAt(s, r, cname);
        if err == 0 && NameEq(nm, name) {
          ChildHere(r, cname, cf, ck, name, goal);
          return;
        }
      }
      ghost var stop := Seek(r + HdrSize(cname), cf, ck);
      ChildStep(s, r, cname, cf, ck, name, goal);
      r, depth := NextNode(b, r, depth, true, cname, cf, ck);
      if stop.Node? {
        cname, cf, ck := stop.f.name, stop.f.kids, Up(stop.at, stop.f.name, stop.f.next, stop.k);
      }
    }
    if depth < 0 {
      return NOTFOUND;
    }
  }

  lemma StartSearch(s: seq<byte>, f: Forest, parent: int, name: seq<byte>)
    returns (cname: seq<byte>, cf: Forest, ck: Cont)
    requires TreeIn(s, f) && IsNode(f, parent)
    ensures var x := RestAt(f, parent).value; cname == x.name && cf == x.kids && ck == Edge
    ensures Entered(s, parent, cname, cf, ck)
    ensures Pending(parent, cname, cf, ck, name, ChildOff(parent + HdrSize(cname), cf, name))
  {
    hide Point, TreeIn, At, NodeHdr, HdrWords;
    NodeFacts(s, f, parent);
    var x := RestAt(f, parent).value;
    cname, cf, ck := x.name, x.kids, Edge;
  }

  lemma NodeNameAt(s: seq<byte>, r: int, name: seq<byte>)
    requires NodeHdr(s, r, name) && r % 4 == 0 && r >= 0
    ensures NodeCheck(s, r) > 0 && StrAt(s, r + 4) == name
  {
    TagAtNode(s, r, name);
    NodeName(s, r, name);
  }

  lemma ChildHere(r: int, cname: seq<byte>, cf: Forest, ck: Cont, name: seq<byte>, goal: int)
    requires ck.Up? && Height(ck) == 1 && Pending(r, cname, cf, ck, name, goal) && NameEq(cname, name)
    ensures goal == r
  {
  }

  lemma {:induction false} ChildAtSeek(off: int, f: Forest, name: seq<byte>)
    ensures var r := Seek(off, f, Edge);
            && (r.Node? ==> ChildOff(off, f, name) == ChildOff(r.at, r.f, name))
            && (!r.Node? ==> ChildOff(off, f, name) == NOTFOUND)
    decreases f
  {
    hide HdrWords, PropWords, NameEq;
    match f
    case Nop(n) => ChildAtSeek(off + 4, n, name);
    case Prop(_, val, n) => ChildAtSeek(off + PropSize(val), n, name);
    case _ =>
  }

  /** One step of the search: what is still to be found does not change. */
  lemma ChildStep(s: seq<byte>, r: int, cname: seq<byte>, cf: Forest, ck: Cont, name: seq<byte>, goal: int)
    requires Entered(s, r, cname, cf, ck) && Pending(r, cname, cf, ck, name, goal)
    requires Height(ck) == 1 ==> !NameEq(cname, name)
    ensures var stop := Seek(r + HdrSize(cname), cf, ck);
            && !stop.Done?
            && (stop.Left? ==> goal == NOTFOUND && stop.at >= 0)
            && (stop.Node? ==>
                  && r < stop.at <= |s|
                  && Entered(s, stop.at, stop.f.name, stop.f.kids, Up(stop.at, stop.f.name, stop.f.next, stop.k))
                  && Pending(stop.at, stop.f.name, stop.f.kids, Up(stop.at, stop.f.name, stop.f.next, stop.k), name,
                             goal))
  {
    hide Point, At, NodeHdr, HdrWords, Seek, NameEq, Words, ChildOff;
    var at := r + HdrSize(cname);
    var stop := Seek(at, cf, ck);
    SeekToEdge(at, cf, ck);
    SeekPoint(s, at, cf, ck);
    var (o, n) := ToEdge(at, cf, ck);
    ChildAtSeek(o, n, name);
    PassChild(r, cname, cf, ck, name, goal);
    if stop.Node? {
      EnterPoint(s, stop.at, stop.f, stop.k);
      EnterEdge(stop.at, stop.f, stop.k);
      SubEta(stop.f);
    }
  }

  lemma PassChild(r: int, cname: seq<byte>, cf: Forest, ck: Cont, name: seq<byte>, goal: int)
    requires Bottom(ck) == Edge && Pending(r, cname, cf, ck, name, goal)
    requires Height(ck) == 1 ==> !NameEq(cname, name)
    ensures var (o, n) := ToEdge(r + HdrSize(cname), cf, ck); goal == ChildOff(o, n, name)
  {
    hide HdrWords, NameEq;
    if ck.Up? && !ck.k.Up? {
      var g := Sub(cname, cf, ck.next);
      assert Height(ck.k) == 0;
      SubSize(g);
      assert ChildOff(r, g, name) == ChildOff(r + NodeSize(g), g.next, name);
    }
  }

  lemma EnterEdge(at: int, g: Forest, k: Cont)
    requires g.Sub? && Bottom(k) == Edge
    ensures k.Up? ==> ToEdge(at + HdrSize(g.name), g.kids, Up(at, g.name, g.next, k)) == ToEdge(at, g, k)
  {
    if k.Up? {
      EnterToEdge(at, g, k);
    }
  }
}
