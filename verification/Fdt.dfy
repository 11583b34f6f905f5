/** fdt.c: tag walking. */
module Fdt {
  import opened Bytes
  import opened FdtFormat
  import opened FdtTree
  import opened FdtBlob

  // ---- one tag ------------------------------------------------------------------

  /** fdt_next_tag, on any offset a caller can pass. */
  method NextTag(b: Blob, start: int) returns (tag: int, next: int)
    requires Laid(b.h, b.buf.Length) || SwLaid(b.h, b.buf.Length)
    requires 0 <= start
    ensures Step(tag, next) == TagAt(b.StructBlock(), start)
  {
    var s := b.StructBlock();
    if start + 4 > |s| {
      return END, TRUNCATED;
    }
    tag := Word(s, start);
    var offset := start + 4;
    if tag == BEGIN_NODE {
      while offset < |s| && s[offset] != 0
        invariant start + 4 <= offset <= |s|
        invariant NulFrom(s, start + 4) == NulFrom(s, offset)
      {
        offset := offset + 1;
      }
      if offset == |s| {
        return END, BADSTRUCTURE;
      }
      offset := offset + 1;
    } else if tag == PROP {
      if offset + 4 > |s| {
        return END, BADSTRUCTURE;
      }
      var total := (12 + Word(s, offset)) % U32_LIMIT;
      if start + total > |s| {
        return END, BADSTRUCTURE;
      }
      offset := start + total;
    } else if tag != END_NODE && tag != NOP && tag != END {
      return END, BADSTRUCTURE;
    }
    next := Align4(offset);
  }

  /** A successful tag step moves forward, except over a property whose length
      word makes the 32-bit sum wrap to exactly zero. */
  lemma TagAdvancesIff(s: seq<byte>, off: int)
    requires 0 <= off && off % 4 == 0
    requires TagAt(s, off).next >= 0
    ensures TagAt(s, off).next > off
            <==> !(off + 8 <= |s| && Word(s, off) == PROP && Word(s, off + 4) == U32_LIMIT - 12)
  {
  }

  lemma TagCanStall()
    ensures var s := Be32(PROP) + Be32(U32_LIMIT - 12);
            TagAt(s, 0) == Step(PROP, 0)
  {
    var s := Be32(PROP) + Be32(U32_LIMIT - 12);
    assert s == [0, 0, 0, 3, 255, 255, 255, 244];
  }

  method CheckNodeOffset(b: Blob, offset: int) returns (r: int)
    requires Laid(b.h, b.buf.Length)
    ensures r == NodeCheck(b.StructBlock(), offset)
  {
    if offset < 0 || offset % 4 != 0 {
      return BADOFFSET;
    }
    var tag, next := NextTag(b, offset);
    return if tag != BEGIN_NODE then BADOFFSET else next;
  }

  function NodeCheck(s: seq<byte>, offset: int): int {
    if offset < 0 || offset % 4 != 0 || TagAt(s, offset).tag != BEGIN_NODE then BADOFFSET
    else TagAt(s, offset).next
  }

  method CheckPropOffset(b: Blob, offset: int) returns (r: int)
    requires Laid(b.h, b.buf.Length)
    ensures r == PropCheck(b.StructBlock(), offset)
  {
    if offset < 0 || offset % 4 != 0 {
      return BADOFFSET;
    }
    var tag, next := NextTag(b, offset);
    return if tag != PROP then BADOFFSET else next;
  }

  function PropCheck(s: seq<byte>, offset: int): int {
    if offset < 0 || offset % 4 != 0 || TagAt(s, offset).tag != PROP then BADOFFSET
    else TagAt(s, offset).next
  }

  // ---- walking over nodes ---------------------------------------------------------

  /** What lies behind a sibling list in a walk: the END word, the END_NODE at
      which the walk leaves its starting node, or an enclosing node (its offset
      and name) and the rest of that node's siblings. */
  datatype Cont =
    | Fin
    | Edge
    | Up(off: int, name: seq<byte>, next: Forest, k: Cont)

  function Height(k: Cont): nat {
    if k.Up? then 1 + Height(k.k) else 0
  }

  function Bottom(k: Cont): Cont {
    if k.Up? then Bottom(k.k) else k
  }

  ghost predicate AtK(s: seq<byte>, off: int, k: Cont)
    decreases k
  {
    true == match k
    case Fin => IsTag(s, off, END)
    case Edge => IsTag(s, off, END_NODE)
    case Up(_, _, n, k') => IsTag(s, off, END_NODE) && At(s, off + 4, n) && AtK(s, off + 4 + Size(n), k')
  }

  /** A point of a walk: sibling items f from off on, then k. */
  ghost predicate Point(s: seq<byte>, off: int, f: Forest, k: Cont) {
    off % 4 == 0 && At(s, off, f) && AtK(s, off + Size(f), k)
  }

  datatype Stop =
    | Node(at: int, f: Forest, k: Cont)
    | Done
    | Left(at: int)

  /** Where the next BEGIN_NODE of a walk is. */
  function Seek(off: int, f: Forest, k: Cont): (r: Stop)
    ensures r.Node? ==> r.f.Sub?
    decreases k, f
  {
    match f
    case Nop(n) => Seek(off + 4, n, k)
    case Prop(_, val, n) => Seek(off + PropSize(val), n, k)
    case Sub(_, _, _) => Node(off, f, k)
    case Nil =>
      match k
      case Fin => Done
      case Edge => Left(off + 4)
      case Up(_, _, n, k') => Seek(off + 4, n, k')
  }

  lemma {:induction false} SeekPoint(s: seq<byte>, off: int, f: Forest, k: Cont)
    requires Point(s, off, f, k)
    ensures var r := Seek(off, f, k);
            && (r.Node? ==> r.at >= off && Point(s, r.at, r.f, r.k) && Bottom(r.k) == Bottom(k))
            && (r.Left? ==> Bottom(k) == Edge && off < r.at <= |s|)
            && (r.Done? ==> Bottom(k) == Fin)
    decreases k, f
  {
    hide HdrWords, PropWords, Word, NodeHdr, PropHdr;
    match f
    case Nop(n) => SeekPoint(s, off + 4, n, k);
    case Prop(_, val, n) => SeekPoint(s, off + PropSize(val), n, k);
    case Sub(_, _, _) =>
    case Nil =>
      if k.Up? {
        SeekPoint(s, off + 4, k.next, k.k);
      }
  }

  /** Consuming one tag at a point of a walk. */
  function Advance(f: Forest, k: Cont): (Forest, Cont)
    requires !(f.Nil? && !k.Up?) && !f.Sub?
  {
    if f.Nil? then (k.next, k.k) else (f.next, k)
  }

  /** The word that closes a sibling list. */
  lemma CloserTag(s: seq<byte>, off: int, k: Cont)
    requires Point(s, off, Nil, k)
    ensures TagAt(s, off).next == off + 4 && 0 <= off < |s|
    ensures TagAt(s, off).tag == (if k.Fin? then END else END_NODE)
    ensures k.Up? ==> Point(s, off + 4, k.next, k.k)
  {
    hide HdrSize, PropSize, NodeHdr, PropHdr;
  }

  /** The tag of an item. */
  lemma ItemTag(s: seq<byte>, off: int, f: Forest, k: Cont)
    requires Point(s, off, f, k) && !f.Nil? && |s| < INT_LIMIT
    ensures 0 <= off < TagAt(s, off).next && off < |s|
    ensures TagAt(s, off).tag == (if f.Nop? then NOP else if f.Prop? then PROP else BEGIN_NODE)
    ensures f.Nop? ==> TagAt(s, off).next == off + 4
    ensures f.Prop? ==> TagAt(s, off).next == off + PropSize(f.val)
    ensures !f.Sub? ==> Point(s, TagAt(s, off).next, f.next, k)
  {
    hide HdrSize, PropSize, Size, NodeHdr, PropHdr, TagAt, At, AtK;
    AtFits(s, off, f);
    SizeStep(f);
    AtNext(s, off, f);
    TagAtForest(s, off, f);
    if f.Prop? {
      PropAligned(f.val);
    } else if f.Sub? {
      HdrAligned(f.name);
    }
  }

  lemma PropAligned(val: seq<byte>)
    ensures PropSize(val) % 4 == 0 && PropSize(val) > 0
  {
  }

  lemma PointTag(s: seq<byte>, off: int, f: Forest, k: Cont)
    requires Point(s, off, f, k) && |s| < INT_LIMIT
    ensures off < TagAt(s, off).next && 0 <= off < |s|
    ensures f.Sub? ==> TagAt(s, off).tag == BEGIN_NODE && Seek(off, f, k) == Node(off, f, k)
    ensures f.Nil? && k.Fin? ==> TagAt(s, off).tag == END && Seek(off, f, k) == Done
    ensures f.Nil? && k.Edge? ==> TagAt(s, off).tag == END_NODE && Seek(off, f, k) == Left(TagAt(s, off).next)
    ensures f.Nil? && k.Up? ==> TagAt(s, off).tag == END_NODE
    ensures f.Nop? ==> TagAt(s, off).tag == NOP
    ensures f.Prop? ==> TagAt(s, off).tag == PROP
    ensures !(f.Nil? && !k.Up?) && !f.Sub? ==>
      var next := TagAt(s, off).next;
      var (g, l) := Advance(f, k);
      Point(s, next, g, l) && Seek(next, g, l) == Seek(off, f, k)
  {
    hide HdrSize, PropSize, Size, TagAt, Point;
    if f.Nil? {
      CloserTag(s, off, k);
    } else {
      ItemTag(s, off, f, k);
    }
  }

  lemma NodeHdrCheck(s: seq<byte>, offset: int, name: seq<byte>)
    requires NodeHdr(s, offset, name) && offset % 4 == 0
    ensures NodeCheck(s, offset) == offset + HdrSize(name) && offset >= 0
  {
    TagAtNode(s, offset, name);
  }

  lemma EnteredChecks(s: seq<byte>, offset: int, name: seq<byte>, f: Forest, k: Cont)
    requires NodeHdr(s, offset, name) && Point(s, offset + HdrSize(name), f, k)
    ensures offset >= 0 && NodeCheck(s, offset) == offset + HdrSize(name)
  {
    hide TagAt, NodeHdr, At;
    assert offset % 4 == 0;
    NodeHdrCheck(s, offset, name);
  }

  /** fdt_next_node. The ghost arguments say where the walk stands: at the node
      `name` at `offset`, or before the whole structure block when offset < 0. */
  method NextNode(b: Blob, offset: int, depth: int, useDepth: bool,
                  ghost name: seq<byte>, ghost f: Forest, ghost k: Cont)
    returns (r: int, d: int)
    requires Laid(b.h, b.buf.Length)
    requires 0 <= offset && NodeCheck(b.StructBlock(), offset) >= 0 ==>
      offset % 4 == 0 && NodeHdr(b.StructBlock(), offset, name)
    requires offset < 0 || NodeHdr(b.StructBlock(), offset, name) ==>
      && Point(b.StructBlock(), if offset < 0 then 0 else offset + HdrSize(name), f, k)
      && if useDepth then Bottom(k) == Edge && depth == Height(k) else Bottom(k) == Fin
    ensures 0 <= offset && NodeCheck(b.StructBlock(), offset) < 0 ==>
      r == NodeCheck(b.StructBlock(), offset) && d == depth
    ensures offset < 0 || NodeHdr(b.StructBlock(), offset, name) ==>
      var stop := Seek(if offset < 0 then 0 else offset + HdrSize(name), f, k);
      && (stop.Node? ==> r == stop.at && (useDepth ==> d == Height(stop.k) + 1))
      && (stop.Done? ==> r == NOTFOUND)
      && (stop.Left? ==> r == stop.at && d == -1)
  {
    hide Word, NodeHdr, PropHdr, HdrWords, PropWords, Point, Seek, TagAt, Region, Laid;
    BlockSizes(b);
    ghost var s := b.StructBlock();
    ghost var start := if offset < 0 then 0 else offset + HdrSize(name);
    ghost var cf, ck := f, k;
    var next := 0;
    d := depth;
    if offset >= 0 {
      next := CheckNodeOffset(b, offset);
      if NodeHdr(s, offset, name) {
        EnteredChecks(s, offset, name, f, k);
      }
      if next < 0 {
        return next, d;
      }
    }
    while true
      invariant next >= 0 && Point(s, next, cf, ck)
      invariant Seek(next, cf, ck) == Seek(start, f, k)
      invariant Bottom(ck) == Bottom(k)
      invariant useDepth ==> d == Height(ck)
      decreases |s| - next
    {
      var cur := next;
      var tag;
      PointTag(s, cur, cf, ck);
      tag, next := NextTag(b, cur);
      if tag == BEGIN_NODE {
        return cur, if useDepth then d + 1 else d;
      } else if tag == END_NODE {
        if useDepth {
          d := d - 1;
          if d < 0 {
            return next, d;
          }
        }
      } else if tag == END {
        return NOTFOUND, d;
      }
      ghost var moved := Advance(cf, ck);
      cf, ck := moved.0, moved.1;
    }
  }

  // ---- nodes by offset --------------------------------------------------------------

  /** Bytes a node takes, without its later siblings. */
  function NodeSize(x: Forest): int
    requires x.Sub?
  {
    HdrSize(x.name) + Size(x.kids) + 4
  }

  /** What the bytes say about the node at offset d of the tree f. */
  lemma NodeFacts(s: seq<byte>, f: Forest, d: int)
    requires TreeIn(s, f) && IsNode(f, d)
    ensures var x := RestAt(f, d).value;
            && d % 4 == 0 && 0 <= d && d + NodeSize(x) + Size(x.next) <= |s|
            && At(s, d, x) && NodeHdr(s, d, x.name)
            && Point(s, d + HdrSize(x.name), x.kids, Edge)
            && IsTag(s, d + NodeSize(x) - 4, END_NODE)
            && NodeCheck(s, d) == d + HdrSize(x.name)
  {
    hide HdrSize, PropSize, Size, TreeIn, NodeHdr, TagAt, IsTag, At, RestAt;
    var x := RestAt(f, d).value;
    TreeAt(s, f);
    RestAtIsAt(s, 0, f, d);
    RestAtBounds(f, d);
    SubEta(x);
    SubAt(s, d, x.name, x.kids, x.next);
    HdrAligned(x.name);
    TagAtNode(s, d, x.name);
  }

  lemma HdrAligned(name: seq<byte>)
    ensures HdrSize(name) % 4 == 0 && HdrSize(name) > 0
  {
  }

  lemma SubEta(g: Forest)
    requires g.Sub?
    ensures g == Sub(g.name, g.kids, g.next)
  {
  }

  lemma TreeAt(s: seq<byte>, f: Forest)
    requires TreeIn(s, f)
    ensures At(s, 0, f)
  {
  }

  /** ... and about what follows it, unless it is the root. */
  lemma NodeNext(s: seq<byte>, f: Forest, d: int)
    requires TreeIn(s, f) && IsNode(f, d) && d != 0
    ensures var x := RestAt(f, d).value;
            Point(s, d + NodeSize(x), x.next, Edge)
  {
    hide HdrSize, PropSize, Size, Word, NodeHdr, IsTag, RestAt, At;
    var x := RestAt(f, d).value;
    InsideRoot(f, d);
    SubAt(s, 0, f.name, f.kids, f.next);
    RestClosed(s, HdrSize(f.name), f.kids, d - HdrSize(f.name));
    RestStep(f, d, x);
    RestAtBounds(f, d + NodeSize(x));
    RestAtIsAt(s, 0, f, d + NodeSize(x));
    SubSize(x);
  }

  lemma SubSize(x: Forest)
    requires x.Sub?
    ensures Size(x) == NodeSize(x) + Size(x.next)
  {
  }

  lemma {:induction false} NoNodeInNops(f: Forest, d: int)
    requires OnlyNops(f)
    ensures !IsNode(f, d)
    decreases f
  {
    if f.Nop? && d != 0 {
      NoNodeInNops(f.next, d - 4);
    }
  }

  lemma InsideRoot(f: Forest, d: int)
    requires f.Sub? && OnlyNops(f.next) && IsNode(f, d) && d != 0
    ensures IsNode(f.kids, d - HdrSize(f.name)) && RestAt(f.kids, d - HdrSize(f.name)) == RestAt(f, d)
    ensures 0 <= d - HdrSize(f.name)
  {
    NoNodeInNops(f.next, d - (HdrSize(f.name) + Size(f.kids) + 4));
    RestAtBounds(f.kids, d - HdrSize(f.name));
  }

  /** Every sibling list inside a list closed by END_NODE is closed by END_NODE. */
  lemma {:induction false} RestClosed(s: seq<byte>, a: int, f: Forest, d: int)
    requires At(s, a, f) && IsTag(s, a + Size(f), END_NODE) && RestAt(f, d).Some?
    ensures IsTag(s, a + d + Size(RestAt(f, d).value), END_NODE)
    decreases f
  {
    hide HdrWords, PropWords, Word, NodeHdr, PropHdr, IsTag;
    if d != 0 {
      match f
      case Nop(n) => RestClosed(s, a + 4, n, d - 4);
      case Prop(_, val, n) => RestClosed(s, a + PropSize(val), n, d - PropSize(val));
      case Sub(name, kids, n) =>
        var e := HdrSize(name) + Size(kids) + 4;
        if d < e {
          RestClosed(s, a + HdrSize(name), kids, d - HdrSize(name));
        } else {
          RestClosed(s, a + e, n, d - e);
        }
    }
  }

  // ---- children ----------------------------------------------------------------------

  /** Where a walk is once every enclosing node it entered is closed. */
  function ToEdge(off: int, f: Forest, k: Cont): (int, Forest)
    decreases k
  {
    if k.Up? then ToEdge(off + Size(f) + 4, k.next, k.k) else (off, f)
  }

  lemma {:induction false} SeekToEdge(off: int, f: Forest, k: Cont)
    requires Bottom(k) == Edge
    ensures var (o, n) := ToEdge(off, f, k);
            var r := Seek(off, f, k);
            && !r.Done?
            && (r.Node? && k.Edge? ==> r.k.Edge?)
            && (r.Node? && r.k.Up? ==> ToEdge(r.at, r.f, r.k) == (o, n))
            && (r.Node? && r.k.Edge? && k.Up? ==> Seek(o, n, Edge) == r)
            && (r.Left? && k.Up? ==> Seek(o, n, Edge) == r)
            && (r.Left? ==> r.at == o + Size(n) + 4)
            && (r.Node? && r.k.Edge? ==> r.at + Size(r.f) == o + Size(n))
    decreases k, f
  {
    hide HdrWords, PropWords;
    match f
    case Nop(n) => SeekToEdge(off + 4, n, k);
    case Prop(_, val, n) => SeekToEdge(off + PropSize(val), n, k);
    case Sub(_, _, _) =>
    case Nil =>
      if k.Up? {
        SeekToEdge(off + 4, k.next, k.k);
      }
  }

  lemma SeekEdge(s: seq<byte>, off: int, f: Forest)
    requires Point(s, off, f, Edge)
    ensures var r := Seek(off, f, Edge);
            (r.Left? && r.at > 0) || (r.Node? && r.k == Edge && r.at >= 0)
  {
    SeekPoint(s, off, f, Edge);
    SeekToEdge(off, f, Edge);
    AtFits(s, off, f);
  }

  /** Offset of the first node of a sibling list. */
  function FirstSub(off: int, f: Forest): int {
    var r := Seek(off, f, Edge);
    if r.Node? then r.at else NOTFOUND
  }

  /** fdt_first_subnode */
  method FirstSubnode(b: Blob, offset: int, ghost f: Forest) returns (r: int)
    requires Laid(b.h, b.buf.Length) && TreeIn(b.StructBlock(), f) && IsNode(f, offset)
    ensures var x := RestAt(f, offset).value;
            r == FirstSub(offset + HdrSize(x.name), x.kids)
  {
    hide Word, NodeHdr, HdrWords, Point, Seek, TreeIn;
    ghost var x := RestAt(f, offset).value;
    NodeFacts(b.StructBlock(), f, offset);
    SeekEdge(b.StructBlock(), offset + HdrSize(x.name), x.kids);
    var depth;
    r, depth := NextNode(b, offset, 0, true, x.name, x.kids, Edge);
    if r < 0 || depth != 1 {
      r := NOTFOUND;
    }
  }

  /** Entering the node a walk stands at keeps the place where it will leave. */
  lemma EnterToEdge(at: int, g: Forest, k: Cont)
    requires g.Sub? && k.Up?
    ensures ToEdge(at + HdrSize(g.name), g.kids, Up(at, g.name, g.next, k)) == ToEdge(at, g, k)
  {
    SubSize(g);
  }

  lemma EnterPoint(s: seq<byte>, at: int, g: Forest, k: Cont)
    requires Point(s, at, g, k) && g.Sub?
    ensures at >= 0 && at % 4 == 0 && NodeHdr(s, at, g.name)
    ensures at + HdrSize(g.name) <= |s|
    ensures Point(s, at + HdrSize(g.name), g.kids, Up(at, g.name, g.next, k))
  {
    hide HdrWords, Word, NodeHdr, IsTag;
    SubAt(s, at, g.name, g.kids, g.next);
    SubSize(g);
  }

  /** fdt_next_subnode: the next sibling node, however deep the subtree in
      between is. */
  method NextSubnode(b: Blob, offset: int, ghost f: Forest) returns (r: int)
    requires Laid(b.h, b.buf.Length) && TreeIn(b.StructBlock(), f)
    requires IsNode(f, offset) && offset != 0
    ensures var x := RestAt(f, offset).value;
            r == FirstSub(offset + NodeSize(x), x.next)
  {
    hide Word, NodeHdr, HdrWords, Point, Seek, TreeIn, RestAt, NodeCheck, At;
    ghost var s := b.StructBlock();
    ghost var x := RestAt(f, offset).value;
    ghost var o, n := offset + NodeSize(x), x.next;
    NodeFacts(s, f, offset);
    NodeNext(s, f, offset);
    SiblingWalk(s, offset, x);
    ghost var cf, ck := x.kids, Up(offset, x.name, x.next, Edge);
    ghost var name := x.name;
    var depth := 1;
    r := offset;
    while true
      invariant r >= 0 && r % 4 == 0 && NodeHdr(s, r, name)
      invariant Point(s, r + HdrSize(name), cf, ck) && Bottom(ck) == Edge && ck.Up?
      invariant ToEdge(r + HdrSize(name), cf, ck) == (o, n)
      invariant depth == Height(ck)
      decreases |s| - r
    {
      SeekToEdge(r + HdrSize(name), cf, ck);
      SeekPoint(s, r + HdrSize(name), cf, ck);
      ghost var stop := Seek(r + HdrSize(name), cf, ck);
      r, depth := NextNode(b, r, depth, true, name, cf, ck);
      if r < 0 || depth < 1 {
        return NOTFOUND;
      }
      if depth <= 1 {
        return;
      }
      EnterPoint(s, stop.at, stop.f, stop.k);
      EnterToEdge(stop.at, stop.f, stop.k);
      name, cf, ck := stop.f.name, stop.f.kids, Up(stop.at, stop.f.name, stop.f.next, stop.k);
    }
  }

  lemma SiblingWalk(s: seq<byte>, offset: int, x: Forest)
    requires x.Sub? && Point(s, offset + NodeSize(x), x.next, Edge)
    requires Point(s, offset + HdrSize(x.name), x.kids, Edge)
    requires IsTag(s, offset + NodeSize(x) - 4, END_NODE)
    ensures Point(s, offset + HdrSize(x.name), x.kids, Up(offset, x.name, x.next, Edge))
    ensures ToEdge(offset + HdrSize(x.name), x.kids, Up(offset, x.name, x.next, Edge)) == (offset + NodeSize(x), x.next)
  {
    hide HdrWords, Word, IsTag, Words;
  }

  // ---- enumerating children --------------------------------------------------------------

  /** Offsets of all nodes of a sibling list that starts at off, in order. */
  function NodeOffsets(off: int, f: Forest): seq<int>
    decreases f
  {
    match f
    case Nil => []
    case Nop(n) => NodeOffsets(off + 4, n)
    case Prop(_, val, n) => NodeOffsets(off + PropSize(val), n)
    case Sub(name, kids, n) => [off] + NodeOffsets(off + NodeSize(f), n)
  }

  /** FirstSub is the head of that list, and stepping over the node found
      leaves the tail. */
  lemma {:induction false} FirstSubIsHead(f: Forest, d: int, off: int, rest: Forest)
    requires off >= 0 && RestAt(f, d) == Some(rest)
    ensures var r := FirstSub(off, rest);
            if NodeOffsets(off, rest) == [] then r == NOTFOUND
            else
              && r == NodeOffsets(off, rest)[0] && r >= off
              && IsNode(f, d + (r - off))
              && var x := RestAt(f, d + (r - off)).value;
                 NodeOffsets(r + NodeSize(x), x.next) == NodeOffsets(off, rest)[1..]
    decreases rest
  {
    hide HdrWords, PropWords;
    match rest
    case Nil =>
    case Nop(n) => RestStep(f, d, rest); FirstSubIsHead(f, d + 4, off + 4, n);
    case Prop(_, val, n) => RestStep(f, d, rest); FirstSubIsHead(f, d + PropSize(val), off + PropSize(val), n);
    case Sub(_, _, _) =>
  }

  /** Bytes of the first item of a list. */
  function ItemSize(x: Forest): (r: int)
    requires !x.Nil?
    ensures r > 0 && Size(x) == r + Size(x.next)
  {
    match x
    case Nop(_) => 4
    case Prop(_, val, _) => PropSize(val)
    case Sub(_, _, _) => NodeSize(x)
  }

  lemma FirstItem(x: Forest)
    requires !x.Nil?
    ensures RestAt(x, ItemSize(x)) == Some(x.next)
  {
    hide HdrSize, PropSize, Size;
    RestHere(x.next);
  }

  /** From one item boundary to the next. */
  lemma {:induction false} RestStep(f: Forest, d: int, x: Forest)
    requires RestAt(f, d) == Some(x) && !x.Nil?
    ensures RestAt(f, d + ItemSize(x)) == Some(x.next)
    decreases f
  {
    hide HdrSize, PropSize, Size, RestAt;
    StepDown(f, d, x);
    RestInside(f, d);
    RestOfItem(f, d + ItemSize(x));
    RestHere(x.next);
    if d != 0 {
      match f
      case Nop(n) => RestStep(n, d - 4, x);
      case Prop(_, val, n) => RestStep(n, d - PropSize(val), x);
      case Sub(name, kids, n) =>
        if d < NodeSize(f) {
          RestInside(kids, d - HdrSize(name));
          RestStep(kids, d - HdrSize(name), x);
        } else {
          RestStep(n, d - NodeSize(f), x);
        }
    } else {
      FirstItem(x);
    }
  }

  /** From a node to its first item. */
  lemma {:induction false} RestKids(f: Forest, d: int, x: Forest)
    requires RestAt(f, d) == Some(x) && x.Sub?
    ensures RestAt(f, d + HdrSize(x.name)) == Some(x.kids)
    decreases f
  {
    hide HdrSize, PropSize, Size, RestAt;
    StepDown(f, d, x);
    RestInside(f, d);
    RestOfItem(f, d + HdrSize(x.name));
    RestHere(x.kids);
    HdrSome(x.name);
    SizeStep(x);
    if d != 0 {
      match f
      case Nop(n) => RestKids(n, d - 4, x);
      case Prop(_, val, n) => RestKids(n, d - PropSize(val), x);
      case Sub(name, kids, n) =>
        if d < NodeSize(f) {
          RestInside(kids, d - HdrSize(name));
          RestKids(kids, d - HdrSize(name), x);
        } else {
          RestKids(n, d - NodeSize(f), x);
        }
    }
  }

  lemma SizeNonNeg(f: Forest)
    ensures Size(f) >= 0
  {
  }

  lemma RestZero(f: Forest)
    ensures RestAt(f, 0) == Some(f)
  {
  }

  /** fdt_for_each_subnode: fdt_first_subnode and then fdt_next_subnode until it
      fails visits exactly the children of a node, in order. */
  method ForEachSubnode(b: Blob, parent: int, ghost f: Forest) returns (visited: seq<int>)
    requires Laid(b.h, b.buf.Length) && TreeIn(b.StructBlock(), f) && IsNode(f, parent)
    ensures var x := RestAt(f, parent).value;
            visited == NodeOffsets(parent + HdrSize(x.name), x.kids)
  {
    hide HdrWords, PropWords, Words, TreeIn, RestAt, FirstSub, NodeOffsets, Point, At, NodeHdr, NodeCheck, Region, Laid;
    ghost var x := RestAt(f, parent).value;
    ghost var all := NodeOffsets(parent + HdrSize(x.name), x.kids);
    ghost var o, n := parent + HdrSize(x.name), x.kids;
    NodeFacts(b.StructBlock(), f, parent);
    RestKids(f, parent, x);
    visited := [];
    var node := FirstSubnode(b, parent, f);
    while node >= 0
      invariant o > 0 && RestAt(f, o) == Some(n) && node == FirstSub(o, n)
      invariant visited + NodeOffsets(o, n) == all
      decreases |NodeOffsets(o, n)|
    {
      FirstSubIsHead(f, o, o, n);
      visited := visited + [node];
      ghost var y := RestAt(f, node).value;
      assert NodeOffsets(o, n) == [node] + NodeOffsets(node + NodeSize(y), y.next);
      RestStep(f, node, y);
      o, n := node + NodeSize(y), y.next;
      node := NextSubnode(b, node, f);
    }
    FirstSubIsHead(f, o, o, n);
    NonNegOffsets(o, n);
  }

  lemma {:induction false} NonNegOffsets(off: int, f: Forest)
    requires off >= 0
    ensures NodeOffsets(off, f) != [] ==> NodeOffsets(off, f)[0] >= 0
    decreases f
  {
    match f
    case Nop(n) => NonNegOffsets(off + 4, n);
    case Prop(_, val, n) => NonNegOffsets(off + PropSize(val), n);
    case _ =>
  }

  // ---- the strings block ---------------------------------------------------------------------

  /** fdt_find_string_: the first place where s and its terminator are stored,
      possibly as the end of a longer string. */
  method FindString(strtab: seq<byte>, s: seq<byte>) returns (p: int)
    requires 0 !in s
    ensures p >= 0 ==> IsStrAt(strtab, p, s)
    ensures p >= 0 ==> forall q :: 0 <= q < p ==> !IsStrAt(strtab, q, s)
    ensures p < 0 ==> forall q :: 0 <= q ==> !IsStrAt(strtab, q, s)
  {
    var len := |s| + 1;
    p := 0;
    while p <= |strtab| - len
      invariant p >= 0 && forall q :: 0 <= q < p ==> !IsStrAt(strtab, q, s)
    {
      if strtab[p..p + len] == s + [0] {
        StoredHere(strtab, p, s);
        return;
      }
      if IsStrAt(strtab, p, s) {
        StoredThere(strtab, p, s);
      }
      p := p + 1;
    }
    p := -1;
  }

  lemma StoredHere(strtab: seq<byte>, p: int, s: seq<byte>)
    requires 0 !in s && 0 <= p && p + |s| + 1 <= |strtab| && strtab[p..p + |s| + 1] == s + [0]
    ensures IsStrAt(strtab, p, s)
  {
    forall j | p <= j < p + |s| ensures strtab[j] == s[j - p] {
      assert strtab[j] == strtab[p..p + |s| + 1][j - p];
    }
    assert strtab[p + |s|] == strtab[p..p + |s| + 1][|s|];
  }

  lemma StoredThere(strtab: seq<byte>, p: int, s: seq<byte>)
    requires IsStrAt(strtab, p, s)
    ensures strtab[p..p + |s| + 1] == s + [0]
  {
    var x, y := strtab[p..p + |s| + 1], s + [0];
    forall j | 0 <= j < |x| ensures x[j] == y[j] {
      if j < |s| {
        assert strtab[p + j] == s[p + j - p];
      }
    }
  }
}
