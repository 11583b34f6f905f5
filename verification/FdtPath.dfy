/** fdt_ro.c: depth, ancestors and paths of nodes. */
module FdtPath {
  import opened Bytes
  import opened FdtFormat
  import opened FdtTree
  import opened FdtBlob
  import opened Fdt
  import opened FdtRo
  import opened FdtEdits
  import opened FdtWalk

  const SLASH: byte := 47

  /** A node on the way to another one. */
  datatype Hop = Hop(off: int, name: seq<byte>)

  /** The nodes that enclose the node at offset d, the outermost first, and that
      node itself; f are the items from off on. */
  function Way(off: int, f: Forest, d: int): seq<Hop>
    decreases f
  {
    match f
    case Nil => []
    case Nop(n) => Way(off + 4, n, d)
    case Prop(_, val, n) => Way(off + PropSize(val), n, d)
    case Sub(name, kids, n) =>
      if d == off then [Hop(off, name)]
      else if d < off + NodeSize(f) then [Hop(off, name)] + Way(off + HdrSize(name), kids, d)
      else Way(off + NodeSize(f), n, d)
  }

  // ---- the walk from the root ----------------------------------------------------------

  /** The nodes a walk from the root is inside of, the root first. */
  function Chain(root: Hop, k: Cont): (c: seq<Hop>)
    ensures |c| == Height(k) + 1
  {
    if k.Up? then Chain(root, k.k) + [Hop(k.off, k.name)] else [root]
  }

  /** The way to d that a walk which still has f and then k before it will take. */
  function Ahead(root: Hop, off: int, f: Forest, k: Cont, d: int): seq<Hop>
    decreases k
  {
    if IsNode(f, d - off) then Chain(root, k) + Way(off, f, d)
    else if k.Up? then Ahead(root, off + Size(f) + 4, k.next, k.k, d)
    else []
  }

  /** The walk stands at the node name at r, f and k follow inside it, and it is
      on course for d, whose way is goal. */
  ghost predicate OnCourse(s: seq<byte>, root: Hop, r: int, name: seq<byte>, f: Forest, k: Cont, d: int,
                           goal: seq<Hop>) {
    && Entered(s, r, name, f, k)
    && (k.Up? ==> k.off == r && k.name == name) && (!k.Up? ==> root == Hop(r, name))
    && r <= d
    && if r == d then Chain(root, k) == goal
       else goal != [] && Ahead(root, r + HdrSize(name), f, k, d) == goal
  }

  lemma NodeAhead(f: Forest, e: int)
    requires IsNode(f, e) && e != 0
    ensures f.Nop? ==> IsNode(f.next, e - 4)
    ensures f.Prop? ==> IsNode(f.next, e - PropSize(f.val))
    ensures f.Sub? ==> if e < NodeSize(f) then IsNode(f.kids, e - HdrSize(f.name)) else IsNode(f.next, e - NodeSize(f))
    ensures !f.Nil? && e > 0
  {
    hide HdrSize, PropSize, Size, RestAt;
    StepDown(f, e, f);
    RestInside(f, e);
  }

  lemma NotAhead(f: Forest, e: int)
    requires !IsNode(f, e)
    ensures f.Nop? ==> !IsNode(f.next, e - 4)
    ensures f.Prop? ==> !IsNode(f.next, e - PropSize(f.val))
  {
    hide HdrSize, PropSize, Size, RestAt;
    if f.Nop? && IsNode(f.next, e - 4) {
      RestInside(f.next, e - 4);
      RestOfItem(f, e);
    }
    if f.Prop? && IsNode(f.next, e - PropSize(f.val)) {
      RestInside(f.next, e - PropSize(f.val));
      PropAligned(f.val);
      RestOfItem(f, e);
    }
  }

  /** Skipping properties, NOPs and closed nodes does not change what is ahead. */
  lemma {:induction false} SeekAhead(root: Hop, off: int, f: Forest, k: Cont, d: int)
    requires Bottom(k) == Edge
    ensures var r := Seek(off, f, k);
            && (r.Node? ==> Ahead(root, r.at, r.f, r.k, d) == Ahead(root, off, f, k, d))
            && (!r.Node? ==> Ahead(root, off, f, k, d) == [])
    decreases k, f
  {
    hide HdrSize, PropSize, Size, RestAt;
    match f
    case Nop(n) => NopAhead(root, off, f, k, d); SeekAhead(root, off + 4, n, k, d);
    case Prop(_, val, n) => NopAhead(root, off, f, k, d); SeekAhead(root, off + PropSize(val), n, k, d);
    case Sub(_, _, _) =>
    case Nil =>
      NilHasNone(d - off);
      SizeStep(Nil);
      if k.Up? {
        SeekAhead(root, off + 4, k.next, k.k, d);
      }
  }

  lemma NilHasNone(e: int)
    ensures !IsNode(Nil, e)
  {
  }

  lemma NopAhead(root: Hop, off: int, f: Forest, k: Cont, d: int)
    requires f.Nop? || f.Prop?
    ensures Ahead(root, off, f, k, d) == Ahead(root, off + ItemSize(f), f.next, k, d)
  {
    hide HdrSize, PropSize, Size, RestAt;
    SizeStep(f);
    if IsNode(f, d - off) {
      if d == off {
        RestHere(f);
      } else {
        NodeAhead(f, d - off);
      }
    } else {
      NotAhead(f, d - off);
    }
  }

  /** Entering the next node. */
  lemma EnterAhead(root: Hop, at: int, g: Forest, k: Cont, d: int)
    requires g.Sub? && Ahead(root, at, g, k, d) != []
    ensures at == d ==> Chain(root, Up(at, g.name, g.next, k)) == Ahead(root, at, g, k, d)
    ensures at != d ==>
      Ahead(root, at + HdrSize(g.name), g.kids, Up(at, g.name, g.next, k), d) == Ahead(root, at, g, k, d)
  {
    hide HdrSize, PropSize, Size, RestAt, Way;
    WayStep(at, g, d);
    var e := d - at;
    SizeStep(g);
    RestHere(g);
    if at != d {
      if IsNode(g, e) {
        NodeAhead(g, e);
        if e < NodeSize(g) {
          assert e < NodeSize(g);
        } else {
          KidsEnd(g, e);
        }
      } else {
        RestOfItem(g, e);
        NoKid(g, e);
        SubNoNext(g, e);
      }
    }
  }

  /** Nothing of the kids lies behind the node. */
  lemma KidsEnd(g: Forest, e: int)
    requires g.Sub? && e >= NodeSize(g)
    ensures !IsNode(g.kids, e - HdrSize(g.name))
  {
    hide HdrSize, PropSize, Size, RestAt;
    if IsNode(g.kids, e - HdrSize(g.name)) {
      RestInside(g.kids, e - HdrSize(g.name));
    }
  }

  lemma NoKid(g: Forest, e: int)
    requires g.Sub? && !IsNode(g, e) && e != 0
    ensures !IsNode(g.kids, e - HdrSize(g.name))
  {
    hide HdrSize, PropSize, Size, RestAt;
    if IsNode(g.kids, e - HdrSize(g.name)) {
      RestInside(g.kids, e - HdrSize(g.name));
      NodeRoomFor(g.kids, e - HdrSize(g.name));
      RestOfItem(g, e);
    }
  }

  lemma NodeRoomFor(f: Forest, e: int)
    requires IsNode(f, e)
    ensures e < Size(f)
  {
    hide HdrSize, PropSize, Size, RestAt;
    RestInside(f, e);
    SizeStep(RestAt(f, e).value);
    HdrSome(RestAt(f, e).value.name);
  }

  lemma SubNoNext(g: Forest, e: int)
    requires g.Sub? && !IsNode(g, e) && e != 0
    ensures !IsNode(g.next, e - NodeSize(g))
  {
    hide HdrSize, PropSize, Size, RestAt;
    if IsNode(g.next, e - NodeSize(g)) {
      RestInside(g.next, e - NodeSize(g));
      HdrSome(g.name);
      RestOfItem(g, e);
    }
  }

  lemma StartCourse(s: seq<byte>, f: Forest, d: int)
    requires TreeIn(s, f) && IsNode(f, d)
    ensures f.Sub?
    ensures OnCourse(s, Hop(0, f.name), 0, f.name, f.kids, Edge, d, Way(0, f, d))
    ensures Way(0, f, d) != [] && Way(0, f, d)[0] == Hop(0, f.name)
  {
    hide HdrSize, PropSize, Size, RestAt, TreeIn, Point, NodeHdr, Way;
    TreeRoot(s, f);
    NodeFacts(s, f, 0);
    RestInside(f, d);
    WayStep(0, f, d);
    if d != 0 {
      InsideRoot(f, d);
      NodeRoomFor(f.kids, d - HdrSize(f.name));
    }
  }

  lemma TreeRoot(s: seq<byte>, f: Forest)
    requires TreeIn(s, f)
    ensures f.Sub? && OnlyNops(f.next) && RestAt(f, 0) == Some(f)
  {
    hide At;
    RestHere(f);
  }

  lemma WayStep(off: int, f: Forest, d: int)
    ensures f.Nop? ==> Way(off, f, d) == Way(off + 4, f.next, d)
    ensures f.Prop? ==> Way(off, f, d) == Way(off + PropSize(f.val), f.next, d)
    ensures f.Sub? ==>
            Way(off, f, d) ==
            if d == off then [Hop(off, f.name)]
            else if d < off + NodeSize(f) then [Hop(off, f.name)] + Way(off + HdrSize(f.name), f.kids, d)
            else Way(off + NodeSize(f), f.next, d)
  {
    hide HdrSize, PropSize, Size;
  }

  lemma {:induction false} AheadIsBehind(root: Hop, off: int, f: Forest, k: Cont, d: int)
    requires Ahead(root, off, f, k, d) != []
    ensures off <= d
    decreases k
  {
    hide HdrSize, PropSize, Size, RestAt, Way, Chain;
    if IsNode(f, d - off) {
      RestInside(f, d - off);
    } else {
      AheadIsBehind(root, off + Size(f) + 4, k.next, k.k, d);
    }
  }

  /** The nodes around the next stop are nodes around this one. */
  lemma {:induction false} SeekChain(root: Hop, off: int, f: Forest, k: Cont)
    ensures var r := Seek(off, f, k); r.Node? ==> Chain(root, r.k) <= Chain(root, k)
    decreases k, f
  {
    hide HdrSize, PropSize, Size;
    match f
    case Nop(n) => SeekChain(root, off + 4, n, k);
    case Prop(_, val, n) => SeekChain(root, off + PropSize(val), n, k);
    case Sub(_, _, _) =>
    case Nil =>
      if k.Up? {
        SeekChain(root, off + 4, k.next, k.k);
      }
  }

  /** One step of the walk. */
  lemma CourseStep(s: seq<byte>, root: Hop, r: int, name: seq<byte>, f: Forest, k: Cont, d: int, goal: seq<Hop>)
    requires OnCourse(s, root, r, name, f, k, d, goal) && r != d
    ensures var stop := Seek(r + HdrSize(name), f, k);
            && stop.Node? && r < stop.at <= d && stop.at <= |s|
            && OnCourse(s, root, stop.at, stop.f.name, stop.f.kids, Up(stop.at, stop.f.name, stop.f.next, stop.k), d,
                        goal)
            && Chain(root, stop.k) <= Chain(root, k)
  {
    hide HdrSize, PropSize, Size, RestAt, Way, Chain, Point, NodeHdr, Seek, Ahead;
    var at := r + HdrSize(name);
    var stop := Seek(at, f, k);
    SeekAhead(root, at, f, k, d);
    SeekPoint(s, at, f, k);
    SeekChain(root, at, f, k);
    EnterPoint(s, stop.at, stop.f, stop.k);
    AheadIsBehind(root, stop.at, stop.f, stop.k, d);
    EnterAhead(root, stop.at, stop.f, stop.k, d);
    HdrSome(name);
    StopInside(s, stop.at, stop.f.name);
  }

  lemma StopInside(s: seq<byte>, at: int, name: seq<byte>)
    requires NodeHdr(s, at, name)
    ensures at <= |s|
  {
  }

  // ---- depth and ancestors ------------------------------------------------------------------

  /** Where the node ends that a walk with f and then k before it goes through. */
  function EndOf(off: int, f: Forest, k: Cont): int
    decreases k
  {
    if k.Up? then EndOf(off + Size(f) + 4, k.next, k.k) else off + Size(f) + 4
  }

  lemma {:induction false} SeekEnd(off: int, f: Forest, k: Cont)
    requires Bottom(k) == Edge
    ensures var r := Seek(off, f, k);
            && !r.Done?
            && (r.Node? ==> EndOf(r.at, r.f, r.k) == EndOf(off, f, k))
            && (r.Left? ==> r.at == EndOf(off, f, k))
    decreases k, f
  {
    hide HdrSize, PropSize, Size;
    SizeStep(f);
    match f
    case Nop(n) => EndStep(off, f, k); SeekEnd(off + 4, n, k);
    case Prop(_, val, n) => EndStep(off, f, k); SeekEnd(off + PropSize(val), n, k);
    case Sub(_, _, _) =>
    case Nil =>
      if k.Up? {
        SeekEnd(off + 4, k.next, k.k);
      }
  }

  lemma EndStep(off: int, f: Forest, k: Cont)
    requires !f.Nil?
    ensures EndOf(off + ItemSize(f), f.next, k) == EndOf(off, f, k)
  {
    hide HdrSize, PropSize, Size;
    SizeStep(f);
  }

  /** A walk below the root stands at a node of the tree F. */
  ghost predicate Standing(s: seq<byte>, F: Forest, r: int, name: seq<byte>, f: Forest, k: Cont) {
    && Entered(s, r, name, f, k) && F.Sub?
    && IsNode(F, r) && Fits(F, r + HdrSize(name), f, k) && EndOf(r + HdrSize(name), f, k) == NodeSize(F)
  }

  lemma StandStart(s: seq<byte>, F: Forest)
    requires TreeIn(s, F)
    ensures Standing(s, F, 0, F.name, F.kids, Edge)
  {
    hide HdrSize, PropSize, Size, RestAt, TreeIn, Point, NodeHdr;
    TreeRoot(s, F);
    NodeFacts(s, F, 0);
    SubSize(F);
    RestKids(F, 0, F);
  }

  /** The next stop is another node, or the end of the root. */
  lemma StandStep(s: seq<byte>, F: Forest, r: int, name: seq<byte>, f: Forest, k: Cont)
    requires Standing(s, F, r, name, f, k)
    ensures var stop := Seek(r + HdrSize(name), f, k);
            && !stop.Done? && (stop.Left? ==> stop.at == NodeSize(F))
            && (stop.Node? ==>
                  && r < stop.at <= |s|
                  && Standing(s, F, stop.at, stop.f.name, stop.f.kids, Up(stop.at, stop.f.name, stop.f.next, stop.k)))
  {
    hide HdrSize, PropSize, Size, RestAt, Point, NodeHdr, Seek;
    var off := r + HdrSize(name);
    var stop := Seek(off, f, k);
    HdrSome(name);
    SeekEnd(off, f, k);
    SeekPoint(s, off, f, k);
    SeekFits(F, off, f, k);
    if stop.Node? {
      EnterPoint(s, stop.at, stop.f, stop.k);
      EnterFits(F, stop.at, stop.f, stop.k);
      FitsHere(F, stop.at, stop.f, stop.k);
      HdrSome(stop.f.name);
      StopInside(s, stop.at, stop.f.name);
      SizeStep(stop.f);
      EndStep(stop.at, stop.f, stop.k);
    }
  }

  lemma StandHere(s: seq<byte>, F: Forest, r: int, name: seq<byte>, f: Forest, k: Cont)
    requires Standing(s, F, r, name, f, k)
    ensures IsNode(F, r) && r >= 0 && r % 4 == 0 && NodeHdr(s, r, name)
    ensures Point(s, r + HdrSize(name), f, k) && Bottom(k) == Edge
    ensures r < NodeSize(F)
  {
    hide HdrSize, PropSize, Size, RestAt, Point, NodeHdr, Seek;
    EndBehind(r + HdrSize(name), f, k);
    HdrSome(name);
  }

  lemma {:induction false} EndBehind(off: int, f: Forest, k: Cont)
    ensures off < EndOf(off, f, k)
    decreases k
  {
    hide HdrSize, PropSize;
    if k.Up? {
      EndBehind(off + Size(f) + 4, k.next, k.k);
    }
  }

  /** Behind the root there is no node. */
  lemma BehindRoot(s: seq<byte>, F: Forest)
    requires TreeIn(s, F)
    ensures F.Sub? && NodeCheck(s, NodeSize(F)) == BADOFFSET && !IsNode(F, NodeSize(F))
    ensures NodeSize(F) % 4 == 0
  {
    hide HdrSize, Size, NodeHdr, IsTag, At, RestAt, TagAt;
    var e := NodeSize(F);
    SubSize(F);
    TreeRoot(s, F);
    RestStep(F, 0, F);
    RestAtBounds(F, e);
    AtNext(s, 0, F);
    NopsEnd(s, e, F.next);
  }

  lemma NopsEnd(s: seq<byte>, e: int, n: Forest)
    requires OnlyNops(n) && At(s, e, n) && IsTag(s, e + Size(n), END) && e % 4 == 0 && |s| < INT_LIMIT
    ensures TagAt(s, e).tag != BEGIN_NODE
  {
    hide HdrSize;
    if n.Nop? {
      TagAtForest(s, e, n);
    }
  }

  lemma NoHeader(s: seq<byte>, d: int, name: seq<byte>)
    requires NodeCheck(s, d) < 0 && d % 4 == 0
    ensures !NodeHdr(s, d, name)
  {
    hide NodeHdr, TagAt;
    if NodeHdr(s, d, name) {
      NodeHdrCheck(s, d, name);
    }
  }

  /** What the walk says about an offset that is no node. The end of the root is
      taken for a place outside of all nodes. */
  function NoNode(F: Forest, d: int): int
    requires F.Sub?
  {
    if d < NodeSize(F) then BADOFFSET else if d == NodeSize(F) then NOTFOUND else BADSTRUCTURE
  }

  /** fdt_supernode_atdepth_offset */
  method SupernodeAtDepth(b: Blob, node: int, superDepth: int, ghost f: Forest) returns (r: int, nodeDepth: int)
    requires Laid(b.h, b.buf.Length) && TreeIn(b.StructBlock(), f)
    ensures superDepth < 0 ==> r == NOTFOUND
    ensures superDepth >= 0 && !IsNode(f, node) ==> f.Sub? && r == NoNode(f, node)
    ensures superDepth >= 0 && IsNode(f, node) ==>
      var way := Way(0, f, node);
      && way != [] && nodeDepth == |way| - 1
      && r == if superDepth < |way| then way[superDepth].off else NOTFOUND
  {
    hide HdrSize, PropSize, Size, RestAt, Way, Point, NodeHdr, Seek, Ahead, TreeIn, Region, Laid, NodeCheck, Standing,
      OnCourse;
    BehindRoot(b.StructBlock(), f);
    ghost var s, root, goal := b.StructBlock(), Hop(0, f.name), Way(0, f, node);
    StandStart(s, f);
    if IsNode(f, node) {
      StartCourse(s, f, node);
      RestInside(f, node);
    }
    nodeDepth := -1;
    if superDepth < 0 {
      return NOTFOUND, nodeDepth;
    }
    var superOffset := INTERNAL;
    var offset, depth := 0, 0;
    ghost var name, cf, ck, left := f.name, f.kids, Edge, false;
    while offset >= 0 && offset <= node
      invariant left ==> !IsNode(f, node) && depth == -1
      invariant left ==> offset == NodeSize(f) || (offset == BADOFFSET && node > NodeSize(f))
      invariant !left ==> 0 <= offset <= |s| && Standing(s, f, offset, name, cf, ck) && depth == Height(ck)
      invariant !left && IsNode(f, node) ==> OnCourse(s, root, offset, name, cf, ck, node, goal)
      invariant !left && IsNode(f, node) && superDepth < depth ==> superOffset == Chain(root, ck)[superDepth].off
      decreases if left then 0 else 1, if offset >= 0 then 1 else 0, |s| - offset
    {
      if depth == superDepth {
        superOffset := offset;
      }
      if !left && IsNode(f, node) {
        NotPast(s, root, offset, name, cf, ck, node, goal);
      }
      if offset == node {
        nodeDepth := depth;
        if !left {
          AtGoal(s, f, root, offset, name, cf, ck, node, goal);
        }
        if superDepth > depth {
          return NOTFOUND, nodeDepth;
        }
        return superOffset, nodeDepth;
      }
      ghost var stop := Seek(offset + HdrSize(name), cf, ck);
      if !left {
        StandHere(s, f, offset, name, cf, ck);
        StandStep(s, f, offset, name, cf, ck);
        if IsNode(f, node) {
          CourseStep(s, root, offset, name, cf, ck, node, goal);
        }
      } else {
        NoHeader(s, offset, name);
      }
      offset, depth := NextNode(b, offset, depth, true, name, cf, ck);
      if !left && stop.Node? {
        name, cf, ck := stop.f.name, stop.f.kids, Up(stop.at, stop.f.name, stop.f.next, stop.k);
      } else {
        left := true;
      }
    }
    if !left {
      StandHere(s, f, offset, name, cf, ck);
      if IsNode(f, node) {
        NotPast(s, root, offset, name, cf, ck, node, goal);
      }
    }
    if offset == NOTFOUND || offset >= 0 {
      return BADOFFSET, nodeDepth;
    }
    if offset == BADOFFSET {
      return BADSTRUCTURE, nodeDepth;
    }
    return offset, nodeDepth;
  }

  lemma AtGoal(s: seq<byte>, F: Forest, root: Hop, r: int, name: seq<byte>, f: Forest, k: Cont, d: int, goal: seq<Hop>)
    requires Standing(s, F, r, name, f, k) && r == d
    requires IsNode(F, d) ==> OnCourse(s, root, r, name, f, k, d, goal)
    ensures IsNode(F, d) && Chain(root, k) == goal && |goal| == Height(k) + 1
  {
  }

  lemma NotPast(s: seq<byte>, root: Hop, r: int, name: seq<byte>, f: Forest, k: Cont, d: int, goal: seq<Hop>)
    requires OnCourse(s, root, r, name, f, k, d, goal)
    ensures r <= d && Chain(root, k)[Height(k)].off == r
  {
  }

  /** fdt_node_depth */
  method NodeDepth(b: Blob, node: int, ghost f: Forest) returns (r: int)
    requires Laid(b.h, b.buf.Length) && TreeIn(b.StructBlock(), f)
    ensures IsNode(f, node) ==> r == |Way(0, f, node)| - 1 && r >= 0
    ensures !IsNode(f, node) ==> f.Sub? && r == NoNode(f, node)
  {
    hide HdrSize, PropSize, Size, RestAt, Way, TreeIn, Region, Laid, NodeSize;
    if IsNode(f, node) {
      StartCourse(b.StructBlock(), f, node);
    }
    var err;
    err, r := SupernodeAtDepth(b, node, 0, f);
    if err != 0 {
      return if err < 0 then err else INTERNAL;
    }
  }

  /** fdt_parent_offset */
  method ParentOffset(b: Blob, node: int, ghost f: Forest) returns (r: int)
    requires Laid(b.h, b.buf.Length) && TreeIn(b.StructBlock(), f)
    ensures IsNode(f, node) ==>
      var way := Way(0, f, node);
      r == if |way| >= 2 then way[|way| - 2].off else NOTFOUND
    ensures !IsNode(f, node) ==> f.Sub? && r == NoNode(f, node)
  {
    hide HdrSize, PropSize, Size, RestAt, Way, TreeIn, Region, Laid, NodeSize;
    var nodeDepth := NodeDepth(b, node, f);
    if nodeDepth < 0 {
      return nodeDepth;
    }
    var d;
    r, d := SupernodeAtDepth(b, node, nodeDepth - 1, f);
  }

  // ---- children and their parent ----------------------------------------------------------

  /** The way to a node inside a node goes through it. */
  lemma {:induction false} WayNested(off: int, f: Forest, d: int, e: int)
    requires IsNode(f, d - off) && IsNode(RestAt(f, d - off).value.kids, e)
    ensures var x := RestAt(f, d - off).value;
            var at := d + HdrSize(x.name);
            Way(off, f, at + e) == Way(off, f, d) + Way(at, x.kids, at + e)
    decreases f
  {
    hide HdrSize, PropSize, Size, RestAt, Way;
    var x := RestAt(f, d - off).value;
    var at := d + HdrSize(x.name);
    StepDown(f, d - off, f);
    RestInside(f, d - off);
    RestInside(x.kids, e);
    NodeRoomFor(x.kids, e);
    HdrSome(x.name);
    SizeStep(x);
    WayStep(off, f, d);
    WayStep(off, f, at + e);
    if d != off {
      match f
      case Nop(n) => WayNested(off + 4, n, d, e);
      case Prop(_, val, n) => WayNested(off + PropSize(val), n, d, e);
      case Sub(name, kids, n) =>
        if d - off < NodeSize(f) {
          RestInside(kids, d - off - HdrSize(name));
          WayNested(off + HdrSize(name), kids, d, e);
        } else {
          WayNested(off + NodeSize(f), n, d, e);
        }
    }
  }

  /** The way to a node ends there. */
  lemma {:induction false} WayEnds(off: int, f: Forest, d: int)
    requires IsNode(f, d - off)
    ensures var w := Way(off, f, d); w != [] && w[|w| - 1] == Hop(d, RestAt(f, d - off).value.name)
    decreases f
  {
    hide HdrSize, PropSize, Size, RestAt;
    StepDown(f, d - off, f);
    RestInside(f, d - off);
    if d != off {
      match f
      case Nop(n) => WayEnds(off + 4, n, d);
      case Prop(_, val, n) => WayEnds(off + PropSize(val), n, d);
      case Sub(name, kids, n) =>
        if d - off < NodeSize(f) {
          WayEnds(off + HdrSize(name), kids, d);
        } else {
          WayEnds(off + NodeSize(f), n, d);
        }
    }
  }

  /** A node that is itself an item of the list. */
  lemma {:induction false} WayTop(off: int, k: Forest, i: nat)
    requires i < |NodeOffsets(off, k)|
    ensures var c := NodeOffsets(off, k)[i];
            IsNode(k, c - off) && Way(off, k, c) == [Hop(c, RestAt(k, c - off).value.name)]
    decreases k
  {
    hide HdrSize, PropSize, Size, RestAt;
    var c := NodeOffsets(off, k)[i];
    RestHere(k);
    match k
    case Nop(n) =>
      WayTop(off + 4, n, i);
      RestInside(n, c - off - 4);
      RestOfItem(k, c - off);
    case Prop(_, val, n) =>
      WayTop(off + PropSize(val), n, i);
      RestInside(n, c - off - PropSize(val));
      PropAligned(val);
      RestOfItem(k, c - off);
    case Sub(name, kids, n) =>
      if i > 0 {
        WayTop(off + NodeSize(k), n, i - 1);
        RestInside(n, c - off - NodeSize(k));
        HdrSome(name);
        RestOfItem(k, c - off);
      }
  }

  /** The i-th child of a node: what the enumeration of children visits, and whose
      parent, found by depth, is that node. */
  lemma ParentOfChild(f: Forest, parent: int, i: nat)
    requires IsNode(f, parent)
    requires var x := RestAt(f, parent).value; i < |NodeOffsets(parent + HdrSize(x.name), x.kids)|
    ensures var x := RestAt(f, parent).value;
            var c := NodeOffsets(parent + HdrSize(x.name), x.kids)[i];
            var way := Way(0, f, c);
            && IsNode(f, c) && |way| == |Way(0, f, parent)| + 1
            && |way| >= 2 && way[|way| - 2].off == parent && way[|way| - 1].off == c
  {
    hide HdrSize, PropSize, Size, RestAt, Way, NodeOffsets, Put;
    var x := RestAt(f, parent).value;
    var at := parent + HdrSize(x.name);
    var c := NodeOffsets(at, x.kids)[i];
    WayTop(at, x.kids, i);
    WayEnds(0, f, parent);
    WayNested(0, f, parent, c - at);
    PutNested(f, parent, c - at, Nil);
  }

  // ---- fdt_get_path -----------------------------------------------------------------------------

  /** Every name with a slash behind it: what the buffer of fdt_get_path holds. */
  function Slashed(way: seq<Hop>): seq<byte> {
    if way == [] then [] else Slashed(way[..|way| - 1]) + way[|way| - 1].name + [SLASH]
  }

  lemma SlashedStep(way: seq<Hop>, i: nat)
    requires i < |way|
    ensures Slashed(way[..i + 1]) == Slashed(way[..i]) + way[i].name + [SLASH]
  {
    assert way[..i + 1][..i] == way[..i];
  }

  lemma {:induction false} SlashedShorter(way: seq<Hop>, i: nat, j: nat)
    requires i <= j <= |way|
    ensures |Slashed(way[..i])| <= |Slashed(way[..j])| && (i < j ==> |Slashed(way[..i])| < |Slashed(way[..j])|)
    ensures Slashed(way[..i]) <= Slashed(way[..j])
    decreases j - i
  {
    if i < j {
      SlashedShorter(way, i, j - 1);
      SlashedStep(way, j - 1);
    }
  }

  /** No node name holds a slash (Devicetree Specification, section 2.2.1). */
  predicate NoSlash(f: Forest) {
    match f
    case Nil => true
    case Nop(n) => NoSlash(n)
    case Prop(_, _, n) => NoSlash(n)
    case Sub(name, kids, n) => SLASH !in name && NoSlash(kids) && NoSlash(n)
  }

  predicate Plain(way: seq<Hop>) {
    forall i :: 0 <= i < |way| ==> SLASH !in way[i].name
  }

  predicate PlainAhead(f: Forest, k: Cont)
    decreases k
  {
    NoSlash(f) && (k.Up? ==> PlainAhead(k.next, k.k))
  }

  lemma {:induction false} SeekPlain(off: int, f: Forest, k: Cont)
    requires PlainAhead(f, k)
    ensures var r := Seek(off, f, k); r.Node? ==> PlainAhead(r.f, r.k)
    decreases k, f
  {
    hide HdrSize, PropSize;
    match f
    case Nop(n) => SeekPlain(off + 4, n, k);
    case Prop(_, val, n) => SeekPlain(off + PropSize(val), n, k);
    case Sub(_, _, _) =>
    case Nil =>
      if k.Up? {
        SeekPlain(off + 4, k.next, k.k);
      }
  }

  /** Dropping the last component from the end of a buffer: back to the slash before
      it. Without a component in front the search goes on in front of the buffer. */
  method DropComponent(buf: array<byte>, p: int, ghost way: seq<Hop>, ghost n: nat) returns (q: int, inside: bool)
    requires n <= |way| && Plain(way)
    requires 0 <= p <= buf.Length && buf[..p] == Slashed(way[..n])
    ensures inside <==> n >= 2
    ensures inside ==> 0 < q < p && buf[..q] == Slashed(way[..n - 1])
  {
    hide Slashed;
    ghost var least := 0;
    if n > 0 {
      ghost var name, short := way[n - 1].name, Slashed(way[..n - 1]);
      SlashedStep(way, n - 1);
      least := |short|;
      if n >= 2 {
        SlashedStep(way, n - 2);
        assert short[|short| - 1] == SLASH && |short| > 0;
        assert buf[..p][|short| - 1] == SLASH;
      } else {
        NoComponents(way);
      }
      assert forall j :: |short| <= j < p - 1 ==> buf[..p][j] == name[j - |short|];
    } else {
      NoComponents(way);
    }
    q := p - 1;
    while true
      invariant q < p && (n > 0 ==> least <= q)
      invariant forall j :: least <= j < p - 1 ==> buf[j] != SLASH
      decreases q
    {
      if q < 1 {
        return q, false;
      }
      if buf[q - 1] == SLASH {
        break;
      }
      q := q - 1;
    }
    inside := true;
    assert buf[..q] == buf[..p][..q];
  }

  lemma NoComponents(way: seq<Hop>)
    ensures way[..0] == [] && Slashed([]) == []
  {
  }

  /** The buffer holds the longest leading part of the way that fits. */
  ghost predicate Filled(buf: seq<byte>, p: int, way: seq<Hop>, n: int, buflen: int) {
    && 0 <= n <= |way| && 0 <= p <= buflen <= |buf|
    && buf[..p] == Slashed(way[..n])
    && (n < |way| ==> |Slashed(way[..n + 1])| > buflen)
  }

  /** The components of the way that are not on the new one are dropped. */
  method PopTo(buf: array<byte>, p: int, pdepth: int, depth: int, buflen: int, ghost prev: seq<Hop>,
               ghost way: seq<Hop>)
    returns (q: int, n: int, inside: bool)
    requires Filled(buf[..], p, prev, pdepth, buflen) && Plain(prev)
    requires depth == -1 || (0 <= depth < |way| && way[..depth] <= prev && (depth == 0 ==> pdepth == 0))
    ensures inside <==> depth >= 0
    ensures inside ==>
      && n == (if pdepth <= depth then pdepth else depth) && 0 <= n
      && 0 <= q <= buflen && buf[..q] == Slashed(way[..n])
      && (n < depth ==> |Slashed(way[..n + 1])| > buflen)
  {
    hide Slashed, Plain;
    q, n, inside := p, pdepth, true;
    while n > depth
      invariant n == pdepth || depth <= n <= pdepth
      invariant 0 <= q <= buflen <= buf.Length && 0 <= n <= |prev| && buf[..q] == Slashed(prev[..n])
      decreases n
    {
      q, inside := DropComponent(buf, q, prev, n);
      if !inside {
        return;
      }
      n := n - 1;
    }
    assert prev[..n] == way[..depth][..n] == way[..n];
    if n < depth {
      assert prev[..n + 1] == way[..depth][..n + 1] == way[..n + 1];
    }
  }

  /** A component that fits goes to the end of the buffer. */
  method PushName(buf: array<byte>, p: int, name: seq<byte>, buflen: int, ghost way: seq<Hop>, ghost n: nat)
    returns (q: int, pushed: bool)
    requires n < |way| && way[n].name == name
    requires 0 <= p <= buflen <= buf.Length && buf[..p] == Slashed(way[..n])
    modifies buf
    ensures pushed <==> |Slashed(way[..n + 1])| <= buflen
    ensures 0 <= q <= buflen && buf[..q] == Slashed(way[..if pushed then n + 1 else n])
  {
    hide Slashed;
    SlashedStep(way, n);
    if p + |name| + 1 > buflen {
      return p, false;
    }
    ghost var was := buf[..p];
    forall i | p <= i < p + |name| {
      buf[i] := name[i - p];
    }
    buf[p + |name|] := SLASH;
    q := p + |name| + 1;
    pushed := true;
    assert buf[..q] == was + name + [SLASH];
  }

  /** What fdt_get_path writes for a way: no slash at the end, except for the
      root. */
  function PathText(way: seq<Hop>): seq<byte> {
    var s := Slashed(way);
    if |s| > 1 then s[..|s| - 1] else s
  }

  /** The buffer is too small for the whole way exactly when some part is missing. */
  lemma FilledAll(buf: seq<byte>, p: int, way: seq<Hop>, n: int, buflen: int)
    requires Filled(buf, p, way, n, buflen)
    ensures n == |way| <==> |Slashed(way)| <= buflen
    ensures n == |way| ==> buf[..p] == Slashed(way)
  {
    hide Slashed;
    assert way[..|way|] == way;
    if n < |way| {
      SlashedShorter(way, n + 1, |way|);
    }
  }

  /** The chain of the next node: the nodes around it, and itself. */
  lemma ChainStep(root: Hop, at: int, g: Forest, k: Cont)
    requires g.Sub?
    ensures var c := Chain(root, Up(at, g.name, g.next, k));
            && |c| == Height(k) + 2 && c[|c| - 1] == Hop(at, g.name) && c[..|c| - 1] == Chain(root, k)
  {
  }

  lemma PlainStep(root: Hop, r: int, name: seq<byte>, f: Forest, k: Cont)
    requires Plain(Chain(root, k)) && PlainAhead(f, k)
    ensures var stop := Seek(r + HdrSize(name), f, k);
            stop.Node? && Chain(root, stop.k) <= Chain(root, k) ==>
              && Plain(Chain(root, Up(stop.at, stop.f.name, stop.f.next, stop.k)))
              && PlainAhead(stop.f.kids, Up(stop.at, stop.f.name, stop.f.next, stop.k))
  {
    hide HdrSize, Seek;
    var stop := Seek(r + HdrSize(name), f, k);
    SeekPlain(r + HdrSize(name), f, k);
    if stop.Node? {
      ChainStep(root, stop.at, stop.f, stop.k);
    }
  }

  /** The walk of fdt_get_path at a node, before its name is written: d is the node
      asked for, with the way goal, and prev the way of the node before. */
  ghost predicate Writing(s: seq<byte>, F: Forest, r: int, name: seq<byte>, f: Forest, k: Cont, d: int, goal: seq<Hop>,
                          prev: seq<Hop>) {
    var root := Hop(0, if F.Sub? then F.name else []);
    var way := Chain(root, k);
    && 0 <= r <= |s| && Standing(s, F, r, name, f, k) && way[Height(k)].name == name
    && (IsNode(F, d) ==> OnCourse(s, root, r, name, f, k, d, goal))
    && Plain(way) && PlainAhead(f, k) && Plain(prev) && way[..Height(k)] <= prev
  }

  lemma StartWriting(s: seq<byte>, F: Forest, d: int)
    requires TreeIn(s, F) && NoSlash(F)
    ensures F.Sub? && Writing(s, F, 0, F.name, F.kids, Edge, d, Way(0, F, d), [])
  {
    hide HdrSize, PropSize, Size, RestAt, Way, Point, NodeHdr, TreeIn, Ahead, Entered;
    TreeRoot(s, F);
    StandStart(s, F);
    if IsNode(F, d) {
      StartCourse(s, F, d);
    }
  }

  lemma WritingStep(s: seq<byte>, F: Forest, r: int, name: seq<byte>, f: Forest, k: Cont, d: int, goal: seq<Hop>,
                    prev: seq<Hop>)
    requires Writing(s, F, r, name, f, k, d, goal, prev) && r != d
    ensures F.Sub? && var stop := Seek(r + HdrSize(name), f, k);
            && !stop.Done? && (stop.Left? ==> stop.at == NodeSize(F) && !IsNode(F, d))
            && (stop.Node? ==>
                  && r < stop.at
                  && Writing(s, F, stop.at, stop.f.name, stop.f.kids, Up(stop.at, stop.f.name, stop.f.next, stop.k), d,
                             goal, Chain(Hop(0, F.name), k)))
  {
    hide HdrSize, PropSize, Size, RestAt, Point, NodeHdr, Seek, Ahead, Standing, OnCourse, Plain, PlainAhead, Chain,
      Entered;
    var root := Hop(0, if F.Sub? then F.name else []);
    var stop := Seek(r + HdrSize(name), f, k);
    StandSub(s, F, r, name, f, k);
    StandStep(s, F, r, name, f, k);
    SeekChain(root, r + HdrSize(name), f, k);
    if IsNode(F, d) {
      CourseStep(s, root, r, name, f, k, d, goal);
    }
    PlainStep(root, r, name, f, k);
    if stop.Node? {
      ChainStep(root, stop.at, stop.f, stop.k);
    }
  }

  lemma StandSub(s: seq<byte>, F: Forest, r: int, name: seq<byte>, f: Forest, k: Cont)
    requires Standing(s, F, r, name, f, k)
    ensures F.Sub?
  {
  }

  /** What it knows there. */
  lemma WritingHere(s: seq<byte>, F: Forest, r: int, name: seq<byte>, f: Forest, k: Cont, d: int, goal: seq<Hop>,
                    prev: seq<Hop>)
    requires Writing(s, F, r, name, f, k, d, goal, prev)
    ensures r >= 0 && r % 4 == 0 && NodeHdr(s, r, name) && F.Sub? && r < NodeSize(F)
    ensures Point(s, r + HdrSize(name), f, k) && Bottom(k) == Edge
    ensures var way := Chain(Hop(0, F.name), k);
            && way[Height(k)].name == name && way[..Height(k)] <= prev && Plain(prev) && Plain(way)
            && (IsNode(F, d) ==> r <= d) && (r == d ==> IsNode(F, d) && way == goal)
  {
    hide HdrSize, PropSize, Size, RestAt, Point, NodeHdr, Seek, Ahead, Standing, Plain, PlainAhead, Chain, Entered;
    StandSub(s, F, r, name, f, k);
    StandHere(s, F, r, name, f, k);
    if IsNode(F, d) {
      NotPast(s, Hop(0, F.name), r, name, f, k, d, goal);
    }
    if r == d {
      AtGoal(s, F, Hop(0, F.name), r, name, f, k, d, goal);
    }
  }

  /** fdt_get_path. The walk of an offset in front of the end of the root stays inside
      the buffer; of any other it does not, and r means nothing. For a node it
      succeeds exactly when the buffer holds the path and its terminator, whatever
      the names off the way are. */
  method GetPath(b: Blob, node: int, buf: array<byte>, buflen: int, ghost f: Forest) returns (r: int, inside: bool)
    requires Laid(b.h, b.buf.Length) && TreeIn(b.StructBlock(), f) && NoSlash(f)
    requires buflen <= buf.Length && buf != b.buf
    modifies buf
    ensures f.Sub? && (inside <==> buflen < 2 || node < NodeSize(f))
    ensures inside && !IsNode(f, node) ==> r == if buflen < 2 then NOSPACE else BADOFFSET
    ensures IsNode(f, node) ==>
      var path := PathText(Way(0, f, node));
      && inside
      && (r == 0 <==> buflen >= 2 && |path| + 1 <= buflen)
      && (r != 0 ==> r == NOSPACE)
      && (r == 0 ==> buf[..|path|] == path && buf[|path|] == 0)
  {
    hide HdrSize, PropSize, Size, RestAt, Way, Point, NodeHdr, Seek, Ahead, TreeIn, Region, Laid, Slashed, Plain,
      Filled, Chain, NodeCheck, StrAt, Writing, NoSlash, PathText, NodeSize;
    ghost var s, goal := b.StructBlock(), Way(0, f, node);
    StartWriting(s, f, node);
    WritingHere(s, f, 0, f.name, f.kids, Edge, node, goal, []);
    PathTextIs(goal);
    NodeInRoot(s, f, node);
    inside := true;
    if buflen < 2 {
      return NOSPACE, inside;
    }
    var p, pdepth := 0, 0;
    var offset, depth := 0, 0;
    ghost var name, cf, ck, prev, left := f.name, f.kids, Edge, [], false;
    StartFilled(buf[..], f, Hop(0, f.name), buflen);
    while offset >= 0 && offset <= node
      invariant inside && Filled(buf[..], p, prev, pdepth, buflen) && Plain(prev)
      invariant left ==> !IsNode(f, node) && offset == NodeSize(f) && depth == -1
      invariant !left ==> Writing(s, f, offset, name, cf, ck, node, goal, prev) && depth == Height(ck)
      invariant !left ==> (depth == 0 ==> pdepth == 0)
      decreases if left then 0 else 1, node - offset
    {
      ghost var way := if left then [] else Chain(Hop(0, f.name), ck);
      if !left {
        WritingHere(s, f, offset, name, cf, ck, node, goal, prev);
        NodeNameAt(s, offset, name);
      }
      p, pdepth, inside := PopTo(buf, p, pdepth, depth, buflen, prev, way);
      if !inside {
        return 0, inside;
      }
      if pdepth >= depth {
        var err, nm := GetName(b, offset);
        if err != 0 {
          return err, inside;
        }
        var pushed;
        p, pushed := PushName(buf, p, nm, buflen, way, pdepth);
        if pushed {
          pdepth := pdepth + 1;
        }
      }
      NowFilled(buf[..], p, way, pdepth, buflen);
      if offset == node {
        FilledAll(buf[..], p, way, pdepth, buflen);
        FilledBounds(buf[..], p, way, pdepth, buflen);
        if pdepth < depth + 1 {
          return NOSPACE, inside;
        }
        ghost var was := buf[..p];
        if p > 1 {
          p := p - 1;
        }
        buf[p] := 0;
        assert buf[..p] == was[..p];
        return 0, inside;
      }
      ghost var stop := Seek(offset + HdrSize(name), cf, ck);
      WritingStep(s, f, offset, name, cf, ck, node, goal, prev);
      offset, depth := NextNode(b, offset, depth, true, name, cf, ck);
      prev := way;
      if stop.Node? {
        name, cf, ck := stop.f.name, stop.f.kids, Up(stop.at, stop.f.name, stop.f.next, stop.k);
        WritingHere(s, f, offset, name, cf, ck, node, goal, prev);
      } else {
        left := true;
      }
    }
    if !left {
      WritingHere(s, f, offset, name, cf, ck, node, goal, prev);
    }
    if offset == NOTFOUND || offset >= 0 {
      return BADOFFSET, inside;
    }
    return if offset == BADOFFSET then BADSTRUCTURE else offset, inside;
  }

  lemma NowFilled(buf: seq<byte>, p: int, way: seq<Hop>, n: int, buflen: int)
    requires 0 <= n <= |way| && 0 <= p <= buflen <= |buf| && buf[..p] == Slashed(way[..n])
    requires n < |way| ==> |Slashed(way[..n + 1])| > buflen
    ensures Filled(buf, p, way, n, buflen)
  {
  }

  lemma NodeInRoot(s: seq<byte>, f: Forest, d: int)
    requires TreeIn(s, f) && f.Sub?
    ensures IsNode(f, d) ==> d < NodeSize(f)
  {
    hide HdrSize, PropSize, Size, RestAt, TreeIn;
    TreeRoot(s, f);
    if IsNode(f, d) {
      if d == 0 {
        NodePositive(f);
      } else {
        InsideRoot(f, d);
        NodeRoomFor(f.kids, d - HdrSize(f.name));
      }
    }
  }

  lemma PathTextIs(way: seq<Hop>)
    ensures var t := Slashed(way); PathText(way) == if |t| > 1 then t[..|t| - 1] else t
    ensures way != [] ==> |Slashed(way)| >= 1
  {
  }

  lemma FilledBounds(buf: seq<byte>, p: int, way: seq<Hop>, n: int, buflen: int)
    requires Filled(buf, p, way, n, buflen)
    ensures 0 <= p <= buflen <= |buf| && n <= |way|
  {
  }

  lemma StartFilled(buf: seq<byte>, f: Forest, root: Hop, buflen: int)
    requires f.Sub? && NoSlash(f) && 2 <= buflen <= |buf| && root.name == f.name
    ensures Filled(buf, 0, [], 0, buflen) && Plain([]) && Plain(Chain(root, Edge)) && PlainAhead(f.kids, Edge)
    ensures Chain(root, Edge)[..0] <= []
  {
  }

  // ---- fdt_path_offset ------------------------------------------------------------------------------

  /** Index of the first slash, or the length. */
  function SlashIn(s: seq<byte>): (i: nat)
    ensures i <= |s|
    ensures SLASH !in s[..i] && (i < |s| ==> s[i] == SLASH)
  {
    if s == [] || s[0] == SLASH then 0
    else
      var i := SlashIn(s[1..]);
      assert s[..i + 1] == [s[0]] + s[1..][..i];
      i + 1
  }

  function ChildNamed(f: Forest, d: int, name: seq<byte>): int {
    if IsNode(f, d) then ChildOff(d + HdrSize(RestAt(f, d).value.name), RestAt(f, d).value.kids, name) else NOTFOUND
  }

  /** Where the components of an absolute path lead from the node at d; runs of
      slashes count as one. */
  function Follow(f: Forest, d: int, path: seq<byte>): int
    decreases |path|
  {
    if path == [] then d
    else if path[0] == SLASH then Follow(f, d, path[1..])
    else
      var q := SlashIn(path);
      var c := ChildNamed(f, d, path[..q]);
      if c < 0 then c else Follow(f, c, path[q..])
  }

  lemma ChildIsNode(f: Forest, d: int, name: seq<byte>)
    requires IsNode(f, d)
    ensures var c := ChildNamed(f, d, name); c < 0 || IsNode(f, c)
  {
    hide HdrSize, PropSize, Size, RestAt, ChildOff, Put, NameEq;
    var x := RestAt(f, d).value;
    var at := d + HdrSize(x.name);
    RestInside(f, d);
    ChildFound(at, x.kids, [], name);
    var c := ChildOff(at, x.kids, name);
    if c >= 0 {
      PutNested(f, d, c - at, Nil);
    }
  }

  /** fdt_path_offset of an absolute path. */
  method PathOffset(b: Blob, path: seq<byte>, ghost f: Forest) returns (r: int)
    requires Laid(b.h, b.buf.Length) && TreeIn(b.StructBlock(), f)
    requires path != [] && path[0] == SLASH
    ensures r == Follow(f, 0, path)
  {
    hide HdrSize, PropSize, Size, RestAt, TreeIn, Region, Laid, ChildOff, SlashIn;
    TreeRoot(b.StructBlock(), f);
    var p := 0;
    r := 0;
    while p < |path|
      invariant 0 <= p <= |path| && IsNode(f, r)
      invariant Follow(f, r, path[p..]) == Follow(f, 0, path)
      decreases |path| - p
    {
      while p < |path| && path[p] == SLASH
        invariant 0 <= p <= |path|
        invariant Follow(f, r, path[p..]) == Follow(f, 0, path)
      {
        assert path[p..][1..] == path[p + 1..];
        p := p + 1;
      }
      if p == |path| {
        return;
      }
      var q := p + SlashIn(path[p..]);
      SlashBehind(path[p..]);
      assert path[p..][..q - p] == path[p..q] && path[p..][q - p..] == path[q..];
      ChildIsNode(f, r, path[p..q]);
      r := SubnodeOffset(b, r, path[p..q], f);
      if r < 0 {
        return;
      }
      p := q;
    }
  }

  lemma SlashBehind(s: seq<byte>)
    requires s != [] && s[0] != SLASH
    ensures SlashIn(s) > 0
  {
  }

  // ---- there and back ---------------------------------------------------------------------------------

  /** Components with a slash before them. */
  function Lead(way: seq<Hop>): seq<byte> {
    if way == [] then [] else [SLASH] + way[0].name + Lead(way[1..])
  }

  /** The two ways to place the slashes. */
  lemma {:induction false} SlashedIsLead(root: Hop, way: seq<Hop>)
    requires root.name == []
    ensures Slashed([root] + way) == Lead(way) + [SLASH]
    decreases |way|
  {
    var all := [root] + way;
    if way == [] {
      assert all[..0] == [];
      assert Slashed(all) == Slashed([]) + [] + [SLASH];
    } else {
      var init, last := way[..|way| - 1], way[|way| - 1];
      assert all[..|all| - 1] == [root] + init;
      SlashedIsLead(root, init);
      LeadLast(init, last);
      assert init + [last] == way;
    }
  }

  lemma {:induction false} LeadLast(way: seq<Hop>, h: Hop)
    ensures Lead(way + [h]) == Lead(way) + [SLASH] + h.name
    decreases |way|
  {
    if way == [] {
      assert (way + [h])[1..] == [];
    } else {
      assert (way + [h])[1..] == way[1..] + [h];
      LeadLast(way[1..], h);
    }
  }

  predicate NamesGiven(way: seq<Hop>) {
    forall i :: 1 <= i < |way| ==> way[i].name != []
  }

  lemma SlashAfter(name: seq<byte>, rest: seq<byte>)
    requires SLASH !in name && name != [] && (rest == [] || rest[0] == SLASH)
    ensures SlashIn(name + rest) == |name|
    decreases |name|
  {
    assert (name + rest)[1..] == name[1..] + rest;
    if |name| == 1 {
      assert name[1..] + rest == rest;
    } else {
      SlashAfter(name[1..], rest);
    }
  }

  lemma FollowOne(f: Forest, d: int, name: seq<byte>, rest: seq<byte>)
    requires SLASH !in name && name != [] && (rest == [] || rest[0] == SLASH)
    ensures var c := ChildNamed(f, d, name);
            Follow(f, d, [SLASH] + name + rest) == if c < 0 then c else Follow(f, c, rest)
  {
    hide ChildNamed;
    var all := [SLASH] + name + rest;
    assert all[1..] == name + rest;
    SlashAfter(name, rest);
    assert (name + rest)[..|name|] == name && (name + rest)[|name|..] == rest;
  }

  /** The node of a list that holds the offset d, with its offset. */
  function Top(off: int, k: Forest, d: int): (t: (int, Forest))
    ensures t.1.Sub? ==> t.1 == k || t.1 < k
    decreases k
  {
    match k
    case Nil => (off, Nil)
    case Nop(n) => Top(off + 4, n, d)
    case Prop(_, val, n) => Top(off + PropSize(val), n, d)
    case Sub(_, _, n) => if d < off + NodeSize(k) then (off, k) else Top(off + NodeSize(k), n, d)
  }

  /** On the way down to d each node is the one its parent finds by its name. */
  predicate FoundByName(off: int, k: Forest, d: int)
    decreases k
  {
    var (o, t) := Top(off, k, d);
    t.Sub? && ChildOff(off, k, t.name) == o && (d == o || FoundByName(o + HdrSize(t.name), t.kids, d))
  }

  lemma TopStep(off: int, k: Forest, d: int)
    ensures k.Nil? ==> Top(off, k, d) == (off, Nil)
    ensures k.Nop? ==> Top(off, k, d) == Top(off + 4, k.next, d)
    ensures k.Prop? ==> Top(off, k, d) == Top(off + PropSize(k.val), k.next, d)
    ensures k.Sub? ==> Top(off, k, d) == if d < off + NodeSize(k) then (off, k) else Top(off + NodeSize(k), k.next, d)
  {
    hide HdrSize, PropSize, Size;
  }

  /** What Top finds, for a node d. */
  lemma {:induction false} TopFacts(off: int, k: Forest, d: int)
    requires IsNode(k, d - off)
    ensures var (o, t) := Top(off, k, d);
            && t.Sub? && off <= o <= d < o + NodeSize(t) && RestAt(k, o - off) == Some(t)
            && (d != o ==> IsNode(t.kids, d - o - HdrSize(t.name)))
            && Way(off, k, d) == [Hop(o, t.name)] + if d == o then [] else Way(o + HdrSize(t.name), t.kids, d)
    decreases k
  {
    hide HdrSize, PropSize, Size, RestAt, Way, Top;
    TopStep(off, k, d);
    StepDown(k, d - off, k);
    RestInside(k, d - off);
    WayStep(off, k, d);
    RestHere(k);
    SizeStep(k);
    if d == off {
      HdrSome(k.name);
    } else {
      match k
      case Nop(n) =>
        TopFacts(off + 4, n, d);
        RestOfItem(k, Top(off, k, d).0 - off);
      case Prop(_, val, n) =>
        TopFacts(off + PropSize(val), n, d);
        PropAligned(val);
        RestOfItem(k, Top(off, k, d).0 - off);
      case Sub(name, kids, n) =>
        HdrSome(name);
        if d >= off + NodeSize(k) {
          TopFacts(off + NodeSize(k), n, d);
          RestOfItem(k, Top(off, k, d).0 - off);
        }
    }
  }

  /** The first child the name of t finds is a node of the list at o or before, and
      if before, then with all it holds. */
  predicate FirstFits(off: int, k: Forest, o: int, t: Forest)
    requires t.Sub?
  {
    var c := ChildOff(off, k, t.name);
    && off <= c <= o && IsNode(k, c - off)
    && (c < o ==> c + NodeSize(RestAt(k, c - off).value) <= o)
  }

  lemma FirstSkips(off: int, k: Forest, o: int, t: Forest)
    requires t.Sub? && off >= 0
    requires k.Nop? ==> FirstFits(off + 4, k.next, o, t)
    requires k.Prop? ==> FirstFits(off + PropSize(k.val), k.next, o, t)
    requires k.Sub? ==> (NameEq(k.name, t.name) && o == off) || o >= off + NodeSize(k)
    requires k.Sub? && o >= off + NodeSize(k) ==> FirstFits(off + NodeSize(k), k.next, o, t)
    requires !k.Nil?
    ensures FirstFits(off, k, o, t)
  {
    hide HdrSize, PropSize, Size, RestAt, NameEq;
    RestHere(k);
    if k.Prop? {
      PropAligned(k.val);
    } else if k.Sub? {
      NodePositive(k);
    }
    RestOfItemAny(k, ChildOff(off, k, t.name) - off);
  }

  lemma {:induction false} FirstMatch(off: int, k: Forest, d: int)
    requires IsNode(k, d - off) && off >= 0
    ensures var (o, t) := Top(off, k, d); t.Sub? && FirstFits(off, k, o, t)
    decreases k
  {
    hide HdrSize, PropSize, Size, RestAt, NameEq, Top, Way, FirstFits;
    TopStep(off, k, d);
    StepDown(k, d - off, k);
    RestInside(k, d - off);
    SelfNamed(Top(off, k, d).1);
    TopFacts(off, k, d);
    match k {
    case Nop(n) => FirstMatch(off + 4, n, d);
    case Prop(_, val, n) => PropAligned(val); FirstMatch(off + PropSize(val), n, d);
    case Sub(name, kids, n) =>
      HdrSome(name);
      if d >= off + NodeSize(k) {
        TopFacts(off + NodeSize(k), n, d);
        FirstMatch(off + NodeSize(k), n, d);
      }
    }
    FirstSkips(off, k, Top(off, k, d).0, Top(off, k, d).1);
  }

  lemma SelfNamed(t: Forest)
    ensures t.Sub? ==> NameEq(t.name, t.name)
  {
  }

  lemma RestOfItemAny(k: Forest, e: int)
    ensures e != 0 ==>
      && (k.Nop? ==> RestAt(k, e) == RestAt(k.next, e - 4))
      && (k.Prop? ==> RestAt(k, e) == RestAt(k.next, e - PropSize(k.val)))
      && (k.Sub? && e >= NodeSize(k) ==> RestAt(k, e) == RestAt(k.next, e - NodeSize(k)))
  {
    if e != 0 {
      RestOfItem(k, e);
    }
  }

  /** Components never lead out of the node they start from. */
  lemma {:induction false} FollowInside(f: Forest, d: int, path: seq<byte>)
    requires IsNode(f, d)
    ensures var r := Follow(f, d, path); r < 0 || d <= r < d + NodeSize(RestAt(f, d).value)
    decreases |path|
  {
    hide HdrSize, PropSize, Size, RestAt, ChildNamed;
    RestInside(f, d);
    NodePositive(RestAt(f, d).value);
    if path != [] {
      if path[0] == SLASH {
        FollowInside(f, d, path[1..]);
      } else {
        var q := SlashIn(path);
        var c := ChildNamed(f, d, path[..q]);
        if c >= 0 {
          ChildInside(f, d, path[..q]);
          SlashBehind(path);
          FollowInside(f, c, path[q..]);
        }
      }
    }
  }

  lemma NodePositive(x: Forest)
    requires x.Sub?
    ensures NodeSize(x) > 0
  {
    hide Size, HdrSize;
    HdrSome(x.name);
  }

  lemma ChildInside(f: Forest, d: int, name: seq<byte>)
    requires IsNode(f, d)
    ensures var c := ChildNamed(f, d, name);
            c >= 0 ==> IsNode(f, c) && d <= c && c + NodeSize(RestAt(f, c).value) <= d + NodeSize(RestAt(f, d).value)
  {
    hide HdrSize, PropSize, Size, RestAt, ChildOff, Put, NameEq;
    var x := RestAt(f, d).value;
    var at := d + HdrSize(x.name);
    RestInside(f, d);
    ChildFound(at, x.kids, [], name);
    HdrSome(x.name);
    var c := ChildOff(at, x.kids, name);
    if c >= 0 {
      PutNested(f, d, c - at, Nil);
      RestInside(x.kids, c - at);
      SizeStep(RestAt(x.kids, c - at).value);
    }
  }

  /** From a node down to d: the components of the way lead to d exactly when each
      node is found by its name. */
  lemma {:induction false} FollowIff(f: Forest, par: int, x: Forest, d: int)
    requires RestAt(f, par) == Some(x) && x.Sub? && IsNode(x.kids, d - par - HdrSize(x.name))
    requires Plain(Way(par + HdrSize(x.name), x.kids, d)) && AllNamed(Way(par + HdrSize(x.name), x.kids, d))
    ensures Follow(f, par, Lead(Way(par + HdrSize(x.name), x.kids, d))) == d
            <==> FoundByName(par + HdrSize(x.name), x.kids, d)
    decreases x.kids
  {
    hide HdrSize, PropSize, Size, RestAt, ChildOff, Put, NameEq, Way, Follow, Top;
    var off := par + HdrSize(x.name);
    var (o, t) := Top(off, x.kids, d);
    var way := Way(off, x.kids, d);
    RestInside(f, par);
    HdrSome(x.name);
    TopFacts(off, x.kids, d);
    FirstMatch(off, x.kids, d);
    var c := ChildOff(off, x.kids, t.name);
    assert way[0].name == t.name;
    FollowOne(f, par, t.name, Lead(way[1..]));
    PutNested(f, par, c - off, Nil);
    if c != o {
      FollowInside(f, c, Lead(way[1..]));
    } else if d == o {
      assert way[1..] == [];
      assert Follow(f, d, []) == d by { FollowNothing(f, d); }
    } else {
      var rest := Way(o + HdrSize(t.name), t.kids, d);
      assert way[1..] == rest;
      FollowIff(f, o, t, d);
    }
  }

  lemma FollowNothing(f: Forest, d: int)
    ensures Follow(f, d, []) == d
  {
  }

  predicate AllNamed(way: seq<Hop>) {
    forall i :: 0 <= i < |way| ==> way[i].name != []
  }

  lemma {:induction false} WayPlain(off: int, f: Forest, d: int)
    requires NoSlash(f)
    ensures Plain(Way(off, f, d))
    decreases f
  {
    hide HdrSize, PropSize, Size;
    match f
    case Nil =>
    case Nop(n) => WayPlain(off + 4, n, d);
    case Prop(_, val, n) => WayPlain(off + PropSize(val), n, d);
    case Sub(name, kids, n) =>
      WayPlain(off + HdrSize(name), kids, d);
      WayPlain(off + NodeSize(f), n, d);
  }

  /** fdt_path_offset of what fdt_get_path wrote for a node is that node, exactly
      when every node on the way is the one its name finds. */
  lemma PathRoundTrip(f: Forest, d: int)
    requires f.Sub? && f.name == [] && OnlyNops(f.next) && IsNode(f, d) && NoSlash(f)
    requires NamesGiven(Way(0, f, d))
    ensures Follow(f, 0, PathText(Way(0, f, d))) == d <==> d == 0 || FoundByName(HdrSize(f.name), f.kids, d)
  {
    hide HdrSize, PropSize, Size, RestAt, Follow, Slashed, Lead, FoundByName, Plain, Way;
    var way := Way(0, f, d);
    WayPlain(0, f, d);
    FirstHop(f, d);
    RestHere(f);
    assert way == [way[0]] + way[1..];
    SlashedIsLead(way[0], way[1..]);
    if d == 0 {
      LeadNone(f, way);
    } else {
      LeadSome(way[1..]);
      InsideRoot(f, d);
      PlainTail(way);
      FollowIff(f, 0, f, d);
    }
  }

  lemma PlainTail(way: seq<Hop>)
    requires Plain(way) && way != []
    ensures Plain(way[1..])
  {
  }

  /** No node of the list answers to the name of a later one, at any level. */
  predicate ClearNames(k: Forest) {
    match k
    case Nil => true
    case Nop(n) => ClearNames(n)
    case Prop(_, _, n) => ClearNames(n)
    case Sub(name, kids, n) => NoneLike(n, name) && ClearNames(kids) && ClearNames(n)
  }

  predicate NoneLike(k: Forest, name: seq<byte>) {
    match k
    case Nil => true
    case Nop(n) => NoneLike(n, name)
    case Prop(_, _, n) => NoneLike(n, name)
    case Sub(m, _, n) => !NameEq(name, m) && NoneLike(n, name)
  }

  lemma {:induction false} TopUnlike(off: int, k: Forest, d: int, name: seq<byte>)
    requires NoneLike(k, name)
    ensures var (o, t) := Top(off, k, d); t.Sub? ==> !NameEq(name, t.name)
    decreases k
  {
    hide HdrSize, PropSize, Size, NameEq;
    match k
    case Nil =>
    case Nop(n) => TopUnlike(off + 4, n, d, name);
    case Prop(_, val, n) => TopUnlike(off + PropSize(val), n, d, name);
    case Sub(_, _, n) => TopUnlike(off + NodeSize(k), n, d, name);
  }

  lemma {:induction false} TopClear(off: int, k: Forest, d: int)
    requires ClearNames(k)
    ensures var (o, t) := Top(off, k, d); t.Sub? ==> ChildOff(off, k, t.name) == o && ClearNames(t.kids)
    decreases k
  {
    hide HdrSize, PropSize, Size, NameEq, Top;
    TopStep(off, k, d);
    match k
    case Nil =>
    case Nop(n) => TopClear(off + 4, n, d);
    case Prop(_, val, n) => TopClear(off + PropSize(val), n, d);
    case Sub(name, _, n) =>
      SelfNamed(k);
      TopClear(off + NodeSize(k), n, d);
      TopUnlike(off + NodeSize(k), n, d, name);
  }

  /** With unambiguous sibling names every node is found by its name. */
  lemma {:induction false} ClearIsFound(off: int, k: Forest, d: int)
    requires ClearNames(k) && IsNode(k, d - off)
    ensures FoundByName(off, k, d)
    decreases k
  {
    hide HdrSize, PropSize, Size, NameEq, RestAt, ChildOff, Top, Way, ClearNames;
    var (o, t) := Top(off, k, d);
    TopFacts(off, k, d);
    TopClear(off, k, d);
    if d != o {
      ClearIsFound(o + HdrSize(t.name), t.kids, d);
    }
  }

  /** A node of the list that a name answers to, found by its own name too late. */
  lemma {:induction false} LikeAt(off: int, k: Forest, name: seq<byte>) returns (d: int)
    requires !NoneLike(k, name)
    ensures IsNode(k, d - off) && d >= off
    ensures var (o, t) := Top(off, k, d); o == d && t.Sub? && NameEq(name, t.name)
    decreases k
  {
    hide HdrSize, PropSize, Size, NameEq, RestAt, Top;
    match k
    case Nop(n) =>
      d := LikeAt(off + 4, n, name);
      TopStep(off, k, d);
      RestOfItem(k, d - off);
    case Prop(_, val, n) =>
      PropAligned(val);
      d := LikeAt(off + PropSize(val), n, name);
      TopStep(off, k, d);
      RestOfItem(k, d - off);
    case Sub(m, _, n) =>
      NodePositive(k);
      if NameEq(name, m) {
        d := off;
        RestHere(k);
      } else {
        d := LikeAt(off + NodeSize(k), n, name);
        RestOfItem(k, d - off);
      }
      TopStep(off, k, d);
  }

  /** Being found in a list means being found in what is left of it, or in its first
      node. */
  lemma FoundStep(off: int, k: Forest, d: int)
    requires FoundByName(off, k, d)
    ensures k.Nop? ==> FoundByName(off + 4, k.next, d)
    ensures k.Prop? ==> FoundByName(off + PropSize(k.val), k.next, d)
    ensures k.Sub? && d >= off + NodeSize(k) ==>
      && FoundByName(off + NodeSize(k), k.next, d)
      && !NameEq(k.name, Top(off + NodeSize(k), k.next, d).1.name)
    ensures k.Sub? && off != d < off + NodeSize(k) ==> FoundByName(off + HdrSize(k.name), k.kids, d)
  {
    hide HdrSize, PropSize, Size, NameEq, Top;
    TopStep(off, k, d);
    if k.Sub? && d >= off + NodeSize(k) {
      var (o, t) := Top(off, k, d);
      NodePositive(k);
      TopNotBefore(off + NodeSize(k), k.next, d);
    }
  }

  lemma {:induction false} TopNotBefore(off: int, k: Forest, d: int)
    ensures var (o, t) := Top(off, k, d); t.Sub? ==> o >= off
    decreases k
  {
    hide HdrSize, Size, Top;
    TopStep(off, k, d);
    match k
    case Nil =>
    case Nop(n) => TopNotBefore(off + 4, n, d);
    case Prop(_, val, n) => PropAligned(val); TopNotBefore(off + PropSize(val), n, d);
    case Sub(_, _, n) => NodePositive(k); TopNotBefore(off + NodeSize(k), n, d);
  }

  /** Where names are ambiguous, some node is not found by its name. */
  lemma {:induction false} UnclearIsLost(off: int, k: Forest) returns (d: int)
    requires !ClearNames(k)
    ensures d >= off && IsNode(k, d - off) && !FoundByName(off, k, d)
    decreases k
  {
    hide HdrSize, PropSize, Size, NameEq, RestAt, Top, NoneLike, FoundByName;
    match k {
    case Nop(n) => d := UnclearIsLost(off + 4, n);
    case Prop(_, val, n) =>
      PropAligned(val);
      d := UnclearIsLost(off + PropSize(val), n);
    case Sub(name, kids, n) =>
      NodePositive(k);
      HdrSome(name);
      if !NoneLike(n, name) {
        d := LikeAt(off + NodeSize(k), n, name);
      } else if !ClearNames(kids) {
        d := UnclearIsLost(off + HdrSize(name), kids);
        NodeRoomFor(kids, d - off - HdrSize(name));
      } else {
        d := UnclearIsLost(off + NodeSize(k), n);
      }
    }
    RestOfItem(k, d - off);
    if FoundByName(off, k, d) {
      FoundStep(off, k, d);
    }
  }

  /** fdt_get_path followed by fdt_path_offset, for one offset. */
  ghost predicate RoundTrip(f: Forest, d: int) {
    IsNode(f, d) ==> Follow(f, 0, PathText(Way(0, f, d))) == d
  }

  /** Every node of the list and below has a name. */
  predicate AllGiven(k: Forest) {
    match k
    case Nil => true
    case Nop(n) => AllGiven(n)
    case Prop(_, _, n) => AllGiven(n)
    case Sub(name, kids, n) => name != [] && AllGiven(kids) && AllGiven(n)
  }

  lemma {:induction false} GivenOnWay(off: int, k: Forest, d: int)
    requires AllGiven(k)
    ensures AllNamed(Way(off, k, d))
    decreases k
  {
    hide HdrSize, PropSize, Size;
    match k
    case Nil =>
    case Nop(n) => GivenOnWay(off + 4, n, d);
    case Prop(_, val, n) => GivenOnWay(off + PropSize(val), n, d);
    case Sub(name, kids, n) =>
      GivenOnWay(off + HdrSize(name), kids, d);
      GivenOnWay(off + NodeSize(k), n, d);
  }

  lemma GivenNames(f: Forest, d: int)
    requires f.Sub? && OnlyNops(f.next) && IsNode(f, d) && AllGiven(f.kids)
    ensures NamesGiven(Way(0, f, d))
  {
    hide HdrSize, Size, Way, RestAt;
    FirstHop(f, d);
    GivenOnWay(HdrSize(f.name), f.kids, d);
    var way := Way(0, f, d);
    forall i | 1 <= i < |way| ensures way[i].name != [] {
      assert way[1..][i - 1] == way[i];
    }
  }

  lemma InTree(f: Forest, e: int)
    requires f.Sub? && IsNode(f.kids, e) && e >= 0
    ensures IsNode(f, HdrSize(f.name) + e) && HdrSize(f.name) + e > 0
  {
    hide HdrSize, Size, RestAt;
    RestHere(f);
    HdrSome(f.name);
    PutNested(f, 0, e, Nil);
  }

  /** The path of every node leads back to it if and only if no node answers to the
      name of a later sibling. */
  lemma AllRoundTrip(f: Forest)
    requires f.Sub? && f.name == [] && OnlyNops(f.next) && NoSlash(f) && AllGiven(f.kids)
    ensures (forall d :: RoundTrip(f, d)) <==> ClearNames(f.kids)
  {
    hide HdrSize, Size, RestAt, Follow, PathText, Way, FoundByName, ClearNames, NoSlash, AllGiven;
    if ClearNames(f.kids) {
      forall d ensures RoundTrip(f, d) {
        if IsNode(f, d) {
          GivenNames(f, d);
          PathRoundTrip(f, d);
          if d != 0 {
            InsideRoot(f, d);
            ClearIsFound(HdrSize(f.name), f.kids, d);
          }
        }
      }
    } else {
      var d := UnclearIsLost(HdrSize(f.name), f.kids);
      InTree(f, d - HdrSize(f.name));
      GivenNames(f, d);
      PathRoundTrip(f, d);
      assert !RoundTrip(f, d);
    }
  }

  /** "f" behind "f@1" is not reached by its path. */
  lemma TwinLost()
    ensures var f := Sub([], Sub([102, AT_SIGN, 49], Nil, Sub([102], Nil, Nil)), Nil);
            IsNode(f, 20) && !RoundTrip(f, 20)
  {
    var n := Sub([102], Nil, Nil);
    var k := Sub([102, AT_SIGN, 49], Nil, n);
    var f := Sub([], k, Nil);
    assert HdrSize([]) == 8 && HdrSize([102, AT_SIGN, 49]) == 8 && NodeSize(k) == 12;
    assert [102, AT_SIGN, 49][..1] == [102] && NameEq(k.name, n.name);
    assert RestAt(k, 12) == Some(n);
    InTree(f, 12);
    assert Top(8, k, 20) == (20, n);
    assert !FoundByName(8, k, 20);
    assert NoSlash(n) && NoSlash(k) && NoSlash(f);
    GivenNames(f, 20);
    PathRoundTrip(f, 20);
  }

  lemma FirstHop(f: Forest, d: int)
    requires f.Sub? && OnlyNops(f.next) && IsNode(f, d)
    ensures Way(0, f, d) != [] && Way(0, f, d)[0] == Hop(0, f.name)
    ensures d == 0 ==> |Way(0, f, d)| == 1
    ensures d != 0 ==> Way(0, f, d)[1..] == Way(HdrSize(f.name), f.kids, d) != []
  {
    hide HdrSize, PropSize, Size, RestAt;
    WayStep(0, f, d);
    if d != 0 {
      InsideRoot(f, d);
      NodeRoomFor(f.kids, d - HdrSize(f.name));
      WayEnds(HdrSize(f.name), f.kids, d);
      assert ([Hop(0, f.name)] + Way(HdrSize(f.name), f.kids, d))[1..] == Way(HdrSize(f.name), f.kids, d);
    }
  }

  lemma LeadNone(f: Forest, way: seq<Hop>)
    requires |way| == 1 && way[0] == Hop(0, [])
    ensures Lead(way[1..]) == [] && Slashed(way) == [SLASH] && Follow(f, 0, [SLASH]) == 0
  {
    assert way[..0] == [];
    assert Slashed(way) == Slashed([]) + [] + [SLASH];
    assert [SLASH][1..] == [];
  }

  lemma LeadSome(way: seq<Hop>)
    requires way != []
    ensures |Lead(way)| >= 1
  {
  }
}
