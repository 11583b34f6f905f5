/** metadata.c: merging metadata blobs within the driver's limits. */
module Metadata {
  import opened Bytes
  import opened Errno
  import opened FdtFormat
  import opened FdtTree
  import opened FdtBlob
  import opened Fdt
  import opened FdtRo
  import opened FdtEdits
  import opened FdtRw
  import opened FdtMerge
  import opened FdtCost
  import opened FdtOverlay
  import opened FdtMergeLaws
  import opened FdtSwFinish

  const MAX_BLOB_SIZE := 4096 * 25
  const MAX_DEPTH := 5

  // ---- limits and room --------------------------------------------------------------

  /** Levels of nodes below this one. */
  function Levels(d: Dt): nat {
    match d
    case DNil => 0
    case DProp(_, _, n) => Levels(n)
    case DNode(_, k, n) => if 1 + Levels(k) > Levels(n) then 1 + Levels(k) else Levels(n)
  }

  predicate ShortProps(d: Dt) {
    match d
    case DProp(_, val, n) => |val| < MAX_BLOB_SIZE && ShortProps(n)
    case _ => true
  }

  /** No property anywhere is as long as a whole blob may be. */
  predicate Short(d: Dt)
    decreases d, 1
  {
    ShortProps(d) && ShortKids(d)
  }

  predicate ShortKids(d: Dt)
    decreases d, 0
  {
    match d
    case DNil => true
    case DProp(_, _, n) => ShortKids(n)
    case DNode(_, k, n) => Short(k) && ShortKids(n)
  }

  /** The overlay is within what xrt_md_overlay accepts at that depth. */
  predicate Acceptable(d: Dt, depth: int) {
    depth + Levels(d) <= MAX_DEPTH && Short(d)
  }

  lemma {:induction false} PropsAhead(off: int, f: Forest, strs: seq<byte>)
    requires off >= 0
    ensures var r, d := NextProp(off, f), View(f, strs);
            if r < 0 then ShortProps(d)
            else
              var x := SkipNops(f);
              x.Prop? && (ShortProps(d) <==> |x.val| < MAX_BLOB_SIZE && ShortProps(View(x.next, strs)))
    decreases f
  {
    hide HdrWords, PropWords, StrAt;
    if f.Nop? {
      PropsAhead(off + 4, f.next, strs);
    }
  }

  lemma {:induction false} KidsAhead(off: int, f: Forest, strs: seq<byte>)
    requires off >= 0
    ensures var r, d := FirstSub(off, f), View(f, strs);
            && (r < 0 ==> ShortKids(d) && Levels(d) == 0)
            && (r >= 0 ==>
                  && r >= off && IsNode(f, r - off)
                  && var x := RestAt(f, r - off).value;
                  var k, n := View(x.kids, strs), View(x.next, strs);
                  && (ShortKids(d) <==> Short(k) && ShortKids(n))
                  && Levels(d) == if 1 + Levels(k) > Levels(n) then 1 + Levels(k) else Levels(n))
    decreases f
  {
    hide HdrWords, PropWords, StrAt, Short;
    match f
    case Nil =>
    case Nop(n) => KidsAhead(off + 4, n, strs);
    case Prop(_, v, n) => KidsAhead(off + PropSize(v), n, strs);
    case Sub(_, _, _) =>
  }

  // ---- xrt_md_overlay -------------------------------------------------------------------

  /** The property loop. */
  method OverlayProps(blob: Blob, target: int, ov: Blob, node: int, ghost f: Forest, ghost o: Forest)
    returns (err: int, ghost k: Forest)
    requires Holds(blob, f) && IsNode(f, target) && Holds(ov, o) && IsNode(o, node)
    requires blob != ov && blob.buf != ov.buf
    modifies blob, blob.buf
    ensures err == 0 || err == EINVAL
    ensures Holds(blob, PutKids(f, target, k)) && blob.h.totalsize == old(blob.h).totalsize
    ensures exists more :: blob.Strings() == old(blob.Strings()) + more
    ensures var d := View(RestAt(o, node).value.kids, ov.Strings());
            && (err == 0 ==>
                  && View(k, blob.Strings()) == MergeProps(View(RestAt(f, target).value.kids, old(blob.Strings())), d)
                  && ShortProps(d) && Used(blob.h) <= Used(old(blob.h)) + CostProps(old(blob.Strings()), d))
            && (ShortProps(d) && Used(old(blob.h)) + CostProps(old(blob.Strings()), d) <= blob.h.totalsize ==> err == 0)
  {
    hide HdrWords, PropWords, Words, Put, RestAt, Region, TreeIn, At, View, VSetProp, VPutKids, VKids, PathOf,
      MergeProps, Point, SetPropGrowth, NamesOk, RwProbe, StrAt, SkipNops, NextProp, Laid, PutKids, PropCost,
      CostProps, ShortProps;
    k := RestAt(f, target).value.kids;
    ghost var g, s0 := f, blob.Strings();
    ghost var s, ostrs := ov.StructBlock(), ov.Strings();
    ghost var x := RestAt(o, node).value;
    ghost var oo, on := node + HdrSize(x.name), x.kids;
    ghost var d := View(on, ostrs);
    ghost var goal := MergeProps(View(k, blob.Strings()), d);
    OverlayStart(ov, o, node);
    SelfPut(f, target);
    assert blob.Strings() == old(blob.Strings()) + [];
    var property := FirstProperty(ov, node, o);
    while property >= 0
      invariant Holds(blob, g) && g == PutKids(f, target, k) && IsNode(g, target) && RestAt(g, target).value.kids == k
      invariant blob.h.totalsize == old(blob.h).totalsize
      invariant exists more :: blob.Strings() == old(blob.Strings()) + more
      invariant Holds(ov, o) && ov.StructBlock() == s && ov.Strings() == ostrs
      invariant oo >= 0 && Point(s, oo, on, Edge) && NamesOk(on, ostrs) && property == NextProp(oo, on)
      invariant MergeProps(View(k, blob.Strings()), View(on, ostrs)) == goal
      invariant ShortProps(d) <==> ShortProps(View(on, ostrs))
      invariant Used(blob.h) + CostProps(s0, View(on, ostrs)) <= Used(old(blob.h)) + CostProps(s0, d)
      decreases on
    {
      ghost var y := SkipNops(on);
      ghost var was, strs0 := k, blob.Strings();
      OverlayProp(s, oo, on, ostrs, View(k, strs0));
      PropsCost(s0, oo, on, ostrs);
      PropsAhead(oo, on, ostrs);
      var e, name, val := GetPropByOffset(ov, property, y);
      if |val| >= MAX_BLOB_SIZE {
        return EINVAL, k;
      }
      LaidOf(blob, g);
      NamesHeld(blob, g);
      NamesOfKids(g, target, strs0);
      ghost var more :| strs0 == s0 + more;
      GrowthBound(k, s0, more, name, val);
      err, k := SetProp(blob, target, name, val, g);
      if err != 0 {
        return EINVAL, was;
      }
      PutKidsAgain(f, target, was, k);
      g := PutKids(f, target, k);
      Appended(old(blob.Strings()), strs0, blob.Strings());
      oo, on := property + PropSize(y.val), y.next;
      property := NextProperty(ov, property, y);
    }
    NextPropView(View(k, blob.Strings()), oo, on, ostrs);
    PropsCost(s0, oo, on, ostrs);
    PropsAhead(oo, on, ostrs);
    err := 0;
  }

  /** One subnode: find or create it, then merge into it. */
  method OverlaySub(blob: Blob, target: int, ov: Blob, subnode: int, depth: int, ghost f: Forest, ghost o: Forest)
    returns (err: int, ghost k: Forest)
    requires Holds(blob, f) && IsNode(f, target) && Holds(ov, o) && IsNode(o, subnode)
    requires blob != ov && blob.buf != ov.buf
    modifies blob, blob.buf
    decreases Size(RestAt(o, subnode).value.kids), 4
    ensures err == 0 || err == EINVAL
    ensures Holds(blob, PutKids(f, target, k)) && blob.h.totalsize == old(blob.h).totalsize
    ensures exists more :: blob.Strings() == old(blob.Strings()) + more
    ensures var x := RestAt(o, subnode).value;
            var d := View(x.kids, ov.Strings());
            && (err == 0 ==>
                  && View(k, blob.Strings()) ==
                     MergeChild(View(RestAt(f, target).value.kids, old(blob.Strings())), x.name, d)
                  && Acceptable(d, depth + 1)
                  && Used(blob.h) <= Used(old(blob.h)) + HdrSize(x.name) + 4 + Cost(old(blob.Strings()), d))
            && (Acceptable(d, depth + 1)
                && Used(old(blob.h)) + HdrSize(x.name) + 4 + Cost(old(blob.Strings()), d) <= blob.h.totalsize
                ==> err == 0)
  {
    hide HdrWords, PropWords, Words, Put, RestAt, Region, TreeIn, At, View, VAddChild, VPutKids, VKids, PathOf,
      MergeChild, Merge, Point, NamesOk, RwProbe, StrAt, Laid, PutKids, VChild, ChildOff, AddOff, Spliced, NodeCheck,
      Cost, Acceptable;
    ghost var x := RestAt(o, subnode).value;
    ghost var k0 := RestAt(f, target).value.kids;
    ghost var strs := blob.Strings();
    ghost var base := View(k0, strs);
    ghost var off := target + HdrSize(RestAt(f, target).value.name);
    NodeNameHere(ov, o, subnode);
    OverlayStart(blob, f, target);
    RestAtBounds(o, subnode);
    KidsMeaning(f, target, strs);
    var e0, name := GetName(ov, subnode);
    LaidOf(blob, f);
    SelfPut(f, target);
    var nnode;
    nnode, k := AddSubnode(blob, target, name, f);
    assert blob.Strings() == strs + [];
    if nnode == EXISTS {
      nnode := SubnodeOffset(blob, target, name, f);
      k := k0;
      ChildFound(off, k0, strs, name);
    } else if nnode >= 0 {
      AddedFound(off, k0, name);
    }
    if nnode < 0 {
      return EINVAL, k0;
    }
    ghost var g := PutKids(f, target, k);
    PutKidsAgain(f, target, k0, k);
    ghost var k1 := k;
    NamesHeld(blob, g);
    ghost var e, c := ChildReached(g, target, name, strs);
    ghost var ck;
    ChildSmaller(x);
    err, ck := Overlay(blob, nnode, ov, subnode, depth + 1, g, o);
    k := Put(k1, e, Sub(c.name, ck, c.next));
    PutKidsAgain(f, target, k1, k);
    if err == 0 {
      ghost var more :| blob.Strings() == strs + more;
      NamesOfKids(g, target, strs);
      ChildMerged(k1, off, name, e, c, ck, strs, more, base, View(x.kids, ov.Strings()));
    }
  }

  /** The node an offset argument names: a negative one stands for the root. */
  function Named(offset: int): int {
    if offset < 0 then 0 else offset
  }

  lemma RootNode(s: seq<byte>, f: Forest)
    requires TreeIn(s, f)
    ensures Point(s, 0, f, Fin) && IsNode(f, 0) && RestAt(f, 0) == Some(f) && Seek(0, f, Fin) == Node(0, f, Fin)
  {
  }

  /** fdt_next_node(blob, -1, NULL) */
  method RootOffset(b: Blob, ghost f: Forest) returns (r: int)
    requires Holds(b, f)
    ensures r == 0 && IsNode(f, 0)
  {
    hide Point, Seek, TreeIn, Region, RestAt, Laid;
    RootNode(b.StructBlock(), f);
    var d;
    r, d := NextNode(b, -1, 0, false, [], f, Fin);
  }

  /** The subnode loop, after the properties. */
  method OverlaySubs(blob: Blob, target: int, ov: Blob, node: int, depth: int, ghost f: Forest, ghost o: Forest)
    returns (err: int, ghost k: Forest)
    requires Holds(blob, f) && IsNode(f, target) && Holds(ov, o) && IsNode(o, node) && depth <= MAX_DEPTH
    requires blob != ov && blob.buf != ov.buf
    modifies blob, blob.buf
    decreases Size(RestAt(o, node).value.kids), 1
    ensures err == 0 || err == EINVAL
    ensures Holds(blob, PutKids(f, target, k)) && blob.h.totalsize == old(blob.h).totalsize
    ensures exists more :: blob.Strings() == old(blob.Strings()) + more
    ensures var d := View(RestAt(o, node).value.kids, ov.Strings());
            && (err == 0 ==>
                  && View(k, blob.Strings()) == MergeSubs(View(RestAt(f, target).value.kids, old(blob.Strings())), d)
                  && depth + Levels(d) <= MAX_DEPTH && ShortKids(d)
                  && Used(blob.h) <= Used(old(blob.h)) + CostKids(old(blob.Strings()), d))
            && (depth + Levels(d) <= MAX_DEPTH && ShortKids(d)
                && Used(old(blob.h)) + CostKids(old(blob.Strings()), d) <= blob.h.totalsize
                ==> err == 0)
  {
    hide HdrWords, PropWords, HdrSize, Words, Put, RestAt, Region, TreeIn, At, View, VPutKids, VKids, PathOf,
      MergeSubs, MergeChild, Point, NamesOk, RwProbe, StrAt, FirstSub, Laid, PutKids, Used, CostKids, ShortKids,
      Levels, Cost, Short, SwLaid;
    ghost var s, ostrs, s0 := ov.StructBlock(), ov.Strings(), blob.Strings();
    ghost var x := RestAt(o, node).value;
    ghost var oo, on := node + HdrSize(x.name), x.kids;
    ghost var d := View(on, ostrs);
    OverlayStart(ov, o, node);
    HdrPositive(x.name);
    RestKids(o, node, x);
    k := RestAt(f, target).value.kids;
    ghost var g := f;
    ghost var goal := MergeSubs(View(k, blob.Strings()), d);
    SelfPut(f, target);
    assert blob.Strings() == old(blob.Strings()) + [];
    var subnode := FirstSubnode(ov, node, o);
    while subnode >= 0
      invariant Holds(blob, g) && g == PutKids(f, target, k) && IsNode(g, target) && RestAt(g, target).value.kids == k
      invariant blob.h.totalsize == old(blob.h).totalsize
      invariant exists more :: blob.Strings() == old(blob.Strings()) + more
      invariant Holds(ov, o) && ov.StructBlock() == s && ov.Strings() == ostrs
      invariant oo > 0 && RestAt(o, oo) == Some(on) && Size(on) <= Size(x.kids) && subnode == FirstSub(oo, on)
      invariant MergeSubs(View(k, blob.Strings()), View(on, ostrs)) == goal
      invariant ShortKids(d) <==> ShortKids(View(on, ostrs))
      invariant depth + Levels(d) <= MAX_DEPTH <==> depth + Levels(View(on, ostrs)) <= MAX_DEPTH
      invariant Used(blob.h) + CostKids(s0, View(on, ostrs)) <= Used(old(blob.h)) + CostKids(s0, d)
      decreases Size(on)
    {
      ghost var was, strs0 := k, blob.Strings();
      ghost var c := OverlayChild(o, oo, on, View(k, strs0), ostrs);
      RestInFront(s0, o, oo, on, c, ostrs);
      ghost var more :| strs0 == s0 + more;
      CostLess(s0, more, View(c.kids, ostrs));
      err, k := OverlaySub(blob, target, ov, subnode, depth, g, o);
      PutKidsAgain(f, target, was, k);
      g := PutKids(f, target, k);
      Appended(old(blob.Strings()), strs0, blob.Strings());
      if err != 0 {
        return;
      }
      oo, on := subnode + NodeSize(c), c.next;
      subnode := NextSubnode(ov, subnode, o);
    }
    FirstSubView(View(k, blob.Strings()), oo, on, ostrs);
    KidsCost(s0, oo, on, ostrs);
    KidsAhead(oo, on, ostrs);
    err := 0;
  }

  lemma OverlayParts(strs: seq<byte>, base: Dt, d: Dt, depth: int)
    ensures Merge(base, d) == MergeSubs(MergeProps(base, d), d)
    ensures Cost(strs, d) == CostProps(strs, d) + CostKids(strs, d)
    ensures Acceptable(d, depth) <==> depth + Levels(d) <= MAX_DEPTH && ShortProps(d) && ShortKids(d)
  {
    MergeParts(strs, base, d);
  }

  /** xrt_md_overlay: on success the target is the recursive merge. It never
      succeeds on an overlay beyond the limits, and never fails on one within
      them when there is room. */
  method Overlay(blob: Blob, target: int, ov: Blob, offset: int, depth: int, ghost f: Forest, ghost o: Forest)
    returns (err: int, ghost k: Forest)
    requires Holds(blob, f) && IsNode(f, Named(target)) && Holds(ov, o) && IsNode(o, Named(offset))
    requires blob != ov && blob.buf != ov.buf
    modifies blob, blob.buf
    decreases Size(RestAt(o, Named(offset)).value.kids), 3
    ensures err == 0 || err == EINVAL
    ensures Holds(blob, PutKids(f, Named(target), k)) && blob.h.totalsize == old(blob.h).totalsize
    ensures exists more :: blob.Strings() == old(blob.Strings()) + more
    ensures var d := View(RestAt(o, Named(offset)).value.kids, ov.Strings());
            && (err == 0 ==>
                  && View(k, blob.Strings()) == Merge(View(RestAt(f, Named(target)).value.kids, old(blob.Strings())), d)
                  && Acceptable(d, depth)
                  && Used(blob.h) <= Used(old(blob.h)) + Cost(old(blob.Strings()), d))
            && (Acceptable(d, depth) ==>
                  Used(old(blob.h)) + Cost(old(blob.Strings()), d) <= blob.h.totalsize ==> err == 0)
  {
    hide HdrWords, PropWords, HdrSize, Words, Put, RestAt, Region, TreeIn, At, View, VPutKids, VKids, PathOf,
      MergeProps, MergeSubs, Point, NamesOk, RwProbe, StrAt, Laid, PutKids, CostProps, CostKids, ShortProps, ShortKids,
      Levels, Used, Merge, Cost, Short, Acceptable, Holds, Size, StrKnown, PropCost;
    OverlayParts(blob.Strings(), View(RestAt(f, Named(target)).value.kids, blob.Strings()),
                 View(RestAt(o, Named(offset)).value.kids, ov.Strings()), depth);
    if depth > MAX_DEPTH {
      k := RestAt(f, Named(target)).value.kids;
      SelfPut(f, Named(target));
      assert blob.Strings() == old(blob.Strings()) + [];
      return EINVAL, k;
    }
    var tgt, node := target, offset;
    if tgt < 0 {
      tgt := RootOffset(blob, f);
    }
    if node < 0 {
      node := RootOffset(ov, o);
    }
    err, k := OverlayNode(blob, tgt, ov, node, depth, f, o);
  }

  /** ... one node into another, below the depth limit: its properties, then its
      subnodes. */
  method OverlayNode(blob: Blob, tgt: int, ov: Blob, node: int, depth: int, ghost f: Forest, ghost o: Forest)
    returns (err: int, ghost k: Forest)
    requires Holds(blob, f) && IsNode(f, tgt) && Holds(ov, o) && IsNode(o, node) && depth <= MAX_DEPTH
    requires blob != ov && blob.buf != ov.buf
    modifies blob, blob.buf
    decreases Size(RestAt(o, node).value.kids), 2
    ensures err == 0 || err == EINVAL
    ensures Holds(blob, PutKids(f, tgt, k)) && blob.h.totalsize == old(blob.h).totalsize
    ensures exists more :: blob.Strings() == old(blob.Strings()) + more
    ensures var d := View(RestAt(o, node).value.kids, ov.Strings());
            && (err == 0 ==>
                  && View(k, blob.Strings()) == Merge(View(RestAt(f, tgt).value.kids, old(blob.Strings())), d)
                  && Acceptable(d, depth)
                  && Used(blob.h) <= Used(old(blob.h)) + Cost(old(blob.Strings()), d))
            && (Acceptable(d, depth) ==>
                  Used(old(blob.h)) + Cost(old(blob.Strings()), d) <= blob.h.totalsize ==> err == 0)
  {
    hide HdrWords, PropWords, HdrSize, Words, Put, RestAt, Region, TreeIn, At, View, VPutKids, VKids, PathOf,
      MergeProps, MergeSubs, Point, NamesOk, RwProbe, StrAt, Laid, PutKids, CostProps, CostKids, ShortProps, ShortKids,
      Levels, Used, Merge, Cost, Short, Acceptable, Holds, Size, StrKnown, PropCost;
    OverlayParts(blob.Strings(), View(RestAt(f, tgt).value.kids, blob.Strings()),
                 View(RestAt(o, node).value.kids, ov.Strings()), depth);
    err, k := OverlayProps(blob, tgt, ov, node, f, o);
    if err != 0 {
      return;
    }
    ghost var k0, strs0 := k, blob.Strings();
    ghost var more :| strs0 == old(blob.Strings()) + more;
    CostKidsLess(old(blob.Strings()), more, View(RestAt(o, node).value.kids, ov.Strings()));
    PutKidsAgain(f, tgt, k, k);
    err, k := OverlaySubs(blob, tgt, ov, node, depth, PutKids(f, tgt, k), o);
    PutKidsAgain(f, tgt, k0, k);
    Appended(old(blob.Strings()), strs0, blob.Strings());
  }

  /** What remains to be merged, seen from the subnode the loop stands at. */
  lemma RestInFront(s0: seq<byte>, o: Forest, oo: int, on: Forest, c: Forest, strs: seq<byte>)
    requires oo > 0 && RestAt(o, oo) == Some(on) && FirstSub(oo, on) >= 0
    requires RestAt(o, FirstSub(oo, on)) == Some(c)
    ensures c.Sub?
    ensures var d, k, n := View(on, strs), View(c.kids, strs), View(c.next, strs);
            && CostKids(s0, d) == HdrSize(c.name) + 4 + Cost(s0, k) + CostKids(s0, n)
            && (ShortKids(d) <==> Short(k) && ShortKids(n))
            && Levels(d) == if 1 + Levels(k) > Levels(n) then 1 + Levels(k) else Levels(n)
  {
    hide HdrWords, PropWords, Words, RestAt, View, FirstSub, Cost, Short, CostKids, ShortKids, Levels;
    CostInFront(s0, o, oo, on, c, strs);
    KidsAhead(oo, on, strs);
    RestInList(o, oo, on, FirstSub(oo, on) - oo);
  }

  // ---- xrt_md_create and xrt_md_dup -----------------------------------------------------

  /** "addressable_endpoints" */
  const ENDPOINTS: seq<byte> :=
    [97, 100, 100, 114, 101, 115, 115, 97, 98, 108, 101, 95, 101, 110, 100, 112, 111, 105, 110, 116, 115]

  /** What a new metadata blob holds below its root. */
  const NO_ENDPOINTS: Dt := DNode(ENDPOINTS, DNil, DNil)

  lemma EmptyRoot(f: Forest, strs: seq<byte>)
    requires f.Sub? && View(f, strs) == EMPTY
    ensures f.name == [] && View(f.kids, strs) == DNil
    ensures VAddChild(DNil, ENDPOINTS) == NO_ENDPOINTS && VChild(DNil, ENDPOINTS) == None
    ensures HdrSize(ENDPOINTS) == 28 && 0 !in ENDPOINTS
  {
  }

  /** xrt_md_create */
  method Create() returns (ret: int, blob: Blob, ghost f: Forest)
    ensures ret == 0 && fresh(blob) && fresh(blob.buf)
    ensures Holds(blob, f) && blob.h.totalsize == MAX_BLOB_SIZE
    ensures f.Sub? && f.name == [] && OnlyNops(f.next) && View(f.kids, blob.Strings()) == NO_ENDPOINTS
    ensures Used(blob.h) <= 112
  {
    hide TreeIn, At, NamesOk, Region, Words, HdrWords, RwProbe, Laid, View, Spliced, VAddChild, AddOff, VKids,
      PathOf, VPutKids;
    blob := new Blob(MAX_BLOB_SIZE);
    ret, f := CreateEmptyTree(blob, MAX_BLOB_SIZE);
    if ret != 0 {
      return EINVAL, blob, f;
    }
    RootOfBlob(blob, f);
    EmptyRoot(f, blob.Strings());
    ret := RootOffset(blob, f);
    if ret < 0 {
      return EINVAL, blob, f;
    }
    LaidOf(blob, f);
    KidsMeaning(f, 0, blob.Strings());
    ghost var k;
    ret, k := AddSubnode(blob, 0, ENDPOINTS, f);
    if ret < 0 {
      return EINVAL, blob, f;
    }
    PutKidsAgain(f, 0, k, k);
    f := PutKids(f, 0, k);
    RootOfBlob(blob, f);
    ret := 0;
  }

  lemma RootOfBlob(b: Blob, f: Forest)
    requires Holds(b, f)
    ensures f.Sub? && RestAt(f, 0) == Some(f) && OnlyNops(f.next)
  {
    RootNode(b.StructBlock(), f);
  }

  /** xrt_md_dup. Some outcome of a failed run is the null pointer. */
  method Dup(blob: Blob, ghost o: Forest) returns (ok: bool, dup: Blob, ghost f: Forest)
    requires Holds(blob, o)
    ensures ok ==> fresh(dup) && fresh(dup.buf) && Holds(dup, f) && f.Sub? && o.Sub?
    ensures ok ==> View(f.kids, dup.Strings()) == Merge(NO_ENDPOINTS, View(o.kids, blob.Strings()))
    ensures ok ==> Acceptable(View(o.kids, blob.Strings()), 0)
    ensures o.Sub? && Acceptable(View(o.kids, blob.Strings()), 0) ==>
              112 + Cost([], View(o.kids, blob.Strings())) <= MAX_BLOB_SIZE ==> ok
  {
    hide HdrWords, PropWords, Words, Put, RestAt, Region, TreeIn, At, View, NamesOk, Laid, PutKids, Cost, Acceptable,
      Used, Merge;
    var ret;
    ret, dup, f := Create();
    if ret != 0 {
      return false, dup, f;
    }
    RootOfBlob(blob, o);
    RootOfBlob(dup, f);
    ghost var k;
    CostLess([], dup.Strings(), View(o.kids, blob.Strings()));
    assert [] + dup.Strings() == dup.Strings();
    ret, k := Overlay(dup, -1, blob, -1, 0, f, o);
    PutKidsAgain(f, 0, k, k);
    f := PutKids(f, 0, k);
    RootOfBlob(dup, f);
    ok := ret == 0;
  }

  /** By lookup, the merge into the new blob is the source, plus an endpoints
      node that is empty if the source has none. */
  lemma {:induction false} DupClear(d: Dt)
    requires Clear(DNil, d)
    ensures Clear(NO_ENDPOINTS, d)
  {
    DupClearKids(d, d);
  }

  lemma {:induction false} DupClearKids(all: Dt, d: Dt)
    requires ClearKids(DNil, all, d)
    ensures ClearKids(NO_ENDPOINTS, all, d)
    decreases d
  {
    hide Clear, NameEq;
    match d
    case DNil =>
    case DProp(_, _, n) => DupClearKids(all, n);
    case DNode(name, k, n) => DupClearKids(all, n); OnlyItself(name);
  }

  lemma OnlyItself(name: seq<byte>)
    ensures Apart(NO_ENDPOINTS, name) && OrNil(VExact(NO_ENDPOINTS, name)) == DNil == OrNil(VExact(DNil, name))
  {
    assert NameEq(ENDPOINTS, name) ==> ENDPOINTS[..|name|] == name;
  }

  lemma DupByPath(d: Dt, path: seq<seq<byte>>, p: seq<byte>)
    requires Clear(DNil, d)
    ensures var m, o := Walk(Merge(NO_ENDPOINTS, d), path), Walk(d, path);
            && (m.Some? <==> o.Some? || path == [ENDPOINTS])
            && (o.Some? ==> VGet(m.value, p) == VLast(o.value, p))
            && (m.Some? && o.None? ==> VGet(m.value, p) == None)
  {
    hide Merge, Clear, NameEq;
    DupClear(d);
    MergeByPath(NO_ENDPOINTS, d, path, p);
    NewBlobWalk(path, p);
  }

  lemma NewBlobWalk(path: seq<seq<byte>>, p: seq<byte>)
    ensures Walk(NO_ENDPOINTS, path) ==
            if path == [] then Some(NO_ENDPOINTS) else if path == [ENDPOINTS] then Some(DNil) else None
    ensures VGet(NO_ENDPOINTS, p) == None && VGet(DNil, p) == None
  {
    if path != [] {
      NilWalk(path[1..]);
      assert path == [path[0]] + path[1..];
      assert VExact(NO_ENDPOINTS, path[0]) == if path[0] == ENDPOINTS then Some(DNil) else None;
    }
  }
}
