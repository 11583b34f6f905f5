/** fdt_overlay.c: merging one blob into another, in place. */
module FdtOverlay {
  import opened Bytes
  import opened FdtFormat
  import opened FdtTree
  import opened FdtBlob
  import opened Fdt
  import opened FdtRo
  import opened FdtEdits
  import opened FdtRw
  import opened FdtMerge
  import opened FdtCost

  /** fdt_getprop_by_offset: name and value of the property at off. */
  method GetPropByOffset(b: Blob, off: int, ghost x: Forest) returns (err: int, name: seq<byte>, val: seq<byte>)
    requires Laid(b.h, b.buf.Length)
    requires Point(b.StructBlock(), off, x, Edge) && x.Prop? && NamesOk(x, b.Strings())
    ensures err == 0 && name == StrAt(b.Strings(), x.nameoff) && val == x.val
    ensures 0 !in name && |val| < INT_LIMIT - 16
  {
    hide Point, Region, NameOk, StrAt, Word, HdrWords, PropWords, PropCheck, At;
    name, val := [], [];
    BlockSizes(b);
    ghost var s := b.StructBlock();
    PropHere(s, off, x);
    NamesHead(x, b.Strings());
    var next := CheckPropOffset(b, off);
    if next < 0 {
      return next, name, val;
    }
    var len := Word(b.StructBlock(), off + 4);
    err, name := GetString(b, Word(b.StructBlock(), off + 8));
    if err != 0 {
      return;
    }
    val := b.StructBlock()[off + 12..off + 12 + len];
    NoNulInName(b.Strings(), x.nameoff);
  }

  lemma PropHere(s: seq<byte>, off: int, x: Forest)
    requires Point(s, off, x, Edge) && x.Prop? && |s| < INT_LIMIT
    ensures PropCheck(s, off) >= 0 && off >= 0 && off + 12 + |x.val| + 4 <= |s|
    ensures Word(s, off + 4) == |x.val| && Word(s, off + 8) == x.nameoff && s[off + 12..off + 12 + |x.val|] == x.val
  {
    PointProp(s, off, x, Edge);
    PropTaken(s, off, x);
    SizeNonNeg(x.next);
    EdgeTag(s, off, x);
    HeldIsSlice(s, off + 12, x.val);
    PropParts(x.nameoff, x.val, x.next);
  }

  lemma EdgeTag(s: seq<byte>, off: int, x: Forest)
    requires Point(s, off, x, Edge)
    ensures off + Size(x) + 4 <= |s|
  {
  }

  lemma HeldIsSlice(s: seq<byte>, p: int, v: seq<byte>)
    requires HoldsAt(s, p, v)
    ensures s[p..p + |v|] == v
  {
    forall j | 0 <= j < |v| ensures s[p..p + |v|][j] == v[j] {
      assert s[p + j] == v[p + j - p];
    }
  }

  lemma NoNulInName(strs: seq<byte>, no: int)
    requires NameOk(no, strs)
    ensures 0 !in StrAt(strs, no) && |StrAt(strs, no)| < |strs|
  {
  }

  lemma OverlayStart(b: Blob, o: Forest, node: int)
    requires Holds(b, o) && IsNode(o, node)
    ensures var x := RestAt(o, node).value;
            && node >= 0 && Laid(b.h, b.buf.Length) && TreeIn(b.StructBlock(), o)
            && Point(b.StructBlock(), node + HdrSize(x.name), x.kids, Edge)
            && NamesOk(x.kids, b.Strings()) && |b.StructBlock()| < INT_LIMIT
  {
    KidsPoint(b.StructBlock(), o, node);
    NamesOfKids(o, node, b.Strings());
  }

  lemma {:induction false} PutSame(f: Forest, d: int)
    requires RestAt(f, d).Some?
    ensures Put(f, d, RestAt(f, d).value) == f
    decreases f
  {
    hide HdrSize, PropSize, Size, RestAt, Put;
    StepDown(f, d, RestAt(f, d).value);
    if d != 0 {
      match f
      case Nop(n) => PutSame(n, d - 4);
      case Prop(_, v, n) => PutSame(n, d - PropSize(v));
      case Sub(name, kids, n) =>
        if d < NodeSize(f) {
          PutSame(kids, d - HdrSize(name));
        } else {
          PutSame(n, d - NodeSize(f));
        }
    }
  }

  lemma SelfPut(f: Forest, d: int)
    requires IsNode(f, d)
    ensures PutKids(f, d, RestAt(f, d).value.kids) == f
  {
    hide Put, RestAt;
    PutSame(f, d);
    SubEta(RestAt(f, d).value);
  }

  /** The property the loop stands at. */
  lemma OverlayProp(s: seq<byte>, oo: int, on: Forest, strs: seq<byte>, base: Dt)
    requires Point(s, oo, on, Edge) && NamesOk(on, strs) && NextProp(oo, on) >= 0 && |s| < INT_LIMIT
    ensures var y, off := SkipNops(on), NextProp(oo, on);
            && y.Prop? && y.next < on && NamesOk(y, strs) && NamesOk(y.next, strs)
            && Point(s, off, y, Edge) && Point(s, off + PropSize(y.val), y.next, Edge)
            && MergeProps(base, View(on, strs)) ==
               MergeProps(VSetProp(base, StrAt(strs, y.nameoff), y.val), View(y.next, strs))
  {
    hide Point, At, StrAt, NameOk, MergeProps, VSetProp, View, Words, HdrWords, PropWords;
    PointBounds(s, oo, on);
    PropStep(s, oo, on, strs, []);
    NextPropView(base, oo, on, strs);
    SkipNames(on, strs);
    NamesNextItem(SkipNops(on), strs);
  }

  lemma {:induction false} SkipNames(f: Forest, strs: seq<byte>)
    requires NamesOk(f, strs)
    ensures NamesOk(SkipNops(f), strs)
    decreases f
  {
    if f.Nop? {
      SkipNames(f.next, strs);
    }
  }

  lemma NamesNextItem(f: Forest, strs: seq<byte>)
    requires NamesOk(f, strs) && !f.Nil?
    ensures NamesOk(f.next, strs) && (f.Sub? ==> NamesOk(f.kids, strs))
  {
  }

  lemma LaidOf(b: Blob, g: Forest)
    requires Holds(b, g)
    ensures Laid(b.h, b.buf.Length) && RwProbe(b.h) == 0
  {
    LaidPassesProbe(b.h, b.buf.Length);
  }

  lemma PutKidsAgain(f: Forest, d: int, k: Forest, l: Forest)
    requires IsNode(f, d)
    ensures IsNode(PutKids(f, d, k), d) && PutKids(PutKids(f, d, k), d, l) == PutKids(f, d, l)
    ensures IsNode(PutKids(f, d, l), d) && RestAt(PutKids(f, d, l), d).value.kids == l
    ensures RestAt(PutKids(f, d, l), d).value.name == RestAt(f, d).value.name
  {
    hide Put, RestAt;
    PutKidsTwice(f, d, k, l);
    PutKidsTwice(f, d, l, k);
  }

  lemma Appended(a: seq<byte>, b: seq<byte>, c: seq<byte>)
    requires (exists more :: b == a + more) && (exists more :: c == b + more)
    ensures exists more :: c == a + more
  {
    var m :| b == a + m;
    var n :| c == b + n;
    assert c == a + (m + n);
  }

  /** First half of overlay_apply_node: the property loop. */
  method ApplyProps(fdt: Blob, target: int, fdto: Blob, node: int, ghost f: Forest, ghost o: Forest)
    returns (err: int, ghost k: Forest)
    requires Holds(fdt, f) && IsNode(f, target) && Holds(fdto, o) && IsNode(o, node)
    requires fdt != fdto && fdt.buf != fdto.buf
    modifies fdt, fdt.buf
    ensures err == 0 || err == NOSPACE
    ensures Holds(fdt, PutKids(f, target, k)) && fdt.h.totalsize == old(fdt.h).totalsize
    ensures exists more :: fdt.Strings() == old(fdt.Strings()) + more
    ensures var d := View(RestAt(o, node).value.kids, fdto.Strings());
            && (err == 0 ==>
                  && View(k, fdt.Strings()) == MergeProps(View(RestAt(f, target).value.kids, old(fdt.Strings())), d)
                  && Used(fdt.h) <= Used(old(fdt.h)) + CostProps(old(fdt.Strings()), d))
            && (Used(old(fdt.h)) + CostProps(old(fdt.Strings()), d) <= fdt.h.totalsize ==> err == 0)
  {
    hide HdrWords, PropWords, Words, Put, RestAt, Region, TreeIn, At, View, VSetProp, VPutKids, VKids, PathOf,
      MergeProps, Point, SetPropGrowth, NamesOk, RwProbe, StrAt, SkipNops, NextProp, Laid, PutKids, PropCost, CostProps;
    err := 0;
    k := RestAt(f, target).value.kids;
    ghost var g, s0 := f, fdt.Strings();
    ghost var s, ostrs := fdto.StructBlock(), fdto.Strings();
    ghost var x := RestAt(o, node).value;
    ghost var oo, on := node + HdrSize(x.name), x.kids;
    ghost var d := View(on, ostrs);
    ghost var goal := MergeProps(View(k, fdt.Strings()), d);
    OverlayStart(fdto, o, node);
    SelfPut(f, target);
    assert fdt.Strings() == old(fdt.Strings()) + [];
    var property := FirstProperty(fdto, node, o);
    while property >= 0
      invariant Holds(fdt, g) && g == PutKids(f, target, k) && IsNode(g, target) && RestAt(g, target).value.kids == k
      invariant fdt.h.totalsize == old(fdt.h).totalsize
      invariant exists more :: fdt.Strings() == old(fdt.Strings()) + more
      invariant Holds(fdto, o) && fdto.StructBlock() == s && fdto.Strings() == ostrs
      invariant oo >= 0 && Point(s, oo, on, Edge) && NamesOk(on, ostrs) && property == NextProp(oo, on)
      invariant MergeProps(View(k, fdt.Strings()), View(on, ostrs)) == goal
      invariant Used(fdt.h) + CostProps(s0, View(on, ostrs)) <= Used(old(fdt.h)) + CostProps(s0, d)
      decreases on
    {
      ghost var y := SkipNops(on);
      ghost var was, strs0 := k, fdt.Strings();
      OverlayProp(s, oo, on, ostrs, View(k, strs0));
      PropsCost(s0, oo, on, ostrs);
      var e, name, val := GetPropByOffset(fdto, property, y);
      LaidOf(fdt, g);
      NodeNamesOk(fdt, g, target);
      ghost var more :| strs0 == s0 + more;
      GrowthBound(k, s0, more, name, val);
      err, k := SetProp(fdt, target, name, val, g);
      if err != 0 {
        k := was;
        return;
      }
      PutKidsAgain(f, target, was, k);
      g := PutKids(f, target, k);
      Appended(old(fdt.Strings()), strs0, fdt.Strings());
      oo, on := property + PropSize(y.val), y.next;
      property := NextProperty(fdto, property, y);
    }
    NextPropView(View(k, fdt.Strings()), oo, on, ostrs);
    PropsCost(s0, oo, on, ostrs);
  }

  /** The child that name finds among the items k of the node at target. */
  lemma ChildReached(f: Forest, target: int, name: seq<byte>, strs: seq<byte>)
    returns (e: int, c: Forest)
    requires IsNode(f, target)
    requires var x := RestAt(f, target).value; ChildOff(target + HdrSize(x.name), x.kids, name) >= 0
    requires NamesOk(f, strs) && target >= 0
    ensures var x := RestAt(f, target).value;
            var at := ChildOff(target + HdrSize(x.name), x.kids, name);
            && e == at - target - HdrSize(x.name) && e >= 0
            && RestAt(x.kids, e) == Some(c) && c.Sub? && NamesOk(c, strs)
            && IsNode(f, at) && RestAt(f, at) == Some(c)
            && VChild(View(x.kids, strs), name) == Some(View(c.kids, strs))
            && forall ck :: PutKids(f, at, ck) == PutKids(f, target, Put(x.kids, e, Sub(c.name, ck, c.next)))
  {
    hide HdrWords, PropWords, Words, Put, RestAt, NameEq, ChildOff, VChild, View, NamesOk;
    var x := RestAt(f, target).value;
    ChildFound(target + HdrSize(x.name), x.kids, strs, name);
    var at := ChildOff(target + HdrSize(x.name), x.kids, name);
    e := at - target - HdrSize(x.name);
    c := RestAt(x.kids, e).value;
    PutNested(f, target, e, Nil);
    NamesOfKids(f, target, strs);
    NamesPut(x.kids, e, Nil, strs);
    forall ck ensures PutKids(f, at, ck) == PutKids(f, target, Put(x.kids, e, Sub(c.name, ck, c.next))) {
      PutNested(f, target, e, Sub(c.name, ck, c.next));
    }
  }

  /** After the child's items became ck, whose meaning is the merge. */
  lemma ChildMerged(k: Forest, off: int, name: seq<byte>, e: int, c: Forest, ck: Forest,
                    strs: seq<byte>, more: seq<byte>, base: Dt, ov: Dt)
    requires off >= 0 && ChildOff(off, k, name) == off + e && e >= 0 && RestAt(k, e) == Some(c) && c.Sub?
    requires NamesOk(k, strs) && VChild(View(k, strs), name) == Some(View(c.kids, strs))
    requires View(ck, strs + more) == Merge(View(c.kids, strs), ov)
    requires (View(k, strs) == base && VChild(base, name).Some?)
          || (View(k, strs) == VAddChild(base, name) && VChild(base, name) == None)
    ensures View(Put(k, e, Sub(c.name, ck, c.next)), strs + more) == MergeChild(base, name, ov)
  {
    hide HdrWords, PropWords, Words, Put, RestAt, NameEq, ChildOff, View, NamesOk, VPutChild, Merge;
    ViewExtends(k, strs, more);
    ChildPut(off, k, strs + more, name, ck);
    if VChild(base, name) == None {
      AddedIsEmpty(base, name);
    }
  }

  lemma NodeNameHere(b: Blob, o: Forest, node: int)
    requires Holds(b, o) && IsNode(o, node)
    ensures NodeCheck(b.StructBlock(), node) >= 0
    ensures var x := RestAt(o, node).value;
            StrAt(b.StructBlock(), node + 4) == x.name && 0 !in x.name && |x.name| < INT_LIMIT - 16
  {
    hide HdrWords, PropWords, Words, RestAt, At, TagAt, NodeCheck, Region;
    var x := RestAt(o, node).value;
    NodeFacts(b.StructBlock(), o, node);
    NodeName(b.StructBlock(), node, x.name);
    BlockSizes(b);
  }

  /** Second half of overlay_apply_node, one subnode: find it or create it, then
      merge into it. */
  method ApplyChild(fdt: Blob, target: int, fdto: Blob, subnode: int, ghost f: Forest, ghost o: Forest)
    returns (err: int, ghost k: Forest)
    requires Holds(fdt, f) && IsNode(f, target) && Holds(fdto, o) && IsNode(o, subnode)
    requires fdt != fdto && fdt.buf != fdto.buf
    modifies fdt, fdt.buf
    decreases Size(RestAt(o, subnode).value.kids), 2
    ensures err == 0 || err == NOSPACE
    ensures Holds(fdt, PutKids(f, target, k)) && fdt.h.totalsize == old(fdt.h).totalsize
    ensures exists more :: fdt.Strings() == old(fdt.Strings()) + more
    ensures var x := RestAt(o, subnode).value;
            var d := View(x.kids, fdto.Strings());
            var room := Used(old(fdt.h)) + HdrSize(x.name) + 4 + Cost(old(fdt.Strings()), d);
            && (err == 0 ==>
                  && View(k, fdt.Strings()) ==
                     MergeChild(View(RestAt(f, target).value.kids, old(fdt.Strings())), x.name, d)
                  && Used(fdt.h) <= room)
            && (room <= fdt.h.totalsize ==> err == 0)
  {
    hide HdrWords, PropWords, Words, Put, RestAt, Region, TreeIn, At, View, VAddChild, VPutKids, VKids, PathOf,
      MergeChild, Merge, Point, NamesOk, RwProbe, StrAt, Laid, PutKids, VChild, ChildOff, AddOff, Spliced, NodeCheck,
      Cost;
    ghost var x := RestAt(o, subnode).value;
    ghost var k0 := RestAt(f, target).value.kids;
    ghost var strs := fdt.Strings();
    ghost var base := View(k0, strs);
    ghost var off := target + HdrSize(RestAt(f, target).value.name);
    NodeNameHere(fdto, o, subnode);
    OverlayStart(fdt, f, target);
    KidsMeaning(f, target, strs);
    var e0, name := GetName(fdto, subnode);
    LaidOf(fdt, f);
    SelfPut(f, target);
    var nnode;
    nnode, k := AddSubnode(fdt, target, name, f);
    assert fdt.Strings() == strs + [];
    if nnode == EXISTS {
      nnode := SubnodeOffset(fdt, target, name, f);
      k := k0;
      ChildFound(off, k0, strs, name);
      if nnode == NOTFOUND {
        return INTERNAL, k;
      }
    } else if nnode >= 0 {
      AddedFound(off, k0, name);
    }
    if nnode < 0 {
      k := k0;
      return nnode, k;
    }
    ghost var g := PutKids(f, target, k);
    PutKidsAgain(f, target, k0, k);
    ghost var k1 := k;
    NamesHeld(fdt, g);
    ghost var e, c := ChildReached(g, target, name, strs);
    ghost var ck;
    ChildSmaller(x);
    err, ck := ApplyNode(fdt, nnode, fdto, subnode, g, o);
    k := Put(k1, e, Sub(c.name, ck, c.next));
    PutKidsAgain(f, target, k1, k);
    if err == 0 {
      ghost var more :| fdt.Strings() == strs + more;
      NamesOfKids(g, target, strs);
      ChildMerged(k1, off, name, e, c, ck, strs, more, base, View(x.kids, fdto.Strings()));
    }
  }

  lemma LaidTree(b: Blob, f: Forest)
    requires Holds(b, f)
    ensures Laid(b.h, b.buf.Length) && TreeIn(b.StructBlock(), f)
  {
  }

  lemma NodeNamesOk(b: Blob, g: Forest, t: int)
    requires Holds(b, g) && IsNode(g, t)
    ensures NamesOk(RestAt(g, t).value.kids, b.Strings())
  {
    NamesOfKids(g, t, b.Strings());
  }

  /** What a lookup in the blob finds, in terms of the tree. */
  lemma ValueHere(b: Blob, f: Forest, t: int, name: seq<byte>)
    requires Holds(b, f) && IsNode(f, t)
    ensures Laid(b.h, b.buf.Length) && TreeIn(b.StructBlock(), f) && IsNode(f, t) && t >= 0
    ensures NamesOk(RestAt(f, t).value.kids, b.Strings())
    ensures var x := RestAt(f, t).value;
            var off := PropOff(t + HdrSize(x.name), x.kids, b.Strings(), name);
            var v := VGet(View(x.kids, b.Strings()), name);
            && (off < 0 <==> v.None?) && (off < 0 ==> off == NOTFOUND)
            && (off >= 0 ==>
                  && off + 12 + |v.value| <= |b.StructBlock()| && HoldsAt(b.StructBlock(), off + 12, v.value)
                  && Word(b.StructBlock(), off + 4) == |v.value|)
  {
    hide HdrSize, PropSize, Size, Put, RestAt, Region, TreeIn, At, PropOff, StrAt, Word, View, VGet, HoldsAt;
    var x := RestAt(f, t).value;
    NodeNamesOk(b, f, t);
    NodeRoom(b.StructBlock(), f, t);
    PropFound(t + HdrSize(x.name), x.kids, b.Strings(), name, []);
    var off := PropOff(t + HdrSize(x.name), x.kids, b.Strings(), name);
    if off >= 0 {
      PropAt(b.StructBlock(), f, t, off - t - HdrSize(x.name));
      PropTaken(b.StructBlock(), off, RestAt(x.kids, off - t - HdrSize(x.name)).value);
      HeldInside(b.StructBlock(), off + 12, VGet(View(x.kids, b.Strings()), name).value);
    }
  }

  lemma HeldInside(s: seq<byte>, p: int, v: seq<byte>)
    requires HoldsAt(s, p, v)
    ensures 0 <= p && p + |v| <= |s|
  {
  }

  lemma NamesHeld(b: Blob, g: Forest)
    requires Holds(b, g)
    ensures NamesOk(g, b.Strings())
  {
  }

  lemma KidsMeaning(f: Forest, d: int, strs: seq<byte>)
    requires IsNode(f, d) && NamesOk(f, strs)
    ensures VKids(View(f, strs), PathOf(f, d)) == View(RestAt(f, d).value.kids, strs)
  {
    hide Put, RestAt, View, PathOf, VKids;
    NamesOfKids(f, d, strs);
    KidsView(f, d, RestAt(f, d).value.kids, strs);
  }

  /** Second half of overlay_apply_node: the loop over the subnodes. */
  method ApplyKids(fdt: Blob, target: int, fdto: Blob, node: int, ghost f: Forest, ghost o: Forest)
    returns (err: int, ghost k: Forest)
    requires Holds(fdt, f) && IsNode(f, target) && Holds(fdto, o) && IsNode(o, node)
    requires fdt != fdto && fdt.buf != fdto.buf
    modifies fdt, fdt.buf
    decreases Size(RestAt(o, node).value.kids), 0
    ensures err == 0 || err == NOSPACE
    ensures Holds(fdt, PutKids(f, target, k)) && fdt.h.totalsize == old(fdt.h).totalsize
    ensures exists more :: fdt.Strings() == old(fdt.Strings()) + more
    ensures var d := View(RestAt(o, node).value.kids, fdto.Strings());
            && (err == 0 ==>
                  && View(k, fdt.Strings()) == MergeSubs(View(RestAt(f, target).value.kids, old(fdt.Strings())), d)
                  && Used(fdt.h) <= Used(old(fdt.h)) + CostKids(old(fdt.Strings()), d))
            && (Used(old(fdt.h)) + CostKids(old(fdt.Strings()), d) <= fdt.h.totalsize ==> err == 0)
  {
    hide HdrWords, PropWords, HdrSize, Words, Put, RestAt, Region, TreeIn, At, View, VPutKids, VKids, PathOf,
      MergeSubs, MergeChild, Point, NamesOk, RwProbe, StrAt, FirstSub, Laid, PutKids, Used, CostKids, Cost;
    ghost var s, ostrs, s0 := fdto.StructBlock(), fdto.Strings(), fdt.Strings();
    ghost var x := RestAt(o, node).value;
    ghost var oo, on := node + HdrSize(x.name), x.kids;
    ghost var d := View(on, ostrs);
    OverlayStart(fdto, o, node);
    HdrPositive(x.name);
    RestKids(o, node, x);
    k := RestAt(f, target).value.kids;
    ghost var g := f;
    ghost var goal := MergeSubs(View(k, fdt.Strings()), d);
    SelfPut(f, target);
    assert fdt.Strings() == old(fdt.Strings()) + [];
    var subnode := FirstSubnode(fdto, node, o);
    while subnode >= 0
      invariant Holds(fdt, g) && g == PutKids(f, target, k) && IsNode(g, target) && RestAt(g, target).value.kids == k
      invariant fdt.h.totalsize == old(fdt.h).totalsize
      invariant exists more :: fdt.Strings() == old(fdt.Strings()) + more
      invariant Holds(fdto, o) && fdto.StructBlock() == s && fdto.Strings() == ostrs
      invariant oo > 0 && RestAt(o, oo) == Some(on) && Size(on) <= Size(x.kids) && subnode == FirstSub(oo, on)
      invariant MergeSubs(View(k, fdt.Strings()), View(on, ostrs)) == goal
      invariant Used(fdt.h) + CostKids(s0, View(on, ostrs)) <= Used(old(fdt.h)) + CostKids(s0, d)
      decreases Size(on)
    {
      ghost var was, strs0 := k, fdt.Strings();
      ghost var c := OverlayChild(o, oo, on, View(k, strs0), ostrs);
      CostInFront(s0, o, oo, on, c, ostrs);
      ghost var more :| strs0 == s0 + more;
      CostLess(s0, more, View(c.kids, ostrs));
      err, k := ApplyChild(fdt, target, fdto, subnode, g, o);
      PutKidsAgain(f, target, was, k);
      g := PutKids(f, target, k);
      Appended(old(fdt.Strings()), strs0, fdt.Strings());
      if err != 0 {
        return;
      }
      oo, on := subnode + NodeSize(c), c.next;
      subnode := NextSubnode(fdto, subnode, o);
    }
    FirstSubView(View(k, fdt.Strings()), oo, on, ostrs);
    KidsCost(s0, oo, on, ostrs);
    err := 0;
  }

  /** overlay_apply_node: on success the target is the recursive merge, and it does
      succeed when there is room; when room runs out the blob is still well formed
      and only that node changed. */
  method ApplyNode(fdt: Blob, target: int, fdto: Blob, node: int, ghost f: Forest, ghost o: Forest)
    returns (err: int, ghost k: Forest)
    requires Holds(fdt, f) && IsNode(f, target) && Holds(fdto, o) && IsNode(o, node)
    requires fdt != fdto && fdt.buf != fdto.buf
    modifies fdt, fdt.buf
    decreases Size(RestAt(o, node).value.kids), 1
    ensures err == 0 || err == NOSPACE
    ensures Holds(fdt, PutKids(f, target, k)) && fdt.h.totalsize == old(fdt.h).totalsize
    ensures exists more :: fdt.Strings() == old(fdt.Strings()) + more
    ensures var d := View(RestAt(o, node).value.kids, fdto.Strings());
            && (err == 0 ==>
                  && View(k, fdt.Strings()) == Merge(View(RestAt(f, target).value.kids, old(fdt.Strings())), d)
                  && Used(fdt.h) <= Used(old(fdt.h)) + Cost(old(fdt.Strings()), d))
            && (Used(old(fdt.h)) + Cost(old(fdt.Strings()), d) <= fdt.h.totalsize ==> err == 0)
  {
    hide HdrWords, PropWords, HdrSize, Words, Put, RestAt, Region, TreeIn, At, View, VPutKids, VKids, PathOf,
      MergeProps, MergeSubs, Point, NamesOk, RwProbe, StrAt, Laid, PutKids, CostProps, CostKids, Used, Merge, Cost,
      Holds, Size, StrKnown, PropCost;
    MergeParts(fdt.Strings(), View(RestAt(f, target).value.kids, fdt.Strings()),
               View(RestAt(o, node).value.kids, fdto.Strings()));
    err, k := ApplyProps(fdt, target, fdto, node, f, o);
    if err != 0 {
      return;
    }
    ghost var k0, strs0 := k, fdt.Strings();
    ghost var more :| strs0 == old(fdt.Strings()) + more;
    CostKidsLess(old(fdt.Strings()), more, View(RestAt(o, node).value.kids, fdto.Strings()));
    PutKidsAgain(f, target, k, k);
    err, k := ApplyKids(fdt, target, fdto, node, PutKids(f, target, k), o);
    PutKidsAgain(f, target, k0, k);
    Appended(old(fdt.Strings()), strs0, fdt.Strings());
  }

  lemma MergeParts(strs: seq<byte>, base: Dt, d: Dt)
    ensures Merge(base, d) == MergeSubs(MergeProps(base, d), d)
    ensures Cost(strs, d) == CostProps(strs, d) + CostKids(strs, d)
  {
  }

  /** What remains to be merged, seen from the subnode the loop stands at. */
  lemma CostInFront(s0: seq<byte>, o: Forest, oo: int, on: Forest, c: Forest, strs: seq<byte>)
    requires oo > 0 && RestAt(o, oo) == Some(on) && FirstSub(oo, on) >= 0
    requires RestAt(o, FirstSub(oo, on)) == Some(c)
    ensures c.Sub?
    ensures CostKids(s0, View(on, strs)) ==
            HdrSize(c.name) + 4 + Cost(s0, View(c.kids, strs)) + CostKids(s0, View(c.next, strs))
  {
    hide HdrWords, PropWords, Words, RestAt, View, FirstSub, Cost, CostKids;
    KidsCost(s0, oo, on, strs);
    RestInList(o, oo, on, FirstSub(oo, on) - oo);
  }

  /** The subnode the loop stands at. */
  lemma OverlayChild(o: Forest, oo: int, on: Forest, base: Dt, strs: seq<byte>) returns (c: Forest)
    requires oo > 0 && RestAt(o, oo) == Some(on) && FirstSub(oo, on) >= 0
    ensures var r := FirstSub(oo, on);
            && r >= oo && IsNode(o, r) && RestAt(o, r) == Some(c) && c.Sub?
            && RestAt(o, r + NodeSize(c)) == Some(c.next)
            && Size(c.kids) < Size(on) && Size(c.next) < Size(on) && NodeSize(c) > 0
            && MergeSubs(base, View(on, strs)) ==
               MergeSubs(MergeChild(base, c.name, View(c.kids, strs)), View(c.next, strs))
  {
    hide HdrWords, PropWords, Words, RestAt, MergeSubs, MergeChild, View, NodeOffsets, FirstSub;
    var r := FirstSub(oo, on);
    FirstSubView(base, oo, on, strs);
    FirstSubIsHead(o, oo, oo, on);
    c := RestAt(on, r - oo).value;
    RestInList(o, oo, on, r - oo);
    RestStep(o, r, c);
    SubSize(c);
    SizeNonNeg(c.kids);
    SizeNonNeg(c.next);
  }

  /** Positions in a sibling list are positions in the tree. */
  lemma {:induction false} RestInList(f: Forest, d: int, k: Forest, e: int)
    requires RestAt(f, d) == Some(k) && RestAt(k, e).Some?
    ensures RestAt(f, d + e) == RestAt(k, e)
    decreases f
  {
    hide HdrSize, PropSize, Size, RestAt;
    StepDown(f, d, k);
    RestInside(f, d);
    RestInside(k, e);
    if d != 0 && e != 0 {
      RestOfItem(f, d + e);
      match f
      case Nop(n) => RestInList(n, d - 4, k, e);
      case Prop(_, v, n) => RestInList(n, d - PropSize(v), k, e);
      case Sub(name, kids, n) =>
        if d < NodeSize(f) {
          RestInside(kids, d - HdrSize(name));
          RestInList(kids, d - HdrSize(name), k, e);
        } else {
          RestInList(n, d - NodeSize(f), k, e);
        }
    } else if e == 0 {
      RestHere(k);
    }
  }

  lemma ChildSmaller(x: Forest)
    requires x.Sub?
    ensures Size(x.kids) >= 0
  {
  }
}
