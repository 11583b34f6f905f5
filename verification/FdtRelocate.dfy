/** fdt_overlay.c: the steps of fdt_overlay_apply that move an overlay's phandles
    and local references clear of the base tree's, before the merge. */
module FdtRelocate {
  import opened Bytes
  import opened FdtFormat
  import opened FdtTree
  import opened FdtBlob
  import opened Fdt
  import opened FdtRo
  import opened FdtEdits
  import opened FdtOverlay
  import opened FdtPath
  import opened FdtPhandle
  import opened FdtShift
  import opened FdtShape
  import opened FdtFixups
  import opened FdtLinks

  /** "__local_fixups__" */
  const LOCAL_FIXUPS: seq<byte> := [95, 95, 108, 111, 99, 97, 108, 95, 102, 105, 120, 117, 112, 115, 95, 95]

  /** The items of the root. */
  function Items(f: Forest, strs: seq<byte>): Dt {
    if f.Sub? then View(f.kids, strs) else DNil
  }

  /** The fixups of an overlay, or no items. */
  function Fixups(d: Dt): Dt {
    match VChild(d, LOCAL_FIXUPS)
    case None => DNil
    case Some(fx) => fx
  }

  /** The local references of an overlay with those items, if its fixups fit. */
  function FixLocal(d: Dt, delta: int): Option<Dt> {
    match VChild(d, LOCAL_FIXUPS)
    case None => Some(d)
    case Some(fx) => Fix(d, fx, delta)
  }

  /** No fixup is for the fixups themselves. */
  ghost predicate FixupsApart(f: Forest) {
    var x := ChildNamed(f, 0, LOCAL_FIXUPS);
    x >= 0 ==>
      && IsNode(f, x)
      && forall name :: SubNamed(RestAt(f, x).value.kids, name) ==> ChildNamed(f, 0, name) != x
  }

  /** Two children of a node are apart. */
  lemma {:induction false} ChildrenApart(off: int, k: Forest, m: seq<byte>, n: seq<byte>)
    requires off >= 0 && ChildOff(off, k, m) >= 0 && ChildOff(off, k, n) >= 0
    requires ChildOff(off, k, m) < ChildOff(off, k, n)
    ensures IsNode(k, ChildOff(off, k, m) - off)
    ensures ChildOff(off, k, m) + NodeSize(RestAt(k, ChildOff(off, k, m) - off).value) <= ChildOff(off, k, n)
    decreases k
  {
    hide HdrSize, PropSize, Size, RestAt, NameEq;
    ChildFound(off, k, [], m);
    StepDown(k, ChildOff(off, k, m) - off, k);
    match k
    case Nop(r) => ChildFound(off + 4, r, [], m); ChildrenApart(off + 4, r, m, n);
    case Prop(_, v, r) => ChildFound(off + PropSize(v), r, [], m); ChildrenApart(off + PropSize(v), r, m, n);
    case Sub(c, _, r) =>
      NodePositive(k);
      if NameEq(c, m) {
        RestHere(k);
        ChildFound(off + NodeSize(k), r, [], n);
      } else {
        ChildFound(off + NodeSize(k), r, [], m);
        if NameEq(c, n) {
          assert false;
        }
        ChildrenApart(off + NodeSize(k), r, m, n);
      }
  }

  lemma SiblingsApart(f: Forest, m: seq<byte>, n: seq<byte>)
    requires f.Sub? && ChildNamed(f, 0, m) >= 0 && ChildNamed(f, 0, n) >= 0 && ChildNamed(f, 0, m) < ChildNamed(f, 0, n)
    ensures var c, x := ChildNamed(f, 0, m), ChildNamed(f, 0, n);
            IsNode(f, c) && IsNode(f, x) && Apart(f, c, x)
  {
    hide HdrSize, PropSize, Size, RestAt, ChildOff, NameEq;
    RestHere(f);
    ChildIsNode(f, 0, m);
    ChildIsNode(f, 0, n);
    var h := HdrSize(f.name);
    ChildrenApart(h, f.kids, m, n);
    PutNested(f, 0, ChildOff(h, f.kids, m) - h, Nil);
  }

  lemma RootAvoids(f: Forest)
    requires f.Sub? && ChildNamed(f, 0, LOCAL_FIXUPS) >= 0 && FixupsApart(f)
    ensures Avoids(f, 0, ChildNamed(f, 0, LOCAL_FIXUPS))
  {
    hide HdrSize, PropSize, Size, RestAt, ChildOff, NameEq, SubNamed, Apart;
    var x := ChildNamed(f, 0, LOCAL_FIXUPS);
    RestHere(f);
    ChildFound(HdrSize(f.name), f.kids, [], LOCAL_FIXUPS);
    forall name | SubNamed(RestAt(f, x).value.kids, name)
      ensures var c := ChildNamed(f, 0, name); c < 0 || (IsNode(f, c) && Apart(f, c, x))
    {
      var c := ChildNamed(f, 0, name);
      if 0 <= c < x {
        SiblingsApart(f, name, LOCAL_FIXUPS);
      } else if c >= 0 {
        SiblingsApart(f, LOCAL_FIXUPS, name);
        ApartSwap(f, c, x);
      }
    }
  }

  lemma ApartSwap(f: Forest, c: int, x: int)
    requires IsNode(f, c) && IsNode(f, x) && Apart(f, x, c)
    ensures Apart(f, c, x)
  {
  }

  lemma FixupsFound(f: Forest, strs: seq<byte>)
    requires f.Sub?
    ensures var x := ChildNamed(f, 0, LOCAL_FIXUPS);
            && (x < 0 ==> x == NOTFOUND && VChild(Items(f, strs), LOCAL_FIXUPS) == None)
            && (x >= 0 ==> IsNode(f, x)
                           && VChild(Items(f, strs), LOCAL_FIXUPS) == Some(View(RestAt(f, x).value.kids, strs)))
  {
    hide HdrSize, PropSize, Size, RestAt, ChildOff, NameEq, VChild;
    RestHere(f);
    var h := HdrSize(f.name);
    ChildFound(h, f.kids, strs, LOCAL_FIXUPS);
    ChildIsNode(f, 0, LOCAL_FIXUPS);
    if ChildOff(h, f.kids, LOCAL_FIXUPS) >= 0 {
      PutNested(f, 0, ChildOff(h, f.kids, LOCAL_FIXUPS) - h, Nil);
    }
  }

  lemma RootHeld(b: Blob, f: Forest)
    requires Holds(b, f)
    ensures f.Sub? && IsNode(f, 0) && RestAt(f, 0).value == f && Laid(b.h, b.buf.Length) && TreeIn(b.StructBlock(), f)
  {
    RestHere(f);
  }

  lemma FixupsPath(f: Forest)
    ensures Follow(f, 0, [SLASH] + LOCAL_FIXUPS) == ChildNamed(f, 0, LOCAL_FIXUPS)
  {
    hide ChildNamed;
    FollowOne(f, 0, LOCAL_FIXUPS, []);
    assert [SLASH] + LOCAL_FIXUPS + [] == [SLASH] + LOCAL_FIXUPS;
  }

  lemma RootKidsPut(f: Forest, k: Forest)
    requires f.Sub?
    ensures IsNode(f, 0) && PutKids(f, 0, k) == Sub(f.name, k, f.next)
  {
  }

  /** overlay_update_local_references */
  method UpdateLocalReferences(b: Blob, delta: u32, ghost f: Forest) returns (err: int, ghost g: Forest)
    requires Holds(b, f) && FixupsApart(f)
    requires Guarded(Items(f, b.Strings()), Fixups(Items(f, b.Strings())), delta)
    modifies b.buf
    ensures b.Strings() == old(b.Strings()) && Holds(b, g) && SameShape(f, g)
    ensures match FixLocal(Items(f, b.Strings()), delta)
            case Some(d) => err == 0 && Items(g, b.Strings()) == d
            case None => err == BADOVERLAY
  {
    hide HdrSize, PropSize, Size, Put, RestAt, Region, TreeIn, At, View, SameShape, Holds, Laid, Fix, Guarded, VChild,
      ChildNamed, Avoids, Follow, SubNamed;
    RootHeld(b, f);
    FixupsPath(f);
    FixupsFound(f, b.Strings());
    g := f;
    ShapeSelf(f);
    var fixups := PathOffset(b, [SLASH] + LOCAL_FIXUPS, f);
    if fixups < 0 {
      return 0, g;
    }
    RootAvoids(f);
    ghost var k;
    err, k := UpdateNodeReferences(b, 0, fixups, delta, f);
    g := PutKids(f, 0, k);
    RootKidsPut(f, k);
    FixingShape(f, g, 0, k, fixups);
  }

  lemma FixingShape(f: Forest, g: Forest, t: int, k: Forest, x: int)
    requires Fixing(f, g, t, k, x)
    ensures SameShape(f, g)
  {
  }

  // ---- adjusting keeps the shape ----------------------------------------------------------------------

  lemma ShapeShift(k: Forest, strs: seq<byte>, name: seq<byte>, delta: int)
    requires NamesOk(k, strs)
    ensures SameShape(k, FShift(k, strs, name, delta))
  {
    hide View, VGet, FSetVal, NamesOk, Be32, Word, SameShape;
    ShapeSelf(k);
    var v := VGet(View(k, strs), name);
    if v.Some? && |v.value| == 4 {
      ShapeSet(k, strs, name, Shifted(v.value, delta));
    }
  }

  lemma {:induction false} ShapeAdjust(k: Forest, strs: seq<byte>, delta: int)
    requires NamesOk(k, strs)
    ensures SameShape(k, FAdjust(k, strs, delta))
    decreases k, 1
  {
    hide View, NamesOk, FShift, FAdjustKids, VAdjustKids, SameShape;
    var l := FAdjustKids(k, strs, delta);
    var m := FShift(l, strs, PHANDLE, delta);
    ShapeAdjustKids(k, strs, delta);
    AdjustKidsView(k, strs, delta);
    ShapeShift(l, strs, PHANDLE, delta);
    ShiftView(l, strs, PHANDLE, delta);
    ShapeShift(m, strs, LINUX_PHANDLE, delta);
    ShapeTrans(k, l, m);
    ShapeTrans(k, m, FAdjust(k, strs, delta));
  }

  lemma {:induction false} ShapeAdjustKids(k: Forest, strs: seq<byte>, delta: int)
    requires NamesOk(k, strs)
    ensures SameShape(k, FAdjustKids(k, strs, delta))
    decreases k, 0
  {
    hide NameOk, FAdjust;
    match k
    case Nil =>
    case Nop(n) => ShapeAdjustKids(n, strs, delta);
    case Prop(_, _, n) => ShapeAdjustKids(n, strs, delta);
    case Sub(_, kids, n) => ShapeAdjust(kids, strs, delta); ShapeAdjustKids(n, strs, delta);
  }

  lemma {:induction false} ShapeSubNamed(k: Forest, l: Forest, name: seq<byte>)
    requires SameShape(k, l)
    ensures SubNamed(l, name) == SubNamed(k, name)
    decreases k
  {
    if !k.Nil? {
      ShapeSubNamed(k.next, l.next, name);
    }
  }

  /** Whether the fixups are in the way depends on the shape of the tree only. */
  lemma FitsShape(f: Forest, g: Forest)
    requires SameShape(f, g) && f.Sub? && g.Sub? && FixupsApart(f)
    ensures FixupsApart(g)
  {
    hide HdrSize, PropSize, Size, RestAt, ChildOff, SameShape, SubNamed;
    RestHere(f);
    RestHere(g);
    ShapeHead(f, g);
    var x := ChildNamed(f, 0, LOCAL_FIXUPS);
    ShapeChild(HdrSize(f.name), f.kids, g.kids, LOCAL_FIXUPS);
    if x >= 0 {
      ShapeApart(f, g, x, x);
      forall name | SubNamed(RestAt(g, x).value.kids, name) ensures ChildNamed(g, 0, name) != x {
        ShapeSubNamed(RestAt(f, x).value.kids, RestAt(g, x).value.kids, name);
        ShapeChild(HdrSize(f.name), f.kids, g.kids, name);
      }
    }
  }

  lemma ShapeHead(f: Forest, g: Forest)
    requires SameShape(f, g) && f.Sub?
    ensures g.Sub? && g.name == f.name && SameShape(f.kids, g.kids)
  {
  }

  // ---- both passes ----------------------------------------------------------------------------------------

  /** The overlay's items with phandles and listed references shifted by delta. */
  function Relocated(d: Dt, delta: int): Option<Dt> {
    FixLocal(VAdjust(d, delta), delta)
  }

  lemma AdjustedFixups(d: Dt, delta: int)
    ensures VChild(d, LOCAL_FIXUPS).Some? ==> VChild(VAdjust(d, delta), LOCAL_FIXUPS) == Some(VAdjust(Fixups(d), delta))
    ensures VChild(d, LOCAL_FIXUPS).None? ==> VChild(VAdjust(d, delta), LOCAL_FIXUPS) == None
  {
    hide VAdjust, VChild, VAdjustKids, ChildIx, VGet;
    AdjustFacts(d, delta);
    AdjustChildren(d, delta, LOCAL_FIXUPS);
  }

  /** The steps of fdt_overlay_apply from fdt_find_max_phandle to
      overlay_update_local_references: it succeeds exactly when every phandle can
      be shifted and the fixups fit. */
  method Relocate(base: Blob, fdto: Blob, ghost f: Forest, ghost o: Forest) returns (err: int, ghost g: Forest)
    requires base != fdto && base.buf != fdto.buf && Holds(base, f) && Holds(fdto, o)
    requires FixupsApart(o)
    requires var d, delta := Items(o, fdto.Strings()), VMax(View(f, base.Strings()));
             Adjustable(d, delta) ==> Guarded(VAdjust(d, delta), VAdjust(Fixups(d), delta), delta)
    modifies fdto.buf
    ensures fdto.Strings() == old(fdto.Strings()) && Holds(fdto, g)
    ensures var d, delta := Items(o, fdto.Strings()), VMax(View(f, base.Strings()));
            && (err == 0 <==> Adjustable(d, delta) && Relocated(d, delta).Some?)
            && (err == 0 ==> Items(g, fdto.Strings()) == Relocated(d, delta).value)
  {
    hide HdrSize, PropSize, Size, Put, RestAt, Region, TreeIn, At, View, SameShape, Holds, Laid, Fix, VChild, FixLocal,
      FixupsApart, Guarded, VAdjust, VAdjustKids, FAdjust, Adjustable, VMax, NamesOk;
    ghost var d, strs := Items(o, fdto.Strings()), fdto.Strings();
    RootHeld(fdto, o);
    NamesHeld(fdto, o);
    RootNames(o, strs);
    var delta;
    err, delta := FindMaxPhandle(base, f);
    MaxIsWord(View(f, base.Strings()));
    ghost var k;
    err, k := AdjustNodePhandles(fdto, 0, delta, o);
    RootKidsPut(o, k);
    g := PutKids(o, 0, k);
    if err != 0 {
      return;
    }
    ShapeAdjust(o.kids, strs, delta);
    ShapeRoot(o, k);
    AdjustedFixups(d, delta);
    FitsShape(o, g);
    NoFixups(VAdjust(d, delta), delta);
    err, g := UpdateLocalReferences(fdto, delta, g);
  }

  lemma MaxIsWord(d: Dt)
    ensures VMax(d) < U32_LIMIT
  {
    hide VPhandle;
    match d
    case DNil =>
    case DProp(_, _, n) => MaxIsWord(n);
    case DNode(_, k, n) => MaxIsWord(k); MaxIsWord(n);
  }

  lemma RootNames(o: Forest, strs: seq<byte>)
    requires o.Sub? && NamesOk(o, strs)
    ensures NamesOk(o.kids, strs)
  {
  }

  lemma ShapeRoot(o: Forest, k: Forest)
    requires o.Sub? && SameShape(o.kids, k)
    ensures SameShape(o, Sub(o.name, k, o.next))
  {
    hide SameShape;
    ShapeNode(o, k);
  }

  lemma NoFixups(d: Dt, delta: int)
    ensures Guarded(d, DNil, delta)
  {
  }

  /** What the two passes are for: a listed reference names the same node before
      and after, and a node with a phandle of at least 1 gets one that no node of
      the base tree has. */
  lemma RelocatedLinks(base: Dt, d: Dt, e: Dt)
    requires Adjustable(d, VMax(base)) && Relocated(d, VMax(base)) == Some(e)
    requires NoPhandles(Fixups(d)) && ListedOnce(d, Fixups(d))
    ensures var fx := Fixups(d);
            && |Refs(e, fx)| == |Refs(d, fx)| && |AllPhandles(e)| == |AllPhandles(d)|
            && (forall i, j :: 0 <= i < |Refs(d, fx)| && 0 <= j < |AllPhandles(d)| ==>
                  (AllPhandles(e)[j] == Some(Refs(e, fx)[i]) <==> AllPhandles(d)[j] == Some(Refs(d, fx)[i])))
            && (forall j :: 0 <= j < |AllPhandles(d)| && AllPhandles(d)[j].Some? && AllPhandles(d)[j].value >= 1 ==>
                  AllPhandles(e)[j].Some? && !Has(base, AllPhandles(e)[j].value))
  {
    hide VAdjust, Fix, Refs, ListedOnce, AllPhandles, NoPhandles, VChild, Has, VMax, Adjustable, VGet;
    var fx, delta := Fixups(d), VMax(base);
    AdjustedFixups(d, delta);
    FixupsKept(fx, delta);
    FixNothing(VAdjust(d, delta), delta);
    LinksKept(d, fx, delta, e);
    forall j | 0 <= j < |AllPhandles(d)| && AllPhandles(d)[j].Some? && AllPhandles(d)[j].value >= 1
      ensures AllPhandles(e)[j].Some? && !Has(base, AllPhandles(e)[j].value)
    {
      var q := AllPhandles(d)[j].value + delta;
      assert Plus(AllPhandles(d), delta)[j] == Some(q);
      if Has(base, q) {
        MaxBounds(base, q);
      }
    }
  }

  lemma FixNothing(d: Dt, delta: int)
    ensures Fix(d, DNil, delta) == Some(d)
  {
  }
}
