/** metadata.c: deleting, adding and copying endpoint nodes. */
module EndpointEdits {
  import opened Bytes
  import opened Errno
  import opened FdtFormat
  import opened FdtTree
  import opened FdtBlob
  import opened Fdt
  import opened FdtRo
  import opened FdtEdits
  import opened FdtRw
  import opened FdtMerge
  import opened FdtOverlay
  import opened FdtPath
  import opened FdtCost
  import opened Metadata
  import opened FdtSearch
  import opened Endpoints

  /** xrt_md_del_endpoint: the first such node is cut out of the tree. */
  method DelEndpoint(b: Blob, ep: seq<byte>, compat: Option<seq<byte>>, ghost f: Forest) returns (ret: int)
    requires Holds(b, f) && Strings(Named(ep, compat))
    modifies b, b.buf
    ensures var r := First(0, f, old(b.Strings()), Named(ep, compat));
            if r < 0 then ret == EINVAL && b.h == old(b.h) && b.buf[..] == old(b.buf[..])
            else
              && ret == 0 && IsNode(f, r)
              && var x := RestAt(f, r).value;
              && (r != 0 ==> Holds(b, Put(f, r, x.next)))
              && b.Strings() == old(b.Strings()) && b.h.totalsize == old(b.h).totalsize
              && Used(b.h) == Used(old(b.h)) - NodeSize(x)
  {
    hide First, RestAt, View, Wanted, Absent, Put, HdrSize, PropSize, Size, TreeIn, At, Region, Laid, PathOf, VPut,
      Spliced,
      RwProbe;
    var r, off := GetEndpoint(b, ep, compat, f);
    if r != 0 {
      return EINVAL;
    }
    LaidOf(b, f);
    ret := DelNode(b, off, f);
    if ret != 0 {
      ret := EINVAL;
    }
  }

  /** __xrt_md_add_endpoint for an endpoint with a name only: below the node of
      that parent name, or below the root. */
  method AddEndpoint(b: Blob, name: seq<byte>, parent: Option<seq<byte>>, ghost f: Forest)
    returns (ret: int, off: int, ghost k: Forest)
    requires Holds(b, f) && 0 !in name && |name| < INT_LIMIT - 16 && (parent.Some? ==> 0 !in parent.value)
    modifies b, b.buf
    ensures var p := if parent.Some? then First(0, f, old(b.Strings()), Named(parent.value, None)) else 0;
            && (ret == 0 || ret == EINVAL)
            && (ret != 0 ==> b.h == old(b.h) && b.buf[..] == old(b.buf[..]))
            && (p < 0 ==> ret == EINVAL)
            && (p >= 0 ==>
                  && IsNode(f, p)
                  && var k0 := RestAt(f, p).value.kids;
                  && (ret == 0 <==>
                      && VChild(View(k0, b.Strings()), name).None?
                      && Used(old(b.h)) + HdrSize(name) + 4 <= b.h.totalsize)
                  && (ret == 0 ==> Added(f, p, name, off, k) && Holds(b, PutKids(f, p, k))
                                   && Used(b.h) == Used(old(b.h)) + HdrSize(name) + 4))
            && b.Strings() == old(b.Strings()) && b.h.totalsize == old(b.h).totalsize
  {
    hide First, RestAt, View, Wanted, Absent, Put, HdrSize, PropSize, Size, TreeIn, At, Region, Laid, PathOf, VPut,
      Spliced,
      RwProbe, VAddChild, VPutKids, VKids, VChild, AddOff;
    ret, k := 0, f;
    var parentOffset := 0;
    RootOfBlob(b, f);
    if parent.Some? {
      ret, parentOffset := GetEndpoint(b, parent.value, None, f);
      if ret != 0 {
        return EINVAL, 0, k;
      }
    }
    LaidOf(b, f);
    NamesHeld(b, f);
    KidsMeaning(f, parentOffset, b.Strings());
    off, k := AddSubnode(b, parentOffset, name, f);
    ret := if off < 0 then EINVAL else 0;
  }

  /** k are the items of the node at p with a new empty node at off. */
  ghost predicate Added(f: Forest, p: int, name: seq<byte>, off: int, k: Forest) {
    && IsNode(f, p)
    && var at, k0 := p + HdrSize(RestAt(f, p).value.name), RestAt(f, p).value.kids;
    && off == AddOff(at, k0) && RestAt(k0, off - at).Some?
    && k == Put(k0, off - at, Sub(name, Nil, RestAt(k0, off - at).value))
  }

  /** The new node is the child its name finds, and it is empty. */
  lemma AddedChild(f: Forest, p: int, name: seq<byte>, off: int, k: Forest, strs: seq<byte>)
    requires Added(f, p, name, off, k) && p >= 0 && NamesOk(PutKids(f, p, k), strs)
    ensures var x := RestAt(f, p).value;
            var base := View(x.kids, strs);
            var g := PutKids(f, p, k);
            && IsNode(g, p) && RestAt(g, p).value.name == x.name && RestAt(g, p).value.kids == k
            && ChildOff(p + HdrSize(x.name), k, name) == off
            && View(k, strs) == VAddChild(base, name)
  {
    hide First, RestAt, View, Put, HdrSize, PropSize, Size, PathOf, VPut, VAddChild, ChildOff, AddOff;
    var x := RestAt(f, p).value;
    PutKidsAgain(f, p, k, k);
    AddedFound(p + HdrSize(x.name), x.kids, name);
    AddPlace(p + HdrSize(x.name), x.kids, strs, name);
  }

  /** Filling the node that was added is merging into the parent. */
  lemma FillAdded(f: Forest, p: int, name: seq<byte>, off: int, k: Forest, strs: seq<byte>, more: seq<byte>,
                  ck: Forest, d: Dt)
    returns (l: Forest)
    requires Added(f, p, name, off, k) && p >= 0 && NamesOk(PutKids(f, p, k), strs)
    requires VChild(View(RestAt(f, p).value.kids, strs), name).None?
    ensures IsNode(PutKids(f, p, k), off) && View(RestAt(PutKids(f, p, k), off).value.kids, strs) == DNil
    ensures PutKids(PutKids(f, p, k), off, ck) == PutKids(f, p, l)
    ensures View(ck, strs + more) == Merge(DNil, d) ==>
              View(l, strs + more) == MergeChild(View(RestAt(f, p).value.kids, strs), name, d)
  {
    hide First, RestAt, View, Put, HdrSize, PropSize, Size, PathOf, VPut, VAddChild, VChild, ChildOff, AddOff, Merge,
      MergeChild,
      NamesOk, Added;
    AddedOff(f, p, name, off, k);
    var x := RestAt(f, p).value;
    var base := View(x.kids, strs);
    var g := PutKids(f, p, k);
    AddedChild(f, p, name, off, k, strs);
    AddedIsEmpty(base, name);
    var e, c := ChildReached(g, p, name, strs);
    l := Put(k, e, Sub(c.name, ck, c.next));
    PutKidsAgain(f, p, k, l);
    if View(ck, strs + more) == Merge(DNil, d) {
      NamesOfKids(g, p, strs);
      ChildMerged(k, p + HdrSize(x.name), name, e, c, ck, strs, more, base, d);
    }
  }

  lemma AddedOff(f: Forest, p: int, name: seq<byte>, off: int, k: Forest)
    requires Added(f, p, name, off, k) && p >= 0
    ensures IsNode(f, p) && off >= 0
  {
    hide RestAt, Put, HdrSize, AddOff;
    var x := RestAt(f, p).value;
    AddPlace(p + HdrSize(x.name), x.kids, [], name);
  }

  /** The node that copying works below: where the node is found in the target, or
      where it is created. */
  function Site(f: Forest, strs: seq<byte>, q: Query, belowRoot: bool): int {
    var t := First(0, f, strs, q);
    if t >= 0 then t else if belowRoot then 0 else First(0, f, strs, Named(ENDPOINTS, None))
  }

  /** The parent of the node at s is the root. */
  predicate BelowRoot(o: Forest, s: int) {
    var way := Way(0, o, s);
    |way| >= 2 && way[|way| - 2].off == 0
  }

  /** How copying the items d below the items base ends: exactly the cases in which
      it must succeed and in which it cannot, and what is there when it does. */
  ghost predicate Copied(strs: seq<byte>, strs1: seq<byte>, used: int, used1: int, total: int,
                         base: Dt, got: Dt, there: bool, name: seq<byte>, d: Dt, ret: int) {
    var cost := Cost(strs, d) + if there then 0 else HdrSize(name) + 4;
    && (ret == 0 ==>
          && Acceptable(d, 0) && used1 <= used + cost
          && (there ==> got == Merge(base, d))
          && (!there ==> VChild(base, name).None? && got == MergeChild(base, name, d)))
    && (Acceptable(d, 0) && used + cost <= total && (there || VChild(base, name).None?) ==> ret == 0)
  }

  /** The branch of xrt_md_copy_endpoint for a node that is not there yet. */
  method CreateAndMerge(blob: Blob, src: Blob, name: seq<byte>, parent: Option<seq<byte>>, offset: int, ghost p: int,
                        ghost f: Forest, ghost o: Forest)
    returns (ret: int, ghost k: Forest)
    requires Holds(blob, f) && Holds(src, o) && blob != src && blob.buf != src.buf && IsNode(o, offset) && offset >= 0
    requires 0 !in name && |name| < INT_LIMIT - 16 && (parent.Some? ==> 0 !in parent.value)
    requires p == if parent.Some? then First(0, f, blob.Strings(), Named(parent.value, None)) else 0
    modifies blob, blob.buf
    ensures ret == 0 || ret == EINVAL
    ensures blob.h.totalsize == old(blob.h).totalsize && (exists more :: blob.Strings() == old(blob.Strings()) + more)
    ensures p < 0 ==> ret != 0 && Holds(blob, f) && blob.h == old(blob.h) && blob.buf[..] == old(blob.buf[..])
    ensures p >= 0 ==>
      && IsNode(f, p) && Holds(blob, PutKids(f, p, k))
      && Copied(old(blob.Strings()), blob.Strings(), Used(old(blob.h)), Used(blob.h), blob.h.totalsize,
                View(RestAt(f, p).value.kids, old(blob.Strings())), View(k, blob.Strings()), false, name,
                View(RestAt(o, offset).value.kids, src.Strings()), ret)
  {
    hide First, RestAt, View, Wanted, Absent, Put, HdrSize, PropSize, Size, TreeIn, At, Region, Laid, Used, Cost,
      Acceptable,
      Added, VChild, Merge, MergeChild, NamesOk, RwProbe, PutKids, StrKnown;
    ghost var s0 := blob.Strings();
    assert s0 == s0 + [];
    ghost var d := View(RestAt(o, offset).value.kids, src.Strings());
    ghost var k1;
    k := f;
    var target;
    ret, target, k1 := AddEndpoint(blob, name, parent, f);
    if ret != 0 {
      if p >= 0 {
        SelfPut(f, p);
        k := RestAt(f, p).value.kids;
      }
      return EINVAL, k;
    }
    ghost var g, ck := PutKids(f, p, k1), k1;
    NamesHeld(blob, g);
    AddedOff(f, p, name, target, k1);
    k := FillAdded(f, p, name, target, k1, s0, [], ck, d);
    ret, ck := Overlay(blob, target, src, offset, 0, g, o);
    ghost var more :| blob.Strings() == s0 + more;
    k := FillAdded(f, p, name, target, k1, s0, more, ck, d);
  }

  /** The branch for a node that is there. */
  method MergeThere(blob: Blob, src: Blob, name: seq<byte>, target: int, offset: int, ghost f: Forest, ghost o: Forest)
    returns (ret: int, ghost k: Forest)
    requires Holds(blob, f) && Holds(src, o) && blob != src && blob.buf != src.buf && IsNode(o, offset) && offset >= 0
    requires IsNode(f, target) && target >= 0
    modifies blob, blob.buf
    ensures ret == 0 || ret == EINVAL
    ensures blob.h.totalsize == old(blob.h).totalsize && (exists more :: blob.Strings() == old(blob.Strings()) + more)
    ensures Holds(blob, PutKids(f, target, k))
      && Copied(old(blob.Strings()), blob.Strings(), Used(old(blob.h)), Used(blob.h), blob.h.totalsize,
                View(RestAt(f, target).value.kids, old(blob.Strings())), View(k, blob.Strings()), true, name,
                View(RestAt(o, offset).value.kids, src.Strings()), ret)
  {
    hide RestAt, View, Put, HdrSize, TreeIn, Region, Laid, Used, Cost, Acceptable, VChild, Merge, MergeChild,
      NamesOk, PutKids, Holds;
    ret, k := Overlay(blob, target, src, offset, 0, f, o);
  }

  lemma SiteFacts(f: Forest, strs: seq<byte>, q: Query, belowRoot: bool)
    ensures First(0, f, strs, q) >= 0 ==> Site(f, strs, q, belowRoot) == First(0, f, strs, q)
    ensures First(0, f, strs, q) < 0 ==>
      Site(f, strs, q, belowRoot) == if belowRoot then 0 else First(0, f, strs, Named(ENDPOINTS, None))
  {
    hide First;
  }

  lemma AboveIsRoot(o: Forest, s: int, above: int)
    requires var way := Way(0, o, s); above == if |way| >= 2 then way[|way| - 2].off else NOTFOUND
    ensures above == 0 <==> BelowRoot(o, s)
  {
    hide Way;
  }

  /** ... below the root if the source has it there, else below the endpoints node. */
  method CreateThere(blob: Blob, src: Blob, name: seq<byte>, offset: int, ghost p: int,
                     ghost f: Forest, ghost o: Forest)
    returns (ret: int, ghost k: Forest)
    requires Holds(blob, f) && Holds(src, o) && blob != src && blob.buf != src.buf && IsNode(o, offset) && offset >= 0
    requires 0 !in name && |name| < INT_LIMIT - 16
    requires p == if BelowRoot(o, offset) then 0 else First(0, f, blob.Strings(), Named(ENDPOINTS, None))
    modifies blob, blob.buf
    ensures ret == 0 || ret == EINVAL
    ensures blob.h.totalsize == old(blob.h).totalsize && (exists more :: blob.Strings() == old(blob.Strings()) + more)
    ensures p < 0 ==> ret != 0 && Holds(blob, f) && blob.h == old(blob.h) && blob.buf[..] == old(blob.buf[..])
    ensures p >= 0 ==>
      && IsNode(f, p) && Holds(blob, PutKids(f, p, k))
      && Copied(old(blob.Strings()), blob.Strings(), Used(old(blob.h)), Used(blob.h), blob.h.totalsize,
                View(RestAt(f, p).value.kids, old(blob.Strings())), View(k, blob.Strings()), false, name,
                View(RestAt(o, offset).value.kids, src.Strings()), ret)
  {
    hide First, RestAt, View, Put, HdrSize, Size, TreeIn, At, Region, Laid, Way, Used, Cost, Acceptable, VChild, Merge,
      MergeChild, NamesOk, RwProbe, Holds, PutKids, Copied, BelowRoot;
    LaidTree(src, o);
    var above := ParentOffset(src, offset, o);
    AboveIsRoot(o, offset, above);
    var parent := if above == 0 then None else Some(ENDPOINTS);
    ret, k := CreateAndMerge(blob, src, name, parent, offset, p, f, o);
  }

  /** xrt_md_copy_endpoint: merge the node into the one of its name, or create that
      one first, below the root or below the endpoints node. */
  method CopyEndpoint(blob: Blob, src: Blob, ep: seq<byte>, compat: Option<seq<byte>>, newName: Option<seq<byte>>,
                      ghost f: Forest, ghost o: Forest)
    returns (ret: int, ghost k: Forest)
    requires Holds(blob, f) && Holds(src, o) && blob != src && blob.buf != src.buf
    requires Strings(Named(ep, compat)) && |ep| < INT_LIMIT - 16
    requires newName.Some? ==> 0 !in newName.value && |newName.value| < INT_LIMIT - 16
    modifies blob, blob.buf
    ensures ret == 0 || ret == EINVAL
    ensures blob.h.totalsize == old(blob.h).totalsize && (exists more :: blob.Strings() == old(blob.Strings()) + more)
    ensures var s := First(0, o, src.Strings(), Named(ep, compat));
            var name := if newName.Some? then newName.value else ep;
            var q := Named(name, compat);
            var p := Site(f, old(blob.Strings()), q, BelowRoot(o, s));
            && (s < 0 || p < 0 ==> ret != 0 && Holds(blob, f))
            && (s < 0 || p < 0 ==> blob.h == old(blob.h) && blob.buf[..] == old(blob.buf[..]))
            && (s >= 0 && p >= 0 ==>
                  && IsNode(o, s) && IsNode(f, p) && Holds(blob, PutKids(f, p, k))
                  && Copied(old(blob.Strings()), blob.Strings(), Used(old(blob.h)), Used(blob.h), blob.h.totalsize,
                            View(RestAt(f, p).value.kids, old(blob.Strings())), View(k, blob.Strings()),
                            First(0, f, old(blob.Strings()), q) >= 0, name,
                            View(RestAt(o, s).value.kids, src.Strings()), ret))
  {
    hide First, RestAt, View, Wanted, Absent, Put, HdrSize, PropSize, Size, TreeIn, At, Region, Laid, Way, Used,
      Cost, Acceptable,
      Added, VChild, Merge, MergeChild, NamesOk, RwProbe, Holds, PutKids, StrKnown, Point, Copied, BelowRoot, Site;
    var newepnm := if newName.Some? then newName.value else ep;
    ghost var s0 := blob.Strings();
    assert s0 == s0 + [];
    k := f;
    var r, offset := GetEndpoint(src, ep, compat, o);
    if r != 0 {
      return EINVAL, k;
    }
    ghost var q, below := Named(newepnm, compat), BelowRoot(o, offset);
    SiteFacts(f, s0, q, below);
    var target;
    r, target := GetEndpoint(blob, newepnm, compat, f);
    if r == 0 {
      ret, k := MergeThere(blob, src, newepnm, target, offset, f, o);
      return;
    }
    ret, k := CreateThere(blob, src, newepnm, offset, Site(f, s0, q, below), f, o);
  }
}
