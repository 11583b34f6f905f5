/** The recursive tree merge that overlay_apply_node and xrt_md_overlay
    compute, as a function on abstract trees, and its laws. */
module FdtMerge {
  import opened Bytes
  import opened FdtFormat
  import opened FdtTree
  import opened FdtBlob
  import opened Fdt
  import opened FdtRo
  import opened FdtEdits

  /** The contents of the child a name finds, replaced. */
  function VPutChild(d: Dt, name: seq<byte>, k: Dt): Dt {
    match d
    case DNil => DNil
    case DProp(m, v, n) => DProp(m, v, VPutChild(n, name, k))
    case DNode(m, c, n) => if NameEq(m, name) then DNode(m, k, n) else DNode(m, c, VPutChild(n, name, k))
  }

  /** Properties of the overlay win. */
  function MergeProps(base: Dt, ov: Dt): Dt
    decreases ov
  {
    match ov
    case DProp(name, val, n) => MergeProps(VSetProp(base, name, val), n)
    case _ => base
  }

  /** A child that is there is merged into; a missing one is created. */
  function MergeChild(base: Dt, name: seq<byte>, ov: Dt): Dt
    decreases ov, 2
  {
    match VChild(base, name)
    case Some(k) => VPutChild(base, name, Merge(k, ov))
    case None => VPutChild(VAddChild(base, name), name, Merge(DNil, ov))
  }

  function MergeSubs(base: Dt, ov: Dt): Dt
    decreases ov, 0
  {
    match ov
    case DNil => base
    case DProp(_, _, n) => MergeSubs(base, n)
    case DNode(name, k, n) => MergeSubs(MergeChild(base, name, k), n)
  }

  function Merge(base: Dt, ov: Dt): Dt
    decreases ov, 1
  {
    MergeSubs(MergeProps(base, ov), ov)
  }

  // ---- what the walks over the overlay see ---------------------------------------------

  lemma {:induction false} FirstSubView(base: Dt, off: int, f: Forest, strs: seq<byte>)
    requires off >= 0
    ensures var r := FirstSub(off, f);
            && (r < 0 ==> r == NOTFOUND && MergeSubs(base, View(f, strs)) == base)
            && (r >= 0 ==>
                  && r >= off && IsNode(f, r - off)
                  && var x := RestAt(f, r - off).value;
                  && Size(x) <= Size(f)
                  && MergeSubs(base, View(f, strs)) ==
                     MergeSubs(MergeChild(base, x.name, View(x.kids, strs)), View(x.next, strs)))
    decreases f
  {
    hide HdrWords, PropWords, StrAt, MergeChild;
    match f
    case Nil =>
    case Nop(n) => FirstSubView(base, off + 4, n, strs);
    case Prop(_, v, n) => FirstSubView(base, off + PropSize(v), n, strs);
    case Sub(_, _, _) =>
  }

  lemma {:induction false} NextPropView(base: Dt, off: int, f: Forest, strs: seq<byte>)
    requires off >= 0
    ensures var r := NextProp(off, f);
            && (r < 0 ==> r == NOTFOUND && MergeProps(base, View(f, strs)) == base)
            && (r >= 0 ==>
                  && SkipNops(f).Prop? && r == off + Size(f) - Size(SkipNops(f))
                  && var x := SkipNops(f);
                     MergeProps(base, View(f, strs)) ==
                     MergeProps(VSetProp(base, StrAt(strs, x.nameoff), x.val), View(x.next, strs)))
    decreases f
  {
    hide HdrWords, PropWords, StrAt, VSetProp;
    if f.Nop? {
      NextPropView(base, off + 4, f.next, strs);
    }
  }

  // ---- the child an edit reached --------------------------------------------------------

  /** Behind its first item a list is found, and changed, in what follows. */
  lemma BehindItem(k: Forest, e: int, g: Forest)
    requires !k.Nil? && e >= ItemSize(k)
    ensures RestAt(k, e) == RestAt(k.next, e - ItemSize(k))
    ensures Put(k, e, g) == k.(next := Put(k.next, e - ItemSize(k), g))
  {
    hide HdrSize, PropSize, Size;
  }

  lemma SearchOn(off: int, k: Forest, name: seq<byte>)
    requires !k.Nil? && !(k.Sub? && NameEq(k.name, name))
    ensures ChildOff(off, k, name) == ChildOff(off + ItemSize(k), k.next, name)
  {
    hide HdrSize, PropSize, Size, NameEq;
  }

  lemma ViewOn(k: Forest, n: Forest, strs: seq<byte>, name: seq<byte>, g: Dt)
    requires !k.Nil? && !(k.Sub? && NameEq(k.name, name)) && View(n, strs) == VPutChild(View(k.next, strs), name, g)
    ensures View(k.(next := n), strs) == VPutChild(View(k, strs), name, g)
  {
    hide NameEq, StrAt;
  }

  lemma ChildFirst(off: int, k: Forest, strs: seq<byte>, name: seq<byte>, g: Forest)
    requires k.Sub? && NameEq(k.name, name)
    ensures ChildOff(off, k, name) == off && RestAt(k, 0) == Some(k)
    ensures View(Put(k, 0, Sub(k.name, g, k.next)), strs) == VPutChild(View(k, strs), name, View(g, strs))
  {
    hide HdrSize, Size, NameEq;
  }

  lemma {:induction false} ChildPut(off: int, k: Forest, strs: seq<byte>, name: seq<byte>, g: Forest)
    requires off >= 0 && ChildOff(off, k, name) >= 0
    ensures var e := ChildOff(off, k, name) - off;
            && IsNode(k, e)
            && var x := RestAt(k, e).value;
               View(Put(k, e, Sub(x.name, g, x.next)), strs) == VPutChild(View(k, strs), name, View(g, strs))
    decreases k
  {
    hide HdrSize, PropSize, Size, ItemSize, NameEq, StrAt, RestAt, Put, View, VPutChild;
    ChildFound(off, k, strs, name);
    if k.Sub? && NameEq(k.name, name) {
      ChildFirst(off, k, strs, name, g);
    } else if !k.Nil? {
      hide ChildOff;
      SearchOn(off, k, name);
      var e := ChildOff(off, k, name) - off;
      ChildFound(off + ItemSize(k), k.next, strs, name);
      ChildPut(off + ItemSize(k), k.next, strs, name, g);
      var x := RestAt(k.next, e - ItemSize(k)).value;
      BehindItem(k, e, Sub(x.name, g, x.next));
      ViewOn(k, Put(k.next, e - ItemSize(k), Sub(x.name, g, x.next)), strs, name, View(g, strs));
    }
  }

  /** A node that was just added is the one its name finds. */
  lemma {:induction false} AddedFound(off: int, k: Forest, name: seq<byte>)
    requires off >= 0
    ensures var r := AddOff(off, k);
            && RestAt(k, r - off).Some?
            && ChildOff(off, Put(k, r - off, Sub(name, Nil, RestAt(k, r - off).value)), name) == r
    decreases k
  {
    hide HdrWords, PropWords, Words;
    AddPlace(off, k, [], name);
    match k
    case Nop(n) => AddPlace(off + 4, n, [], name); AddedFound(off + 4, n, name);
    case Prop(_, v, n) => AddPlace(off + PropSize(v), n, [], name); AddedFound(off + PropSize(v), n, name);
    case _ =>
  }

  lemma AddedIsEmpty(d: Dt, name: seq<byte>)
    ensures VChild(VAddChild(d, name), name) == Some(DNil)
  {
    if d.DProp? {
      AddedIsEmpty(d.next, name);
    }
  }
}
