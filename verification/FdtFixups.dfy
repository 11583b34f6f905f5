/** fdt_overlay.c: adding an offset to every local reference of an overlay, in
    place, as its fixup nodes list them. */
module FdtFixups {
  import opened Bytes
  import opened FdtFormat
  import opened FdtTree
  import opened FdtBlob
  import opened Fdt
  import opened FdtRo
  import opened FdtEdits
  import opened FdtWip
  import opened FdtMerge
  import opened FdtOverlay
  import opened FdtPath
  import opened FdtShift
  import opened FdtShape

  // ---- meaning --------------------------------------------------------------------------

  /** One cell of a value with delta added, if the cell is inside the value. */
  function CellFixed(v: seq<byte>, o: int, delta: int): Option<seq<byte>> {
    if 0 <= o && o + 4 <= |v| then Some(Overwritten(v, o, Be32((Word(v, o) + delta) % U32_LIMIT))) else None
  }

  /** The cells that the words of a fixup value list, from the i-th on. */
  function FixValue(v: seq<byte>, fix: seq<byte>, i: nat, delta: int): Option<seq<byte>>
    decreases |fix| - 4 * i
  {
    if 4 * i + 4 > |fix| then Some(v)
    else
      match CellFixed(v, Word(fix, 4 * i), delta)
      case Some(w) => FixValue(w, fix, i + 1, delta)
      case None => None
  }

  function FixProp(d: Dt, name: seq<byte>, fix: seq<byte>, delta: int): Option<Dt> {
    if |fix| % 4 != 0 then None
    else
      match VGet(d, name)
      case None => None
      case Some(v) =>
        match FixValue(v, fix, 0, delta)
        case None => None
        case Some(w) => Some(VOverwrite(d, name, w))
  }

  /** The references in a node's own properties, as the properties of the fixup
      node list them. */
  function FixProps(d: Dt, fx: Dt, delta: int): Option<Dt>
    decreases fx
  {
    match fx
    case DProp(name, fix, n) =>
      (match FixProp(d, name, fix, delta)
       case None => None
       case Some(e) => FixProps(e, n, delta))
    case _ => Some(d)
  }

  function FixChild(d: Dt, name: seq<byte>, fx: Dt, delta: int): Option<Dt>
    decreases fx, 2
  {
    match VChild(d, name)
    case None => None
    case Some(c) =>
      match Fix(c, fx, delta)
      case None => None
      case Some(e) => Some(VPutChild(d, name, e))
  }

  function FixSubs(d: Dt, fx: Dt, delta: int): Option<Dt>
    decreases fx, 0
  {
    match fx
    case DNil => Some(d)
    case DProp(_, _, n) => FixSubs(d, n, delta)
    case DNode(name, k, n) =>
      match FixChild(d, name, k, delta)
      case None => None
      case Some(e) => FixSubs(e, n, delta)
  }

  /** All references of a node and below, or None if the fixups do not fit. */
  function Fix(d: Dt, fx: Dt, delta: int): Option<Dt>
    decreases fx, 1
  {
    match FixProps(d, fx, delta)
    case None => None
    case Some(e) => FixSubs(e, fx, delta)
  }

  // ---- where the guard works ------------------------------------------------------------

  /** No word that is reached passes the guard of a value of n bytes wrongly. */
  predicate CellsGuarded(n: nat, fix: seq<byte>, i: nat)
    decreases |fix| - 4 * i
  {
    4 * i + 4 > |fix| ||
    (GuardAgrees(n, 4, Word(fix, 4 * i)) && (Word(fix, 4 * i) + 4 <= n ==> CellsGuarded(n, fix, i + 1)))
  }

  predicate PropGuarded(d: Dt, name: seq<byte>, fix: seq<byte>) {
    |fix| % 4 == 0 && VGet(d, name).Some? ==> CellsGuarded(|VGet(d, name).value|, fix, 0)
  }

  predicate PropsGuarded(d: Dt, fx: Dt, delta: int)
    decreases fx
  {
    match fx
    case DProp(name, fix, n) =>
      PropGuarded(d, name, fix) &&
      (match FixProp(d, name, fix, delta)
       case None => true
       case Some(e) => PropsGuarded(e, n, delta))
    case _ => true
  }

  predicate ChildGuarded(d: Dt, name: seq<byte>, fx: Dt, delta: int)
    decreases fx, 2
  {
    VChild(d, name).Some? ==> Guarded(VChild(d, name).value, fx, delta)
  }

  predicate SubsGuarded(d: Dt, fx: Dt, delta: int)
    decreases fx, 0
  {
    match fx
    case DNil => true
    case DProp(_, _, n) => SubsGuarded(d, n, delta)
    case DNode(name, k, n) =>
      ChildGuarded(d, name, k, delta) &&
      match FixChild(d, name, k, delta)
      case None => true
      case Some(e) => SubsGuarded(e, n, delta)
  }

  /** Up to where the fixups stop to fit, every offset is guarded rightly. */
  predicate Guarded(d: Dt, fx: Dt, delta: int)
    decreases fx, 1
  {
    PropsGuarded(d, fx, delta) &&
    match FixProps(d, fx, delta)
    case None => true
    case Some(e) => SubsGuarded(e, fx, delta)
  }

  /** No offset of the fixups is four or less below 2^32. */
  predicate AllSmall(fx: Dt) {
    match fx
    case DNil => true
    case DProp(_, fix, n) => (forall i :: 0 <= i < |fix| / 4 ==> Word(fix, 4 * i) + 4 < U32_LIMIT) && AllSmall(n)
    case DNode(_, k, n) => AllSmall(k) && AllSmall(n)
  }

  lemma {:induction false} SmallCells(n: nat, fix: seq<byte>, i: nat)
    requires forall j :: 0 <= j < |fix| / 4 ==> Word(fix, 4 * j) + 4 < U32_LIMIT
    ensures CellsGuarded(n, fix, i)
    decreases |fix| - 4 * i
  {
    if 4 * i + 4 <= |fix| {
      assert Word(fix, 4 * i) + 4 < U32_LIMIT;
      SmallCells(n, fix, i + 1);
    }
  }

  lemma {:induction false} SmallProps(d: Dt, fx: Dt, delta: int)
    requires AllSmall(fx)
    ensures PropsGuarded(d, fx, delta)
    decreases fx
  {
    hide FixProp, Word;
    if fx.DProp? {
      if VGet(d, fx.name).Some? {
        SmallCells(|VGet(d, fx.name).value|, fx.val, 0);
      }
      var e := FixProp(d, fx.name, fx.val, delta);
      if e.Some? {
        SmallProps(e.value, fx.next, delta);
      }
    }
  }

  lemma {:induction false} SmallSubs(d: Dt, fx: Dt, delta: int)
    requires AllSmall(fx)
    ensures SubsGuarded(d, fx, delta)
    decreases fx, 0
  {
    hide FixChild, Word, VChild;
    match fx
    case DNil =>
    case DProp(_, _, n) => SmallSubs(d, n, delta);
    case DNode(name, k, n) =>
      if VChild(d, name).Some? {
        SmallGuarded(VChild(d, name).value, k, delta);
      }
      var e := FixChild(d, name, k, delta);
      if e.Some? {
        SmallSubs(e.value, n, delta);
      }
  }

  /** Such fixups are guarded rightly in every tree. */
  lemma {:induction false} SmallGuarded(d: Dt, fx: Dt, delta: int)
    requires AllSmall(fx)
    ensures Guarded(d, fx, delta)
    decreases fx, 1
  {
    hide AllSmall, FixProps, PropsGuarded, SubsGuarded;
    SmallProps(d, fx, delta);
    var e := FixProps(d, fx, delta);
    if e.Some? {
      SmallSubs(e.value, fx, delta);
    }
  }

  /** A fixup that is not: a cell at offset 2^32 - 4 of a property that is there does
      not fit, and the guard lets it pass. */
  lemma UnguardedFixup(name: seq<byte>, v: seq<byte>, delta: int)
    requires |v| < INT_LIMIT
    ensures var fix := Be32(0xffff_fffc);
            && FixValue(v, fix, 0, delta) == None
            && !Guarded(DProp(name, v, DNil), DProp(name, fix, DNil), delta)
  {
    WordOfBe32(0xffff_fffc);
  }

  // ---- one property --------------------------------------------------------------------------

  lemma {:induction false} OverwriteTwice(d: Dt, name: seq<byte>, v: seq<byte>, w: seq<byte>)
    requires VGet(d, name).Some?
    ensures VGet(VOverwrite(d, name, v), name) == Some(v)
    ensures VOverwrite(VOverwrite(d, name, v), name, w) == VOverwrite(d, name, w)
    ensures VOverwrite(d, name, VGet(d, name).value) == d
    decreases d
  {
    if d.name != name {
      OverwriteTwice(d.next, name, v, w);
    }
  }

  /** What is kept while the items of the node at t are overwritten, with the
      fixup node at x. */
  ghost predicate Fixing(f: Forest, g: Forest, t: int, k: Forest, x: int) {
    && IsNode(f, t) && IsNode(f, x) && Beside(f, t, x) && g == PutKids(f, t, k)
    && IsNode(g, t) && RestAt(g, t).value.kids == k && RestAt(g, t).value.name == RestAt(f, t).value.name
    && IsNode(g, x) && RestAt(g, x).value.kids == RestAt(f, x).value.kids
    && RestAt(g, x).value.name == RestAt(f, x).value.name
    && SameShape(RestAt(f, t).value.kids, k) && SameShape(f, g)
  }

  /** Where the fixup node lies: apart from the node being fixed, or behind its
      properties. */
  predicate Beside(f: Forest, t: int, x: int) {
    && IsNode(f, t) && IsNode(f, x)
    && (Apart(f, t, x) || IsNode(RestAt(f, t).value.kids, x - t - HdrSize(RestAt(f, t).value.name)))
  }

  lemma SlotOf(strs: seq<byte>, k: Forest, name: seq<byte>, w: seq<byte>)
    requires NamesOk(k, strs) && VGet(View(k, strs), name).Some? && |VGet(View(k, strs), name).value| == |w|
    ensures View(FSetVal(k, strs, name, w), strs) == VOverwrite(View(k, strs), name, w)
    ensures NamesOk(FSetVal(k, strs, name, w), strs) && Size(FSetVal(k, strs, name, w)) == Size(k)
    ensures SameShape(k, FSetVal(k, strs, name, w))
  {
    SetValView(k, strs, name, w);
    ShapeSet(k, strs, name, w);
  }

  lemma BesideNodes(f: Forest, t: int, x: int)
    requires Beside(f, t, x)
    ensures IsNode(f, t) && IsNode(f, x)
  {
  }

  lemma FixingStart(f: Forest, t: int, x: int)
    requires Beside(f, t, x)
    ensures Fixing(f, f, t, RestAt(f, t).value.kids, x)
  {
    hide RestAt, Put;
    SelfPut(f, t);
    ShapeSelf(f);
    ShapeSelf(RestAt(f, t).value.kids);
  }

  lemma BesideKept(f: Forest, g: Forest, t: int, k: Forest, x: int)
    requires Fixing(f, g, t, k, x)
    ensures Beside(g, t, x)
  {
    hide HdrSize, PropSize, Size, RestAt, Put, SameShape;
    var at := t + HdrSize(RestAt(f, t).value.name);
    ShapeApart(f, g, t, x);
    if IsNode(RestAt(f, t).value.kids, x - at) {
      ShapeRest(RestAt(f, t).value.kids, k, x - at);
      ShapeSub(RestAt(RestAt(f, t).value.kids, x - at).value, RestAt(k, x - at).value);
    }
  }

  lemma ShapeSub(f: Forest, g: Forest)
    requires SameShape(f, g) && f.Sub?
    ensures g.Sub?
  {
  }

  /** Overwriting one of the node's own values keeps the fixup node. */
  lemma SetKeeps(f: Forest, t: int, x: int, strs: seq<byte>, name: seq<byte>, w: seq<byte>)
    requires Beside(f, t, x) && NamesOk(RestAt(f, t).value.kids, strs)
    requires var d := View(RestAt(f, t).value.kids, strs); VGet(d, name).Some? && |VGet(d, name).value| == |w|
    ensures var k := FSetVal(RestAt(f, t).value.kids, strs, name, w);
            var g := PutKids(f, t, k);
            && IsNode(g, t) && RestAt(g, t).value.kids == k && RestAt(g, t).value.name == RestAt(f, t).value.name
            && IsNode(g, x) && RestAt(g, x).value.kids == RestAt(f, x).value.kids
            && RestAt(g, x).value.name == RestAt(f, x).value.name
            && SameShape(RestAt(f, t).value.kids, k) && SameShape(f, g)
  {
    hide HdrSize, PropSize, Size, RestAt, Put, View, VGet, FSetVal, NamesOk, SameShape;
    var n := RestAt(f, t).value;
    var k := FSetVal(n.kids, strs, name, w);
    var at := t + HdrSize(n.name);
    SlotOf(strs, n.kids, name, w);
    PutKidsTwice(f, t, k, k);
    ShapeKids(f, t, k);
    if Apart(f, t, x) {
      KidsKept(f, t, k, x);
    } else {
      SetKept(n.kids, strs, name, w, x - at);
      PutNested(f, t, x - at, Nil);
      PutNested(PutKids(f, t, k), t, x - at, Nil);
    }
  }

  /** One more value of the node overwritten. */
  lemma FixingStep(f: Forest, g: Forest, t: int, k: Forest, x: int, strs: seq<byte>, name: seq<byte>, w: seq<byte>)
    requires Fixing(f, g, t, k, x) && NamesOk(k, strs)
    requires VGet(View(k, strs), name).Some? && |VGet(View(k, strs), name).value| == |w|
    ensures var l := FSetVal(k, strs, name, w);
            Fixing(f, PutKids(g, t, l), t, l, x) && PutKids(g, t, l) == PutKids(f, t, l)
  {
    hide HdrSize, PropSize, Size, RestAt, Put, View, VGet, FSetVal, NamesOk, SameShape, Beside;
    var l := FSetVal(k, strs, name, w);
    BesideKept(f, g, t, k, x);
    SetKeeps(g, t, x, strs, name, w);
    PutKidsTwice(f, t, k, l);
    ShapeTrans(f, g, PutKids(g, t, l));
    ShapeTrans(RestAt(f, t).value.kids, k, l);
  }

  /** The cells of one property: the inner loop of
      overlay_update_local_node_references. */
  method FixCells(b: Blob, t: int, name: seq<byte>, fix: seq<byte>, delta: u32, ghost x: int, ghost f: Forest)
    returns (err: int, ghost k: Forest)
    requires Holds(b, f) && Beside(f, t, x)
    requires PropGuarded(View(RestAt(f, t).value.kids, b.Strings()), name, fix)
    modifies b.buf
    ensures b.Strings() == old(b.Strings()) && Holds(b, PutKids(f, t, k)) && Fixing(f, PutKids(f, t, k), t, k, x)
    ensures match FixProp(View(RestAt(f, t).value.kids, b.Strings()), name, fix, delta)
            case Some(d) => err == 0 && View(k, b.Strings()) == d
            case None => err == BADOVERLAY
  {
    hide HdrSize, PropSize, Size, Put, RestAt, Region, TreeIn, At, PropOff, StrAt, Word, View, VGet, FSetVal,
      VOverwrite,
      Be32, SameShape, Beside, Holds, Fixing, NamesOk, CellFixed, CellsGuarded, PutKids;
    BesideNodes(f, t, x);
    ghost var n := RestAt(f, t).value;
    k := n.kids;
    ghost var strs, d0 := b.Strings(), View(k, b.Strings());
    SelfPut(f, t);
    FixingStart(f, t, x);
    if |fix| % 4 != 0 {
      return BADOVERLAY, k;
    }
    ValueHere(b, f, t, name);
    var off, len := GetProperty(b, t, name, f);
    if off < 0 {
      return BADOVERLAY, k;
    }
    ghost var v := VGet(d0, name).value;
    OverwriteTwice(d0, name, v, v);
    ghost var g := f;
    var i := 0;
    while i < |fix| / 4
      invariant 0 <= i <= |fix| / 4 && b.Strings() == strs
      invariant Holds(b, g) && g == PutKids(f, t, k) && Fixing(f, g, t, k, x)
      invariant VGet(d0, name).Some? && View(k, strs) == VOverwrite(d0, name, v) && |v| == len
      invariant CellsGuarded(|v|, fix, i)
      invariant FixValue(v, fix, i, delta) == FixValue(VGet(d0, name).value, fix, 0, delta)
    {
      var poffset := Word(fix, 4 * i);
      var cell := ReadCell(b, off + 12 + poffset);
      OverwriteTwice(d0, name, v, v);
      CellHere(b, g, f, t, k, x, name, off, v, poffset);
      GuardStep(|v|, fix, i);
      ghost var w := Overwritten(v, poffset, Be32((cell + delta) % U32_LIMIT));
      ghost var was := k;
      KidsOf(f, g, t, k, x);
      NodeNamesOk(b, g, t);
      var ret;
      ret, k := SetPropInplacePartial(b, t, name, poffset, Be32((cell + delta) % U32_LIMIT), g);
      if ret != 0 {
        NoCell(v, fix, i, poffset, delta);
        return BADOVERLAY, was;
      }
      FixingStep(f, g, t, was, x, strs, name, w);
      g := PutKids(f, t, k);
      SlotOf(strs, was, name, w);
      OverwriteTwice(d0, name, v, w);
      NextCell(v, fix, i, poffset, cell, delta);
      v := w;
      i := i + 1;
    }
    AllCells(v, fix, i, delta);
    err := 0;
  }

  lemma GuardStep(n: nat, fix: seq<byte>, i: nat)
    requires CellsGuarded(n, fix, i) && 4 * i + 4 <= |fix|
    ensures GuardAgrees(n, 4, Word(fix, 4 * i))
    ensures Word(fix, 4 * i) + 4 <= n ==> CellsGuarded(n, fix, i + 1)
  {
    hide GuardAgrees, Word;
  }

  /** A word of the structure block; what lies behind it is anything. */
  method ReadCell(b: Blob, p: int) returns (w: int)
    requires Laid(b.h, b.buf.Length) && 0 <= p
    ensures 0 <= w < U32_LIMIT
    ensures p + 4 <= |b.StructBlock()| ==> w == Word(b.StructBlock(), p)
  {
    var s := b.StructBlock();
    if p + 4 <= |s| {
      return Word(s, p);
    }
    w := *;
    if w < 0 || U32_LIMIT <= w {
      w := 0;
    }
  }

  lemma NextCell(v: seq<byte>, fix: seq<byte>, i: nat, o: int, cell: int, delta: int)
    requires 4 * i + 4 <= |fix| && o == Word(fix, 4 * i) && o + 4 <= |v| && cell == Word(v, o)
    ensures FixValue(v, fix, i, delta) ==
            FixValue(Overwritten(v, o, Be32((cell + delta) % U32_LIMIT)), fix, i + 1, delta)
  {
    hide Word, Be32;
  }

  lemma NoCell(v: seq<byte>, fix: seq<byte>, i: nat, o: int, delta: int)
    requires 4 * i + 4 <= |fix| && o == Word(fix, 4 * i) && o + 4 > |v|
    ensures FixValue(v, fix, i, delta) == None
  {
  }

  lemma AllCells(v: seq<byte>, fix: seq<byte>, i: nat, delta: int)
    requires i == |fix| / 4
    ensures FixValue(v, fix, i, delta) == Some(v)
  {
  }

  lemma KidsOf(f: Forest, g: Forest, t: int, k: Forest, x: int)
    requires Fixing(f, g, t, k, x)
    ensures IsNode(f, t) && IsNode(g, t) && RestAt(g, t).value.kids == k
    ensures RestAt(g, t).value.name == RestAt(f, t).value.name
    ensures SameShape(RestAt(f, t).value.kids, k)
  {
    hide RestAt, SameShape, Beside;
  }

  /** The cell that was read is the cell of the value as it is now. */
  lemma CellHere(b: Blob, g: Forest, f: Forest, t: int, k: Forest, x: int, name: seq<byte>, off: int, v: seq<byte>,
                 o: int)
    requires Holds(b, g) && Fixing(f, g, t, k, x) && VGet(View(k, b.Strings()), name) == Some(v)
    requires off == PropOff(t + HdrSize(RestAt(f, t).value.name), RestAt(f, t).value.kids, b.Strings(), name)
    requires 0 <= o
    ensures off >= 0 && o + 4 <= |v| ==>
      off + 12 + o + 4 <= |b.StructBlock()| && Word(b.StructBlock(), off + 12 + o) == Word(v, o)
    ensures VGet(VKids(View(g, b.Strings()), PathOf(g, t)), name) == Some(v)
  {
    hide HdrSize, PropSize, Size, Put, RestAt, Region, TreeIn, At, PropOff, StrAt, Word, View, VGet, HoldsAt, SameShape,
      Beside, VKids, PathOf, Holds;
    KidsOf(f, g, t, k, x);
    ShapeProp(t + HdrSize(RestAt(f, t).value.name), RestAt(f, t).value.kids, k, b.Strings(), name);
    ValueHere(b, g, t, name);
    NamesHeld(b, g);
    KidsMeaning(g, t, b.Strings());
    if off >= 0 && o + 4 <= |v| {
      CellWord(b.StructBlock(), off + 12, v, o);
    }
  }

  lemma CellWord(s: seq<byte>, p: int, v: seq<byte>, o: int)
    requires HoldsAt(s, p, v) && 0 <= o && o + 4 <= |v|
    ensures p + o + 4 <= |s| && Word(s, p + o) == Word(v, o)
  {
    hide Word;
    forall j | o <= j < o + 4 ensures v[j] == s[j - o + (p + o)] {
      assert s[p + j] == v[p + j - p];
    }
    SameWord(v, o, s, p + o);
  }

  // ---- a node's own references --------------------------------------------------------------

  lemma FixingTrans(f: Forest, g: Forest, t: int, k: Forest, x: int, h: Forest, l: Forest)
    requires Fixing(f, g, t, k, x) && Fixing(g, h, t, l, x)
    ensures Fixing(f, h, t, l, x) && h == PutKids(f, t, l)
  {
    hide HdrSize, PropSize, Size, RestAt, Put, SameShape, Beside;
    PutKidsTwice(f, t, k, l);
    ShapeTrans(f, g, h);
    ShapeTrans(RestAt(f, t).value.kids, k, l);
  }

  /** The items of a node from one of them on. */
  lemma ItemPoint(b: Blob, g: Forest, x: int, e: int, on: Forest)
    requires Holds(b, g) && IsNode(g, x) && RestAt(RestAt(g, x).value.kids, e) == Some(on)
    ensures var at := x + HdrSize(RestAt(g, x).value.name);
            && Point(b.StructBlock(), at + e, on, Edge) && NamesOk(on, b.Strings())
            && at > 0 && e >= 0 && |b.StructBlock()| < INT_LIMIT
            && Laid(b.h, b.buf.Length) && TreeIn(b.StructBlock(), g)
  {
    hide HdrSize, PropSize, Size, RestAt, TreeIn, Region, At, IsTag;
    var n := RestAt(g, x).value;
    OverlayStart(b, g, x);
    HdrSome(n.name);
    ListPoint(b.StructBlock(), x + HdrSize(n.name), n.kids, e, on);
    NamesPut(n.kids, e, on, b.Strings());
  }

  lemma ListPoint(s: seq<byte>, at: int, k: Forest, e: int, on: Forest)
    requires Point(s, at, k, Edge) && RestAt(k, e) == Some(on)
    ensures Point(s, at + e, on, Edge) && e >= 0
  {
    hide HdrSize, PropSize, Size, RestAt, At, IsTag;
    RestAtBounds(k, e);
    RestAtIsAt(s, at, k, e);
    RestClosed(s, at, k, e);
  }

  lemma {:induction false} SkipAt(k: Forest, e: int, on: Forest, off: int)
    requires RestAt(k, e) == Some(on) && off >= 0 && NextProp(off, on) >= 0
    ensures var p := NextProp(off, on);
            p >= off && SkipNops(on).Prop? && RestAt(k, e + p - off) == Some(SkipNops(on))
            && Size(SkipNops(on)) <= Size(on)
    decreases on
  {
    hide HdrSize, PropSize, Size, RestAt;
    if on.Nop? {
      SizeStep(on);
      RestStep(k, e, on);
      SkipAt(k, e + 4, on.next, off + 4);
    }
  }

  lemma {:induction false} FixAhead(d: Dt, off: int, on: Forest, strs: seq<byte>, delta: int)
    requires off >= 0
    ensures var fx := View(on, strs);
            if NextProp(off, on) < 0 then FixProps(d, fx, delta) == Some(d)
            else
              var y := SkipNops(on);
              y.Prop?
              && (PropsGuarded(d, fx, delta) ==>
                    && PropGuarded(d, StrAt(strs, y.nameoff), y.val)
                    && match FixProp(d, StrAt(strs, y.nameoff), y.val, delta)
                       case None => true
                       case Some(e) => PropsGuarded(e, View(y.next, strs), delta))
              && FixProps(d, fx, delta) ==
                 match FixProp(d, StrAt(strs, y.nameoff), y.val, delta)
                 case None => None
                 case Some(e) => FixProps(e, View(y.next, strs), delta)
    decreases on
  {
    hide HdrSize, PropSize, StrAt, FixProp, PropGuarded;
    if on.Nop? {
      FixAhead(d, off + 4, on.next, strs, delta);
    }
  }

  /** First half of overlay_update_local_node_references: the property loop. */
  method FixNode(b: Blob, t: int, x: int, delta: u32, ghost f: Forest) returns (err: int, ghost k: Forest)
    requires Holds(b, f) && Beside(f, t, x)
    requires PropsGuarded(View(RestAt(f, t).value.kids, b.Strings()), View(RestAt(f, x).value.kids, b.Strings()), delta)
    modifies b.buf
    ensures b.Strings() == old(b.Strings()) && Holds(b, PutKids(f, t, k)) && Fixing(f, PutKids(f, t, k), t, k, x)
    ensures match FixProps(View(RestAt(f, t).value.kids, b.Strings()), View(RestAt(f, x).value.kids, b.Strings()),
                           delta)
            case Some(d) => err == 0 && View(k, b.Strings()) == d
            case None => err == BADOVERLAY
  {
    hide HdrSize, PropSize, Size, Put, RestAt, Region, TreeIn, At, StrAt, View, SameShape, Beside, Holds, Fixing,
      NamesOk,
      FixProp, PutKids, Point, SkipNops, NextProp, FixProps, PropsGuarded, PropGuarded, Laid;
    BesideNodes(f, t, x);
    ghost var strs, fx := b.Strings(), RestAt(f, x).value.kids;
    ghost var at := x + HdrSize(RestAt(f, x).value.name);
    k := RestAt(f, t).value.kids;
    ghost var g, e, on := f, 0, fx;
    ghost var goal := FixProps(View(k, strs), View(fx, strs), delta);
    FixingStart(f, t, x);
    SelfPut(f, t);
    RestHere(fx);
    ItemPoint(b, f, x, 0, fx);
    var property := FirstProperty(b, x, f);
    while property >= 0
      invariant b.Strings() == strs && Holds(b, g) && g == PutKids(f, t, k) && Fixing(f, g, t, k, x)
      invariant e >= 0 && RestAt(fx, e) == Some(on) && property == NextProp(at + e, on)
      invariant PropsGuarded(View(k, strs), View(on, strs), delta)
      invariant FixProps(View(k, strs), View(on, strs), delta) == goal
      decreases Size(on)
    {
      ghost var y := SkipNops(on);
      FixupHere(f, g, t, k, x);
      ItemPoint(b, g, x, e, on);
      SkipAt(fx, e, on, at + e);
      FixAhead(View(k, strs), at + e, on, strs, delta);
      ItemPoint(b, g, x, property - at, y);
      var er, name, val := GetPropByOffset(b, property, y);
      BesideKept(f, g, t, k, x);
      ghost var was, g0 := k, g;
      err, k := FixCells(b, t, name, val, delta, x, g);
      FixingTrans(f, g0, t, was, x, PutKids(g0, t, k), k);
      g := PutKids(f, t, k);
      if err != 0 {
        return;
      }
      FixupHere(f, g, t, k, x);
      ItemPoint(b, g, x, property - at, y);
      property := NextProperty(b, property, y);
      RestStep(fx, e + (NextProp(at + e, on) - (at + e)), y);
      SizeStep(y);
      PropAligned(y.val);
      e, on := e + (NextProp(at + e, on) - (at + e)) + PropSize(y.val), y.next;
    }
    FixupHere(f, g, t, k, x);
    ItemPoint(b, g, x, e, on);
    FixAhead(View(k, strs), at + e, on, strs, delta);
    err := 0;
  }

  lemma FixupHere(f: Forest, g: Forest, t: int, k: Forest, x: int)
    requires Fixing(f, g, t, k, x)
    ensures IsNode(f, x) && IsNode(g, x) && RestAt(g, x).value.kids == RestAt(f, x).value.kids
    ensures RestAt(g, x).value.name == RestAt(f, x).value.name
    ensures IsNode(f, t) && IsNode(g, t) && RestAt(g, t).value.kids == k
    ensures RestAt(g, t).value.name == RestAt(f, t).value.name
  {
    hide RestAt, SameShape, Beside;
  }

  // ---- children ---------------------------------------------------------------------------------

  /** The list holds a node of that name. */
  predicate SubNamed(k: Forest, name: seq<byte>) {
    match k
    case Nil => false
    case Nop(n) => SubNamed(n, name)
    case Prop(_, _, n) => SubNamed(n, name)
    case Sub(m, _, n) => m == name || SubNamed(n, name)
  }

  /** The fixup node lies apart from every node it sends the update to: it is
      apart from the node being fixed, or no child it names is around it. */
  ghost predicate Avoids(f: Forest, t: int, x: int) {
    && Beside(f, t, x)
    && (Apart(f, t, x)
        || forall name :: SubNamed(RestAt(f, x).value.kids, name) ==>
             var c := ChildNamed(f, t, name); c < 0 || (IsNode(f, c) && Apart(f, c, x)))
  }

  /** The child a fixup node names is apart from the fixup node and from its own
      fixups. */
  lemma ChildAvoids(f: Forest, t: int, x: int, e: int, name: seq<byte>)
    requires Avoids(f, t, x) && IsNode(RestAt(f, x).value.kids, e)
    requires SubNamed(RestAt(f, x).value.kids, name)
    ensures var c := ChildNamed(f, t, name);
            var y := x + HdrSize(RestAt(f, x).value.name) + e;
            && IsNode(f, y) && RestAt(f, y) == RestAt(RestAt(f, x).value.kids, e)
            && (c >= 0 ==> IsNode(f, c) && Apart(f, c, x) && Avoids(f, c, y))
  {
    hide HdrSize, PropSize, Size, RestAt, SubNamed, ChildNamed;
    var c := ChildNamed(f, t, name);
    Inside(f, x, e);
    if c >= 0 {
      ChildInside(f, t, name);
    }
  }

  /** Overwriting values keeps the fixup node out of the way. */
  lemma AvoidsKept(f: Forest, g: Forest, t: int, k: Forest, x: int)
    requires Avoids(f, t, x) && Fixing(f, g, t, k, x)
    ensures Avoids(g, t, x)
  {
    hide HdrSize, PropSize, Size, RestAt, SubNamed, SameShape, Put;
    BesideKept(f, g, t, k, x);
    ShapeApart(f, g, t, x);
    if !Apart(f, t, x) {
      forall name | SubNamed(RestAt(g, x).value.kids, name)
        ensures var c := ChildNamed(g, t, name); c < 0 || (IsNode(g, c) && Apart(g, c, x))
      {
        ShapeChild(t + HdrSize(RestAt(f, t).value.name), RestAt(f, t).value.kids, k, name);
        var c := ChildNamed(f, t, name);
        if c >= 0 {
          ShapeApart(f, g, c, x);
        }
      }
    }
  }

  /** The first node among the fixups that are left. */
  lemma {:induction false} FixFirst(d: Dt, off: int, on: Forest, strs: seq<byte>, delta: int)
    requires off >= 0
    ensures var fx, r := View(on, strs), FirstSub(off, on);
            if r < 0 then FixSubs(d, fx, delta) == Some(d)
            else
              && r >= off && IsNode(on, r - off)
              && var c := RestAt(on, r - off).value;
              && SubNamed(on, c.name)
              && (SubsGuarded(d, fx, delta) ==>
                    && ChildGuarded(d, c.name, View(c.kids, strs), delta)
                    && match FixChild(d, c.name, View(c.kids, strs), delta)
                       case None => true
                       case Some(e) => SubsGuarded(e, View(c.next, strs), delta))
              && FixSubs(d, fx, delta) ==
                 match FixChild(d, c.name, View(c.kids, strs), delta)
                 case None => None
                 case Some(e) => FixSubs(e, View(c.next, strs), delta)
    decreases on
  {
    hide HdrSize, PropSize, Size, StrAt, FixChild, ChildGuarded;
    match on
    case Nil =>
    case Nop(n) =>
      FirstSubView(DNil, off + 4, n, strs);
      FixFirst(d, off + 4, n, strs, delta);
    case Prop(_, v, n) =>
      PropAligned(v);
      FirstSubView(DNil, off + PropSize(v), n, strs);
      FixFirst(d, off + PropSize(v), n, strs, delta);
    case Sub(_, _, _) =>
  }

  lemma {:induction false} NamedInRest(k: Forest, e: int, on: Forest, name: seq<byte>)
    requires RestAt(k, e) == Some(on) && SubNamed(on, name) && TopLevel(k, e)
    ensures SubNamed(k, name)
    decreases k
  {
    hide HdrSize, PropSize, Size, RestAt;
    StepDown(k, e, k);
    if e != 0 {
      match k
      case Nop(n) => NamedInRest(n, e - 4, on, name);
      case Prop(_, v, n) => NamedInRest(n, e - PropSize(v), on, name);
      case Sub(_, _, n) => NamedInRest(n, e - NodeSize(k), on, name);
    }
  }

  /** e is a boundary between items of the list itself, not inside a node. */
  predicate TopLevel(k: Forest, e: int) {
    e == 0 ||
    match k
    case Nil => false
    case Nop(n) => TopLevel(n, e - 4)
    case Prop(_, v, n) => TopLevel(n, e - PropSize(v))
    case Sub(_, _, n) => e >= NodeSize(k) && TopLevel(n, e - NodeSize(k))
  }

  lemma {:induction false} TopLevelNext(k: Forest, e: int, on: Forest)
    requires TopLevel(k, e) && RestAt(k, e) == Some(on) && !on.Nil?
    ensures TopLevel(k, e + ItemSize(on))
    decreases k
  {
    hide HdrSize, PropSize, Size, RestAt;
    StepDown(k, e, k);
    SizesPositive(k);
    if e == 0 {
      TopZero(on.next);
    } else {
      RestInside(k, e);
      match k
      case Nop(n) => RestInside(n, e - 4); TopLevelNext(n, e - 4, on);
      case Prop(_, v, n) => RestInside(n, e - PropSize(v)); TopLevelNext(n, e - PropSize(v), on);
      case Sub(_, _, n) => TopLevelNext(n, e - NodeSize(k), on);
    }
  }

  lemma SizesPositive(k: Forest)
    ensures k.Sub? ==> NodeSize(k) > 0
    ensures k.Prop? ==> PropSize(k.val) > 0
  {
    if k.Sub? {
      NodePositive(k);
    }
  }

  lemma TopZero(k: Forest)
    ensures TopLevel(k, 0)
  {
  }

  /** The next fixup child is reached over items of the list. */
  lemma {:induction false} TopLevelFirst(k: Forest, e: int, on: Forest, off: int)
    requires TopLevel(k, e) && RestAt(k, e) == Some(on) && off >= 0 && FirstSub(off, on) >= 0
    ensures TopLevel(k, e + FirstSub(off, on) - off)
    decreases on
  {
    hide HdrSize, PropSize, Size, RestAt, TopLevel;
    match on
    case Nil =>
    case Nop(n) =>
      TopLevelNext(k, e, on);
      RestStep(k, e, on);
      TopLevelFirst(k, e + 4, n, off + 4);
    case Prop(_, v, n) =>
      TopLevelNext(k, e, on);
      RestStep(k, e, on);
      PropAligned(v);
      TopLevelFirst(k, e + PropSize(v), n, off + PropSize(v));
    case Sub(_, _, _) =>
  }

  /** A child overwritten is the node overwritten. */
  lemma ChildFixing(f: Forest, t: int, x: int, e: int, c: Forest, at: int, ck: Forest)
    requires Beside(f, t, x) && IsNode(f, at) && Apart(f, at, x)
    requires RestAt(RestAt(f, t).value.kids, e) == Some(c) && c.Sub? && SameShape(c.kids, ck)
    requires RestAt(f, at) == Some(c) && at == t + HdrSize(RestAt(f, t).value.name) + e
    ensures var k := Put(RestAt(f, t).value.kids, e, Sub(c.name, ck, c.next));
            PutKids(f, at, ck) == PutKids(f, t, k) && Fixing(f, PutKids(f, t, k), t, k, x)
  {
    hide HdrSize, PropSize, Size, RestAt, Put, SameShape;
    var n := RestAt(f, t).value;
    var y := Sub(c.name, ck, c.next);
    var k := Put(n.kids, e, y);
    PutNested(f, t, e, y);
    PutKidsTwice(f, t, k, k);
    ShapeNode(c, ck);
    ShapePut(n.kids, e, y);
    ShapeKids(f, t, k);
    ShapeSize(c.kids, ck);
    KidsKept(f, at, ck, x);
  }

  lemma ShapeNode(c: Forest, ck: Forest)
    requires c.Sub? && SameShape(c.kids, ck)
    ensures SameShape(c, Sub(c.name, ck, c.next))
  {
    ShapeSelf(c.next);
  }

  /** One fixup child: the child of that name is updated by it. */
  method FixSubnode(b: Blob, t: int, x: int, subnode: int, delta: u32, ghost f: Forest, ghost c: Forest)
    returns (err: int, ghost k: Forest)
    requires Holds(b, f) && Avoids(f, t, x)
    requires RestAt(RestAt(f, x).value.kids, subnode - x - HdrSize(RestAt(f, x).value.name)) == Some(c) && c.Sub?
    requires SubNamed(RestAt(f, x).value.kids, c.name)
    requires ChildGuarded(View(RestAt(f, t).value.kids, b.Strings()), c.name, View(c.kids, b.Strings()), delta)
    modifies b.buf
    decreases Size(c.kids), 1
    ensures b.Strings() == old(b.Strings()) && Holds(b, PutKids(f, t, k)) && Fixing(f, PutKids(f, t, k), t, k, x)
    ensures match FixChild(View(RestAt(f, t).value.kids, b.Strings()), c.name, View(c.kids, b.Strings()), delta)
            case Some(d) => err == 0 && View(k, b.Strings()) == d
            case None => err == BADOVERLAY
  {
    hide HdrSize, PropSize, Size, Put, RestAt, Region, TreeIn, At, StrAt, View, SameShape, Beside, Holds, Fixing,
      NamesOk,
      PutKids, Fix, Guarded, Avoids, ChildOff, VChild, VPutChild, Apart, NodeCheck, SubNamed;
    AvoidsNodes(f, t, x);
    ghost var strs, e := b.Strings(), subnode - x - HdrSize(RestAt(f, x).value.name);
    ChildAvoids(f, t, x, e, c.name);
    ghost var n := RestAt(f, t).value;
    ghost var off := t + HdrSize(n.name);
    k := n.kids;
    FixingStart(f, t, x);
    SelfPut(f, t);
    NodeNameHere(b, f, subnode);
    LaidTree(b, f);
    NodeNamesOk(b, f, t);
    NamesHeld(b, f);
    RestInside(f, t);
    RestInside(f, subnode);
    var e0, name := GetName(b, subnode);
    ChildFound(off, n.kids, strs, name);
    var treeChild := SubnodeOffset(b, t, name, f);
    if treeChild == NOTFOUND {
      return BADOVERLAY, k;
    }
    if treeChild < 0 {
      return treeChild, k;
    }
    ghost var e1, c1 := ChildReached(f, t, name, strs);
    ghost var ck;
    err, ck := UpdateNodeReferences(b, treeChild, subnode, delta, f);
    ChildFixing(f, t, x, e1, c1, treeChild, ck);
    k := Put(n.kids, e1, Sub(c1.name, ck, c1.next));
    if err == 0 {
      ChildPut(off, n.kids, strs, name, ck);
    }
  }

  lemma AvoidsNodes(f: Forest, t: int, x: int)
    requires Avoids(f, t, x)
    ensures Beside(f, t, x) && IsNode(f, t) && IsNode(f, x)
  {
    BesideNodes(f, t, x);
  }

  /** overlay_update_local_node_references: every cell the fixups list is shifted,
      in the node and below, and nothing else; it fails exactly when the fixups do
      not fit the tree. */
  method UpdateNodeReferences(b: Blob, t: int, x: int, delta: u32, ghost f: Forest) returns (err: int, ghost k: Forest)
    requires Holds(b, f) && Avoids(f, t, x)
    requires Guarded(View(RestAt(f, t).value.kids, b.Strings()), View(RestAt(f, x).value.kids, b.Strings()), delta)
    modifies b.buf
    decreases Size(RestAt(f, x).value.kids), 0
    ensures b.Strings() == old(b.Strings()) && Holds(b, PutKids(f, t, k)) && Fixing(f, PutKids(f, t, k), t, k, x)
    ensures SameShape(RestAt(f, t).value.kids, k)
    ensures match Fix(View(RestAt(f, t).value.kids, b.Strings()), View(RestAt(f, x).value.kids, b.Strings()), delta)
            case Some(d) => err == 0 && View(k, b.Strings()) == d
            case None => err == BADOVERLAY
  {
    hide HdrSize, PropSize, Size, Put, RestAt, Region, TreeIn, At, StrAt, View, SameShape, Beside, Holds, Fixing,
      NamesOk,
      PutKids, FixProps, FixSubs, FixChild, PropsGuarded, SubsGuarded, ChildGuarded, Avoids, Apart, SubNamed,
      TopLevel, FirstSub, Laid, Point;
    AvoidsNodes(f, t, x);
    ghost var strs, fx := b.Strings(), RestAt(f, x).value.kids;
    ghost var at := x + HdrSize(RestAt(f, x).value.name);
    err, k := FixNode(b, t, x, delta, f);
    KidsOf(f, PutKids(f, t, k), t, k, x);
    if err != 0 {
      return;
    }
    ghost var g, e, on := PutKids(f, t, k), 0, fx;
    ghost var goal := FixSubs(View(k, strs), View(fx, strs), delta);
    AvoidsKept(f, g, t, k, x);
    FixupHere(f, g, t, k, x);
    RestHere(fx);
    TopZero(fx);
    ItemPoint(b, g, x, 0, fx);
    var child := FirstSubnode(b, x, g);
    while child >= 0
      invariant b.Strings() == strs && Holds(b, g) && g == PutKids(f, t, k) && Fixing(f, g, t, k, x)
      invariant Avoids(g, t, x) && SameShape(RestAt(f, t).value.kids, k)
      invariant e >= 0 && RestAt(fx, e) == Some(on) && TopLevel(fx, e) && child == FirstSub(at + e, on)
      invariant IsNode(g, x) && RestAt(g, x).value.kids == fx && RestAt(g, x).value.name == RestAt(f, x).value.name
      invariant SubsGuarded(View(k, strs), View(on, strs), delta)
      invariant FixSubs(View(k, strs), View(on, strs), delta) == goal
      decreases Size(on)
    {
      ghost var was, g0 := k, g;
      ghost var e1, c := NextFixup(fx, e, on, at, View(k, strs), strs, delta);
      KidsOf(f, g, t, k, x);
      err, k := FixSubnode(b, t, x, child, delta, g, c);
      FixingTrans(f, g0, t, was, x, PutKids(g0, t, k), k);
      g := PutKids(f, t, k);
      KidsOf(f, g, t, k, x);
      if err != 0 {
        return;
      }
      AvoidsKept(f, g, t, k, x);
      FixupHere(f, g, t, k, x);
      Inside(g, x, e1);
      ItemPoint(b, g, x, e1, c);
      e, on := e1 + NodeSize(c), c.next;
      child := NextSubnode(b, child, g);
    }
    FixFirst(View(k, strs), at + e, on, strs, delta);
    err := 0;
  }

  /** The fixup child the loop stands at. */
  lemma NextFixup(fx: Forest, e: int, on: Forest, at: int, d: Dt, strs: seq<byte>, delta: int)
    returns (e1: int, c: Forest)
    requires e >= 0 && at > 0 && RestAt(fx, e) == Some(on) && TopLevel(fx, e) && FirstSub(at + e, on) >= 0
    ensures FirstSub(at + e, on) == at + e1 && e1 >= e && RestAt(fx, e1) == Some(c) && c.Sub? && SubNamed(fx, c.name)
    ensures RestAt(fx, e1 + NodeSize(c)) == Some(c.next) && TopLevel(fx, e1 + NodeSize(c)) && NodeSize(c) > 0
    ensures Size(c.kids) < Size(fx) && Size(c.next) < Size(on)
    ensures SubsGuarded(d, View(on, strs), delta) ==>
              && ChildGuarded(d, c.name, View(c.kids, strs), delta)
              && match FixChild(d, c.name, View(c.kids, strs), delta)
                 case None => true
                 case Some(u) => SubsGuarded(u, View(c.next, strs), delta)
    ensures FixSubs(d, View(on, strs), delta) ==
            match FixChild(d, c.name, View(c.kids, strs), delta)
            case None => None
            case Some(u) => FixSubs(u, View(c.next, strs), delta)
  {
    hide HdrSize, PropSize, Size, RestAt, View, SubNamed, TopLevel, FirstSub, FixSubs, FixChild, SubsGuarded,
      ChildGuarded;
    FixFirst(d, at + e, on, strs, delta);
    e1 := FirstSub(at + e, on) - at;
    c := RestAt(on, e1 - e).value;
    RestInList(fx, e, on, e1 - e);
    TopLevelFirst(fx, e, on, at + e);
    TopLevelNext(fx, e1, c);
    NamedInRest(fx, e, on, c.name);
    RestStep(fx, e1, c);
    RestInside(fx, e1);
    RestInside(on, e1 - e);
    SizeStep(c);
    HdrSome(c.name);
  }
}
