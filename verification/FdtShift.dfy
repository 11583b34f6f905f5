/** fdt_overlay.c: adding an offset to every phandle of an overlay, in place. */
module FdtShift {
  import opened Bytes
  import opened FdtFormat
  import opened FdtTree
  import opened FdtBlob
  import opened Fdt
  import opened FdtRo
  import opened FdtEdits
  import opened FdtWip
  import opened FdtMerge
  import opened FdtOverlay
  import opened FdtPhandle

  const NOPHANDLES := -17

  // ---- one phandle ------------------------------------------------------------------

  /** The value can be shifted: one word, and the sum is neither too large nor the
      reserved all-ones. */
  predicate CanShift(v: Option<seq<byte>>, delta: int) {
    v.Some? ==> |v.value| == 4 && Word(v.value, 0) + delta < U32_LIMIT - 1
  }

  function Shifted(v: seq<byte>, delta: int): seq<byte>
    requires |v| == 4
  {
    Be32((Word(v, 0) + delta) % U32_LIMIT)
  }

  /** A word property of a node with delta added. */
  function VShift(d: Dt, name: seq<byte>, delta: int): Dt {
    match VGet(d, name)
    case Some(v) => if |v| == 4 then VOverwrite(d, name, Shifted(v, delta)) else d
    case None => d
  }

  function FShift(k: Forest, strs: seq<byte>, name: seq<byte>, delta: int): Forest {
    match VGet(View(k, strs), name)
    case Some(v) => if |v| == 4 then FSetVal(k, strs, name, Shifted(v, delta)) else k
    case None => k
  }

  /** overlay_phandle_add_offset */
  method PhandleAddOffset(b: Blob, node: int, name: seq<byte>, delta: u32, ghost f: Forest)
    returns (err: int, ghost k: Forest)
    requires Holds(b, f) && IsNode(f, node)
    modifies b.buf
    ensures b.Strings() == old(b.Strings())
    ensures Holds(b, PutKids(f, node, k))
    ensures var k0 := RestAt(f, node).value.kids;
            var v := VGet(View(k0, b.Strings()), name);
            && (err == NOTFOUND <==> v.None?)
            && (err == 0 || err == NOTFOUND <==> CanShift(v, delta))
            && (err == 0 || err == NOTFOUND ==> k == FShift(k0, b.Strings(), name, delta))
            && Size(k) == Size(k0)
  {
    hide HdrSize, PropSize, Size, Put, RestAt, Region, TreeIn, At, PropOff, StrAt, Word, View, VGet, FSetVal,
      VOverwrite, Be32;
    ghost var x := RestAt(f, node).value;
    k := x.kids;
    SelfPut(f, node);
    NamesOfKids(f, node, b.Strings());
    NodeRoom(b.StructBlock(), f, node);
    KidsMeaning(f, node, b.Strings());
    PropFound(node + HdrSize(x.name), x.kids, b.Strings(), name, []);
    var off, len := GetProperty(b, node, name, f);
    if off < 0 {
      return len, k;
    }
    ghost var y := RestAt(x.kids, off - node - HdrSize(x.name)).value;
    PropAt(b.StructBlock(), f, node, off - node - HdrSize(x.name));
    PropTaken(b.StructBlock(), off, y);
    if len != 4 {
      return BADPHANDLE, k;
    }
    ValueWord(b.StructBlock(), off, y);
    var adj := Word(b.StructBlock(), off + 12);
    if (adj + delta) % U32_LIMIT < adj {
      return NOPHANDLES, k;
    }
    adj := (adj + delta) % U32_LIMIT;
    if adj == U32_LIMIT - 1 {
      return NOPHANDLES, k;
    }
    WholeValue(y.val, Be32(adj));
    err, k := SetPropInplacePartial(b, node, name, 0, Be32(adj), f);
    SameSizes(f, node, k);
  }

  lemma WholeValue(was: seq<byte>, v: seq<byte>)
    requires |v| == |was|
    ensures Overwritten(was, 0, v) == v
  {
  }

  lemma SameSizes(f: Forest, node: int, k: Forest)
    requires IsNode(f, node)
    ensures Size(PutKids(f, node, k)) == Size(f) ==> Size(k) == Size(RestAt(f, node).value.kids)
  {
    hide HdrSize, PropSize, Size, Put, RestAt;
    var x := RestAt(f, node).value;
    PutSize(f, node, Sub(x.name, k, x.next));
    SizeStep(x);
    SizeStep(Sub(x.name, k, x.next));
  }

  // ---- all phandles ------------------------------------------------------------------------

  /** Both phandle properties of a node shifted. */
  function VShiftBoth(d: Dt, delta: int): Dt {
    VShift(VShift(d, PHANDLE, delta), LINUX_PHANDLE, delta)
  }

  /** A node's items with every phandle in them, at any level, shifted. */
  function VAdjust(d: Dt, delta: int): Dt
    decreases d, 1
  {
    VShiftBoth(VAdjustKids(d, delta), delta)
  }

  function VAdjustKids(d: Dt, delta: int): Dt
    decreases d, 0
  {
    match d
    case DNil => DNil
    case DProp(name, v, n) => DProp(name, v, VAdjustKids(n, delta))
    case DNode(name, k, n) => DNode(name, VAdjust(k, delta), VAdjustKids(n, delta))
  }

  predicate CanShiftBoth(d: Dt, delta: int) {
    CanShift(VGet(d, PHANDLE), delta) && CanShift(VGet(d, LINUX_PHANDLE), delta)
  }

  /** Every phandle at any level can be shifted. */
  predicate Adjustable(d: Dt, delta: int)
    decreases d, 1
  {
    CanShiftBoth(d, delta) && KidsAdjustable(d, delta)
  }

  predicate KidsAdjustable(d: Dt, delta: int)
    decreases d, 0
  {
    match d
    case DNil => true
    case DProp(_, _, n) => KidsAdjustable(n, delta)
    case DNode(_, k, n) => Adjustable(k, delta) && KidsAdjustable(n, delta)
  }

  function FShiftBoth(k: Forest, strs: seq<byte>, delta: int): Forest {
    FShift(FShift(k, strs, PHANDLE, delta), strs, LINUX_PHANDLE, delta)
  }

  function FAdjust(k: Forest, strs: seq<byte>, delta: int): Forest
    decreases k, 1
  {
    FShiftBoth(FAdjustKids(k, strs, delta), strs, delta)
  }

  function FAdjustKids(k: Forest, strs: seq<byte>, delta: int): Forest
    decreases k, 0
  {
    match k
    case Nil => Nil
    case Nop(n) => Nop(FAdjustKids(n, strs, delta))
    case Prop(no, v, n) => Prop(no, v, FAdjustKids(n, strs, delta))
    case Sub(name, kids, n) => Sub(name, FAdjust(kids, strs, delta), FAdjustKids(n, strs, delta))
  }

  // ---- the bytes and the tree agree -------------------------------------------------------------

  lemma {:induction false} SetValView(k: Forest, strs: seq<byte>, name: seq<byte>, w: seq<byte>)
    requires NamesOk(k, strs)
    ensures View(FSetVal(k, strs, name, w), strs) == VOverwrite(View(k, strs), name, w)
    ensures NamesOk(FSetVal(k, strs, name, w), strs)
    ensures VGet(View(k, strs), name).Some? && |VGet(View(k, strs), name).value| == |w| ==>
              Size(FSetVal(k, strs, name, w)) == Size(k)
    decreases k
  {
    hide HdrSize, PropSize, Size, NameOk, StrAt;
    SizeStep(k);
    SizeStep(FSetVal(k, strs, name, w));
    match k
    case Nop(n) => SetValView(n, strs, name, w);
    case Prop(no, v, n) =>
      NamesHead(k, strs);
      if StrAt(strs, no) == name {
        if |v| == |w| {
          SameLength(v, w);
        }
      } else {
        SetValView(n, strs, name, w);
      }
    case _ =>
  }

  lemma ShiftView(k: Forest, strs: seq<byte>, name: seq<byte>, delta: int)
    requires NamesOk(k, strs)
    ensures View(FShift(k, strs, name, delta), strs) == VShift(View(k, strs), name, delta)
    ensures NamesOk(FShift(k, strs, name, delta), strs) && Size(FShift(k, strs, name, delta)) == Size(k)
  {
    hide Size, View, VGet, FSetVal, VOverwrite, NamesOk, Be32, Word;
    var v := VGet(View(k, strs), name);
    if v.Some? && |v.value| == 4 {
      SetValView(k, strs, name, Shifted(v.value, delta));
    }
  }

  lemma ShiftBothView(k: Forest, strs: seq<byte>, delta: int)
    requires NamesOk(k, strs)
    ensures View(FShiftBoth(k, strs, delta), strs) == VShiftBoth(View(k, strs), delta)
    ensures NamesOk(FShiftBoth(k, strs, delta), strs) && Size(FShiftBoth(k, strs, delta)) == Size(k)
  {
    hide Size, View, FShift, VShift, NamesOk;
    ShiftView(k, strs, PHANDLE, delta);
    ShiftView(FShift(k, strs, PHANDLE, delta), strs, LINUX_PHANDLE, delta);
  }

  lemma {:induction false} AdjustView(k: Forest, strs: seq<byte>, delta: int)
    requires NamesOk(k, strs)
    ensures View(FAdjust(k, strs, delta), strs) == VAdjust(View(k, strs), delta)
    ensures NamesOk(FAdjust(k, strs, delta), strs) && Size(FAdjust(k, strs, delta)) == Size(k)
    decreases k, 1
  {
    hide Size, View, FShiftBoth, VShiftBoth, NamesOk, FAdjustKids, VAdjustKids;
    AdjustKidsView(k, strs, delta);
    ShiftBothView(FAdjustKids(k, strs, delta), strs, delta);
  }

  lemma {:induction false} AdjustKidsView(k: Forest, strs: seq<byte>, delta: int)
    requires NamesOk(k, strs)
    ensures View(FAdjustKids(k, strs, delta), strs) == VAdjustKids(View(k, strs), delta)
    ensures NamesOk(FAdjustKids(k, strs, delta), strs) && Size(FAdjustKids(k, strs, delta)) == Size(k)
    decreases k, 0
  {
    hide HdrSize, PropSize, Size, NameOk, StrAt, FAdjust, VAdjust;
    SizeStep(k);
    SizeStep(FAdjustKids(k, strs, delta));
    match k
    case Nil =>
    case Nop(n) => AdjustKidsView(n, strs, delta);
    case Prop(_, _, n) => AdjustKidsView(n, strs, delta);
    case Sub(_, kids, n) => AdjustView(kids, strs, delta); AdjustKidsView(n, strs, delta);
  }

  /** Properties of the node itself and its children do not mix. */
  lemma {:induction false} SetValKids(k: Forest, strs: seq<byte>, name: seq<byte>, w: seq<byte>, delta: int)
    ensures FAdjustKids(FSetVal(k, strs, name, w), strs, delta) == FSetVal(FAdjustKids(k, strs, delta), strs, name, w)
    decreases k
  {
    hide NameOk, StrAt, FAdjust;
    match k
    case Nop(n) => SetValKids(n, strs, name, w, delta);
    case Prop(no, v, n) => SetValKids(n, strs, name, w, delta);
    case _ =>
  }

  lemma {:induction false} GetKids(d: Dt, name: seq<byte>, delta: int)
    ensures VGet(VAdjustKids(d, delta), name) == VGet(d, name)
    decreases d
  {
    hide VAdjust;
    if d.DProp? {
      GetKids(d.next, name, delta);
    }
  }

  lemma ShiftKids(k: Forest, strs: seq<byte>, name: seq<byte>, delta: int)
    requires NamesOk(k, strs)
    ensures FAdjustKids(FShift(k, strs, name, delta), strs, delta) ==
            FShift(FAdjustKids(k, strs, delta), strs, name, delta)
  {
    hide View, VGet, FSetVal, FAdjustKids, VAdjustKids, NamesOk, Be32, Word;
    AdjustKidsView(k, strs, delta);
    GetKids(View(k, strs), name, delta);
    var v := VGet(View(k, strs), name);
    if v.Some? && |v.value| == 4 {
      SetValKids(k, strs, name, Shifted(v.value, delta), delta);
    }
  }

  /** Doing the properties first and the children then is the same. */
  lemma AdjustOrder(k: Forest, strs: seq<byte>, delta: int)
    requires NamesOk(k, strs)
    ensures FAdjust(k, strs, delta) == FAdjustKids(FShiftBoth(k, strs, delta), strs, delta)
  {
    hide FShift, FAdjustKids, NamesOk;
    ShiftKids(k, strs, PHANDLE, delta);
    ShiftView(k, strs, PHANDLE, delta);
    ShiftKids(FShift(k, strs, PHANDLE, delta), strs, LINUX_PHANDLE, delta);
  }

  // ---- in place -----------------------------------------------------------------------------------

  /** Putting inside a rest of a list is putting in the list. */
  lemma {:induction false} PutInList(f: Forest, d: int, k: Forest, e: int, g: Forest)
    requires RestAt(f, d) == Some(k) && RestAt(k, e).Some?
    ensures Put(f, d, Put(k, e, g)) == Put(f, d + e, g) && RestAt(f, d + e) == RestAt(k, e)
    decreases f
  {
    hide HdrSize, PropSize, Size, RestAt, Put;
    RestInList(f, d, k, e);
    StepDown(f, d, Put(k, e, g));
    RestInside(f, d);
    RestInside(k, e);
    if e == 0 {
      StepDown(k, 0, g);
      PutSame(f, d);
      PutPut(f, d, k, g);
    } else if d != 0 {
      PutInItem(f, d + e, g);
      match f
      case Nop(n) => PutInList(n, d - 4, k, e, g);
      case Prop(_, v, n) => PutInList(n, d - PropSize(v), k, e, g);
      case Sub(name, kids, n) =>
        if d < NodeSize(f) {
          RestInside(kids, d - HdrSize(name));
          PutInList(kids, d - HdrSize(name), k, e, g);
        } else {
          PutInList(n, d - NodeSize(f), k, e, g);
        }
    }
  }

  /** The first node of what is left to do. */
  lemma {:induction false} AdjustFirst(off: int, on: Forest, strs: seq<byte>, delta: int)
    requires off >= 0
    ensures var r := FirstSub(off, on);
            && (r < 0 ==> FAdjustKids(on, strs, delta) == on && KidsAdjustable(View(on, strs), delta))
            && (r >= 0 ==>
                  && IsNode(on, r - off)
                  && var c := RestAt(on, r - off).value;
                  && FAdjustKids(on, strs, delta) == Put(on, r - off, FAdjustKids(c, strs, delta))
                  && (KidsAdjustable(View(on, strs), delta) <==>
                      Adjustable(View(c.kids, strs), delta) && KidsAdjustable(View(c.next, strs), delta)))
    decreases on
  {
    hide HdrSize, PropSize, Size, StrAt, FAdjust, Adjustable;
    match on
    case Nil =>
    case Nop(n) =>
      FirstSubView(DNil, off + 4, n, strs);
      AdjustFirst(off + 4, n, strs, delta);
    case Prop(_, v, n) =>
      PropAligned(v);
      FirstSubView(DNil, off + PropSize(v), n, strs);
      AdjustFirst(off + PropSize(v), n, strs, delta);
    case Sub(_, _, _) =>
  }

  /** One child done: the same goal, seen from behind it. */
  lemma ChildAdjusted(k: Forest, e: int, on: Forest, e1: int, c: Forest, ck: Forest, strs: seq<byte>, delta: int)
    returns (k1: Forest)
    requires RestAt(k, e) == Some(on) && RestAt(on, e1 - e) == Some(c) && c.Sub?
    requires FAdjustKids(on, strs, delta) == Put(on, e1 - e, FAdjustKids(c, strs, delta))
    requires ck == FAdjust(c.kids, strs, delta) && Size(ck) == Size(c.kids)
    ensures k1 == Put(k, e1, Sub(c.name, ck, c.next)) && Size(k1) == Size(k) && RestAt(k, e1) == Some(c)
    ensures RestAt(k1, e1 + NodeSize(c)) == Some(c.next)
    ensures Put(k1, e1 + NodeSize(c), FAdjustKids(c.next, strs, delta)) == Put(k, e, FAdjustKids(on, strs, delta))
  {
    hide HdrSize, PropSize, Size, RestAt, Put, FAdjust;
    var y := Sub(c.name, ck, c.next);
    var x := FAdjustKids(c.next, strs, delta);
    k1 := Put(k, e1, y);
    PutInList(k, e, on, e1 - e, FAdjustKids(c, strs, delta));
    PutGet(k, e1, y);
    PutSize(k, e1, y);
    SizeStep(c);
    SizeStep(y);
    FirstItem(y);
    PutInList(k1, e1, y, NodeSize(y), x);
    NodePast(y, x);
    PutPut(k, e1, y, Sub(c.name, ck, x));
  }

  lemma NodePast(y: Forest, x: Forest)
    requires y.Sub?
    ensures Put(y, NodeSize(y), x) == Sub(y.name, y.kids, x)
  {
    hide HdrSize, PropSize, Size;
    HdrSome(y.name);
    PutInItem(y, NodeSize(y), x);
    PutZero(y.next, x);
  }

  lemma PutZero(f: Forest, x: Forest)
    ensures Put(f, 0, x) == x
  {
  }

  /** Both phandle properties of one node. */
  method ShiftNode(b: Blob, node: int, delta: u32, ghost f: Forest) returns (err: int, ghost k: Forest)
    requires Holds(b, f) && IsNode(f, node)
    modifies b.buf
    ensures b.Strings() == old(b.Strings()) && Holds(b, PutKids(f, node, k))
    ensures var k0 := RestAt(f, node).value.kids;
            && (err == 0 <==> CanShiftBoth(View(k0, b.Strings()), delta))
            && (err == 0 ==> k == FShiftBoth(k0, b.Strings(), delta))
            && Size(k) == Size(k0)
  {
    hide HdrSize, PropSize, Size, Put, RestAt, View, VGet, FShift, PutKids, Holds, CanShift;
    ghost var k0, strs := RestAt(f, node).value.kids, b.Strings();
    NamesHeld(b, f);
    NamesOfKids(f, node, strs);
    OtherPhandle(k0, strs, delta);
    err, k := PhandleAddOffset(b, node, PHANDLE, delta, f);
    if err != 0 && err != NOTFOUND {
      return;
    }
    ghost var g, k1 := PutKids(f, node, k), k;
    PutKidsAgain(f, node, k1, k1);
    err, k := PhandleAddOffset(b, node, LINUX_PHANDLE, delta, g);
    PutKidsAgain(f, node, k1, k);
    if err == NOTFOUND {
      err := 0;
    }
  }

  /** Shifting one property leaves the other. */
  lemma OtherPhandle(k: Forest, strs: seq<byte>, delta: int)
    requires NamesOk(k, strs)
    ensures VGet(View(FShift(k, strs, PHANDLE, delta), strs), LINUX_PHANDLE) == VGet(View(k, strs), LINUX_PHANDLE)
  {
    hide View, NamesOk, FShift;
    ShiftView(k, strs, PHANDLE, delta);
    OtherKept(View(k, strs), PHANDLE, LINUX_PHANDLE, delta);
  }

  lemma OtherKept(d: Dt, p: seq<byte>, q: seq<byte>, delta: int)
    requires p != q
    ensures VGet(VShift(d, p, delta), q) == VGet(d, q)
  {
    if VGet(d, p).Some? && |VGet(d, p).value| == 4 {
      OverwriteOther(d, p, Shifted(VGet(d, p).value, delta), q);
    }
  }

  lemma {:induction false} OverwriteOther(d: Dt, p: seq<byte>, v: seq<byte>, q: seq<byte>)
    requires p != q
    ensures VGet(VOverwrite(d, p, v), q) == VGet(d, q)
    decreases d
  {
    if d.DProp? {
      OverwriteOther(d.next, p, v, q);
    }
  }

  /** overlay_adjust_node_phandles: succeeds exactly when every phandle below and
      at the node can be shifted, and then all are, and nothing else changed. */
  method AdjustNodePhandles(b: Blob, node: int, delta: u32, ghost f: Forest) returns (err: int, ghost k: Forest)
    requires Holds(b, f) && IsNode(f, node)
    modifies b.buf
    decreases Size(RestAt(f, node).value.kids)
    ensures b.Strings() == old(b.Strings()) && Holds(b, PutKids(f, node, k))
    ensures var k0 := RestAt(f, node).value.kids;
            && (err == 0 <==> Adjustable(View(k0, b.Strings()), delta))
            && (err == 0 ==> k == FAdjust(k0, b.Strings(), delta)
                                 && View(k, b.Strings()) == VAdjust(View(k0, b.Strings()), delta))
            && Size(k) == Size(k0)
  {
    hide HdrSize, PropSize, Size, Put, RestAt, Region, TreeIn, At, View, Point, NamesOk, FirstSub, Laid, PutKids,
      FAdjustKids, FAdjust, VAdjust, FShiftBoth, CanShiftBoth, KidsAdjustable, Holds;
    ghost var k0, strs := RestAt(f, node).value.kids, b.Strings();
    ghost var name := RestAt(f, node).value.name;
    ghost var at := node + HdrSize(name);
    NodeStart(b, f, node);
    AdjustOrder(k0, strs, delta);
    AdjustView(k0, strs, delta);
    ShiftBothKids(k0, strs, delta);
    err, k := ShiftNode(b, node, delta, f);
    if err != 0 {
      return;
    }
    ghost var g, goal := PutKids(f, node, k), FAdjustKids(k, strs, delta);
    ghost var e, on := 0, k;
    PutKidsAgain(f, node, k, k);
    RestHere(k);
    StepDown(k, 0, goal);
    LaidTree(b, g);
    var child := FirstSubnode(b, node, g);
    while child >= 0
      invariant b.Strings() == strs && Holds(b, g) && g == PutKids(f, node, k)
      invariant IsNode(g, node) && RestAt(g, node).value.kids == k && RestAt(g, node).value.name == name
      invariant Size(k) == Size(k0) && e >= 0 && RestAt(k, e) == Some(on) && child == FirstSub(at + e, on)
      invariant Put(k, e, FAdjustKids(on, strs, delta)) == goal
      invariant Adjustable(View(k0, strs), delta) <==> KidsAdjustable(View(on, strs), delta)
      decreases Size(on)
    {
      ghost var was := k;
      ghost var e1, c := KidHere(g, node, e, on, strs, delta);
      var er;
      ghost var ck;
      er, ck := AdjustNodePhandles(b, child, delta, g);
      k := Put(was, e1, Sub(c.name, ck, c.next));
      ChildPutSize(was, e1, c, ck);
      ChildAfter(g, child, c, ck);
      PutKidsAgain(f, node, was, k);
      g := PutKids(f, node, k);
      if er != 0 {
        return er, k;
      }
      k := ChildAdjusted(was, e, on, e1, c, ck, strs, delta);
      e, on := e1 + NodeSize(c), c.next;
      LaidTree(b, g);
      child := NextSubnode(b, child, g);
    }
    AdjustFirst(at + e, on, strs, delta);
    PutSame(k, e);
  }

  lemma NodeStart(b: Blob, f: Forest, node: int)
    requires Holds(b, f) && IsNode(f, node)
    ensures node >= 0 && NamesOk(RestAt(f, node).value.kids, b.Strings())
  {
    hide Point;
    OverlayStart(b, f, node);
  }

  /** After a node's own phandles were shifted, the rest depends on its children. */
  lemma ShiftBothKids(k: Forest, strs: seq<byte>, delta: int)
    requires NamesOk(k, strs)
    ensures KidsAdjustable(View(FShiftBoth(k, strs, delta), strs), delta) <==> KidsAdjustable(View(k, strs), delta)
    ensures NamesOk(FShiftBoth(k, strs, delta), strs) && Size(FShiftBoth(k, strs, delta)) == Size(k)
  {
    hide View, NamesOk, FShiftBoth, Size, VShift;
    ShiftBothView(k, strs, delta);
    ShiftKidsSame(View(k, strs), PHANDLE, delta);
    ShiftKidsSame(VShift(View(k, strs), PHANDLE, delta), LINUX_PHANDLE, delta);
  }

  lemma ShiftKidsSame(d: Dt, name: seq<byte>, delta: int)
    ensures KidsAdjustable(VShift(d, name, delta), delta) <==> KidsAdjustable(d, delta)
  {
    if VGet(d, name).Some? && |VGet(d, name).value| == 4 {
      OverwriteKidsSame(d, name, Shifted(VGet(d, name).value, delta), delta);
    }
  }

  lemma {:induction false} OverwriteKidsSame(d: Dt, name: seq<byte>, v: seq<byte>, delta: int)
    ensures KidsAdjustable(VOverwrite(d, name, v), delta) <==> KidsAdjustable(d, delta)
    decreases d
  {
    hide Adjustable;
    if d.DProp? {
      OverwriteKidsSame(d.next, name, v, delta);
    }
  }

  /** The child the loop stands at, in the node's items and in the tree. */
  lemma KidHere(g: Forest, node: int, e: int, on: Forest, strs: seq<byte>, delta: int) returns (e1: int, c: Forest)
    requires IsNode(g, node) && node >= 0 && e >= 0
    requires var x := RestAt(g, node).value;
             RestAt(x.kids, e) == Some(on) && FirstSub(node + HdrSize(x.name) + e, on) >= 0
    ensures var x := RestAt(g, node).value;
            var r := FirstSub(node + HdrSize(x.name) + e, on);
            && r == node + HdrSize(x.name) + e1 && e1 >= e && r > 0 && c.Sub?
            && RestAt(on, e1 - e) == Some(c) && RestAt(x.kids, e1) == Some(c) && RestAt(g, r) == Some(c)
            && FAdjustKids(on, strs, delta) == Put(on, e1 - e, FAdjustKids(c, strs, delta))
            && (KidsAdjustable(View(on, strs), delta) <==>
                Adjustable(View(c.kids, strs), delta) && KidsAdjustable(View(c.next, strs), delta))
            && Size(c.kids) < Size(x.kids) && Size(c.next) < Size(on)
            && (forall ck :: PutKids(g, r, ck) == PutKids(g, node, Put(x.kids, e1, Sub(c.name, ck, c.next))))
  {
    hide HdrSize, PropSize, Size, Put, RestAt, View, FAdjustKids, FirstSub, KidsAdjustable, Adjustable;
    var x := RestAt(g, node).value;
    var at := node + HdrSize(x.name);
    AdjustFirst(at + e, on, strs, delta);
    FirstSubView(DNil, at + e, on, strs);
    HdrSome(x.name);
    e1 := FirstSub(at + e, on) - at;
    c := RestAt(on, e1 - e).value;
    RestInList(x.kids, e, on, e1 - e);
    RestInside(x.kids, e1);
    RestInside(on, e1 - e);
    SizeStep(c);
    HdrSome(c.name);
    PutNested(g, node, e1, Nil);
    forall ck ensures PutKids(g, at + e1, ck) == PutKids(g, node, Put(x.kids, e1, Sub(c.name, ck, c.next))) {
      PutNested(g, node, e1, Sub(c.name, ck, c.next));
    }
  }

  lemma ChildAfter(g: Forest, r: int, c: Forest, ck: Forest)
    requires RestAt(g, r) == Some(c) && c.Sub? && Size(ck) == Size(c.kids)
    ensures var h := PutKids(g, r, ck);
            && IsNode(h, r) && NodeSize(RestAt(h, r).value) == NodeSize(c) && RestAt(h, r).value.next == c.next
  {
    hide HdrSize, PropSize, Size, Put, RestAt;
    PutGet(g, r, Sub(c.name, ck, c.next));
  }

  lemma ChildPutSize(k: Forest, e: int, c: Forest, ck: Forest)
    requires RestAt(k, e) == Some(c) && c.Sub? && Size(ck) == Size(c.kids)
    ensures Size(Put(k, e, Sub(c.name, ck, c.next))) == Size(k)
  {
    hide HdrSize, PropSize, Size, Put, RestAt;
    PutSize(k, e, Sub(c.name, ck, c.next));
    SizeStep(c);
    SizeStep(Sub(c.name, ck, c.next));
  }
}
