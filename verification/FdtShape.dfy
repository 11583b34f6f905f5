/** Edits that overwrite values in place: what of the tree they cannot change. */
module FdtShape {
  import opened Bytes
  import opened FdtFormat
  import opened FdtTree
  import opened Fdt
  import opened FdtRo
  import opened FdtEdits
  import opened FdtPath

  /** The same items with values of the same lengths. */
  predicate SameShape(f: Forest, g: Forest) {
    match f
    case Nil => g.Nil?
    case Nop(n) => g.Nop? && SameShape(n, g.next)
    case Prop(no, v, n) => g.Prop? && g.nameoff == no && |g.val| == |v| && SameShape(n, g.next)
    case Sub(name, kids, n) => g.Sub? && g.name == name && SameShape(kids, g.kids) && SameShape(n, g.next)
  }

  lemma {:induction false} ShapeSize(f: Forest, g: Forest)
    requires SameShape(f, g)
    ensures Size(g) == Size(f)
    decreases f
  {
    hide HdrSize, PropSize, Size;
    SizeStep(f);
    SizeStep(g);
    match f
    case Nil =>
    case Nop(n) => ShapeSize(n, g.next);
    case Prop(_, v, n) => SameLength(v, g.val); ShapeSize(n, g.next);
    case Sub(_, kids, n) => ShapeSize(kids, g.kids); ShapeSize(n, g.next);
  }

  lemma {:induction false} ShapeSelf(f: Forest)
    ensures SameShape(f, f)
    decreases f
  {
    match f
    case Nil =>
    case Nop(n) => ShapeSelf(n);
    case Prop(_, _, n) => ShapeSelf(n);
    case Sub(_, kids, n) => ShapeSelf(kids); ShapeSelf(n);
  }

  lemma {:induction false} ShapeTrans(f: Forest, g: Forest, h: Forest)
    requires SameShape(f, g) && SameShape(g, h)
    ensures SameShape(f, h)
    decreases f
  {
    match f
    case Nil =>
    case Nop(n) => ShapeTrans(n, g.next, h.next);
    case Prop(_, _, n) => ShapeTrans(n, g.next, h.next);
    case Sub(_, kids, n) => ShapeTrans(kids, g.kids, h.kids); ShapeTrans(n, g.next, h.next);
  }

  lemma {:induction false} ShapeRest(f: Forest, g: Forest, d: int)
    requires SameShape(f, g) && RestAt(f, d).Some?
    ensures RestAt(g, d).Some? && SameShape(RestAt(f, d).value, RestAt(g, d).value)
    decreases f
  {
    hide HdrSize, PropSize, Size, RestAt;
    StepDown(f, d, f);
    RestHere(g);
    if d != 0 {
      RestOfItem(g, d);
      match f
      case Nop(n) => ShapeRest(n, g.next, d - 4);
      case Prop(_, v, n) => SameLength(v, g.val); ShapeRest(n, g.next, d - PropSize(v));
      case Sub(name, kids, n) =>
        ShapeSize(kids, g.kids);
        if d < NodeSize(f) {
          ShapeRest(kids, g.kids, d - HdrSize(name));
        } else {
          ShapeRest(n, g.next, d - NodeSize(f));
        }
    }
  }

  lemma {:induction false} ShapeChild(off: int, f: Forest, g: Forest, name: seq<byte>)
    requires SameShape(f, g)
    ensures ChildOff(off, g, name) == ChildOff(off, f, name)
    decreases f
  {
    hide HdrSize, PropSize, Size, NameEq;
    match f
    case Nil =>
    case Nop(n) => ShapeChild(off + 4, n, g.next, name);
    case Prop(_, v, n) => SameLength(v, g.val); ShapeChild(off + PropSize(v), n, g.next, name);
    case Sub(_, kids, n) =>
      ShapeSize(kids, g.kids);
      ShapeChild(off + NodeSize(f), n, g.next, name);
  }

  lemma {:induction false} ShapePut(f: Forest, d: int, y: Forest)
    requires RestAt(f, d).Some? && SameShape(RestAt(f, d).value, y)
    ensures SameShape(f, Put(f, d, y))
    decreases f
  {
    hide HdrSize, PropSize, Size, RestAt, Put;
    StepDown(f, d, y);
    if d != 0 {
      match f
      case Nop(n) => ShapePut(n, d - 4, y);
      case Prop(_, v, n) => ShapePut(n, d - PropSize(v), y);
      case Sub(name, kids, n) =>
        ShapeSelf(kids);
        ShapeSelf(n);
        if d < NodeSize(f) {
          ShapePut(kids, d - HdrSize(name), y);
        } else {
          ShapePut(n, d - NodeSize(f), y);
        }
    }
  }

  lemma {:induction false} ShapeSet(k: Forest, strs: seq<byte>, name: seq<byte>, w: seq<byte>)
    requires NamesOk(k, strs)
    requires VGet(View(k, strs), name).Some? && |VGet(View(k, strs), name).value| == |w|
    ensures SameShape(k, FSetVal(k, strs, name, w))
    decreases k
  {
    hide NameOk, StrAt;
    match k
    case Nop(n) => ShapeSet(n, strs, name, w);
    case Prop(no, v, n) =>
      NamesHead(k, strs);
      ShapeSelf(n);
      if StrAt(strs, no) != name {
        ShapeSet(n, strs, name, w);
      }
    case _ =>
  }

  lemma ShapeKids(f: Forest, d: int, k: Forest)
    requires IsNode(f, d) && SameShape(RestAt(f, d).value.kids, k)
    ensures SameShape(f, PutKids(f, d, k))
  {
    hide RestAt, Put;
    var x := RestAt(f, d).value;
    ShapeSelf(x.next);
    ShapePut(f, d, Sub(x.name, k, x.next));
  }

  // ---- nodes apart from the edited one ------------------------------------------------------

  /** The nodes at t and x have no byte in common. */
  predicate Apart(f: Forest, t: int, x: int)
    requires IsNode(f, t) && IsNode(f, x)
  {
    t + NodeSize(RestAt(f, t).value) <= x || x + NodeSize(RestAt(f, x).value) <= t
  }

  /** Editing the items of one node, without moving anything, leaves a node apart
      from it as it is. */
  lemma {:induction false} KidsKept(f: Forest, t: int, k: Forest, x: int)
    requires IsNode(f, t) && IsNode(f, x) && Apart(f, t, x) && Size(k) == Size(RestAt(f, t).value.kids)
    ensures var g := PutKids(f, t, k);
            && IsNode(g, x) && RestAt(g, x).value.kids == RestAt(f, x).value.kids
            && RestAt(g, x).value.name == RestAt(f, x).value.name
    decreases f
  {
    hide HdrSize, PropSize, Size, RestAt, Put;
    var n, m := RestAt(f, t).value, RestAt(f, x).value;
    var y := Sub(n.name, k, n.next);
    NodePositive(n);
    NodePositive(m);
    StepDown(f, t, y);
    StepDown(f, x, y);
    RestInside(f, t);
    RestInside(f, x);
    SizeStep(n);
    SizeStep(y);
    SizeStep(m);
    if t == 0 {
      RestOfItem(y, x);
      RestOfItem(f, x);
    } else if x == 0 {
      HeadKept(f, t, y);
    } else {
      RestOfItem(Put(f, t, y), x);
      match f
      case Nop(r) => KidsKept(r, t - 4, k, x - 4);
      case Prop(_, v, r) => KidsKept(r, t - PropSize(v), k, x - PropSize(v));
      case Sub(name, kids, r) => KidsKeptIn(f, t, k, x);
    }
  }

  /** The head of a list, when something behind it is edited. */
  lemma HeadKept(f: Forest, t: int, y: Forest)
    requires f.Sub? && RestAt(f, t).Some? && t >= NodeSize(f) > 0
    ensures var g := Put(f, t, y); RestAt(g, 0) == Some(g) && g.Sub? && g.kids == f.kids && g.name == f.name
  {
    hide HdrSize, PropSize, Size, RestAt, Put;
    StepDown(f, t, y);
    RestHere(Put(f, t, y));
  }

  lemma {:induction false} KidsKeptIn(f: Forest, t: int, k: Forest, x: int)
    requires f.Sub? && t != 0 && x != 0
    requires IsNode(f, t) && IsNode(f, x) && Apart(f, t, x) && Size(k) == Size(RestAt(f, t).value.kids)
    ensures var g := PutKids(f, t, k);
            && IsNode(g, x) && RestAt(g, x).value.kids == RestAt(f, x).value.kids
            && RestAt(g, x).value.name == RestAt(f, x).value.name
    decreases f, 0
  {
    hide HdrSize, PropSize, Size, RestAt, Put;
    var n := RestAt(f, t).value;
    var y := Sub(n.name, k, n.next);
    var h := HdrSize(f.name);
    StepDown(f, t, y);
    StepDown(f, x, y);
    RestOfItem(Put(f, t, y), x);
    if t < NodeSize(f) {
      PutSize(f.kids, t - h, y);
      SizeStep(n);
      SizeStep(y);
      if x < NodeSize(f) {
        KidsKept(f.kids, t - h, k, x - h);
      }
    } else if x >= NodeSize(f) {
      KidsKept(f.next, t - NodeSize(f), k, x - NodeSize(f));
    }
  }

  /** A node found in the tail of a list whose leading properties change. */
  lemma {:induction false} SetKept(k: Forest, strs: seq<byte>, name: seq<byte>, w: seq<byte>, e: int)
    requires NamesOk(k, strs) && IsNode(k, e)
    requires VGet(View(k, strs), name).Some? && |VGet(View(k, strs), name).value| == |w|
    ensures RestAt(FSetVal(k, strs, name, w), e) == RestAt(k, e)
    decreases k
  {
    hide HdrSize, PropSize, Size, RestAt, NameOk, StrAt;
    StepDown(k, e, k);
    match k
    case Nop(n) =>
      RestOfItem(FSetVal(k, strs, name, w), e);
      SetKept(n, strs, name, w, e - 4);
    case Prop(no, v, n) =>
      NamesHead(k, strs);
      RestOfItem(FSetVal(k, strs, name, w), e);
      if StrAt(strs, no) == name {
        SameLength(v, w);
      } else {
        SetKept(n, strs, name, w, e - PropSize(v));
      }
    case _ =>
  }

  lemma {:induction false} ShapeProp(off: int, f: Forest, g: Forest, strs: seq<byte>, name: seq<byte>)
    requires SameShape(f, g)
    ensures PropOff(off, g, strs, name) == PropOff(off, f, strs, name)
    decreases f
  {
    hide HdrSize, PropSize, Size, NameOk, StrAt;
    match f
    case Nop(n) => ShapeProp(off + 4, n, g.next, strs, name);
    case Prop(_, v, n) => SameLength(v, g.val); ShapeProp(off + PropSize(v), n, g.next, strs, name);
    case _ =>
  }

  lemma ShapeApart(f: Forest, g: Forest, t: int, x: int)
    requires SameShape(f, g) && IsNode(f, t) && IsNode(f, x)
    ensures IsNode(g, t) && IsNode(g, x) && (Apart(g, t, x) <==> Apart(f, t, x))
    ensures RestAt(g, t).value.name == RestAt(f, t).value.name
    ensures SameShape(RestAt(f, t).value.kids, RestAt(g, t).value.kids)
  {
    hide HdrSize, PropSize, Size, RestAt;
    ShapeRest(f, g, t);
    ShapeRest(f, g, x);
    ShapeSize(RestAt(f, t).value.kids, RestAt(g, t).value.kids);
    ShapeSize(RestAt(f, x).value.kids, RestAt(g, x).value.kids);
  }

  /** A node of a node's items has its bytes among those of the node. */
  lemma Inside(f: Forest, t: int, e: int)
    requires IsNode(f, t) && IsNode(RestAt(f, t).value.kids, e)
    ensures var n := RestAt(f, t).value;
            var c := t + HdrSize(n.name) + e;
            && IsNode(f, c) && RestAt(f, c) == RestAt(n.kids, e)
            && t < c && c + NodeSize(RestAt(f, c).value) <= t + NodeSize(n)
  {
    hide HdrSize, PropSize, Size, RestAt, Put;
    var n := RestAt(f, t).value;
    PutNested(f, t, e, Nil);
    RestInside(n.kids, e);
    SizeStep(RestAt(n.kids, e).value);
    HdrSome(n.name);
  }
}
