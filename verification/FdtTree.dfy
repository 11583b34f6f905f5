/** The abstract device tree, what a blob means, and how an edit at an offset
    of the structure block appears in the tree. */
module FdtTree {
  import opened Bytes
  import opened FdtFormat

  datatype Option<T> = None | Some(value: T)

  /** Sibling items in order: properties by name and value, nodes by name and
      contents. No offsets, no padding, no NOPs. */
  datatype Dt =
    | DNil
    | DProp(name: seq<byte>, val: seq<byte>, next: Dt)
    | DNode(name: seq<byte>, kids: Dt, next: Dt)

  /** Every property name is a terminated string of the strings block. */
  predicate NamesOk(f: Forest, strs: seq<byte>) {
    match f
    case Nil => true
    case Nop(n) => NamesOk(n, strs)
    case Prop(no, _, n) => NameOk(no, strs) && NamesOk(n, strs)
    case Sub(_, kids, n) => NamesOk(kids, strs) && NamesOk(n, strs)
  }

  predicate NameOk(no: int, strs: seq<byte>) {
    0 <= no < |strs| && NulFrom(strs, no) < |strs|
  }

  function View(f: Forest, strs: seq<byte>): Dt {
    match f
    case Nil => DNil
    case Nop(n) => View(n, strs)
    case Prop(no, val, n) => DProp(StrAt(strs, no), val, View(n, strs))
    case Sub(name, kids, n) => DNode(name, View(kids, strs), View(n, strs))
  }

  lemma NameExtends(no: int, strs: seq<byte>, more: seq<byte>)
    requires NameOk(no, strs)
    ensures NameOk(no, strs + more) && StrAt(strs + more, no) == StrAt(strs, no)
  {
    var all := strs + more;
    var e := NulFrom(strs, no);
    assert all[..|strs|] == strs;
    NulFromAt(all, no, e);
    assert all[no..e] == strs[no..e];
  }

  /** Strings are only ever added behind the existing ones, so no name moves. */
  lemma {:induction false} ViewExtends(f: Forest, strs: seq<byte>, more: seq<byte>)
    requires NamesOk(f, strs)
    ensures NamesOk(f, strs + more) && View(f, strs + more) == View(f, strs)
    decreases f
  {
    match f
    case Nil =>
    case Nop(n) => ViewExtends(n, strs, more);
    case Prop(no, _, n) => NameExtends(no, strs, more); ViewExtends(n, strs, more);
    case Sub(_, kids, n) => ViewExtends(kids, strs, more); ViewExtends(n, strs, more);
  }

  // ---- the item at an offset ------------------------------------------------

  /** The rest of a sibling list from the item boundary d bytes into f. */
  function RestAt(f: Forest, d: int): (r: Option<Forest>)
    decreases f
  {
    match f
    case Nil => if d == 0 then Some(f) else None
    case Nop(n) => if d == 0 then Some(f) else RestAt(n, d - 4)
    case Prop(_, val, n) => if d == 0 then Some(f) else RestAt(n, d - PropSize(val))
    case Sub(name, kids, n) =>
      if d == 0 then Some(f)
      else
        var e := HdrSize(name) + Size(kids) + 4;
        if d < e then RestAt(kids, d - HdrSize(name)) else RestAt(n, d - e)
  }

  /** f with that rest replaced by g. */
  function Put(f: Forest, d: int, g: Forest): Forest
    decreases f
  {
    match f
    case Nil => if d == 0 then g else Nil
    case Nop(n) => if d == 0 then g else Nop(Put(n, d - 4, g))
    case Prop(no, val, n) => if d == 0 then g else Prop(no, val, Put(n, d - PropSize(val), g))
    case Sub(name, kids, n) =>
      if d == 0 then g
      else
        var e := HdrSize(name) + Size(kids) + 4;
        if d < e then Sub(name, Put(kids, d - HdrSize(name), g), n)
        else Sub(name, kids, Put(n, d - e, g))
  }

  /** One step of the way to the item at d. */
  lemma StepDown(f: Forest, d: int, g: Forest)
    requires RestAt(f, d).Some?
    ensures d == 0 ==> RestAt(f, d) == Some(f) && Put(f, d, g) == g
    ensures d != 0 ==> !f.Nil?
    ensures d != 0 && f.Nop? ==>
      RestAt(f.next, d - 4) == RestAt(f, d) && Put(f, d, g) == Nop(Put(f.next, d - 4, g))
    ensures d != 0 && f.Prop? ==>
      var e := d - PropSize(f.val);
      RestAt(f.next, e) == RestAt(f, d) && Put(f, d, g) == Prop(f.nameoff, f.val, Put(f.next, e, g))
    ensures d != 0 && f.Sub? ==>
      var e := HdrSize(f.name) + Size(f.kids) + 4;
      if d < e then
        RestAt(f.kids, d - HdrSize(f.name)) == RestAt(f, d)
        && Put(f, d, g) == Sub(f.name, Put(f.kids, d - HdrSize(f.name), g), f.next)
      else RestAt(f.next, d - e) == RestAt(f, d) && Put(f, d, g) == Sub(f.name, f.kids, Put(f.next, d - e, g))
  {
    hide HdrSize, PropSize, Size;
  }

  predicate IsNode(f: Forest, d: int) {
    RestAt(f, d).Some? && RestAt(f, d).value.Sub?
  }

  lemma {:induction false} RestInside(f: Forest, d: int)
    requires RestAt(f, d).Some?
    ensures 0 <= d && d + Size(RestAt(f, d).value) <= Size(f)
    decreases f
  {
    hide HdrSize, PropSize, Size, RestAt, Put;
    StepDown(f, d, f);
    SizeStep(f);
    if d != 0 {
      match f
      case Nop(n) => RestInside(n, d - 4);
      case Prop(_, val, n) => RestInside(n, d - PropSize(val));
      case Sub(name, kids, n) =>
        var e := HdrSize(name) + Size(kids) + 4;
        if d < e {
          RestInside(kids, d - HdrSize(name));
        } else {
          RestInside(n, d - e);
        }
    }
  }

  lemma {:induction false} RestWord(f: Forest, d: int) returns (w: int)
    requires RestAt(f, d).Some?
    ensures d == 4 * w
    decreases f
  {
    hide HdrWords, PropWords, Words, RestAt;
    StepDown(f, d, f);
    w := 0;
    if d != 0 {
      match f
      case Nop(n) => w := RestWord(n, d - 4); w := w + 1;
      case Prop(_, val, n) => w := RestWord(n, d - PropSize(val)); w := w + PropWords(val);
      case Sub(name, kids, n) =>
        var e := HdrSize(name) + Size(kids) + 4;
        if d < e {
          w := RestWord(kids, d - HdrSize(name));
          w := w + HdrWords(name);
        } else {
          w := RestWord(n, d - e);
          w := w + HdrWords(name) + Words(kids) + 1;
        }
    }
  }

  lemma RestAtBounds(f: Forest, d: int)
    requires RestAt(f, d).Some?
    ensures 0 <= d && d % 4 == 0 && d + Size(RestAt(f, d).value) <= Size(f)
  {
    hide Size, RestAt;
    RestInside(f, d);
    var w := RestWord(f, d);
  }

  lemma {:induction false} PutSize(f: Forest, d: int, g: Forest)
    requires RestAt(f, d).Some?
    ensures Size(Put(f, d, g)) == Size(f) - Size(RestAt(f, d).value) + Size(g)
    decreases f
  {
    hide HdrSize, PropSize, Size, RestAt, Put;
    StepDown(f, d, g);
    SizeStep(f);
    if d != 0 {
      match f
      case Nop(n) =>
        PutSize(n, d - 4, g);
        SizeStep(Nop(Put(n, d - 4, g)));
      case Prop(no, val, n) =>
        PutSize(n, d - PropSize(val), g);
        SizeStep(Prop(no, val, Put(n, d - PropSize(val), g)));
      case Sub(name, kids, n) =>
        var e := HdrSize(name) + Size(kids) + 4;
        if d < e {
          PutSize(kids, d - HdrSize(name), g);
          SizeStep(Sub(name, Put(kids, d - HdrSize(name), g), n));
        } else {
          PutSize(n, d - e, g);
          SizeStep(Sub(name, kids, Put(n, d - e, g)));
        }
    }
  }

  /** The node keeps its offset when it is edited. */
  lemma {:induction false} PutGet(f: Forest, d: int, g: Forest)
    requires RestAt(f, d).Some?
    ensures RestAt(Put(f, d, g), d) == Some(g)
    decreases f
  {
    hide HdrSize, PropSize, Size, Put, RestAt;
    StepDown(f, d, g);
    RestInside(f, d);
    if d == 0 {
      RestHere(g);
    } else {
      match f
      case Nop(n) =>
        PutGet(n, d - 4, g);
        RestOfItem(Nop(Put(n, d - 4, g)), d);
      case Prop(no, val, n) =>
        PutGet(n, d - PropSize(val), g);
        RestOfItem(Prop(no, val, Put(n, d - PropSize(val), g)), d);
      case Sub(name, kids, n) =>
        var e := HdrSize(name) + Size(kids) + 4;
        if d < e {
          PutGet(kids, d - HdrSize(name), g);
          PutSize(kids, d - HdrSize(name), g);
          RestInside(kids, d - HdrSize(name));
          RestOfItem(Sub(name, Put(kids, d - HdrSize(name), g), n), d);
        } else {
          PutGet(n, d - e, g);
          RestOfItem(Sub(name, kids, Put(n, d - e, g)), d);
        }
    }
  }

  lemma RestHere(f: Forest)
    ensures RestAt(f, 0) == Some(f)
  {
  }

  /** Looking behind the head of a list, whether or not something is there. */
  lemma RestOfItem(f: Forest, d: int)
    requires d != 0
    ensures f.Nop? ==> RestAt(f, d) == RestAt(f.next, d - 4)
    ensures f.Prop? ==> RestAt(f, d) == RestAt(f.next, d - PropSize(f.val))
    ensures f.Sub? ==>
      var e := HdrSize(f.name) + Size(f.kids) + 4;
      RestAt(f, d) == if d < e then RestAt(f.kids, d - HdrSize(f.name)) else RestAt(f.next, d - e)
  {
    hide HdrSize, PropSize, Size;
  }

  /** ... and putting there. */
  lemma PutInItem(f: Forest, d: int, g: Forest)
    requires d != 0
    ensures f.Nop? ==> Put(f, d, g) == Nop(Put(f.next, d - 4, g))
    ensures f.Prop? ==> Put(f, d, g) == Prop(f.nameoff, f.val, Put(f.next, d - PropSize(f.val), g))
    ensures f.Sub? ==>
      var e := HdrSize(f.name) + Size(f.kids) + 4;
      Put(f, d, g) == if d < e then Sub(f.name, Put(f.kids, d - HdrSize(f.name), g), f.next)
                      else Sub(f.name, f.kids, Put(f.next, d - e, g))
  {
    hide HdrSize, PropSize, Size;
  }

  lemma {:induction false} PutPut(f: Forest, d: int, g: Forest, h: Forest)
    requires RestAt(f, d).Some?
    ensures Put(Put(f, d, g), d, h) == Put(f, d, h)
    decreases f
  {
    hide HdrSize, PropSize, Size, Put, RestAt;
    StepDown(f, d, g);
    StepDown(f, d, h);
    RestInside(f, d);
    if d == 0 {
      RestHere(g);
      StepDown(g, 0, h);
    } else {
      PutInItem(Put(f, d, g), d, h);
      match f
      case Nop(n) => PutPut(n, d - 4, g, h);
      case Prop(_, val, n) => PutPut(n, d - PropSize(val), g, h);
      case Sub(name, kids, n) =>
        var e := HdrSize(name) + Size(kids) + 4;
        if d < e {
          PutPut(kids, d - HdrSize(name), g, h);
          PutSize(kids, d - HdrSize(name), g);
          RestInside(kids, d - HdrSize(name));
        } else {
          PutPut(n, d - e, g, h);
        }
    }
  }

  /** Editing a descendant is editing the node. */
  lemma {:induction false} PutNested(f: Forest, d: int, e: int, g: Forest)
    requires IsNode(f, d)
    requires RestAt(RestAt(f, d).value.kids, e).Some?
    ensures var x := RestAt(f, d).value;
            && RestAt(f, d + HdrSize(x.name) + e) == RestAt(x.kids, e)
            && Put(f, d + HdrSize(x.name) + e, g) == Put(f, d, Sub(x.name, Put(x.kids, e, g), x.next))
    decreases f
  {
    hide HdrSize, PropSize, Size, Put, RestAt;
    var x := RestAt(f, d).value;
    var y := Sub(x.name, Put(x.kids, e, g), x.next);
    var at := d + HdrSize(x.name) + e;
    StepDown(f, d, y);
    RestInside(f, d);
    RestInside(x.kids, e);
    SizeStep(x);
    HdrSome(x.name);
    RestOfItem(f, at);
    PutInItem(f, at, g);
    if d != 0 {
      match f
      case Nop(n) => PutNested(n, d - 4, e, g);
      case Prop(_, val, n) => PutNested(n, d - PropSize(val), e, g);
      case Sub(name, kids, n) =>
        var z := HdrSize(name) + Size(kids) + 4;
        if d < z {
          RestInside(kids, d - HdrSize(name));
          PutNested(kids, d - HdrSize(name), e, g);
        } else {
          PutNested(n, d - z, e, g);
        }
    }
  }

  lemma HdrSome(name: seq<byte>)
    ensures HdrSize(name) > 0
  {
  }

  /** An item found by offset really is encoded there. */
  lemma {:induction false} RestAtIsAt(s: seq<byte>, a: int, f: Forest, d: int)
    requires At(s, a, f) && RestAt(f, d).Some?
    ensures At(s, a + d, RestAt(f, d).value)
    decreases f
  {
    hide HdrSize, PropSize, Size, At, RestAt;
    StepDown(f, d, f);
    AtNext(s, a, f);
    if d != 0 {
      match f
      case Nop(n) => RestAtIsAt(s, a + 4, n, d - 4);
      case Prop(_, val, n) => RestAtIsAt(s, a + PropSize(val), n, d - PropSize(val));
      case Sub(name, kids, n) =>
        var e := HdrSize(name) + Size(kids) + 4;
        if d < e {
          RestAtIsAt(s, a + HdrSize(name), kids, d - HdrSize(name));
        } else {
          RestAtIsAt(s, a + e, n, d - e);
        }
    }
  }

  // ---- edits in the tree ------------------------------------------------------

  /** A place in a Dt: across to the next sibling item, or down into a node. */
  datatype Dir = Across | Down

  function VAt(d: Dt, p: seq<Dir>): Option<Dt>
    decreases |p|
  {
    if p == [] then Some(d)
    else match d
      case DNil => None
      case DProp(_, _, n) => if p[0] == Across then VAt(n, p[1..]) else None
      case DNode(_, k, n) => VAt(if p[0] == Across then n else k, p[1..])
  }

  function VPut(d: Dt, p: seq<Dir>, g: Dt): Dt
    decreases |p|
  {
    if p == [] then g
    else match d
      case DNil => DNil
      case DProp(name, val, n) => DProp(name, val, if p[0] == Across then VPut(n, p[1..], g) else n)
      case DNode(name, k, n) =>
        if p[0] == Across then DNode(name, k, VPut(n, p[1..], g)) else DNode(name, VPut(k, p[1..], g), n)
  }

  /** Where the item d bytes into f sits in View(f). */
  function PathOf(f: Forest, d: int): seq<Dir>
    decreases f
  {
    match f
    case Nil => []
    case Nop(n) => if d == 0 then [] else PathOf(n, d - 4)
    case Prop(_, val, n) => if d == 0 then [] else [Across] + PathOf(n, d - PropSize(val))
    case Sub(name, kids, n) =>
      if d == 0 then []
      else
        var e := HdrSize(name) + Size(kids) + 4;
        if d < e then [Down] + PathOf(kids, d - HdrSize(name)) else [Across] + PathOf(n, d - e)
  }

  lemma PathStep(f: Forest, d: int)
    ensures d == 0 ==> PathOf(f, d) == []
    ensures d != 0 && f.Nop? ==> PathOf(f, d) == PathOf(f.next, d - 4)
    ensures d != 0 && f.Prop? ==> PathOf(f, d) == [Across] + PathOf(f.next, d - PropSize(f.val))
    ensures d != 0 && f.Sub? ==>
      var e := HdrSize(f.name) + Size(f.kids) + 4;
      PathOf(f, d) == if d < e then [Down] + PathOf(f.kids, d - HdrSize(f.name)) else [Across] + PathOf(f.next, d - e)
  {
    hide HdrSize, PropSize, Size;
  }

  lemma GoAcross(d: Dt, p: seq<Dir>, g: Dt)
    requires d.DProp? || d.DNode?
    ensures VAt(d, [Across] + p) == VAt(d.next, p)
    ensures VPut(d, [Across] + p, g) == d.(next := VPut(d.next, p, g))
  {
    assert ([Across] + p)[1..] == p;
  }

  lemma GoDown(d: Dt, p: seq<Dir>, g: Dt)
    requires d.DNode?
    ensures VAt(d, [Down] + p) == VAt(d.kids, p)
    ensures VPut(d, [Down] + p, g) == d.(kids := VPut(d.kids, p, g))
  {
    assert ([Down] + p)[1..] == p;
  }

  /** The structure-block edit is the tree edit: nothing but the item list at
      that place changes. */
  lemma {:induction false} ViewPut(f: Forest, d: int, g: Forest, strs: seq<byte>)
    requires RestAt(f, d).Some?
    ensures VAt(View(f, strs), PathOf(f, d)) == Some(View(RestAt(f, d).value, strs))
    ensures View(Put(f, d, g), strs) == VPut(View(f, strs), PathOf(f, d), View(g, strs))
    decreases f
  {
    hide HdrSize, PropSize, Size, RestAt, Put, PathOf, VAt, VPut, StrAt;
    StepDown(f, d, g);
    PathStep(f, d);
    SizeStep(f);
    if d == 0 {
      EmptyPath(View(f, strs), View(g, strs));
    } else {
      match f
      case Nop(n) => ViewPut(n, d - 4, g, strs);
      case Prop(_, val, n) =>
        ViewPut(n, d - PropSize(val), g, strs);
        GoAcross(View(f, strs), PathOf(n, d - PropSize(val)), View(g, strs));
      case Sub(name, kids, n) =>
        var e := HdrSize(name) + Size(kids) + 4;
        if d < e {
          ViewPut(kids, d - HdrSize(name), g, strs);
          GoDown(View(f, strs), PathOf(kids, d - HdrSize(name)), View(g, strs));
        } else {
          ViewPut(n, d - e, g, strs);
          GoAcross(View(f, strs), PathOf(n, d - e), View(g, strs));
        }
    }
  }

  lemma EmptyPath(d: Dt, g: Dt)
    ensures VAt(d, []) == Some(d) && VPut(d, [], g) == g
  {
  }

  lemma {:induction false} NamesPut(f: Forest, d: int, g: Forest, strs: seq<byte>)
    requires RestAt(f, d).Some? && NamesOk(f, strs)
    ensures NamesOk(RestAt(f, d).value, strs)
    ensures NamesOk(g, strs) ==> NamesOk(Put(f, d, g), strs)
    decreases f
  {
    hide HdrSize, PropSize, Size, RestAt, Put, NameOk;
    StepDown(f, d, g);
    SizeStep(f);
    if d != 0 {
      match f
      case Nop(n) => NamesPut(n, d - 4, g, strs);
      case Prop(_, val, n) => NamesPut(n, d - PropSize(val), g, strs);
      case Sub(name, kids, n) =>
        var e := HdrSize(name) + Size(kids) + 4;
        if d < e {
          NamesPut(kids, d - HdrSize(name), g, strs);
        } else {
          NamesPut(n, d - e, g, strs);
        }
    }
  }

  // ---- edits in the bytes -----------------------------------------------------

  /** Bytes before the edited place stay, bytes behind it move as one block. */
  predicate Spliced(s: seq<byte>, t: seq<byte>, at: int, was: int, now: int) {
    && Same(s, 0, t, 0, at)
    && |t| == |s| - was + now
    && Same(s, at + was, t, at + now, |s| - at - was)
  }

  /** Replacing a rest of a sibling list by another one, and moving what is
      behind, gives an encoding of the edited forest. */
  lemma {:induction false} SplicePut(s: seq<byte>, t: seq<byte>, a: int, f: Forest, d: int, g: Forest)
    requires At(s, a, f) && RestAt(f, d).Some?
    requires Spliced(s, t, a + d, Size(RestAt(f, d).value), Size(g))
    requires At(t, a + d, g)
    ensures At(t, a, Put(f, d, g))
    decreases f
  {
    hide HdrSize, PropSize, Size, RestAt, Put, At, Spliced;
    StepDown(f, d, g);
    AtNext(s, a, f);
    if d != 0 {
      match f
      case Nop(n) =>
        SplicePut(s, t, a + 4, n, d - 4, g);
        RestInside(n, d - 4);
        SpliceInNop(s, t, a, n, a + d, Size(RestAt(f, d).value), Size(g), Put(n, d - 4, g));
      case Prop(no, val, n) =>
        SplicePut(s, t, a + PropSize(val), n, d - PropSize(val), g);
        RestInside(n, d - PropSize(val));
        SpliceInProp(s, t, a, no, val, n, a + d, Size(RestAt(f, d).value), Size(g), Put(n, d - PropSize(val), g));
      case Sub(name, kids, n) =>
        var e := HdrSize(name) + Size(kids) + 4;
        if d < e {
          SplicePut(s, t, a + HdrSize(name), kids, d - HdrSize(name), g);
          SpliceInKids(s, t, a, f, d, g);
        } else {
          SplicePut(s, t, a + e, n, d - e, g);
          SpliceInNext(s, t, a, f, d, g);
        }
    }
  }

  lemma SpliceInNop(s: seq<byte>, t: seq<byte>, a: int, n: Forest, at: int, was: int, now: int, m: Forest)
    requires At(s, a, Nop(n)) && Spliced(s, t, at, was, now) && a + 4 <= at && At(t, a + 4, m)
    ensures At(t, a, Nop(m))
  {
    hide IsTag, Spliced;
    AtFits(s, a, Nop(n));
    PrefixTag(s, t, at, was, now, a, NOP);
  }

  lemma SpliceInProp(s: seq<byte>, t: seq<byte>, a: int, no: int, val: seq<byte>, n: Forest,
                     at: int, was: int, now: int, m: Forest)
    requires At(s, a, Prop(no, val, n)) && Spliced(s, t, at, was, now)
    requires a + PropSize(val) <= at && At(t, a + PropSize(val), m)
    ensures At(t, a, Prop(no, val, m))
  {
    hide PropSize, Size, PropHdr, Spliced;
    AtFits(s, a, Prop(no, val, n));
    PrefixProp(s, t, at, was, now, a, no, val);
  }

  lemma SpliceInKids(s: seq<byte>, t: seq<byte>, a: int, f: Forest, d: int, g: Forest)
    requires At(s, a, f) && f.Sub? && d != 0 && RestAt(f, d).Some?
    requires d < HdrSize(f.name) + Size(f.kids) + 4
    requires Spliced(s, t, a + d, Size(RestAt(f, d).value), Size(g))
    requires At(t, a + HdrSize(f.name), Put(f.kids, d - HdrSize(f.name), g))
    ensures At(t, a, Put(f, d, g))
  {
    hide HdrSize, PropSize, Words, Word, NodeHdr, PropHdr, IsTag, Spliced, Same, At;
    var h := HdrSize(f.name);
    var was := Size(RestAt(f, d).value);
    var e := a + h + Size(f.kids);
    SubAt(s, a, f.name, f.kids, f.next);
    RestAtBounds(f.kids, d - h);
    PutSize(f.kids, d - h, g);
    PrefixHdr(s, t, a + d, was, Size(g), a, f.name);
    SuffixTag(s, t, a + d, was, Size(g), e, END_NODE);
    SuffixForest(s, t, a + d, was, Size(g), e + 4, f.next);
    AtSub(t, a, f.name, Put(f.kids, d - h, g), f.next);
  }

  lemma SpliceInNext(s: seq<byte>, t: seq<byte>, a: int, f: Forest, d: int, g: Forest)
    requires At(s, a, f) && f.Sub? && d != 0 && RestAt(f, d).Some?
    requires d >= HdrSize(f.name) + Size(f.kids) + 4
    requires Spliced(s, t, a + d, Size(RestAt(f, d).value), Size(g))
    requires At(t, a + HdrSize(f.name) + Size(f.kids) + 4, Put(f.next, d - (HdrSize(f.name) + Size(f.kids) + 4), g))
    ensures At(t, a, Put(f, d, g))
  {
    hide HdrSize, PropSize, Words, Word, NodeHdr, PropHdr, IsTag, Spliced, Same, At;
    var h := HdrSize(f.name);
    var was := Size(RestAt(f, d).value);
    var e := a + h + Size(f.kids);
    SubAt(s, a, f.name, f.kids, f.next);
    PrefixHdr(s, t, a + d, was, Size(g), a, f.name);
    PrefixForest(s, t, a + d, was, Size(g), a + h, f.kids);
    PrefixTag(s, t, a + d, was, Size(g), e, END_NODE);
    AtSub(t, a, f.name, f.kids, Put(f.next, d - h - Size(f.kids) - 4, g));
  }

  lemma PrefixForest(s: seq<byte>, t: seq<byte>, at: int, was: int, now: int, o: int, f: Forest)
    requires Spliced(s, t, at, was, now) && 0 <= o && o + Size(f) <= at && At(s, o, f)
    ensures At(t, o, f)
  {
    SamePart(s, 0, t, 0, at, o, Size(f));
    AtMoves(s, o, t, o, f);
  }

  lemma PrefixTag(s: seq<byte>, t: seq<byte>, at: int, was: int, now: int, o: int, tag: int)
    requires Spliced(s, t, at, was, now) && 0 <= o && o + 4 <= at && IsTag(s, o, tag)
    ensures IsTag(t, o, tag)
  {
    IsTagMoves(s, 0, t, 0, at, o, tag);
  }

  lemma PrefixHdr(s: seq<byte>, t: seq<byte>, at: int, was: int, now: int, o: int, name: seq<byte>)
    requires Spliced(s, t, at, was, now) && 0 <= o && o + HdrSize(name) <= at && NodeHdr(s, o, name)
    ensures NodeHdr(t, o, name)
  {
    SamePart(s, 0, t, 0, at, o, HdrSize(name));
    NodeHdrMoves(s, o, t, o, name);
  }

  lemma PrefixProp(s: seq<byte>, t: seq<byte>, at: int, was: int, now: int, o: int, no: int, val: seq<byte>)
    requires Spliced(s, t, at, was, now) && 0 <= o && o + PropSize(val) <= at && PropHdr(s, o, no, val)
    ensures PropHdr(t, o, no, val)
  {
    SamePart(s, 0, t, 0, at, o, PropSize(val));
    PropHdrMoves(s, o, t, o, no, val);
  }

  lemma SuffixForest(s: seq<byte>, t: seq<byte>, at: int, was: int, now: int, o: int, f: Forest)
    requires Spliced(s, t, at, was, now) && at + was <= o && At(s, o, f)
    ensures At(t, o - was + now, f)
  {
    hide At, Same, Size;
    AtFits(s, o, f);
    SamePart(s, at + was, t, at + now, |s| - at - was, o - at - was, Size(f));
    AtMoves(s, o, t, o - was + now, f);
  }

  lemma SuffixTag(s: seq<byte>, t: seq<byte>, at: int, was: int, now: int, o: int, tag: int)
    requires Spliced(s, t, at, was, now) && at + was <= o && IsTag(s, o, tag)
    ensures IsTag(t, o - was + now, tag)
  {
    IsTagMoves(s, at + was, t, at + now, |s| - at - was, o - at - was, tag);
  }

  // ---- composing byte edits ---------------------------------------------------

  /** v is written over t from p on; all else stays. */
  predicate Patched(s: seq<byte>, t: seq<byte>, p: int, v: seq<byte>) {
    && |t| == |s|
    && Same(s, 0, t, 0, p)
    && HoldsAt(t, p, v)
    && Same(s, p + |v|, t, p + |v|, |s| - p - |v|)
  }

  lemma SplicedWiden(s: seq<byte>, t: seq<byte>, at: int, was: int, now: int, more: int)
    requires Spliced(s, t, at, was, now) && 0 <= more <= |s| - at - was
    ensures Spliced(s, t, at, was + more, now + more)
  {
    SamePart(s, at + was, t, at + now, |s| - at - was, more, |s| - at - was - more);
  }

  lemma SplicedPatched(s: seq<byte>, t: seq<byte>, u: seq<byte>, at: int, was: int, now: int, p: int, v: seq<byte>)
    requires Spliced(s, t, at, was, now) && Patched(t, u, p, v)
    requires at <= p && p + |v| <= at + now
    ensures Spliced(s, u, at, was, now)
  {
    forall j | 0 <= j < at ensures s[j] == u[j - 0 + 0] {
      assert t[j] == u[j - 0 + 0];
      assert s[j] == t[j - 0 + 0];
    }
    forall j | at + was <= j < |s| ensures s[j] == u[j - (at + was) + (at + now)] {
      var k := j - (at + was) + (at + now);
      assert s[j] == t[k];
      assert t[k] == u[k - (p + |v|) + (p + |v|)];
    }
  }
}
