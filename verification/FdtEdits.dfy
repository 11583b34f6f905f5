/** What the editing operations mean on the abstract tree, and that splicing
    the structure block has that meaning. */
module FdtEdits {
  import opened Bytes
  import opened FdtFormat
  import opened FdtTree
  import opened FdtBlob
  import opened Fdt
  import opened FdtRo

  // ---- meaning -------------------------------------------------------------------

  /** Lookup reads a node's properties up to its first child. */
  function VGet(d: Dt, name: seq<byte>): Option<seq<byte>> {
    match d
    case DProp(m, val, n) => if m == name then Some(val) else VGet(n, name)
    case _ => None
  }

  /** Overwrite the property lookup finds; a new one becomes the first item. */
  function VSetProp(d: Dt, name: seq<byte>, val: seq<byte>): Dt {
    if VGet(d, name).Some? then VOverwrite(d, name, val) else DProp(name, val, d)
  }

  function VOverwrite(d: Dt, name: seq<byte>, val: seq<byte>): Dt {
    match d
    case DProp(m, v, n) => if m == name then DProp(m, val, n) else DProp(m, v, VOverwrite(n, name, val))
    case _ => d
  }

  function VDelProp(d: Dt, name: seq<byte>): Dt {
    match d
    case DProp(m, v, n) => if m == name then n else DProp(m, v, VDelProp(n, name))
    case _ => d
  }

  /** The child that a name finds. */
  function VChild(d: Dt, name: seq<byte>): Option<Dt> {
    match d
    case DNil => None
    case DProp(_, _, n) => VChild(n, name)
    case DNode(m, k, n) => if NameEq(m, name) then Some(k) else VChild(n, name)
  }

  /** A new child goes before the other children. */
  function VAddChild(d: Dt, name: seq<byte>): Dt {
    match d
    case DProp(m, v, n) => DProp(m, v, VAddChild(n, name))
    case _ => DNode(name, DNil, d)
  }

  /** The items of the node at path p replaced by k. */
  function VPutKids(d: Dt, p: seq<Dir>, k: Dt): Dt {
    match VAt(d, p)
    case Some(DNode(name, _, n)) => VPut(d, p, DNode(name, k, n))
    case _ => d
  }

  function VKids(d: Dt, p: seq<Dir>): Dt {
    match VAt(d, p)
    case Some(DNode(_, k, _)) => k
    case _ => DNil
  }

  // ---- properties ---------------------------------------------------------------

  /** The property a lookup finds, inside the item list k it is looked up in. */
  lemma {:induction false} PropFound(off: int, k: Forest, strs: seq<byte>, name: seq<byte>, val: seq<byte>)
    requires off >= 0 && NamesOk(k, strs)
    ensures var r := PropOff(off, k, strs, name);
            && (r < 0 ==> r == NOTFOUND && VGet(View(k, strs), name) == None)
            && (r >= 0 ==>
                  && r >= off
                  && RestAt(k, r - off).Some?
                  && var x := RestAt(k, r - off).value;
                  && x.Prop?
                  && VGet(View(k, strs), name) == Some(x.val)
                  && View(Put(k, r - off, Prop(x.nameoff, val, x.next)), strs) == VOverwrite(View(k, strs), name, val)
                  && View(Put(k, r - off, x.next), strs) == VDelProp(View(k, strs), name))
    decreases k
  {
    hide HdrWords, PropWords, NameOk, StrAt;
    match k
    case Nop(n) => PropFound(off + 4, n, strs, name, val);
    case Prop(no, v, n) =>
      NamesHead(k, strs);
      if StrAt(strs, no) != name {
        PropFound(off + PropSize(v), n, strs, name, val);
      }
    case _ =>
  }

  lemma NamesHead(k: Forest, strs: seq<byte>)
    requires k.Prop? && NamesOk(k, strs)
    ensures NameOk(k.nameoff, strs) && NamesOk(k.next, strs)
  {
  }

  /** The item list with the value of the property a lookup finds replaced. */
  function FSetVal(k: Forest, strs: seq<byte>, name: seq<byte>, w: seq<byte>): Forest {
    match k
    case Nop(n) => Nop(FSetVal(n, strs, name, w))
    case Prop(no, v, n) =>
      if NameOk(no, strs) && StrAt(strs, no) == name then Prop(no, w, n) else Prop(no, v, FSetVal(n, strs, name, w))
    case _ => k
  }

  lemma {:induction false} FSetIs(off: int, k: Forest, strs: seq<byte>, name: seq<byte>, w: seq<byte>)
    requires off >= 0 && PropOff(off, k, strs, name) >= 0
    ensures var r := PropOff(off, k, strs, name);
            r >= off && RestAt(k, r - off).Some? && RestAt(k, r - off).value.Prop?
            && var x := RestAt(k, r - off).value;
               FSetVal(k, strs, name, w) == Put(k, r - off, Prop(x.nameoff, w, x.next))
    decreases k
  {
    hide HdrSize, PropSize, Size, NameOk, StrAt;
    match k
    case Nop(n) => FSetIs(off + 4, n, strs, name, w);
    case Prop(no, v, n) =>
      PropAligned(v);
      if !(NameOk(no, strs) && StrAt(strs, no) == name) {
        FSetIs(off + PropSize(v), n, strs, name, w);
      }
    case _ =>
  }

  // ---- children --------------------------------------------------------------------

  /** Where fdt_add_subnode places a new node: behind properties and NOPs. */
  function AddOff(off: int, k: Forest): int
    decreases k
  {
    match k
    case Nop(n) => AddOff(off + 4, n)
    case Prop(_, val, n) => AddOff(off + PropSize(val), n)
    case _ => off
  }

  lemma {:induction false} AddPlace(off: int, k: Forest, strs: seq<byte>, name: seq<byte>)
    requires off >= 0
    ensures var r := AddOff(off, k);
            && r >= off && RestAt(k, r - off).Some?
            && var x := RestAt(k, r - off).value;
            && (x.Nil? || x.Sub?)
            && View(Put(k, r - off, Sub(name, Nil, x)), strs) == VAddChild(View(k, strs), name)
    decreases k
  {
    hide HdrWords, PropWords, StrAt;
    match k
    case Nop(n) => AddPlace(off + 4, n, strs, name);
    case Prop(_, v, n) => AddPlace(off + PropSize(v), n, strs, name);
    case _ =>
  }

  lemma {:induction false} ChildFound(off: int, k: Forest, strs: seq<byte>, name: seq<byte>)
    requires off >= 0
    ensures var r := ChildOff(off, k, name);
            && (r < 0 ==> r == NOTFOUND && VChild(View(k, strs), name) == None)
            && (r >= 0 ==>
                  && r >= off && IsNode(k, r - off)
                  && NameEq(RestAt(k, r - off).value.name, name)
                  && VChild(View(k, strs), name) == Some(View(RestAt(k, r - off).value.kids, strs)))
    decreases k
  {
    hide HdrWords, PropWords, NameEq, StrAt;
    match k
    case Nil =>
    case Nop(n) => ChildFound(off + 4, n, strs, name);
    case Prop(_, v, n) => ChildFound(off + PropSize(v), n, strs, name);
    case Sub(m, kids, n) =>
      if !NameEq(m, name) {
        SubSize(k);
        ChildFound(off + NodeSize(k), n, strs, name);
      }
  }

  // ---- from splices to trees -----------------------------------------------------------

  /** f with the items of the node at d replaced. */
  function PutKids(f: Forest, d: int, k: Forest): Forest
    requires IsNode(f, d)
  {
    var x := RestAt(f, d).value;
    Put(f, d, Sub(x.name, k, x.next))
  }

  lemma KidsView(f: Forest, d: int, k: Forest, strs: seq<byte>)
    requires IsNode(f, d) && NamesOk(f, strs) && NamesOk(k, strs)
    ensures NamesOk(PutKids(f, d, k), strs) && NamesOk(RestAt(f, d).value.kids, strs)
    ensures VKids(View(f, strs), PathOf(f, d)) == View(RestAt(f, d).value.kids, strs)
    ensures View(PutKids(f, d, k), strs) == VPutKids(View(f, strs), PathOf(f, d), View(k, strs))
    ensures VAt(View(f, strs), PathOf(f, d)).Some? && VAt(View(f, strs), PathOf(f, d)).value.DNode?
  {
    hide HdrWords, PropWords, NameOk, StrAt, Put, RestAt, PathOf, VAt, VPut;
    var x := RestAt(f, d).value;
    ViewPut(f, d, Sub(x.name, k, x.next), strs);
    NamesPut(f, d, Sub(x.name, k, x.next), strs);
  }

  lemma PutRoot(f: Forest, d: int, k: Forest)
    requires f.Sub? && OnlyNops(f.next) && IsNode(f, d)
    ensures PutKids(f, d, k).Sub? && OnlyNops(PutKids(f, d, k).next)
    ensures RestAt(PutKids(f, d, k), d) == Some(Sub(RestAt(f, d).value.name, k, RestAt(f, d).value.next))
    ensures Size(PutKids(f, d, k)) == Size(f) - Size(RestAt(f, d).value.kids) + Size(k)
  {
    hide HdrWords, PropWords, Words;
    var x := RestAt(f, d).value;
    var y := Sub(x.name, k, x.next);
    PutGet(f, d, y);
    PutSize(f, d, y);
    SubSize(x);
    SubSize(y);
    if d != 0 {
      InsideRoot(f, d);
      RestAtBounds(f.kids, d - HdrSize(f.name));
      SizeNonNeg(RestAt(f.kids, d - HdrSize(f.name)).value);
    }
  }

  /** A splice inside the item list of one node, whose new bytes encode g. */
  lemma EditKids(s: seq<byte>, t: seq<byte>, f: Forest, d: int, e: int, g: Forest)
    requires TreeIn(s, f) && IsNode(f, d)
    requires RestAt(RestAt(f, d).value.kids, e).Some?
    requires var x := RestAt(f, d).value;
             && Spliced(s, t, d + HdrSize(x.name) + e, Size(RestAt(x.kids, e).value), Size(g))
             && At(t, d + HdrSize(x.name) + e, g)
    requires |t| < INT_LIMIT
    ensures TreeIn(t, PutKids(f, d, Put(RestAt(f, d).value.kids, e, g)))
  {
    hide HdrWords, PropWords, Words, Put, RestAt, Spliced, IsTag, OnlyNops, At;
    var x := RestAt(f, d).value;
    var at := d + HdrSize(x.name) + e;
    PutNested(f, d, e, g);
    SplicePut(s, t, 0, f, at, g);
    PutRoot(f, d, Put(x.kids, e, g));
    PutSize(x.kids, e, g);
    RestAtBounds(f, at);
    SuffixTag(s, t, at, Size(RestAt(x.kids, e).value), Size(g), Size(f), END);
    SplicedLength(s, t, at, Size(RestAt(x.kids, e).value), Size(g));
  }

  lemma SplicedLength(s: seq<byte>, t: seq<byte>, at: int, was: int, now: int)
    requires Spliced(s, t, at, was, now)
    ensures |t| == |s| - was + now
  {
  }

  // ---- writes inside a property ------------------------------------------------------------

  lemma PatchedSplice(s: seq<byte>, t: seq<byte>, p: int, v: seq<byte>, at: int, n: int)
    requires Patched(s, t, p, v) && 0 <= at <= p && p + |v| <= at + n <= |s|
    ensures Spliced(s, t, at, n, n)
  {
    SamePart(s, 0, t, 0, p, 0, at);
    SamePart(s, p + |v|, t, p + |v|, |s| - p - |v|, at + n - p - |v|, |s| - at - n);
  }

  lemma PatchedWord(s: seq<byte>, t: seq<byte>, p: int, v: seq<byte>, q: int)
    requires Patched(s, t, p, v) && 0 <= q && q + 4 <= |s|
    requires q + 4 <= p || p + |v| <= q
    ensures Word(t, q) == Word(s, q)
  {
    if q + 4 <= p {
      SamePart(s, 0, t, 0, p, q, 4);
    } else {
      SamePart(s, p + |v|, t, p + |v|, |s| - p - |v|, q - p - |v|, 4);
    }
    SameWord(s, q, t, q);
  }

  lemma PatchedForest(s: seq<byte>, t: seq<byte>, p: int, v: seq<byte>, o: int, f: Forest)
    requires Patched(s, t, p, v) && At(s, o, f)
    requires o + Size(f) <= p || p + |v| <= o
    ensures At(t, o, f)
  {
    AtFits(s, o, f);
    if o + Size(f) <= p {
      SamePart(s, 0, t, 0, p, o, Size(f));
    } else {
      SamePart(s, p + |v|, t, p + |v|, |s| - p - |v|, o - p - |v|, Size(f));
    }
    AtMoves(s, o, t, o, f);
  }

  lemma HeldWord(t: seq<byte>, p: int, v: seq<byte>, i: int, w: int)
    requires HoldsAt(t, p, v) && 0 <= i && i + 4 <= |v| && 0 <= w < U32_LIMIT
    requires v[i..i + 4] == Be32(w)
    ensures Word(t, p + i) == w
  {
    forall j | 0 <= j < 4 ensures t[p + i + j] == Be32(w)[j] {
      assert t[p + i + j] == v[p + i + j - p];
      assert v[i..i + 4][j] == v[i + j];
    }
    assert t[p + i + 0] == Be32(w)[0] && t[p + i + 1] == Be32(w)[1];
    assert t[p + i + 2] == Be32(w)[2] && t[p + i + 3] == Be32(w)[3];
    WordOfBe32(w);
  }

  lemma PutKidsTwice(f: Forest, d: int, k: Forest, l: Forest)
    requires IsNode(f, d)
    ensures IsNode(PutKids(f, d, k), d)
    ensures RestAt(PutKids(f, d, k), d).value.name == RestAt(f, d).value.name
    ensures RestAt(PutKids(f, d, k), d).value.kids == k
    ensures PutKids(PutKids(f, d, k), d, l) == PutKids(f, d, l)
  {
    hide HdrWords, PropWords, Words, Put, RestAt;
    var x := RestAt(f, d).value;
    PutGet(f, d, Sub(x.name, k, x.next));
    PutPut(f, d, Sub(x.name, k, x.next), Sub(x.name, l, x.next));
  }

  /** Overwriting a value of the same length through a pointer to it. */
  lemma ValueWritten(s: seq<byte>, t: seq<byte>, f: Forest, d: int, e: int, val: seq<byte>)
    requires TreeIn(s, f) && IsNode(f, d)
    requires RestAt(RestAt(f, d).value.kids, e).Some? && RestAt(RestAt(f, d).value.kids, e).value.Prop?
    requires var x := RestAt(f, d).value;
             var y := RestAt(x.kids, e).value;
             |val| == |y.val| && Patched(s, t, d + HdrSize(x.name) + e + 12, val)
    ensures var x := RestAt(f, d).value;
            var y := RestAt(x.kids, e).value;
            TreeIn(t, PutKids(f, d, Put(x.kids, e, Prop(y.nameoff, val, y.next))))
  {
    hide HdrWords, PropWords, Put, RestAt, Patched, Spliced, PropHdr, TreeIn, IsTag;
    var x := RestAt(f, d).value;
    var y := RestAt(x.kids, e).value;
    var at := d + HdrSize(x.name) + e;
    PropAt(s, f, d, e);
    SameLength(y.val, val);
    PatchedSizes(s, t, at + 12, val);
    PropRewritten(s, t, at, y, val);
    PatchedSplice(s, t, at + 12, val, at, Size(y));
    EditKids(s, t, f, d, e, Prop(y.nameoff, val, y.next));
  }

  lemma SameLength(v: seq<byte>, w: seq<byte>)
    requires |v| == |w|
    ensures PropSize(v) == PropSize(w)
  {
  }

  lemma PatchedSizes(s: seq<byte>, t: seq<byte>, p: int, v: seq<byte>)
    requires Patched(s, t, p, v)
    ensures |t| == |s| && 0 <= p && p + |v| <= |s| && HoldsAt(t, p, v)
  {
  }

  /** The bytes of an item of a node. */
  lemma PropAt(s: seq<byte>, f: Forest, d: int, e: int)
    requires TreeIn(s, f) && IsNode(f, d) && RestAt(RestAt(f, d).value.kids, e).Some?
    ensures var x := RestAt(f, d).value;
            && d >= 0 && e >= 0 && |s| < INT_LIMIT
            && At(s, d + HdrSize(x.name) + e, RestAt(x.kids, e).value)
            && d + HdrSize(x.name) + e + Size(RestAt(x.kids, e).value) + 4 <= |s|
            && Size(RestAt(x.kids, e).value) >= 0
  {
    hide HdrWords, PropWords, Words, RestAt, TreeIn, Point;
    var x := RestAt(f, d).value;
    NodeFacts(s, f, d);
    PointAt(s, d + HdrSize(x.name), x.kids);
    RestAtBounds(x.kids, e);
    RestAtIsAt(s, d + HdrSize(x.name), x.kids, e);
    SizeNonNeg(RestAt(x.kids, e).value);
    SizeNonNeg(x.next);
    SmallBlock(s, f);
  }

  lemma PointAt(s: seq<byte>, off: int, k: Forest)
    requires Point(s, off, k, Edge)
    ensures At(s, off, k)
  {
  }

  lemma PropAssembled(t: seq<byte>, at: int, no: int, v: seq<byte>, n: Forest)
    requires 0 <= at && at + PropSize(v) <= |t|
    requires Word(t, at) == PROP && Word(t, at + 4) == |v| && Word(t, at + 8) == no
    requires HoldsAt(t, at + 12, v) && At(t, at + PropSize(v), n)
    ensures At(t, at, Prop(no, v, n))
  {
  }

  lemma PropTaken(t: seq<byte>, at: int, y: Forest)
    requires y.Prop? && At(t, at, y)
    ensures 0 <= at && at + PropSize(y.val) + Size(y.next) <= |t|
    ensures Word(t, at) == PROP && Word(t, at + 4) == |y.val| && Word(t, at + 8) == y.nameoff
    ensures HoldsAt(t, at + 12, y.val) && At(t, at + PropSize(y.val), y.next)
  {
    AtFits(t, at, y);
  }

  lemma HeldSlice(t: seq<byte>, p: int, n: int)
    requires 0 <= p && 0 <= n && p + n <= |t|
    ensures HoldsAt(t, p, t[p..p + n])
  {
  }

  lemma PropRewritten(s: seq<byte>, t: seq<byte>, at: int, y: Forest, val: seq<byte>)
    requires y.Prop? && At(s, at, y) && at >= 0 && |val| == |y.val|
    requires Patched(s, t, at + 12, val)
    ensures At(t, at, Prop(y.nameoff, val, y.next))
  {
    hide HdrWords, PropWords, Words, Patched, HoldsAt, Word, At;
    PatchedSizes(s, t, at + 12, val);
    SameLength(y.val, val);
    PropTaken(s, at, y);
    PatchedWord(s, t, at + 12, val, at);
    PatchedWord(s, t, at + 12, val, at + 4);
    PatchedWord(s, t, at + 12, val, at + 8);
    PatchedForest(s, t, at + 12, val, at + PropSize(val), y.next);
    PropAssembled(t, at, y.nameoff, val, y.next);
  }

  lemma PropSizes(v: seq<byte>)
    ensures PropSize(v) == 12 + Align4(|v|)
  {
  }

  lemma PropParts(no: int, v: seq<byte>, n: Forest)
    ensures Size(Prop(no, v, n)) == PropSize(v) + Size(n)
  {
  }

  lemma NodeRoom(s: seq<byte>, f: Forest, d: int)
    requires TreeIn(s, f) && IsNode(f, d)
    ensures d >= 0 && d + HdrSize(RestAt(f, d).value.name) < |s|
    ensures NodeCheck(s, d) == d + HdrSize(RestAt(f, d).value.name)
  {
    NodeFacts(s, f, d);
    SizeNonNeg(RestAt(f, d).value.kids);
    SizeNonNeg(RestAt(f, d).value.next);
  }

  lemma NamesOfKids(f: Forest, node: int, strs: seq<byte>)
    requires IsNode(f, node) && NamesOk(f, strs)
    ensures NamesOk(RestAt(f, node).value.kids, strs)
  {
    NamesPut(f, node, f, strs);
  }

  lemma NodeBytes(s: seq<byte>, f: Forest, d: int)
    requires TreeIn(s, f) && IsNode(f, d)
    ensures var x := RestAt(f, d).value;
            && d >= 0 && At(s, d, x) && At(s, d + NodeSize(x), x.next)
            && Size(x) == NodeSize(x) + Size(x.next) && NodeSize(x) >= 0
            && d + Size(x) <= |s|
  {
    hide HdrWords, Words, TreeIn, RestAt, At, Point, IsTag, NodeHdr, NodeCheck;
    var x := RestAt(f, d).value;
    NodeFacts(s, f, d);
    SubAt(s, d, x.name, x.kids, x.next);
    SubSize(x);
    SizeNonNeg(x.kids);
    SizeNonNeg(x.next);
  }

  /** The tree left after a node other than the root was replaced by g. */
  lemma WithoutNode(s: seq<byte>, t: seq<byte>, f: Forest, d: int, g: Forest)
    requires TreeIn(s, f) && IsNode(f, d) && d != 0
    requires Spliced(s, t, d, Size(RestAt(f, d).value), Size(g)) && At(t, d, g)
    requires |t| <= |s|
    ensures TreeIn(t, Put(f, d, g))
  {
    hide HdrWords, PropWords, Words, Put, RestAt, Spliced, IsTag, OnlyNops, At;
    var x := RestAt(f, d).value;
    RestZero(f);
    InsideRoot(f, d);
    RestAtBounds(f.kids, d - HdrSize(f.name));
    EditKids(s, t, f, 0, d - HdrSize(f.name), g);
    RootPut(f, d, g);
  }

  lemma RootPut(f: Forest, d: int, g: Forest)
    requires f.Sub? && RestAt(f.kids, d - HdrSize(f.name)).Some? && d - HdrSize(f.name) >= 0
    ensures IsNode(f, 0) && RestAt(f, 0) == Some(f)
    ensures PutKids(f, 0, Put(f.kids, d - HdrSize(f.name), g)) == Put(f, d, g)
  {
    PutNested(f, 0, d - HdrSize(f.name), g);
  }

  /** struct fdt_property without its value. */
  function PropStruct(len: int, no: int): (r: seq<byte>)
    requires 0 <= len < U32_LIMIT && 0 <= no < U32_LIMIT
    ensures |r| == 12
  {
    Be32(PROP) + Be32(len) + Be32(no)
  }

  lemma PropStructWords(t: seq<byte>, p: int, len: int, no: int)
    requires 0 <= len < U32_LIMIT && 0 <= no < U32_LIMIT && HoldsAt(t, p, PropStruct(len, no))
    ensures p + 12 <= |t| && Word(t, p) == PROP && Word(t, p + 4) == len && Word(t, p + 8) == no
  {
    var v := PropStruct(len, no);
    assert v[0..4] == Be32(PROP) && v[4..8] == Be32(len) && v[8..12] == Be32(no);
    HeldWord(t, p, v, 0, PROP);
    HeldWord(t, p, v, 4, len);
    HeldWord(t, p, v, 8, no);
  }

  lemma PatchedHeld(s: seq<byte>, t: seq<byte>, p: int, v: seq<byte>, q: int, w: seq<byte>)
    requires Patched(s, t, p, v) && HoldsAt(s, q, w)
    requires q + |w| <= p || p + |v| <= q
    ensures HoldsAt(t, q, w)
  {
    forall j | q <= j < q + |w| ensures t[j] == w[j - q] {
      if j < p {
        assert s[j] == t[j - 0 + 0];
      } else {
        assert s[j] == t[j - (p + |v|) + (p + |v|)];
      }
    }
  }

  lemma PatchedSmaller(s: seq<byte>, t: seq<byte>, p: int, v: seq<byte>, q: int, w: seq<byte>)
    requires HoldsAt(t, q, w) && 0 <= p && p + |v| <= |w|
    requires v == w[p..p + |v|]
    ensures HoldsAt(t, q + p, v)
  {
    forall j | q + p <= j < q + p + |v| ensures t[j] == v[j - (q + p)] {
      assert t[j] == w[j - q];
      assert v[j - (q + p)] == w[p..p + |v|][j - (q + p)];
    }
  }

  lemma HeldTag(t: seq<byte>, p: int, tag: int)
    requires 0 <= tag < U32_LIMIT && HoldsAt(t, p, Be32(tag))
    ensures IsTag(t, p, tag)
  {
    assert Be32(tag)[0..4] == Be32(tag);
    HeldWord(t, p, Be32(tag), 0, tag);
  }

  lemma NamedNode(u: seq<byte>, off: int, name: seq<byte>)
    requires off >= 0 && off + HdrSize(name) <= |u| && 0 !in name
    requires HoldsAt(u, off, Be32(BEGIN_NODE)) && HoldsAt(u, off + 4, name) && HoldsAt(u, off + 4 + |name|, [0])
    ensures NodeHdr(u, off, name)
  {
    HeldTag(u, off, BEGIN_NODE);
    assert u[off + 4 + |name|] == [0][off + 4 + |name| - (off + 4 + |name|)];
  }

  lemma UnchangedSpliced(s: seq<byte>, at: int, n: int)
    requires 0 <= at && 0 <= n && at + n <= |s|
    ensures Spliced(s, s, at, n, n)
  {
  }
}
