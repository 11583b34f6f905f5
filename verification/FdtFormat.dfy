/** The structure block of a version-17 flattened device tree (Devicetree
    Specification, sections 5.4 and 5.5), as a concrete syntax tree and as
    bytes. Pad bytes are never constrained: the editing code leaves whatever
    was there. */
module FdtFormat {
  import opened Bytes

  const BEGIN_NODE := 1
  const END_NODE := 2
  const PROP := 3
  const NOP := 4
  const END := 9

  /** A sequence of sibling items; NOP words are kept, because they take room. */
  datatype Forest =
    | Nil
    | Nop(next: Forest)
    | Prop(nameoff: int, val: seq<byte>, next: Forest)
    | Sub(name: seq<byte>, kids: Forest, next: Forest)

  function HdrWords(name: seq<byte>): nat { 1 + (|name| + 4) / 4 }

  function PropWords(val: seq<byte>): nat { 3 + (|val| + 3) / 4 }

  /** Words a forest takes in the structure block. */
  function Words(f: Forest): nat {
    match f
    case Nil => 0
    case Nop(n) => 1 + Words(n)
    case Prop(_, val, n) => PropWords(val) + Words(n)
    case Sub(name, kids, n) => HdrWords(name) + Words(kids) + 1 + Words(n)
  }

  /** A BEGIN_NODE word, the name, its terminator and padding. */
  function HdrSize(name: seq<byte>): (r: int)
    ensures r >= 8 && r >= |name| + 5
  {
    4 * HdrWords(name)
  }

  /** struct fdt_property and the padded value. */
  function PropSize(val: seq<byte>): (r: int)
    ensures r >= 12 + |val|
  {
    4 * PropWords(val)
  }

  function Size(f: Forest): (r: int)
    ensures r >= 0
  {
    4 * Words(f)
  }

  lemma SizeStep(f: Forest)
    ensures f.Nil? ==> Size(f) == 0
    ensures f.Nop? ==> Size(f) == 4 + Size(f.next)
    ensures f.Prop? ==> Size(f) == PropSize(f.val) + Size(f.next)
    ensures f.Sub? ==> Size(f) == HdrSize(f.name) + Size(f.kids) + 4 + Size(f.next)
  {
  }

  predicate IsTag(s: seq<byte>, off: int, tag: int) {
    0 <= off && off + 4 <= |s| && Word(s, off) == tag
  }

  predicate NodeHdr(s: seq<byte>, off: int, name: seq<byte>) {
    && IsTag(s, off, BEGIN_NODE)
    && off + HdrSize(name) <= |s|
    && IsStrAt(s, off + 4, name)
  }

  predicate PropHdr(s: seq<byte>, off: int, nameoff: int, val: seq<byte>) {
    && IsTag(s, off, PROP)
    && off + PropSize(val) <= |s|
    && Word(s, off + 4) == |val|
    && Word(s, off + 8) == nameoff
    && HoldsAt(s, off + 12, val)
  }

  /** The bytes of s from off are an encoding of f. */
  ghost predicate At(s: seq<byte>, off: int, f: Forest)
    decreases f
  {
    // an equation, so that call sites are not split into its many conjuncts
    true == match f
    case Nil => 0 <= off <= |s|
    case Nop(n) => IsTag(s, off, NOP) && At(s, off + 4, n)
    case Prop(no, val, n) => PropHdr(s, off, no, val) && At(s, off + PropSize(val), n)
    case Sub(name, kids, n) =>
      && NodeHdr(s, off, name)
      && At(s, off + HdrSize(name), kids)
      && var e := off + HdrSize(name) + Size(kids);
      && IsTag(s, e, END_NODE)
      && At(s, e + 4, n)
  }

  lemma AtFits(s: seq<byte>, off: int, f: Forest)
    requires At(s, off, f)
    ensures 0 <= off && off + Size(f) <= |s|
    decreases f
  {
    match f
    case Nil =>
    case Nop(n) => AtFits(s, off + 4, n);
    case Prop(_, val, n) => AtFits(s, off + PropSize(val), n);
    case Sub(name, kids, n) => AtFits(s, off + HdrSize(name) + Size(kids) + 4, n);
  }

  lemma AtSub(s: seq<byte>, off: int, name: seq<byte>, kids: Forest, n: Forest)
    requires NodeHdr(s, off, name) && At(s, off + HdrSize(name), kids)
    requires IsTag(s, off + HdrSize(name) + Size(kids), END_NODE)
    requires At(s, off + HdrSize(name) + Size(kids) + 4, n)
    ensures At(s, off, Sub(name, kids, n))
  {
    hide HdrSize, Size, NodeHdr, IsTag;
  }

  /** The parts of an encoded list. */
  lemma AtNext(s: seq<byte>, a: int, f: Forest)
    requires At(s, a, f)
    ensures f.Nop? ==> At(s, a + 4, f.next)
    ensures f.Prop? ==> PropHdr(s, a, f.nameoff, f.val) && At(s, a + PropSize(f.val), f.next)
    ensures f.Sub? ==>
      && NodeHdr(s, a, f.name) && At(s, a + HdrSize(f.name), f.kids)
      && IsTag(s, a + HdrSize(f.name) + Size(f.kids), END_NODE)
      && At(s, a + (HdrSize(f.name) + Size(f.kids) + 4), f.next)
  {
    hide HdrSize, PropSize, Size, NodeHdr, PropHdr, IsTag;
  }

  lemma SubAt(s: seq<byte>, off: int, name: seq<byte>, kids: Forest, n: Forest)
    requires At(s, off, Sub(name, kids, n))
    ensures NodeHdr(s, off, name) && At(s, off + HdrSize(name), kids)
    ensures IsTag(s, off + HdrSize(name) + Size(kids), END_NODE)
    ensures At(s, off + HdrSize(name) + Size(kids) + 4, n)
    ensures 0 <= off && off + HdrSize(name) + Size(kids) + 4 + Size(n) <= |s|
  {
    hide HdrSize, PropSize, Size, NodeHdr, IsTag, At;
    AtFits(s, off, Sub(name, kids, n));
    AtNext(s, off, Sub(name, kids, n));
    SubWords(name, kids, n);
  }

  lemma SubWords(name: seq<byte>, kids: Forest, n: Forest)
    ensures Size(Sub(name, kids, n)) == HdrSize(name) + Size(kids) + 4 + Size(n)
  {
  }

  // ---- moving bytes moves the encoding ---------------------------------

  lemma IsTagMoves(s: seq<byte>, a: int, t: seq<byte>, b: int, n: int, i: int, tag: int)
    requires Same(s, a, t, b, n) && 0 <= i && i + 4 <= n
    requires IsTag(s, a + i, tag)
    ensures IsTag(t, b + i, tag)
  {
    SamePart(s, a, t, b, n, i, 4);
    SameWord(s, a + i, t, b + i);
  }

  lemma HoldsMoves(s: seq<byte>, a: int, t: seq<byte>, b: int, n: int, i: int, v: seq<byte>)
    requires Same(s, a, t, b, n) && 0 <= i && i + |v| <= n
    requires HoldsAt(s, a + i, v)
    ensures HoldsAt(t, b + i, v)
  {
    forall j | b + i <= j < b + i + |v| ensures t[j] == v[j - (b + i)] {
      assert s[j - b + a] == t[j];
    }
  }

  lemma NodeHdrMoves(s: seq<byte>, a: int, t: seq<byte>, b: int, name: seq<byte>)
    requires Same(s, a, t, b, HdrSize(name))
    requires NodeHdr(s, a, name)
    ensures NodeHdr(t, b, name)
  {
    IsTagMoves(s, a, t, b, HdrSize(name), 0, BEGIN_NODE);
    HoldsMoves(s, a, t, b, HdrSize(name), 4, name);
    SameByte(s, a, t, b, HdrSize(name), 4 + |name|);
  }

  lemma PropHdrMoves(s: seq<byte>, a: int, t: seq<byte>, b: int, no: int, val: seq<byte>)
    requires Same(s, a, t, b, PropSize(val))
    requires PropHdr(s, a, no, val)
    ensures PropHdr(t, b, no, val)
  {
    var n := PropSize(val);
    IsTagMoves(s, a, t, b, n, 0, PROP);
    SamePart(s, a, t, b, n, 4, 4);
    SameWord(s, a + 4, t, b + 4);
    SamePart(s, a, t, b, n, 8, 4);
    SameWord(s, a + 8, t, b + 8);
    HoldsMoves(s, a, t, b, n, 12, val);
  }

  lemma AtMovesSub(s: seq<byte>, a: int, t: seq<byte>, b: int, f: Forest)
    requires Same(s, a, t, b, Size(f))
    requires At(s, a, f) && f.Sub?
    requires At(t, b + HdrSize(f.name), f.kids)
    requires At(t, b + HdrSize(f.name) + Size(f.kids) + 4, f.next)
    ensures At(t, b, f)
  {
    hide Word, HoldsAt, IsStrAt, IsTag, NodeHdr, PropHdr, Same, HdrWords;
    var h := HdrSize(f.name);
    SamePart(s, a, t, b, Size(f), 0, h);
    NodeHdrMoves(s, a, t, b, f.name);
    IsTagMoves(s, a, t, b, Size(f), h + Size(f.kids), END_NODE);
  }

  lemma NilMoves(s: seq<byte>, a: int, t: seq<byte>, b: int)
    requires Same(s, a, t, b, 0)
    ensures At(t, b, Nil)
  {
  }

  /** The encoding of a forest depends only on its own bytes: a memmove of
      those bytes carries the forest with it. */
  lemma {:induction false} AtMoves(s: seq<byte>, a: int, t: seq<byte>, b: int, f: Forest)
    requires Same(s, a, t, b, Size(f))
    requires At(s, a, f)
    ensures At(t, b, f)
    decreases f
  {
    hide Word, HoldsAt, IsStrAt, IsTag, NodeHdr, PropHdr, Same, HdrWords, PropWords;
    if f.Nop? {
      IsTagMoves(s, a, t, b, Size(f), 0, NOP);
      SamePart(s, a, t, b, Size(f), 4, Size(f.next));
      AtMoves(s, a + 4, t, b + 4, f.next);
    } else if f.Prop? {
      var h := PropSize(f.val);
      SamePart(s, a, t, b, Size(f), 0, h);
      PropHdrMoves(s, a, t, b, f.nameoff, f.val);
      SamePart(s, a, t, b, Size(f), h, Size(f.next));
      AtMoves(s, a + h, t, b + h, f.next);
    } else if f.Nil? {
      NilMoves(s, a, t, b);
    } else {
      var h := HdrSize(f.name);
      var e := h + Size(f.kids) + 4;
      SamePart(s, a, t, b, Size(f), h, Size(f.kids));
      AtMoves(s, a + h, t, b + h, f.kids);
      SamePart(s, a, t, b, Size(f), e, Size(f.next));
      AtMoves(s, a + e, t, b + e, f.next);
      AtMovesSub(s, a, t, b, f);
    }
  }

  // ---- fdt_next_tag ------------------------------------------------------

  const TRUNCATED := -8
  const BADSTRUCTURE := -11

  datatype Step = Step(tag: int, next: int)

  /** What fdt_next_tag answers at any offset of any structure block: the
      unsigned 32-bit arithmetic of the length word is kept. */
  function TagAt(s: seq<byte>, off: int): Step
    requires 0 <= off
  {
    if off + 4 > |s| then Step(END, TRUNCATED)
    else
      var tag := Word(s, off);
      if tag == BEGIN_NODE then
        var e := NulFrom(s, off + 4);
        if e == |s| then Step(END, BADSTRUCTURE) else Step(BEGIN_NODE, Align4(e + 1))
      else if tag == PROP then
        if off + 8 > |s| then Step(END, BADSTRUCTURE)
        else
          var total := (12 + Word(s, off + 4)) % U32_LIMIT;
          if off + total > |s| then Step(END, BADSTRUCTURE) else Step(PROP, Align4(off + total))
      else if tag == END_NODE || tag == NOP || tag == END then Step(tag, Align4(off + 4))
      else Step(END, BADSTRUCTURE)
  }

  lemma TagAtNode(s: seq<byte>, off: int, name: seq<byte>)
    requires NodeHdr(s, off, name) && off % 4 == 0
    ensures TagAt(s, off) == Step(BEGIN_NODE, off + HdrSize(name))
  {
    StrAtIs(s, off + 4, name);
    AlignShift(off + 4, |name| + 1);
  }

  lemma TagAtProp(s: seq<byte>, off: int, no: int, val: seq<byte>)
    requires PropHdr(s, off, no, val) && off % 4 == 0
    requires |s| < INT_LIMIT
    ensures TagAt(s, off) == Step(PROP, off + PropSize(val))
  {
    AlignShift(off, 12 + |val|);
    AlignShift(12, |val|);
  }

  /** One tag at the start of a forest, or the word that closes it. */
  lemma TagAtForest(s: seq<byte>, off: int, f: Forest)
    requires At(s, off, f) && off % 4 == 0 && |s| < INT_LIMIT
    ensures f.Nop? ==> TagAt(s, off) == Step(NOP, off + 4)
    ensures f.Prop? ==> TagAt(s, off) == Step(PROP, off + PropSize(f.val))
    ensures f.Sub? ==> TagAt(s, off) == Step(BEGIN_NODE, off + HdrSize(f.name))
  {
    match f
    case Nil =>
    case Nop(_) =>
    case Prop(no, val, _) => TagAtProp(s, off, no, val);
    case Sub(name, _, _) => TagAtNode(s, off, name);
  }

  // ---- the structure block determines the tree ---------------------------

  /** Two forests read from the same place and closed by an END_NODE or END
      word are the same forest, so "the tree in the blob" is well defined. */
  lemma {:induction false} AtUnique(s: seq<byte>, off: int, f: Forest, g: Forest, tf: int, tg: int)
    requires At(s, off, f) && At(s, off, g)
    requires tf == END_NODE || tf == END
    requires tg == END_NODE || tg == END
    requires IsTag(s, off + Size(f), tf) && IsTag(s, off + Size(g), tg)
    ensures f == g && tf == tg
    decreases f
  {
    hide HdrSize, PropSize, Size, At, IsTag, NodeHdr, PropHdr;
    SizeStep(f);
    SizeStep(g);
    AtNext(s, off, f);
    AtNext(s, off, g);
    AtHead(s, off, f, tf);
    AtHead(s, off, g, tg);
    SameTag(s, off, HeadTag(f, tf), HeadTag(g, tg));
    match f
    case Nil =>
    case Nop(n) => AtUnique(s, off + 4, n, g.next, tf, tg);
    case Prop(no, val, n) =>
      SameValue(s, off, no, val, g.nameoff, g.val);
      AtUnique(s, off + PropSize(val), n, g.next, tf, tg);
    case Sub(name, kids, n) =>
      SameName(s, off, name, g.name);
      AtUnique(s, off + HdrSize(name), kids, g.kids, END_NODE, END_NODE);
      AtUnique(s, off + (HdrSize(name) + Size(kids) + 4), n, g.next, tf, tg);
  }

  function HeadTag(f: Forest, closer: int): int {
    match f
    case Nil => closer
    case Nop(_) => NOP
    case Prop(_, _, _) => PROP
    case Sub(_, _, _) => BEGIN_NODE
  }

  lemma AtHead(s: seq<byte>, off: int, f: Forest, closer: int)
    requires At(s, off, f) && IsTag(s, off + Size(f), closer)
    ensures IsTag(s, off, HeadTag(f, closer))
  {
  }

  lemma SameTag(s: seq<byte>, off: int, t: int, u: int)
    requires IsTag(s, off, t) && IsTag(s, off, u)
    ensures t == u
  {
  }

  lemma SameName(s: seq<byte>, off: int, m: seq<byte>, n: seq<byte>)
    requires NodeHdr(s, off, m) && NodeHdr(s, off, n)
    ensures m == n
  {
    StrAtIs(s, off + 4, m);
    StrAtIs(s, off + 4, n);
    HeldUnique(s, off + 4, m, n);
  }

  lemma SameValue(s: seq<byte>, off: int, no: int, v: seq<byte>, no': int, v': seq<byte>)
    requires PropHdr(s, off, no, v) && PropHdr(s, off, no', v')
    ensures no == no' && v == v'
  {
    HeldUnique(s, off + 12, v, v');
  }
}
