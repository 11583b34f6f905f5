/** fdt_ro.c and fdt_overlay.c: phandles, the largest one, and shifting all of
    an overlay's. */
module FdtPhandle {
  import opened Bytes
  import opened FdtFormat
  import opened FdtTree
  import opened FdtBlob
  import opened Fdt
  import opened FdtRo
  import opened FdtEdits
  import opened FdtWalk
  import opened FdtRw
  import FdtMergeLaws

  /** "phandle" and "linux,phandle", see Spelled */
  const PHANDLE: seq<byte> := [112, 104, 97, 110, 100, 108, 101]
  const LINUX_PHANDLE: seq<byte> := [108, 105, 110, 117, 120, 44, 112, 104, 97, 110, 100, 108, 101]

  // ---- fdt_get_phandle ---------------------------------------------------------------

  function WordOf(v: Option<seq<byte>>): Option<int> {
    if v.Some? && |v.value| == 4 then Some(Word(v.value, 0)) else None
  }

  /** The phandle among the items of a node, or 0. */
  function VPhandle(d: Dt): (p: int)
    ensures 0 <= p < U32_LIMIT
  {
    match WordOf(VGet(d, PHANDLE))
    case Some(p) => p
    case None =>
      match WordOf(VGet(d, LINUX_PHANDLE))
      case Some(p) => p
      case None => 0
  }

  /** A value of four bytes, as a number, if the property is there. */
  method GetWord(b: Blob, node: int, name: seq<byte>, ghost f: Forest) returns (r: Option<int>)
    requires Holds(b, f) && IsNode(f, node)
    ensures r == WordOf(VGet(View(RestAt(f, node).value.kids, b.Strings()), name))
  {
    hide HdrSize, PropSize, Size, Put, RestAt, Region, TreeIn, At, PropOff, StrAt, Word, View, VGet;
    ghost var x := RestAt(f, node).value;
    NamesOfKids(f, node, b.Strings());
    NodeRoom(b.StructBlock(), f, node);
    PropFound(node + HdrSize(x.name), x.kids, b.Strings(), name, []);
    var off, len := GetProperty(b, node, name, f);
    if off < 0 {
      return None;
    }
    ghost var y := RestAt(x.kids, off - node - HdrSize(x.name)).value;
    PropAt(b.StructBlock(), f, node, off - node - HdrSize(x.name));
    PropTaken(b.StructBlock(), off, y);
    if len != 4 {
      return None;
    }
    ValueWord(b.StructBlock(), off, y);
    r := Some(Word(b.StructBlock(), off + 12));
  }

  lemma ValueWord(s: seq<byte>, off: int, y: Forest)
    requires y.Prop? && |y.val| == 4 && 0 <= off && HoldsAt(s, off + 12, y.val)
    ensures off + 16 <= |s| && Word(s, off + 12) == Word(y.val, 0)
  {
    hide Word;
    forall j | 0 <= j < 4 ensures y.val[j] == s[j - 0 + off + 12] {
      assert s[off + 12 + j] == y.val[off + 12 + j - (off + 12)];
    }
    SameWord(y.val, 0, s, off + 12);
  }

  /** fdt_get_phandle */
  method GetPhandle(b: Blob, node: int, ghost f: Forest) returns (r: int)
    requires Holds(b, f) && IsNode(f, node)
    ensures r == VPhandle(View(RestAt(f, node).value.kids, b.Strings()))
  {
    hide Holds, View, RestAt, VGet, WordOf;
    var p := GetWord(b, node, PHANDLE, f);
    if p.None? {
      p := GetWord(b, node, LINUX_PHANDLE, f);
      if p.None? {
        return 0;
      }
    }
    r := p.value;
  }

  lemma Spelled()
    ensures PHANDLE == Ascii("phandle") && LINUX_PHANDLE == Ascii("linux,phandle")
  {
  }

  lemma WordIs(p: int)
    requires 0 <= p < U32_LIMIT
    ensures WordOf(Some(Be32(p))) == Some(p)
  {
    hide Word, Be32;
    WordOfBe32(p);
  }

  /** What is read is what was last set as "phandle"; what was set as "linux,phandle"
      is read as long as there is no "phandle" of four bytes, and then nothing else
      is; with neither it is 0. */
  lemma PhandleSet(d: Dt, p: int, v: seq<byte>)
    requires 0 <= p < U32_LIMIT
    ensures VPhandle(VSetProp(d, Ascii("phandle"), Be32(p))) == p
    ensures var w := VGet(d, Ascii("phandle"));
            VPhandle(VSetProp(d, Ascii("linux,phandle"), Be32(p))) ==
            if w.Some? && |w.value| == 4 then VPhandle(d) else p
    ensures |v| != 4 ==>
      VPhandle(VSetProp(VSetProp(d, Ascii("phandle"), v), Ascii("linux,phandle"), Be32(p))) == p
      && VPhandle(VSetProp(VSetProp(d, Ascii("phandle"), v), Ascii("linux,phandle"), v)) == 0
    ensures VPhandle(DNil) == 0
  {
    hide Word, Be32, VSetProp, VGet;
    Spelled();
    WordIs(p);
    var h := VSetProp(d, PHANDLE, v);
    FdtMergeLaws.SetPropLaw(d, PHANDLE, Be32(p), PHANDLE);
    FdtMergeLaws.SetPropLaw(d, PHANDLE, v, PHANDLE);
    FdtMergeLaws.SetPropLaw(d, LINUX_PHANDLE, Be32(p), PHANDLE);
    FdtMergeLaws.SetPropLaw(d, LINUX_PHANDLE, Be32(p), LINUX_PHANDLE);
    FdtMergeLaws.SetPropLaw(h, LINUX_PHANDLE, Be32(p), PHANDLE);
    FdtMergeLaws.SetPropLaw(h, LINUX_PHANDLE, Be32(p), LINUX_PHANDLE);
    FdtMergeLaws.SetPropLaw(h, LINUX_PHANDLE, v, PHANDLE);
    FdtMergeLaws.SetPropLaw(h, LINUX_PHANDLE, v, LINUX_PHANDLE);
    Unset();
    assert PHANDLE != LINUX_PHANDLE;
  }

  lemma Unset()
    ensures VGet(DNil, PHANDLE) == None && VGet(DNil, LINUX_PHANDLE) == None
  {
  }

  /** fdt_setprop of a phandle, under either of its two names, and then
      fdt_get_phandle of that node. */
  method SetThenGet(b: Blob, node: int, linux: bool, p: int, ghost f: Forest)
    returns (err: int, r: int, ghost k: Forest)
    requires RwProbe(b.h) == 0 && Holds(b, f) && IsNode(f, node) && 0 <= p < U32_LIMIT
    modifies b, b.buf
    ensures err == 0 || err == NOSPACE
    ensures var d := View(RestAt(f, node).value.kids, old(b.Strings()));
            var w := VGet(d, Ascii("phandle"));
            r == if err == 0 && !(linux && w.Some? && |w.value| == 4) then p else VPhandle(d)
  {
    hide HdrSize, Put, RestAt, Region, View, VPhandle, VSetProp, PathOf, VKids, VPutKids, SetPropGrowth, PutKids, Be32,
      TreeIn, NamesOk, RwProbe, Laid, VGet;
    Spelled();
    var name := if linux then LINUX_PHANDLE else PHANDLE;
    PhandleSet(View(RestAt(f, node).value.kids, b.Strings()), p, []);
    err, k := SetProp(b, node, name, Be32(p), f);
    if err == 0 {
      PutKidsTwice(f, node, k, k);
      r := GetPhandle(b, node, PutKids(f, node, k));
    } else {
      r := GetPhandle(b, node, f);
    }
  }

  // ---- fdt_find_max_phandle -------------------------------------------------------------

  function Max(a: int, b: int): int {
    if a > b then a else b
  }

  /** The largest phandle of the nodes of a list, at any level. */
  function VMax(d: Dt): (m: int)
    ensures m >= 0
  {
    match d
    case DNil => 0
    case DProp(_, _, n) => VMax(n)
    case DNode(_, k, n) => Max(VPhandle(k), Max(VMax(k), VMax(n)))
  }

  /** Node p of the tree has that phandle. */
  predicate Has(d: Dt, p: int) {
    match d
    case DNil => false
    case DProp(_, _, n) => Has(n, p)
    case DNode(_, k, n) => VPhandle(k) == p || Has(k, p) || Has(n, p)
  }

  lemma {:induction false} MaxBounds(d: Dt, p: int)
    requires Has(d, p)
    ensures p <= VMax(d)
    decreases d
  {
    hide VPhandle;
    match d
    case DProp(_, _, n) => MaxBounds(n, p);
    case DNode(_, k, n) =>
      if Has(k, p) {
        MaxBounds(k, p);
      }
      if Has(n, p) {
        MaxBounds(n, p);
      }
  }

  /** The largest phandle of what a walk still has before it. */
  function MaxAhead(f: Forest, k: Cont, strs: seq<byte>): int
    decreases k
  {
    if k.Up? then Max(VMax(View(f, strs)), MaxAhead(k.next, k.k, strs)) else VMax(View(f, strs))
  }

  lemma {:induction false} SeekMax(off: int, f: Forest, k: Cont, strs: seq<byte>)
    ensures var r := Seek(off, f, k);
            && (r.Node? ==> MaxAhead(r.f, r.k, strs) == MaxAhead(f, k, strs))
            && (!r.Node? ==> MaxAhead(f, k, strs) == 0)
    decreases k, f
  {
    hide HdrSize, PropSize, StrAt, VPhandle;
    match f
    case Nop(n) => SeekMax(off + 4, n, k, strs);
    case Prop(_, val, n) => SeekMax(off + PropSize(val), n, k, strs);
    case Sub(_, _, _) =>
    case Nil =>
      if k.Up? {
        SeekMax(off + 4, k.next, k.k, strs);
      }
  }

  lemma EnterMax(at: int, g: Forest, k: Cont, strs: seq<byte>)
    requires g.Sub?
    ensures MaxAhead(g, k, strs) ==
            Max(VPhandle(View(g.kids, strs)), MaxAhead(g.kids, Up(at, g.name, g.next, k), strs))
  {
    hide VPhandle, StrAt;
  }

  /** fdt_find_max_phandle */
  method FindMaxPhandle(b: Blob, ghost f: Forest) returns (err: int, max: int)
    requires Holds(b, f)
    ensures err == 0 && max == VMax(View(f, b.Strings()))
  {
    hide HdrSize, PropSize, Size, RestAt, Point, NodeHdr, Seek, TreeIn, Region, Laid, MaxAhead, View, VMax, VPhandle,
      At;
    max := 0;
    ghost var s, strs := b.StructBlock(), b.Strings();
    StartCount(s, f, strs);
    VisitStep(s, f, 0, f, Fin);
    SeekMax(0, f, Fin, strs);
    var offset, d := NextNode(b, -1, 0, false, [], f, Fin);
    ghost var stop := Seek(0, f, Fin);
    while offset >= 0
      invariant stop.Node? || stop.Done?
      invariant if stop.Node? then
                  && offset == stop.at && offset <= |s| && stop.f.Sub?
                  && Visiting(s, f, stop.at, stop.f.name, stop.f.kids, Up(stop.at, stop.f.name, stop.f.next, stop.k))
                  && Max(max, MaxAhead(stop.f, stop.k, strs)) == VMax(View(f, strs))
                else offset == NOTFOUND && max == VMax(View(f, strs))
      invariant max >= 0
      decreases if offset < 0 then 0 else |s| - offset + 1
    {
      ghost var g, k := stop.f, Up(stop.at, stop.f.name, stop.f.next, stop.k);
      var value := GetPhandle(b, offset, f);
      EnterMax(offset, g, stop.k, strs);
      if value > max {
        max := value;
      }
      HdrSome(g.name);
      VisitStep(s, f, offset + HdrSize(g.name), g.kids, k);
      SeekMax(offset + HdrSize(g.name), g.kids, k, strs);
      stop := Seek(offset + HdrSize(g.name), g.kids, k);
      offset, d := NextNode(b, offset, 0, false, g.name, g.kids, k);
    }
    err := if offset == NOTFOUND then 0 else offset;
  }

  lemma StartCount(s: seq<byte>, f: Forest, strs: seq<byte>)
    requires TreeIn(s, f)
    ensures Point(s, 0, f, Fin) && Fits(f, 0, f, Fin) && MaxAhead(f, Fin, strs) == VMax(View(f, strs))
    ensures |s| < INT_LIMIT
  {
    hide At, VMax, View;
    RestHere(f);
  }
}
