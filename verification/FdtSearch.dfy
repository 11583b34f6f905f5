/** fdt_ro.c and metadata.c: searching the nodes of a blob by name, by compatible
    string and by phandle. */
module FdtSearch {
  import opened Bytes
  import opened FdtFormat
  import opened FdtTree
  import opened FdtBlob
  import opened Fdt
  import opened FdtRo
  import opened FdtEdits
  import opened FdtWalk
  import opened FdtOverlay
  import opened FdtPath
  import opened FdtPhandle

  /** "compatible" */
  const COMPATIBLE: seq<byte> := [99, 111, 109, 112, 97, 116, 105, 98, 108, 101]

  // ---- string lists -------------------------------------------------------------------

  /** The list of terminated strings holds str; what follows an unterminated one
      does not count. */
  predicate ListHas(list: seq<byte>, str: seq<byte>)
    decreases |list|
  {
    |list| >= |str| &&
    (IsStrAt(list, 0, str) ||
     (NulFrom(list, 0) < |list| && ListHas(list[NulFrom(list, 0) + 1..], str)))
  }

  /** fdt_stringlist_contains */
  method StringListContains(list: seq<byte>, str: seq<byte>) returns (r: bool)
    requires 0 !in str
    ensures r == ListHas(list, str)
  {
    hide IsStrAt;
    var p := list;
    while |p| >= |str|
      invariant ListHas(p, str) == ListHas(list, str)
      decreases |p|
    {
      if |p| > |str| && p[..|str| + 1] == str + [0] {
        StoredAtStart(p, str);
        return true;
      }
      if IsStrAt(p, 0, str) {
        HeldAtStart(p, str);
        assert false;
      }
      var e := NulFrom(p, 0);
      if e == |p| {
        return false;
      }
      p := p[e + 1..];
    }
    r := false;
  }

  lemma StoredAtStart(p: seq<byte>, str: seq<byte>)
    requires |p| > |str| && p[..|str| + 1] == str + [0] && 0 !in str
    ensures IsStrAt(p, 0, str)
  {
    forall j | 0 <= j < |str| ensures p[j] == str[j - 0] {
      assert p[..|str| + 1][j] == (str + [0])[j];
    }
    assert p[..|str| + 1][|str|] == (str + [0])[|str|];
  }

  lemma HeldAtStart(p: seq<byte>, str: seq<byte>)
    requires IsStrAt(p, 0, str)
    ensures |p| > |str| && p[..|str| + 1] == str + [0]
  {
    forall j | 0 <= j < |str| ensures p[j] == str[j] {
      assert p[j] == str[j - 0];
    }
  }

  /** A list has a string exactly when it is stored at the start of the list or
      right behind a terminator. */
  lemma {:induction false} ListHasIff(list: seq<byte>, str: seq<byte>)
    requires 0 !in str && str != []
    ensures ListHas(list, str) <==> exists i :: EntryAt(list, i, str)
    decreases |list|
  {
    hide IsStrAt;
    var e := NulFrom(list, 0);
    if IsStrAt(list, 0, str) {
      EntryFits(list, 0, str);
      assert EntryAt(list, 0, str);
    } else if e < |list| {
      var rest := list[e + 1..];
      ListHasIff(rest, str);
      if i :| EntryAt(rest, i, str) {
        EntryFits(rest, i, str);
        EntryMoves(rest, i, list, e + 1, str);
        assert EntryAt(list, i + e + 1, str);
      }
      if i :| EntryAt(list, i, str) {
        EntryFits(list, i, str);
        if i <= e {
          FirstZero(list, i, e);
        }
        EntryBack(rest, list, e + 1, i, str);
        assert EntryAt(rest, i - e - 1, str);
      }
    } else if i :| EntryAt(list, i, str) {
      EntryZero(list, i, str);
      assert false;
    }
  }

  predicate EntryAt(list: seq<byte>, i: int, str: seq<byte>) {
    0 <= i < |list| && IsStrAt(list, i, str) && (i == 0 || list[i - 1] == 0)
  }

  lemma EntryFits(list: seq<byte>, i: int, str: seq<byte>)
    requires IsStrAt(list, i, str)
    ensures 0 <= i && i + |str| < |list|
  {
  }

  lemma EntryZero(list: seq<byte>, i: int, str: seq<byte>)
    requires IsStrAt(list, i, str)
    ensures NulFrom(list, 0) < |list|
  {
    assert list[i + |str|] == 0;
  }

  lemma FirstZero(list: seq<byte>, i: int, e: int)
    requires 0 <= i <= e < |list| && e == NulFrom(list, 0) && (i == 0 || list[i - 1] == 0)
    ensures i == 0
  {
  }

  lemma EntryMoves(rest: seq<byte>, i: int, list: seq<byte>, d: int, str: seq<byte>)
    requires 0 <= d <= |list| && rest == list[d..] && IsStrAt(rest, i, str)
    ensures IsStrAt(list, i + d, str)
  {
    forall j | i + d <= j < i + d + |str| ensures list[j] == str[j - (i + d)] {
      assert rest[j - d] == str[j - d - i];
    }
  }

  lemma EntryBack(rest: seq<byte>, list: seq<byte>, d: int, i: int, str: seq<byte>)
    requires 0 <= d <= |list| && rest == list[d..] && IsStrAt(list, i, str) && d <= i
    ensures IsStrAt(rest, i - d, str)
  {
    forall j | i - d <= j < i - d + |str| ensures rest[j] == str[j - (i - d)] {
      assert list[j + d] == str[j + d - i];
    }
  }

  // ---- what is searched for -----------------------------------------------------------------

  /** A node by name, perhaps compatible with something, or any compatible node, or
      one by phandle. */
  datatype Query = Named(name: seq<byte>, compat: Option<seq<byte>>) | Like(like: seq<byte>) | Numbered(phandle: int)

  predicate Compatible(k: Dt, compat: seq<byte>) {
    VGet(k, COMPATIBLE).Some? && ListHas(VGet(k, COMPATIBLE).value, compat)
  }

  predicate Wanted(q: Query, name: seq<byte>, k: Dt) {
    match q
    case Named(m, c) => name == m && (c.Some? ==> Compatible(k, c.value))
    case Like(c) => Compatible(k, c)
    case Numbered(p) => VPhandle(k) == p
  }

  /** The query is of terminated strings. */
  predicate Strings(q: Query) {
    match q
    case Named(m, c) => 0 !in m && (c.Some? ==> 0 !in c.value)
    case Like(c) => 0 !in c
    case Numbered(_) => true
  }

  /** The first wanted node of a list at any level, outer ones first. */
  function First(off: int, f: Forest, strs: seq<byte>, q: Query): (r: int)
    decreases f
  {
    match f
    case Nil => NOTFOUND
    case Nop(n) => First(off + 4, n, strs, q)
    case Prop(_, v, n) => First(off + PropSize(v), n, strs, q)
    case Sub(m, k, n) =>
      if Wanted(q, m, View(k, strs)) then off
      else
        var r := First(off + HdrSize(m), k, strs, q);
        if r >= 0 then r else First(off + NodeSize(f), n, strs, q)
  }

  /** No node of a list at any level is wanted. */
  predicate Absent(d: Dt, q: Query) {
    match d
    case DNil => true
    case DProp(_, _, n) => Absent(n, q)
    case DNode(m, k, n) => !Wanted(q, m, k) && Absent(k, q) && Absent(n, q)
  }

  lemma {:induction false} FirstFacts(off: int, f: Forest, strs: seq<byte>, q: Query)
    requires off >= 0
    ensures var r := First(off, f, strs, q);
            && (r < 0 <==> Absent(View(f, strs), q)) && (r < 0 ==> r == NOTFOUND)
            && (r >= 0 ==>
                  && r >= off && IsNode(f, r - off)
                  && var x := RestAt(f, r - off).value;
                     Wanted(q, x.name, View(x.kids, strs)))
    decreases f
  {
    hide HdrSize, PropSize, Size, StrAt, Wanted, RestAt;
    var r := First(off, f, strs, q);
    RestHere(f);
    match f
    case Nil =>
    case Nop(n) =>
      FirstFacts(off + 4, n, strs, q);
      if r >= 0 {
        RestOfItemAny(f, r - off);
        RestInside(n, r - off - 4);
      }
    case Prop(_, v, n) =>
      FirstFacts(off + PropSize(v), n, strs, q);
      PropAligned(v);
      if r >= 0 {
        RestOfItemAny(f, r - off);
      }
    case Sub(m, k, n) =>
      HdrSome(m);
      NodePositive(f);
      FirstFacts(off + HdrSize(m), k, strs, q);
      FirstFacts(off + NodeSize(f), n, strs, q);
      if !Wanted(q, m, View(k, strs)) && r >= 0 {
        RestOfItem(f, r - off);
        if First(off + HdrSize(m), k, strs, q) >= 0 {
          NodeRoomFor(k, r - off - HdrSize(m));
          RestInside(k, r - off - HdrSize(m));
        }
      }
  }

  // ---- the searches -----------------------------------------------------------------------------

  /** fdt_node_check_compatible */
  method NodeCheckCompatible(b: Blob, node: int, compat: seq<byte>, ghost f: Forest) returns (r: int)
    requires Holds(b, f) && IsNode(f, node) && 0 !in compat
    ensures r == 0 <==> Compatible(View(RestAt(f, node).value.kids, b.Strings()), compat)
    ensures r == 0 || r == 1 || r == NOTFOUND
  {
    hide HdrSize, PropSize, Size, RestAt, Region, TreeIn, At, PropOff, StrAt, Word, View, VGet, ListHas, Laid;
    ValueHere(b, f, node, COMPATIBLE);
    var off, len := GetProperty(b, node, COMPATIBLE, f);
    if off < 0 {
      return len;
    }
    ghost var v := VGet(View(RestAt(f, node).value.kids, b.Strings()), COMPATIBLE).value;
    var s := b.StructBlock();
    SliceHeld(s, off + 12, v);
    var has := StringListContains(s[off + 12..off + 12 + len], compat);
    r := if has then 0 else 1;
  }

  lemma SliceHeld(s: seq<byte>, p: int, v: seq<byte>)
    requires HoldsAt(s, p, v)
    ensures 0 <= p && p + |v| <= |s| && s[p..p + |v|] == v
  {
    forall j | 0 <= j < |v| ensures s[p..p + |v|][j] == v[j] {
      assert s[p + j] == v[p + j - p];
    }
  }

  /** The condition of the search loops. */
  method CheckNode(b: Blob, node: int, q: Query, ghost f: Forest) returns (r: bool)
    requires Holds(b, f) && IsNode(f, node) && Strings(q)
    ensures var x := RestAt(f, node).value; r == Wanted(q, x.name, View(x.kids, b.Strings()))
  {
    hide HdrSize, PropSize, Size, RestAt, Region, TreeIn, At, StrAt, View, Compatible, Laid, NodeCheck;
    LaidTree(b, f);
    NodeNameHere(b, f, node);
    var check := 0;
    match q {
      case Named(m, c) =>
        var e, name := GetName(b, node);
        if name != m {
          return false;
        }
        if c.Some? {
          check := NodeCheckCompatible(b, node, c.value, f);
        }
      case Like(c) =>
        check := NodeCheckCompatible(b, node, c, f);
      case Numbered(p) =>
        var phandle := GetPhandle(b, node, f);
        return phandle == p;
    }
    r := check == 0;
  }

  /** What a search still has before it. */
  function FirstAhead(off: int, f: Forest, k: Cont, strs: seq<byte>, q: Query): int
    decreases k
  {
    var r := First(off, f, strs, q);
    if r >= 0 || !k.Up? then r else FirstAhead(off + Size(f) + 4, k.next, k.k, strs, q)
  }

  lemma {:induction false} SeekFirst(off: int, f: Forest, k: Cont, strs: seq<byte>, q: Query)
    requires off >= 0
    ensures var s := Seek(off, f, k);
            && (s.Node? ==> FirstAhead(off, f, k, strs, q) == FirstAhead(s.at, s.f, s.k, strs, q) && s.at >= off)
            && (!s.Node? ==> FirstAhead(off, f, k, strs, q) == NOTFOUND)
    decreases k, f
  {
    hide HdrSize, PropSize, Size, StrAt, Wanted;
    SizeStep(f);
    match f
    case Nop(n) => SeekFirst(off + 4, n, k, strs, q);
    case Prop(_, v, n) => SeekFirst(off + PropSize(v), n, k, strs, q);
    case Sub(_, _, _) =>
    case Nil =>
      if k.Up? {
        SeekFirst(off + 4, k.next, k.k, strs, q);
      }
  }

  lemma EnterFirst(at: int, g: Forest, k: Cont, strs: seq<byte>, q: Query)
    requires g.Sub? && at >= 0
    ensures FirstAhead(at, g, k, strs, q) ==
            if Wanted(q, g.name, View(g.kids, strs)) then at
            else FirstAhead(at + HdrSize(g.name), g.kids, Up(at, g.name, g.next, k), strs, q)
  {
    hide HdrSize, PropSize, Size, StrAt, Wanted, First;
    FirstStep(at, g, strs, q);
    HdrSome(g.name);
    FirstFacts(at + HdrSize(g.name), g.kids, strs, q);
    SizeStep(g);
  }

  lemma FirstStep(at: int, g: Forest, strs: seq<byte>, q: Query)
    requires g.Sub?
    ensures var r := First(at + HdrSize(g.name), g.kids, strs, q);
            First(at, g, strs, q) ==
            if Wanted(q, g.name, View(g.kids, strs)) then at
            else if r >= 0 then r else First(at + NodeSize(g), g.next, strs, q)
  {
  }

  /** The loops of xrt_md_get_endpoint, fdt_node_offset_by_compatible and
      fdt_node_offset_by_phandle: from the root on, the first node that is wanted. */
  method SearchNode(b: Blob, q: Query, ghost f: Forest) returns (offset: int)
    requires Holds(b, f) && Strings(q)
    ensures offset == First(0, f, b.Strings(), q)
  {
    hide HdrSize, PropSize, Size, RestAt, Point, NodeHdr, Seek, TreeIn, Region, Laid, FirstAhead, First, View,
      Wanted, At;
    ghost var s, strs := b.StructBlock(), b.Strings();
    SearchStarts(b, f, q);
    VisitStep(s, f, 0, f, Fin);
    SeekFirst(0, f, Fin, strs, q);
    ghost var d;
    ghost var stop := Seek(0, f, Fin);
    offset, d := NextNode(b, -1, 0, false, [], f, Fin);
    while offset >= 0
      invariant stop.Node? || stop.Done?
      invariant if stop.Node? then
                  && offset == stop.at && offset <= |s| && stop.f.Sub?
                  && Visiting(s, f, stop.at, stop.f.name, stop.f.kids, Up(stop.at, stop.f.name, stop.f.next, stop.k))
                  && FirstAhead(stop.at, stop.f, stop.k, strs, q) == First(0, f, strs, q)
                else offset == NOTFOUND && First(0, f, strs, q) == NOTFOUND
      decreases if offset < 0 then 0 else |s| - offset + 1
    {
      ghost var g, k := stop.f, Up(stop.at, stop.f.name, stop.f.next, stop.k);
      EnterFirst(offset, g, stop.k, strs, q);
      var hit := CheckNode(b, offset, q, f);
      if hit {
        return;
      }
      HdrSome(g.name);
      VisitStep(s, f, offset + HdrSize(g.name), g.kids, k);
      SeekFirst(offset + HdrSize(g.name), g.kids, k, strs, q);
      stop := Seek(offset + HdrSize(g.name), g.kids, k);
      offset, d := NextNode(b, offset, 0, false, g.name, g.kids, k);
    }
  }

  lemma SearchStarts(b: Blob, f: Forest, q: Query)
    requires Holds(b, f)
    ensures Laid(b.h, b.buf.Length) && |b.StructBlock()| < INT_LIMIT
    ensures Point(b.StructBlock(), 0, f, Fin) && Fits(f, 0, f, Fin)
    ensures FirstAhead(0, f, Fin, b.Strings(), q) == First(0, f, b.Strings(), q)
  {
    hide At, First, View;
    RestHere(f);
  }
}
