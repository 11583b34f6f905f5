/** The room that merging into a blob can need at most. */
module FdtCost {
  import opened Bytes
  import opened FdtFormat
  import opened FdtTree
  import opened FdtBlob
  import opened Fdt
  import opened FdtRo
  import opened FdtEdits
  import opened FdtRw
  import opened FdtMerge

  /** Bytes that one property can take, in a blob with those strings. */
  ghost function PropCost(strs: seq<byte>, name: seq<byte>, val: seq<byte>): nat {
    PropSize(val) + if StrKnown(strs, name) then 0 else |name| + 1
  }

  ghost function CostProps(strs: seq<byte>, d: Dt): nat {
    match d
    case DProp(name, val, n) => PropCost(strs, name, val) + CostProps(strs, n)
    case _ => 0
  }

  /** Bytes that merging d can need at most. */
  ghost function Cost(strs: seq<byte>, d: Dt): nat
    decreases d, 1
  {
    CostProps(strs, d) + CostKids(strs, d)
  }

  ghost function CostKids(strs: seq<byte>, d: Dt): nat
    decreases d, 0
  {
    match d
    case DNil => 0
    case DProp(_, _, n) => CostKids(strs, n)
    case DNode(name, k, n) => HdrSize(name) + 4 + Cost(strs, k) + CostKids(strs, n)
  }

  lemma KnownStays(strs: seq<byte>, more: seq<byte>, name: seq<byte>)
    requires StrKnown(strs, name)
    ensures StrKnown(strs + more, name)
  {
    var q :| 0 <= q && IsStrAt(strs, q, name);
    forall j | q <= j < q + |name| ensures (strs + more)[j] == name[j - q] {
    }
    assert IsStrAt(strs + more, q, name);
  }

  lemma PropCostLess(strs: seq<byte>, more: seq<byte>, name: seq<byte>, val: seq<byte>)
    ensures PropCost(strs + more, name, val) <= PropCost(strs, name, val)
  {
    hide StrKnown, PropSize;
    if StrKnown(strs, name) {
      KnownStays(strs, more, name);
    }
  }

  /** More strings never cost more. */
  lemma {:induction false} CostPropsLess(strs: seq<byte>, more: seq<byte>, d: Dt)
    ensures CostProps(strs + more, d) <= CostProps(strs, d)
    decreases d
  {
    hide PropCost;
    if d.DProp? {
      PropCostLess(strs, more, d.name, d.val);
      CostPropsLess(strs, more, d.next);
    }
  }

  lemma {:induction false} CostLess(strs: seq<byte>, more: seq<byte>, d: Dt)
    ensures Cost(strs + more, d) <= Cost(strs, d)
    decreases d, 1
  {
    hide CostProps, CostKids;
    CostPropsLess(strs, more, d);
    CostKidsLess(strs, more, d);
  }

  lemma {:induction false} CostKidsLess(strs: seq<byte>, more: seq<byte>, d: Dt)
    ensures CostKids(strs + more, d) <= CostKids(strs, d)
    decreases d, 0
  {
    hide HdrSize, Cost;
    match d
    case DNil =>
    case DProp(_, _, n) => CostKidsLess(strs, more, n);
    case DNode(_, k, n) => CostLess(strs, more, k); CostKidsLess(strs, more, n);
  }

  function Used(h: Header): int {
    h.offStrings + h.sizeStrings
  }

  lemma GrowthBound(k: Forest, strs: seq<byte>, more: seq<byte>, name: seq<byte>, val: seq<byte>)
    requires NamesOk(k, strs + more)
    ensures SetPropGrowth(k, strs + more, name, |val|) <= PropCost(strs, name, val)
  {
    hide PropOff, NamesOk, RestAt, StrKnown;
    PropSizes(val);
    PropFound(0, k, strs + more, name, []);
    PropCostLess(strs, more, name, val);
  }

  lemma HdrPositive(name: seq<byte>)
    ensures HdrSize(name) > 0
  {
  }

  lemma {:induction false} PropsCost(s0: seq<byte>, off: int, f: Forest, strs: seq<byte>)
    requires off >= 0
    ensures var r, d := NextProp(off, f), View(f, strs);
            if r < 0 then CostProps(s0, d) == 0
            else
              var x := SkipNops(f);
              && x.Prop?
              && CostProps(s0, d) == PropCost(s0, StrAt(strs, x.nameoff), x.val) + CostProps(s0, View(x.next, strs))
    decreases f
  {
    hide HdrWords, PropWords, StrAt, PropCost;
    if f.Nop? {
      PropsCost(s0, off + 4, f.next, strs);
    }
  }

  lemma {:induction false} KidsCost(s0: seq<byte>, off: int, f: Forest, strs: seq<byte>)
    requires off >= 0
    ensures var r, d := FirstSub(off, f), View(f, strs);
            && (r < 0 ==> CostKids(s0, d) == 0)
            && (r >= 0 ==>
                  && r >= off && IsNode(f, r - off)
                  && var x := RestAt(f, r - off).value;
                     CostKids(s0, d) ==
                     HdrSize(x.name) + 4 + Cost(s0, View(x.kids, strs)) + CostKids(s0, View(x.next, strs)))
    decreases f
  {
    hide HdrWords, PropWords, StrAt, Cost;
    match f
    case Nil =>
    case Nop(n) => KidsCost(s0, off + 4, n, strs);
    case Prop(_, v, n) => KidsCost(s0, off + PropSize(v), n, strs);
    case Sub(_, _, _) =>
  }
}
