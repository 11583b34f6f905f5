/** fdt_overlay.c: what shifting an overlay's phandles and its local references
    is for. Every reference still names the node it named, and no node of the
    overlay answers to a phandle of the base tree. */
module FdtLinks {
  import opened Bytes
  import opened FdtTree
  import opened FdtRo
  import opened FdtEdits
  import opened FdtWip
  import opened FdtMerge
  import opened FdtPhandle
  import opened FdtShift
  import opened FdtFixups

  // ---- phandles ---------------------------------------------------------------------

  /** The phandle a node carries, if it carries one. */
  function PhandleOf(d: Dt): Option<int> {
    match WordOf(VGet(d, PHANDLE))
    case Some(p) => Some(p)
    case None => WordOf(VGet(d, LINUX_PHANDLE))
  }

  /** Of all nodes below, outer ones first. */
  function Phandles(d: Dt): seq<Option<int>> {
    match d
    case DNil => []
    case DProp(_, _, n) => Phandles(n)
    case DNode(_, k, n) => [PhandleOf(k)] + Phandles(k) + Phandles(n)
  }

  /** A node answers to a phandle other than 0 exactly when one of them carries it. */
  lemma {:induction false} HasIff(d: Dt, p: int)
    requires p != 0
    ensures Has(d, p) <==> Some(p) in Phandles(d)
    decreases d
  {
    hide VPhandle, PhandleOf;
    match d
    case DNil =>
    case DProp(_, _, n) => HasIff(n, p);
    case DNode(_, k, n) =>
      CarriesIff(k, p);
      HasIff(k, p);
      HasIff(n, p);
  }

  lemma CarriesIff(d: Dt, p: int)
    requires p != 0
    ensures VPhandle(d) == p <==> PhandleOf(d) == Some(p)
  {
  }

  function AllPhandles(d: Dt): seq<Option<int>> {
    [PhandleOf(d)] + Phandles(d)
  }

  function PlusOne(p: Option<int>, delta: int): Option<int> {
    if p.Some? then Some(p.value + delta) else None
  }

  function Plus(s: seq<Option<int>>, delta: int): (t: seq<Option<int>>)
    ensures |t| == |s|
  {
    seq(|s|, i requires 0 <= i < |s| => PlusOne(s[i], delta))
  }

  lemma PlusOfSum(s: seq<Option<int>>, t: seq<Option<int>>, delta: int)
    ensures Plus(s + t, delta) == Plus(s, delta) + Plus(t, delta)
  {
  }

  lemma ShiftGet(d: Dt, name: seq<byte>, delta: int)
    requires CanShift(VGet(d, name), delta) && 0 <= delta
    ensures WordOf(VGet(VShift(d, name, delta), name)) == PlusOne(WordOf(VGet(d, name)), delta)
  {
    hide Word, Be32;
    if VGet(d, name).Some? {
      var v := VGet(d, name).value;
      OverwriteTwice(d, name, Shifted(v, delta), v);
      WordOfBe32((Word(v, 0) + delta) % U32_LIMIT);
    }
  }

  lemma AdjustPhandleOf(d: Dt, delta: int)
    requires CanShiftBoth(d, delta) && 0 <= delta
    ensures PhandleOf(VAdjust(d, delta)) == PlusOne(PhandleOf(d), delta)
  {
    hide VGet, VShift, VAdjustKids, WordOf, Word;
    var e := VAdjustKids(d, delta);
    GetKids(d, PHANDLE, delta);
    GetKids(d, LINUX_PHANDLE, delta);
    ShiftGet(e, PHANDLE, delta);
    OtherKept(e, PHANDLE, LINUX_PHANDLE, delta);
    var g := VShift(e, PHANDLE, delta);
    ShiftGet(g, LINUX_PHANDLE, delta);
    OtherKept(g, LINUX_PHANDLE, PHANDLE, delta);
  }

  lemma {:induction false} OverwritePhandles(d: Dt, name: seq<byte>, v: seq<byte>)
    ensures Phandles(VOverwrite(d, name, v)) == Phandles(d)
    decreases d
  {
    hide PhandleOf;
    if d.DProp? {
      OverwritePhandles(d.next, name, v);
    }
  }

  lemma ShiftPhandles(d: Dt, name: seq<byte>, delta: int)
    ensures Phandles(VShift(d, name, delta)) == Phandles(d)
  {
    hide Phandles;
    if VGet(d, name).Some? && |VGet(d, name).value| == 4 {
      OverwritePhandles(d, name, Shifted(VGet(d, name).value, delta));
    }
  }

  lemma {:induction false} AdjustPhandles(d: Dt, delta: int)
    requires KidsAdjustable(d, delta) && 0 <= delta
    ensures Phandles(VAdjust(d, delta)) == Phandles(VAdjustKids(d, delta)) == Plus(Phandles(d), delta)
    decreases d
  {
    hide PhandleOf, Plus, PlusOne, VShift, CanShiftBoth;
    ShiftPhandles(VAdjustKids(d, delta), PHANDLE, delta);
    ShiftPhandles(VShift(VAdjustKids(d, delta), PHANDLE, delta), LINUX_PHANDLE, delta);
    match d
    case DNil => PlusNone(delta);
    case DProp(_, _, n) => AdjustPhandles(n, delta);
    case DNode(_, k, n) =>
      AdjustPhandles(k, delta);
      AdjustPhandles(n, delta);
      AdjustPhandleOf(k, delta);
      PlusHead(PhandleOf(k), delta);
      PlusOfSum([PhandleOf(k)], Phandles(k), delta);
      PlusOfSum([PhandleOf(k)] + Phandles(k), Phandles(n), delta);
  }

  lemma PlusNone(delta: int)
    ensures Plus([], delta) == []
  {
  }

  lemma PlusHead(p: Option<int>, delta: int)
    ensures Plus([p], delta) == [PlusOne(p, delta)]
  {
  }

  // ---- references -------------------------------------------------------------------------

  /** A cell as a reference. */
  function Cell(v: seq<byte>, o: int): int {
    if 0 <= o && o + 4 <= |v| then Word(v, o) else 0
  }

  /** The cells of a value that a fixup value lists, from the i-th on. */
  function Cells(v: seq<byte>, fix: seq<byte>, i: nat): seq<int>
    decreases |fix| - 4 * i
  {
    if 4 * i + 4 > |fix| then [] else [Cell(v, Word(fix, 4 * i))] + Cells(v, fix, i + 1)
  }

  function PropRefs(v: Option<seq<byte>>, fix: seq<byte>): seq<int> {
    if v.Some? then Cells(v.value, fix, 0) else []
  }

  function RefsOfProps(d: Dt, fx: Dt): seq<int>
    decreases fx
  {
    match fx
    case DProp(name, fix, n) => PropRefs(VGet(d, name), fix) + RefsOfProps(d, n)
    case _ => []
  }

  function RefsOfChild(c: Option<Dt>, k: Dt): seq<int>
    decreases k, 2
  {
    if c.Some? then Refs(c.value, k) else []
  }

  function RefsOfSubs(d: Dt, fx: Dt): seq<int>
    decreases fx, 0
  {
    match fx
    case DNil => []
    case DProp(_, _, n) => RefsOfSubs(d, n)
    case DNode(name, k, n) => RefsOfChild(VChild(d, name), k) + RefsOfSubs(d, n)
  }

  /** The values of all references that the fixups list, in their order. */
  function Refs(d: Dt, fx: Dt): seq<int>
    decreases fx, 1
  {
    RefsOfProps(d, fx) + RefsOfSubs(d, fx)
  }

  /** No two listed cells overlap. */
  predicate CellsApart(fix: seq<byte>) {
    forall i, j :: 0 <= i < j < |fix| / 4 ==>
      Word(fix, 4 * i) + 4 <= Word(fix, 4 * j) || Word(fix, 4 * j) + 4 <= Word(fix, 4 * i)
  }

  predicate Lists(fx: Dt, name: seq<byte>) {
    match fx
    case DProp(m, _, n) => m == name || Lists(n, name)
    case _ => false
  }

  predicate PropsApart(fx: Dt) {
    match fx
    case DProp(name, fix, n) => CellsApart(fix) && !Lists(n, name) && PropsApart(n)
    case _ => true
  }

  /** Which item of a list a child name finds. */
  function ChildIx(d: Dt, name: seq<byte>): nat {
    match d
    case DNil => 0
    case DProp(_, _, n) => 1 + ChildIx(n, name)
    case DNode(m, _, n) => if NameEq(m, name) then 0 else 1 + ChildIx(n, name)
  }

  /** None of the fixup children names the i-th item of the list. */
  predicate NotNamed(d: Dt, fx: Dt, i: nat)
    decreases fx
  {
    match fx
    case DNil => true
    case DProp(_, _, n) => NotNamed(d, n, i)
    case DNode(m, _, n) => ChildIx(d, m) != i && NotNamed(d, n, i)
  }

  predicate SubsApart(d: Dt, fx: Dt)
    decreases fx, 0
  {
    match fx
    case DNil => true
    case DProp(_, _, n) => SubsApart(d, n)
    case DNode(name, k, n) =>
      && (VChild(d, name).Some? ==> ListedOnce(VChild(d, name).value, k))
      && NotNamed(d, n, ChildIx(d, name)) && SubsApart(d, n)
  }

  /** The fixups list every cell at most once, and no cells that overlap. */
  predicate ListedOnce(d: Dt, fx: Dt)
    decreases fx, 1
  {
    PropsApart(fx) && SubsApart(d, fx)
  }

  /** No phandle is among what the fixups list. */
  predicate NoPhandles(fx: Dt) {
    match fx
    case DNil => true
    case DProp(name, _, n) => name != PHANDLE && name != LINUX_PHANDLE && NoPhandles(n)
    case DNode(_, k, n) => NoPhandles(k) && NoPhandles(n)
  }

  function Added(s: seq<int>, delta: int): (t: seq<int>)
    ensures |t| == |s|
  {
    seq(|s|, i requires 0 <= i < |s| => (s[i] + delta) % U32_LIMIT)
  }

  lemma AddedSum(s: seq<int>, t: seq<int>, delta: int)
    ensures Added(s + t, delta) == Added(s, delta) + Added(t, delta)
  {
  }

  // ---- one value ---------------------------------------------------------------------------------

  /** Byte p is in none of the cells listed from the i-th on. */
  predicate Outside(fix: seq<byte>, i: nat, p: int) {
    forall j :: i <= j < |fix| / 4 ==> p < Word(fix, 4 * j) || Word(fix, 4 * j) + 4 <= p
  }

  /** Bytes in no listed cell stay. */
  lemma {:induction false} OtherBytes(v: seq<byte>, fix: seq<byte>, i: nat, delta: int, p: int)
    requires FixValue(v, fix, i, delta).Some?
    requires 0 <= p < |v| && Outside(fix, i, p)
    ensures var w := FixValue(v, fix, i, delta).value; |w| == |v| && w[p] == v[p]
    decreases |fix| - 4 * i
  {
    hide Word, Be32;
    if 4 * i + 4 <= |fix| {
      var o := Word(fix, 4 * i);
      OtherBytes(CellFixed(v, o, delta).value, fix, i + 1, delta, p);
    }
  }

  lemma WrittenCell(v: seq<byte>, o: int, n: int)
    requires 0 <= o && o + 4 <= |v| && 0 <= n < U32_LIMIT
    ensures Word(Overwritten(v, o, Be32(n)), o) == n
  {
    hide Word, Be32;
    WordOfBe32(n);
    CellWord(Overwritten(v, o, Be32(n)), o, Be32(n), 0);
  }

  lemma OtherCell(v: seq<byte>, o: int, c: seq<byte>, p: int)
    requires 0 <= o && o + |c| <= |v| && |c| == 4 && 0 <= p && p + 4 <= |v| && (o + 4 <= p || p + 4 <= o)
    ensures Word(Overwritten(v, o, c), p) == Word(v, p)
  {
    hide Word;
    SameCell(v, Overwritten(v, o, c), p);
  }

  lemma CellsBehind(fix: seq<byte>, i: nat, p: int)
    requires CellsApart(fix) && i < |fix| / 4 && Word(fix, 4 * i) <= p < Word(fix, 4 * i) + 4
    ensures Outside(fix, i + 1, p)
  {
    hide Word;
  }

  /** A listed cell holds the sum. */
  lemma {:induction false} FixedCell(v: seq<byte>, fix: seq<byte>, i: nat, delta: int, j: nat)
    requires FixValue(v, fix, i, delta).Some? && CellsApart(fix)
    requires i <= j < |fix| / 4
    ensures var w, o := FixValue(v, fix, i, delta).value, Word(fix, 4 * j);
            o + 4 <= |v| == |w| && Word(w, o) == (Word(v, o) + delta) % U32_LIMIT
    decreases |fix| - 4 * i
  {
    hide Word, Be32, Outside, Overwritten;
    var o := Word(fix, 4 * i);
    var c := (Word(v, o) + delta) % U32_LIMIT;
    var v1 := CellFixed(v, o, delta).value;
    if i < j {
      FixedCell(v1, fix, i + 1, delta, j);
      OtherCell(v, o, Be32(c), Word(fix, 4 * j));
    } else {
      var w := FixValue(v1, fix, i + 1, delta).value;
      forall p | o <= p < o + 4 ensures |w| == |v1| && w[p] == v1[p] {
        CellsBehind(fix, i, p);
        OtherBytes(v1, fix, i + 1, delta, p);
      }
      assert |w| == |v1| by {
        CellsBehind(fix, i, o);
        OtherBytes(v1, fix, i + 1, delta, o);
      }
      SameCell(v1, w, o);
      WrittenCell(v, o, c);
    }
  }

  lemma SameCell(v: seq<byte>, w: seq<byte>, o: int)
    requires 0 <= o && o + 4 <= |v| && |v| == |w| && forall p :: o <= p < o + 4 ==> w[p] == v[p]
    ensures Word(w, o) == Word(v, o)
  {
  }

  lemma {:induction false} CellsAdded(v: seq<byte>, w: seq<byte>, fix: seq<byte>, i: nat, delta: int)
    requires FixValue(v, fix, 0, delta) == Some(w) && CellsApart(fix)
    ensures Cells(w, fix, i) == Added(Cells(v, fix, i), delta)
    decreases |fix| - 4 * i
  {
    hide Word, FixValue, CellsApart;
    if 4 * i + 4 <= |fix| {
      FixedCell(v, fix, 0, delta, i);
      CellsAdded(v, w, fix, i + 1, delta);
    }
  }

  // ---- one property ------------------------------------------------------------------------------------

  lemma {:induction false} OverwriteChildren(d: Dt, name: seq<byte>, v: seq<byte>, m: seq<byte>)
    ensures VChild(VOverwrite(d, name, v), m) == VChild(d, m)
    ensures ChildIx(VOverwrite(d, name, v), m) == ChildIx(d, m)
    decreases d
  {
    hide NameEq;
    if d.DProp? {
      OverwriteChildren(d.next, name, v, m);
    }
  }

  /** The cells of one property, and nothing but that property. */
  lemma FixPropFacts(d: Dt, name: seq<byte>, fix: seq<byte>, delta: int)
    requires FixProp(d, name, fix, delta).Some?
    ensures var e := FixProp(d, name, fix, delta).value;
            && (CellsApart(fix) ==> PropRefs(VGet(e, name), fix) == Added(PropRefs(VGet(d, name), fix), delta))
            && (forall m :: m != name ==> VGet(e, m) == VGet(d, m))
            && (forall m :: VChild(e, m) == VChild(d, m) && ChildIx(e, m) == ChildIx(d, m))
            && Phandles(e) == Phandles(d)
  {
    hide FixValue, CellsApart, Cells, Added, VGet, VOverwrite, VChild, ChildIx, Phandles;
    var v := VGet(d, name).value;
    var w := FixValue(v, fix, 0, delta).value;
    OverwriteTwice(d, name, w, w);
    OverwritePhandles(d, name, w);
    forall m
      ensures VChild(VOverwrite(d, name, w), m) == VChild(d, m)
      ensures ChildIx(VOverwrite(d, name, w), m) == ChildIx(d, m)
    {
      OverwriteChildren(d, name, w, m);
    }
    forall m | m != name ensures VGet(VOverwrite(d, name, w), m) == VGet(d, m) {
      OverwriteOther(d, name, w, m);
    }
    if CellsApart(fix) {
      CellsAdded(v, w, fix, 0, delta);
    }
  }

  // ---- a node's own properties ---------------------------------------------------------------------------

  /** Same items but for the node's own values. */
  ghost predicate SameBelow(d: Dt, e: Dt) {
    && (forall m :: VChild(e, m) == VChild(d, m) && ChildIx(e, m) == ChildIx(d, m))
    && Phandles(e) == Phandles(d)
  }

  lemma {:induction false} FixPropsFacts(d: Dt, fx: Dt, delta: int)
    requires FixProps(d, fx, delta).Some?
    ensures var e := FixProps(d, fx, delta).value;
            && (PropsApart(fx) ==> RefsOfProps(e, fx) == Added(RefsOfProps(d, fx), delta))
            && (forall m :: !Lists(fx, m) ==> VGet(e, m) == VGet(d, m))
            && SameBelow(d, e)
    decreases fx
  {
    hide VGet, VOverwrite, FixProp, CellsApart, PropRefs, Added, VChild, ChildIx, Phandles;
    match fx
    case DProp(name, fix, n) =>
      var e1 := FixProp(d, name, fix, delta).value;
      FixPropFacts(d, name, fix, delta);
      FixPropsFacts(e1, n, delta);
      if PropsApart(fx) {
        SameRefs(d, e1, n, name);
        AddedSum(PropRefs(VGet(d, name), fix), RefsOfProps(d, n), delta);
      }
    case _ => AddedNone(delta);
  }

  lemma AddedNone(delta: int)
    ensures Added([], delta) == []
  {
  }

  lemma {:induction false} SameRefs(d: Dt, e: Dt, fx: Dt, name: seq<byte>)
    requires !Lists(fx, name) && forall m :: m != name ==> VGet(e, m) == VGet(d, m)
    ensures RefsOfProps(e, fx) == RefsOfProps(d, fx)
    decreases fx
  {
    hide VGet, PropRefs;
    if fx.DProp? {
      SameRefs(d, e, fx.next, name);
    }
  }

  // ---- children ----------------------------------------------------------------------------------------------

  lemma {:induction false} PutChildFacts(d: Dt, name: seq<byte>, k: Dt, m: seq<byte>)
    requires VChild(d, name).Some?
    ensures var e := VPutChild(d, name, k);
            && ChildIx(e, m) == ChildIx(d, m)
            && VChild(e, m) == (if ChildIx(d, m) == ChildIx(d, name) then Some(k) else VChild(d, m))
            && VGet(e, m) == VGet(d, m)
            && (Phandles(k) == Phandles(VChild(d, name).value) && PhandleOf(k) == PhandleOf(VChild(d, name).value) ==>
                  Phandles(e) == Phandles(d))
    decreases d
  {
    hide NameEq, PhandleOf;
    match d
    case DProp(_, _, n) => PutChildFacts(n, name, k, m);
    case DNode(c, _, n) =>
      if !NameEq(c, name) {
        PutChildFacts(n, name, k, m);
        if ChildIx(n, m) == ChildIx(n, name) {
          FoundIx(n, name, m);
        }
      }
  }

  /** Names that find the same item find the same child. */
  lemma {:induction false} FoundIx(d: Dt, name: seq<byte>, m: seq<byte>)
    requires ChildIx(d, m) == ChildIx(d, name)
    ensures VChild(d, m) == VChild(d, name)
    decreases d
  {
    hide NameEq;
    if !d.DNil? {
      if d.DProp? || (!NameEq(d.name, m) && !NameEq(d.name, name)) {
        FoundIx(d.next, name, m);
      }
    }
  }

  /** What the fixups of other children refer to stays. */
  lemma {:induction false} OtherRefs(d: Dt, e: Dt, fx: Dt, i: nat)
    requires NotNamed(d, fx, i)
    requires forall m :: ChildIx(e, m) == ChildIx(d, m)
    requires forall m :: ChildIx(d, m) != i ==> VChild(e, m) == VChild(d, m)
    ensures RefsOfSubs(e, fx) == RefsOfSubs(d, fx)
    ensures SubsApart(e, fx) == SubsApart(d, fx)
    decreases fx
  {
    hide VChild, ChildIx, ListedOnce;
    match fx
    case DNil =>
    case DProp(_, _, n) => OtherRefs(d, e, n, i);
    case DNode(name, k, n) =>
      OtherRefs(d, e, n, i);
      SameNamed(d, e, n, ChildIx(d, name));
  }

  lemma {:induction false} SameNamed(d: Dt, e: Dt, fx: Dt, i: nat)
    requires forall m :: ChildIx(e, m) == ChildIx(d, m)
    ensures NotNamed(e, fx, i) == NotNamed(d, fx, i)
    decreases fx
  {
    hide ChildIx;
    if !fx.DNil? {
      SameNamed(d, e, fx.next, i);
    }
  }

  /** The references below a node, and the phandles there. */
  lemma {:induction false} FixSubsFacts(d: Dt, fx: Dt, delta: int)
    requires FixSubs(d, fx, delta).Some? && NoPhandles(fx)
    ensures var e := FixSubs(d, fx, delta).value;
            && (SubsApart(d, fx) ==> RefsOfSubs(e, fx) == Added(RefsOfSubs(d, fx), delta))
            && (forall m :: VGet(e, m) == VGet(d, m) && ChildIx(e, m) == ChildIx(d, m))
            && (forall m :: NotNamed(d, fx, ChildIx(d, m)) ==> VChild(e, m) == VChild(d, m))
            && Phandles(e) == Phandles(d)
    decreases fx, 0
  {
    hide VGet, VChild, ChildIx, Fix, PhandleOf, Phandles, Added, ListedOnce, Refs, NotNamed, VPutChild;
    match fx
    case DNil => AddedNone(delta);
    case DProp(_, _, n) =>
      FixSubsFacts(d, n, delta);
      NotNamedProp(d, fx);
    case DNode(name, k, n) =>
      var c := VChild(d, name).value;
      var ck := Fix(c, k, delta).value;
      var e1 := VPutChild(d, name, ck);
      FixFacts(c, k, delta);
      forall m ensures ChildIx(e1, m) == ChildIx(d, m) && VGet(e1, m) == VGet(d, m)
                       && VChild(e1, m) == (if ChildIx(d, m) == ChildIx(d, name) then Some(ck) else VChild(d, m)) {
        PutChildFacts(d, name, ck, m);
      }
      PutChildFacts(d, name, ck, name);
      FixSubsFacts(e1, n, delta);
      forall m ensures NotNamed(e1, n, ChildIx(d, m)) == NotNamed(d, n, ChildIx(d, m)) {
        SameNamed(d, e1, n, ChildIx(d, m));
      }
      NotNamedNode(d, fx);
      if SubsApart(d, fx) {
        SubsApartNode(d, fx);
        OtherRefs(d, e1, n, ChildIx(d, name));
        AddedSum(Refs(c, k), RefsOfSubs(d, n), delta);
      }
  }

  lemma NotNamedProp(d: Dt, fx: Dt)
    requires fx.DProp?
    ensures forall i :: NotNamed(d, fx, i) == NotNamed(d, fx.next, i)
  {
    hide ChildIx;
  }

  lemma NotNamedNode(d: Dt, fx: Dt)
    requires fx.DNode?
    ensures forall i :: NotNamed(d, fx, i) == (ChildIx(d, fx.name) != i && NotNamed(d, fx.next, i))
  {
    hide ChildIx;
  }

  lemma SubsApartNode(d: Dt, fx: Dt)
    requires fx.DNode? && SubsApart(d, fx)
    ensures NotNamed(d, fx.next, ChildIx(d, fx.name)) && SubsApart(d, fx.next)
    ensures VChild(d, fx.name).Some? ==> ListedOnce(VChild(d, fx.name).value, fx.kids)
  {
  }

  /** Every listed reference has the offset added, once, and no phandle changes. */
  lemma {:induction false} FixFacts(d: Dt, fx: Dt, delta: int)
    requires Fix(d, fx, delta).Some? && NoPhandles(fx)
    ensures var e := Fix(d, fx, delta).value;
            && (ListedOnce(d, fx) ==> Refs(e, fx) == Added(Refs(d, fx), delta))
            && Phandles(e) == Phandles(d) && PhandleOf(e) == PhandleOf(d)
    decreases fx, 1
  {
    hide VGet, VChild, ChildIx, FixProps, FixSubs, Phandles, Added, PropsApart, SubsApart, RefsOfProps, RefsOfSubs,
      WordOf, Lists, NoPhandles;
    var e := FixProps(d, fx, delta).value;
    FixPropsFacts(d, fx, delta);
    FixSubsFacts(e, fx, delta);
    NotListed(fx);
    if ListedOnce(d, fx) {
      SameSubs(d, e, fx);
      SameProps(e, FixSubs(e, fx, delta).value, fx);
      AddedSum(RefsOfProps(d, fx), RefsOfSubs(d, fx), delta);
    }
  }

  lemma {:induction false} NotListed(fx: Dt)
    requires NoPhandles(fx)
    ensures !Lists(fx, PHANDLE) && !Lists(fx, LINUX_PHANDLE)
    decreases fx
  {
    if fx.DProp? {
      NotListed(fx.next);
    }
  }

  lemma {:induction false} SameSubs(d: Dt, e: Dt, fx: Dt)
    requires SameBelow(d, e)
    ensures RefsOfSubs(e, fx) == RefsOfSubs(d, fx) && SubsApart(e, fx) == SubsApart(d, fx)
    decreases fx
  {
    hide VChild, ChildIx, Phandles, ListedOnce, Refs;
    match fx
    case DNil =>
    case DProp(_, _, n) => SameSubs(d, e, n);
    case DNode(name, k, n) =>
      SameSubs(d, e, n);
      SameNamed(d, e, n, ChildIx(d, name));
  }

  lemma {:induction false} SameProps(d: Dt, e: Dt, fx: Dt)
    requires forall m :: VGet(e, m) == VGet(d, m)
    ensures RefsOfProps(e, fx) == RefsOfProps(d, fx)
    decreases fx
  {
    hide VGet, PropRefs;
    if fx.DProp? {
      SameProps(d, e, fx.next);
    }
  }

  // ---- shifting the phandles leaves the references ---------------------------------------------------------------

  lemma {:induction false} AdjustChildren(d: Dt, delta: int, m: seq<byte>)
    ensures ChildIx(VAdjustKids(d, delta), m) == ChildIx(d, m)
    ensures VChild(VAdjustKids(d, delta), m) ==
            match VChild(d, m)
            case None => None
            case Some(c) => Some(VAdjust(c, delta))
    decreases d
  {
    hide NameEq, VAdjust;
    if !d.DNil? {
      AdjustChildren(d.next, delta, m);
    }
  }

  lemma ShiftFacts(d: Dt, name: seq<byte>, delta: int)
    ensures forall m :: VChild(VShift(d, name, delta), m) == VChild(d, m)
                          && ChildIx(VShift(d, name, delta), m) == ChildIx(d, m)
    ensures forall m :: m != name ==> VGet(VShift(d, name, delta), m) == VGet(d, m)
  {
    hide VChild, ChildIx, VOverwrite;
    if VGet(d, name).Some? && |VGet(d, name).value| == 4 {
      var v := Shifted(VGet(d, name).value, delta);
      forall m
        ensures VChild(VOverwrite(d, name, v), m) == VChild(d, m)
        ensures ChildIx(VOverwrite(d, name, v), m) == ChildIx(d, m)
      {
        OverwriteChildren(d, name, v, m);
      }
      forall m | m != name ensures VGet(VOverwrite(d, name, v), m) == VGet(d, m) {
        OverwriteOther(d, name, v, m);
      }
    }
  }

  lemma AdjustFacts(d: Dt, delta: int)
    ensures forall m :: ChildIx(VAdjust(d, delta), m) == ChildIx(d, m)
    ensures forall m :: VChild(VAdjust(d, delta), m) == VChild(VAdjustKids(d, delta), m)
    ensures forall m :: m != PHANDLE && m != LINUX_PHANDLE ==> VGet(VAdjust(d, delta), m) == VGet(d, m)
  {
    hide VChild, ChildIx, VGet, VShift, VAdjustKids;
    var e := VAdjustKids(d, delta);
    ShiftFacts(e, PHANDLE, delta);
    ShiftFacts(VShift(e, PHANDLE, delta), LINUX_PHANDLE, delta);
    forall m ensures ChildIx(e, m) == ChildIx(d, m) && VGet(e, m) == VGet(d, m) {
      AdjustChildren(d, delta, m);
      GetKids(d, m, delta);
    }
  }

  lemma {:induction false} AdjustRefs(d: Dt, fx: Dt, delta: int)
    requires NoPhandles(fx)
    ensures Refs(VAdjust(d, delta), fx) == Refs(d, fx)
    ensures ListedOnce(VAdjust(d, delta), fx) == ListedOnce(d, fx)
    decreases fx, 1
  {
    hide VAdjust, RefsOfProps, RefsOfSubs, SubsApart, PropsApart, VGet, VChild, ChildIx;
    AdjustFacts(d, delta);
    AdjustPropRefs(d, VAdjust(d, delta), fx);
    AdjustSubRefs(d, fx, delta);
  }

  lemma {:induction false} AdjustPropRefs(d: Dt, e: Dt, fx: Dt)
    requires NoPhandles(fx) && forall m :: m != PHANDLE && m != LINUX_PHANDLE ==> VGet(e, m) == VGet(d, m)
    ensures RefsOfProps(e, fx) == RefsOfProps(d, fx)
    decreases fx
  {
    hide VGet, PropRefs;
    if fx.DProp? {
      AdjustPropRefs(d, e, fx.next);
    }
  }

  lemma {:induction false} AdjustSubRefs(d: Dt, fx: Dt, delta: int)
    requires NoPhandles(fx)
    ensures RefsOfSubs(VAdjust(d, delta), fx) == RefsOfSubs(d, fx)
    ensures SubsApart(VAdjust(d, delta), fx) == SubsApart(d, fx)
    decreases fx, 0
  {
    hide VAdjust, VAdjustKids, VGet, VChild, ChildIx, Refs, ListedOnce;
    AdjustFacts(d, delta);
    match fx
    case DNil =>
    case DProp(_, _, n) => AdjustSubRefs(d, n, delta);
    case DNode(name, k, n) =>
      AdjustSubRefs(d, n, delta);
      AdjustChildren(d, delta, name);
      SameNamed(d, VAdjust(d, delta), n, ChildIx(d, name));
      if VChild(d, name).Some? {
        AdjustRefs(VChild(d, name).value, k, delta);
      }
  }

  /** Fixups that list no phandle hold none of their own, so they stay. */
  lemma {:induction false} FixupsKept(fx: Dt, delta: int)
    requires NoPhandles(fx)
    ensures VAdjustKids(fx, delta) == fx && VAdjust(fx, delta) == fx
    ensures VGet(fx, PHANDLE) == None && VGet(fx, LINUX_PHANDLE) == None
    decreases fx
  {
    match fx
    case DNil =>
    case DProp(_, _, n) => FixupsKept(n, delta);
    case DNode(_, k, n) => FixupsKept(k, delta); FixupsKept(n, delta);
  }

  // ---- ranges ------------------------------------------------------------------------------------------------------

  predicate Words32(s: seq<int>) {
    forall i :: 0 <= i < |s| ==> 0 <= s[i] < U32_LIMIT
  }

  lemma {:induction false} CellsInRange(v: seq<byte>, fix: seq<byte>, i: nat)
    ensures Words32(Cells(v, fix, i))
    decreases |fix| - 4 * i
  {
    hide Word;
    if 4 * i + 4 <= |fix| {
      CellsInRange(v, fix, i + 1);
    }
  }

  lemma {:induction false} PropRefsInRange(d: Dt, fx: Dt)
    ensures Words32(RefsOfProps(d, fx))
    decreases fx
  {
    hide VGet, Cells;
    if fx.DProp? {
      PropRefsInRange(d, fx.next);
      if VGet(d, fx.name).Some? {
        CellsInRange(VGet(d, fx.name).value, fx.val, 0);
      }
    }
  }

  lemma {:induction false} SubRefsInRange(d: Dt, fx: Dt)
    ensures Words32(RefsOfSubs(d, fx))
    decreases fx, 0
  {
    hide VChild, Refs;
    match fx
    case DNil =>
    case DProp(_, _, n) => SubRefsInRange(d, n);
    case DNode(name, k, n) =>
      SubRefsInRange(d, n);
      if VChild(d, name).Some? {
        RefsInRange(VChild(d, name).value, k);
      }
  }

  lemma {:induction false} RefsInRange(d: Dt, fx: Dt)
    ensures Words32(Refs(d, fx))
    decreases fx, 1
  {
    hide RefsOfProps, RefsOfSubs;
    PropRefsInRange(d, fx);
    SubRefsInRange(d, fx);
  }

  /** Phandles that stay below 2^32 when delta is added. */
  predicate Roomy(s: seq<Option<int>>, delta: int) {
    forall i :: 0 <= i < |s| && s[i].Some? ==> 0 <= s[i].value && s[i].value + delta < U32_LIMIT
  }

  lemma PhandleRoom(d: Dt, delta: int)
    requires CanShiftBoth(d, delta)
    ensures Roomy([PhandleOf(d)], delta)
  {
    hide Word, VGet;
  }

  lemma {:induction false} PhandlesInRange(d: Dt, delta: int)
    requires KidsAdjustable(d, delta)
    ensures Roomy(Phandles(d), delta)
    decreases d
  {
    hide PhandleOf, CanShiftBoth;
    match d
    case DNil =>
    case DProp(_, _, n) => PhandlesInRange(n, delta);
    case DNode(_, k, n) =>
      PhandlesInRange(k, delta);
      PhandlesInRange(n, delta);
      PhandleRoom(k, delta);
      assert PhandleOf(k) == [PhandleOf(k)][0];
  }

  lemma LinksIff(refs: seq<int>, phs: seq<Option<int>>, delta: int)
    requires Words32(refs) && Roomy(phs, delta) && 0 <= delta
    ensures forall i, j :: 0 <= i < |refs| && 0 <= j < |phs| ==>
              (Plus(phs, delta)[j] == Some(Added(refs, delta)[i]) <==> phs[j] == Some(refs[i]))
  {
  }

  // ---- the whole overlay --------------------------------------------------------------------------------------------

  /** Both passes over an overlay with items d and fixups fx: whichever listed
      reference held whichever node's phandle, before, holds it afterwards, and
      no reference comes to hold another node's. */
  lemma LinksKept(d: Dt, fx: Dt, delta: int, e: Dt)
    requires 0 <= delta && Adjustable(d, delta) && NoPhandles(fx) && ListedOnce(d, fx)
    requires Fix(VAdjust(d, delta), fx, delta) == Some(e)
    ensures AllPhandles(e) == Plus(AllPhandles(d), delta) && Refs(e, fx) == Added(Refs(d, fx), delta)
    ensures forall i, j :: 0 <= i < |Refs(d, fx)| && 0 <= j < |AllPhandles(d)| ==>
              (AllPhandles(e)[j] == Some(Refs(e, fx)[i]) <==> AllPhandles(d)[j] == Some(Refs(d, fx)[i]))
  {
    hide VAdjust, Fix, Refs, ListedOnce, Phandles, PhandleOf, NoPhandles, CanShiftBoth, Plus, Added;
    FixFacts(VAdjust(d, delta), fx, delta);
    AdjustRefs(d, fx, delta);
    AdjustPhandles(d, delta);
    AdjustPhandleOf(d, delta);
    PlusHead(PhandleOf(d), delta);
    PlusOfSum([PhandleOf(d)], Phandles(d), delta);
    RefsInRange(d, fx);
    PhandlesInRange(d, delta);
    PhandleRoom(d, delta);
    assert PhandleOf(d) == [PhandleOf(d)][0];
    LinksIff(Refs(d, fx), AllPhandles(d), delta);
  }

  // ---- apart from the base tree -----------------------------------------------------------------

  lemma {:induction false} MaxHeld(d: Dt)
    requires VMax(d) > 0
    ensures Has(d, VMax(d))
    decreases d
  {
    hide VPhandle;
    match d
    case DProp(_, _, n) => MaxHeld(n);
    case DNode(_, k, n) =>
      if VMax(k) == VMax(d) {
        MaxHeld(k);
      } else if VMax(n) == VMax(d) {
        MaxHeld(n);
      }
  }

  /** With the base tree's largest phandle added, an overlay phandle p is a
      phandle of the base tree exactly when p was 0 (and the base tree has
      phandles): a phandle of at least 1 is never one. */
  lemma ApartFromBase(base: Dt, p: int)
    requires p >= 0 && VMax(base) > 0
    ensures Has(base, p + VMax(base)) <==> p == 0
  {
    hide Has, VMax;
    if p == 0 {
      MaxHeld(base);
    } else if Has(base, p + VMax(base)) {
      MaxBounds(base, p + VMax(base));
    }
  }

  /** How often the words of a fixup value list the cell at o, from the i-th on. */
  function Times(fix: seq<byte>, i: nat, o: int): nat
    decreases |fix| - 4 * i
  {
    if 4 * i + 4 > |fix| then 0 else (if Word(fix, 4 * i) == o then 1 else 0) + Times(fix, i + 1, o)
  }

  /** Each of them lists that cell or none that overlaps it. */
  predicate NoneOverlaps(fix: seq<byte>, i: nat, o: int)
    decreases |fix| - 4 * i
  {
    4 * i + 4 > |fix| ||
    ((Word(fix, 4 * i) == o || Word(fix, 4 * i) + 4 <= o || o + 4 <= Word(fix, 4 * i)) && NoneOverlaps(fix, i + 1, o))
  }

  lemma ModAgain(x: int, y: int)
    ensures (x % U32_LIMIT + y) % U32_LIMIT == (x + y) % U32_LIMIT
  {
    var q := x / U32_LIMIT;
    assert x + y == U32_LIMIT * q + (x % U32_LIMIT + y);
  }

  lemma SumMod(a: int, b: int)
    requires 0 <= a < U32_LIMIT
    ensures (a + b) % U32_LIMIT == a <==> b % U32_LIMIT == 0
  {
    ModAgain(b, a);
  }

  /** A cell moves by the offset as often as it is listed. */
  lemma {:induction false} FixedTimes(v: seq<byte>, fix: seq<byte>, i: nat, delta: int, o: int)
    requires FixValue(v, fix, i, delta).Some? && NoneOverlaps(fix, i, o) && 0 <= o && o + 4 <= |v|
    ensures var w := FixValue(v, fix, i, delta).value;
            |w| == |v| && Word(w, o) == (Word(v, o) + Times(fix, i, o) * delta) % U32_LIMIT
    decreases |fix| - 4 * i
  {
    hide Word, Be32, Overwritten;
    if 4 * i + 4 <= |fix| {
      var p := Word(fix, 4 * i);
      var c := (Word(v, p) + delta) % U32_LIMIT;
      var v1 := CellFixed(v, p, delta).value;
      var n := Times(fix, i + 1, o);
      FixedTimes(v1, fix, i + 1, delta, o);
      if p == o {
        WrittenCell(v, o, c);
        ModAgain(Word(v, o) + delta, n * delta);
        assert Word(v, o) + delta + n * delta == Word(v, o) + (n + 1) * delta;
      } else {
        OtherCell(v, p, Be32(c), o);
      }
    }
  }

  /** A reference to the phandle p that moves with it, while the cell is listed n
      times, names the phandle afterwards if and only if n - 1 offsets are a multiple
      of 2^32. */
  lemma LinkKeptIff(v: seq<byte>, fix: seq<byte>, delta: int, o: int, p: int)
    requires FixValue(v, fix, 0, delta).Some? && NoneOverlaps(fix, 0, o) && 0 <= o && o + 4 <= |v|
    requires Word(v, o) == p && 0 <= p + delta < U32_LIMIT
    ensures var w := FixValue(v, fix, 0, delta).value;
            |w| == |v| && (Word(w, o) == p + delta <==> (Times(fix, 0, o) - 1) * delta % U32_LIMIT == 0)
  {
    hide Word, FixValue, Times;
    FixedTimes(v, fix, 0, delta, o);
    var n := Times(fix, 0, o);
    assert p + n * delta == p + delta + (n - 1) * delta;
    SumMod(p + delta, (n - 1) * delta);
  }

  /** One listing of the only cell of a value. */
  lemma OneListing(v: seq<byte>, fix: seq<byte>, i: nat, delta: int) returns (w: seq<byte>)
    requires |v| == 4 && 4 * i + 4 <= |fix| && Word(fix, 4 * i) == 0
    ensures |w| == 4 && Word(w, 0) == (Word(v, 0) + delta) % U32_LIMIT
    ensures FixValue(v, fix, i, delta) == FixValue(w, fix, i + 1, delta)
  {
    hide Word, Be32;
    w := Be32((Word(v, 0) + delta) % U32_LIMIT);
    WordOfBe32((Word(v, 0) + delta) % U32_LIMIT);
    assert Overwritten(v, 0, w) == w;
  }

  lemma NoneListed(v: seq<byte>, fix: seq<byte>, i: nat, delta: int)
    requires 4 * i >= |fix|
    ensures FixValue(v, fix, i, delta) == Some(v)
  {
  }

  /** A cell listed twice gets the offset twice: without fixups that list cells
      once, the references move away from what they named. */
  lemma ListedTwice(v: seq<byte>, fix: seq<byte>, delta: int)
    requires |v| == 4 && |fix| == 8 && Word(fix, 0) == 0 && Word(fix, 4) == 0 && 0 < delta < INT_LIMIT
    ensures FixValue(v, fix, 0, delta).Some?
    ensures var w := FixValue(v, fix, 0, delta).value;
            |w| == 4 && Word(w, 0) == (Word(v, 0) + 2 * delta) % U32_LIMIT != (Word(v, 0) + delta) % U32_LIMIT
  {
    hide Word, FixValue;
    var once := OneListing(v, fix, 0, delta);
    var twice := OneListing(once, fix, 1, delta);
    NoneListed(twice, fix, 2, delta);
    ModAgain(Word(v, 0) + delta, delta);
    SumMod(Word(once, 0), delta);
    assert delta % U32_LIMIT == delta;
  }
}
