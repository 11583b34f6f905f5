/** When shifting an overlay's phandles and its local references succeeds, read off
    the trees alone. */
module FdtFits {
  import opened Bytes
  import opened FdtTree
  import opened FdtRo
  import opened FdtEdits
  import opened FdtWip
  import opened FdtMerge
  import opened FdtPhandle
  import opened FdtShift
  import opened FdtFixups

  // ---- shapes -----------------------------------------------------------------------

  /** The same names in the same places, with values of the same lengths. */
  predicate VShape(d: Dt, e: Dt) {
    match d
    case DNil => e.DNil?
    case DProp(m, v, n) => e.DProp? && e.name == m && |e.val| == |v| && VShape(n, e.next)
    case DNode(m, k, n) => e.DNode? && e.name == m && VShape(k, e.kids) && VShape(n, e.next)
  }

  lemma {:induction false} VShapeSelf(d: Dt)
    ensures VShape(d, d)
    decreases d
  {
    match d
    case DNil =>
    case DProp(_, _, n) => VShapeSelf(n);
    case DNode(_, k, n) => VShapeSelf(k); VShapeSelf(n);
  }

  lemma {:induction false} VShapeTrans(d: Dt, e: Dt, g: Dt)
    requires VShape(d, e) && VShape(e, g)
    ensures VShape(d, g)
    decreases d
  {
    match d
    case DNil =>
    case DProp(_, _, n) => VShapeTrans(n, e.next, g.next);
    case DNode(_, k, n) => VShapeTrans(k, e.kids, g.kids); VShapeTrans(n, e.next, g.next);
  }

  lemma {:induction false} VShapeGet(d: Dt, e: Dt, name: seq<byte>)
    requires VShape(d, e)
    ensures VGet(d, name).Some? <==> VGet(e, name).Some?
    ensures VGet(d, name).Some? ==> |VGet(d, name).value| == |VGet(e, name).value|
    decreases d
  {
    if d.DProp? {
      VShapeGet(d.next, e.next, name);
    }
  }

  lemma {:induction false} VShapeChild(d: Dt, e: Dt, name: seq<byte>)
    requires VShape(d, e)
    ensures VChild(d, name).Some? <==> VChild(e, name).Some?
    ensures VChild(d, name).Some? ==> VShape(VChild(d, name).value, VChild(e, name).value)
    decreases d
  {
    hide NameEq;
    if !d.DNil? {
      VShapeChild(d.next, e.next, name);
    }
  }

  lemma {:induction false} VShapeOverwrite(d: Dt, name: seq<byte>, w: seq<byte>)
    requires VGet(d, name).Some? && |w| == |VGet(d, name).value|
    ensures VShape(d, VOverwrite(d, name, w))
    decreases d
  {
    if d.name == name {
      VShapeSelf(d.next);
    } else {
      VShapeOverwrite(d.next, name, w);
    }
  }

  lemma {:induction false} VShapePutChild(d: Dt, name: seq<byte>, k: Dt)
    requires VChild(d, name).Some? && VShape(VChild(d, name).value, k)
    ensures VShape(d, VPutChild(d, name, k))
    decreases d
  {
    hide NameEq;
    if d.DNode? && NameEq(d.name, name) {
      VShapeSelf(d.next);
    } else {
      if d.DNode? {
        VShapeSelf(d.kids);
      }
      VShapePutChild(d.next, name, k);
    }
  }

  // ---- fixups that fit --------------------------------------------------------------

  /** Whole words, each the offset of four bytes inside a value of n bytes. */
  predicate CellsFit(n: nat, fix: seq<byte>) {
    |fix| % 4 == 0 && forall j :: 0 <= j < |fix| / 4 ==> Word(fix, 4 * j) + 4 <= n
  }

  predicate PropFits(d: Dt, name: seq<byte>, fix: seq<byte>) {
    VGet(d, name).Some? && CellsFit(|VGet(d, name).value|, fix)
  }

  /** The fixup properties of a node, those in front of its first child, are about
      properties of the node and words inside them. */
  predicate PropsFit(d: Dt, fx: Dt) {
    match fx
    case DProp(name, fix, n) => PropFits(d, name, fix) && PropsFit(d, n)
    case _ => true
  }

  /** ... and its children are about children of the node. */
  predicate SubsFit(d: Dt, fx: Dt)
    decreases fx, 0
  {
    match fx
    case DNil => true
    case DProp(_, _, n) => SubsFit(d, n)
    case DNode(name, k, n) => VChild(d, name).Some? && Fits(VChild(d, name).value, k) && SubsFit(d, n)
  }

  predicate Fits(d: Dt, fx: Dt)
    decreases fx, 1
  {
    PropsFit(d, fx) && SubsFit(d, fx)
  }

  lemma {:induction false} PropsShape(d: Dt, e: Dt, fx: Dt)
    requires VShape(d, e)
    ensures PropsFit(d, fx) <==> PropsFit(e, fx)
    decreases fx
  {
    hide VShape, CellsFit;
    if fx.DProp? {
      VShapeGet(d, e, fx.name);
      PropsShape(d, e, fx.next);
    }
  }

  lemma {:induction false} SubsShape(d: Dt, e: Dt, fx: Dt)
    requires VShape(d, e)
    ensures SubsFit(d, fx) <==> SubsFit(e, fx)
    decreases fx
  {
    hide VShape, PropsFit;
    match fx
    case DNil =>
    case DProp(_, _, n) => SubsShape(d, e, n);
    case DNode(name, k, n) =>
      VShapeChild(d, e, name);
      if VChild(d, name).Some? {
        PropsShape(VChild(d, name).value, VChild(e, name).value, k);
        SubsShape(VChild(d, name).value, VChild(e, name).value, k);
      }
      SubsShape(d, e, n);
  }

  lemma {:induction false} ValueFits(v: seq<byte>, fix: seq<byte>, i: nat, delta: int)
    ensures FixValue(v, fix, i, delta).Some? <==>
            forall j :: i <= j && 4 * j + 4 <= |fix| ==> Word(fix, 4 * j) + 4 <= |v|
    ensures FixValue(v, fix, i, delta).Some? ==> |FixValue(v, fix, i, delta).value| == |v|
    decreases |fix| - 4 * i
  {
    hide Word, Be32, Overwritten;
    if 4 * i + 4 <= |fix| {
      var w := CellFixed(v, Word(fix, 4 * i), delta);
      if w.Some? {
        ValueFits(w.value, fix, i + 1, delta);
      } else {
        assert Word(fix, 4 * i) + 4 > |v|;
      }
    }
  }

  lemma PropIff(d: Dt, name: seq<byte>, fix: seq<byte>, delta: int)
    ensures FixProp(d, name, fix, delta).Some? <==> PropFits(d, name, fix)
    ensures FixProp(d, name, fix, delta).Some? ==> VShape(d, FixProp(d, name, fix, delta).value)
  {
    hide Word, FixValue, VOverwrite, VShape;
    if VGet(d, name).Some? {
      var v := VGet(d, name).value;
      ValueFits(v, fix, 0, delta);
      if |fix| % 4 == 0 && FixValue(v, fix, 0, delta).Some? {
        VShapeOverwrite(d, name, FixValue(v, fix, 0, delta).value);
      }
    }
  }

  lemma {:induction false} PropsIff(d: Dt, fx: Dt, delta: int)
    ensures FixProps(d, fx, delta).Some? <==> PropsFit(d, fx)
    ensures FixProps(d, fx, delta).Some? ==> VShape(d, FixProps(d, fx, delta).value)
    decreases fx
  {
    hide FixProp, PropFits, VShape;
    if fx.DProp? {
      PropIff(d, fx.name, fx.val, delta);
      if FixProp(d, fx.name, fx.val, delta).Some? {
        var e := FixProp(d, fx.name, fx.val, delta).value;
        PropsIff(e, fx.next, delta);
        PropsShape(d, e, fx.next);
        if FixProps(e, fx.next, delta).Some? {
          VShapeTrans(d, e, FixProps(e, fx.next, delta).value);
        }
      }
    } else {
      VShapeSelf(d);
    }
  }

  /** Updating the references succeeds exactly when the fixups fit the tree, whatever
      the offset; it changes no name and no length. */
  lemma {:induction false} FixIff(d: Dt, fx: Dt, delta: int)
    ensures Fix(d, fx, delta).Some? <==> Fits(d, fx)
    ensures Fix(d, fx, delta).Some? ==> VShape(d, Fix(d, fx, delta).value)
    decreases fx, 1
  {
    hide FixProps, FixSubs, PropsFit, SubsFit, VShape;
    PropsIff(d, fx, delta);
    if FixProps(d, fx, delta).Some? {
      var e := FixProps(d, fx, delta).value;
      SubsIff(e, fx, delta);
      SubsShape(d, e, fx);
      if FixSubs(e, fx, delta).Some? {
        VShapeTrans(d, e, FixSubs(e, fx, delta).value);
      }
    }
  }

  lemma {:induction false} SubsIff(d: Dt, fx: Dt, delta: int)
    ensures FixSubs(d, fx, delta).Some? <==> SubsFit(d, fx)
    ensures FixSubs(d, fx, delta).Some? ==> VShape(d, FixSubs(d, fx, delta).value)
    decreases fx, 0
  {
    hide Fix, Fits, VShape, VPutChild;
    match fx
    case DNil => VShapeSelf(d);
    case DProp(_, _, n) => SubsIff(d, n, delta);
    case DNode(name, k, n) =>
      if VChild(d, name).Some? {
        var c := VChild(d, name).value;
        FixIff(c, k, delta);
        if Fix(c, k, delta).Some? {
          VShapePutChild(d, name, Fix(c, k, delta).value);
          var e := VPutChild(d, name, Fix(c, k, delta).value);
          SubsIff(e, n, delta);
          SubsShape(d, e, n);
          if FixSubs(e, n, delta).Some? {
            VShapeTrans(d, e, FixSubs(e, n, delta).value);
          }
        }
      }
  }

  // ---- phandles that can be shifted -------------------------------------------------

  /** The property, if there is one, is a word and stays below all ones. */
  predicate WordFits(d: Dt, name: seq<byte>, delta: int) {
    VGet(d, name).Some? ==> |VGet(d, name).value| == 4 && Word(VGet(d, name).value, 0) + delta < 0xffff_ffff
  }

  predicate PhandlesFit(d: Dt, delta: int) {
    WordFits(d, Ascii("phandle"), delta) && WordFits(d, Ascii("linux,phandle"), delta)
  }

  predicate FitAt(d: Dt, p: seq<Dir>, delta: int) {
    VAt(d, p).Some? && VAt(d, p).value.DNode? ==> PhandlesFit(VAt(d, p).value.kids, delta)
  }

  lemma ShiftIff(d: Dt, delta: int)
    ensures CanShiftBoth(d, delta) <==> PhandlesFit(d, delta)
  {
    hide Ascii, Word, VGet;
    Spelled();
  }

  /** The phandles of a node and everything below can be shifted exactly when those of
      the node can and those at every place below. */
  lemma AdjustableIff(d: Dt, delta: int)
    ensures Adjustable(d, delta) <==> PhandlesFit(d, delta) && forall p :: FitAt(d, p, delta)
  {
    hide CanShiftBoth, KidsAdjustable, PhandlesFit, FitAt;
    ShiftIff(d, delta);
    if KidsAdjustable(d, delta) {
      forall p ensures FitAt(d, p, delta) {
        AdjustableAt(d, p, delta);
      }
    }
    if forall p :: FitAt(d, p, delta) {
      AdjustableAll(d, delta);
    }
  }

  lemma {:induction false} AdjustableAt(d: Dt, p: seq<Dir>, delta: int)
    requires KidsAdjustable(d, delta)
    ensures FitAt(d, p, delta)
    decreases |p|
  {
    hide CanShiftBoth, PhandlesFit;
    if p == [] {
      if d.DNode? {
        ShiftIff(d.kids, delta);
      }
    } else if d.DProp? || (d.DNode? && p[0] == Across) {
      AdjustableAt(d.next, p[1..], delta);
    } else if d.DNode? {
      AdjustableAt(d.kids, p[1..], delta);
    }
  }

  lemma {:induction false} AdjustableAll(d: Dt, delta: int)
    requires forall p :: FitAt(d, p, delta)
    ensures KidsAdjustable(d, delta)
    decreases d
  {
    hide CanShiftBoth, PhandlesFit, FitAt;
    if !d.DNil? {
      forall p ensures FitAt(d.next, p, delta) {
        FitDown(d, p, delta);
      }
      AdjustableAll(d.next, delta);
      if d.DNode? {
        forall p ensures FitAt(d.kids, p, delta) {
          FitDown(d, p, delta);
        }
        AdjustableAll(d.kids, delta);
        FitHere(d, delta);
        ShiftIff(d.kids, delta);
      }
    }
  }

  lemma FitDown(d: Dt, p: seq<Dir>, delta: int)
    requires forall q :: FitAt(d, q, delta)
    ensures !d.DNil? ==> FitAt(d.next, p, delta)
    ensures d.DNode? ==> FitAt(d.kids, p, delta)
  {
    hide PhandlesFit, VAt;
    assert FitAt(d, [Across] + p, delta) && FitAt(d, [Down] + p, delta);
    if !d.DNil? {
      GoAcross(d, p, DNil);
    }
    if d.DNode? {
      GoDown(d, p, DNil);
    }
  }

  lemma FitHere(d: Dt, delta: int)
    requires d.DNode? && forall q :: FitAt(d, q, delta)
    ensures PhandlesFit(d.kids, delta)
  {
    hide PhandlesFit;
    assert FitAt(d, [], delta);
    EmptyPath(d, DNil);
  }
}
