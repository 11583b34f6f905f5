/** When merging an overlay into an empty tree a second time changes nothing,
    whatever its nodes hold: a condition on the names alone. */
module FdtMergeTwice {
  import opened Bytes
  import opened FdtTree
  import opened FdtRo
  import opened FdtEdits
  import opened FdtMerge
  import opened FdtMergeLaws

  /** The nodes of a tree, without their properties. */
  function Nodes(d: Dt): Dt {
    match d
    case DNil => DNil
    case DProp(_, _, n) => Nodes(n)
    case DNode(m, k, n) => DNode(m, Nodes(k), Nodes(n))
  }

  /** No node of the list, by its own name, finds a node of this name. */
  predicate Unfound(d: Dt, name: seq<byte>) {
    match d
    case DNil => true
    case DProp(_, _, n) => Unfound(n, name)
    case DNode(m, _, n) => !NameEq(name, m) && Unfound(n, name)
  }

  /** No name finds an earlier sibling: merged into an empty tree, every node
      becomes a node of its own. */
  predicate AllOwn(d: Dt) {
    match d
    case DNil => true
    case DProp(_, _, n) => AllOwn(n)
    case DNode(m, k, n) => Unfound(n, m) && AllOwn(k) && AllOwn(n)
  }

  /** No name finds a later sibling. */
  predicate NoneLater(d: Dt) {
    match d
    case DNil => true
    case DProp(_, _, n) => NoneLater(n)
    case DNode(m, k, n) => VChild(n, m) == None && NoneLater(k) && NoneLater(n)
  }

  /** ... at this level. */
  predicate TopNoneLater(d: Dt) {
    match d
    case DNil => true
    case DProp(_, _, n) => TopNoneLater(n)
    case DNode(m, _, n) => VChild(n, m) == None && TopNoneLater(n)
  }

  predicate Settled(d: Dt) {
    Merge(Merge(DNil, d), d) == Merge(DNil, d)
  }

  // ---- clear names are enough -----------------------------------------------------------

  lemma {:induction false} OwnsName(d: Dt, name: seq<byte>)
    requires Unfound(d, name)
    ensures VExact(d, name) == None
    decreases d
  {
    SameNameEq(name);
    if !d.DNil? {
      OwnsName(d.next, name);
    }
  }

  lemma {:induction false} NotFoundApart(d: Dt, name: seq<byte>)
    requires VChild(d, name) == None
    ensures Apart(d, name)
    decreases d
  {
    hide NameEq;
    if !d.DNil? {
      NotFoundApart(d.next, name);
    }
  }

  lemma {:induction false} UnfoundBy(d: Dt, name: seq<byte>, r: seq<byte>)
    requires Unfound(d, name) && VExact(d, r).Some?
    ensures !NameEq(name, r)
    decreases d
  {
    hide NameEq;
    if d.DProp? || d.name != r {
      UnfoundBy(d.next, name, r);
    }
  }

  lemma {:induction false} TopOf(d: Dt)
    requires NoneLater(d)
    ensures TopNoneLater(d)
    decreases d
  {
    hide VChild;
    if !d.DNil? {
      TopOf(d.next);
    }
  }

  /** In such a list no name answers to another. */
  lemma {:induction false} TopApart(d: Dt, r: seq<byte>)
    requires AllOwn(d) && TopNoneLater(d) && VExact(d, r).Some?
    ensures Apart(d, r)
    decreases d
  {
    hide NameEq, Unfound;
    if d.DProp? {
      TopApart(d.next, r);
    } else if d.name == r {
      NotFoundApart(d.next, r);
    } else {
      UnfoundBy(d.next, d.name, r);
      TopApart(d.next, r);
    }
  }

  lemma {:induction false} OwnClear(all: Dt, d: Dt)
    requires AllOwn(d) && NoneLater(d) && forall r :: VExact(d, r).Some? ==> Apart(all, r)
    ensures ClearKids(DNil, all, d)
    decreases d
  {
    hide NameEq, Unfound, Apart;
    if !d.DNil? {
      assert forall r :: VExact(d.next, r).Some? ==> VExact(d, r).Some?;
      OwnClear(all, d.next);
      if d.DNode? {
        assert VExact(d, d.name).Some?;
        OwnsName(d.next, d.name);
        NilApart(d.name);
        TopOf(d.kids);
        forall r | VExact(d.kids, r).Some? ensures Apart(d.kids, r) {
          TopApart(d.kids, r);
        }
        OwnClear(d.kids, d.kids);
      }
    }
  }

  lemma NilApart(name: seq<byte>)
    ensures Apart(DNil, name) && VExact(DNil, name) == None
  {
  }

  lemma OwnSettled(d: Dt)
    requires AllOwn(d) && NoneLater(d)
    ensures Settled(d)
  {
    hide Merge, AllOwn, NoneLater, TopNoneLater, Apart, VExact;
    TopOf(d);
    forall r | VExact(d, r).Some? ensures Apart(d, r) {
      TopApart(d, r);
    }
    OwnClear(d, d);
    MergeIdempotent(DNil, d);
  }

  // ---- names are all that counts -----------------------------------------------------------

  lemma {:induction false} UnfoundNodes(d: Dt, name: seq<byte>)
    ensures Unfound(Nodes(d), name) == Unfound(d, name)
    ensures VChild(Nodes(d), name).None? <==> VChild(d, name).None?
    decreases d
  {
    hide NameEq;
    if !d.DNil? {
      UnfoundNodes(d.next, name);
    }
  }

  lemma {:induction false} OwnNodes(d: Dt)
    ensures AllOwn(Nodes(d)) == AllOwn(d) && NoneLater(Nodes(d)) == NoneLater(d)
    decreases d
  {
    hide Unfound, VChild;
    if !d.DNil? {
      OwnNodes(d.next);
      if d.DNode? {
        OwnNodes(d.kids);
        UnfoundNodes(d.next, d.name);
      }
    }
  }

  // ---- a property in every node -------------------------------------------------------------

  /** The nodes of d, each with one property, which bears its own name. */
  function Marked(d: Dt): Dt {
    match d
    case DNil => DNil
    case DProp(_, _, n) => Marked(n)
    case DNode(m, k, n) => DNode(m, DProp(m, [], Marked(k)), Marked(n))
  }

  lemma {:induction false} MarkedNodes(d: Dt)
    ensures Nodes(Marked(d)) == Nodes(d)
    decreases d
  {
    if !d.DNil? {
      MarkedNodes(d.next);
      if d.DNode? {
        MarkedNodes(d.kids);
      }
    }
  }

  /** A list of nodes only. */
  predicate Bare(d: Dt) {
    match d
    case DNil => true
    case DProp(_, _, _) => false
    case DNode(_, _, n) => Bare(n)
  }

  lemma {:induction false} MarkedBare(d: Dt)
    ensures Bare(Marked(d)) && forall b :: MergeProps(b, Marked(d)) == b
    ensures forall q :: VLast(Marked(d), q) == None
    decreases d
  {
    if d.DProp? {
      MarkedBare(d.next);
    } else if d.DNode? {
      MarkedBare(d.next);
    }
  }

  /** A property in front stays where it is while children are merged. */
  lemma {:induction false} PropAside(p: seq<byte>, v: seq<byte>, a: Dt, x: Dt)
    ensures MergeSubs(DProp(p, v, a), x) == DProp(p, v, MergeSubs(a, x))
    decreases x
  {
    hide Merge, NameEq;
    match x
    case DNil =>
    case DProp(_, _, n) => PropAside(p, v, a, n);
    case DNode(name, k, n) =>
      assert MergeChild(DProp(p, v, a), name, k) == DProp(p, v, MergeChild(a, name, k));
      PropAside(p, v, MergeChild(a, name, k), n);
  }

  /** Merging a marked node into nothing, and again into the result. */
  lemma MarkedKid(m: seq<byte>, k: Dt, a: Dt)
    ensures Merge(DNil, DProp(m, [], Marked(k))) == DProp(m, [], Merge(DNil, Marked(k)))
    ensures Merge(DProp(m, [], a), DProp(m, [], Marked(k))) == DProp(m, [], Merge(a, Marked(k)))
  {
    var x := Marked(k);
    MarkedBare(k);
    PropAside(m, [], DNil, x);
    PropAside(m, [], a, x);
    assert VSetProp(DNil, m, []) == DProp(m, [], DNil) && VSetProp(DProp(m, [], a), m, []) == DProp(m, [], a);
    assert MergeProps(DProp(m, [], DNil), x) == DProp(m, [], DNil) && MergeProps(DProp(m, [], a), x) == DProp(m, [], a);
    assert MergeProps(DNil, x) == DNil && MergeProps(a, x) == a;
  }

  // ---- the first merge ------------------------------------------------------------------------

  /** No name of w finds a node of acc. */
  predicate NoneFound(acc: Dt, w: Dt) {
    match acc
    case DNil => true
    case DProp(_, _, n) => NoneFound(n, w)
    case DNode(m, _, n) => Unfound(w, m) && NoneFound(n, w)
  }

  lemma {:induction false} NotThere(acc: Dt, m: seq<byte>, k: Dt, n: Dt)
    requires NoneFound(acc, DNode(m, k, n))
    ensures VChild(acc, m) == None && NoneFound(acc, n)
    decreases acc
  {
    hide NameEq;
    if !acc.DNil? {
      NotThere(acc.next, m, k, n);
    }
  }

  /** The nodes of d, the last in front, each as merged into nothing. */
  function Built(acc: Dt, d: Dt): Dt
    decreases d
  {
    match d
    case DNil => acc
    case DProp(_, _, n) => Built(acc, n)
    case DNode(m, k, n) => Built(DNode(m, Merge(DNil, k), acc), n)
  }

  lemma {:induction false} BuiltIs(acc: Dt, d: Dt)
    requires Bare(acc) && NoneFound(acc, d) && AllOwn(d)
    ensures MergeSubs(acc, d) == Built(acc, d)
    decreases d
  {
    hide Merge, NameEq, Unfound;
    match d
    case DNil =>
    case DProp(_, _, n) =>
      NoneFoundRest(acc, d);
      BuiltIs(acc, n);
    case DNode(m, k, n) =>
      NotThere(acc, m, k, n);
      SameNameEq(m);
      assert VAddChild(acc, m) == DNode(m, DNil, acc);
      assert MergeChild(acc, m, k) == DNode(m, Merge(DNil, k), acc);
      BuiltIs(DNode(m, Merge(DNil, k), acc), n);
  }

  lemma {:induction false} NoneFoundRest(acc: Dt, d: Dt)
    requires d.DProp? && NoneFound(acc, d)
    ensures NoneFound(acc, d.next)
    decreases acc
  {
    hide NameEq;
    if !acc.DNil? {
      NoneFoundRest(acc.next, d);
    }
  }

  // ---- the second merge ---------------------------------------------------------------------

  /** The name of the child a name finds. */
  function NameFound(d: Dt, name: seq<byte>): Option<seq<byte>> {
    match d
    case DNil => None
    case DProp(_, _, n) => NameFound(n, name)
    case DNode(m, _, n) => if NameEq(m, name) then Some(m) else NameFound(n, name)
  }

  /** Some node of the list called x has a property q. */
  predicate HasMark(d: Dt, x: seq<byte>, q: seq<byte>) {
    match d
    case DNil => false
    case DProp(_, _, n) => HasMark(n, x, q)
    case DNode(m, k, n) => (m == x && VGet(k, q).Some?) || HasMark(n, x, q)
  }

  /** All names of the overlay are found. */
  predicate AllFound(e: Dt, w: Dt) {
    match w
    case DNil => true
    case DProp(_, _, n) => AllFound(e, n)
    case DNode(m, _, n) => NameFound(e, m).Some? && AllFound(e, n)
  }

  lemma {:induction false} PutFound(e: Dt, name: seq<byte>, k: Dt, r: seq<byte>)
    ensures NameFound(VPutChild(e, name, k), r) == NameFound(e, r)
    ensures VChild(e, name).Some? <==> NameFound(e, name).Some?
    decreases e
  {
    hide NameEq;
    if !e.DNil? {
      PutFound(e.next, name, k, r);
    }
  }

  lemma {:induction false} PutAllFound(e: Dt, name: seq<byte>, k: Dt, w: Dt)
    requires AllFound(e, w)
    ensures AllFound(VPutChild(e, name, k), w)
    decreases w
  {
    hide VPutChild, NameFound;
    if !w.DNil? {
      PutAllFound(e, name, k, w.next);
      if w.DNode? {
        PutFound(e, name, k, w.name);
      }
    }
  }

  /** New contents with at least the old properties take no mark away, and put one
      on the child the name finds. */
  lemma {:induction false} PutMarks(e: Dt, name: seq<byte>, k: Dt, x: seq<byte>, q: seq<byte>)
    requires VChild(e, name).Some? && (VGet(VChild(e, name).value, q).Some? ==> VGet(k, q).Some?)
    ensures HasMark(e, x, q) ==> HasMark(VPutChild(e, name, k), x, q)
    ensures NameFound(e, name) == Some(x) && VGet(k, q).Some? ==> HasMark(VPutChild(e, name, k), x, q)
    decreases e
  {
    hide NameEq, VGet;
    if e.DProp? || !NameEq(e.name, name) {
      PutMarks(e.next, name, k, x, q);
    }
  }

  /** Merging sets the overlay's properties and takes none away. */
  lemma MergeSets(c: Dt, k: Dt, q: seq<byte>)
    ensures VGet(c, q).Some? || VLast(k, q).Some? ==> VGet(Merge(c, k), q).Some?
  {
    hide MergeSubs, MergeProps;
    MergePropsLaw(c, k, q);
    SubsKeepProps(MergeProps(c, k), k, q);
  }

  lemma {:induction false} SubsKeepProps(d: Dt, ov: Dt, q: seq<byte>)
    ensures VGet(MergeSubs(d, ov), q) == VGet(d, q)
    decreases ov
  {
    hide Merge, MergeChild;
    match ov
    case DNil =>
    case DProp(_, _, n) => SubsKeepProps(d, n, q);
    case DNode(name, k, n) =>
      ChildKeepsProps(d, name, k, q);
      SubsKeepProps(MergeChild(d, name, k), n, q);
  }

  lemma ChildKeepsProps(d: Dt, name: seq<byte>, k: Dt, q: seq<byte>)
    ensures VGet(MergeChild(d, name, k), q) == VGet(d, q)
  {
    hide Merge, VPutChild, VAddChild;
    if VChild(d, name).Some? {
      PutKeepsProps(d, name, Merge(VChild(d, name).value, k), q);
    } else {
      AddChildLaw(d, name, q);
      PutKeepsProps(VAddChild(d, name), name, Merge(DNil, k), q);
    }
  }

  lemma {:induction false} PutKeepsProps(d: Dt, name: seq<byte>, k: Dt, q: seq<byte>)
    ensures VGet(VPutChild(d, name, k), q) == VGet(d, q)
    decreases d
  {
    hide NameEq;
    if d.DProp? {
      PutKeepsProps(d.next, name, k, q);
    }
  }

  /** The list has a node of this name, marked. */
  predicate HasNode(w: Dt, r: seq<byte>) {
    match w
    case DNil => false
    case DProp(_, _, n) => HasNode(n, r)
    case DNode(m, k, n) => (m == r && VLast(k, m).Some?) || HasNode(n, r)
  }

  /** When every name is found, each node of the overlay leaves its mark on the
      child its name finds. */
  lemma {:induction false} LeavesMark(e: Dt, w: Dt, r: seq<byte>, y: seq<byte>)
    requires AllFound(e, w)
    ensures HasMark(e, y, r) ==> HasMark(MergeSubs(e, w), y, r)
    ensures NameFound(e, r) == Some(y) && HasNode(w, r) ==> HasMark(MergeSubs(e, w), y, r)
    decreases w
  {
    hide NameEq, Merge, VGet, VLast, VPutChild, NameFound, HasMark, VChild;
    match w
    case DNil =>
    case DProp(_, _, n) => LeavesMark(e, n, r, y);
    case DNode(m, k, n) =>
      var c := Merge(OrNil(VChild(e, m)), k);
      var e1 := VPutChild(e, m, c);
      PutFound(e, m, c, r);
      PutAllFound(e, m, c, n);
      MergeSets(OrNil(VChild(e, m)), k, r);
      PutMarks(e, m, c, y, r);
      assert MergeChild(e, m, k) == e1;
      LeavesMark(e1, n, r, y);
  }

  /** In the first result each node bears its own mark only. */
  ghost predicate OwnMarks(d: Dt) {
    match d
    case DNil => true
    case DProp(_, _, n) => OwnMarks(n)
    case DNode(m, k, n) => (forall q :: VGet(k, q).Some? ==> q == m) && OwnMarks(n)
  }

  lemma {:induction false} BuiltMarks(acc: Dt, d: Dt)
    requires OwnMarks(acc)
    ensures OwnMarks(Built(acc, Marked(d)))
    decreases d
  {
    hide Merge;
    match d
    case DNil =>
    case DProp(_, _, n) => BuiltMarks(acc, n);
    case DNode(m, k, n) =>
      var x := Merge(DNil, DProp(m, [], Marked(k)));
      forall q | VGet(x, q).Some? ensures q == m {
        MarkedKid(m, k, DNil);
        MarkedBare(k);
        MergePropsLaw(DNil, Marked(k), q);
        SubsKeepProps(DNil, Marked(k), q);
        assert Merge(DNil, Marked(k)) == MergeSubs(DNil, Marked(k)) by {
          MergeIs(DNil, Marked(k));
        }
      }
      BuiltMarks(DNode(m, x, acc), n);
  }

  lemma MergeIs(b: Dt, k: Dt)
    ensures Merge(b, k) == MergeSubs(MergeProps(b, k), k)
  {
  }

  lemma {:induction false} NoOtherMark(d: Dt, y: seq<byte>, r: seq<byte>)
    requires OwnMarks(d) && y != r
    ensures !HasMark(d, y, r)
    decreases d
  {
    hide VGet;
    if !d.DNil? {
      NoOtherMark(d.next, y, r);
    }
  }

  /** What the names of acc or of the nodes to come find. */
  lemma {:induction false} BuiltFinds(acc: Dt, d: Dt, r: seq<byte>)
    ensures NameFound(acc, r).Some? || HasNode(d, r) ==> NameFound(Built(acc, d), r).Some?
    ensures VChild(d, r).Some? ==>
      NameFound(Built(acc, d), r).Some? && VExact(d, NameFound(Built(acc, d), r).value).Some?
    ensures VChild(d, r).None? ==> NameFound(Built(acc, d), r) == NameFound(acc, r)
    decreases d
  {
    hide Merge, NameEq;
    SameNameEq(r);
    match d
    case DNil =>
    case DProp(_, _, n) => BuiltFinds(acc, n, r);
    case DNode(m, k, n) => BuiltFinds(DNode(m, Merge(DNil, k), acc), n, r);
  }

  lemma {:induction false} BuiltAllFound(e: Dt, d: Dt)
    requires forall r :: HasNode(Marked(d), r) ==> NameFound(e, r).Some?
    ensures AllFound(e, Marked(d))
    decreases d
  {
    hide NameFound;
    match d
    case DNil =>
    case DProp(_, _, n) => BuiltAllFound(e, n);
    case DNode(m, k, n) =>
      assert HasNode(Marked(d), m);
      BuiltAllFound(e, n);
  }

  /** A node whose name finds a later sibling finds it in the first result. */
  lemma {:induction false} LaterFound(acc: Dt, d: Dt) returns (r: seq<byte>, y: seq<byte>)
    requires AllOwn(d) && !TopNoneLater(d)
    ensures HasNode(Marked(d), r) && NameFound(Built(acc, Marked(d)), r) == Some(y) && y != r
    decreases d
  {
    hide Merge, NameEq, Unfound;
    match d
    case DProp(_, _, n) => r, y := LaterFound(acc, n);
    case DNode(m, k, n) =>
      var acc1 := DNode(m, Merge(DNil, DProp(m, [], Marked(k))), acc);
      if VChild(n, m) != None {
        r := m;
        MarkedSame(n, m);
        BuiltFinds(acc1, Marked(n), m);
        y := NameFound(Built(acc1, Marked(n)), m).value;
        MarkedSame(n, y);
        OwnsName(n, m);
      } else {
        r, y := LaterFound(acc1, n);
      }
  }

  lemma {:induction false} MarkedSame(d: Dt, r: seq<byte>)
    ensures VChild(Marked(d), r).Some? <==> VChild(d, r).Some?
    ensures VExact(Marked(d), r) ==
            match VExact(d, r) case None => None case Some(k) => Some(DProp(r, [], Marked(k)))
    ensures Unfound(Marked(d), r) == Unfound(d, r)
    decreases d
  {
    hide NameEq;
    if !d.DNil? {
      MarkedSame(d.next, r);
    }
  }

  lemma {:induction false} MarkedOwn(d: Dt)
    ensures AllOwn(Marked(d)) == AllOwn(d) && NoneLater(Marked(d)) == NoneLater(d)
    decreases d
  {
    hide Unfound, VChild;
    if !d.DNil? {
      MarkedOwn(d.next);
      if d.DNode? {
        MarkedOwn(d.kids);
        MarkedSame(d.next, d.name);
      }
    }
  }

  lemma FirstMerge(d: Dt)
    requires AllOwn(d)
    ensures Merge(DNil, Marked(d)) == Built(DNil, Marked(d)) && OwnMarks(Built(DNil, Marked(d)))
    ensures forall e :: Merge(e, Marked(d)) == MergeSubs(e, Marked(d))
  {
    hide MergeSubs, MergeProps, Built, OwnMarks, AllOwn;
    MarkedBare(d);
    MarkedOwn(d);
    NothingMarked();
    BuiltIs(DNil, Marked(d)) by {
      NothingFound(Marked(d));
    }
    BuiltMarks(DNil, d);
    assert MergeProps(DNil, Marked(d)) == DNil;
  }

  lemma NothingMarked()
    ensures OwnMarks(DNil)
  {
  }

  lemma NothingFound(d: Dt)
    ensures NoneFound(DNil, d) && Bare(DNil)
  {
  }

  /** A name that finds a later sibling is merged into that one the second time. */
  lemma TopUnsettled(d: Dt)
    requires AllOwn(d) && !TopNoneLater(d)
    ensures !Settled(Marked(d))
  {
    hide Merge, Built, Marked, AllOwn, OwnMarks, HasMark, NameFound, HasNode, MergeSubs, TopNoneLater, AllFound;
    var w := Marked(d);
    var m := Built(DNil, w);
    FirstMerge(d);
    var r, y := LaterFound(DNil, d);
    forall q | HasNode(w, q) ensures NameFound(m, q).Some? {
      BuiltFinds(DNil, w, q);
    }
    BuiltAllFound(m, d);
    LeavesMark(m, w, r, y);
    NoOtherMark(m, y, r);
    assert Merge(m, w) == MergeSubs(m, w);
  }

  // ---- further down ----------------------------------------------------------------------------

  lemma {:induction false} TopLevel(base: Dt, all: Dt, d: Dt)
    requires AllOwn(d) && forall r :: VExact(d, r).Some? ==> Apart(all, r) && Apart(base, r)
    ensures Level(base, all, d)
    decreases d
  {
    hide NameEq, Unfound, Apart;
    if !d.DNil? {
      if d.DNode? {
        assert VExact(d, d.name).Some?;
        OwnsName(d.next, d.name);
      }
      assert forall r :: VExact(d.next, r).Some? ==> VExact(d, r).Some?;
      TopLevel(base, all, d.next);
    }
  }

  lemma {:induction false} MarkedTop(d: Dt)
    ensures TopNoneLater(Marked(d)) == TopNoneLater(d)
    decreases d
  {
    hide VChild;
    if !d.DNil? {
      MarkedTop(d.next);
      if d.DNode? {
        MarkedSame(d.next, d.name);
      }
    }
  }

  /** A child that is not settled leaves its parent unsettled. */
  lemma KidUnsettled(d: Dt, c: seq<byte>)
    requires AllOwn(d) && TopNoneLater(d) && VExact(d, c).Some? && !Settled(Marked(VExact(d, c).value))
    ensures !Settled(Marked(d))
  {
    hide Merge, Marked, AllOwn, TopNoneLater, VExact, Apart, Level, VLast;
    var w, k := Marked(d), VExact(d, c).value;
    MarkedOwn(d);
    MarkedTop(d);
    MarkedSame(d, c);
    forall r | VExact(w, r).Some? ensures Apart(w, r) && Apart(DNil, r) {
      TopApart(w, r);
      NilApart(r);
    }
    TopLevel(DNil, w, w);
    var m := Merge(DNil, w);
    forall r | VExact(w, r).Some? ensures Apart(m, r) {
      LevelLaw(DNil, w, r);
    }
    TopLevel(m, w, w);
    LevelLaw(DNil, w, c);
    LevelLaw(m, w, c);
    NilApart(c);
    MarkedKid(c, k, Merge(DNil, Marked(k)));
  }

  lemma {:induction false} UnsettledKid(d: Dt) returns (c: seq<byte>)
    requires AllOwn(d) && TopNoneLater(d) && !NoneLater(d)
    ensures VExact(d, c).Some? && AllOwn(VExact(d, c).value) && !NoneLater(VExact(d, c).value)
    ensures VExact(d, c).value < d
    decreases d
  {
    hide NameEq, Unfound;
    match d
    case DProp(_, _, n) => c := UnsettledKid(n);
    case DNode(m, k, n) =>
      if !NoneLater(k) {
        c := m;
      } else {
        c := UnsettledKid(n);
        OwnsName(n, m);
      }
  }

  lemma {:induction false} LaterUnsettled(d: Dt)
    requires AllOwn(d) && !NoneLater(d)
    ensures !Settled(Marked(d))
    decreases d
  {
    hide Settled, Marked, AllOwn, TopNoneLater, VExact, NoneLater;
    if TopNoneLater(d) {
      var c := UnsettledKid(d);
      LaterUnsettled(VExact(d, c).value);
      KidUnsettled(d, c);
    } else {
      TopUnsettled(d);
    }
  }

  /** Every overlay with these nodes is settled. */
  ghost predicate AllSettled(d: Dt) {
    forall w :: Nodes(w) == Nodes(d) ==> Settled(w)
  }

  /** For overlays whose names find no earlier sibling: whatever properties the nodes
      have, merging twice is merging once, if and only if no name finds a later
      sibling either. */
  lemma IdempotentIff(d: Dt)
    requires AllOwn(d)
    ensures AllSettled(d) <==> NoneLater(d)
  {
    hide Settled, Marked, AllOwn, NoneLater, Nodes;
    OwnNodes(d);
    if NoneLater(d) {
      forall w | Nodes(w) == Nodes(d) ensures Settled(w) {
        OwnNodes(w);
        OwnSettled(w);
      }
    } else {
      MarkedNodes(d);
      LaterUnsettled(d);
    }
  }

  /** Once a name does find an earlier sibling, the lists of siblings do not decide
      any more: in none of the three a name finds a later one, yet "g" is first
      merged into "g" and then into the "g@1" that came with "f". */
  lemma AcrossSiblings()
    ensures var f, g := [102], [103];
            var f1, g1 := f + [AT_SIGN, 49], g + [AT_SIGN, 49];
            var d := DNode(f1, DNode(g, DProp([112], [], DNil), DNil), DNode(f, DNode(g1, DNil, DNil), DNil));
            NoneLater(d) && !AllOwn(d) && !Settled(d)
  {
    var f, g := [102], [103];
    var f1, g1 := f + [AT_SIGN, 49], g + [AT_SIGN, 49];
    var p := DProp([112], [], DNil);
    var k, l := DNode(g, p, DNil), DNode(g1, DNil, DNil);
    var d := DNode(f1, k, DNode(f, l, DNil));
    assert f1[..1] == f && g1[..1] == g;
    assert NameEq(f1, f) && !NameEq(f, f1) && NameEq(g1, g) && !NameEq(g, g1);
    assert NameEq(f, f) && NameEq(g, g) && NameEq(f1, f1) && NameEq(g1, g1);
    assert Merge(DNil, p) == p && Merge(DNil, DNil) == DNil;
    assert MergeChild(DNil, g, p) == k && Merge(DNil, k) == k;
    var one := DNode(f1, k, DNil);
    assert MergeChild(DNil, f1, k) == one;
    var both := DNode(g1, DNil, k);
    assert NameEq(g1, g1) && VChild(k, g1) == None && VAddChild(k, g1) == both;
    assert MergeChild(k, g1, DNil) == VPutChild(both, g1, DNil) == both;
    assert Merge(k, l) == MergeSubs(MergeChild(k, g1, DNil), DNil) == both;
    assert MergeChild(one, f, l) == DNode(f1, both, DNil);
    var m := DNode(f1, both, DNil);
    assert Merge(DNil, d) == MergeSubs(one, d.next) == MergeSubs(m, DNil) == m;
    var moved := DNode(g1, p, k);
    assert MergeChild(both, g, p) == moved;
    assert Merge(both, k) == MergeSubs(moved, DNil) == moved;
    var n := DNode(f1, moved, DNil);
    assert MergeChild(m, f1, k) == n;
    assert Merge(p, DNil) == p && MergeChild(moved, g1, DNil) == moved;
    assert Merge(moved, l) == MergeSubs(moved, DNil) == moved;
    assert MergeChild(n, f, l) == n;
    assert Merge(m, d) == MergeSubs(n, d.next) == MergeSubs(n, DNil) == n;
  }
}
