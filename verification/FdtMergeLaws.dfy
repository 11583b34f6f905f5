/** Laws of the merge, stated by lookup: what a path and a property name find
    in the merged tree, for overlays whose sibling names are unambiguous. */
module FdtMergeLaws {
  import opened Bytes
  import opened FdtTree
  import opened FdtRo
  import opened FdtEdits
  import opened FdtMerge

  /** The first child of exactly that name. */
  function VExact(d: Dt, name: seq<byte>): Option<Dt> {
    match d
    case DNil => None
    case DProp(_, _, n) => VExact(n, name)
    case DNode(m, k, n) => if m == name then Some(k) else VExact(n, name)
  }

  function OrNil(d: Option<Dt>): Dt {
    match d case Some(k) => k case None => DNil
  }

  /** No other child name answers to this one. */
  predicate Apart(d: Dt, name: seq<byte>) {
    match d
    case DNil => true
    case DProp(_, _, n) => Apart(n, name)
    case DNode(m, _, n) => (NameEq(m, name) ==> m == name) && Apart(n, name)
  }

  /** The value a list of items gives a property last: the one a merge leaves. */
  function VLast(d: Dt, name: seq<byte>): Option<seq<byte>> {
    match d
    case DProp(m, v, n) => if VLast(n, name).Some? then VLast(n, name) else if m == name then Some(v) else None
    case _ => None
  }

  predicate DistinctProps(d: Dt) {
    match d
    case DProp(m, _, n) => VGet(n, m) == None && DistinctProps(n)
    case _ => true
  }

  /** No node of the tree has two properties of one name. */
  predicate PropsOnce(d: Dt)
    decreases d, 1
  {
    DistinctProps(d) && KidsOnce(d)
  }

  predicate KidsOnce(d: Dt)
    decreases d, 0
  {
    match d
    case DNil => true
    case DProp(_, _, n) => KidsOnce(n)
    case DNode(_, k, n) => PropsOnce(k) && KidsOnce(n)
  }

  lemma {:induction false} OnceChild(d: Dt, name: seq<byte>)
    requires KidsOnce(d) && VExact(d, name).Some?
    ensures PropsOnce(VExact(d, name).value)
    decreases d
  {
    if d.DProp? || d.name != name {
      OnceChild(d.next, name);
    }
  }

  lemma {:induction false} OnceAt(d: Dt, path: seq<seq<byte>>)
    requires PropsOnce(d) && Walk(d, path).Some?
    ensures DistinctProps(Walk(d, path).value)
    decreases |path|
  {
    hide KidsOnce, DistinctProps;
    if path != [] {
      OnceChild(d, path[0]);
      OnceAt(VExact(d, path[0]).value, path[1..]);
    }
  }

  /** Without repetition it is the one a lookup finds. */
  lemma {:induction false} LastIsFirst(d: Dt, name: seq<byte>)
    requires DistinctProps(d)
    ensures VLast(d, name) == VGet(d, name)
    decreases d
  {
    if d.DProp? {
      LastIsFirst(d.next, name);
    }
  }

  /** At this level every name of the overlay stands for one thing in the overlay
      and at most one thing in the base. */
  predicate Level(base: Dt, all: Dt, ov: Dt) {
    match ov
    case DNil => true
    case DProp(_, _, n) => Level(base, all, n)
    case DNode(name, _, n) => Apart(base, name) && Apart(all, name) && VExact(n, name) == None && Level(base, all, n)
  }

  /** ... and at every level below. */
  predicate Clear(base: Dt, ov: Dt)
    decreases ov, 1
  {
    ClearKids(base, ov, ov)
  }

  predicate ClearKids(base: Dt, all: Dt, ov: Dt)
    decreases ov, 0
  {
    match ov
    case DNil => true
    case DProp(_, _, n) => ClearKids(base, all, n)
    case DNode(name, k, n) =>
      && Apart(base, name) && Apart(all, name) && VExact(n, name) == None
      && Clear(OrNil(VExact(base, name)), k)
      && ClearKids(base, all, n)
  }

  lemma {:induction false} ClearLevel(base: Dt, all: Dt, ov: Dt)
    requires ClearKids(base, all, ov)
    ensures Level(base, all, ov)
    decreases ov
  {
    hide Clear, Apart, VExact;
    if !ov.DNil? {
      ClearLevel(base, all, ov.next);
    }
  }

  // ---- one edit ------------------------------------------------------------------------

  lemma {:induction false} ApartFinds(d: Dt, name: seq<byte>)
    requires Apart(d, name)
    ensures VChild(d, name) == VExact(d, name)
    decreases d
  {
    hide NameEq;
    match d
    case DNil =>
    case DProp(_, _, n) => ApartFinds(n, name);
    case DNode(m, _, n) => ApartFinds(n, name); SameNameEq(name);
  }

  lemma SameNameEq(name: seq<byte>)
    ensures NameEq(name, name)
  {
  }

  lemma {:induction false} PutChildLaw(d: Dt, name: seq<byte>, k: Dt, q: seq<byte>)
    requires Apart(d, name)
    ensures VExact(VPutChild(d, name, k), q)
            == if q == name && VExact(d, name).Some? then Some(k) else VExact(d, q)
    ensures VGet(VPutChild(d, name, k), q) == VGet(d, q)
    ensures Apart(VPutChild(d, name, k), q) == Apart(d, q)
    decreases d
  {
    hide NameEq;
    SameNameEq(name);
    match d
    case DNil =>
    case DProp(_, _, n) => PutChildLaw(n, name, k, q);
    case DNode(m, _, n) => PutChildLaw(n, name, k, q);
  }

  lemma {:induction false} AddChildLaw(d: Dt, name: seq<byte>, q: seq<byte>)
    ensures VExact(VAddChild(d, name), q) == if q == name then Some(DNil) else VExact(d, q)
    ensures VGet(VAddChild(d, name), q) == VGet(d, q)
    ensures Apart(VAddChild(d, name), q) == (Apart(d, q) && (NameEq(name, q) ==> name == q))
    decreases d
  {
    hide NameEq;
    if d.DProp? {
      AddChildLaw(d.next, name, q);
    }
  }

  lemma {:induction false} OverwriteLaw(d: Dt, p: seq<byte>, v: seq<byte>, q: seq<byte>)
    requires VGet(d, p).Some?
    ensures VGet(VOverwrite(d, p, v), q) == if q == p then Some(v) else VGet(d, q)
    ensures VExact(VOverwrite(d, p, v), q) == VExact(d, q)
    ensures Apart(VOverwrite(d, p, v), q) == Apart(d, q)
    decreases d
  {
    hide NameEq;
    if d.DProp? && d.name != p {
      OverwriteLaw(d.next, p, v, q);
    }
  }

  lemma SetPropLaw(d: Dt, p: seq<byte>, v: seq<byte>, q: seq<byte>)
    ensures VGet(VSetProp(d, p, v), q) == if q == p then Some(v) else VGet(d, q)
    ensures VExact(VSetProp(d, p, v), q) == VExact(d, q)
    ensures Apart(VSetProp(d, p, v), q) == Apart(d, q)
  {
    if VGet(d, p).Some? {
      OverwriteLaw(d, p, v, q);
    }
  }

  // ---- the merge ---------------------------------------------------------------------------

  lemma {:induction false} MergePropsLaw(base: Dt, ov: Dt, q: seq<byte>)
    ensures VGet(MergeProps(base, ov), q) == if VLast(ov, q).Some? then VLast(ov, q) else VGet(base, q)
    ensures VExact(MergeProps(base, ov), q) == VExact(base, q)
    ensures Apart(MergeProps(base, ov), q) == Apart(base, q)
    decreases ov
  {
    hide VSetProp, NameEq;
    if ov.DProp? {
      SetPropLaw(base, ov.name, ov.val, q);
      MergePropsLaw(VSetProp(base, ov.name, ov.val), ov.next, q);
    }
  }

  lemma MergeChildLaw(base: Dt, name: seq<byte>, ov: Dt, q: seq<byte>)
    requires Apart(base, name)
    ensures var d := MergeChild(base, name, ov);
            && VGet(d, q) == VGet(base, q)
            && VExact(d, q) == (if q == name then Some(Merge(OrNil(VExact(base, name)), ov)) else VExact(base, q))
            && Apart(d, q) == (Apart(base, q) && (NameEq(name, q) ==> name == q))
  {
    hide NameEq, Merge, VPutChild, VAddChild;
    ApartFinds(base, name);
    SameNameEq(name);
    if VExact(base, name).Some? {
      PutChildLaw(base, name, Merge(VExact(base, name).value, ov), q);
      if Apart(base, q) {
        ApartKid(base, name, q);
      }
    } else {
      AddChildLaw(base, name, q);
      AddChildLaw(base, name, name);
      PutChildLaw(VAddChild(base, name), name, Merge(DNil, ov), q);
    }
  }

  lemma {:induction false} ApartKid(d: Dt, m: seq<byte>, q: seq<byte>)
    requires Apart(d, q) && VExact(d, m).Some?
    ensures NameEq(m, q) ==> m == q
    decreases d
  {
    hide NameEq;
    match d
    case DProp(_, _, n) => ApartKid(n, m, q);
    case DNode(c, _, n) =>
      if c != m {
        ApartKid(n, m, q);
      }
  }

  /** Merging children one after another, each name once. */
  lemma {:induction false} MergeSubsLaw(d: Dt, base: Dt, all: Dt, ov: Dt, q: seq<byte>)
    requires Level(base, all, ov)
    requires forall r :: Apart(base, r) && Apart(all, r) ==> Apart(d, r)
    requires forall r :: VExact(ov, r).Some? ==> VExact(d, r) == VExact(base, r)
    requires forall r :: VExact(ov, r).Some? ==> VExact(all, r).Some?
    ensures var m := MergeSubs(d, ov);
            && VGet(m, q) == VGet(d, q)
            && VExact(m, q) == (if VExact(ov, q).Some? then Some(Merge(OrNil(VExact(base, q)), VExact(ov, q).value))
                                else VExact(d, q))
            && (Apart(base, q) && Apart(all, q) ==> Apart(m, q))
    decreases ov
  {
    hide NameEq, Merge, MergeChild;
    match ov
    case DNil =>
    case DProp(_, _, n) => MergeSubsLaw(d, base, all, n, q);
    case DNode(name, k, n) =>
      var e := MergeChild(d, name, k);
      MergeChildLaw(d, name, k, q);
      assert VExact(ov, name) == Some(k);
      forall r | Apart(base, r) && Apart(all, r) ensures Apart(e, r) {
        MergeChildLaw(d, name, k, r);
        ApartKid(all, name, r);
      }
      forall r | VExact(n, r).Some? ensures VExact(e, r) == VExact(base, r) && VExact(all, r).Some? {
        MergeChildLaw(d, name, k, r);
        assert VExact(ov, r).Some?;
      }
      MergeSubsLaw(e, base, all, n, q);
  }

  /** What a name finds in the merge of two nodes. */
  lemma LevelLaw(base: Dt, ov: Dt, q: seq<byte>)
    requires Level(base, ov, ov)
    ensures VGet(Merge(base, ov), q) == if VLast(ov, q).Some? then VLast(ov, q) else VGet(base, q)
    ensures VExact(Merge(base, ov), q) ==
            if VExact(ov, q).Some? then Some(Merge(OrNil(VExact(base, q)), VExact(ov, q).value)) else VExact(base, q)
    ensures Apart(base, q) && Apart(ov, q) ==> Apart(Merge(base, ov), q)
  {
    hide NameEq, MergeSubs, MergeProps, MergeChild, Apart, VExact, VGet, VLast, Level;
    var d := MergeProps(base, ov);
    forall r ensures VExact(d, r) == VExact(base, r) && Apart(d, r) == Apart(base, r) {
      MergePropsLaw(base, ov, r);
    }
    MergePropsLaw(base, ov, q);
    MergeSubsLaw(d, base, ov, ov, q);
  }

  lemma MergeLaw(base: Dt, ov: Dt, q: seq<byte>)
    requires Clear(base, ov)
    ensures VGet(Merge(base, ov), q) == if VLast(ov, q).Some? then VLast(ov, q) else VGet(base, q)
    ensures VExact(Merge(base, ov), q) ==
            if VExact(ov, q).Some? then Some(Merge(OrNil(VExact(base, q)), VExact(ov, q).value)) else VExact(base, q)
    ensures Apart(base, q) && Apart(ov, q) ==> Apart(Merge(base, ov), q)
  {
    hide Merge, Level;
    ClearLevel(base, ov, ov);
    LevelLaw(base, ov, q);
  }

  lemma {:induction false} ClearKid(base: Dt, all: Dt, ov: Dt, name: seq<byte>)
    requires ClearKids(base, all, ov) && VExact(ov, name).Some?
    ensures Clear(OrNil(VExact(base, name)), VExact(ov, name).value)
    ensures Apart(base, name) && Apart(all, name)
    decreases ov
  {
    hide NameEq, Clear;
    match ov
    case DProp(_, _, n) => ClearKid(base, all, n, name);
    case DNode(m, _, n) =>
      if m != name {
        ClearKid(base, all, n, name);
      }
  }

  /** The contents of the node a path of names leads to. */
  function Walk(d: Dt, path: seq<seq<byte>>): Option<Dt>
    decreases |path|
  {
    if path == [] then Some(d)
    else match VExact(d, path[0])
      case Some(k) => Walk(k, path[1..])
      case None => None
  }

  /** The merged tree by lookup: a node exists when it exists in either tree, and
      a property is the overlay's where the overlay has it, else the base's. */
  lemma {:induction false} MergeByPath(base: Dt, ov: Dt, path: seq<seq<byte>>, p: seq<byte>)
    requires Clear(base, ov)
    ensures var m, b, o := Walk(Merge(base, ov), path), Walk(base, path), Walk(ov, path);
            && (m.Some? <==> b.Some? || o.Some?)
            && (m.Some? ==>
                  VGet(m.value, p) ==
                  if o.Some? && VLast(o.value, p).Some? then VLast(o.value, p)
                  else if b.Some? then VGet(b.value, p) else None)
    decreases |path|
  {
    hide NameEq, Merge, Clear;
    if path == [] {
      MergeLaw(base, ov, p);
    } else {
      MergeLaw(base, ov, path[0]);
      match VExact(ov, path[0])
      case None =>
      case Some(k) =>
        ClearOf(base, ov, path[0]);
        MergeByPath(OrNil(VExact(base, path[0])), k, path[1..], p);
        NilWalk(path[1..]);
    }
  }

  lemma ClearOf(base: Dt, ov: Dt, name: seq<byte>)
    requires Clear(base, ov) && VExact(ov, name).Some?
    ensures Clear(OrNil(VExact(base, name)), VExact(ov, name).value)
    ensures Apart(base, name) && Apart(ov, name)
  {
    ClearKid(base, ov, ov, name);
  }

  lemma NilWalk(path: seq<seq<byte>>)
    ensures Walk(DNil, path) == if path == [] then Some(DNil) else None
  {
  }

  // ---- idempotence ----------------------------------------------------------------------------

  /** Merging each node of the overlay again leaves the tree as it is. */
  predicate Absorbs(d: Dt, ov: Dt)
    decreases ov
  {
    match ov
    case DNil => true
    case DProp(_, _, n) => Absorbs(d, n)
    case DNode(name, k, n) =>
      && VChild(d, name).Some? && Absorbs(VChild(d, name).value, k)
      && MergeProps(VChild(d, name).value, k) == VChild(d, name).value
      && Absorbs(d, n)
  }

  lemma {:induction false} SameProp(d: Dt, p: seq<byte>, v: seq<byte>)
    requires VGet(d, p) == Some(v)
    ensures VSetProp(d, p, v) == d
    decreases d
  {
    if d.name != p {
      SameProp(d.next, p, v);
    }
  }

  lemma {:induction false} SameChild(d: Dt, name: seq<byte>, k: Dt)
    requires VChild(d, name) == Some(k)
    ensures VPutChild(d, name, k) == d
    decreases d
  {
    hide NameEq;
    match d
    case DProp(_, _, n) => SameChild(n, name, k);
    case DNode(m, _, n) =>
      if !NameEq(m, name) {
        SameChild(n, name, k);
      }
  }

  lemma {:induction false} OverwriteAgain(d: Dt, p: seq<byte>, v: seq<byte>, q: seq<byte>, w: seq<byte>)
    requires VGet(d, p).Some?
    ensures p == q ==> VSetProp(VOverwrite(d, p, v), q, w) == VSetProp(d, q, w)
    ensures p != q ==> VSetProp(VOverwrite(d, p, v), q, w) == VOverwrite(VSetProp(d, q, w), p, v)
    decreases d
  {
    if d.name != p {
      OverwriteAgain(d.next, p, v, q, w);
    }
  }

  /** A value that will be set later does not matter now. */
  lemma {:induction false} LaterWins(d: Dt, ov: Dt, p: seq<byte>, v: seq<byte>)
    requires VGet(d, p).Some? && VLast(ov, p).Some?
    ensures MergeProps(VOverwrite(d, p, v), ov) == MergeProps(d, ov)
    decreases ov
  {
    hide VSetProp, VOverwrite;
    OverwriteAgain(d, p, v, ov.name, ov.val);
    if ov.name != p {
      SetPropLaw(d, ov.name, ov.val, p);
      LaterWins(VSetProp(d, ov.name, ov.val), ov.next, p, v);
    }
  }

  /** Where every property has the value the overlay gives it last, merging its
      properties again changes nothing. */
  lemma {:induction false} PropsAbsorbed(d: Dt, ov: Dt)
    requires forall q :: VLast(ov, q).Some? ==> VGet(d, q) == VLast(ov, q)
    ensures MergeProps(d, ov) == d
    decreases ov
  {
    hide VOverwrite;
    if ov.DProp? {
      var p := ov.name;
      assert VLast(ov, p).Some?;
      forall q | VLast(ov.next, q).Some? ensures VGet(d, q) == VLast(ov.next, q) {
        assert VLast(ov, q) == VLast(ov.next, q);
      }
      PropsAbsorbed(d, ov.next);
      if VLast(ov.next, p).Some? {
        LaterWins(d, ov.next, p, ov.val);
      } else {
        SameProp(d, p, ov.val);
      }
    }
  }

  lemma {:induction false} SubsAbsorbed(d: Dt, ov: Dt)
    requires Absorbs(d, ov)
    ensures MergeSubs(d, ov) == d
    decreases ov
  {
    hide NameEq, VPutChild, VChild;
    match ov
    case DNil =>
    case DProp(_, _, n) => SubsAbsorbed(d, n);
    case DNode(name, k, n) =>
      var c := VChild(d, name).value;
      SubsAbsorbed(c, k);
      assert Merge(c, k) == c;
      SameChild(d, name, c);
      assert MergeChild(d, name, k) == d;
      SubsAbsorbed(d, n);
  }

  lemma {:induction false} MergeAbsorbs(m: Dt, base: Dt, all: Dt, ov: Dt)
    requires ClearKids(base, all, ov)
    requires forall r :: Apart(base, r) && Apart(all, r) ==> Apart(m, r)
    requires forall r :: VExact(ov, r).Some? ==>
      VExact(m, r) == Some(Merge(OrNil(VExact(base, r)), VExact(ov, r).value))
    ensures Absorbs(m, ov)
    decreases ov, 0
  {
    hide NameEq, Merge, Clear;
    match ov
    case DNil =>
    case DProp(_, _, n) => MergeAbsorbs(m, base, all, n);
    case DNode(name, k, n) =>
      assert VExact(ov, name) == Some(k);
      ApartFinds(m, name);
      ChildAbsorbs(OrNil(VExact(base, name)), k);
      forall r | VExact(n, r).Some?
        ensures VExact(m, r) == Some(Merge(OrNil(VExact(base, r)), VExact(n, r).value))
      {
        assert VExact(ov, r) == VExact(n, r);
      }
      MergeAbsorbs(m, base, all, n);
  }

  lemma {:induction false} ChildAbsorbs(base: Dt, ov: Dt)
    requires Clear(base, ov)
    ensures Absorbs(Merge(base, ov), ov) && MergeProps(Merge(base, ov), ov) == Merge(base, ov)
    decreases ov, 1
  {
    hide NameEq, Merge, Apart, VExact, VGet, VLast, MergeProps;
    var m := Merge(base, ov);
    forall q
      ensures VLast(ov, q).Some? ==> VGet(m, q) == VLast(ov, q)
      ensures Apart(base, q) && Apart(ov, q) ==> Apart(m, q)
      ensures VExact(ov, q).Some? ==> VExact(m, q) == Some(Merge(OrNil(VExact(base, q)), VExact(ov, q).value))
    {
      MergeLaw(base, ov, q);
    }
    PropsAbsorbed(m, ov);
    MergeAbsorbs(m, base, ov, ov);
  }

  /** Merging the same overlay twice gives the same tree as once. */
  lemma MergeIdempotent(base: Dt, ov: Dt)
    requires Clear(base, ov)
    ensures Merge(Merge(base, ov), ov) == Merge(base, ov)
  {
    ChildAbsorbs(base, ov);
    SubsAbsorbed(Merge(base, ov), ov);
  }

  /** Without unambiguous names it is not: "f" finds a later "f@". */
  lemma MergeTwiceDiffers()
    ensures var ov := DNode([102], DProp([112], [], DNil), DNode([102, AT_SIGN], DNil, DNil));
            Merge(Merge(DNil, ov), ov) != Merge(DNil, ov)
  {
    var f, g := [102], [102, AT_SIGN];
    var p := DProp([112], [], DNil);
    var ov := DNode(f, p, DNode(g, DNil, DNil));
    assert g[..1] == f;
    assert NameEq(g, f) && !NameEq(f, g) && NameEq(f, f) && NameEq(g, g);
    assert Merge(DNil, p) == p && Merge(DNil, DNil) == DNil;
    var one := DNode(f, p, DNil);
    assert MergeChild(DNil, f, p) == one;
    assert VChild(one, g) == None && VAddChild(one, g) == DNode(g, DNil, one);
    assert MergeChild(one, g, DNil) == DNode(g, DNil, one);
    assert MergeSubs(DNil, ov) == MergeSubs(one, ov.next) == MergeSubs(DNode(g, DNil, one), DNil);
    var once := DNode(g, DNil, one);
    assert Merge(DNil, ov) == once;
    assert MergeChild(once, f, p) == DNode(g, p, one);
    assert VChild(DNode(g, p, one), g) == Some(p) && Merge(p, DNil) == p;
    assert MergeChild(DNode(g, p, one), g, DNil) == DNode(g, p, one);
    assert MergeSubs(once, ov) == MergeSubs(DNode(g, p, one), ov.next) == MergeSubs(DNode(g, p, one), DNil);
    assert Merge(once, ov) == DNode(g, p, one);
  }
}
