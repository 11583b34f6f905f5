/** The endpoints of a metadata tree: what a search finds among them, and what
    taking them out and merging them back does to them. */
module EndpointTree {
  import opened Bytes
  import opened FdtFormat
  import opened FdtTree
  import opened FdtRo
  import opened FdtEdits
  import opened FdtMerge
  import opened FdtMergeLaws
  import opened FdtCost
  import opened Metadata
  import opened FdtSearch

  // ---- equal by lookup --------------------------------------------------------------

  /** The same nodes and the same values under the same names. */
  ghost predicate Alike(a: Dt, b: Dt) {
    forall path: seq<seq<byte>>, p: seq<byte> :: AlikeAt(a, b, path, p)
  }

  ghost predicate AlikeAt(a: Dt, b: Dt, path: seq<seq<byte>>, p: seq<byte>) {
    && (Walk(a, path).Some? <==> Walk(b, path).Some?)
    && (Walk(a, path).Some? ==> VGet(Walk(a, path).value, p) == VGet(Walk(b, path).value, p))
  }

  lemma AlikeSelf(a: Dt)
    ensures Alike(a, a)
  {
  }

  lemma AlikeTrans(a: Dt, b: Dt, c: Dt)
    requires Alike(a, b) && Alike(b, c)
    ensures Alike(a, c)
  {
    hide AlikeAt;
    forall path: seq<seq<byte>>, p: seq<byte> ensures AlikeAt(a, c, path, p) {
      assert AlikeAt(a, b, path, p) && AlikeAt(b, c, path, p);
      AlikeChain(a, b, c, path, p);
    }
  }

  lemma AlikeChain(a: Dt, b: Dt, c: Dt, path: seq<seq<byte>>, p: seq<byte>)
    requires AlikeAt(a, b, path, p) && AlikeAt(b, c, path, p)
    ensures AlikeAt(a, c, path, p)
  {
    hide Walk, VGet;
  }

  /** A copy into an empty node is like its source. */
  lemma AlikeMerged(d: Dt)
    requires Clear(DNil, d) && PropsOnce(d)
    ensures Alike(Merge(DNil, d), d)
  {
    hide Merge, Clear, Walk, VGet, VLast, PropsOnce, DistinctProps;
    forall path: seq<seq<byte>>, p: seq<byte> ensures AlikeAt(Merge(DNil, d), d, path, p) {
      MergeByPath(DNil, d, path, p);
      if Walk(d, path).Some? {
        OnceAt(d, path);
        LastIsFirst(Walk(d, path).value, p);
      }
      NilWalk(path);
      NilGet(p);
      if path == [] {
        WalkHere(d);
      }
    }
  }

  lemma NilGet(p: seq<byte>)
    ensures VGet(DNil, p) == None
  {
  }

  lemma WalkHere(d: Dt)
    ensures Walk(d, []) == Some(d)
  {
  }

  // ---- orderly trees -------------------------------------------------------------------

  /** What searches ask for. */
  datatype Limits = Limits(names: set<seq<byte>>, compats: set<seq<byte>>)

  /** The node is compatible with nothing that is asked for. */
  ghost predicate Unasked(k: Dt, lim: Limits) {
    forall c :: c in lim.compats ==> !Compatible(k, c)
  }

  /** Unambiguous names, at most n levels, no value as long as a blob, and no node
      that a search is for. */
  ghost predicate Fine(d: Dt, lim: Limits, n: int)
    decreases d, 1
  {
    DistinctProps(d) && ShortProps(d) && FineKids(d, d, lim, n)
  }

  ghost predicate FineKid(all: Dt, m: seq<byte>, k: Dt, lim: Limits, n: int)
    decreases k, 2
  {
    m !in lim.names && Unasked(k, lim) && n > 0 && Fine(k, lim, n - 1) && Apart(all, m)
  }

  ghost predicate FineKids(all: Dt, d: Dt, lim: Limits, n: int)
    decreases d, 0
  {
    match d
    case DNil => true
    case DProp(_, _, r) => FineKids(all, r, lim, n)
    case DNode(m, k, r) => FineKid(all, m, k, lim, n) && VExact(r, m) == None && FineKids(all, r, lim, n)
  }

  /** No two children have the same name. */
  predicate Singles(d: Dt) {
    match d
    case DNil => true
    case DProp(_, _, n) => Singles(n)
    case DNode(m, _, n) => VExact(n, m) == None && Singles(n)
  }

  lemma {:induction false} FineChild(all: Dt, d: Dt, lim: Limits, n: int, m: seq<byte>)
    requires FineKids(all, d, lim, n) && VExact(d, m).Some?
    ensures FineKid(all, m, VExact(d, m).value, lim, n)
    decreases d
  {
    hide FineKid;
    if d.DProp? || d.name != m {
      FineChild(all, d.next, lim, n, m);
    }
  }

  lemma {:induction false} FineByName(all: Dt, d: Dt, lim: Limits, n: int)
    requires Singles(d) && forall m :: VExact(d, m).Some? ==> FineKid(all, m, VExact(d, m).value, lim, n)
    ensures FineKids(all, d, lim, n)
    decreases d
  {
    hide FineKid;
    if !d.DNil? {
      if d.DNode? {
        assert VExact(d, d.name) == Some(d.kids);
      }
      forall m | VExact(d.next, m).Some? ensures FineKid(all, m, VExact(d.next, m).value, lim, n) {
        assert VExact(d, m) == VExact(d.next, m);
      }
      FineByName(all, d.next, lim, n);
    }
  }

  lemma {:induction false} ShortPropOf(d: Dt, p: seq<byte>)
    requires ShortProps(d) && VGet(d, p).Some?
    ensures |VGet(d, p).value| < MAX_BLOB_SIZE
    decreases d
  {
    if d.name != p {
      ShortPropOf(d.next, p);
    }
  }

  lemma {:induction false} ShortByName(d: Dt)
    requires DistinctProps(d) && forall p :: VGet(d, p).Some? ==> |VGet(d, p).value| < MAX_BLOB_SIZE
    ensures ShortProps(d)
    decreases d
  {
    if d.DProp? {
      assert VGet(d, d.name) == Some(d.val);
      forall p | VGet(d.next, p).Some? ensures |VGet(d.next, p).value| < MAX_BLOB_SIZE {
        assert VGet(d, p) == VGet(d.next, p);
      }
      ShortByName(d.next);
    }
  }

  lemma {:induction false} FineClear(d: Dt, lim: Limits, n: int)
    requires Fine(d, lim, n)
    ensures Clear(DNil, d) && Singles(d) && PropsOnce(d)
    decreases d, 1
  {
    hide NameEq, FineKids, ShortProps, Unasked;
    FineClearKids(d, d, lim, n);
  }

  lemma {:induction false} FineClearKids(all: Dt, d: Dt, lim: Limits, n: int)
    requires FineKids(all, d, lim, n)
    ensures ClearKids(DNil, all, d) && Singles(d) && KidsOnce(d)
    decreases d, 0
  {
    hide NameEq, Fine, Unasked, Clear;
    match d
    case DNil =>
    case DProp(_, _, r) => FineClearKids(all, r, lim, n);
    case DNode(m, k, r) =>
      FineClear(k, lim, n - 1);
      FineClearKids(all, r, lim, n);
  }

  // ---- copies stay orderly ---------------------------------------------------------------

  lemma {:induction false} SetPropDistinct(d: Dt, p: seq<byte>, v: seq<byte>)
    requires DistinctProps(d)
    ensures DistinctProps(VSetProp(d, p, v))
  {
    if VGet(d, p).Some? {
      OverwriteDistinct(d, p, v);
    }
  }

  lemma {:induction false} OverwriteDistinct(d: Dt, p: seq<byte>, v: seq<byte>)
    requires DistinctProps(d) && VGet(d, p).Some?
    ensures DistinctProps(VOverwrite(d, p, v))
    decreases d
  {
    if d.name != p {
      OverwriteDistinct(d.next, p, v);
      OverwriteLaw(d.next, p, v, d.name);
    }
  }

  lemma {:induction false} AddChildDistinct(d: Dt, name: seq<byte>, k: Dt)
    requires DistinctProps(d)
    ensures DistinctProps(VAddChild(d, name)) && DistinctProps(VPutChild(d, name, k))
    decreases d
  {
    if d.DProp? {
      AddChildDistinct(d.next, name, k);
      AddChildLaw(d.next, name, d.name);
      PutChildGet(d.next, name, k, d.name);
    }
  }

  lemma {:induction false} PutChildGet(d: Dt, name: seq<byte>, k: Dt, p: seq<byte>)
    ensures VGet(VPutChild(d, name, k), p) == VGet(d, p)
    decreases d
  {
    if d.DProp? {
      PutChildGet(d.next, name, k, p);
    }
  }

  /** A merge keeps names single: a child is only added when none answers to the name. */
  lemma {:induction false} PutChildSingles(d: Dt, name: seq<byte>, k: Dt)
    requires Singles(d)
    ensures Singles(VPutChild(d, name, k))
    ensures forall m :: VExact(VPutChild(d, name, k), m).Some? <==> VExact(d, m).Some?
    decreases d
  {
    hide NameEq;
    if !d.DNil? {
      PutChildSingles(d.next, name, k);
    }
  }

  lemma {:induction false} AddChildSingles(d: Dt, name: seq<byte>)
    requires Singles(d) && VChild(d, name).None?
    ensures Singles(VAddChild(d, name))
    decreases d
  {
    hide NameEq;
    NotThere(d, name);
    if d.DProp? {
      AddChildSingles(d.next, name);
    }
  }

  lemma {:induction false} NotThere(d: Dt, name: seq<byte>)
    requires VChild(d, name).None?
    ensures VExact(d, name).None?
    decreases d
  {
    hide NameEq;
    if !d.DNil? {
      NotThere(d.next, name);
      SameNameEq(name);
    }
  }

  lemma ChildOrderly(d: Dt, name: seq<byte>, ov: Dt)
    ensures Singles(d) ==> Singles(MergeChild(d, name, ov))
    ensures DistinctProps(d) ==> DistinctProps(MergeChild(d, name, ov))
  {
    hide NameEq, Merge, Singles, DistinctProps, VPutChild, VAddChild;
    if VChild(d, name).Some? {
      var k := Merge(VChild(d, name).value, ov);
      if Singles(d) {
        PutChildSingles(d, name, k);
      }
      if DistinctProps(d) {
        AddChildDistinct(d, name, k);
      }
    } else {
      if Singles(d) {
        AddChildSingles(d, name);
        PutChildSingles(VAddChild(d, name), name, Merge(DNil, ov));
      }
      if DistinctProps(d) {
        AddChildDistinct(d, name, DNil);
        AddChildDistinct(VAddChild(d, name), name, Merge(DNil, ov));
      }
    }
  }

  lemma {:induction false} SubsOrderly(d: Dt, ov: Dt)
    ensures Singles(d) ==> Singles(MergeSubs(d, ov))
    ensures DistinctProps(d) ==> DistinctProps(MergeSubs(d, ov))
    decreases ov
  {
    hide MergeChild, Singles, DistinctProps;
    match ov
    case DNil =>
    case DProp(_, _, n) => SubsOrderly(d, n);
    case DNode(name, k, n) =>
      ChildOrderly(d, name, k);
      SubsOrderly(MergeChild(d, name, k), n);
  }

  lemma {:induction false} PropsOrderly(d: Dt, ov: Dt)
    ensures Singles(d) ==> Singles(MergeProps(d, ov))
    ensures DistinctProps(d) ==> DistinctProps(MergeProps(d, ov))
    decreases ov
  {
    hide Singles, DistinctProps, VSetProp;
    if ov.DProp? {
      if DistinctProps(d) {
        SetPropDistinct(d, ov.name, ov.val);
      }
      if Singles(d) {
        SetPropSingles(d, ov.name, ov.val);
      }
      PropsOrderly(VSetProp(d, ov.name, ov.val), ov.next);
    }
  }

  lemma SetPropSingles(d: Dt, p: seq<byte>, v: seq<byte>)
    requires Singles(d)
    ensures Singles(VSetProp(d, p, v))
  {
    OverwriteSingles(d, p, v);
  }

  lemma {:induction false} OverwriteSingles(d: Dt, p: seq<byte>, v: seq<byte>)
    requires Singles(d)
    ensures Singles(VOverwrite(d, p, v))
    decreases d
  {
    if d.DProp? {
      OverwriteSingles(d.next, p, v);
    }
  }

  lemma MergeOrderly(d: Dt, ov: Dt)
    ensures Singles(d) ==> Singles(Merge(d, ov))
    ensures DistinctProps(d) ==> DistinctProps(Merge(d, ov))
  {
    hide MergeSubs, MergeProps, Singles, DistinctProps;
    PropsOrderly(d, ov);
    SubsOrderly(MergeProps(d, ov), ov);
  }

  /** A copy of an orderly tree into an empty node is orderly. */
  lemma {:induction false} FineMerged(d: Dt, lim: Limits, n: int)
    requires Fine(d, lim, n)
    ensures Fine(Merge(DNil, d), lim, n)
    decreases d
  {
    hide Merge, Clear, VExact, VGet, VLast, Singles, DistinctProps, FineKids, ShortProps, FineKid, NameEq, Apart,
      PropsOnce;
    var m := Merge(DNil, d);
    FineClear(d, lim, n);
    MergeOrderly(DNil, d);
    NilOrderly();
    forall p | VGet(m, p).Some? ensures |VGet(m, p).value| < MAX_BLOB_SIZE {
      MergeLaw(DNil, d, p);
      LastIsFirst(d, p);
      NilGet(p);
      ShortPropOf(d, p);
    }
    ShortByName(m);
    forall c | VExact(m, c).Some? ensures FineKid(m, c, VExact(m, c).value, lim, n) {
      FineMergedChild(d, lim, n, c);
    }
    FineByName(m, m, lim, n);
  }

  lemma NilOrderly()
    ensures Singles(DNil) && DistinctProps(DNil) && forall m :: VExact(DNil, m) == None && Apart(DNil, m)
  {
  }

  lemma {:induction false} FineMergedChild(d: Dt, lim: Limits, n: int, c: seq<byte>)
    requires Fine(d, lim, n) && VExact(Merge(DNil, d), c).Some?
    ensures FineKid(Merge(DNil, d), c, VExact(Merge(DNil, d), c).value, lim, n)
    decreases d, 0
  {
    hide Merge, Clear, VExact, VGet, Singles, DistinctProps, FineKids, ShortProps, NameEq, Apart, Compatible, Unasked;
    FineClear(d, lim, n);
    MergeLaw(DNil, d, c);
    NilOrderly();
    var k := VExact(d, c).value;
    FineChild(d, d, lim, n, c);
    ChildSmallerThan(d, c);
    FineMerged(k, lim, n - 1);
    FineClear(k, lim, n - 1);
    UnaskedMerged(k, lim);
  }

  lemma {:induction false} ChildSmallerThan(d: Dt, c: seq<byte>)
    requires VExact(d, c).Some?
    ensures VExact(d, c).value < d
    decreases d
  {
    if d.DProp? || d.name != c {
      ChildSmallerThan(d.next, c);
    }
  }

  lemma UnaskedMerged(k: Dt, lim: Limits)
    requires Clear(DNil, k) && DistinctProps(k) && Unasked(k, lim)
    ensures Unasked(Merge(DNil, k), lim)
  {
    hide Merge, Clear, VGet, VLast, DistinctProps, ListHas;
    MergeLaw(DNil, k, COMPATIBLE);
    LastIsFirst(k, COMPATIBLE);
    NilGet(COMPATIBLE);
  }

  // ---- limits of copying -------------------------------------------------------------------

  lemma {:induction false} FineAcceptable(d: Dt, lim: Limits, n: int)
    requires Fine(d, lim, n) && n >= 0
    ensures Levels(d) <= n && Short(d)
    decreases d, 1
  {
    hide FineKids;
    FineKidsAcceptable(d, d, lim, n);
  }

  lemma {:induction false} FineKidsAcceptable(all: Dt, d: Dt, lim: Limits, n: int)
    requires FineKids(all, d, lim, n) && n >= 0
    ensures Levels(d) <= n && ShortKids(d)
    decreases d, 0
  {
    hide Fine, Short, Unasked;
    match d
    case DNil =>
    case DProp(_, _, r) => FineKidsAcceptable(all, r, lim, n);
    case DNode(_, k, r) =>
      FineAcceptable(k, lim, n - 1);
      FineKidsAcceptable(all, r, lim, n);
  }

  lemma {:induction false} CostSetProp(strs: seq<byte>, d: Dt, p: seq<byte>, v: seq<byte>)
    ensures CostProps(strs, VSetProp(d, p, v)) <= CostProps(strs, d) + PropCost(strs, p, v)
    ensures CostKids(strs, VSetProp(d, p, v)) == CostKids(strs, d)
  {
    hide PropCost, Cost;
    if VGet(d, p).Some? {
      CostOverwrite(strs, d, p, v);
    }
  }

  lemma {:induction false} CostOverwrite(strs: seq<byte>, d: Dt, p: seq<byte>, v: seq<byte>)
    ensures CostProps(strs, VOverwrite(d, p, v)) <= CostProps(strs, d) + PropCost(strs, p, v)
    ensures CostKids(strs, VOverwrite(d, p, v)) == CostKids(strs, d)
    decreases d
  {
    hide PropCost, Cost;
    if d.DProp? && d.name != p {
      CostOverwrite(strs, d.next, p, v);
    }
  }

  lemma {:induction false} CostMergeProps(strs: seq<byte>, d: Dt, ov: Dt)
    ensures CostProps(strs, MergeProps(d, ov)) <= CostProps(strs, d) + CostProps(strs, ov)
    ensures CostKids(strs, MergeProps(d, ov)) == CostKids(strs, d)
    decreases ov
  {
    hide PropCost, CostKids, VSetProp;
    if ov.DProp? {
      CostSetProp(strs, d, ov.name, ov.val);
      CostMergeProps(strs, VSetProp(d, ov.name, ov.val), ov.next);
    }
  }

  lemma {:induction false} CostPutChild(strs: seq<byte>, d: Dt, name: seq<byte>, k: Dt)
    requires VChild(d, name).Some?
    ensures CostKids(strs, VPutChild(d, name, k)) + Cost(strs, VChild(d, name).value) ==
            CostKids(strs, d) + Cost(strs, k)
    ensures CostProps(strs, VPutChild(d, name, k)) == CostProps(strs, d)
    decreases d
  {
    hide PropCost, Cost, NameEq, HdrSize;
    if d.DProp? || !NameEq(d.name, name) {
      CostPutChild(strs, d.next, name, k);
    }
  }

  lemma {:induction false} CostAddChild(strs: seq<byte>, d: Dt, name: seq<byte>)
    ensures CostKids(strs, VAddChild(d, name)) == CostKids(strs, d) + HdrSize(name) + 4
    ensures CostProps(strs, VAddChild(d, name)) == CostProps(strs, d)
    decreases d
  {
    hide PropCost, HdrSize;
    if d.DProp? {
      CostAddChild(strs, d.next, name);
    }
  }

  lemma {:induction false} CostMergeChild(strs: seq<byte>, d: Dt, name: seq<byte>, ov: Dt)
    ensures CostKids(strs, MergeChild(d, name, ov)) <= CostKids(strs, d) + HdrSize(name) + 4 + Cost(strs, ov)
    ensures CostProps(strs, MergeChild(d, name, ov)) == CostProps(strs, d)
    decreases ov, 2
  {
    hide CostKids, CostProps, HdrSize, VPutChild, VAddChild, Merge, Cost, NameEq;
    HdrPositive(name);
    if VChild(d, name).Some? {
      var c := VChild(d, name).value;
      CostMerge(strs, c, ov);
      CostPutChild(strs, d, name, Merge(c, ov));
    } else {
      AddedIsEmpty(d, name);
      CostMerge(strs, DNil, ov);
      CostAddChild(strs, d, name);
      CostPutChild(strs, VAddChild(d, name), name, Merge(DNil, ov));
    }
  }

  lemma {:induction false} CostMergeSubs(strs: seq<byte>, d: Dt, ov: Dt)
    ensures CostKids(strs, MergeSubs(d, ov)) <= CostKids(strs, d) + CostKids(strs, ov)
    ensures CostProps(strs, MergeSubs(d, ov)) == CostProps(strs, d)
    decreases ov, 0
  {
    hide CostProps, HdrSize, MergeChild, Cost;
    match ov
    case DNil =>
    case DProp(_, _, n) => CostMergeSubs(strs, d, n);
    case DNode(name, k, n) =>
      CostMergeChild(strs, d, name, k);
      CostMergeSubs(strs, MergeChild(d, name, k), n);
  }

  /** A merge takes no more room than its parts. */
  lemma {:induction false} CostMerge(strs: seq<byte>, d: Dt, ov: Dt)
    ensures Cost(strs, Merge(d, ov)) <= Cost(strs, d) + Cost(strs, ov)
    ensures CostKids(strs, Merge(d, ov)) <= CostKids(strs, d) + CostKids(strs, ov)
    decreases ov, 1
  {
    hide CostKids, CostProps, MergeSubs, MergeProps;
    CostMergeProps(strs, d, ov);
    CostMergeSubs(strs, MergeProps(d, ov), ov);
  }

  // ---- searching ---------------------------------------------------------------------------

  /** The search is for names and compatible strings of the limits. */
  predicate Asks(lim: Limits, q: Query) {
    match q
    case Named(m, c) => m in lim.names && (c.Some? ==> c.value in lim.compats)
    case Like(c) => c in lim.compats
    case Numbered(_) => false
  }

  lemma NotWanted(q: Query, m: seq<byte>, k: Dt, lim: Limits)
    requires Asks(lim, q) && m !in lim.names && Unasked(k, lim)
    ensures !Wanted(q, m, k)
  {
    hide Compatible;
  }

  lemma FineInner(d: Dt, lim: Limits, n: int)
    requires Fine(d, lim, n)
    ensures FineKids(d, d, lim, n)
  {
    hide FineKids, ShortProps, DistinctProps;
  }

  /** Inside orderly trees no search finds anything. */
  lemma {:induction false} FineAbsent(all: Dt, d: Dt, lim: Limits, n: int, q: Query)
    requires FineKids(all, d, lim, n) && Asks(lim, q)
    ensures Absent(d, q)
    decreases d
  {
    hide Asks, Unasked, Wanted, Apart, VExact, DistinctProps, ShortProps;
    match d
    case DNil =>
    case DProp(_, _, r) => FineAbsent(all, r, lim, n, q);
    case DNode(m, k, r) =>
      NotWanted(q, m, k, lim);
      FineInner(k, lim, n - 1);
      FineAbsent(k, k, lim, n - 1, q);
      FineAbsent(all, r, lim, n, q);
  }

  /** No property of that name among the items, in front or behind. */
  predicate Lacks(d: Dt, p: seq<byte>) {
    match d
    case DNil => true
    case DProp(m, _, n) => m != p && Lacks(n, p)
    case DNode(_, _, n) => Lacks(n, p)
  }

  lemma {:induction false} LacksGet(d: Dt, p: seq<byte>)
    requires Lacks(d, p)
    ensures VGet(d, p) == None
    decreases d
  {
    if d.DProp? {
      LacksGet(d.next, p);
    }
  }

  lemma {:induction false} LacksChild(d: Dt, name: seq<byte>, k: Dt, p: seq<byte>)
    ensures Lacks(VPutChild(d, name, k), p) == Lacks(VAddChild(d, name), p) == Lacks(d, p)
    decreases d
  {
    hide NameEq;
    if !d.DNil? {
      LacksChild(d.next, name, k, p);
    }
  }

  lemma LacksMergeChild(d: Dt, name: seq<byte>, ov: Dt, p: seq<byte>)
    ensures Lacks(MergeChild(d, name, ov), p) == Lacks(d, p)
  {
    hide Lacks, VPutChild, VAddChild, Merge, VChild;
    if VChild(d, name).Some? {
      LacksChild(d, name, Merge(VChild(d, name).value, ov), p);
    } else {
      LacksChild(d, name, DNil, p);
      LacksChild(VAddChild(d, name), name, Merge(DNil, ov), p);
    }
  }

  lemma {:induction false} LacksSubs(d: Dt, ov: Dt, p: seq<byte>)
    ensures Lacks(MergeSubs(d, ov), p) == Lacks(d, p)
    decreases ov
  {
    hide Lacks, MergeChild;
    match ov
    case DNil =>
    case DProp(_, _, n) => LacksSubs(d, n, p);
    case DNode(name, k, n) =>
      LacksMergeChild(d, name, k, p);
      LacksSubs(MergeChild(d, name, k), n, p);
  }

  /** Only nodes among the items. */
  predicate OnlyNodes(d: Dt) {
    match d
    case DNil => true
    case DProp(_, _, _) => false
    case DNode(_, _, n) => OnlyNodes(n)
  }

  lemma {:induction false} OnlyNodesChild(d: Dt, name: seq<byte>, k: Dt)
    requires OnlyNodes(d)
    ensures OnlyNodes(VPutChild(d, name, k)) && OnlyNodes(VAddChild(d, name))
    decreases d
  {
    hide NameEq;
    if d.DNode? {
      OnlyNodesChild(d.next, name, k);
    }
  }

  datatype Found = Found(name: seq<byte>, kids: Dt)

  /** The first wanted endpoint of a list. */
  function Pick(e: Dt, q: Query): Option<Found> {
    match e
    case DNil => None
    case DProp(_, _, n) => Pick(n, q)
    case DNode(m, k, n) => if Wanted(q, m, k) then Some(Found(m, k)) else Pick(n, q)
  }

  /** The list without it. */
  function Drop(e: Dt, q: Query): Dt {
    match e
    case DNil => DNil
    case DProp(p, v, n) => DProp(p, v, Drop(n, q))
    case DNode(m, k, n) => if Wanted(q, m, k) then n else DNode(m, k, Drop(n, q))
  }

  lemma {:induction false} PickFacts(e: Dt, q: Query)
    requires Singles(e)
    ensures Pick(e, q).Some? ==>
      var x := Pick(e, q).value; Wanted(q, x.name, x.kids) && VExact(e, x.name) == Some(x.kids)
    ensures q.Named? && VExact(e, q.name).Some? && Wanted(q, q.name, VExact(e, q.name).value) ==> Pick(e, q).Some?
    decreases e
  {
    hide Compatible;
    if !e.DNil? {
      PickFacts(e.next, q);
    }
  }

  lemma {:induction false} DropAt(e: Dt, q: Query, m: seq<byte>)
    requires Singles(e) && Pick(e, q).Some?
    ensures VExact(Drop(e, q), m) == if m == Pick(e, q).value.name then None else VExact(e, m)
    ensures Apart(e, m) ==> Apart(Drop(e, q), m)
    ensures Lacks(e, m) ==> Lacks(Drop(e, q), m)
    decreases e
  {
    hide Wanted, NameEq;
    if e.DProp? || !Wanted(q, e.name, e.kids) {
      PickFacts(e.next, q);
      DropAt(e.next, q, m);
    }
  }

  lemma {:induction false} DropSingles(e: Dt, q: Query)
    requires Singles(e) && Pick(e, q).Some?
    ensures Singles(Drop(e, q))
    decreases e
  {
    hide Wanted;
    if e.DProp? || !Wanted(q, e.name, e.kids) {
      DropSingles(e.next, q);
      if e.DNode? {
        DropAt(e.next, q, e.name);
      }
    }
  }

  lemma {:induction false} DropCost(e: Dt, q: Query, strs: seq<byte>)
    requires Pick(e, q).Some?
    ensures var x := Pick(e, q).value;
            CostKids(strs, e) == CostKids(strs, Drop(e, q)) + HdrSize(x.name) + 4 + Cost(strs, x.kids)
    decreases e
  {
    hide Wanted, HdrSize, Cost;
    if e.DProp? || !Wanted(q, e.name, e.kids) {
      DropCost(e.next, q, strs);
    }
  }

  /** Asking for the name that a compatible endpoint has finds the same endpoint. */
  lemma {:induction false} LikeByName(e: Dt, c: seq<byte>)
    requires Singles(e) && Pick(e, Like(c)).Some?
    ensures var q := Named(Pick(e, Like(c)).value.name, Some(c));
            Pick(e, q) == Pick(e, Like(c)) && Drop(e, q) == Drop(e, Like(c))
    decreases e
  {
    hide Compatible;
    if e.DProp? || !Compatible(e.kids, c) {
      LikeByName(e.next, c);
      PickFacts(e.next, Like(c));
    }
  }

  // ---- endpoint lists ------------------------------------------------------------------------

  function NamesOf(e: Dt): set<seq<byte>> {
    match e
    case DNil => {}
    case DProp(_, _, n) => NamesOf(n)
    case DNode(m, _, n) => {m} + NamesOf(n)
  }

  lemma {:induction false} NamesOfIff(e: Dt, m: seq<byte>)
    ensures m in NamesOf(e) <==> VExact(e, m).Some?
    decreases e
  {
    if !e.DNil? {
      NamesOfIff(e.next, m);
    }
  }

  /** What the contents of an endpoint must be like to be cut out and put back. */
  ghost predicate Endpoint(e: Dt, m: seq<byte>, k: Dt, lim: Limits) {
    m in lim.names && Apart(e, m) && Fine(k, lim, MAX_DEPTH - 1)
  }

  /** The items of an endpoints node. */
  ghost predicate EndpointList(e: Dt, lim: Limits) {
    && Singles(e) && Lacks(e, COMPATIBLE) && ENDPOINTS !in lim.names && [] !in lim.names
    && forall m :: VExact(e, m).Some? ==> Endpoint(e, m, VExact(e, m).value, lim)
  }

  lemma EndpointAbsent(e: Dt, m: seq<byte>, k: Dt, lim: Limits, q: Query)
    requires Endpoint(e, m, k, lim) && Asks(lim, q)
    ensures Absent(k, q)
  {
    hide Absent, FineKids, Asks;
    FineAbsent(k, k, lim, MAX_DEPTH - 1, q);
  }
}
