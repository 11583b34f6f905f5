/** group.c: moving endpoints from a group's tree to a new one, and putting them
    back. */
module EndpointCut {
  import opened Bytes
  import opened FdtTree
  import opened FdtRo
  import opened FdtEdits
  import opened FdtMerge
  import opened FdtMergeLaws
  import opened FdtCost
  import opened Metadata
  import opened FdtSearch
  import opened EndpointTree

  /** The endpoints C of E0 are moved from E to D, as copies; the others stay. */
  ghost predicate Moved(E0: Dt, E: Dt, D: Dt, C: set<seq<byte>>) {
    forall m :: MovedAt(E0, E, D, C, m)
  }

  ghost predicate MovedAt(E0: Dt, E: Dt, D: Dt, C: set<seq<byte>>, m: seq<byte>) {
    if m in C then
      VExact(E0, m).Some? && VExact(E, m) == None && VExact(D, m) == Some(Merge(DNil, VExact(E0, m).value))
    else
      VExact(E, m) == VExact(E0, m) && VExact(D, m) == None
  }

  /** ... and both lists are orderly. */
  ghost predicate Cutting(E0: Dt, E: Dt, D: Dt, C: set<seq<byte>>, lim: Limits) {
    && EndpointList(E0, lim) && Moved(E0, E, D, C)
    && Singles(E) && Lacks(E, COMPATIBLE) && Singles(D) && OnlyNodes(D)
    && (forall x :: Apart(E0, x) ==> Apart(E, x) && Apart(D, x))
  }

  lemma CutStart(E0: Dt, lim: Limits)
    requires EndpointList(E0, lim)
    ensures Cutting(E0, E0, DNil, {}, lim)
  {
    hide Merge;
    NilOrderly();
    assert forall m :: MovedAt(E0, E0, DNil, {}, m);
  }

  lemma EndpointOf(e: Dt, m: seq<byte>, lim: Limits)
    requires EndpointList(e, lim) && VExact(e, m).Some?
    ensures m in lim.names && Apart(e, m) && Fine(VExact(e, m).value, lim, MAX_DEPTH - 1)
  {
    hide Fine, Apart, VExact, Lacks;
  }

  lemma {:induction false} NoneAnswers(d: Dt, m: seq<byte>)
    requires Apart(d, m) && VExact(d, m) == None
    ensures VChild(d, m) == None
  {
    ApartFinds(d, m);
  }

  /** What the checks before a copy find: the endpoint can be copied, into a list
      that has none that answers to its name. */
  lemma CutCan(E0: Dt, E: Dt, D: Dt, C: set<seq<byte>>, lim: Limits, q: Query)
    requires Cutting(E0, E, D, C, lim) && Pick(E, q).Some?
    ensures var x := Pick(E, q).value;
            && x.name !in C && x.name in lim.names && VExact(E0, x.name) == Some(x.kids)
            && Fine(x.kids, lim, MAX_DEPTH - 1)
            && VChild(D, x.name) == None && Apart(E0, x.name) && Acceptable(x.kids, 0)
            && Apart(D, x.name)
  {
    hide Fine, Apart, VExact, VChild, Lacks, Singles, Merge, Wanted, Pick, OnlyNodes, Levels, Short, EndpointList;
    var x := Pick(E, q).value;
    PickFacts(E, q);
    assert MovedAt(E0, E, D, C, x.name);
    EndpointOf(E0, x.name, lim);
    FineAcceptable(x.kids, lim, MAX_DEPTH - 1);
    NoneAnswers(D, x.name);
  }

  /** One endpoint moved. */
  lemma CutStep(E0: Dt, E: Dt, D: Dt, C: set<seq<byte>>, lim: Limits, q: Query)
    requires Cutting(E0, E, D, C, lim) && Pick(E, q).Some?
    ensures var x := Pick(E, q).value;
            Cutting(E0, Drop(E, q), MergeChild(D, x.name, x.kids), C + {x.name}, lim)
  {
    hide Fine, Apart, VExact, VChild, Lacks, Singles, Merge, Wanted, Pick, Drop, OnlyNodes, EndpointList, MergeChild,
      NameEq,
      MovedAt, Acceptable;
    var x := Pick(E, q).value;
    CutCan(E0, E, D, C, lim, q);
    DropSingles(E, q);
    DropAt(E, q, COMPATIBLE);
    ChildOrderly(D, x.name, x.kids);
    NewOnlyNode(D, x.name, x.kids);
    forall m ensures MovedAt(E0, Drop(E, q), MergeChild(D, x.name, x.kids), C + {x.name}, m) {
      MovedOne(E0, E, D, C, q, m);
    }
    forall y | Apart(E0, y) ensures Apart(Drop(E, q), y) && Apart(MergeChild(D, x.name, x.kids), y) {
      DropAt(E, q, y);
      MergeChildLaw(D, x.name, x.kids, y);
      ApartKid(E0, x.name, y);
    }
  }

  lemma MovedOne(E0: Dt, E: Dt, D: Dt, C: set<seq<byte>>, q: Query, m: seq<byte>)
    requires Moved(E0, E, D, C) && Singles(E) && Pick(E, q).Some?
    requires var x := Pick(E, q).value; Apart(D, x.name) && x.name !in C && VExact(E0, x.name) == Some(x.kids)
    ensures var x := Pick(E, q).value;
            MovedAt(E0, Drop(E, q), MergeChild(D, x.name, x.kids), C + {x.name}, m)
  {
    hide Apart, VExact, Singles, Merge, Wanted, Pick, Drop, MergeChild, NameEq;
    var x := Pick(E, q).value;
    assert MovedAt(E0, E, D, C, m) && MovedAt(E0, E, D, C, x.name);
    DropAt(E, q, m);
    MergeChildLaw(D, x.name, x.kids, m);
  }

  lemma NewOnlyNode(D: Dt, m: seq<byte>, k: Dt)
    requires OnlyNodes(D) && VChild(D, m) == None
    ensures OnlyNodes(MergeChild(D, m, k))
  {
    hide OnlyNodes, Merge, VPutChild, VAddChild;
    OnlyNodesChild(D, m, DNil);
    OnlyNodesChild(VAddChild(D, m), m, Merge(DNil, k));
  }

  /** What is left is an orderly endpoint list, and what was cut out too. */
  lemma CutLists(E0: Dt, E: Dt, D: Dt, C: set<seq<byte>>, lim: Limits)
    requires Cutting(E0, E, D, C, lim)
    ensures EndpointList(E, lim) && EndpointList(D, lim)
  {
    hide Fine, Apart, VExact, Lacks, Singles, Merge, OnlyNodes;
    NodesLack(D);
    forall m | VExact(E, m).Some? ensures Endpoint(E, m, VExact(E, m).value, lim) {
      assert MovedAt(E0, E, D, C, m);
      EndpointOf(E0, m, lim);
    }
    forall m | VExact(D, m).Some? ensures Endpoint(D, m, VExact(D, m).value, lim) {
      assert MovedAt(E0, E, D, C, m);
      EndpointOf(E0, m, lim);
      FineMerged(VExact(E0, m).value, lim, MAX_DEPTH - 1);
    }
  }

  lemma {:induction false} NodesLack(D: Dt)
    requires OnlyNodes(D)
    ensures Lacks(D, COMPATIBLE) && DistinctProps(D) && ShortProps(D) && forall p :: VGet(D, p) == None
    ensures forall strs :: CostProps(strs, D) == 0
    ensures forall d :: MergeProps(d, D) == d
    decreases D
  {
    if D.DNode? {
      NodesLack(D.next);
    }
  }

  /** The same endpoints, each with the same nodes and values. */
  ghost predicate SameEndpoints(E: Dt, E0: Dt) {
    forall m :: SameEndpoint(E, E0, m)
  }

  ghost predicate SameEndpoint(E: Dt, E0: Dt, m: seq<byte>) {
    && (VExact(E, m).Some? <==> VExact(E0, m).Some?)
    && (VExact(E, m).Some? ==> Alike(VExact(E, m).value, VExact(E0, m).value))
  }

  lemma SameSelf(E: Dt)
    ensures SameEndpoints(E, E)
  {
    hide Alike, VExact;
    forall m ensures SameEndpoint(E, E, m) {
      if VExact(E, m).Some? {
        AlikeSelf(VExact(E, m).value);
      }
    }
  }

  lemma {:induction false} CutClear(E0: Dt, E: Dt, D: Dt, d: Dt, C: set<seq<byte>>, lim: Limits)
    requires Cutting(E0, E, D, C, lim) && Singles(d)
    requires forall m :: VExact(d, m).Some? ==> VExact(D, m) == VExact(d, m)
    ensures ClearKids(E, D, d)
    decreases d
  {
    hide Fine, Apart, Lacks, Merge, OnlyNodes, EndpointList, Clear;
    if !d.DNil? {
      forall m | VExact(d.next, m).Some? ensures VExact(D, m) == VExact(d.next, m) {
        assert VExact(d, m) == VExact(d.next, m);
      }
      CutClear(E0, E, D, d.next, C, lim);
      if d.DNode? {
        assert VExact(d, d.name) == Some(d.kids) && VExact(D, d.name) == Some(d.kids);
        CutChildClear(E0, E, D, C, lim, d.name);
      }
    }
  }

  lemma CutChildClear(E0: Dt, E: Dt, D: Dt, C: set<seq<byte>>, lim: Limits, m: seq<byte>)
    requires Cutting(E0, E, D, C, lim) && VExact(D, m).Some?
    ensures Apart(E, m) && Apart(D, m) && VExact(E, m) == None && Clear(DNil, VExact(D, m).value)
  {
    hide Fine, Apart, Lacks, Merge, OnlyNodes, EndpointList, Clear, VExact;
    assert MovedAt(E0, E, D, C, m);
    EndpointOf(E0, m, lim);
    FineMerged(VExact(E0, m).value, lim, MAX_DEPTH - 1);
    FineClear(VExact(D, m).value, lim, MAX_DEPTH - 1);
  }

  /** Merging the cut endpoints back gives all of them again. */
  lemma PutBack(E0: Dt, E: Dt, D: Dt, C: set<seq<byte>>, lim: Limits)
    requires Cutting(E0, E, D, C, lim)
    ensures EndpointList(Merge(E, D), lim) && SameEndpoints(Merge(E, D), E0) && NamesOf(Merge(E, D)) == NamesOf(E0)
  {
    hide Fine, Apart, Lacks, Merge, OnlyNodes, VExact, Clear, Alike, Singles, NamesOf, DistinctProps, ClearKids,
      CostProps, MergeProps, VGet;
    var M := Merge(E, D);
    NodesLack(D);
    CutClear(E0, E, D, D, C, lim);
    ClearIs(E, D);
    MergeOrderly(E, D);
    MergeLacks(E, D);
    forall m ensures SameEndpoint(M, E0, m) && (VExact(M, m).Some? ==> Endpoint(M, m, VExact(M, m).value, lim))
                     && (m in NamesOf(M) <==> m in NamesOf(E0)) {
      NamesOfIff(M, m);
      NamesOfIff(E0, m);
      BackAt(E0, E, D, C, lim, m);
    }
  }

  lemma ClearIs(E: Dt, D: Dt)
    requires DistinctProps(D) && ClearKids(E, D, D)
    ensures Clear(E, D)
  {
  }

  lemma MergeLacks(E: Dt, D: Dt)
    requires MergeProps(E, D) == E && Lacks(E, COMPATIBLE)
    ensures Lacks(Merge(E, D), COMPATIBLE)
  {
    hide MergeSubs, Lacks, MergeProps;
    LacksSubs(E, D, COMPATIBLE);
  }

  lemma BackAt(E0: Dt, E: Dt, D: Dt, C: set<seq<byte>>, lim: Limits, m: seq<byte>)
    requires Cutting(E0, E, D, C, lim) && Clear(E, D)
    ensures var M := Merge(E, D);
            SameEndpoint(M, E0, m) && (VExact(M, m).Some? ==> Endpoint(M, m, VExact(M, m).value, lim))
  {
    hide Fine, Apart, Lacks, Merge, OnlyNodes, VExact, Clear, Alike, Singles, EndpointList;
    assert MovedAt(E0, E, D, C, m);
    MergeLaw(E, D, m);
    if VExact(E0, m).Some? {
      var k := VExact(E0, m).value;
      EndpointOf(E0, m, lim);
      if m in C {
        FineMerged(k, lim, MAX_DEPTH - 1);
        FineMerged(Merge(DNil, k), lim, MAX_DEPTH - 1);
        FineClear(k, lim, MAX_DEPTH - 1);
        FineClear(Merge(DNil, k), lim, MAX_DEPTH - 1);
        AlikeMerged(k);
        AlikeMerged(Merge(DNil, k));
        AlikeTrans(Merge(DNil, Merge(DNil, k)), Merge(DNil, k), k);
      } else {
        AlikeSelf(k);
      }
    }
  }

  /** What is cut out has the contents it had. */
  lemma CutAlike(E0: Dt, E: Dt, D: Dt, C: set<seq<byte>>, lim: Limits, m: seq<byte>)
    requires Cutting(E0, E, D, C, lim) && m in C
    ensures VExact(D, m).Some? && VExact(E0, m).Some? && Alike(VExact(D, m).value, VExact(E0, m).value)
  {
    hide Fine, Apart, Lacks, Merge, OnlyNodes, VExact, Clear, Alike, Singles, EndpointList;
    assert MovedAt(E0, E, D, C, m);
    EndpointOf(E0, m, lim);
    FineClear(VExact(E0, m).value, lim, MAX_DEPTH - 1);
    AlikeMerged(VExact(E0, m).value);
  }

  /** Levels and values of the cut endpoints allow putting them back. */
  lemma {:induction false} BackAcceptable(D: Dt, e: Dt, lim: Limits)
    requires Singles(D) && OnlyNodes(D) && forall m :: VExact(D, m).Some? ==> Endpoint(e, m, VExact(D, m).value, lim)
    ensures Levels(D) <= MAX_DEPTH && ShortKids(D)
    decreases D
  {
    hide Fine, Apart, Short;
    if D.DNode? {
      assert VExact(D, D.name) == Some(D.kids);
      FineAcceptable(D.kids, lim, MAX_DEPTH - 1);
      forall m | VExact(D.next, m).Some? ensures Endpoint(e, m, VExact(D.next, m).value, lim) {
        assert VExact(D, m) == VExact(D.next, m);
      }
      BackAcceptable(D.next, e, lim);
    }
  }

  lemma CutAcceptable(E0: Dt, E: Dt, D: Dt, C: set<seq<byte>>, lim: Limits)
    requires Cutting(E0, E, D, C, lim)
    ensures Acceptable(D, 0) && forall strs :: Cost(strs, D) == CostKids(strs, D)
  {
    hide Fine, Apart, Merge, VExact, ShortKids, Levels, CostProps, Singles, OnlyNodes, Lacks, MergeProps, DistinctProps,
      ShortProps, CostKids, VGet;
    CutLists(E0, E, D, C, lim);
    NodesLack(D);
    BackAcceptable(D, D, lim);
  }

  // ---- one level too many ------------------------------------------------------------------

  lemma {:induction false} LevelsChild(d: Dt, m: seq<byte>)
    requires VExact(d, m).Some?
    ensures Levels(d) >= 1 + Levels(VExact(d, m).value)
    decreases d
  {
    if d.DProp? || d.name != m {
      LevelsChild(d.next, m);
    }
  }

  /** A copy has all the levels of its source. */
  lemma {:induction false} LevelsMerged(all: Dt, d: Dt)
    requires Clear(DNil, all) && ClearKids(DNil, all, d)
    requires forall m :: VExact(d, m).Some? ==> VExact(all, m) == VExact(d, m)
    ensures Levels(Merge(DNil, all)) >= Levels(d)
    decreases d
  {
    hide Merge, Apart, DistinctProps, Clear;
    if !d.DNil? {
      forall m | VExact(d.next, m).Some? ensures VExact(all, m) == VExact(d.next, m) {
        assert VExact(d, m) == VExact(d.next, m);
      }
      LevelsMerged(all, d.next);
      if d.DNode? {
        assert VExact(d, d.name) == Some(d.kids) && VExact(all, d.name) == Some(d.kids);
        ClearParts(d.kids);
        LevelsMerged(d.kids, d.kids);
        MergeLaw(DNil, all, d.name);
        LevelsChild(Merge(DNil, all), d.name);
      }
    }
  }

  lemma ClearParts(d: Dt)
    requires Clear(DNil, d)
    ensures ClearKids(DNil, d, d)
  {
  }

  lemma {:induction false} FineLess(d: Dt, lim: Limits, n: int, j: int)
    requires Fine(d, lim, n) && Levels(d) <= j
    ensures Fine(d, lim, j)
    decreases d, 1
  {
    hide Levels, FineKids, DistinctProps, ShortProps;
    FineKidsLess(d, d, lim, n, j);
  }

  lemma {:induction false} FineKidsLess(all: Dt, d: Dt, lim: Limits, n: int, j: int)
    requires FineKids(all, d, lim, n) && Levels(d) <= j
    ensures FineKids(all, d, lim, j)
    decreases d, 0
  {
    hide Fine, Unasked, Apart;
    match d
    case DNil =>
    case DProp(_, _, r) => FineKidsLess(all, r, lim, n, j);
    case DNode(m, k, r) =>
      FineLess(k, lim, n - 1, j - 1);
      FineKidsLess(all, r, lim, n, j);
  }

  /** An orderly endpoint as deep as copying allows can be cut out. What was cut out
      can be put back, one level deeper, if and only if it is not that deep. */
  lemma PutBackIff(m: seq<byte>, k: Dt, lim: Limits)
    requires Fine(k, lim, MAX_DEPTH)
    ensures Acceptable(k, 0)
    ensures Acceptable(MergeChild(DNil, m, k), 0) <==> Levels(k) < MAX_DEPTH
  {
    hide Merge, Fine, Clear, Levels, Short;
    FineAcceptable(k, lim, MAX_DEPTH);
    assert NameEq(m, m);
    assert MergeChild(DNil, m, k) == DNode(m, Merge(DNil, k), DNil);
    OneChild(m, Merge(DNil, k));
    if Levels(k) < MAX_DEPTH {
      FineLess(k, lim, MAX_DEPTH, MAX_DEPTH - 1);
      FineMerged(k, lim, MAX_DEPTH - 1);
      FineAcceptable(Merge(DNil, k), lim, MAX_DEPTH - 1);
    } else {
      FineClear(k, lim, MAX_DEPTH);
      ClearParts(k);
      LevelsMerged(k, k);
    }
  }

  /** Nodes inside one another, each with the name "a". */
  function Nested(n: nat): Dt {
    if n == 0 then DNil else DNode([97], Nested(n - 1), DNil)
  }

  lemma {:induction false} NestedFine(n: nat)
    ensures Fine(Nested(n), Limits({}, {}), n) && Levels(Nested(n)) == n
    decreases n
  {
    if n > 0 {
      NestedFine(n - 1);
      assert Apart(Nested(n), [97]) && VExact(DNil, [97]) == None;
      assert FineKid(Nested(n), [97], Nested(n - 1), Limits({}, {}), n);
      assert FineKids(Nested(n), DNil, Limits({}, {}), n);
    }
  }

  /** An endpoint with five nodes inside one another can be cut out and not be put
      back, one with four can. */
  lemma FiveLevels(m: seq<byte>)
    ensures Acceptable(Nested(5), 0) && !Acceptable(MergeChild(DNil, m, Nested(5)), 0)
    ensures Acceptable(Nested(4), 0) && Acceptable(MergeChild(DNil, m, Nested(4)), 0)
  {
    hide Merge, Fine, Nested, Levels, Short;
    NestedFine(5);
    NestedFine(4);
    FineLess(Nested(4), Limits({}, {}), 4, MAX_DEPTH);
    PutBackIff(m, Nested(5), Limits({}, {}));
    PutBackIff(m, Nested(4), Limits({}, {}));
  }

  lemma OneChild(m: seq<byte>, k: Dt)
    ensures Levels(DNode(m, k, DNil)) == 1 + Levels(k) && Short(DNode(m, k, DNil)) == Short(k)
  {
    assert ShortKids(DNil);
    assert ShortKids(DNode(m, k, DNil)) == Short(k);
  }
}
