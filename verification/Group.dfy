/** group.c: cutting the trees of subdevices out of a group's tree, and creating
    all leaves of a group. */
module Group {
  import opened Bytes
  import opened Errno
  import opened FdtFormat
  import opened FdtTree
  import opened FdtBlob
  import opened Fdt
  import opened FdtEdits
  import opened FdtRw
  import opened FdtMerge
  import opened FdtMergeLaws
  import opened FdtOverlay
  import opened FdtCost
  import opened Metadata
  import opened FdtSearch
  import opened Endpoints
  import opened EndpointEdits
  import opened EndpointTree
  import opened EndpointCut
  import opened EndpointHouse

  /** struct xrt_dev_ep_names; the entry with neither ends the list and is left out. */
  datatype EpName = EpName(name: Option<seq<byte>>, compat: Option<seq<byte>>)

  /** struct xrt_dev_endpoints */
  datatype Eps = Eps(names: seq<EpName>, minEp: nat)

  predicate Entry(ep: EpName) {
    ep.name.Some? || ep.compat.Some?
  }

  /** What an entry looks for. */
  function Ask(ep: EpName): Query
    requires Entry(ep)
  {
    if ep.name.Some? then Named(ep.name.value, ep.compat) else Like(ep.compat.value)
  }

  /** The searches ask for terminated strings of sensible length. */
  ghost predicate Sound(lim: Limits) {
    && (forall m :: m in lim.names ==> 0 !in m && |m| < INT_LIMIT - 16)
    && (forall c :: c in lim.compats ==> 0 !in c)
  }

  predicate Listed(names: seq<EpName>, lim: Limits) {
    forall i :: 0 <= i < |names| ==> Entry(names[i]) && Asks(lim, Ask(names[i]))
  }

  /** How many entries find an endpoint, each taking what it finds. */
  function Count(E: Dt, names: seq<EpName>): nat
    decreases |names|
  {
    if names == [] || !Entry(names[0]) then 0
    else if Pick(E, Ask(names[0])).Some? then 1 + Count(Drop(E, Ask(names[0])), names[1..])
    else Count(E, names[1..])
  }

  /** ... and which endpoints they take. */
  function Taken(E: Dt, names: seq<EpName>): set<seq<byte>>
    decreases |names|
  {
    if names == [] || !Entry(names[0]) then {}
    else
      match Pick(E, Ask(names[0]))
      case Some(x) => {x.name} + Taken(Drop(E, Ask(names[0])), names[1..])
      case None => Taken(E, names[1..])
  }

  lemma {:induction false} TakenCount(E: Dt, names: seq<EpName>)
    requires Singles(E)
    ensures |Taken(E, names)| == Count(E, names) && Taken(E, names) <= NamesOf(E)
    decreases |names|
  {
    hide Pick, Drop, VExact, Singles, NamesOf, Wanted, Ask;
    if names != [] && Entry(names[0]) {
      var q := Ask(names[0]);
      if Pick(E, q).Some? {
        var x := Pick(E, q).value;
        PickFacts(E, q);
        DropSingles(E, q);
        TakenCount(Drop(E, q), names[1..]);
        NamesOfIff(E, x.name);
        DropNames(E, q);
      } else {
        TakenCount(E, names[1..]);
      }
    }
  }

  lemma DropNames(E: Dt, q: Query)
    requires Singles(E) && Pick(E, q).Some?
    ensures NamesOf(Drop(E, q)) == NamesOf(E) - {Pick(E, q).value.name}
  {
    hide Pick, Drop, VExact, Singles, NamesOf;
    forall m ensures m in NamesOf(Drop(E, q)) <==> m in NamesOf(E) - {Pick(E, q).value.name} {
      NamesOfIff(E, m);
      NamesOfIff(Drop(E, q), m);
      DropAt(E, q, m);
    }
  }

  /** All entries have names. */
  predicate ByName(names: seq<EpName>) {
    forall i :: 0 <= i < |names| ==> names[i].name.Some?
  }

  /** The entry is about the endpoint m with those items. */
  predicate About(ep: EpName, m: seq<byte>, k: Dt) {
    ep.name == Some(m) && (ep.compat.Some? ==> Compatible(k, ep.compat.value))
  }

  predicate SomeAbout(names: seq<EpName>, m: seq<byte>, k: Dt) {
    exists i :: 0 <= i < |names| && About(names[i], m, k)
  }

  /** Entries by name take exactly the endpoints they are about. */
  lemma {:induction false} TakenIff(E: Dt, names: seq<EpName>, m: seq<byte>)
    requires Singles(E) && ByName(names)
    ensures m in Taken(E, names) <==> VExact(E, m).Some? && SomeAbout(names, m, VExact(E, m).value)
    decreases |names|
  {
    hide Pick, Drop, VExact, Singles, Compatible, SomeAbout;
    if names == [] {
      NoneAbout(m);
    } else {
      var q := Ask(names[0]);
      PickFacts(E, q);
      if VExact(E, m).Some? {
        AboutStep(names, m, VExact(E, m).value);
      }
      if Pick(E, q).Some? {
        var x := Pick(E, q).value;
        DropSingles(E, q);
        DropAt(E, q, m);
        TakenIff(Drop(E, q), names[1..], m);
      } else {
        TakenIff(E, names[1..], m);
      }
    }
  }

  lemma NoneAbout(m: seq<byte>)
    ensures forall k :: !SomeAbout([], m, k)
  {
  }

  lemma AboutStep(names: seq<EpName>, m: seq<byte>, k: Dt)
    requires names != []
    ensures SomeAbout(names, m, k) <==> About(names[0], m, k) || SomeAbout(names[1..], m, k)
  {
    hide About;
    if SomeAbout(names, m, k) && !About(names[0], m, k) {
      var i :| 0 <= i < |names| && About(names[i], m, k);
      assert names[1..][i - 1] == names[i];
    }
    if SomeAbout(names[1..], m, k) {
      var i :| 0 <= i < |names[1..]| && About(names[1..][i], m, k);
      assert names[i + 1] == names[1..][i];
    }
  }

  // ---- the group's blob ---------------------------------------------------------------------

  /** b is a group's tree with all endpoints below its endpoints node, and small
      enough for all of them to be copied. */
  ghost predicate Ready(b: Blob, f: Forest, e: int, lim: Limits)
    reads b, b.buf
  {
    && Holds(b, f) && House(f, b.Strings(), e, lim) && EndpointList(Housed(f, b.Strings(), e), lim)
    && 112 + CostKids([], Housed(f, b.Strings(), e)) <= MAX_BLOB_SIZE && Sound(lim)
  }

  /** What is known between two entries: endpoints moved from one blob to the
      other, and the room this takes in both. */
  datatype Work = Work(f: Forest, h: Forest, e: int, e1: int, E0: Dt, C: set<seq<byte>>, used: int)

  ghost predicate Working(grp: Blob, dtb: Blob, w: Work, lim: Limits)
    reads grp, grp.buf, dtb, dtb.buf
  {
    && Holds(grp, w.f) && Holds(dtb, w.h) && dtb.h.totalsize == MAX_BLOB_SIZE
    && WorkIn(grp.Strings(), dtb.Strings(), Used(grp.h), Used(dtb.h), w, lim)
  }

  ghost predicate WorkIn(gs: seq<byte>, ds: seq<byte>, ug: int, ud: int, w: Work, lim: Limits) {
    && Sound(lim) && House(w.f, gs, w.e, lim) && House(w.h, ds, w.e1, lim)
    && var E, D := Housed(w.f, gs, w.e), Housed(w.h, ds, w.e1);
    && Cutting(w.E0, E, D, w.C, lim)
    && ug + CostKids(gs, D) <= w.used && ud + CostKids([], E) <= MAX_BLOB_SIZE
    && CostKids([], E) + CostKids([], D) <= CostKids([], w.E0)
  }

  /** The structure block has room for what is in it. */
  lemma {:induction false} HeldCost(f: Forest, strs: seq<byte>)
    requires NamesOk(f, strs)
    ensures CostProps(strs, View(f, strs)) + CostKids(strs, View(f, strs)) <= Size(f)
    ensures CostKids(strs, View(f, strs)) <= Size(f)
    decreases f
  {
    hide HdrSize, PropSize, Size, NameOk, StrAt, StrKnown;
    SizeStep(f);
    match f
    case Nil =>
    case Nop(n) => HeldCost(n, strs);
    case Prop(no, v, n) =>
      HeldCost(n, strs);
      HeldKnown(strs, no);
    case Sub(m, k, n) => HeldCost(k, strs); HeldCost(n, strs);
  }

  lemma HeldKnown(strs: seq<byte>, no: int)
    requires NameOk(no, strs)
    ensures StrKnown(strs, StrAt(strs, no))
  {
    var s := StrAt(strs, no);
    forall j | no <= j < no + |s| ensures strs[j] == s[j - no] {
    }
    assert IsStrAt(strs, no, s);
  }

  // ---- one entry ---------------------------------------------------------------------------------

  /** What copying and deleting find, before anything is done. */
  lemma CanMove(gs: seq<byte>, ds: seq<byte>, ug: int, ud: int, w: Work, lim: Limits, q: Query) returns (l: Forest)
    requires WorkIn(gs, ds, ug, ud, w, lim) && q.Named? && Asks(lim, q)
    ensures IsNode(w.f, w.e) && IsNode(w.h, w.e1) && w.e1 > 0 && Strings(q) && |q.name| < INT_LIMIT - 16
    ensures var E, D := Housed(w.f, gs, w.e), Housed(w.h, ds, w.e1);
            var s := First(0, w.f, gs, q);
            && (s < 0 <==> Pick(E, q).None?)
            && (s >= 0 ==>
                  && s > 0 && IsNode(w.f, s) && !BelowRoot(w.f, s)
                  && var x := RestAt(w.f, s).value;
                  && x.name == q.name && Pick(E, q) == Some(Found(q.name, View(x.kids, gs)))
                  && Put(w.f, s, x.next) == PutKids(w.f, w.e, l) && View(l, gs) == Drop(E, q)
                  && First(0, w.h, ds, q) < 0 && Site(w.h, ds, q, false) == w.e1
                  && VChild(D, q.name).None? && Acceptable(View(x.kids, gs), 0) && q.name !in w.C
                  && ud + HdrSize(q.name) + 4 + Cost(ds, View(x.kids, gs)) <= MAX_BLOB_SIZE)
  {
    hide First, RestAt, House, Pick, Cutting, HdrSize, VChild, Acceptable, Cost, CostKids, View, BelowRoot,
      EndpointList, Wanted, Put, Drop, Housed, PutKids;
    HouseHome(w.f, gs, w.e, lim);
    HouseHome(w.h, ds, w.e1, lim);
    var E, D := Housed(w.f, gs, w.e), Housed(w.h, ds, w.e1);
    CutLists(w.E0, E, D, w.C, lim);
    l := Lodger(w.f, gs, w.e, lim, q);
    var l1 := Lodger(w.h, ds, w.e1, lim, q);
    StringsOf(q, lim);
    if Pick(E, q).Some? {
      var k := Pick(E, q).value.kids;
      PickedName(E, q, lim);
      CutCan(w.E0, E, D, w.C, lim, q);
      NotPicked(D, q, lim);
      DropCost(E, q, []);
      CostLess([], ds, k);
      assert [] + ds == ds;
    }
  }

  /** What is known after both. */
  lemma MovedWork(gs: seq<byte>, ds: seq<byte>, more: seq<byte>, ug: int, ud: int, ug1: int, ud1: int, w: Work,
                  lim: Limits,
                  q: Query, l: Forest, k: Forest)
    returns (w1: Work)
    requires WorkIn(gs, ds, ug, ud, w, lim) && q.Named? && Asks(lim, q)
    requires NamesOk(w.f, gs) && NamesOk(w.h, ds)
    requires var E, D, s := Housed(w.f, gs, w.e), Housed(w.h, ds, w.e1), First(0, w.f, gs, q);
             && Pick(E, q).Some? && View(l, gs) == Drop(E, q)
             && View(k, ds + more) == MergeChild(D, q.name, Pick(E, q).value.kids)
             && ud1 <= ud + HdrSize(q.name) + 4 + Cost(ds, Pick(E, q).value.kids)
             && ug1 <= ug - HdrSize(q.name) - 4 - Cost(gs, Pick(E, q).value.kids)
    ensures w1 == Work(PutKids(w.f, w.e, l), PutKids(w.h, w.e1, k), w.e, w.e1, w.E0, w.C + {q.name}, w.used)
    ensures WorkIn(gs, ds + more, ug1, ud1, w1, lim) && Housed(w1.f, gs, w.e) == Drop(Housed(w.f, gs, w.e), q)
  {
    hide First, RestAt, House, Pick, Cutting, HdrSize, VChild, Acceptable, Cost, CostKids, View, BelowRoot,
      EndpointList, Wanted, Put, Drop, Housed, PutKids, Merge, MergeChild;
    HouseHome(w.f, gs, w.e, lim);
    HouseHome(w.h, ds, w.e1, lim);
    var E, D := Housed(w.f, gs, w.e), Housed(w.h, ds, w.e1);
    CutLists(w.E0, E, D, w.C, lim);
    PickedName(E, q, lim);
    CutStep(w.E0, E, D, w.C, lim, q);
    HouseKept(w.f, gs, [], w.e, l, lim);
    assert gs + [] == gs;
    HouseKept(w.h, ds, more, w.e1, k, lim);
    w1 := Work(PutKids(w.f, w.e, l), PutKids(w.h, w.e1, k), w.e, w.e1, w.E0, w.C + {q.name}, w.used);
    var m := Pick(E, q).value.kids;
    DropCost(E, q, []);
    CostLess([], ds, m);
    assert [] + ds == ds;
    CostMergeChild(gs, D, q.name, m);
    CostMergeChild([], D, q.name, m);
  }

  lemma HouseHome(f: Forest, strs: seq<byte>, e: int, lim: Limits)
    requires House(f, strs, e, lim)
    ensures e > 0 && IsNode(f, e) && First(0, f, strs, Named(ENDPOINTS, None)) == e
  {
    hide First, RestAt, HiddenBut;
  }

  lemma StringsOf(q: Query, lim: Limits)
    requires Sound(lim) && Asks(lim, q) && q.Named?
    ensures Strings(q) && |q.name| < INT_LIMIT - 16
  {
  }

  lemma PickedName(E: Dt, q: Query, lim: Limits)
    requires q.Named? && Pick(E, q).Some? && EndpointList(E, lim)
    ensures Pick(E, q).value.name == q.name
  {
    ListSingles(E, lim);
    PickFacts(E, q);
  }

  lemma ListSingles(E: Dt, lim: Limits)
    requires EndpointList(E, lim)
    ensures Singles(E)
  {
  }

  lemma NotPicked(D: Dt, q: Query, lim: Limits)
    requires q.Named? && VChild(D, q.name) == None && EndpointList(D, lim)
    ensures Pick(D, q) == None
  {
    ListSingles(D, lim);
    PickFacts(D, q);
    if Pick(D, q).Some? {
      NameAnswers(D, q.name);
    }
  }

  lemma {:induction false} NameAnswers(d: Dt, m: seq<byte>)
    requires VExact(d, m).Some?
    ensures VChild(d, m).Some?
    decreases d
  {
    SameNameEq(m);
    if d.DProp? || d.name != m {
      NameAnswers(d.next, m);
    }
  }

  /** Copy and delete: one turn of the loop of xrt_grp_cut_subdev_dtb. */
  method MoveEndpoint(grp: Blob, dtb: Blob, name: seq<byte>, compat: Option<seq<byte>>, ghost w: Work,
                      ghost lim: Limits)
    returns (ok: bool, ghost w1: Work)
    requires Working(grp, dtb, w, lim) && Asks(lim, Named(name, compat)) && grp != dtb && grp.buf != dtb.buf
    requires IsNode(w.f, w.e)
    modifies grp, grp.buf, dtb, dtb.buf
    ensures Working(grp, dtb, w1, lim) && w1.e == w.e && w1.E0 == w.E0 && w1.used == w.used && IsNode(w1.f, w.e)
    ensures grp.Strings() == old(grp.Strings()) && grp.h.totalsize == old(grp.h).totalsize
    ensures var q := Named(name, compat);
            var E := Housed(w.f, old(grp.Strings()), w.e);
            && (ok <==> Pick(E, q).Some?)
            && (ok ==> Pick(E, q).value.name == name && name !in w.C && w1.C == w.C + {name})
            && (ok ==> Housed(w1.f, grp.Strings(), w.e) == Drop(E, q))
            && (!ok ==> w1.C == w.C && Housed(w1.f, grp.Strings(), w.e) == E)
  {
    hide Holds, First, RestAt, House, Pick, HdrSize, VChild, Acceptable, Cost, CostKids, Used, View, BelowRoot,
      Wanted, Put, Drop, Site, PutKids, Asks, Merge, MergeChild, Strings, Housed, WorkIn, NamesOk, Size;
    ghost var q := Named(name, compat);
    ghost var gs, ds, ug, ud := grp.Strings(), dtb.Strings(), Used(grp.h), Used(dtb.h);
    ghost var l := CanMove(gs, ds, ug, ud, w, lim, q);
    NamesHeld(grp, w.f);
    NamesHeld(dtb, w.h);
    HousedIs(w.f, gs, w.e);
    HousedIs(w.h, ds, w.e1);
    var ret;
    ghost var k;
    ret, k := CopyEndpoint(dtb, grp, name, compat, None, w.h, w.f);
    if ret != 0 {
      w1 := w;
      return false, w1;
    }
    ghost var more :| dtb.Strings() == ds + more;
    ghost var x := RestAt(w.f, First(0, w.f, gs, q)).value;
    NamesOfKids(w.f, First(0, w.f, gs, q), gs);
    RemovedRoom(x, gs);
    var r := DelEndpoint(grp, name, compat, w.f);
    w1 := MovedWork(gs, ds, more, ug, ud, Used(grp.h), Used(dtb.h), w, lim, q, l, k);
    HouseOf(gs, dtb.Strings(), Used(grp.h), Used(dtb.h), w1, lim);
    ok := true;
  }

  lemma HousedIs(f: Forest, strs: seq<byte>, e: int)
    requires IsNode(f, e)
    ensures Housed(f, strs, e) == View(RestAt(f, e).value.kids, strs)
  {
  }

  lemma HouseOf(gs: seq<byte>, ds: seq<byte>, ug: int, ud: int, w: Work, lim: Limits)
    requires WorkIn(gs, ds, ug, ud, w, lim)
    ensures IsNode(w.f, w.e) && IsNode(w.h, w.e1)
  {
    hide Cutting, CostKids, First, HiddenBut, RestAt, Housed;
  }

  /** Cutting a node out frees what putting its contents back can need. */
  lemma RemovedRoom(x: Forest, strs: seq<byte>)
    requires x.Sub? && NamesOk(x.kids, strs)
    ensures NodeSize(x) >= HdrSize(x.name) + 4 + Cost(strs, View(x.kids, strs))
  {
    hide HdrSize, Size, CostProps, CostKids, View, NamesOk;
    HeldCost(x.kids, strs);
  }

  /** One entry of the descriptor: an entry without a name asks for the name of the
      first compatible node. */
  method CutEntry(grp: Blob, dtb: Blob, ep: EpName, ghost w: Work, ghost lim: Limits)
    returns (ok: bool, ghost w1: Work, ghost m: seq<byte>)
    requires Working(grp, dtb, w, lim) && Entry(ep) && Asks(lim, Ask(ep)) && grp != dtb && grp.buf != dtb.buf
    requires IsNode(w.f, w.e)
    modifies grp, grp.buf, dtb, dtb.buf
    ensures Working(grp, dtb, w1, lim) && w1.e == w.e && w1.E0 == w.E0 && w1.used == w.used && IsNode(w1.f, w.e)
    ensures grp.Strings() == old(grp.Strings()) && grp.h.totalsize == old(grp.h).totalsize
    ensures var q := Ask(ep);
            var E := Housed(w.f, old(grp.Strings()), w.e);
            && (ok <==> Pick(E, q).Some?)
            && (ok ==> Pick(E, q).value.name == m && m !in w.C && w1.C == w.C + {m})
            && (ok ==> Housed(w1.f, grp.Strings(), w.e) == Drop(E, q))
            && (!ok ==> w1.C == w.C && Housed(w1.f, grp.Strings(), w.e) == E)
  {
    hide Holds, First, RestAt, Pick, Used, View, Wanted, Drop, PutKids, Asks, Strings, Housed, WorkIn, Compatible;
    ghost var gs := grp.Strings();
    var epName := ep.name;
    m := [];
    if epName.None? {
      LikeFacts(gs, dtb.Strings(), Used(grp.h), Used(dtb.h), w, lim, ep.compat.value);
      var r;
      r, epName := GetCompatibleEndpoint(grp, ep.compat.value, w.f);
      if epName.None? {
        w1 := w;
        return false, w1, m;
      }
    }
    m := epName.value;
    ok, w1 := MoveEndpoint(grp, dtb, epName.value, ep.compat, w, lim);
  }

  /** The compatible node is an endpoint, and asking for it by its name finds it. */
  lemma LikeFacts(gs: seq<byte>, ds: seq<byte>, ug: int, ud: int, w: Work, lim: Limits, c: seq<byte>)
    requires WorkIn(gs, ds, ug, ud, w, lim) && Asks(lim, Like(c))
    ensures IsNode(w.f, w.e) && 0 !in c
    ensures var E, s := Housed(w.f, gs, w.e), First(0, w.f, gs, Like(c));
            && (s < 0 <==> Pick(E, Like(c)).None?)
            && (s >= 0 ==>
                  && IsNode(w.f, s) && RestAt(w.f, s).value.name == Pick(E, Like(c)).value.name
                  && var q := Named(Pick(E, Like(c)).value.name, Some(c));
                  && Asks(lim, q) && Pick(E, q) == Pick(E, Like(c)) && Drop(E, q) == Drop(E, Like(c)))
  {
    hide First, RestAt, House, Pick, Drop, Cutting, CostKids, View, BelowRoot, EndpointList, Wanted, Put, Housed,
      PutKids;
    HouseHome(w.f, gs, w.e, lim);
    HouseHome(w.h, ds, w.e1, lim);
    var E, D := Housed(w.f, gs, w.e), Housed(w.h, ds, w.e1);
    CutLists(w.E0, E, D, w.C, lim);
    var l := Lodger(w.f, gs, w.e, lim, Like(c));
    if Pick(E, Like(c)).Some? {
      ListSingles(E, lim);
      PickFacts(E, Like(c));
      EndpointOf(E, Pick(E, Like(c)).value.name, lim);
      LikeByName(E, c);
    }
  }

  // ---- one subdevice -------------------------------------------------------------------------------

  /** The endpoints E0 are those of E1, unchanged, and copies of the others in D. */
  ghost predicate Split(E0: Dt, E1: Dt, D: Dt) {
    && NamesOf(E1) + NamesOf(D) == NamesOf(E0) && NamesOf(E1) !! NamesOf(D)
    && forall m :: SplitAt(E0, E1, D, m)
  }

  ghost predicate SplitAt(E0: Dt, E1: Dt, D: Dt, m: seq<byte>) {
    && (VExact(E1, m).Some? ==> VExact(E1, m) == VExact(E0, m))
    && (VExact(D, m).Some? ==> VExact(E0, m).Some? && Alike(VExact(D, m).value, VExact(E0, m).value))
  }

  lemma CutSplit(E0: Dt, E: Dt, D: Dt, C: set<seq<byte>>, lim: Limits)
    requires Cutting(E0, E, D, C, lim)
    ensures Split(E0, E, D) && NamesOf(D) == C
  {
    hide Alike, VExact, NamesOf, EndpointList, Singles, Lacks, OnlyNodes, Merge, Apart;
    forall m
      ensures SplitAt(E0, E, D, m) && (m in NamesOf(D) <==> m in C)
      ensures (m in NamesOf(E) <==> m in NamesOf(E0) && m !in C)
                     && (m in C ==> m in NamesOf(E0)) {
      assert MovedAt(E0, E, D, C, m);
      NamesOfIff(E0, m);
      NamesOfIff(E, m);
      NamesOfIff(D, m);
      if m in C {
        CutAlike(E0, E, D, C, lim, m);
      }
    }
  }

  lemma StartWork(gs: seq<byte>, ug: int, ds: seq<byte>, ud: int, f: Forest, e: int, h: Forest, lim: Limits)
    returns (w: Work)
    requires House(f, gs, e, lim) && EndpointList(Housed(f, gs, e), lim) && Sound(lim)
    requires 112 + CostKids([], Housed(f, gs, e)) <= MAX_BLOB_SIZE && ud <= 112
    requires h.Sub? && h.name == [] && OnlyNops(h.next) && View(h.kids, ds) == NO_ENDPOINTS
    ensures w.f == f && w.h == h && w.e == e && w.E0 == Housed(f, gs, e) && w.C == {} && w.used == ug
    ensures WorkIn(gs, ds, ug, ud, w, lim)
  {
    hide First, RestAt, House, View, EndpointList, Housed, Cutting, CostKids, Sound;
    NoCost([]);
    NoCost(gs);
    HouseHome(f, gs, e, lim);
    LimitsOf(Housed(f, gs, e), lim);
    var e1 := NewHouse(h, ds, lim);
    CutStart(Housed(f, gs, e), lim);
    w := Work(f, h, e, e1, Housed(f, gs, e), {}, ug);
  }

  lemma NoCost(strs: seq<byte>)
    ensures CostKids(strs, DNil) == 0
  {
  }

  lemma LimitsOf(E: Dt, lim: Limits)
    requires EndpointList(E, lim)
    ensures ENDPOINTS !in lim.names && [] !in lim.names
  {
  }

  /** When the cut tree is kept, the group's is ready for the next cut. */
  lemma StillReady(gs: seq<byte>, ds: seq<byte>, ug: int, ud: int, w: Work, lim: Limits)
    requires WorkIn(gs, ds, ug, ud, w, lim) && 112 + CostKids([], w.E0) <= MAX_BLOB_SIZE
    ensures IsNode(w.f, w.e) && IsNode(w.h, w.e1)
    ensures var E, D := Housed(w.f, gs, w.e), Housed(w.h, ds, w.e1);
            && House(w.f, gs, w.e, lim) && EndpointList(E, lim) && 112 + CostKids([], E) <= MAX_BLOB_SIZE
            && House(w.h, ds, w.e1, lim) && EndpointList(D, lim)
            && Split(w.E0, E, D) && NamesOf(D) == w.C && ug <= w.used
            && (w.C == {} ==> SameEndpoints(E, w.E0) && NamesOf(E) == NamesOf(w.E0))
  {
    hide First, RestAt, House, View, EndpointList, Housed, Cutting, CostKids, NamesOf, SameEndpoints, SplitAt;
    HouseHome(w.f, gs, w.e, lim);
    HouseHome(w.h, ds, w.e1, lim);
    var E, D := Housed(w.f, gs, w.e), Housed(w.h, ds, w.e1);
    CutLists(w.E0, E, D, w.C, lim);
    CutSplit(w.E0, E, D, w.C, lim);
    if w.C == {} {
      NothingCut(w.E0, E, D, lim);
    }
  }

  lemma NothingCut(E0: Dt, E: Dt, D: Dt, lim: Limits)
    requires Cutting(E0, E, D, {}, lim)
    ensures SameEndpoints(E, E0)
  {
    hide Alike, VExact;
    forall m ensures SameEndpoint(E, E0, m) {
      assert MovedAt(E0, E, D, {}, m);
      if VExact(E, m).Some? {
        AlikeSelf(VExact(E, m).value);
      }
    }
  }

  /** Putting everything back must succeed, and then all endpoints are there. */
  lemma CanPutBack(gs: seq<byte>, ds: seq<byte>, ug: int, ud: int, w: Work, lim: Limits)
    requires WorkIn(gs, ds, ug, ud, w, lim)
    ensures IsNode(w.f, w.e) && IsNode(w.h, w.e1) && w.e > 0 && w.e1 > 0
    ensures First(0, w.h, ds, Named(ENDPOINTS, None)) == w.e1
    ensures First(0, w.f, gs, Named(ENDPOINTS, None)) == w.e
    ensures forall below :: Site(w.f, gs, Named(ENDPOINTS, None), below) == w.e
    ensures Acceptable(Housed(w.h, ds, w.e1), 0) && ug + Cost(gs, Housed(w.h, ds, w.e1)) <= w.used
    ensures Strings(Named(ENDPOINTS, None)) && |ENDPOINTS| < INT_LIMIT - 16
  {
    hide First, RestAt, House, View, EndpointList, Housed, Cutting, CostKids, Acceptable, Cost;
    HouseHome(w.f, gs, w.e, lim);
    HouseHome(w.h, ds, w.e1, lim);
    CutAcceptable(w.E0, Housed(w.f, gs, w.e), Housed(w.h, ds, w.e1), w.C, lim);
  }

  lemma BackWork(gs: seq<byte>, more: seq<byte>, ds: seq<byte>, ug: int, ud: int, w: Work, lim: Limits, k: Forest)
    requires WorkIn(gs, ds, ug, ud, w, lim) && NamesOk(w.f, gs) && IsNode(w.f, w.e) && IsNode(w.h, w.e1)
    requires 112 + CostKids([], w.E0) <= MAX_BLOB_SIZE
    requires View(k, gs + more) == Merge(Housed(w.f, gs, w.e), Housed(w.h, ds, w.e1))
    ensures var f1 := PutKids(w.f, w.e, k);
            && House(f1, gs + more, w.e, lim)
            && var E := Housed(f1, gs + more, w.e);
            && EndpointList(E, lim) && 112 + CostKids([], E) <= MAX_BLOB_SIZE
            && SameEndpoints(E, w.E0) && NamesOf(E) == NamesOf(w.E0)
  {
    hide First, RestAt, House, View, EndpointList, Housed, Cutting, CostKids, NamesOf, SameEndpoints, PutKids, Merge,
      NamesOk;
    var E, D := Housed(w.f, gs, w.e), Housed(w.h, ds, w.e1);
    HouseKept(w.f, gs, more, w.e, k, lim);
    PutBack(w.E0, E, D, w.C, lim);
    CostMerge([], E, D);
  }

  /** The cleanup of xrt_grp_cut_subdev_dtb. */
  method Restore(grp: Blob, dtb: Blob, ghost w: Work, ghost lim: Limits) returns (ghost f1: Forest)
    requires Working(grp, dtb, w, lim) && grp != dtb && grp.buf != dtb.buf && w.used <= grp.h.totalsize
    requires 112 + CostKids([], w.E0) <= MAX_BLOB_SIZE
    modifies grp, grp.buf
    ensures Ready(grp, f1, w.e, lim) && SameEndpoints(Housed(f1, grp.Strings(), w.e), w.E0)
    ensures NamesOf(Housed(f1, grp.Strings(), w.e)) == NamesOf(w.E0)
    ensures grp.h.totalsize == old(grp.h).totalsize && Used(grp.h) <= w.used
    ensures exists more :: grp.Strings() == old(grp.Strings()) + more
  {
    hide Holds, First, RestAt, House, Acceptable, Cost, CostKids, Used, View, Site, PutKids, Merge, Strings, Housed,
      NamesOk, Size, EndpointList, NamesOf, SameEndpoints, Cutting, Sound;
    ghost var gs, ds, ug, ud := grp.Strings(), dtb.Strings(), Used(grp.h), Used(dtb.h);
    CanPutBack(gs, ds, ug, ud, w, lim);
    NamesHeld(grp, w.f);
    HousedIs(w.f, gs, w.e);
    HousedIs(w.h, ds, w.e1);
    var ret;
    ghost var k;
    ret, k := CopyEndpoint(grp, dtb, ENDPOINTS, None, None, w.f, w.h);
    f1 := PutKids(w.f, w.e, k);
    ghost var more :| grp.Strings() == gs + more;
    BackWork(gs, more, ds, ug, ud, w, lim, k);
  }

  /** xrt_grp_cut_subdev_dtb: with enough endpoints for the descriptor they are
      moved to a new tree, else the group has all its endpoints as before. */
  method CutSubdevDtb(grp: Blob, eps: Eps, ghost f: Forest, ghost e: int, ghost lim: Limits)
    returns (ret: int, dtb: Blob?, ghost f1: Forest, ghost h: Forest, ghost e1: int)
    requires Ready(grp, f, e, lim) && Listed(eps.names, lim) && IsNode(f, e)
    modifies grp, grp.buf
    ensures ret == 0 && Ready(grp, f1, e, lim) && IsNode(f1, e)
    ensures grp.h.totalsize == old(grp.h).totalsize && Used(grp.h) <= Used(old(grp.h))
    ensures exists more :: grp.Strings() == old(grp.Strings()) + more
    ensures var E0, E1 := Housed(f, old(grp.Strings()), e), Housed(f1, grp.Strings(), e);
            && (dtb != null <==> Count(E0, eps.names) >= eps.minEp)
            && (dtb == null ==> SameEndpoints(E1, E0) && NamesOf(E1) == NamesOf(E0))
            && (dtb != null ==>
                  && fresh(dtb) && fresh(dtb.buf) && Holds(dtb, h) && House(h, dtb.Strings(), e1, lim) && IsNode(h, e1)
                  && Split(E0, E1, Housed(h, dtb.Strings(), e1))
                  && NamesOf(Housed(h, dtb.Strings(), e1)) == Taken(E0, eps.names)
                  && |NamesOf(Housed(h, dtb.Strings(), e1))| == Count(E0, eps.names))
  {
    hide Holds, First, RestAt, House, CostKids, Used, View, PutKids, Housed, WorkIn, EndpointList, NamesOf,
      SameEndpoints,
      Split, Asks, Count, Taken, Pick, Drop, Sound;
    ghost var E0, gs := Housed(f, grp.Strings(), e), grp.Strings();
    assert gs == gs + [];
    var cut;
    ret, cut, h := Create();
    if ret != 0 {
      return ret, null, f, h, 0;
    }
    LaidOf(grp, f);
    UsedFits(grp.h, grp.buf.Length);
    ghost var w := StartWork(gs, Used(grp.h), cut.Strings(), Used(cut.h), f, e, h, lim);
    var i, epCount := 0, 0;
    assert eps.names[0..] == eps.names;
    while i < |eps.names|
      invariant 0 <= i <= |eps.names| && epCount == |w.C|
      invariant Working(grp, cut, w, lim) && w.e == e && w.E0 == E0 && IsNode(w.f, e) && w.used == old(Used(grp.h))
      invariant grp.Strings() == gs && grp.h.totalsize == old(grp.h).totalsize
      invariant epCount + Count(Housed(w.f, gs, e), eps.names[i..]) == Count(E0, eps.names)
      invariant w.C + Taken(Housed(w.f, gs, e), eps.names[i..]) == Taken(E0, eps.names)
    {
      ghost var E, C := Housed(w.f, gs, e), w.C;
      ListedOne(eps.names, lim, i);
      CountStep(E, eps.names, i);
      var ok;
      ghost var m;
      ok, w, m := CutEntry(grp, cut, eps.names[i], w, lim);
      if ok {
        epCount := epCount + 1;
      }
      i := i + 1;
    }
    CountNone(Housed(w.f, gs, e), eps.names[i..]);
    StillReady(gs, cut.Strings(), Used(grp.h), Used(cut.h), w, lim);
    f1, h, e1 := w.f, w.h, w.e1;
    ret := 0;
    if epCount >= eps.minEp {
      dtb := cut;
      return;
    }
    if epCount > 0 {
      f1 := Restore(grp, cut, w, lim);
      ReadyNode(grp, f1, e, lim);
    }
    dtb := null;
  }

  lemma ReadyNode(b: Blob, f: Forest, e: int, lim: Limits)
    requires Ready(b, f, e, lim)
    ensures IsNode(f, e)
  {
    HouseHome(f, b.Strings(), e, lim);
  }

  lemma UsedFits(h: Header, cap: int)
    requires Laid(h, cap)
    ensures Used(h) <= h.totalsize
  {
  }

  lemma ListedOne(names: seq<EpName>, lim: Limits, i: int)
    requires Listed(names, lim) && 0 <= i < |names|
    ensures Entry(names[i]) && Asks(lim, Ask(names[i]))
  {
    hide Asks, Ask;
  }

  lemma CountStep(E: Dt, names: seq<EpName>, i: int)
    requires 0 <= i < |names| && Entry(names[i])
    ensures var q := Ask(names[i]);
            && Count(E, names[i..]) ==
               (if Pick(E, q).Some? then 1 + Count(Drop(E, q), names[i + 1..]) else Count(E, names[i + 1..]))
            && Taken(E, names[i..]) ==
               if Pick(E, q).Some? then {Pick(E, q).value.name} + Taken(Drop(E, q), names[i + 1..])
               else Taken(E, names[i + 1..])
  {
    hide Pick, Drop;
    assert names[i..][1..] == names[i + 1..];
  }

  lemma CountNone(E: Dt, names: seq<EpName>)
    requires names == []
    ensures Count(E, names) == 0 && Taken(E, names) == {}
  {
  }

  // ---- all leaves of a group ---------------------------------------------------------------------------

  /** Each endpoint of D is one of E0, with the same nodes and values. */
  ghost predicate PartOf(D: Dt, E0: Dt) {
    forall m :: PartAt(D, E0, m)
  }

  ghost predicate PartAt(D: Dt, E0: Dt, m: seq<byte>) {
    VExact(D, m).Some? ==> VExact(E0, m).Some? && Alike(VExact(D, m).value, VExact(E0, m).value)
  }

  predicate InSome(parts: seq<Dt>, m: seq<byte>) {
    exists i :: 0 <= i < |parts| && m in NamesOf(parts[i])
  }

  /** The endpoints E0 of a group are shared out: every one is still in E or in one
      of the parts, none in two places, and each as it was. */
  ghost predicate Shared(E0: Dt, E: Dt, parts: seq<Dt>) {
    && PartOf(E, E0)
    && (forall i :: 0 <= i < |parts| ==>
          PartOf(parts[i], E0) && NamesOf(parts[i]) != {} && NamesOf(parts[i]) !! NamesOf(E))
    && (forall i, j :: 0 <= i < j < |parts| ==> NamesOf(parts[i]) !! NamesOf(parts[j]))
    && (forall m :: m in NamesOf(E0) ==> m in NamesOf(E) || InSome(parts, m))
  }

  lemma ShareStart(E0: Dt)
    ensures Shared(E0, E0, [])
  {
    hide Alike, VExact, NamesOf;
    forall m ensures PartAt(E0, E0, m) {
      if VExact(E0, m).Some? {
        AlikeSelf(VExact(E0, m).value);
      }
    }
  }

  lemma PartTrans(D: Dt, E: Dt, E0: Dt)
    requires PartOf(D, E) && PartOf(E, E0)
    ensures PartOf(D, E0)
  {
    hide Alike, VExact;
    forall m ensures PartAt(D, E0, m) {
      assert PartAt(D, E, m) && PartAt(E, E0, m);
      if VExact(D, m).Some? {
        AlikeTrans(VExact(D, m).value, VExact(E, m).value, VExact(E0, m).value);
      }
    }
  }

  lemma SplitParts(E: Dt, E1: Dt, D: Dt)
    requires Split(E, E1, D)
    ensures PartOf(E1, E) && PartOf(D, E)
  {
    hide Alike, VExact, NamesOf;
    forall m ensures PartAt(E1, E, m) && PartAt(D, E, m) {
      assert SplitAt(E, E1, D, m);
      if VExact(E1, m).Some? {
        AlikeSelf(VExact(E1, m).value);
      }
    }
  }

  /** One more part taken. */
  lemma ShareStep(E0: Dt, E: Dt, parts: seq<Dt>, E1: Dt, D: Dt)
    requires Shared(E0, E, parts) && Split(E, E1, D) && NamesOf(D) != {}
    ensures Shared(E0, E1, parts + [D]) && |NamesOf(E1)| < |NamesOf(E)|
  {
    hide PartOf, NamesOf, SplitAt;
    SplitParts(E, E1, D);
    PartTrans(E1, E, E0);
    PartTrans(D, E, E0);
    var all := parts + [D];
    forall m | m in NamesOf(E0) ensures m in NamesOf(E1) || InSome(all, m) {
      if InSome(parts, m) {
        var i :| 0 <= i < |parts| && m in NamesOf(parts[i]);
        assert all[i] == parts[i];
      } else if m !in NamesOf(E1) {
        assert m in NamesOf(E);
        assert all[|parts|] == D;
      }
    }
    assert NamesOf(E) == NamesOf(E1) + NamesOf(D);
    assert |NamesOf(E)| == |NamesOf(E1)| + |NamesOf(D)|;
  }

  /** Nothing taken, but put back. */
  lemma ShareSame(E0: Dt, E: Dt, parts: seq<Dt>, E1: Dt)
    requires Shared(E0, E, parts) && SameEndpoints(E1, E) && NamesOf(E1) == NamesOf(E)
    ensures Shared(E0, E1, parts)
  {
    hide Alike, VExact, NamesOf;
    forall m ensures PartAt(E1, E0, m) {
      assert SameEndpoint(E1, E, m) && PartAt(E, E0, m);
      if VExact(E1, m).Some? {
        AlikeTrans(VExact(E1, m).value, VExact(E, m).value, VExact(E0, m).value);
      }
    }
  }

  /** Fewer endpoints are never found by more entries, if these have names. */
  lemma CountLess(E: Dt, E0: Dt, names: seq<EpName>)
    requires Singles(E) && Singles(E0) && PartOf(E, E0) && ByName(names)
    ensures Taken(E, names) <= Taken(E0, names) && Count(E, names) <= Count(E0, names)
  {
    hide Alike, VExact, Singles, SomeAbout, Taken, Count, NamesOf;
    forall m | m in Taken(E, names) ensures m in Taken(E0, names) {
      TakenIff(E, names, m);
      TakenIff(E0, names, m);
      assert PartAt(E, E0, m);
      AlikeAbout(names, m, VExact(E, m).value, VExact(E0, m).value);
    }
    TakenCount(E, names);
    TakenCount(E0, names);
    SubsetSize(Taken(E, names), Taken(E0, names));
  }

  lemma AlikeAbout(names: seq<EpName>, m: seq<byte>, k: Dt, k0: Dt)
    requires Alike(k, k0)
    ensures SomeAbout(names, m, k) <==> SomeAbout(names, m, k0)
  {
    hide ListHas;
    assert AlikeAt(k, k0, [], COMPATIBLE);
    assert forall i :: 0 <= i < |names| ==> (About(names[i], m, k) <==> About(names[i], m, k0));
  }

  lemma SubsetSize(a: set<seq<byte>>, b: set<seq<byte>>)
    requires a <= b
    ensures |a| <= |b|
  {
    assert b == a + (b - a);
  }

  // ---- the walk over the drivers ---------------------------------------------------------------------

  /** A descriptor of a driver. */
  datatype Desc = Desc(did: nat, eps: Eps)

  /** A tree handed to the pool, for that driver, and what the pool answered. */
  datatype Handed = Handed(did: nat, part: Dt, ret: int)

  /** One cut: the endpoints that are left, and the tree that came of it. */
  datatype Round = Round(after: Dt, leaf: Option<Handed>)

  /** The descriptors of one driver, and of all drivers from the did-th on. */
  function DescsOf(did: nat, eps: seq<Eps>): seq<Desc> {
    seq(|eps|, i requires 0 <= i < |eps| => Desc(did, eps[i]))
  }

  function Descs(drivers: seq<seq<Eps>>, did: nat): seq<Desc>
    decreases |drivers| - did
  {
    if did >= |drivers| then [] else DescsOf(did, drivers[did]) + Descs(drivers, did + 1)
  }

  /** Asking a descriptor: a tree with all the endpoints its entries take, if these
      are enough, else nothing but what was put back. */
  ghost predicate Asked(E: Dt, d: Desc, r: Round) {
    && Singles(r.after) && (r.leaf.Some? <==> Count(E, d.eps.names) >= d.eps.minEp)
    && (r.leaf.None? ==> SameEndpoints(r.after, E) && NamesOf(r.after) == NamesOf(E))
    && (r.leaf.Some? ==>
          && r.leaf.value.did == d.did && Split(E, r.after, r.leaf.value.part)
          && NamesOf(r.leaf.value.part) == Taken(E, d.eps.names))
  }

  /** A descriptor that yields a tree is asked again. */
  function Next(todo: seq<Desc>, r: Round): seq<Desc>
    requires todo != []
  {
    if r.leaf.Some? then todo else todo[1..]
  }

  /** The rounds lead from the endpoints E and the descriptors todo to left and rest. */
  ghost predicate Walked(E: Dt, todo: seq<Desc>, rounds: seq<Round>, left: Dt, rest: seq<Desc>)
    decreases |rounds|
  {
    if rounds == [] then left == E && rest == todo
    else
      && todo != [] && Asked(E, todo[0], rounds[0])
      && Walked(rounds[0].after, Next(todo, rounds[0]), rounds[1..], left, rest)
  }

  /** The trees of the rounds, in order. */
  function LeavesOf(rounds: seq<Round>): seq<Handed> {
    if rounds == [] then []
    else
      var r := rounds[|rounds| - 1];
      LeavesOf(rounds[..|rounds| - 1]) + if r.leaf.Some? then [r.leaf.value] else []
  }

  function Parts(leaves: seq<Handed>): seq<Dt> {
    seq(|leaves|, i requires 0 <= i < |leaves| => leaves[i].part)
  }

  /** The pool took them all. */
  predicate AllAdded(leaves: seq<Handed>) {
    forall i :: 0 <= i < |leaves| ==> leaves[i].ret >= 0
  }

  lemma {:induction false} WalkedMore(E: Dt, todo: seq<Desc>, rounds: seq<Round>, left: Dt, rest: seq<Desc>, r: Round)
    requires Walked(E, todo, rounds, left, rest) && rest != [] && Asked(left, rest[0], r)
    ensures Walked(E, todo, rounds + [r], r.after, Next(rest, r))
    decreases |rounds|
  {
    hide Asked;
    if rounds == [] {
      assert (rounds + [r])[1..] == [];
    } else {
      WalkedMore(rounds[0].after, Next(todo, rounds[0]), rounds[1..], left, rest, r);
      assert (rounds + [r])[1..] == rounds[1..] + [r] && (rounds + [r])[0] == rounds[0];
    }
  }

  lemma LeavesMore(rounds: seq<Round>, r: Round)
    ensures LeavesOf(rounds + [r]) == LeavesOf(rounds) + if r.leaf.Some? then [r.leaf.value] else []
    ensures r.leaf.Some? ==>
      && Parts(LeavesOf(rounds + [r])) == Parts(LeavesOf(rounds)) + [r.leaf.value.part]
      && (AllAdded(LeavesOf(rounds + [r])) <==> AllAdded(LeavesOf(rounds)) && r.leaf.value.ret >= 0)
  {
    assert (rounds + [r])[..|rounds|] == rounds;
    if r.leaf.Some? {
      var a, b := LeavesOf(rounds), LeavesOf(rounds) + [r.leaf.value];
      assert forall i :: 0 <= i < |a| ==> b[i] == a[i];
      assert b[|a|] == r.leaf.value;
    }
  }

  lemma AskedPart(E: Dt, d: Desc, r: Round)
    requires Asked(E, d, r)
    ensures PartOf(r.after, E)
  {
    hide Alike, VExact, NamesOf, Singles, Count, Taken;
    if r.leaf.Some? {
      SplitParts(E, r.after, r.leaf.value.part);
    } else {
      forall m ensures PartAt(r.after, E, m) {
        assert SameEndpoint(r.after, E, m);
      }
    }
  }

  lemma PartSelf(E: Dt)
    ensures PartOf(E, E)
  {
    hide Alike, VExact;
    forall m ensures PartAt(E, E, m) {
      if VExact(E, m).Some? {
        AlikeSelf(VExact(E, m).value);
      }
    }
  }

  /** A walk to the end leaves no descriptor of named endpoints that would still find
      its minimum. */
  lemma {:induction false} NothingMissed(E: Dt, todo: seq<Desc>, rounds: seq<Round>, left: Dt)
    requires Singles(E) && Walked(E, todo, rounds, left, [])
    ensures PartOf(left, E) && Singles(left)
    ensures forall i :: 0 <= i < |todo| && ByName(todo[i].eps.names) ==>
              Count(left, todo[i].eps.names) < todo[i].eps.minEp
    decreases |rounds|
  {
    hide PartOf, Singles, Asked, Count;
    if rounds == [] {
      PartSelf(E);
    } else {
      var r := rounds[0];
      var later := Next(todo, r);
      AskedSingles(E, todo[0], r);
      NothingMissed(r.after, later, rounds[1..], left);
      AskedPart(E, todo[0], r);
      PartTrans(left, r.after, E);
      forall i | 0 <= i < |todo| && ByName(todo[i].eps.names)
        ensures Count(left, todo[i].eps.names) < todo[i].eps.minEp {
        if r.leaf.None? && i == 0 {
          CountLess(left, E, todo[0].eps.names);
        } else {
          assert todo[i] == later[if r.leaf.Some? then i else i - 1];
        }
      }
    }
  }

  /** A descriptor that needs nothing always yields a tree: the walk never gets past
      it. */
  lemma {:induction false} NeverPast(E: Dt, todo: seq<Desc>, rounds: seq<Round>, left: Dt, rest: seq<Desc>)
    requires Walked(E, todo, rounds, left, rest) && todo != [] && todo[0].eps.minEp == 0
    ensures rest == todo
    decreases |rounds|
  {
    hide Split, SameEndpoints, Singles, NamesOf, Count, Taken;
    if rounds != [] {
      NeverPast(rounds[0].after, todo, rounds[1..], left, rest);
    }
  }

  lemma AskedSingles(E: Dt, d: Desc, r: Round)
    requires Asked(E, d, r)
    ensures Singles(r.after) && (r.leaf.None? ==> Count(E, d.eps.names) < d.eps.minEp)
  {
    hide Singles, Split, SameEndpoints, NamesOf, Count, Taken;
  }

  lemma {:induction false} DescAmong(drivers: seq<seq<Eps>>, from: nat, d: nat, j: nat) returns (i: nat)
    requires from <= d < |drivers| && j < |drivers[d]|
    ensures i < |Descs(drivers, from)| && Descs(drivers, from)[i] == Desc(d, drivers[d][j])
    decreases d - from
  {
    if d == from {
      i := j;
    } else {
      var k := DescAmong(drivers, from + 1, d, j);
      i := |drivers[from]| + k;
    }
  }

  /** Every driver's descriptors look for what the limits name, and need at least
      one endpoint. */
  predicate Drivers(drivers: seq<seq<Eps>>, lim: Limits) {
    forall d, j :: 0 <= d < |drivers| && 0 <= j < |drivers[d]| ==>
      Listed(drivers[d][j].names, lim) && drivers[d][j].minEp >= 1
  }

  /** vmalloc and memcpy of a blob. */
  method CopyBlob(b: Blob, ghost f: Forest) returns (c: Blob)
    requires Holds(b, f)
    ensures fresh(c) && fresh(c.buf) && Holds(c, f) && c.h == b.h && c.Strings() == b.Strings()
  {
    hide TreeIn, NamesOk;
    c := new Blob(b.h.totalsize);
    c.h := b.h;
    forall i | 0 <= i < b.h.totalsize {
      c.buf[i] := b.buf[i];
    }
    assert b.buf[..][..c.buf.Length] == c.buf[..];
    SameBytes(b.buf[..], c.buf[..], b.h.offStruct, b.h.sizeStruct);
    SameBytes(b.buf[..], c.buf[..], b.h.offStrings, b.h.sizeStrings);
    assert c.StructBlock() == b.StructBlock() && c.Strings() == b.Strings();
  }

  lemma SameBytes(s: seq<byte>, t: seq<byte>, a: int, n: int)
    requires 0 <= a && 0 <= n && a + n <= |t| <= |s| && s[..|t|] == t
    ensures Region(s, a, n) == Region(t, a, n)
  {
    forall j | a <= j < a + n ensures s[j] == t[j - a + a] {
      assert s[..|t|][j] == t[j];
    }
    SameSlice(s, a, t, a, n);
  }

  // ---- where the walk stands --------------------------------------------------------------------------

  /** The descriptors from the eps-th of a driver on. */
  function Ahead(drivers: seq<seq<Eps>>, did: nat, eps: nat): seq<Desc>
    requires did < |drivers| && eps <= |drivers[did]|
  {
    DescsOf(did, drivers[did][eps..]) + Descs(drivers, did + 1)
  }

  lemma WalkStart(E0: Dt, todo: seq<Desc>)
    ensures Walked(E0, todo, [], E0, todo) && Shared(E0, E0, Parts(LeavesOf([]))) && AllAdded(LeavesOf([]))
    ensures LeavesOf([]) == []
  {
    hide Shared;
    ShareStart(E0);
    assert Parts([]) == [];
  }

  lemma DriverStart(drivers: seq<seq<Eps>>, did: nat)
    requires did < |drivers|
    ensures Ahead(drivers, did, 0) == Descs(drivers, did)
  {
    assert drivers[did][0..] == drivers[did];
  }

  lemma DescAhead(drivers: seq<seq<Eps>>, did: nat, eps: nat)
    requires did < |drivers| && eps < |drivers[did]|
    ensures Ahead(drivers, did, eps) != [] && Ahead(drivers, did, eps)[0] == Desc(did, drivers[did][eps])
    ensures Ahead(drivers, did, eps)[1..] == Ahead(drivers, did, eps + 1)
  {
    hide Descs;
    var a, b := drivers[did][eps..], drivers[did][eps + 1..];
    assert DescsOf(did, a)[1..] == DescsOf(did, b);
  }

  lemma DriverEnd(drivers: seq<seq<Eps>>, did: nat)
    requires did < |drivers|
    ensures Ahead(drivers, did, |drivers[did]|) == Descs(drivers, did + 1)
  {
    hide Descs;
    assert DescsOf(did, drivers[did][|drivers[did]|..]) == [];
  }

  lemma DriversEnd(drivers: seq<seq<Eps>>)
    ensures Descs(drivers, |drivers|) == []
  {
  }

  /** A round keeps the sharing; the tree that came of it, if any, took something. */
  lemma RoundShared(E0: Dt, E: Dt, rounds: seq<Round>, d: Desc, r: Round)
    requires Shared(E0, E, Parts(LeavesOf(rounds))) && Asked(E, d, r) && d.eps.minEp >= 1 && Singles(E)
    ensures Shared(E0, r.after, Parts(LeavesOf(rounds + [r])))
    ensures |NamesOf(r.after)| <= |NamesOf(E)| && (r.leaf.Some? ==> |NamesOf(r.after)| < |NamesOf(E)|)
    ensures LeavesOf(rounds + [r]) == LeavesOf(rounds) + if r.leaf.Some? then [r.leaf.value] else []
    ensures AllAdded(LeavesOf(rounds + [r])) <==>
            AllAdded(LeavesOf(rounds)) && (r.leaf.Some? ==> r.leaf.value.ret >= 0)
  {
    hide Shared, Split, SameEndpoints, Singles, NamesOf, LeavesOf, Parts, AllAdded, Count, Taken;
    LeavesMore(rounds, r);
    if r.leaf.Some? {
      TakenCount(E, d.eps.names);
      ShareStep(E0, E, Parts(LeavesOf(rounds)), r.after, r.leaf.value.part);
    } else {
      ShareSame(E0, E, Parts(LeavesOf(rounds)), r.after);
      assert LeavesOf(rounds) + [] == LeavesOf(rounds);
    }
  }

  lemma NothingLeft(drivers: seq<seq<Eps>>, E0: Dt, rounds: seq<Round>, left: Dt)
    requires Singles(E0) && Walked(E0, Descs(drivers, 0), rounds, left, [])
    ensures forall d, j :: 0 <= d < |drivers| && 0 <= j < |drivers[d]| && ByName(drivers[d][j].names) ==>
              Count(left, drivers[d][j].names) < drivers[d][j].minEp
  {
    hide Singles, Walked, Descs, ByName, Count;
    NothingMissed(E0, Descs(drivers, 0), rounds, left);
    forall d, j | 0 <= d < |drivers| && 0 <= j < |drivers[d]| && ByName(drivers[d][j].names)
      ensures Count(left, drivers[d][j].names) < drivers[d][j].minEp {
      var i := DescAmong(drivers, 0, d, j);
    }
  }

  class Leaves {
    const dtb: Blob
    var created: bool
    // the trees that were handed to the pool
    ghost var handed: seq<Handed>

    constructor (d: Blob)
      ensures dtb == d && !created && handed == []
    {
      dtb := d;
      created := false;
      handed := [];
    }

    /** xrt_subdev_pool_add, which copies the tree it is given and may fail. */
    method PoolAdd(did: nat, tree: Blob, ghost h: Forest, ghost e: int) returns (ret: int)
      requires Holds(tree, h) && IsNode(h, e)
      modifies this`handed
      ensures handed == old(handed) + [Handed(did, Housed(h, tree.Strings(), e), ret)]
    {
      ret := *;
      handed := handed + [Handed(did, Housed(h, tree.Strings(), e), ret)];
    }

    /** One round of the loop: cut a tree for the descriptor and hand it to the pool. */
    method CutLeaf(grp: Blob, did: nat, eps: Eps, ghost g: Forest, ghost e: int, ghost lim: Limits)
      returns (more: bool, failed: int, ghost g1: Forest, ghost r: Round)
      requires Ready(grp, g, e, lim) && IsNode(g, e) && Listed(eps.names, lim)
      modifies this`handed, grp, grp.buf
      ensures Ready(grp, g1, e, lim) && IsNode(g1, e) && r.after == Housed(g1, grp.Strings(), e)
      ensures Asked(Housed(g, old(grp.Strings()), e), Desc(did, eps), r) && (more <==> r.leaf.Some?)
      ensures handed == old(handed) + if more then [r.leaf.value] else []
      ensures failed >= 0 && (failed > 0 <==> more && r.leaf.value.ret < 0)
    {
      hide Holds, House, Housed, EndpointList, CostKids, Sound, Used, Split, SameEndpoints, NamesOf, Listed, Count,
        Taken, View, RestAt, Singles;
      var ret, cut;
      ghost var h, e1;
      failed := 0;
      ret, cut, g1, h, e1 := CutSubdevDtb(grp, eps, g, e, lim);
      if ret != 0 {
        failed := failed + 1;
      }
      ghost var left := Housed(g1, grp.Strings(), e);
      ListSingles(left, lim);
      if cut == null {
        more, r := false, Round(left, None);
        return;
      }
      ghost var part := Housed(h, cut.Strings(), e1);
      ret := PoolAdd(did, cut, h, e1);
      if ret < 0 {
        failed := failed + 1;
      }
      more, r := true, Round(left, Some(Handed(did, part, ret)));
    }

    /** xrt_grp_create_leaves: the loops end; each descriptor is asked until it finds
        less than its minimum, and every tree cut for it is handed to the pool; the
        endpoints are shared out among these trees and what is left; what is left has
        the minimum of no descriptor by name; and the result is 0 exactly when the
        pool took every tree. The platform's own blob is not touched. */
    method CreateLeaves(drivers: seq<seq<Eps>>, ghost f: Forest, ghost e: int, ghost lim: Limits)
      returns (ret: int, ghost left: Dt, ghost rounds: seq<Round>)
      requires Ready(dtb, f, e, lim) && IsNode(f, e) && Drivers(drivers, lim)
      modifies this
      ensures dtb.h.totalsize > MAX_BLOB_SIZE ==>
        ret == EINVAL && created == old(created) && handed == old(handed)
      ensures dtb.h.totalsize <= MAX_BLOB_SIZE && old(created) ==> ret == EEXIST && created && handed == old(handed)
      ensures dtb.h.totalsize <= MAX_BLOB_SIZE && !old(created) ==>
        && created && handed == old(handed) + LeavesOf(rounds)
        && ret == (if AllAdded(LeavesOf(rounds)) then 0 else ECHILD)
        && Walked(Housed(f, dtb.Strings(), e), Descs(drivers, 0), rounds, left, [])
        && Shared(Housed(f, dtb.Strings(), e), left, Parts(LeavesOf(rounds)))
        && forall d, j :: 0 <= d < |drivers| && 0 <= j < |drivers[d]| && ByName(drivers[d][j].names) ==>
             Count(left, drivers[d][j].names) < drivers[d][j].minEp
    {
      hide Holds, House, Housed, EndpointList, CostKids, Sound, Used, Shared, NamesOf, Listed, Count, Drivers, View,
        RestAt, Walked, Asked, Descs, DescsOf, LeavesOf, Parts, AllAdded, Singles, ByName;
      ghost var E0 := Housed(f, dtb.Strings(), e);
      left, rounds := E0, [];
      if dtb.h.totalsize > MAX_BLOB_SIZE {
        return EINVAL, left, rounds;
      }
      if created {
        return EEXIST, left, rounds;
      }
      var grp := CopyBlob(dtb, f);
      ghost var g := f;
      WalkStart(E0, Descs(drivers, 0));
      var failed := 0;
      for did := 0 to |drivers|
        invariant fresh(grp) && fresh(grp.buf) && Ready(grp, g, e, lim) && IsNode(g, e) && created == old(created)
        invariant left == Housed(g, grp.Strings(), e)
        invariant Walked(E0, Descs(drivers, 0), rounds, left, Descs(drivers, did))
        invariant Shared(E0, left, Parts(LeavesOf(rounds))) && handed == old(handed) + LeavesOf(rounds)
        invariant failed >= 0 && (failed == 0 <==> AllAdded(LeavesOf(rounds)))
      {
        var eps := 0;
        DriverStart(drivers, did);
        while eps < |drivers[did]|
          invariant 0 <= eps <= |drivers[did]|
          invariant fresh(grp) && fresh(grp.buf) && Ready(grp, g, e, lim) && IsNode(g, e) && created == old(created)
          invariant left == Housed(g, grp.Strings(), e)
          invariant Walked(E0, Descs(drivers, 0), rounds, left, Ahead(drivers, did, eps))
          invariant Shared(E0, left, Parts(LeavesOf(rounds))) && handed == old(handed) + LeavesOf(rounds)
          invariant failed >= 0 && (failed == 0 <==> AllAdded(LeavesOf(rounds)))
          decreases |NamesOf(left)|, |drivers[did]| - eps
        {
          DriverAsks(drivers, lim, did, eps);
          DescAhead(drivers, did, eps);
          ListSingles(left, lim);
          var more, bad;
          ghost var was, r := left, Round(DNil, None);
          more, bad, g, r := CutLeaf(grp, did, drivers[did][eps], g, e, lim);
          failed := failed + bad;
          left := r.after;
          WalkedMore(E0, Descs(drivers, 0), rounds, was, Ahead(drivers, did, eps), r);
          RoundShared(E0, was, rounds, Desc(did, drivers[did][eps]), r);
          rounds := rounds + [r];
          if !more {
            eps := eps + 1;
          }
        }
        DriverEnd(drivers, did);
      }
      DriversEnd(drivers);
      ListSingles(E0, lim);
      NothingLeft(drivers, E0, rounds, left);
      created := true;
      ret := if failed == 0 then 0 else ECHILD;
    }

    /** xrt_grp_remove_leaves */
    method RemoveLeaves()
      modifies this
      ensures !created
    {
      if created {
        created := false;
      }
    }
  }

  lemma DriverAsks(drivers: seq<seq<Eps>>, lim: Limits, d: int, j: int)
    requires Drivers(drivers, lim) && 0 <= d < |drivers| && 0 <= j < |drivers[d]|
    ensures Listed(drivers[d][j].names, lim) && drivers[d][j].minEp >= 1
  {
    hide Listed;
  }


}
