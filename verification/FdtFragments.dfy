/** fdt_overlay.c: merging an overlay, fragment by fragment, into the nodes its
    fragments name by phandle or by path. */
module FdtFragments {
  import opened Bytes
  import opened FdtFormat
  import opened FdtTree
  import opened FdtBlob
  import opened Fdt
  import opened FdtRo
  import opened FdtEdits
  import opened FdtMerge
  import opened FdtCost
  import opened FdtOverlay
  import opened FdtPath
  import opened FdtPhandle
  import opened FdtSearch

  /** "target", "target-path" and "__overlay__" */
  const TARGET: seq<byte> := [116, 97, 114, 103, 101, 116]
  const TARGET_PATH: seq<byte> := [116, 97, 114, 103, 101, 116, 45, 112, 97, 116, 104]
  const OVERLAY: seq<byte> := [95, 95, 111, 118, 101, 114, 108, 97, 121, 95, 95]

  // ---- meaning: places in a tree ----------------------------------------------------

  function Behind(p: Option<seq<Dir>>): Option<seq<Dir>> {
    if p.Some? then Some([Across] + p.value) else None
  }

  /** Where a name finds a child in a list. */
  function ChildPlace(d: Dt, name: seq<byte>): Option<seq<Dir>> {
    match d
    case DNil => None
    case DProp(_, _, n) => Behind(ChildPlace(n, name))
    case DNode(m, _, n) => if NameEq(m, name) then Some([]) else Behind(ChildPlace(n, name))
  }

  /** Where a path leads from the node at p. */
  function PathPlace(t: Dt, p: seq<Dir>, path: seq<byte>): Option<seq<Dir>>
    decreases |path|
  {
    if path == [] then Some(p)
    else if path[0] == SLASH then PathPlace(t, p, path[1..])
    else
      var q := SlashIn(path);
      match ChildPlace(VKids(t, p), path[..q])
      case None => None
      case Some(c) => PathPlace(t, p + [Down] + c, path[q..])
  }

  /** Where a search stops. */
  function SearchPlace(d: Dt, q: Query): Option<seq<Dir>> {
    match d
    case DNil => None
    case DProp(_, _, n) => Behind(SearchPlace(n, q))
    case DNode(m, k, n) =>
      if Wanted(q, m, k) then Some([])
      else
        match SearchPlace(k, q)
        case Some(p) => Some([Down] + p)
        case None => Behind(SearchPlace(n, q))
  }

  /** The phandle a fragment names: 0 if none, all ones if malformed. */
  function TargetPhandle(frag: Dt): int {
    match VGet(frag, TARGET)
    case None => 0
    case Some(v) => if |v| == 4 then Word(v, 0) else U32_LIMIT - 1
  }

  /** The node of the base tree a fragment is for. */
  function Target(t: Dt, frag: Dt): Option<seq<Dir>> {
    var phandle := TargetPhandle(frag);
    if phandle == U32_LIMIT - 1 then None
    else if phandle != 0 then SearchPlace(t, Numbered(phandle))
    else
      match VGet(frag, TARGET_PATH)
      case None => None
      case Some(v) => PathPlace(t, [], StrAt(v, 0))
  }

  /** The base tree with one fragment's overlay node, if it has one, merged into
      the fragment's target; None if there is no target. */
  function MergeOne(t: Dt, frag: Dt): Option<Dt> {
    match VChild(frag, OVERLAY)
    case None => Some(t)
    case Some(c) =>
      match Target(t, frag)
      case None => None
      case Some(p) => Some(VPutKids(t, p, Merge(VKids(t, p), c)))
  }

  /** ... and all fragments, in order. */
  function MergeFragments(t: Dt, ov: Dt): Option<Dt>
    decreases ov
  {
    match ov
    case DNil => Some(t)
    case DProp(_, _, n) => MergeFragments(t, n)
    case DNode(_, k, n) =>
      match MergeOne(t, k)
      case None => None
      case Some(u) => MergeFragments(u, n)
  }

  /** The fragments, in order. */
  function Fragments(ov: Dt): seq<Dt> {
    match ov
    case DNil => []
    case DProp(_, _, n) => Fragments(n)
    case DNode(_, k, n) => [k] + Fragments(n)
  }

  /** One tree before each fragment and one behind the last: each fragment that has
      an overlay node has a target in the tree before it, and that node is merged
      into the target; the others change nothing. */
  ghost predicate Stages(ts: seq<Dt>, frags: seq<Dt>) {
    && |ts| == |frags| + 1
    && forall i :: 0 <= i < |frags| ==> Stage(ts[i], frags[i], ts[i + 1])
  }

  predicate Stage(t: Dt, frag: Dt, u: Dt) {
    if VChild(frag, OVERLAY) == None then u == t
    else
      && Target(t, frag).Some?
      && var p := Target(t, frag).value;
         u == VPutKids(t, p, Merge(VKids(t, p), VChild(frag, OVERLAY).value))
  }

  ghost predicate StagesTo(t: Dt, frags: seq<Dt>, u: Dt) {
    exists ts :: Stages(ts, frags) && ts[0] == t && ts[|ts| - 1] == u
  }

  /** Merging succeeds with u exactly when there are such stages from t to u. So it
      fails when a fragment has an overlay node and no target by then. */
  lemma {:induction false} StagesIff(t: Dt, ov: Dt, u: Dt)
    ensures MergeFragments(t, ov) == Some(u) <==>
            exists ts :: Stages(ts, Fragments(ov)) && ts[0] == t && ts[|ts| - 1] == u
    decreases ov
  {
    hide MergeFragments, Stages, Fragments;
    StagesToIff(t, ov, u);
  }

  lemma {:induction false} StagesToIff(t: Dt, ov: Dt, u: Dt)
    ensures MergeFragments(t, ov) == Some(u) <==> StagesTo(t, Fragments(ov), u)
    decreases ov
  {
    hide Stage, StagesTo;
    match ov
    case DNil => NoStages(t, u);
    case DProp(_, _, n) => StagesToIff(t, n, u);
    case DNode(_, k, n) =>
      var frags := Fragments(n);
      StageIs(t, k);
      if MergeOne(t, k).Some? {
        StagesToIff(MergeOne(t, k).value, n, u);
        if StagesTo(MergeOne(t, k).value, frags, u) {
          StagesMore(t, k, MergeOne(t, k).value, frags, u);
        }
      }
      if StagesTo(t, [k] + frags, u) {
        var v := StagesLess(t, k, frags, u);
      }
  }

  lemma NoStages(t: Dt, u: Dt)
    ensures StagesTo(t, [], u) <==> t == u
  {
    if t == u {
      assert Stages([t], []);
    }
  }

  lemma StageIs(t: Dt, k: Dt)
    ensures forall v :: Stage(t, k, v) <==> MergeOne(t, k) == Some(v)
  {
    hide Target, Merge, VPutKids, VKids, VChild;
  }

  lemma StagesMore(t: Dt, k: Dt, v: Dt, frags: seq<Dt>, u: Dt)
    requires Stage(t, k, v) && StagesTo(v, frags, u)
    ensures StagesTo(t, [k] + frags, u)
  {
    hide Stage;
    var ts :| Stages(ts, frags) && ts[0] == v && ts[|ts| - 1] == u;
    var all := [t] + ts;
    forall i | 0 < i < |frags| + 1 ensures Stage(all[i], ([k] + frags)[i], all[i + 1]) {
      assert Stage(ts[i - 1], frags[i - 1], ts[i]);
    }
    assert Stages(all, [k] + frags);
  }

  lemma StagesLess(t: Dt, k: Dt, frags: seq<Dt>, u: Dt) returns (v: Dt)
    requires StagesTo(t, [k] + frags, u)
    ensures Stage(t, k, v) && StagesTo(v, frags, u)
  {
    hide Stage;
    var all := [k] + frags;
    var ts :| Stages(ts, all) && ts[0] == t && ts[|ts| - 1] == u;
    v := ts[1];
    var rest := ts[1..];
    assert Stage(ts[0], all[0], ts[1]);
    forall i | 0 <= i < |frags| ensures Stage(rest[i], frags[i], rest[i + 1]) {
      assert Stage(ts[i + 1], all[i + 1], ts[i + 2]);
    }
    assert Stages(rest, frags);
  }

  /** Where a fragment with a phandle goes: there is a target exactly when a node has
      that phandle, and the target has it. */
  lemma TargetHas(t: Dt, frag: Dt)
    requires var p := TargetPhandle(frag); p != 0 && p != U32_LIMIT - 1
    ensures var p, r := TargetPhandle(frag), Target(t, frag);
            (r.Some? <==> Has(t, p)) && (r.Some? ==> VPhandle(VKids(t, r.value)) == p)
  {
    hide TargetPhandle, SearchPlace, VPhandle, Has, VAt;
    PlaceHas(t, TargetPhandle(frag));
  }

  lemma {:induction false} PlaceHas(t: Dt, p: int)
    ensures var r := SearchPlace(t, Numbered(p));
            && (r.Some? <==> Has(t, p))
            && (r.Some? ==> VAt(t, r.value).Some? && VAt(t, r.value).value.DNode?
                            && VPhandle(VAt(t, r.value).value.kids) == p)
    decreases t
  {
    hide VPhandle, VAt;
    match t
    case DNil =>
    case DProp(_, _, n) =>
      PlaceHas(n, p);
      if SearchPlace(n, Numbered(p)).Some? {
        GoAcross(t, SearchPlace(n, Numbered(p)).value, DNil);
      }
    case DNode(_, k, n) =>
      PlaceHas(k, p);
      PlaceHas(n, p);
      EmptyPath(t, DNil);
      if SearchPlace(k, Numbered(p)).Some? {
        GoDown(t, SearchPlace(k, Numbered(p)).value, DNil);
      }
      if SearchPlace(n, Numbered(p)).Some? {
        GoAcross(t, SearchPlace(n, Numbered(p)).value, DNil);
      }
  }

  /** The room that merging a fragment, or all of them, can need. */
  ghost function FragmentCost(strs: seq<byte>, frag: Dt): nat {
    match VChild(frag, OVERLAY)
    case None => 0
    case Some(c) => Cost(strs, c)
  }

  ghost function FragmentsCost(strs: seq<byte>, ov: Dt): nat {
    match ov
    case DNil => 0
    case DProp(_, _, n) => FragmentsCost(strs, n)
    case DNode(_, k, n) => FragmentCost(strs, k) + FragmentsCost(strs, n)
  }

  lemma FragmentCostLess(strs: seq<byte>, more: seq<byte>, frag: Dt)
    ensures FragmentCost(strs + more, frag) <= FragmentCost(strs, frag)
  {
    hide Cost;
    if VChild(frag, OVERLAY).Some? {
      CostLess(strs, more, VChild(frag, OVERLAY).value);
    }
  }

  /** Paths of fragments are absolute and terminated. */
  predicate PathsOk(ov: Dt) {
    match ov
    case DNil => true
    case DProp(_, _, n) => PathsOk(n)
    case DNode(_, k, n) => PathOk(k) && PathsOk(n)
  }

  predicate PathOk(frag: Dt) {
    VGet(frag, TARGET_PATH).Some? ==>
      var v := VGet(frag, TARGET_PATH).value;
      |v| > 0 && v[0] == SLASH && NulFrom(v, 0) < |v|
  }

  // ---- places and offsets -----------------------------------------------------------------

  lemma {:induction false} ChildPlaceIs(off: int, k: Forest, strs: seq<byte>, name: seq<byte>)
    requires off >= 0
    ensures var r := ChildOff(off, k, name);
            ChildPlace(View(k, strs), name) == if r < 0 then None else Some(PathOf(k, r - off))
    decreases k
  {
    hide HdrSize, PropSize, Size, NameEq, StrAt;
    match k
    case Nil =>
    case Nop(n) => ChildFound(off + 4, n, strs, name); ChildPlaceIs(off + 4, n, strs, name);
    case Prop(_, v, n) =>
      PropAligned(v);
      ChildFound(off + PropSize(v), n, strs, name);
      ChildPlaceIs(off + PropSize(v), n, strs, name);
    case Sub(m, _, n) =>
      NodePositive(k);
      if !NameEq(m, name) {
        ChildFound(off + NodeSize(k), n, strs, name);
        ChildPlaceIs(off + NodeSize(k), n, strs, name);
      }
  }

  /** Into a node and on. */
  lemma {:induction false} PathInto(f: Forest, d: int, e: int)
    requires IsNode(f, d) && RestAt(RestAt(f, d).value.kids, e).Some?
    ensures var x := RestAt(f, d).value;
            PathOf(f, d + HdrSize(x.name) + e) == PathOf(f, d) + [Down] + PathOf(x.kids, e)
    decreases f
  {
    hide HdrSize, PropSize, Size, RestAt, PathOf;
    var x := RestAt(f, d).value;
    var at := d + HdrSize(x.name) + e;
    StepDown(f, d, f);
    RestInside(f, d);
    RestInside(x.kids, e);
    SizeStep(x);
    HdrSome(x.name);
    PathStep(f, at);
    PathStep(f, 0);
    if d != 0 {
      PathStep(f, d);
      match f
      case Nop(n) => PathInto(n, d - 4, e);
      case Prop(_, v, n) => PathInto(n, d - PropSize(v), e);
      case Sub(name, kids, n) =>
        if d < NodeSize(f) {
          RestInside(kids, d - HdrSize(name));
          PathInto(kids, d - HdrSize(name), e);
        } else {
          PathInto(n, d - NodeSize(f), e);
        }
    }
  }

  /** Following a path in the blob and in the tree. */
  lemma {:induction false} PathPlaceIs(f: Forest, d: int, strs: seq<byte>, path: seq<byte>)
    requires IsNode(f, d) && NamesOk(f, strs)
    ensures var r := Follow(f, d, path);
            && (r < 0 ==> PathPlace(View(f, strs), PathOf(f, d), path) == None)
            && (r >= 0 ==> IsNode(f, r) && PathPlace(View(f, strs), PathOf(f, d), path) == Some(PathOf(f, r)))
    decreases |path|
  {
    hide HdrSize, PropSize, Size, RestAt, PathOf, View, ChildOff, ChildPlace, VKids, NamesOk, NameEq;
    RestInside(f, d);
    if path != [] {
      if path[0] == SLASH {
        PathPlaceIs(f, d, strs, path[1..]);
      } else {
        var name := path[..SlashIn(path)];
        var c := ChildNamed(f, d, name);
        ChildIsNode(f, d, name);
        ChildPlaceAt(f, d, strs, name);
        SlashBehind(path);
        if c >= 0 {
          PathPlaceIs(f, c, strs, path[SlashIn(path)..]);
        }
      }
    }
  }

  lemma ChildPlaceAt(f: Forest, d: int, strs: seq<byte>, name: seq<byte>)
    requires IsNode(f, d) && NamesOk(f, strs)
    ensures var c, q := ChildNamed(f, d, name), ChildPlace(VKids(View(f, strs), PathOf(f, d)), name);
            if c < 0 then q == None else q.Some? && PathOf(f, c) == PathOf(f, d) + [Down] + q.value
  {
    hide HdrSize, PropSize, Size, RestAt, PathOf, View, ChildOff, ChildPlace, VKids, NamesOk, NameEq;
    var x := RestAt(f, d).value;
    var at := d + HdrSize(x.name);
    RestInside(f, d);
    HdrSome(x.name);
    KidsMeaning(f, d, strs);
    ChildPlaceIs(at, x.kids, strs, name);
    ChildFound(at, x.kids, strs, name);
    if ChildOff(at, x.kids, name) >= 0 {
      PathInto(f, d, ChildOff(at, x.kids, name) - at);
    }
  }

  /** The search by offsets and the search in the tree are at the same place. */
  predicate SamePlace(off: int, f: Forest, strs: seq<byte>, q: Query) {
    var r := First(off, f, strs, q);
    SearchPlace(View(f, strs), q) == if r < 0 then None else Some(PathOf(f, r - off))
  }

  lemma SamePlaceOn(off: int, f: Forest, strs: seq<byte>, q: Query)
    requires f.Nop? || f.Prop?
    requires var e := off + if f.Nop? then 4 else PropSize(f.val);
             SamePlace(e, f.next, strs, q) && (First(e, f.next, strs, q) >= 0 ==> First(e, f.next, strs, q) >= e > off)
    ensures SamePlace(off, f, strs, q)
  {
    hide PropSize, StrAt, PathOf;
    PathStep(f, First(off, f, strs, q) - off);
  }

  lemma SamePlaceNode(off: int, f: Forest, strs: seq<byte>, q: Query)
    requires f.Sub? && off >= 0
    requires var e := off + HdrSize(f.name);
             && SamePlace(e, f.kids, strs, q)
             && (First(e, f.kids, strs, q) >= 0 ==> off < First(e, f.kids, strs, q) < off + NodeSize(f))
    requires var e := off + NodeSize(f);
             SamePlace(e, f.next, strs, q) && (First(e, f.next, strs, q) >= 0 ==> First(e, f.next, strs, q) >= e > off)
    ensures SamePlace(off, f, strs, q)
  {
    hide HdrSize, NodeSize, Wanted, PathOf;
    PathOfNode(f, First(off, f, strs, q) - off);
  }

  lemma PathOfNode(f: Forest, d: int)
    requires f.Sub?
    ensures d == 0 ==> PathOf(f, d) == []
    ensures d != 0 ==>
      PathOf(f, d) == if d < NodeSize(f) then [Down] + PathOf(f.kids, d - HdrSize(f.name))
                      else [Across] + PathOf(f.next, d - NodeSize(f))
  {
    hide HdrSize, Size;
  }

  lemma {:induction false} SearchPlaceIs(off: int, f: Forest, strs: seq<byte>, q: Query)
    requires off >= 0
    ensures var r := First(off, f, strs, q);
            SearchPlace(View(f, strs), q) == if r < 0 then None else Some(PathOf(f, r - off))
    decreases f
  {
    hide HdrSize, PropSize, Size, RestAt, StrAt, Wanted, PathOf, First, SearchPlace, View;
    match f
    case Nil => NothingPlaced(off, strs, q);
    case Nop(n) =>
      FirstFacts(off + 4, n, strs, q);
      SearchPlaceIs(off + 4, n, strs, q);
      SamePlaceOn(off, f, strs, q);
    case Prop(_, v, n) =>
      PropAligned(v);
      FirstFacts(off + PropSize(v), n, strs, q);
      SearchPlaceIs(off + PropSize(v), n, strs, q);
      SamePlaceOn(off, f, strs, q);
    case Sub(m, k, n) =>
      HdrSome(m);
      NodePositive(f);
      FirstFacts(off + HdrSize(m), k, strs, q);
      FirstFacts(off + NodeSize(f), n, strs, q);
      SearchPlaceIs(off + HdrSize(m), k, strs, q);
      SearchPlaceIs(off + NodeSize(f), n, strs, q);
      if First(off + HdrSize(m), k, strs, q) >= 0 {
        NodeRoomFor(k, First(off + HdrSize(m), k, strs, q) - off - HdrSize(m));
      }
      SamePlaceNode(off, f, strs, q);
  }

  lemma NothingPlaced(off: int, strs: seq<byte>, q: Query)
    ensures SamePlace(off, Nil, strs, q)
  {
  }

  // ---- the target of a fragment -----------------------------------------------------------------

  /** overlay_get_target_phandle */
  method GetTargetPhandle(fdto: Blob, fragment: int, ghost o: Forest) returns (p: int)
    requires Holds(fdto, o) && IsNode(o, fragment)
    ensures p == TargetPhandle(View(RestAt(o, fragment).value.kids, fdto.Strings()))
  {
    hide HdrSize, PropSize, Size, RestAt, Region, TreeIn, At, PropOff, StrAt, Word, View, VGet, Laid;
    ValueHere(fdto, o, fragment, TARGET);
    var off, len := GetProperty(fdto, fragment, TARGET, o);
    if off < 0 {
      return 0;
    }
    ghost var v := VGet(View(RestAt(o, fragment).value.kids, fdto.Strings()), TARGET).value;
    if len != 4 {
      return U32_LIMIT - 1;
    }
    SliceHeld(fdto.StructBlock(), off + 12, v);
    var s := fdto.StructBlock();
    p := Word(s[off + 12..off + 16], 0);
  }

  /** fdt_node_offset_by_phandle */
  method NodeOffsetByPhandle(b: Blob, phandle: int, ghost f: Forest) returns (r: int)
    requires Holds(b, f)
    ensures if phandle == 0 || phandle == U32_LIMIT - 1 then r == BADPHANDLE
            else r == First(0, f, b.Strings(), Numbered(phandle))
  {
    hide First, Holds;
    if phandle == 0 || phandle == U32_LIMIT - 1 {
      return BADPHANDLE;
    }
    r := SearchNode(b, Numbered(phandle), f);
  }

  /** overlay_get_target */
  method GetTarget(fdt: Blob, fdto: Blob, fragment: int, ghost f: Forest, ghost o: Forest) returns (ret: int)
    requires Holds(fdt, f) && Holds(fdto, o) && IsNode(o, fragment)
    requires PathOk(View(RestAt(o, fragment).value.kids, fdto.Strings()))
    ensures match Target(View(f, fdt.Strings()), View(RestAt(o, fragment).value.kids, fdto.Strings()))
            case None => ret < 0
            case Some(p) => ret >= 0 && IsNode(f, ret) && PathOf(f, ret) == p
  {
    hide HdrSize, PropSize, Size, RestAt, Region, TreeIn, At, PropOff, StrAt, Word, View, VGet, Laid, PathOf, First,
      Follow,
      SearchPlace, PathPlace, NamesOk, TargetPhandle, Wanted, Absent;
    ghost var frag, strs := View(RestAt(o, fragment).value.kids, fdto.Strings()), fdt.Strings();
    RootAndNames(fdt, f);
    var phandle := GetTargetPhandle(fdto, fragment, o);
    if phandle == U32_LIMIT - 1 {
      return BADPHANDLE;
    }
    if phandle != 0 {
      ret := NodeOffsetByPhandle(fdt, phandle, f);
      FirstFacts(0, f, strs, Numbered(phandle));
      SearchPlaceIs(0, f, strs, Numbered(phandle));
      return;
    }
    ValueHere(fdto, o, fragment, TARGET_PATH);
    var off, len := GetProperty(fdto, fragment, TARGET_PATH, o);
    if off < 0 {
      return BADOVERLAY;
    }
    ghost var v := VGet(frag, TARGET_PATH).value;
    SliceHeld(fdto.StructBlock(), off + 12, v);
    var s := fdto.StructBlock();
    var path := StrAt(s[off + 12..off + 12 + len], 0);
    PathStarts(v);
    PathPlaceIs(f, 0, strs, path);
    PathStep(f, 0);
    ret := PathOffset(fdt, path, f);
  }

  lemma RootAndNames(b: Blob, f: Forest)
    requires Holds(b, f)
    ensures IsNode(f, 0) && NamesOk(f, b.Strings()) && Laid(b.h, b.buf.Length) && TreeIn(b.StructBlock(), f)
  {
    RestHere(f);
  }

  lemma PathStarts(v: seq<byte>)
    requires |v| > 0 && v[0] == SLASH
    ensures StrAt(v, 0) != [] && StrAt(v, 0)[0] == SLASH
  {
  }

  // ---- all fragments --------------------------------------------------------------------------------

  lemma {:induction false} FragmentAhead(t: Dt, s0: seq<byte>, off: int, on: Forest, strs: seq<byte>)
    requires off >= 0
    ensures var ov, r := View(on, strs), FirstSub(off, on);
            if r < 0 then MergeFragments(t, ov) == Some(t) && FragmentsCost(s0, ov) == 0
            else
              && r >= off && IsNode(on, r - off)
              && var c := RestAt(on, r - off).value;
              && (PathsOk(ov) ==> PathOk(View(c.kids, strs)) && PathsOk(View(c.next, strs)))
              && MergeFragments(t, ov) == MergeFragments(t, DNode(c.name, View(c.kids, strs), View(c.next, strs)))
              && FragmentsCost(s0, ov) ==
                 FragmentCost(s0, View(c.kids, strs)) + FragmentsCost(s0, View(c.next, strs))
    decreases on
  {
    hide HdrSize, PropSize, Size, StrAt, PathOk, MergeOne, FragmentCost;
    match on
    case Nil =>
    case Nop(n) =>
      FirstSubView(DNil, off + 4, n, strs);
      FragmentAhead(t, s0, off + 4, n, strs);
    case Prop(_, v, n) =>
      PropAligned(v);
      FirstSubView(DNil, off + PropSize(v), n, strs);
      FragmentAhead(t, s0, off + PropSize(v), n, strs);
    case Sub(_, _, _) =>
  }

  /** One fragment of overlay_merge. */
  method MergeFragment(fdt: Blob, fdto: Blob, fragment: int, ghost f: Forest, ghost o: Forest)
    returns (ret: int, ghost g: Forest)
    requires Holds(fdt, f) && Holds(fdto, o) && IsNode(o, fragment) && fdt != fdto && fdt.buf != fdto.buf
    requires fragment >= 0
    requires PathOk(View(RestAt(o, fragment).value.kids, fdto.Strings()))
    modifies fdt, fdt.buf
    ensures Holds(fdt, g) && fdt.h.totalsize == old(fdt.h).totalsize
    ensures exists more :: fdt.Strings() == old(fdt.Strings()) + more
    ensures var t, k := View(f, old(fdt.Strings())), View(RestAt(o, fragment).value.kids, fdto.Strings());
            var room := Used(old(fdt.h)) + FragmentCost(old(fdt.Strings()), k);
            && (ret == 0 ==> MergeOne(t, k) == Some(View(g, fdt.Strings())) && Used(fdt.h) <= room)
            && (MergeOne(t, k) == None ==> ret != 0)
            && (MergeOne(t, k).Some? && room <= fdt.h.totalsize ==> ret == 0)
  {
    hide HdrSize, PropSize, Size, RestAt, Region, TreeIn, At, View, Laid, PathOf, NamesOk, VChild, ChildOff, Target,
      Merge,
      PathOk, NameEq, PutKids, VPutKids, VKids, Put, Point, Cost, Used;
    ghost var x, t := RestAt(o, fragment).value, View(f, fdt.Strings());
    ghost var at := fragment + HdrSize(x.name);
    g := f;
    assert fdt.Strings() == fdt.Strings() + [];
    LaidTree(fdto, o);
    HdrSome(x.name);
    ChildFound(at, x.kids, fdto.Strings(), OVERLAY);
    var overlay := SubnodeOffset(fdto, fragment, OVERLAY, o);
    if overlay == NOTFOUND {
      return 0, g;
    }
    if overlay < 0 {
      return overlay, g;
    }
    PutNested(o, fragment, overlay - at, Nil);
    var target := GetTarget(fdt, fdto, fragment, f, o);
    if target < 0 {
      return target, g;
    }
    KidsMeaning(f, target, fdt.Strings());
    NamesHeld(fdt, f);
    ghost var s0, k := fdt.Strings(), f;
    ret, k := ApplyNode(fdt, target, fdto, overlay, f, o);
    g := PutKids(f, target, k);
    ghost var more :| fdt.Strings() == s0 + more;
    NamesHeld(fdt, g);
    PutMeaning(f, target, k, s0, more);
  }

  lemma PutMeaning(f: Forest, d: int, k: Forest, strs: seq<byte>, more: seq<byte>)
    requires IsNode(f, d) && NamesOk(f, strs) && NamesOk(PutKids(f, d, k), strs + more)
    ensures View(PutKids(f, d, k), strs + more) == VPutKids(View(f, strs), PathOf(f, d), View(k, strs + more))
  {
    hide RestAt, PathOf, View, NamesOk, Put, VPutKids, VKids;
    ViewExtends(f, strs, more);
    PutKidsAgain(f, d, k, k);
    NamesOfKids(PutKids(f, d, k), d, strs + more);
    KidsView(f, d, k, strs + more);
  }

  /** overlay_merge: on success every fragment's overlay node is merged into its
      target, in order, each target looked up in the tree as it is by then; and it
      does succeed when all targets are found and there is room. */
  method MergeOverlay(fdt: Blob, fdto: Blob, ghost f: Forest, ghost o: Forest) returns (ret: int, ghost g: Forest)
    requires Holds(fdt, f) && Holds(fdto, o) && fdt != fdto && fdt.buf != fdto.buf
    requires o.Sub? && PathsOk(View(o.kids, fdto.Strings()))
    modifies fdt, fdt.buf
    ensures Holds(fdt, g) && fdt.h.totalsize == old(fdt.h).totalsize
    ensures var want := MergeFragments(View(f, old(fdt.Strings())), View(o.kids, fdto.Strings()));
            && (ret == 0 ==> want == Some(View(g, fdt.Strings())))
            && (want == None ==> ret != 0)
            && (want.Some?
                && Used(old(fdt.h)) + FragmentsCost(old(fdt.Strings()), View(o.kids, fdto.Strings())) <= fdt.h.totalsize
                ==> ret == 0)
  {
    hide HdrSize, PropSize, Size, RestAt, Region, TreeIn, At, View, Laid, MergeOne, PathOk, PathsOk, Put, Point,
      FirstSub, MergeFragments, Holds, MergeSubs, MergeChild, FragmentCost, FragmentsCost, Used;
    ghost var s, strs, s0, u0 := fdto.StructBlock(), fdto.Strings(), fdt.Strings(), Used(fdt.h);
    ghost var oo, on := HdrSize(o.name), o.kids;
    ghost var all := FragmentsCost(s0, View(on, strs));
    assert s0 == s0 + [];
    ghost var want := MergeFragments(View(f, fdt.Strings()), View(on, strs));
    g := f;
    LaidTree(fdto, o);
    RootAndNames(fdto, o);
    RootKids(o);
    var fragment := FirstSubnode(fdto, 0, o);
    while fragment >= 0
      invariant Holds(fdt, g) && fdt.h.totalsize == old(fdt.h).totalsize
      invariant Holds(fdto, o) && fdto.StructBlock() == s && fdto.Strings() == strs
      invariant oo > 0 && RestAt(o, oo) == Some(on) && fragment == FirstSub(oo, on)
      invariant MergeFragments(View(g, fdt.Strings()), View(on, strs)) == want && PathsOk(View(on, strs))
      invariant exists more :: fdt.Strings() == s0 + more
      invariant Used(fdt.h) + FragmentsCost(s0, View(on, strs)) <= u0 + all
      decreases Size(on)
    {
      ghost var t := View(g, fdt.Strings());
      ghost var c := OverlayChild(o, oo, on, DNil, strs);
      FragmentOf(o, oo, on, c, t, s0, strs);
      ghost var strs0 := fdt.Strings();
      ghost var more :| strs0 == s0 + more;
      FragmentCostLess(s0, more, View(c.kids, strs));
      ret, g := MergeFragment(fdt, fdto, fragment, g, o);
      if ret != 0 {
        return;
      }
      Appended(s0, strs0, fdt.Strings());
      LaidTree(fdto, o);
      oo, on := fragment + NodeSize(c), c.next;
      fragment := NextSubnode(fdto, fragment, o);
    }
    FragmentAhead(View(g, fdt.Strings()), s0, oo, on, strs);
    ret := 0;
  }

  lemma RootKids(o: Forest)
    requires o.Sub?
    ensures RestAt(o, 0) == Some(o) && RestAt(o, HdrSize(o.name)) == Some(o.kids) && HdrSize(o.name) > 0
  {
    hide HdrSize, PropSize, Size, RestAt;
    RestHere(o);
    HdrSome(o.name);
    RestKids(o, 0, o);
  }

  /** The fragment the loop stands at, and what is behind it. */
  lemma FragmentOf(o: Forest, oo: int, on: Forest, c: Forest, t: Dt, s0: seq<byte>, strs: seq<byte>)
    requires oo > 0 && RestAt(o, oo) == Some(on) && FirstSub(oo, on) >= 0
    requires RestAt(o, FirstSub(oo, on)) == Some(c) && c.Sub?
    ensures var k, n := View(c.kids, strs), View(c.next, strs);
            && (PathsOk(View(on, strs)) ==> PathOk(k) && PathsOk(n))
            && FragmentsCost(s0, View(on, strs)) == FragmentCost(s0, k) + FragmentsCost(s0, n)
            && MergeFragments(t, View(on, strs)) ==
               match MergeOne(t, k)
               case None => None
               case Some(u) => MergeFragments(u, n)
  {
    hide HdrSize, PropSize, Size, RestAt, View, FirstSub, MergeOne, PathOk, PathsOk, FragmentCost, FragmentsCost;
    var r := FirstSub(oo, on);
    FragmentAhead(t, s0, oo, on, strs);
    RestInList(o, oo, on, r - oo);
  }
}
