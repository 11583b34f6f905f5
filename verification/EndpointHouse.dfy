/** Where the endpoints are in a metadata blob: below its endpoints node, which no
    edit of them moves, and nowhere else. */
module EndpointHouse {
  import opened Bytes
  import opened FdtFormat
  import opened FdtTree
  import opened FdtBlob
  import opened Fdt
  import opened FdtEdits
  import opened FdtOverlay
  import opened FdtPath
  import opened FdtMergeLaws
  import opened Metadata
  import opened FdtSearch
  import opened EndpointTree
  import opened EndpointEdits

  /** No node at any level is what a search is for. */
  ghost predicate Hidden(d: Dt, lim: Limits) {
    match d
    case DNil => true
    case DProp(_, _, n) => Hidden(n, lim)
    case DNode(m, k, n) => m !in lim.names && Unasked(k, lim) && Hidden(k, lim) && Hidden(n, lim)
  }

  lemma {:induction false} HiddenAbsent(d: Dt, lim: Limits, q: Query)
    requires Hidden(d, lim) && Asks(lim, q)
    ensures Absent(d, q)
    decreases d
  {
    hide Asks, Unasked, Wanted;
    match d
    case DNil =>
    case DProp(_, _, n) => HiddenAbsent(n, lim, q);
    case DNode(m, k, n) =>
      NotWanted(q, m, k, lim);
      HiddenAbsent(k, lim, q);
      HiddenAbsent(n, lim, q);
  }

  /** None, apart from the node at d and what is in it. */
  ghost predicate HiddenBut(f: Forest, d: int, strs: seq<byte>, lim: Limits)
    decreases f
  {
    match f
    case Nil => true
    case Nop(n) => HiddenBut(n, d - 4, strs, lim)
    case Prop(_, v, n) => HiddenBut(n, d - PropSize(v), strs, lim)
    case Sub(m, k, n) =>
      if d == 0 then Hidden(View(n, strs), lim)
      else
        && m !in lim.names && Unasked(View(k, strs), lim)
        && if d < NodeSize(f) then HiddenBut(k, d - HdrSize(m), strs, lim) && Hidden(View(n, strs), lim)
           else Hidden(View(k, strs), lim) && HiddenBut(n, d - NodeSize(f), strs, lim)
  }

  lemma HiddenButStep(f: Forest, d: int, strs: seq<byte>, lim: Limits)
    ensures f.Nop? ==> HiddenBut(f, d, strs, lim) == HiddenBut(f.next, d - 4, strs, lim)
    ensures f.Prop? ==> HiddenBut(f, d, strs, lim) == HiddenBut(f.next, d - PropSize(f.val), strs, lim)
    ensures f.Sub? && d == 0 ==> HiddenBut(f, d, strs, lim) == Hidden(View(f.next, strs), lim)
    ensures f.Sub? && d != 0 && d < NodeSize(f) ==>
      (HiddenBut(f, d, strs, lim) <==>
       && f.name !in lim.names && Unasked(View(f.kids, strs), lim)
       && HiddenBut(f.kids, d - HdrSize(f.name), strs, lim) && Hidden(View(f.next, strs), lim))
    ensures f.Sub? && d != 0 && d >= NodeSize(f) ==>
      (HiddenBut(f, d, strs, lim) <==>
       && f.name !in lim.names && Unasked(View(f.kids, strs), lim)
       && Hidden(View(f.kids, strs), lim) && HiddenBut(f.next, d - NodeSize(f), strs, lim))
  {
    hide HdrSize, PropSize, Size, View, Hidden, Unasked;
  }

  lemma NothingIn(off: int, f: Forest, strs: seq<byte>, lim: Limits, q: Query)
    requires off >= 0 && Hidden(View(f, strs), lim) && Asks(lim, q)
    ensures First(off, f, strs, q) == NOTFOUND
  {
    hide Hidden, Asks, View, First, Absent;
    HiddenAbsent(View(f, strs), lim, q);
    FirstFacts(off, f, strs, q);
  }

  /** A search through the blob is a search among the endpoints. */
  lemma {:induction false} SearchInHouse(off: int, f: Forest, d: int, strs: seq<byte>, lim: Limits, q: Query)
    requires off >= 0 && IsNode(f, d) && HiddenBut(f, d, strs, lim) && Asks(lim, q)
    requires var x := RestAt(f, d).value; x.name !in lim.names && Unasked(View(x.kids, strs), lim)
    ensures var x := RestAt(f, d).value; First(off, f, strs, q) == First(off + d + HdrSize(x.name), x.kids, strs, q)
    decreases f
  {
    hide HdrSize, PropSize, Size, RestAt, View, Hidden, Unasked, Asks, First, HiddenBut, Wanted;
    var x := RestAt(f, d).value;
    StepDown(f, d, f);
    RestInside(f, d);
    HiddenButStep(f, d, strs, lim);
    HdrSome(x.name);
    FirstItems(off, f, strs, q);
    match f
    case Nop(n) => SearchInHouse(off + 4, n, d - 4, strs, lim, q);
    case Prop(_, v, n) => PropAligned(v); SearchInHouse(off + PropSize(v), n, d - PropSize(v), strs, lim, q);
    case Sub(m, k, n) =>
      NotWanted(q, m, View(k, strs), lim);
      HdrSome(m);
      NodePositive(f);
      FirstFacts(off + d + HdrSize(x.name), x.kids, strs, q);
      if d == 0 {
        NothingIn(off + NodeSize(f), n, strs, lim, q);
      } else if d < NodeSize(f) {
        SearchInHouse(off + HdrSize(m), k, d - HdrSize(m), strs, lim, q);
        NothingIn(off + NodeSize(f), n, strs, lim, q);
      } else {
        NothingIn(off + HdrSize(m), k, strs, lim, q);
        SearchInHouse(off + NodeSize(f), n, d - NodeSize(f), strs, lim, q);
      }
  }

  lemma FirstItems(off: int, f: Forest, strs: seq<byte>, q: Query)
    ensures f.Nil? ==> First(off, f, strs, q) == NOTFOUND
    ensures f.Nop? ==> First(off, f, strs, q) == First(off + 4, f.next, strs, q)
    ensures f.Prop? ==> First(off, f, strs, q) == First(off + PropSize(f.val), f.next, strs, q)
    ensures f.Sub? ==>
      var r := First(off + HdrSize(f.name), f.kids, strs, q);
      First(off, f, strs, q) ==
      if Wanted(q, f.name, View(f.kids, strs)) then off
      else if r >= 0 then r
      else First(off + NodeSize(f), f.next, strs, q)
  {
    hide HdrSize, PropSize, Size, View, Wanted;
  }

  /** Edits of deeper nodes leave a node's own properties. */
  lemma {:induction false} OwnProps(k: Forest, d: int, l: Forest, strs: seq<byte>, p: seq<byte>)
    requires IsNode(k, d)
    ensures VGet(View(PutKids(k, d, l), strs), p) == VGet(View(k, strs), p)
    decreases k
  {
    hide HdrSize, PropSize, Size, RestAt, Put, StrAt;
    var x := RestAt(k, d).value;
    StepDown(k, d, Sub(x.name, l, x.next));
    match k
    case Nop(n) => OwnProps(n, d - 4, l, strs, p);
    case Prop(_, v, n) => OwnProps(n, d - PropSize(v), l, strs, p);
    case Sub(_, _, _) =>
  }

  lemma UnaskedKept(k: Forest, d: int, l: Forest, strs: seq<byte>, lim: Limits)
    requires IsNode(k, d) && Unasked(View(k, strs), lim)
    ensures Unasked(View(PutKids(k, d, l), strs), lim)
  {
    hide View, PutKids, VGet, ListHas, RestAt;
    OwnProps(k, d, l, strs, COMPATIBLE);
  }

  /** Whatever is put into the node at d, the rest stays hidden. */
  lemma {:induction false} HiddenKept(f: Forest, d: int, l: Forest, strs: seq<byte>, lim: Limits)
    requires IsNode(f, d) && HiddenBut(f, d, strs, lim)
    ensures HiddenBut(PutKids(f, d, l), d, strs, lim)
    decreases f
  {
    hide HdrSize, PropSize, Size, RestAt, View, Hidden, Unasked, HiddenBut, Put;
    var x := RestAt(f, d).value;
    var y := Sub(x.name, l, x.next);
    var g := PutKids(f, d, l);
    StepDown(f, d, y);
    RestInside(f, d);
    HiddenButStep(f, d, strs, lim);
    HiddenButStep(g, d, strs, lim);
    match f
    case Nop(n) => HiddenKept(n, d - 4, l, strs, lim);
    case Prop(_, v, n) => HiddenKept(n, d - PropSize(v), l, strs, lim);
    case Sub(m, k, n) =>
      if d != 0 && d < NodeSize(f) {
        HiddenKept(k, d - HdrSize(m), l, strs, lim);
        UnaskedKept(k, d - HdrSize(m), l, strs, lim);
        PutKidsAgain(k, d - HdrSize(m), l, l);
        NodeRoomFor(PutKids(k, d - HdrSize(m), l), d - HdrSize(m));
      } else if d != 0 {
        HiddenKept(n, d - NodeSize(f), l, strs, lim);
      }
  }

  lemma FirstBelow(off: int, f: Forest, strs: seq<byte>, q: Query)
    requires off >= 0
    ensures First(off, f, strs, q) < 0 || off <= First(off, f, strs, q) < off + Size(f)
  {
    hide First, RestAt, Size, View, Wanted;
    FirstFacts(off, f, strs, q);
    if First(off, f, strs, q) >= 0 {
      NodeRoomFor(f, First(off, f, strs, q) - off);
    }
  }

  /** The endpoints node stays the first of its name. */
  lemma {:induction false} HomeKept(off: int, f: Forest, d: int, l: Forest, strs: seq<byte>, name: seq<byte>)
    requires off >= 0 && IsNode(f, d) && First(off, f, strs, Named(name, None)) == off + d
    ensures First(off, PutKids(f, d, l), strs, Named(name, None)) == off + d
    decreases f
  {
    hide HdrSize, PropSize, Size, RestAt, View, First, Put, Compatible;
    var x := RestAt(f, d).value;
    var q := Named(name, None);
    var g := PutKids(f, d, l);
    StepDown(f, d, Sub(x.name, l, x.next));
    RestInside(f, d);
    FirstItems(off, f, strs, q);
    FirstItems(off, g, strs, q);
    FirstFacts(off, f, strs, q);
    match f
    case Nop(n) => HomeKept(off + 4, n, d - 4, l, strs, name);
    case Prop(_, v, n) => HomeKept(off + PropSize(v), n, d - PropSize(v), l, strs, name);
    case Sub(m, k, n) =>
      HdrSome(m);
      NodePositive(f);
      if d != 0 {
        FirstBelow(off + HdrSize(m), k, strs, q);
        FirstBelow(off + NodeSize(f), n, strs, q);
        if d < NodeSize(f) {
          HomeKept(off + HdrSize(m), k, d - HdrSize(m), l, strs, name);
        } else {
          HomeKept(off + NodeSize(f), n, d - NodeSize(f), l, strs, name);
        }
      }
  }

  // ---- more strings ------------------------------------------------------------------------

  lemma {:induction false} FirstExtends(off: int, f: Forest, strs: seq<byte>, more: seq<byte>, q: Query)
    requires NamesOk(f, strs)
    ensures First(off, f, strs + more, q) == First(off, f, strs, q)
    decreases f
  {
    hide HdrSize, PropSize, Size, NameOk, StrAt, Wanted;
    match f
    case Nil =>
    case Nop(n) => FirstExtends(off + 4, n, strs, more, q);
    case Prop(_, v, n) => FirstExtends(off + PropSize(v), n, strs, more, q);
    case Sub(m, k, n) =>
      ViewExtends(k, strs, more);
      FirstExtends(off + HdrSize(m), k, strs, more, q);
      FirstExtends(off + NodeSize(f), n, strs, more, q);
  }

  lemma {:induction false} HiddenExtends(f: Forest, d: int, strs: seq<byte>, more: seq<byte>, lim: Limits)
    requires NamesOk(f, strs)
    ensures HiddenBut(f, d, strs + more, lim) == HiddenBut(f, d, strs, lim)
    decreases f
  {
    hide HdrSize, PropSize, Size, NameOk, StrAt, Hidden, Unasked;
    match f
    case Nil =>
    case Nop(n) => HiddenExtends(n, d - 4, strs, more, lim);
    case Prop(_, v, n) => HiddenExtends(n, d - PropSize(v), strs, more, lim);
    case Sub(m, k, n) =>
      ViewExtends(k, strs, more);
      ViewExtends(n, strs, more);
      HiddenExtends(k, d - HdrSize(m), strs, more, lim);
      HiddenExtends(n, d - NodeSize(f), strs, more, lim);
  }

  // ---- the house -------------------------------------------------------------------------------

  /** The node at e is the endpoints node, and searches see nothing outside. */
  ghost predicate House(f: Forest, strs: seq<byte>, e: int, lim: Limits) {
    && IsNode(f, e) && e > 0 && RestAt(f, e).value.name == ENDPOINTS
    && First(0, f, strs, Named(ENDPOINTS, None)) == e && HiddenBut(f, e, strs, lim)
  }

  /** The endpoints node's items. */
  function Housed(f: Forest, strs: seq<byte>, e: int): Dt
    requires IsNode(f, e)
  {
    View(RestAt(f, e).value.kids, strs)
  }

  lemma HouseKept(f: Forest, strs: seq<byte>, more: seq<byte>, e: int, l: Forest, lim: Limits)
    requires House(f, strs, e, lim) && NamesOk(f, strs)
    ensures House(PutKids(f, e, l), strs + more, e, lim)
    ensures Housed(PutKids(f, e, l), strs + more, e) == View(l, strs + more)
  {
    hide RestAt, Put, First, HiddenBut, View, NamesOk;
    PutKidsAgain(f, e, l, l);
    FirstExtends(0, f, strs, more, Named(ENDPOINTS, None));
    HiddenExtends(f, e, strs, more, lim);
    HiddenKept(f, e, l, strs + more, lim);
    HomeKept(0, f, e, l, strs + more, ENDPOINTS);
  }

  lemma UnaskedList(d: Dt, lim: Limits)
    requires Lacks(d, COMPATIBLE)
    ensures Unasked(d, lim)
  {
    LacksGet(d, COMPATIBLE);
  }

  /** A search in the list of endpoints: the one it picks, as an item of the list. */
  lemma {:induction false} PickHere(e: Dt, off: int, k: Forest, strs: seq<byte>, lim: Limits, q: Query)
    requires off >= 0 && Asks(lim, q) && Singles(View(k, strs))
    requires forall m :: VExact(View(k, strs), m).Some? ==> Endpoint(e, m, VExact(View(k, strs), m).value, lim)
    ensures var r, d := First(off, k, strs, q), View(k, strs);
            && (r < 0 <==> Pick(d, q).None?) && (r < 0 ==> r == NOTFOUND)
            && (r >= 0 ==>
                  && r >= off && IsNode(k, r - off)
                  && var x := RestAt(k, r - off).value;
                  && Pick(d, q) == Some(Found(x.name, View(x.kids, strs)))
                  && View(Put(k, r - off, x.next), strs) == Drop(d, q)
                  && Way(off, k, r) == [Hop(r, x.name)])
    decreases k
  {
    hide HdrSize, PropSize, Size, RestAt, Put, StrAt, Wanted, Asks, Endpoint, First;
    var d := View(k, strs);
    var r := First(off, k, strs, q);
    FirstItems(off, k, strs, q);
    RestHere(k);
    WayStep(off, k, r);
    match k
    case Nil =>
    case Nop(n) =>
      PickHere(e, off + 4, n, strs, lim, q);
      if r >= 0 {
        PickBehind(off, k, r);
      }
    case Prop(_, v, n) =>
      PropAligned(v);
      forall c ensures VExact(View(n, strs), c) == VExact(d, c) {
      }
      PickHere(e, off + PropSize(v), n, strs, lim, q);
      if r >= 0 {
        PickBehind(off, k, r);
      }
    case Sub(m, kids, n) =>
      HdrSome(m);
      NodePositive(k);
      assert VExact(d, m) == Some(View(kids, strs));
      PickSub(e, off, k, strs, lim, q);
      if !Wanted(q, m, View(kids, strs)) {
        forall c | VExact(View(n, strs), c).Some? ensures Endpoint(e, c, VExact(View(n, strs), c).value, lim) {
          assert VExact(d, c) == VExact(View(n, strs), c);
        }
        PickHere(e, off + NodeSize(k), n, strs, lim, q);
        if r >= 0 {
          PickBehind(off, k, r);
        }
      } else {
        PutZeroAt(k, k.next);
      }
  }

  lemma PutZeroAt(k: Forest, g: Forest)
    ensures Put(k, 0, g) == g
  {
  }

  /** An endpoint that is not wanted has nothing that is. */
  lemma PickSub(e: Dt, off: int, k: Forest, strs: seq<byte>, lim: Limits, q: Query)
    requires k.Sub? && off >= 0 && Asks(lim, q) && Endpoint(e, k.name, View(k.kids, strs), lim)
    ensures First(off, k, strs, q) ==
            if Wanted(q, k.name, View(k.kids, strs)) then off else First(off + NodeSize(k), k.next, strs, q)
  {
    hide HdrSize, PropSize, Size, View, Wanted, Asks, First, Absent, Endpoint;
    FirstItems(off, k, strs, q);
    HdrSome(k.name);
    EndpointAbsent(e, k.name, View(k.kids, strs), lim, q);
    FirstFacts(off + HdrSize(k.name), k.kids, strs, q);
  }

  /** The first item of k in front of another list. */
  function Before(k: Forest, h: Forest): Forest {
    match k
    case Nil => h
    case Nop(_) => Nop(h)
    case Prop(no, v, _) => Prop(no, v, h)
    case Sub(m, kids, _) => Sub(m, kids, h)
  }

  /** An item found behind the first item of a list. */
  lemma PickBehind(off: int, k: Forest, r: int)
    requires !k.Nil? && r >= off + ItemSize(k) && IsNode(k.next, r - off - ItemSize(k))
    ensures var e := r - off - ItemSize(k);
            && IsNode(k, r - off) && RestAt(k, r - off) == RestAt(k.next, e)
            && var g := RestAt(k, r - off).value.next;
            && Put(k, r - off, g) == Before(k, Put(k.next, e, g))
            && Way(off, k, r) == Way(off + ItemSize(k), k.next, r)
  {
    hide HdrSize, PropSize, Size, RestAt, Put, Way;
    SizesArePositive(k);
    RestOfItem(k, r - off);
    WayStep(off, k, r);
    PutInItem(k, r - off, RestAt(k, r - off).value.next);
  }

  lemma SizesArePositive(k: Forest)
    requires !k.Nil?
    ensures ItemSize(k) > 0
  {
    if k.Sub? {
      NodePositive(k);
    }
  }

  // ---- endpoints in a blob ---------------------------------------------------------------------

  /** What a search in the blob finds, and what is left when that is cut out. */
  lemma Lodger(f: Forest, strs: seq<byte>, e: int, lim: Limits, q: Query) returns (l: Forest)
    requires House(f, strs, e, lim) && EndpointList(Housed(f, strs, e), lim) && Asks(lim, q)
    ensures var s, d := First(0, f, strs, q), Housed(f, strs, e);
            && (s < 0 <==> Pick(d, q).None?) && (s < 0 ==> s == NOTFOUND)
            && (s >= 0 ==>
                  && s > 0 && IsNode(f, s)
                  && var x := RestAt(f, s).value;
                  && Pick(d, q) == Some(Found(x.name, View(x.kids, strs)))
                  && Put(f, s, x.next) == PutKids(f, e, l) && View(l, strs) == Drop(d, q)
                  && !BelowRoot(f, s))
  {
    hide HdrSize, PropSize, Size, RestAt, Put, View, Asks, First, HiddenBut, Way, Unasked, Endpoint, Pick, Drop,
      Singles, Lacks;
    var x := RestAt(f, e).value;
    var at := e + HdrSize(x.name);
    var d := Housed(f, strs, e);
    HdrSome(x.name);
    UnaskedList(d, lim);
    SearchInHouse(0, f, e, strs, lim, q);
    PickHere(d, at, x.kids, strs, lim, q);
    var s := First(0, f, strs, q);
    l := x.kids;
    if s >= 0 {
      var y := RestAt(x.kids, s - at).value;
      l := Put(x.kids, s - at, y.next);
      PutNested(f, e, s - at, y.next);
      WayNested(0, f, e, s - at);
      WayEnds(0, f, e);
    }
  }

  /** A blob that holds just an empty endpoints node is a house. */
  lemma NewHouse(f: Forest, strs: seq<byte>, lim: Limits) returns (e: int)
    requires f.Sub? && f.name == [] && OnlyNops(f.next) && View(f.kids, strs) == NO_ENDPOINTS
    requires [] !in lim.names && ENDPOINTS !in lim.names
    ensures House(f, strs, e, lim) && Housed(f, strs, e) == DNil
  {
    hide HdrSize, PropSize, Size, RestAt, HiddenBut, Unasked, First;
    var q := Named(ENDPOINTS, None);
    var h := HdrSize(f.name);
    RestHere(f);
    HdrSome(f.name);
    NodePositive(f);
    FirstItems(0, f, strs, q);
    FirstFacts(h, f.kids, strs, q);
    NewItems(h, f.kids, strs, lim);
    e := First(h, f.kids, strs, q);
    RestInside(f.kids, e - h);
    NodeRoomFor(f.kids, e - h);
    PutNested(f, 0, e - h, Nil);
    HiddenButStep(f, e, strs, lim);
    UnaskedList(NO_ENDPOINTS, lim);
    SizeStep(f);
    NopsHidden(f.next, strs, lim);
  }

  lemma {:induction false} NopsHidden(f: Forest, strs: seq<byte>, lim: Limits)
    requires OnlyNops(f)
    ensures Hidden(View(f, strs), lim)
    decreases f
  {
    if f.Nop? {
      NopsHidden(f.next, strs, lim);
    }
  }

  lemma {:induction false} NewItems(off: int, k: Forest, strs: seq<byte>, lim: Limits)
    requires off > 0 && View(k, strs) == NO_ENDPOINTS
    ensures var r := First(off, k, strs, Named(ENDPOINTS, None));
            && r >= off && IsNode(k, r - off) && RestAt(k, r - off).value.name == ENDPOINTS
            && View(RestAt(k, r - off).value.kids, strs) == DNil && HiddenBut(k, r - off, strs, lim)
    decreases k
  {
    hide HdrSize, PropSize, Size, RestAt, HiddenBut, Unasked, First;
    var q := Named(ENDPOINTS, None);
    FirstItems(off, k, strs, q);
    RestHere(k);
    match k
    case Nop(n) =>
      NewItems(off + 4, n, strs, lim);
      var d := First(off, k, strs, q) - off;
      RestOfItem(k, d);
      HiddenButStep(k, d, strs, lim);
    case Sub(_, _, _) => HiddenButStep(k, 0, strs, lim);
  }
}
