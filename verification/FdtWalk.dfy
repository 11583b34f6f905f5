/** Walks over all nodes of a tree with fdt_next_node: what they stand at and
    what they still have before them. */
module FdtWalk {
  import opened Bytes
  import opened FdtFormat
  import opened FdtTree
  import opened Fdt

  /** The lists a walk still has before it are lists of F. */
  predicate Fits(F: Forest, off: int, f: Forest, k: Cont)
    decreases k
  {
    RestAt(F, off) == Some(f) && (k.Up? ==> Fits(F, off + Size(f) + 4, k.next, k.k))
  }

  lemma {:induction false} SeekFits(F: Forest, off: int, f: Forest, k: Cont)
    requires Fits(F, off, f, k)
    ensures var r := Seek(off, f, k); r.Node? ==> Fits(F, r.at, r.f, r.k)
    decreases k, f
  {
    hide HdrSize, PropSize, Size, RestAt;
    SizeStep(f);
    match f
    case Nop(n) => RestStep(F, off, f); SeekFits(F, off + 4, n, k);
    case Prop(_, val, n) => RestStep(F, off, f); SeekFits(F, off + PropSize(val), n, k);
    case Sub(_, _, _) =>
    case Nil =>
      if k.Up? {
        SeekFits(F, off + 4, k.next, k.k);
      }
  }

  lemma EnterFits(F: Forest, at: int, g: Forest, k: Cont)
    requires Fits(F, at, g, k) && g.Sub?
    ensures Fits(F, at + HdrSize(g.name), g.kids, Up(at, g.name, g.next, k))
  {
    hide HdrSize, PropSize, Size, RestAt;
    SizeStep(g);
    RestKids(F, at, g);
    RestStep(F, at, g);
  }

  /** What a walk over all nodes knows at the node it stands at. */
  ghost predicate Visiting(s: seq<byte>, F: Forest, r: int, name: seq<byte>, f: Forest, k: Cont) {
    && r >= 0 && r % 4 == 0 && NodeHdr(s, r, name)
    && IsNode(F, r) && RestAt(F, r).value.name == name && RestAt(F, r).value.kids == f
    && Point(s, r + HdrSize(name), f, k) && Bottom(k) == Fin && Fits(F, r + HdrSize(name), f, k)
  }

  lemma VisitStep(s: seq<byte>, F: Forest, off: int, f: Forest, k: Cont)
    requires Point(s, off, f, k) && Bottom(k) == Fin && Fits(F, off, f, k) && off >= 0
    ensures var stop := Seek(off, f, k);
            && !stop.Left?
            && (stop.Node? ==>
                  && off <= stop.at <= |s|
                  && Visiting(s, F, stop.at, stop.f.name, stop.f.kids, Up(stop.at, stop.f.name, stop.f.next, stop.k)))
  {
    hide HdrSize, PropSize, Size, RestAt, Point, NodeHdr, Seek;
    var stop := Seek(off, f, k);
    SeekPoint(s, off, f, k);
    SeekFits(F, off, f, k);
    if stop.Node? {
      EnterPoint(s, stop.at, stop.f, stop.k);
      EnterFits(F, stop.at, stop.f, stop.k);
      HdrSome(stop.f.name);
      FitsHere(F, stop.at, stop.f, stop.k);
    }
  }

  lemma FitsHere(F: Forest, off: int, f: Forest, k: Cont)
    requires Fits(F, off, f, k)
    ensures RestAt(F, off) == Some(f)
  {
  }
}
