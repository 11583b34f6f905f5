/** What lookups and edits of a tree do to the lists of its properties and children. */
module FdtOrder {
  import opened Bytes
  import opened FdtTree
  import opened FdtRo
  import opened FdtEdits
  import opened FdtMerge

  type Value = (seq<byte>, seq<byte>)
  type Child = (seq<byte>, Dt)

  /** The properties in front of the first child, with their values. */
  function Props(d: Dt): seq<Value> {
    match d
    case DProp(m, v, n) => [(m, v)] + Props(n)
    case _ => []
  }

  /** The children, with their items. */
  function Kids(d: Dt): seq<Child> {
    match d
    case DNil => []
    case DProp(_, _, n) => Kids(n)
    case DNode(m, k, n) => [(m, k)] + Kids(n)
  }

  /** The index of the first property of that name, or of the first child that answers
      to it; the length if there is none. */
  function PropIndex(ps: seq<Value>, name: seq<byte>): (i: nat)
    ensures i <= |ps| && (i < |ps| ==> ps[i].0 == name) && forall j :: 0 <= j < i ==> ps[j].0 != name
  {
    if ps == [] || ps[0].0 == name then 0 else 1 + PropIndex(ps[1..], name)
  }

  function KidIndex(ks: seq<Child>, name: seq<byte>): (i: nat)
    ensures i <= |ks| && (i < |ks| ==> NameEq(ks[i].0, name)) && forall j :: 0 <= j < i ==> !NameEq(ks[j].0, name)
  {
    if ks == [] || NameEq(ks[0].0, name) then 0 else 1 + KidIndex(ks[1..], name)
  }

  lemma PropStep(p: Value, ps: seq<Value>, name: seq<byte>)
    ensures PropIndex([p] + ps, name) == if p.0 == name then 0 else 1 + PropIndex(ps, name)
  {
    assert ([p] + ps)[1..] == ps;
  }

  lemma KidStep(k: Child, ks: seq<Child>, name: seq<byte>)
    ensures KidIndex([k] + ks, name) == if NameEq(k.0, name) then 0 else 1 + KidIndex(ks, name)
  {
    hide NameEq;
    assert ([k] + ks)[1..] == ks;
  }

  /** Lookups take the first. */
  lemma {:induction false} LookupOrder(d: Dt, name: seq<byte>)
    ensures var ps, i := Props(d), PropIndex(Props(d), name);
            VGet(d, name) == if i < |ps| then Some(ps[i].1) else None
    ensures var ks, i := Kids(d), KidIndex(Kids(d), name);
            VChild(d, name) == if i < |ks| then Some(ks[i].1) else None
    decreases d
  {
    hide NameEq, PropIndex, KidIndex;
    match d
    case DNil =>
    case DProp(m, v, n) =>
      LookupOrder(n, name);
      PropStep((m, v), Props(n), name);
    case DNode(m, k, n) =>
      LookupOrder(n, name);
      KidStep((m, k), Kids(n), name);
  }

  /** A property that is there is overwritten in its place; a new one comes first. */
  lemma {:induction false} SetPropOrder(d: Dt, name: seq<byte>, val: seq<byte>)
    ensures var ps, i := Props(d), PropIndex(Props(d), name);
            Props(VSetProp(d, name, val)) == if i < |ps| then ps[i := (name, val)] else [(name, val)] + ps
    ensures Kids(VSetProp(d, name, val)) == Kids(d)
  {
    LookupOrder(d, name);
    if VGet(d, name).Some? {
      OverwriteOrder(d, name, val);
    }
  }

  lemma {:induction false} OverwriteOrder(d: Dt, name: seq<byte>, val: seq<byte>)
    requires VGet(d, name).Some?
    ensures var ps, i := Props(d), PropIndex(Props(d), name);
            i < |ps| && Props(VOverwrite(d, name, val)) == ps[i := (name, val)]
    ensures Kids(VOverwrite(d, name, val)) == Kids(d)
    decreases d
  {
    hide PropIndex;
    PropStep((d.name, d.val), Props(d.next), name);
    if d.name != name {
      OverwriteOrder(d.next, name, val);
    }
  }

  function Without(ps: seq<Value>, i: nat): seq<Value>
    requires i < |ps|
  {
    ps[..i] + ps[i + 1..]
  }

  lemma WithoutStep(p: Value, ps: seq<Value>, i: nat)
    requires i <= |ps|
    ensures Without([p] + ps, i) == if i == 0 then ps else [p] + Without(ps, i - 1)
  {
    var all := [p] + ps;
    if i == 0 {
      assert all[1..] == ps;
    } else {
      assert all[..i] == [p] + ps[..i - 1] && all[i + 1..] == ps[i..];
    }
  }

  /** Deleting takes the first of that name out. */
  lemma {:induction false} DelPropOrder(d: Dt, name: seq<byte>)
    ensures var ps, i := Props(d), PropIndex(Props(d), name);
            Props(VDelProp(d, name)) == if i < |ps| then Without(ps, i) else ps
    ensures Kids(VDelProp(d, name)) == Kids(d)
    decreases d
  {
    hide PropIndex, Without;
    if d.DProp? {
      var p, ps := (d.name, d.val), Props(d.next);
      PropStep(p, ps, name);
      if d.name == name {
        WithoutStep(p, ps, 0);
      } else {
        DelPropOrder(d.next, name);
        if PropIndex(ps, name) < |ps| {
          WithoutStep(p, ps, PropIndex(ps, name) + 1);
        }
      }
    }
  }

  /** A new child comes before the others, with nothing in it. */
  lemma {:induction false} AddChildOrder(d: Dt, name: seq<byte>)
    ensures Kids(VAddChild(d, name)) == [(name, DNil)] + Kids(d) && Props(VAddChild(d, name)) == Props(d)
    decreases d
  {
    if d.DProp? {
      AddChildOrder(d.next, name);
    }
  }

  /** The first child that answers gets the new items; names and order stay. */
  lemma {:induction false} PutChildOrder(d: Dt, name: seq<byte>, k: Dt)
    ensures var ks, i := Kids(d), KidIndex(Kids(d), name);
            Kids(VPutChild(d, name, k)) == if i < |ks| then ks[i := (ks[i].0, k)] else ks
    ensures Props(VPutChild(d, name, k)) == Props(d)
    decreases d
  {
    hide NameEq, KidIndex;
    match d
    case DNil =>
    case DProp(_, _, n) => PutChildOrder(n, name, k);
    case DNode(m, c, n) =>
      PutChildOrder(n, name, k);
      KidStep((m, c), Kids(n), name);
  }
}
