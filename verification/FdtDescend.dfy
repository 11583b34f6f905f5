/** What a path names: from child to child, by name. */
module FdtDescend {
  import opened Bytes
  import opened FdtFormat
  import opened FdtTree
  import opened FdtBlob
  import opened Fdt
  import opened FdtRo
  import opened FdtEdits
  import opened FdtPath

  /** The texts between the slashes of a path, empty ones left out. */
  function Components(path: seq<byte>): seq<seq<byte>>
    decreases |path|
  {
    if path == [] then []
    else if path[0] == SLASH then Components(path[1..])
    else
      var q := SlashIn(path);
      [path[..q]] + Components(path[q..])
  }

  /** Components written with a slash in front of each. */
  function Written(cs: seq<seq<byte>>): seq<byte> {
    if cs == [] then [] else [SLASH] + cs[0] + Written(cs[1..])
  }

  predicate Texts(cs: seq<seq<byte>>) {
    forall i :: 0 <= i < |cs| ==> cs[i] != [] && SLASH !in cs[i]
  }

  lemma {:induction false} ComponentsWritten(cs: seq<seq<byte>>)
    requires Texts(cs)
    ensures Components(Written(cs)) == cs
    decreases |cs|
  {
    if cs != [] {
      ComponentsWritten(cs[1..]);
      OneComponent(cs[0], Written(cs[1..]));
      assert [cs[0]] + cs[1..] == cs;
    }
  }

  lemma OneComponent(c: seq<byte>, rest: seq<byte>)
    requires c != [] && SLASH !in c && (rest == [] || rest[0] == SLASH)
    ensures Components([SLASH] + c + rest) == [c] + Components(rest)
  {
    hide SlashIn;
    var path := c + rest;
    assert ([SLASH] + c + rest)[1..] == path;
    SlashHere(c, rest);
    assert path[..|c|] == c && path[|c|..] == rest && path[0] == c[0];
  }

  lemma {:induction false} SlashHere(c: seq<byte>, rest: seq<byte>)
    requires SLASH !in c && (rest == [] || rest[0] == SLASH)
    ensures SlashIn(c + rest) == |c|
    decreases |c|
  {
    if c == [] {
      assert c + rest == rest;
    } else {
      assert (c + rest)[1..] == c[1..] + rest;
      SlashHere(c[1..], rest);
    }
  }

  /** "/a//b/" has two components. */
  lemma SampleComponents()
    ensures Components(Ascii("/a//b/")) == [Ascii("a"), Ascii("b")]
  {
    var p: seq<byte> := [47, 97, 47, 47, 98, 47];
    assert Ascii("/a//b/") == p && Ascii("a") == [97] && Ascii("b") == [98];
    var a: seq<byte>, b: seq<byte> := [97], [98];
    SlashHere(a, [47, 47, 98, 47]);
    SlashHere(b, [47]);
    assert p[1..] == a + [47, 47, 98, 47] && (a + [47, 47, 98, 47])[1..] == [47, 47, 98, 47];
    assert (a + [47, 47, 98, 47])[..1] == a;
    assert [47, 47, 98, 47][1..] == [47, 98, 47] && [47, 98, 47][1..] == b + [47];
    assert (b + [47])[..1] == b && (b + [47])[1..] == [47] && [47][1..] == [];
    assert Components([]) == [] && Components([47]) == Components([]);
    assert Components(b + [47]) == [b] + Components([47]);
    assert Components([47, 98, 47]) == Components(b + [47]);
    assert Components([47, 47, 98, 47]) == Components([47, 98, 47]);
    assert Components(p[1..]) == [a] + Components([47, 47, 98, 47]);
  }

  /** The items of the node that the components lead to, each being the first child
      that answers; None as soon as there is none. */
  function Descend(d: Dt, cs: seq<seq<byte>>): Option<Dt>
    decreases |cs|
  {
    if cs == [] then Some(d)
    else
      match VChild(d, cs[0])
      case None => None
      case Some(k) => Descend(k, cs[1..])
  }

  /** fdt_path_offset finds a node exactly when the components of the path lead to
      one, and then that node; else the answer is NOTFOUND. */
  lemma {:induction false} FollowDescends(f: Forest, d: int, path: seq<byte>, strs: seq<byte>)
    requires IsNode(f, d)
    ensures var r, t := Follow(f, d, path), Descend(View(RestAt(f, d).value.kids, strs), Components(path));
            && (r < 0 ==> r == NOTFOUND && t == None)
            && (r >= 0 ==> IsNode(f, r) && t == Some(View(RestAt(f, r).value.kids, strs)))
    decreases |path|
  {
    hide HdrSize, Size, RestAt, View, VChild, ChildOff, SlashIn;
    RestInside(f, d);
    if path != [] {
      if path[0] == SLASH {
        FollowDescends(f, d, path[1..], strs);
      } else {
        var q := SlashIn(path);
        var c := ChildNamed(f, d, path[..q]);
        SlashBehind(path);
        NamedChild(f, d, path[..q], strs);
        assert ([path[..q]] + Components(path[q..]))[1..] == Components(path[q..]);
        if c >= 0 {
          FollowDescends(f, c, path[q..], strs);
        }
      }
    }
  }

  lemma NamedChild(f: Forest, d: int, name: seq<byte>, strs: seq<byte>)
    requires IsNode(f, d)
    ensures var c, k := ChildNamed(f, d, name), VChild(View(RestAt(f, d).value.kids, strs), name);
            && (c < 0 ==> c == NOTFOUND && k == None)
            && (c >= 0 ==> IsNode(f, c) && k == Some(View(RestAt(f, c).value.kids, strs)))
  {
    hide HdrSize, PropSize, Size, RestAt, ChildOff, Put, NameEq, View, VChild;
    var x := RestAt(f, d).value;
    var at := d + HdrSize(x.name);
    RestInside(f, d);
    ChildFound(at, x.kids, strs, name);
    var c := ChildOff(at, x.kids, name);
    if c >= 0 {
      PutNested(f, d, c - at, Nil);
    }
  }
}
