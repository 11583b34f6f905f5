/** metadata.c: finding endpoint nodes. */
module Endpoints {
  import opened Bytes
  import opened Errno
  import opened FdtFormat
  import opened FdtTree
  import opened FdtBlob
  import opened Fdt
  import opened FdtRo
  import opened FdtOverlay
  import opened FdtSearch

  /** xrt_md_get_endpoint */
  method GetEndpoint(b: Blob, ep: seq<byte>, compat: Option<seq<byte>>, ghost f: Forest) returns (ret: int, offset: int)
    requires Holds(b, f) && Strings(Named(ep, compat))
    ensures offset == First(0, f, b.Strings(), Named(ep, compat))
    ensures ret == if offset < 0 then ENODEV else 0
    ensures ret != 0 <==> Absent(View(f, b.Strings()), Named(ep, compat))
    ensures ret == 0 ==> IsNode(f, offset) && Wanted(Named(ep, compat), RestAt(f, offset).value.name,
                                                     View(RestAt(f, offset).value.kids, b.Strings()))
  {
    hide First, RestAt, View, Wanted, Absent;
    offset := SearchNode(b, Named(ep, compat), f);
    FirstFacts(0, f, b.Strings(), Named(ep, compat));
    ret := if offset < 0 then ENODEV else 0;
  }

  /** xrt_md_get_compatible_endpoint: the name of the first compatible node. */
  method GetCompatibleEndpoint(b: Blob, compat: seq<byte>, ghost f: Forest) returns (ret: int, name: Option<seq<byte>>)
    requires Holds(b, f) && 0 !in compat
    ensures var r := First(0, f, b.Strings(), Like(compat));
            if r < 0 then ret == ENOENT && name == None && Absent(View(f, b.Strings()), Like(compat))
            else ret == 0 && IsNode(f, r) && name == Some(RestAt(f, r).value.name)
                 && Compatible(View(RestAt(f, r).value.kids, b.Strings()), compat)
  {
    hide First, RestAt, View, Compatible, Absent, NodeCheck, StrAt, TreeIn;
    var offset := SearchNode(b, Like(compat), f);
    FirstFacts(0, f, b.Strings(), Like(compat));
    if offset < 0 {
      return ENOENT, None;
    }
    LaidTree(b, f);
    NodeNameHere(b, f, offset);
    var e, n := GetName(b, offset);
    return 0, Some(n);
  }
}
