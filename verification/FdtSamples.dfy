/** Concrete bytes, paths and names: the numbers and letters that the other modules
    speak of by name only. */
module FdtSamples {
  import opened Bytes
  import opened FdtFormat
  import opened FdtTree
  import opened FdtBlob
  import opened Fdt
  import opened FdtRo
  import opened FdtPath
  import FdtFragments
  import FdtPhandle
  import FdtRelocate
  import FdtSearch
  import Metadata

  /** Words, each as its bytes. */
  function Cells(ws: seq<u32>): (s: seq<byte>)
    ensures |s| == 4 * |ws|
  {
    if ws == [] then [] else Be32(ws[0]) + Cells(ws[1..])
  }

  /** The most significant byte comes first. */
  lemma BigEndian()
    ensures Be32(0x01020304) == [1, 2, 3, 4] && Word([1, 2, 3, 4], 0) == 0x01020304
  {
  }

  lemma {:induction false} CellAt(ws: seq<u32>, i: nat)
    requires i < |ws|
    ensures Cells(ws)[4 * i..4 * i + 4] == Be32(ws[i]) && Word(Cells(ws), 4 * i) == ws[i]
    decreases i
  {
    hide Word, Be32;
    var s, rest := Cells(ws), Cells(ws[1..]);
    if i == 0 {
      assert s[0..4] == Be32(ws[0]);
    } else {
      CellAt(ws[1..], i - 1);
      assert s[4 * i..4 * i + 4] == rest[4 * (i - 1)..4 * (i - 1) + 4];
    }
    WordOfBe32(ws[i]);
    forall j | 0 <= j < 4 ensures Be32(ws[i])[j] == s[j - 0 + 4 * i] {
      assert s[4 * i..4 * i + 4][j] == s[4 * i + j];
    }
    SameWord(Be32(ws[i]), 0, s, 4 * i);
  }

  /** The words of the structure block of a tree with a property of one byte, a NOP
      and a node. */
  const WORDS: seq<u32> := [1, 0, 3, 1, 2, 0x7800_0000, 4, 1, 0x6200_0000, 2, 2, 9]
  const BLOCK: seq<byte> := Cells(WORDS)

  /** Its items: the name of the property is the third byte of the strings. */
  function Items(): Forest {
    Sub([], Prop(2, [120], Nop(Sub([98], Nil, Nil))), Nil)
  }

  lemma Words()
    ensures Word(BLOCK, 0) == 1 && Word(BLOCK, 8) == 3 && Word(BLOCK, 12) == 1 && Word(BLOCK, 16) == 2
    ensures Word(BLOCK, 24) == 4 && Word(BLOCK, 28) == 1 && Word(BLOCK, 36) == 2 && Word(BLOCK, 40) == 2
    ensures Word(BLOCK, 44) == 9 && |BLOCK| == 48
    ensures BLOCK[4] == 0 && BLOCK[20] == 120 && BLOCK[32] == 98 && BLOCK[33] == 0
  {
    hide Word, Cells;
    CellAt(WORDS, 0);
    CellAt(WORDS, 1);
    CellAt(WORDS, 2);
    CellAt(WORDS, 3);
    CellAt(WORDS, 4);
    CellAt(WORDS, 5);
    CellAt(WORDS, 6);
    CellAt(WORDS, 7);
    CellAt(WORDS, 8);
    CellAt(WORDS, 9);
    CellAt(WORDS, 10);
    CellAt(WORDS, 11);
    assert BLOCK[4] == BLOCK[4..8][0] && BLOCK[20] == BLOCK[20..24][0];
    assert BLOCK[32] == BLOCK[32..36][0] && BLOCK[33] == BLOCK[32..36][1];
  }

  lemma Sizes()
    ensures HdrSize([]) == 8 && HdrSize([98]) == 8 && PropSize([120]) == 16 && Size(Nil) == 0
    ensures Size(Sub([98], Nil, Nil)) == 12 && Size(Nop(Sub([98], Nil, Nil))) == 16
    ensures Size(Prop(2, [120], Nop(Sub([98], Nil, Nil)))) == 32 && Size(Items()) == 44
  {
  }

  /** The block encodes these items, and with these strings they mean this tree. */
  lemma SampleBlock()
    ensures Be32(0x01020304) == [1, 2, 3, 4]
    ensures TreeIn(BLOCK, Items())
    ensures View(Items(), Ascii("a") + [0] + Ascii("p") + [0]) ==
            DNode([], DProp(Ascii("p"), Ascii("x"), DNode(Ascii("b"), DNil, DNil)), DNil)
  {
    hide Word, Be32, HdrSize, PropSize, Size, Cells;
    BigEndian();
    Words();
    Sizes();
    var b := Sub([98], Nil, Nil);
    assert IsStrAt(BLOCK, 32, [98]) && IsStrAt(BLOCK, 4, []);
    AtSub(BLOCK, 28, [98], Nil, Nil);
    assert At(BLOCK, 24, Nop(b));
    assert HoldsAt(BLOCK, 20, [120]);
    assert At(BLOCK, 8, Prop(2, [120], Nop(b)));
    AtSub(BLOCK, 0, [], Prop(2, [120], Nop(b)), Nil);
    var strs: seq<byte> := [97, 0, 112, 0];
    assert Ascii("a") + [0] + Ascii("p") + [0] == strs;
    StrAtIs(strs, 2, [112]);
    assert Ascii("p") == [112] && Ascii("x") == [120] && Ascii("b") == [98];
  }

  /** The paths of its two nodes. */
  lemma SamplePaths()
    ensures PathText(Way(0, Items(), 0)) == Ascii("/") && PathText(Way(0, Items(), 28)) == Ascii("/b")
  {
    hide HdrSize, PropSize, Size;
    Sizes();
    var b := Sub([98], Nil, Nil);
    assert Way(28, b, 28) == [Hop(28, [98])];
    assert Way(24, Nop(b), 28) == Way(28, b, 28);
    assert Way(8, Prop(2, [120], Nop(b)), 28) == Way(24, Nop(b), 28);
    assert Way(0, Items(), 28) == [Hop(0, [])] + [Hop(28, [98])];
    var way := [Hop(0, []), Hop(28, [98])];
    assert way[..1] == [Hop(0, [])] && way[..1][..0] == [] && way[..0] == [];
  }

  /** Which names answer to which. */
  lemma SampleNames()
    ensures NameEq(Ascii("f@1"), Ascii("f@1")) && NameEq(Ascii("f@1"), Ascii("f"))
    ensures !NameEq(Ascii("f"), Ascii("f@1")) && !NameEq(Ascii("f1"), Ascii("f"))
    ensures !NameEq(Ascii("f@1@2"), Ascii("f@1"))
  {
    assert Ascii("f@1")[..1] == Ascii("f");
    assert Ascii("f@1")[..3] == Ascii("f@1");
    assert Ascii("f1")[1] == 49;
    assert Ascii("f@1")[1] == 64;
  }

  lemma SpelledTargets()
    ensures FdtFragments.TARGET == Ascii("target") && FdtFragments.TARGET_PATH == Ascii("target-path")
  {
  }

  lemma SpelledNodes()
    ensures FdtFragments.OVERLAY == Ascii("__overlay__") && FdtRelocate.LOCAL_FIXUPS == Ascii("__local_fixups__")
  {
  }

  lemma SpelledMetadata()
    ensures FdtSearch.COMPATIBLE == Ascii("compatible") && Metadata.ENDPOINTS == Ascii("addressable_endpoints")
  {
  }

  /** The names of properties and nodes that the code looks for. */
  lemma Spelled()
    ensures FdtPhandle.PHANDLE == Ascii("phandle") && FdtPhandle.LINUX_PHANDLE == Ascii("linux,phandle")
    ensures FdtFragments.TARGET == Ascii("target") && FdtFragments.TARGET_PATH == Ascii("target-path")
    ensures FdtFragments.OVERLAY == Ascii("__overlay__") && FdtRelocate.LOCAL_FIXUPS == Ascii("__local_fixups__")
    ensures FdtSearch.COMPATIBLE == Ascii("compatible") && Metadata.ENDPOINTS == Ascii("addressable_endpoints")
  {
    hide Ascii;
    FdtPhandle.Spelled();
    SpelledTargets();
    SpelledNodes();
    SpelledMetadata();
  }
}
