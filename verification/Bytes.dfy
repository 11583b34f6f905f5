/** Bytes, big-endian words and byte-range equality: the vocabulary every
    flattened-device-tree module shares. */
module Bytes {

  type byte = b: int | 0 <= b < 256

  const U32_LIMIT: int := 0x1_0000_0000
  const INT_LIMIT: int := 0x8000_0000

  /** The bytes of a string literal of seven-bit characters. */
  function Ascii(s: string): (b: seq<byte>)
    ensures |b| == |s|
  {
    seq(|s|, i requires 0 <= i < |s| => s[i] as int % 0x80)
  }

  /** FDT_TAGALIGN: round up to a multiple of four. */
  function Align4(n: int): (r: int)
    ensures n <= r < n + 4
  {
    4 * ((n + 3) / 4)
  }

  lemma AlignShift(n: int, m: int)
    requires n % 4 == 0
    ensures Align4(n + m) == n + Align4(m)
  {
  }

  /** cpu_to_fdt32 */
  function Be32(n: int): (s: seq<byte>)
    requires 0 <= n < U32_LIMIT
    ensures |s| == 4
  {
    var q1 := n / 256;
    var q2 := q1 / 256;
    [q2 / 256, q2 % 256, q1 % 256, n % 256]
  }

  /** fdt32_to_cpu of the word stored at index i. */
  function Word(s: seq<byte>, i: int): (w: int)
    requires 0 <= i && i + 4 <= |s|
    ensures 0 <= w < U32_LIMIT
  {
    s[i] as int * 0x100_0000 + s[i + 1] as int * 0x1_0000 + s[i + 2] as int * 0x100 + s[i + 3] as int
  }

  lemma WordOfBe32(n: int)
    requires 0 <= n < U32_LIMIT
    ensures Word(Be32(n), 0) == n
  {
    var q1 := n / 256;
    var q2 := q1 / 256;
    assert n == 256 * q1 + n % 256 && q1 == 256 * q2 + q1 % 256 && q2 == 256 * (q2 / 256) + q2 % 256;
  }

  /** The n bytes of s from a are the n bytes of t from b. */
  predicate Same(s: seq<byte>, a: int, t: seq<byte>, b: int, n: int) {
    && 0 <= n && 0 <= a && a + n <= |s| && 0 <= b && b + n <= |t|
    && forall j :: a <= j < a + n ==> s[j] == t[j - a + b]
  }

  lemma SamePart(s: seq<byte>, a: int, t: seq<byte>, b: int, n: int, i: int, m: int)
    requires Same(s, a, t, b, n)
    requires 0 <= i && 0 <= m && i + m <= n
    ensures Same(s, a + i, t, b + i, m)
  {
  }

  lemma SameByte(s: seq<byte>, a: int, t: seq<byte>, b: int, n: int, i: int)
    requires Same(s, a, t, b, n)
    requires 0 <= i < n
    ensures s[a + i] == t[b + i]
  {
    assert s[a + i] == t[a + i - a + b];
  }

  lemma SameSlice(s: seq<byte>, a: int, t: seq<byte>, b: int, n: int)
    requires 0 <= n && 0 <= a && a + n <= |s| && 0 <= b && b + n <= |t|
    ensures Same(s, a, t, b, n) <==> s[a..a + n] == t[b..b + n]
  {
    if s[a..a + n] == t[b..b + n] {
      forall j | a <= j < a + n ensures s[j] == t[j - a + b] {
        assert s[j] == s[a..a + n][j - a];
        assert t[j - a + b] == t[b..b + n][j - a];
      }
    }
  }

  lemma SameWord(s: seq<byte>, a: int, t: seq<byte>, b: int)
    requires Same(s, a, t, b, 4)
    ensures Word(s, a) == Word(t, b)
  {
    SameByte(s, a, t, b, 4, 0);
    SameByte(s, a, t, b, 4, 1);
    SameByte(s, a, t, b, 4, 2);
    SameByte(s, a, t, b, 4, 3);
  }

  /** strlen, bounded: index of the first zero byte at or after i, or |s|. */
  function NulFrom(s: seq<byte>, i: int): (e: int)
    requires 0 <= i <= |s|
    ensures i <= e <= |s|
    ensures e < |s| ==> s[e] == 0
    ensures forall j :: i <= j < e ==> s[j] != 0
    decreases |s| - i
  {
    if i == |s| || s[i] == 0 then i else NulFrom(s, i + 1)
  }

  lemma NulFromAt(s: seq<byte>, i: int, e: int)
    requires 0 <= i <= e < |s|
    requires s[e] == 0 && forall j :: i <= j < e ==> s[j] != 0
    ensures NulFrom(s, i) == e
    decreases e - i
  {
    if i < e {
      NulFromAt(s, i + 1, e);
    }
  }

  /** The null-terminated string stored at index i of s. */
  function StrAt(s: seq<byte>, i: int): seq<byte> {
    if 0 <= i < |s| then s[i..NulFrom(s, i)] else []
  }

  /** v occupies s from index i. */
  predicate HoldsAt(s: seq<byte>, i: int, v: seq<byte>) {
    0 <= i && i + |v| <= |s| && forall j :: i <= j < i + |v| ==> s[j] == v[j - i]
  }

  lemma HeldUnique(s: seq<byte>, i: int, v: seq<byte>, w: seq<byte>)
    requires HoldsAt(s, i, v) && HoldsAt(s, i, w) && |v| == |w|
    ensures v == w
  {
    forall j | 0 <= j < |v| ensures v[j] == w[j] {
      assert s[i + j] == v[i + j - i];
    }
  }

  predicate IsStrAt(s: seq<byte>, i: int, name: seq<byte>) {
    && 0 <= i && i + |name| < |s|
    && HoldsAt(s, i, name) && s[i + |name|] == 0 && forall j :: 0 <= j < |name| ==> name[j] != 0
  }

  lemma StrAtIs(s: seq<byte>, i: int, name: seq<byte>)
    requires IsStrAt(s, i, name)
    ensures StrAt(s, i) == name && NulFrom(s, i) == i + |name|
  {
    forall j | i <= j < i + |name| ensures s[j] != 0 {

    }
    NulFromAt(s, i, i + |name|);
  }
}
