/** The vocabulary of a byte-pair encoder, and the mapping between the bytes of a
    text and the runes its tokens are made of. */
module BpeVocab {
  import opened Helpers

  type Byte = x: int | 0 <= x < 256

  type Bytes = seq<Byte>

  /** Code points. */
  type Runes = seq<nat>

  const SPECIAL_TYPE := 3

  datatype Vocabulary = Vocabulary(
    values: seq<Runes>,
    types: seq<nat>,
    merges: seq<Runes>,
    bos: int,
    eos: int,
    addBOS: bool,
    addEOS: bool)
  {
    /** A token's id; the map from values to ids is filled in order, so that of
        equal values the last one counts. */
    function Encode(s: Runes): (id: int) {
      LastIndex(values, s)
    }

    function Decode(id: int): Runes
      requires 0 <= id < |values|
    {
      values[id]
    }

    /** The rank of joining two strings, or -1. */
    function Merge(left: Runes, right: Runes): (rank: int) {
      LastIndex(merges, left + [0x20] + right)
    }

    function SpecialVocabulary(): (special: seq<Runes>)
      requires |types| == |values|
      ensures forall s :: s in special <==> exists i :: 0 <= i < |values| && types[i] == SPECIAL_TYPE && values[i] == s
    {
      SpecialsTo(|values|)
    }

    function SpecialsTo(n: nat): (special: seq<Runes>)
      requires n <= |types| == |values|
      ensures forall s :: s in special <==> exists i :: 0 <= i < n && types[i] == SPECIAL_TYPE && values[i] == s
    {
      if n == 0 then []
      else if types[n - 1] == SPECIAL_TYPE then SpecialsTo(n - 1) + [values[n - 1]]
      else SpecialsTo(n - 1)
    }
  }

  /** The special tokens are listed in the order of their ids, each as often as it
      has ids. */
  lemma {:induction false} SpecialsInOrder(v: Vocabulary, n: nat) returns (at: seq<nat>)
    requires n <= |v.types| == |v.values|
    ensures |at| == |v.SpecialsTo(n)|
    ensures forall k | 0 <= k < |at| :: at[k] < n && v.SpecialsTo(n)[k] == v.values[at[k]]
    ensures forall j, k | 0 <= j < k < |at| :: at[j] < at[k]
    ensures forall i | 0 <= i < n :: i in at <==> v.types[i] == 3
  {
    if n == 0 {
      at := [];
    } else {
      at := SpecialsInOrder(v, n - 1);
      if v.types[n - 1] == SPECIAL_TYPE {
        at := at + [n - 1];
      }
    }
  }

  function LastIndex<T(==)>(xs: seq<T>, x: T): (i: int)
    ensures -1 <= i < |xs|
    ensures i >= 0 ==> xs[i] == x && forall j | i < j < |xs| :: xs[j] != x
    ensures i < 0 ==> x !in xs
  {
    if xs == [] then -1
    else
      var n := |xs| - 1;
      if xs[n] == x then n else LastIndex(xs[..n], x)
  }

  // ------------------------------------------------------------- bytes and runes

  function MapByte(b: Byte): nat {
    if b == 0xad then 0x143
    else if b <= 0x20 then b + 0x100
    else if 0x7e <= b <= 0xa0 then b + 0xa2
    else b
  }

  function MapBytes(s: Bytes): (r: Runes)
    ensures |r| == |s| && forall i | 0 <= i < |s| :: r[i] == MapByte(s[i])
  {
    if s == [] then [] else [MapByte(s[0])] + MapBytes(s[1..])
  }

  /** What decoding writes for one rune. */
  function UnmapRune(r: nat): Bytes {
    if r == 0x100 then []
    else if r == 0x143 then [0xad]
    else if 0x100 < r <= 0x120 then [r - 0x100]
    else if 0x120 < r <= 0x142 then [r - 0xa2]
    else [r % 256]
  }

  function UnmapRunes(rs: Runes): Bytes {
    if rs == [] then [] else UnmapRune(rs[0]) + UnmapRunes(rs[1..])
  }

  lemma {:induction false} UnmapConcat(a: Runes, b: Runes)
    ensures UnmapRunes(a + b) == UnmapRunes(a) + UnmapRunes(b)
  {
    if a == [] {
      assert a + b == b;
    } else {
      hide UnmapRune;
      UnmapConcat(a[1..], b);
      assert (a + b)[0] == a[0] && (a + b)[1..] == a[1..] + b;
      Regroup(UnmapRune(a[0]), UnmapRunes(a[1..]), UnmapRunes(b));
    }
  }

  predicate Printable(b: Byte) {
    b != 0x00 && b != 0x7e
  }

  /** A byte survives mapping and unmapping exactly if it is neither 0x00, which
      decoding drops, nor 0x7e, which is mapped onto the rune of the space. */
  lemma ByteRoundTrip(b: Byte)
    ensures UnmapRune(MapByte(b)) == [b] <==> Printable(b)
    ensures b == 0x00 ==> UnmapRune(MapByte(b)) == []
    ensures b == 0x7e ==> UnmapRune(MapByte(b)) == [0x20]
  {
  }

  // The table that the mapping follows: a byte that is no visible character of
  // Latin-1 stands in line for the runes from 0x100 on.

  predicate Invisible(b: nat) {
    b <= 0x20 || 0x7f <= b <= 0xa0 || b == 0xad
  }

  /** How many bytes below n are invisible. */
  function InvisibleBelow(n: nat): nat {
    if n == 0 then 0 else InvisibleBelow(n - 1) + if Invisible(n - 1) then 1 else 0
  }

  lemma {:induction false} InvisibleCount(n: nat)
    requires n <= 0x100
    ensures InvisibleBelow(n) ==
      if n <= 0x21 then n else if n <= 0x7f then 0x21 else if n <= 0xa1 then n - 0x5e
      else if n <= 0xad then 0x43 else 0x44
  {
    if n != 0 {
      InvisibleCount(n - 1);
    }
  }

  /** Every byte is mapped as the table has it but 0x7e, which is mapped onto the
      rune of the space instead of being left as it is. */
  lemma MapsByTable(b: Byte)
    ensures MapByte(b) ==
      if b == 0x7e then 0x100 + InvisibleBelow(0x20)
      else if Invisible(b) then 0x100 + InvisibleBelow(b)
      else b
  {
    InvisibleCount(b);
    InvisibleCount(0x20);
  }

  /** No mapped byte is the space that separates the two sides of a merge. */
  lemma MappedHasNoSpace(s: Bytes)
    ensures 0x20 !in MapBytes(s)
  {
  }

  function FirstSpace(key: Runes): nat {
    if key == [] || key[0] == 0x20 then 0 else 1 + FirstSpace(key[1..])
  }

  lemma {:induction false} FirstSpaceIs(a: Runes, b: Runes)
    requires 0x20 !in a
    ensures FirstSpace(a + [0x20] + b) == |a|
  {
    if a != [] {
      assert (a + [0x20] + b)[1..] == a[1..] + [0x20] + b;
      FirstSpaceIs(a[1..], b);
    }
  }

  /** The first space cuts a key into its two sides. */
  lemma KeyCut(a: Runes, b: Runes, c: Runes, d: Runes)
    requires 0x20 !in a && 0x20 !in c && a + [0x20] + b == c + [0x20] + d
    ensures a == c && b == d
  {
    FirstSpaceIs(a, b);
    FirstSpaceIs(c, d);
    var key := a + [0x20] + b;
    assert a == key[..|a|] && b == key[|a| + 1..] && d == (c + [0x20] + d)[|c| + 1..];
  }

  /** The rank of a pair is where the list of merges names it last, as its left side, a
      space and its right side. */
  lemma RankIsPlace(v: Vocabulary, left: Runes, right: Runes, i: nat)
    requires i < |v.merges| && |v.merges[i]| == |left| + 1 + |right|
    requires v.merges[i][..|left|] == left && v.merges[i][|left|] == 0x20 && v.merges[i][|left| + 1..] == right
    requires forall j | i < j < |v.merges| :: v.merges[j] != v.merges[i]
    ensures v.Merge(left, right) == i
  {
    assert v.merges[i] == left + [0x20] + right;
  }

  /** A rune beyond the table is cut down to a byte. */
  lemma CutDown(b: Byte, k: nat)
    requires b + 256 * k > 0x143
    ensures UnmapRune(b + 256 * k) == [b]
  {
  }

  /** A rank belongs to one pair of strings, if their left sides hold no space. */
  lemma RankIsOnePair(v: Vocabulary, a: Runes, b: Runes, c: Runes, d: Runes)
    requires 0x20 !in a && 0x20 !in c && v.Merge(a, b) == v.Merge(c, d) >= 0
    ensures a == c && b == d
  {
    KeyCut(a, b, c, d);
  }

  /** What a text becomes when it is mapped and unmapped. */
  function Survive(s: Bytes): Bytes {
    UnmapRunes(MapBytes(s))
  }

  lemma MapConcat(a: Bytes, b: Bytes)
    ensures MapBytes(a + b) == MapBytes(a) + MapBytes(b)
  {
    hide MapByte;
  }

  lemma SurviveConcat(a: Bytes, b: Bytes)
    ensures Survive(a + b) == Survive(a) + Survive(b)
  {
    hide MapBytes, UnmapRunes;
    MapConcat(a, b);
    UnmapConcat(MapBytes(a), MapBytes(b));
  }

  predicate AllPrintable(s: Bytes) {
    forall i | 0 <= i < |s| :: Printable(s[i])
  }

  /** A text never grows, and survives exactly if all its bytes do. */
  lemma {:induction false} SurviveIff(s: Bytes)
    ensures |Survive(s)| <= |s|
    ensures Survive(s) == s <==> AllPrintable(s)
  {
    if s != [] {
      var head, tail := [s[0]], s[1..];
      SurviveIff(tail);
      ByteRoundTrip(s[0]);
      assert MapBytes(s)[0] == MapByte(s[0]) && MapBytes(s)[1..] == MapBytes(tail);
      assert Survive(s) == UnmapRune(MapByte(s[0])) + Survive(tail);
      assert AllPrintable(s) <==> Printable(s[0]) && AllPrintable(tail);
      if s[0] == 0 {
        assert |Survive(s)| < |s|;
      } else {
        assert Survive(s)[1..] == Survive(tail);
      }
    }
  }

  // ------------------------------------------------------------- UTF-8 of a token

  function Utf8Rune(r: nat): Bytes {
    if r < 0x80 then [r]
    else if r < 0x800 then [0xc0 + r / 0x40, 0x80 + r % 0x40]
    else if r < 0x1_0000 then [0xe0 + r / 0x1000, 0x80 + r / 0x40 % 0x40, 0x80 + r % 0x40]
    else [(0xf0 + r / 0x4_0000) % 0x100, 0x80 + r / 0x1000 % 0x40, 0x80 + r / 0x40 % 0x40, 0x80 + r % 0x40]
  }

  /** The bits that the bytes behind the first one carry, six in each. */
  function Continued(s: Bytes): nat {
    if s == [] then 0 else 64 * Continued(s[..|s| - 1]) + s[|s| - 1] % 64
  }

  /** s is r in UTF-8: one byte, or a first one that tells how many there are, and
      others of the form 10xxxxxx. */
  ghost predicate IsUtf8(r: nat, s: Bytes) {
    && 1 <= |s| <= 4
    && (forall i | 1 <= i < |s| :: 0x80 <= s[i] < 0xc0)
    && (|s| == 1 ==> r < 0x80 && s[0] == r)
    && (|s| == 2 ==> 0x80 <= r < 0x800 && 0xc0 <= s[0] < 0xe0 && r == (s[0] - 0xc0) * 64 + Continued(s[1..]))
    && (|s| == 3 ==> 0x800 <= r < 0x1_0000 && 0xe0 <= s[0] < 0xf0 && r == (s[0] - 0xe0) * 0x1000 + Continued(s[1..]))
    && (|s| == 4 ==> 0x1_0000 <= r && 0xf0 <= s[0] < 0xf8 && r == (s[0] - 0xf0) * 0x4_0000 + Continued(s[1..]))
  }

  lemma Utf8IsStandard(r: nat)
    requires r < 0x11_0000
    ensures IsUtf8(r, Utf8Rune(r))
  {
    if r < 0x80 {
    } else if r < 0x800 {
      TwoBytes(r);
    } else if r < 0x1_0000 {
      ThreeBytes(r);
    } else {
      FourBytes(r);
    }
  }

  lemma TwoBytes(r: nat)
    requires 0x80 <= r < 0x800
    ensures IsUtf8(r, Utf8Rune(r))
  {
    hide Continued;
    var a, b := 0xc0 + r / 0x40, 0x80 + r % 0x40;
    OneContinued(b);
    assert [a, b][1..] == [b];
  }

  lemma ThreeBytes(r: nat)
    requires 0x800 <= r < 0x1_0000
    ensures IsUtf8(r, Utf8Rune(r))
  {
    hide Continued;
    var q := r / 0x40;
    assert r / 0x1000 == q / 0x40;
    var a, b, c := 0xe0 + q / 0x40, 0x80 + q % 0x40, 0x80 + r % 0x40;
    TwoContinued(b, c);
    assert [a, b, c][1..] == [b, c];
    assert Utf8Rune(r) == [a, b, c];
  }

  lemma FourBytes(r: nat)
    requires 0x1_0000 <= r < 0x11_0000
    ensures IsUtf8(r, Utf8Rune(r))
  {
    SixBits(r);
    var s := Utf8Rune(r);
    assert s[1..] == [s[1], s[2], s[3]];
    ThreeContinued(s[1], s[2], s[3]);
    hide Continued, Utf8Rune;
  }

  /** A number in portions of six bits. */
  lemma SixBits(r: nat)
    requires 0x1_0000 <= r < 0x11_0000
    ensures r == r / 0x4_0000 * 0x4_0000 + (64 * (64 * (r / 0x1000 % 64) + r / 64 % 64) + r % 64)
    ensures r / 0x4_0000 < 8
    ensures var s := Utf8Rune(r);
      && |s| == 4 && s[0] == 0xf0 + r / 0x4_0000
      && s[1] == 0x80 + r / 0x1000 % 64 && s[2] == 0x80 + r / 64 % 64 && s[3] == 0x80 + r % 64
  {
    var q := r / 64;
    var p := q / 64;
    assert p == r / 0x1000 && p / 64 == r / 0x4_0000;
    assert r == 64 * q + r % 64 && q == 64 * p + q % 64 && p == 64 * (p / 64) + p % 64;
  }

  lemma OneContinued(a: Byte)
    ensures Continued([a]) == a % 64
  {
    assert [a][..0] == [] && Continued([]) == 0;
  }

  lemma TwoContinued(a: Byte, b: Byte)
    ensures Continued([a, b]) == 64 * (a % 64) + b % 64
  {
    OneContinued(a);
    assert [a, b][..1] == [a];
  }

  lemma ThreeContinued(a: Byte, b: Byte, c: Byte)
    ensures Continued([a, b, c]) == 64 * (64 * (a % 64) + b % 64) + c % 64
  {
    TwoContinued(a, b);
    assert [a, b, c][..2] == [a, b];
  }

  function Utf8(rs: Runes): (s: Bytes)
    ensures rs != [] ==> s != []
  {
    if rs == [] then [] else Utf8Rune(rs[0]) + Utf8(rs[1..])
  }

  predicate Ascii(rs: Runes) {
    forall i | 0 <= i < |rs| :: rs[i] < 0x80
  }

  /** A token of ASCII characters is decoded to its own text. */
  lemma {:induction false} AsciiDecodes(rs: Runes)
    requires Ascii(rs)
    ensures UnmapRunes(rs) == Utf8(rs)
  {
    if rs != [] {
      AsciiDecodes(rs[1..]);
    }
  }
}
