/** Bytes, little-endian numbers, and reading them at a position of a file. */
module GgufBytes {
  import opened Helpers

  const TWO31: int := 0x8000_0000
  const TWO32: int := 0x1_0000_0000
  const TWO63: int := 0x8000_0000_0000_0000
  const TWO64: int := 0x1_0000_0000_0000_0000

  type byte = x: int | 0 <= x < 256
  type u32 = x: int | 0 <= x < TWO32
  type i32 = x: int | -TWO31 <= x < TWO31
  type u64 = x: int | 0 <= x < TWO64
  type Bytes = seq<byte>

  // ------------------------------------------------------------------- numbers

  function Range(width: nat): (r: nat)
    ensures r > 0
  {
    if width == 0 then 1 else 256 * Range(width - 1)
  }

  lemma Ranges()
    ensures Range(1) == 256 && Range(4) == TWO32 && Range(8) == TWO64
  {
    assert Range(2) == 0x1_0000;
    assert Range(6) == 256 * 256 * Range(4);
  }

  function Le(v: nat, width: nat): (b: Bytes)
    ensures |b| == width
  {
    if width == 0 then [] else [v % 256] + Le(v / 256, width - 1)
  }

  function UnLe(b: Bytes): (v: nat)
    ensures v < Range(|b|)
  {
    if b == [] then 0 else b[0] + 256 * UnLe(b[1..])
  }

  lemma {:induction false} LeRoundTrip(v: nat, width: nat)
    requires v < Range(width)
    ensures UnLe(Le(v, width)) == v
  {
    if width != 0 {
      LeRoundTrip(v / 256, width - 1);
      assert Le(v, width)[1..] == Le(v / 256, width - 1);
    }
  }

  /** Two's complement. */
  function ToBits(v: int, width: nat): int {
    if v < 0 then v + Range(width) else v
  }

  function FromBits(bits: nat, width: nat): int {
    if bits >= Range(width) / 2 then bits - Range(width) else bits
  }

  // ------------------------------------------------------------------- reading

  function Take(f: Bytes, pos: nat, n: nat): Option<(Bytes, nat)> {
    if pos + n <= |f| then Some((f[pos..pos + n], pos + n)) else None
  }

  function ReadUint(f: Bytes, pos: nat, width: nat): (r: Option<(nat, nat)>)
    ensures r.Some? ==> r.value.0 < Range(width) && r.value.1 == pos + width
  {
    var (b, p) :- Take(f, pos, width);
    Some((UnLe(b), p))
  }

  /** A length as a signed 64-bit integer; a file never holds as much as 2^63 bytes. */
  function ReadString(f: Bytes, pos: nat): Option<(Bytes, nat)> {
    var (n, p) :- ReadUint(f, pos, 8);
    if n >= TWO63 then None else Take(f, p, n)
  }

  /** Discarding a string moves past it; but a length that is negative as a signed
      integer is taken for nothing to discard. */
  function SkipString(f: Bytes, pos: nat): Option<nat> {
    var (n, p) :- ReadUint(f, pos, 8);
    if n >= TWO63 then Some(p)
    else
      var (_, q) :- Take(f, p, n);
      Some(q)
  }

  function EncodeString(s: Bytes): Bytes
    requires |s| < TWO63
  {
    Le(|s|, 8) + s
  }

  // --------------------------------------------------------- what is at a place

  ghost predicate At(f: Bytes, pos: nat, b: Bytes) {
    pos + |b| <= |f| && f[pos..pos + |b|] == b
  }

  lemma AtSplit(f: Bytes, pos: nat, a: Bytes, b: Bytes)
    requires At(f, pos, a + b)
    ensures At(f, pos, a) && At(f, pos + |a|, b)
  {
    var ab := f[pos..pos + |a + b|];
    assert ab[..|a|] == a && ab[|a|..] == b;
    assert f[pos..pos + |a|] == ab[..|a|];
    assert f[pos + |a|..pos + |a| + |b|] == ab[|a|..];
  }

  lemma UintAt(f: Bytes, pos: nat, v: nat, width: nat)
    requires v < Range(width) && At(f, pos, Le(v, width))
    ensures ReadUint(f, pos, width) == Some((v, pos + width))
  {
    LeRoundTrip(v, width);
  }

  /** A string is read back, and discarding it ends at the same place. */
  lemma StringAt(f: Bytes, pos: nat, s: Bytes)
    requires |s| < TWO63 && At(f, pos, EncodeString(s))
    ensures ReadString(f, pos) == Some((s, pos + 8 + |s|))
  {
    AtSplit(f, pos, Le(|s|, 8), s);
    Ranges();
    UintAt(f, pos, |s|, 8);
  }

  /** Discarding a string consumes exactly what reading it would, whenever it can
      be read at all; otherwise it succeeds only on an impossible length. */
  lemma SkipIsRead(f: Bytes, pos: nat)
    ensures ReadString(f, pos).Some? ==> SkipString(f, pos) == Some(ReadString(f, pos).value.1)
    ensures ReadString(f, pos).None? && SkipString(f, pos).Some? ==> ReadUint(f, pos, 8).value.0 >= TWO63
  {
  }
}
