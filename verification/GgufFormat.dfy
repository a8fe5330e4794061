/** The format in plain numbers: how wide things are, in which order they come, and
    where a file ends. */
module GgufFormat {
  import opened Helpers
  import opened GgufBytes
  import opened GgufValue
  import opened GgufTensor
  import opened GgufFile
  import opened GgufWriter

  // ---------------------------------------------------------- bytes of a number

  /** Numbers are little-endian: byte i counts 256 to the power of i. */
  lemma {:induction false} LeDigit(v: nat, width: nat, i: nat)
    requires i < width
    ensures Le(v, width)[i] == v / Range(i) % 256
  {
    if i > 0 {
      LeDigit(v / 256, width - 1, i - 1);
      DivideTwice(v, 256, Range(i - 1));
    }
  }

  lemma DivideTwice(v: nat, a: nat, b: nat)
    requires a > 0 && b > 0
    ensures v / a / b == v / (a * b)
  {
    var u, x := v / a, v % a;
    var q, r := u / b, u % b;
    Regrouped(v, a, b, u, x, q, r);
    Quotient(v, q, r * a + x, a * b);
  }

  lemma Regrouped(v: nat, a: nat, b: nat, u: nat, x: nat, q: nat, r: nat)
    requires v == u * a + x && u == q * b + r && x < a && r < b
    ensures v == q * (a * b) + (r * a + x) && r * a + x < a * b
  {
    var s := q * b;
    assert (s + r) * a == s * a + r * a;
    MulAssociate(q, b, a);
    assert b * a == a * b;
    var d := b - r - 1;
    assert (r + 1 + d) * a == (r + 1) * a + d * a && (r + 1) * a == r * a + a;
    assert d * a >= 0;
  }

  lemma Quotient(x: nat, q: nat, r: nat, m: nat)
    requires m > 0 && r < m && x == q * m + r
    ensures x / m == q
  {
    var p, s := x / m, x % m;
    if p > q {
      Multiples(q, p - q, m);
    } else if p < q {
      Multiples(p, q - p, m);
    }
  }

  /** Bits stand, in two's complement, for the signed number of so many bytes that
      differs from them by a multiple of the range. */
  lemma TwosComplement(bits: nat, width: nat)
    requires 0 < width && bits < Range(width)
    ensures -(Range(width) / 2) <= FromBits(bits, width) < Range(width) / 2
    ensures FromBits(bits, width) == bits || FromBits(bits, width) == bits - Range(width)
  {
    assert Range(width) == 256 * Range(width - 1);
  }

  // -------------------------------------------------------------- types of values

  /** The types of numbers, by their codes: how wide they are, and whether signed. */
  const NUMBERS: map<nat, (nat, bool)> := map[
    0 := (1, false), 1 := (1, true), 2 := (2, false), 3 := (2, true), 4 := (4, false), 5 := (4, true),
    6 := (4, false), 10 := (8, false), 11 := (8, true), 12 := (8, false)]

  /** A number of any type is read from as many bytes as its type has. */
  lemma NumberRead(f: Bytes, pos: nat, t: nat, v: int)
    requires t in NUMBERS
    requires var (width, signed) := NUMBERS[t];
      && (if signed then -(Range(width) / 2) <= v < Range(width) / 2 else 0 <= v < Range(width))
      && At(f, pos, Le(ToBits(v, width), width))
    ensures ReadScalar(f, pos, t) == Some((Num(t, v), pos + NUMBERS[t].0))
  {
    hide At, Le, Range;
    var (width, signed) := NUMBERS[t];
    assert Numeric(t) && Width(t) == width && Signed(t) == signed;
    Bits(v, width, signed);
    UintAt(f, pos, ToBits(v, width), width);
  }

  lemma Bits(v: int, width: nat, signed: bool)
    requires 0 < width
    requires if signed then -(Range(width) / 2) <= v < Range(width) / 2 else 0 <= v < Range(width)
    ensures 0 <= ToBits(v, width) < Range(width)
    ensures (if signed then FromBits(ToBits(v, width), width) else ToBits(v, width)) == v
  {
    assert Range(width) == 256 * Range(width - 1);
  }

  /** Nothing but numbers, truth values, texts and arrays is read. */
  lemma OtherTypes(f: Bytes, pos: nat, t: nat, max: int)
    requires t !in NUMBERS && t != 7 && t != 8 && t != 9 && t < TWO32 && At(f, pos, Le(t, 4))
    ensures ReadValue(f, pos, max) == None
  {
    Ranges();
    hide At, Le;
    UintAt(f, pos, t, 4);
  }

  /** Every value that is written begins with the code of its type. */
  lemma TypeCodes(w: Written)
    requires w.Fits() && !w.Improper?
    ensures var b := EncodeValue(w);
      |b| >= 4 && b[..4] == match w
        case U32(_) => [4, 0, 0, 0]
        case F32(_) => [6, 0, 0, 0]
        case Bool(_) => [7, 0, 0, 0]
        case Str(_) => [8, 0, 0, 0]
        case _ => [9, 0, 0, 0]
    ensures w.I32s? || w.U32s? || w.F32s? || w.Strs? ==>
      |EncodeValue(w)| >= 16 && EncodeValue(w)[4..8] == match w
        case I32s(_) => [5, 0, 0, 0]
        case U32s(_) => [4, 0, 0, 0]
        case F32s(_) => [6, 0, 0, 0]
        case _ => [8, 0, 0, 0]
  {
    CodeBytes(4);
    CodeBytes(5);
    CodeBytes(6);
    CodeBytes(7);
    CodeBytes(8);
    CodeBytes(9);
    hide Le, Encode32s, EncodeStrings, EncodeString;
  }

  lemma CodeBytes(c: nat)
    requires c < 256
    ensures Le(c, 4) == [c, 0, 0, 0]
  {
    forall i | 0 <= i < 4
      ensures Le(c, 4)[i] == [c, 0, 0, 0][i]
    {
      LeDigit(c, 4, i);
      assert Range(1) == 256 && Range(2) == 0x1_0000 && Range(3) == 0x100_0000;
    }
  }

  /** The elements of an array are kept exactly if there is no bound, or there are not
      more of them than it says; a bound of 0 stands for 1024. */
  lemma KeptWithin(f: Bytes, pos: nat, max: int)
    ensures ReadArray(f, pos, max).Some? ==>
      var v := ReadArray(f, pos, max).value.0;
      v.Array? && (v.values.Some? <==> max < 0 || v.size <= max)
    ensures Decode(f, 0) == Decode(f, 1024)
  {
    hide ReadElems, ReadHead, ReadPairs, DecodeTensors;
  }

  // ------------------------------------------------------------------- the head

  /** A file begins with "GGUF", version 3, and the two counts. */
  lemma HeadBytes(numTensor: nat, numKV: nat)
    ensures Head(numTensor, numKV)[..8] == Ascii("GGUF") + [3, 0, 0, 0]
    ensures Head(numTensor, numKV)[8..16] == Le(numTensor, 8) && Head(numTensor, numKV)[16..] == Le(numKV, 8)
  {
    CodeBytes(3);
    hide Le;
  }

  /** What does not begin with "GGUF" is not decoded, nor is version 1. */
  lemma OthersAreRefused(f: Bytes, max: int)
    requires Decode(f, max).Some?
    ensures |f| >= 24 && f[..4] == Ascii("GGUF") && f[4..8] != [1, 0, 0, 0]
  {
    hide ReadPairs, DecodeTensors;
    var a, b, c, d := f[0], f[1], f[2], f[3];
    FourBytes(f[0..4]);
    FourBytes(f[4..8]);
    FourDigits(a, b, c, d);
  }

  function Digits(a: int, b: int, c: int, d: int): int {
    a + 256 * (b + 256 * (c + 256 * d))
  }

  lemma FourBytes(b: Bytes)
    requires |b| == 4
    ensures UnLe(b) == Digits(b[0], b[1], b[2], b[3])
  {
    assert b[1..][1..] == b[2..] && b[2..][1..] == b[3..] && b[3..][1..] == [];
    assert UnLe(b[3..]) == b[3] + 256 * UnLe([]);
    assert UnLe(b[2..]) == b[2] + 256 * UnLe(b[3..]);
    assert UnLe(b[1..]) == b[1] + 256 * UnLe(b[2..]);
  }

  lemma FourDigits(a: byte, b: byte, c: byte, d: byte)
    requires Digits(a, b, c, d) == 0x46554747
    ensures a == 0x47 && b == 0x47 && c == 0x55 && d == 0x46
  {
  }

  // -------------------------------------------------------------- descriptions

  /** The parts of a description, each where the format has it. */
  lemma InfoLayout(t: Tensor, offset: u64, i: nat)
    requires |t.name| < TWO63 && |t.shape| < TWO32 && i < |t.shape|
    ensures var b, at := EncodeInfo(t, offset), 12 + |t.name|;
      && At(b, 0, Le(|t.name|, 8)) && At(b, 8, t.name) && At(b, 8 + |t.name|, Le(|t.shape|, 4))
      && At(b, at + 8 * i, Le(t.shape[|t.shape| - 1 - i], 8))
      && At(b, at + 8 * |t.shape|, Le(t.kind, 4)) && At(b, at + 8 * |t.shape| + 4, Le(offset, 8))
      && |b| == at + 8 * |t.shape| + 12
  {
    hide At, Le, EncodeShape;
    var b, n, p := EncodeInfo(t, offset), |t.shape|, 8 + |t.name|;
    var last := Le(t.kind, 4) + Le(offset, 8);
    WholeAt(b);
    AtSplit(b, 0, EncodeString(t.name), Le(n, 4) + (EncodeShape(t.shape, n) + last));
    AtSplit(b, 0, Le(|t.name|, 8), t.name);
    AtSplit(b, p, Le(n, 4), EncodeShape(t.shape, n) + last);
    AtSplit(b, p + 4, EncodeShape(t.shape, n), last);
    AtSplit(b, p + 4 + 8 * n, Le(t.kind, 4), Le(offset, 8));
    DimensionAt(b, p + 4, t.shape, n, i);
  }

  lemma {:induction false} DimensionAt(f: Bytes, pos: nat, shape: seq<u64>, n: nat, i: nat)
    requires i < n <= |shape| && At(f, pos, EncodeShape(shape, n))
    ensures At(f, pos + 8 * i, Le(shape[|shape| - 1 - i], 8))
  {
    hide At, Le;
    AtSplit(f, pos, EncodeShape(shape, n - 1), Le(shape[|shape| - n], 8));
    if i < n - 1 {
      DimensionAt(f, pos, shape, n - 1, i);
    }
  }

  /** The order of keys: at the first byte that differs, the smaller one comes first;
      a key comes before those it begins. */
  lemma {:induction false} BeforeMeans(a: Bytes, b: Bytes)
    ensures Before(a, b) <==> exists i :: 0 <= i <= |a| && i < |b| && DiffersAt(a, b, i)
  {
    if a != [] && b != [] && a[0] == b[0] {
      BeforeMeans(a[1..], b[1..]);
      if i :| 0 <= i <= |a[1..]| && i < |b[1..]| && DiffersAt(a[1..], b[1..], i) {
        assert forall k | 0 < k < i + 1 :: a[k] == a[1..][k - 1] && b[k] == b[1..][k - 1];
        assert DiffersAt(a, b, i + 1);
      }
      if i :| 0 <= i <= |a| && i < |b| && DiffersAt(a, b, i) {
        assert i > 0 && DiffersAt(a[1..], b[1..], i - 1);
      }
    } else if b != [] {
      assert DiffersAt(a, b, 0) <==> a == [] || a[0] < b[0];
    }
  }

  ghost predicate DiffersAt(a: Bytes, b: Bytes, i: int)
    requires 0 <= i <= |a| && i < |b|
  {
    (forall k | 0 <= k < i :: a[k] == b[k]) && (i == |a| || a[i] < b[i])
  }

  // ------------------------------------------------------------ sizes of tensors

  /** The blocks of each kind, in elements and in bytes. */
  function Block(kind: nat): (nat, nat) {
    match kind
    case 0 => (1, 4)        // F32
    case 1 => (1, 2)        // F16
    case 2 => (32, 18)      // Q4_0
    case 3 => (32, 20)      // Q4_1
    case 6 => (32, 22)      // Q5_0
    case 7 => (32, 24)      // Q5_1
    case 8 => (32, 34)      // Q8_0
    case 9 => (32, 36)      // Q8_1
    case 10 => (256, 84)    // Q2_K
    case 11 => (256, 110)   // Q3_K
    case 12 => (256, 144)   // Q4_K
    case 13 => (256, 176)   // Q5_K
    case 14 => (256, 210)   // Q6_K
    case 15 => (256, 292)   // Q8_K
    case 16 => (256, 66)    // IQ2_XXS
    case 17 => (256, 74)    // IQ2_XS
    case 18 => (256, 98)    // IQ3_XXS
    case 19 => (256, 50)    // IQ1_S
    case 20 => (32, 18)     // IQ4_NL
    case 21 => (256, 110)   // IQ3_S
    case 22 => (256, 82)    // IQ2_S
    case 23 => (256, 136)   // IQ4_XS
    case 24 => (1, 1)       // I8
    case 25 => (1, 2)       // I16
    case 26 => (1, 4)       // I32
    case 27 => (1, 8)       // I64
    case 28 => (1, 8)       // F64
    case 29 => (256, 56)    // IQ1_M
    case 30 => (1, 2)       // BF16
    case _ => (256, 0)      // unknown
  }

  lemma BlocksOfFormat(kind: nat)
    ensures (BlockSize(kind), TypeSize(kind)) == Block(kind)
  {
  }

  function BlockBytes(kind: nat): nat {
    Block(kind).1
  }

  /** The tensor has n whole blocks, and no more elements or bytes than can be counted. */
  ghost predicate HasBlocks(kind: nat, shape: seq<u64>, n: nat) {
    && Product(shape, 0, |shape|) == n * Block(kind).0
    && Product(shape, 0, |shape|) * BlockBytes(kind) < TWO63
    && Product(shape, 0, |shape|) < TWO64
  }

  /** A tensor of n blocks takes n times the bytes of a block. */
  lemma SizeOfBlocks(kind: nat, shape: seq<u64>, n: nat)
    requires HasBlocks(kind, shape, n)
    ensures SizeOf(kind, shape) == n * BlockBytes(kind) < TWO63
  {
    hide Product, Parameters, TypeSize, BlockSize, Block;
    var product, block, bytes := Product(shape, 0, |shape|), BlockSize(kind), TypeSize(kind);
    BlocksOfFormat(kind);
    ParametersIsProduct(shape, |shape|);
    SmallMod(product, TWO64);
    SmallMod(product * bytes, TWO64);
    Swapped(n, block, bytes);
    Quotient(product * bytes, n * bytes, 0, block);
  }

  lemma Swapped(n: nat, block: nat, bytes: nat)
    requires block > 0
    ensures n * block * bytes == n * bytes * block && n * bytes <= n * bytes * block
  {
    var x := n * bytes;
    MulAssociate(n, block, bytes);
    MulAssociate(n, bytes, block);
    assert block * bytes == bytes * block;
    assert x * block == x * (block - 1) + x && x * (block - 1) >= 0;
  }

  lemma SmallMod(x: nat, m: nat)
    requires x < m
    ensures x % m == x
  {
  }

  function RoundedUp(e: nat, align: nat): nat
    requires align > 0
  {
    var q: nat := (e + align - 1) / align;
    q * align
  }

  /** All elements of the first n tensors, as a plain number. */
  function Elements(infos: seq<Info>, n: nat): nat
    requires n <= |infos|
  {
    if n == 0 then 0
    else Elements(infos, n - 1) + Product(infos[n - 1].shape, 0, |infos[n - 1].shape|)
  }

  /** The number of parameters is the number of elements, in 64-bit arithmetic. */
  lemma {:induction false} ParametersAreElements(infos: seq<Info>, n: nat)
    requires n <= |infos|
    ensures TotalParameters(infos, n) == Elements(infos, n) % TWO64
  {
    hide Product, Parameters;
    if n != 0 {
      ParametersAreElements(infos, n - 1);
      var shape := infos[n - 1].shape;
      ParametersIsProduct(shape, |shape|);
      AddMod(Elements(infos, n - 1), Product(shape, 0, |shape|), TWO64);
    }
  }

  lemma AddMod(a: nat, b: nat, m: nat)
    requires m > 0
    ensures (a % m + b % m) % m == (a + b) % m
  {
    var k := a / m + b / m;
    assert a + b == k * m + (a % m + b % m) by {
      assert a == a / m * m + a % m && b == b / m * m + b % m;
      assert k * m == a / m * m + b / m * m;
    }
    ModAdd(a % m + b % m, k, m);
  }

  /** The end of the data of the first k tensors, from start on: each tensor begins at
      a multiple of the alignment and takes so many blocks. */
  function DataEnd(infos: seq<Info>, ns: seq<nat>, align: nat, start: nat, k: nat): nat
    requires k <= |infos| == |ns| && align > 0
  {
    if k == 0 then start
    else
      var e := DataEnd(infos, ns, align, start, k - 1);
      RoundedUp(e, align) + ns[k - 1] * BlockBytes(infos[k - 1].kind)
  }

  lemma RoundsUp(e: nat, align: nat)
    requires align > 0
    ensures e + Padding(e, align) == RoundedUp(e, align)
  {
    hide Padding;
    var r, m := Padding(e, align), (e + Padding(e, align)) / align;
    assert e + r == m * align + 0;
    assert e + align - 1 == m * align + (align - 1 - r);
    Quotient(e + align - 1, m, align - 1 - r, align);
  }

  lemma {:induction false} SkipEnds(infos: seq<Info>, ns: seq<nat>, align: nat, pos: nat, k: nat)
    requires 0 < k <= |infos| == |ns| && align > 0
    requires forall i | 0 <= i < |infos| :: HasBlocks(infos[i].kind, infos[i].shape, ns[i])
    requires SkipData(infos, k, pos, align).Some?
    ensures SkipData(infos, k, pos, align).value == DataEnd(infos, ns, align, pos + Padding(pos, align), k)
  {
    hide SizeOf, HasBlocks, Padding, BlockBytes, RoundedUp;
    var start := pos + Padding(pos, align);
    SizeOfBlocks(infos[k - 1].kind, infos[k - 1].shape, ns[k - 1]);
    if k == 1 {
      RoundsUp(pos, align);
      RoundsUp(start, align);
      AlignedStays(start, align);
    } else {
      SkipEnds(infos, ns, align, pos, k - 1);
      RoundsUp(SkipData(infos, k - 1, pos, align).value, align);
    }
  }

  lemma AlignedStays(start: nat, align: nat)
    requires align > 0 && start % align == 0
    ensures Padding(start, align) == 0
  {
  }

  lemma DecodeIs(f: Bytes, max: int)
    requires Decode(f, max).Some?
    ensures var m := Decode(f, max).value;
      && Alignment(m.kv) > 0
      && exists pos ::
        && 0 <= pos && m.dataStart == pos + Padding(pos, Alignment(m.kv))
        && SkipData(m.tensors, |m.tensors|, pos, Alignment(m.kv)) == Some(m.end)
  {
    hide ReadPairs, ReadInfos, SkipData, Padding, Alignment, TotalParameters;
  }

  /** Decoding ends right behind the blocks of the last tensor, if there are tensors
      and all of them consist of whole blocks. */
  lemma DecodeEnds(f: Bytes, max: int, ns: seq<nat>)
    requires Decode(f, max).Some?
    requires var infos := Decode(f, max).value.tensors;
      infos != [] && |ns| == |infos| && forall i | 0 <= i < |infos| :: HasBlocks(infos[i].kind, infos[i].shape, ns[i])
    ensures var m := Decode(f, max).value;
      && Alignment(m.kv) > 0 && m.dataStart % Alignment(m.kv) == 0
      && m.end == DataEnd(m.tensors, ns, Alignment(m.kv), m.dataStart, |m.tensors|)
  {
    hide Decode, SkipData, HasBlocks, DataEnd, Alignment;
    DecodeIs(f, max);
    var m := Decode(f, max).value;
    var pos: nat :| m.dataStart == pos + Padding(pos, Alignment(m.kv)) &&
      SkipData(m.tensors, |m.tensors|, pos, Alignment(m.kv)) == Some(m.end);
    SkipEnds(m.tensors, ns, Alignment(m.kv), pos, |m.tensors|);
  }
}
