/** The tensors of a model file: their descriptions, their sizes, and where their
    data goes. */
module GgufTensor {
  import opened Helpers
  import opened GgufBytes

  /** A tensor to be written. */
  datatype Tensor = Tensor(name: Bytes, kind: u32, shape: seq<u64>, data: Bytes)

  /** A tensor as a file describes it. */
  datatype Info = Info(name: Bytes, kind: u32, shape: seq<u64>, offset: u64)

  // --------------------------------------------------------------------- sizes

  function BlockSize(kind: nat): (r: nat)
    ensures r > 0
  {
    if kind in {0, 1, 24, 25, 26, 27, 28, 30} then 1
    else if kind in {2, 3, 6, 7, 8, 9, 20} then 32
    else 256
  }

  function TypeSize(kind: nat): nat {
    var b := BlockSize(kind);
    match kind
    case 0 => 4
    case 1 => 2
    case 2 => 2 + b / 2
    case 3 => 2 + 2 + b / 2
    case 6 => 2 + 4 + b / 2
    case 7 => 2 + 2 + 4 + b / 2
    case 8 => 2 + b
    case 9 => 2 + 2 + b
    case 10 => b / 16 + b / 4 + 2 + 2
    case 11 => b / 8 + b / 4 + 12 + 2
    case 12 => 2 + 2 + 12 + b / 2
    case 13 => 2 + 2 + 12 + b / 8 + b / 2
    case 14 => b / 2 + b / 4 + b / 16 + 2
    case 15 => 4 + b + 2 * b / 16
    case 16 => 2 + 2 * b / 8
    case 17 => 2 + 2 * b / 8 + b / 32
    case 18 => 2 + b / 4 + b / 8
    case 19 => 2 + b / 8 + b / 16
    case 20 => 2 + b / 2
    case 21 => 2 + b / 4 + b / 8 + b / 32 + 4
    case 22 => 2 + b / 4 + b / 16
    case 23 => 2 + 2 + b / 2 + b / 64
    case 24 => 1
    case 25 => 2
    case 26 => 4
    case 27 => 8
    case 28 => 8
    case 29 => b / 8 + b / 16 + b / 32
    case 30 => 2
    case _ => 0
  }

  /** The product of the first n dimensions, in 64-bit arithmetic. */
  function Parameters(shape: seq<u64>, n: nat): u64
    requires n <= |shape|
  {
    if n == 0 then 1 else Parameters(shape, n - 1) * shape[n - 1] % TWO64
  }

  function SizeOf(kind: nat, shape: seq<u64>): nat {
    (Parameters(shape, |shape|) * TypeSize(kind)) % TWO64 / BlockSize(kind)
  }

  function Reversed(shape: seq<u64>): (r: seq<u64>)
    ensures |r| == |shape| && forall i | 0 <= i < |r| :: r[i] == shape[|shape| - 1 - i]
  {
    seq(|shape|, i requires 0 <= i < |shape| => shape[|shape| - 1 - i])
  }

  // ------------------------------------------------- the order of dimensions

  lemma MulMod(a: nat, b: nat, m: nat)
    requires m > 0
    ensures (a % m) * b % m == a * b % m
  {
    var q := a / m;
    assert a == q * m + a % m;
    assert a * b == (q * b) * m + (a % m) * b;
    ModAdd((a % m) * b, q * b, m);
  }

  lemma ModAdd(x: nat, k: nat, m: nat)
    requires m > 0
    ensures (k * m + x) % m == x % m
  {
    var q := x / m;
    assert x == q * m + x % m;
    assert k * m + x == (k + q) * m + x % m;
    ModUnique(k * m + x, k + q, x % m, m);
  }

  lemma ModUnique(x: nat, q: nat, r: nat, m: nat)
    requires m > 0 && r < m && x == q * m + r
    ensures x % m == r
  {
    var p, s := x / m, x % m;
    assert p * m + s == q * m + r;
    if p > q {
      Multiples(q, p - q, m);
    } else if p < q {
      Multiples(p, q - p, m);
    }
  }

  /** The product as a plain number, from dimension lo up to hi. */
  function Product(shape: seq<u64>, lo: nat, hi: nat): nat
    requires lo <= hi <= |shape|
    decreases hi
  {
    if lo == hi then 1 else Product(shape, lo, hi - 1) * shape[hi - 1]
  }

  lemma {:induction false} ParametersIsProduct(shape: seq<u64>, n: nat)
    requires n <= |shape|
    ensures Parameters(shape, n) == Product(shape, 0, n) % TWO64
  {
    if n != 0 {
      ParametersIsProduct(shape, n - 1);
      MulMod(Product(shape, 0, n - 1), shape[n - 1], TWO64);
    }
  }

  lemma {:induction false} ProductFront(shape: seq<u64>, lo: nat, hi: nat)
    requires lo < hi <= |shape|
    ensures Product(shape, lo, hi) == shape[lo] * Product(shape, lo + 1, hi)
    decreases hi
  {
    if lo + 1 < hi {
      ProductFront(shape, lo, hi - 1);
      MulAssociate(shape[lo], Product(shape, lo + 1, hi - 1), shape[hi - 1]);
    } else {
      assert Product(shape, lo, lo) == 1 && Product(shape, hi, hi) == 1;
    }
  }

  lemma {:induction false} ProductReversed(shape: seq<u64>, n: nat)
    requires n <= |shape|
    ensures Product(Reversed(shape), 0, n) == Product(shape, |shape| - n, |shape|)
  {
    if n != 0 {
      ProductReversed(shape, n - 1);
      ProductFront(shape, |shape| - n, |shape|);
      assert Reversed(shape)[n - 1] == shape[|shape| - n];
    }
  }

  /** A tensor has the same number of parameters, and the same size, when its
      dimensions are read in reverse order. */
  lemma SizeReversed(kind: nat, shape: seq<u64>)
    ensures Parameters(Reversed(shape), |shape|) == Parameters(shape, |shape|)
    ensures SizeOf(kind, Reversed(shape)) == SizeOf(kind, shape)
  {
    ProductReversed(shape, |shape|);
    ParametersIsProduct(shape, |shape|);
    ParametersIsProduct(Reversed(shape), |shape|);
  }

  // -------------------------------------------------------------- descriptions

  function ReadShape(f: Bytes, pos: nat, n: nat): (r: Option<(seq<u64>, nat)>)
    ensures r.Some? ==> |r.value.0| == n
  {
    if n == 0 then Some(([], pos))
    else
      var (shape, p) :- ReadShape(f, pos, n - 1);
      var (d, q) :- ReadUint(f, p, 8);
      Ranges();
      Some((shape + [d], q))
  }

  function ReadInfo(f: Bytes, pos: nat): Option<(Info, nat)> {
    Ranges();
    var (name, p) :- ReadString(f, pos);
    var (dims, q) :- ReadUint(f, p, 4);
    var (shape, r) :- ReadShape(f, q, dims);
    var (kind, s) :- ReadUint(f, r, 4);
    var (offset, t) :- ReadUint(f, s, 8);
    Some((Info(name, kind, shape, offset), t))
  }

  function ReadInfos(f: Bytes, pos: nat, n: nat): (r: Option<(seq<Info>, nat)>)
    ensures r.Some? ==> |r.value.0| == n
  {
    if n == 0 then Some(([], pos))
    else
      var (infos, p) :- ReadInfos(f, pos, n - 1);
      var (info, q) :- ReadInfo(f, p);
      Some((infos + [info], q))
  }

  /** The first n dimensions to be written, the last one first. */
  function EncodeShape(shape: seq<u64>, n: nat): (b: Bytes)
    requires n <= |shape|
    ensures |b| == 8 * n
  {
    if n == 0 then [] else EncodeShape(shape, n - 1) + Le(shape[|shape| - n], 8)
  }

  ghost predicate Describable(ts: seq<Tensor>) {
    forall i | 0 <= i < |ts| :: |ts[i].name| < TWO63 && |ts[i].shape| < TWO32
  }

  function EncodeInfo(t: Tensor, offset: u64): Bytes
    requires |t.name| < TWO63 && |t.shape| < TWO32
  {
    EncodeString(t.name) + (Le(|t.shape|, 4) + (EncodeShape(t.shape, |t.shape|) + (Le(t.kind, 4) + Le(offset, 8))))
  }

  /** The offset recorded for tensor n: the sizes of those before it, added up. */
  function Offset(ts: seq<Tensor>, n: nat): u64
    requires n <= |ts|
  {
    if n == 0 then 0 else (Offset(ts, n - 1) + SizeOf(ts[n - 1].kind, ts[n - 1].shape)) % TWO64
  }

  function EncodeInfos(ts: seq<Tensor>, n: nat): Bytes
    requires n <= |ts| && Describable(ts)
  {
    if n == 0 then [] else EncodeInfos(ts, n - 1) + EncodeInfo(ts[n - 1], Offset(ts, n - 1))
  }

  /** The tensor as it is to be read back, its dimensions reversed. */
  function InfoOf(ts: seq<Tensor>, i: nat): Info
    requires i < |ts|
  {
    Info(ts[i].name, ts[i].kind, Reversed(ts[i].shape), Offset(ts, i))
  }

  function InfosOf(ts: seq<Tensor>, n: nat): (infos: seq<Info>)
    requires n <= |ts|
    ensures |infos| == n && forall i | 0 <= i < n :: infos[i] == InfoOf(ts, i)
  {
    seq(n, i requires 0 <= i < n => InfoOf(ts, i))
  }

  lemma {:induction false} ShapeAt(f: Bytes, pos: nat, shape: seq<u64>, n: nat)
    requires n <= |shape| && At(f, pos, EncodeShape(shape, n))
    ensures ReadShape(f, pos, n) == Some((Reversed(shape)[..n], pos + 8 * n))
  {
    if n == 0 {
      assert Reversed(shape)[..n] == [];
    } else {
      hide At, ReadUint;
      Ranges();
      AtSplit(f, pos, EncodeShape(shape, n - 1), Le(shape[|shape| - n], 8));
      ShapeAt(f, pos, shape, n - 1);
      UintAt(f, pos + 8 * (n - 1), shape[|shape| - n], 8);
      assert Reversed(shape)[..n] == Reversed(shape)[..n - 1] + [shape[|shape| - n]];
    }
  }

  lemma InfoAt(f: Bytes, pos: nat, t: Tensor, offset: u64)
    requires |t.name| < TWO63 && |t.shape| < TWO32 && At(f, pos, EncodeInfo(t, offset))
    ensures ReadInfo(f, pos) == Some((Info(t.name, t.kind, Reversed(t.shape), offset), pos + |EncodeInfo(t, offset)|))
  {
    hide At, ReadUint, ReadString, ReadShape, EncodeShape, Reversed;
    var n, p, q := |t.shape|, pos + 8 + |t.name|, pos + 12 + |t.name| + 8 * |t.shape|;
    var last := Le(t.kind, 4) + Le(offset, 8);
    Ranges();
    AtSplit(f, pos, EncodeString(t.name), Le(n, 4) + (EncodeShape(t.shape, n) + last));
    AtSplit(f, p, Le(n, 4), EncodeShape(t.shape, n) + last);
    AtSplit(f, p + 4, EncodeShape(t.shape, n), last);
    AtSplit(f, q, Le(t.kind, 4), Le(offset, 8));
    StringAt(f, pos, t.name);
    UintAt(f, p, n, 4);
    ShapeAt(f, p + 4, t.shape, n);
    UintAt(f, q, t.kind, 4);
    UintAt(f, q + 4, offset, 8);
    assert Reversed(t.shape)[..n] == Reversed(t.shape);
  }

  lemma {:induction false} InfosAt(f: Bytes, pos: nat, ts: seq<Tensor>, n: nat)
    requires n <= |ts| && Describable(ts) && At(f, pos, EncodeInfos(ts, n))
    ensures ReadInfos(f, pos, n) == Some((InfosOf(ts, n), pos + |EncodeInfos(ts, n)|))
  {
    hide At, ReadInfo, EncodeInfo;
    if n != 0 {
      AtSplit(f, pos, EncodeInfos(ts, n - 1), EncodeInfo(ts[n - 1], Offset(ts, n - 1)));
      InfosAt(f, pos, ts, n - 1);
      InfoAt(f, pos + |EncodeInfos(ts, n - 1)|, ts[n - 1], Offset(ts, n - 1));
      assert InfosOf(ts, n) == InfosOf(ts, n - 1) + [InfoOf(ts, n - 1)];
    }
  }

  // ---------------------------------------------------------------------- data

  function Padding(offset: nat, align: nat): (r: nat)
    requires align > 0
    ensures r < align && (offset + r) % align == 0
  {
    PaddingAligns(offset, align);
    (align - offset % align) % align
  }

  lemma PaddingAligns(offset: nat, align: nat)
    requires align > 0
    ensures (offset + (align - offset % align) % align) % align == 0
  {
    var q, r := offset / align, offset % align;
    assert offset == q * align + r;
    if r == 0 {
      ModUnique(align, 1, 0, align);
    } else {
      ModUnique(align - r, 0, align - r, align);
      assert offset + (align - r) == (q + 1) * align;
      ModUnique(offset + (align - r), q + 1, 0, align);
    }
  }

  function Zeros(n: nat): (b: Bytes)
    ensures |b| == n
  {
    seq(n, _ => 0)
  }

  /** The data of the first n tensors when the first byte goes to position pos. */
  function EncodeData(ts: seq<Tensor>, n: nat, pos: nat): Bytes
    requires n <= |ts|
  {
    if n == 0 then []
    else
      var b := EncodeData(ts, n - 1, pos);
      b + (Zeros(Padding(pos + |b|, 32)) + ts[n - 1].data)
  }

  /** Where the data of tensor i starts. */
  function Start(ts: seq<Tensor>, i: nat, pos: nat): nat
    requires i <= |ts|
  {
    var p := pos + |EncodeData(ts, i, pos)|;
    p + Padding(p, 32)
  }

  /** Every tensor writes as many bytes as its size says. */
  ghost predicate Sized(ts: seq<Tensor>) {
    forall i | 0 <= i < |ts| :: |ts[i].data| == SizeOf(ts[i].kind, ts[i].shape)
  }

  lemma {:induction false} DataAt(f: Bytes, ts: seq<Tensor>, n: nat, pos: nat, i: nat)
    requires i < n <= |ts| && At(f, pos, EncodeData(ts, n, pos))
    ensures At(f, Start(ts, i, pos), ts[i].data)
  {
    hide At;
    var b := EncodeData(ts, n - 1, pos);
    var p := pos + |b|;
    AtSplit(f, pos, b, Zeros(Padding(p, 32)) + ts[n - 1].data);
    if i == n - 1 {
      AtSplit(f, p, Zeros(Padding(p, 32)), ts[i].data);
    } else {
      DataAt(f, ts, n - 1, pos, i);
    }
  }

  /** The recorded offset of tensor i, relative to the first tensor, is where its
      data starts. */
  ghost predicate Hit(ts: seq<Tensor>, i: nat, pos: nat)
    requires i < |ts|
  {
    Start(ts, 0, pos) + Offset(ts, i) == Start(ts, i, pos)
  }

  lemma PaddingShift(s: nat, d: nat)
    requires s % 32 == 0
    ensures Padding(s + d, 32) == Padding(d, 32)
  {
    ModAdd(d, s / 32, 32);
    assert s / 32 * 32 + d == s + d;
  }

  /** The padding after a tensor that starts at an aligned place. */
  lemma NextStart(ts: seq<Tensor>, i: nat, pos: nat)
    requires i < |ts|
    ensures Start(ts, i, pos) % 32 == 0
    ensures Start(ts, i + 1, pos) == Start(ts, i, pos) + |ts[i].data| + Padding(|ts[i].data|, 32)
  {
    var s := Start(ts, i, pos);
    DataEnd(ts, i, pos);
    PaddingShift(s, |ts[i].data|);
    hide EncodeData, Padding;
  }

  lemma DataEnd(ts: seq<Tensor>, i: nat, pos: nat)
    requires i < |ts|
    ensures pos + |EncodeData(ts, i + 1, pos)| == Start(ts, i, pos) + |ts[i].data|
  {
    hide Padding;
  }

  /** Data starts at least as far as the sizes before it add up to. */
  lemma {:induction false} OffsetsLag(ts: seq<Tensor>, i: nat, pos: nat)
    requires i < |ts| && Sized(ts) && Start(ts, i, pos) < TWO64
    ensures Start(ts, 0, pos) + Offset(ts, i) <= Start(ts, i, pos)
    ensures Hit(ts, i, pos) <==> forall j | 0 <= j < i :: SizeOf(ts[j].kind, ts[j].shape) % 32 == 0
  {
    hide SizeOf, EncodeData, Start;
    if i != 0 {
      NextStart(ts, i - 1, pos);
      OffsetsLag(ts, i - 1, pos);
      var size := SizeOf(ts[i - 1].kind, ts[i - 1].shape);
      assert |ts[i - 1].data| == size;
      assert Padding(size, 32) == 0 <==> size % 32 == 0;
    }
  }

  /** The recorded offsets lead to the data of every tensor exactly when the size
      of every tensor but the last is a multiple of 32. */
  lemma OffsetsHit(ts: seq<Tensor>, pos: nat)
    ensures Sized(ts) && pos + |EncodeData(ts, |ts|, pos)| < TWO64 ==>
      ((forall i | 0 <= i < |ts| :: Hit(ts, i, pos)) <==>
       forall j | 0 <= j && j + 1 < |ts| :: SizeOf(ts[j].kind, ts[j].shape) % 32 == 0)
  {
    hide SizeOf, EncodeData, Hit, Start;
    if Sized(ts) && pos + |EncodeData(ts, |ts|, pos)| < TWO64 {
      forall i | 0 <= i < |ts|
        ensures Hit(ts, i, pos) <==> forall j | 0 <= j < i :: SizeOf(ts[j].kind, ts[j].shape) % 32 == 0
      {
        StartsBeforeEnd(ts, |ts|, i, pos);
        OffsetsLag(ts, i, pos);
      }
      if |ts| > 0 {
        assert Hit(ts, |ts| - 1, pos) || !Hit(ts, |ts| - 1, pos);
      }
    }
  }

  lemma {:induction false} StartsBeforeEnd(ts: seq<Tensor>, n: nat, i: nat, pos: nat)
    requires i < n <= |ts|
    ensures Start(ts, i, pos) + |ts[i].data| <= pos + |EncodeData(ts, n, pos)|
  {
    if i < n - 1 {
      StartsBeforeEnd(ts, n - 1, i, pos);
    }
  }

  // ------------------------------------------------------- moving past the data

  /** A relative seek; it fails before the start of the file. */
  function Seek(pos: int, delta: int): Option<nat> {
    if 0 <= pos + delta < TWO63 then Some(pos + delta) else None
  }

  function Int64(x: int): int {
    if x >= TWO63 then x - TWO64 else x
  }

  /** Where the reader is after moving past the data of the first n tensors. */
  function SkipData(infos: seq<Info>, n: nat, pos: nat, align: nat): Option<nat>
    requires n <= |infos| && align > 0
  {
    if n == 0 then Some(pos)
    else
      var p :- SkipData(infos, n - 1, pos, align);
      var q :- Seek(p, Padding(p, align));
      Seek(q, Int64(SizeOf(infos[n - 1].kind, infos[n - 1].shape)))
  }

  /** With the alignment of the writer, the reader moves past exactly the bytes
      that were written. */
  lemma {:induction false} DataSkipped(ts: seq<Tensor>, n: nat, pos: nat)
    requires n <= |ts|
    ensures Sized(ts) && pos + |EncodeData(ts, n, pos)| < TWO63 ==>
      SkipData(InfosOf(ts, |ts|), n, pos, 32) == Some(pos + |EncodeData(ts, n, pos)|)
  {
    hide SizeOf, Padding, Parameters;
    if n != 0 {
      DataSkipped(ts, n - 1, pos);
      SizeReversed(ts[n - 1].kind, ts[n - 1].shape);
    }
  }

  /** The number of parameters of the first n tensors, in 64-bit arithmetic. */
  function TotalParameters(infos: seq<Info>, n: nat): u64
    requires n <= |infos|
  {
    if n == 0 then 0
    else (TotalParameters(infos, n - 1) + Parameters(infos[n - 1].shape, |infos[n - 1].shape|)) % TWO64
  }

  function CountParameters(ts: seq<Tensor>, n: nat): u64
    requires n <= |ts|
  {
    if n == 0 then 0
    else (CountParameters(ts, n - 1) + Parameters(ts[n - 1].shape, |ts[n - 1].shape|)) % TWO64
  }

  lemma {:induction false} SameCount(ts: seq<Tensor>, n: nat)
    requires n <= |ts|
    ensures TotalParameters(InfosOf(ts, |ts|), n) == CountParameters(ts, n)
  {
    hide Parameters, SizeOf;
    if n != 0 {
      SameCount(ts, n - 1);
      SizeReversed(ts[n - 1].kind, ts[n - 1].shape);
    }
  }
}
