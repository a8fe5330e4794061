/** Metadata of a model file: keys with typed values. */
module GgufValue {
  import opened Helpers
  import opened GgufBytes

  const BOOL: nat := 7
  const STRING: nat := 8
  const ARRAY: nat := 9

  predicate Numeric(t: nat) {
    t <= 6 || 10 <= t <= 12
  }

  function Width(t: nat): nat {
    if t <= 1 then 1 else if t <= 3 then 2 else if t <= 6 then 4 else 8
  }

  /** int8, int16, int32 and int64. */
  predicate Signed(t: nat) {
    t == 1 || t == 3 || t == 5 || t == 11
  }

  /** A value as it is read. A number carries its type; floating-point numbers are
      kept as their bits. An array may have been measured only. */
  datatype Value =
    | Num(t: nat, v: int)
    | Flag(b: bool)
    | Text(s: Bytes)
    | Array(size: nat, values: Option<seq<Value>>)

  // ------------------------------------------------------------------- reading

  function ReadScalar(f: Bytes, pos: nat, t: nat): Option<(Value, nat)> {
    if Numeric(t) then
      var (bits, p) :- ReadUint(f, pos, Width(t));
      Some((Num(t, if Signed(t) then FromBits(bits, Width(t)) else bits), p))
    else if t == BOOL then
      var (bits, p) :- ReadUint(f, pos, 1);
      Some((Flag(bits != 0), p))
    else if t == STRING then
      var (s, p) :- ReadString(f, pos);
      Some((Text(s), p))
    else None
  }

  /** Moves past an element that is not collected. */
  function SkipScalar(f: Bytes, pos: nat, t: nat): Option<nat> {
    if t == STRING then SkipString(f, pos)
    else
      var (_, p) :- ReadScalar(f, pos, t);
      Some(p)
  }

  /** The first n elements of an array, collected or not. */
  function ReadElems(f: Bytes, pos: nat, t: nat, n: nat, collect: bool): Option<(seq<Value>, nat)> {
    if n == 0 then Some(([], pos))
    else
      var (vs, p) :- ReadElems(f, pos, t, n - 1, collect);
      if collect then
        var (v, q) :- ReadScalar(f, p, t);
        Some((vs + [v], q))
      else
        var q :- SkipScalar(f, p, t);
        Some((vs, q))
  }

  /** Without a bound (a negative one) every array is collected. */
  predicate CanCollect(n: nat, max: int) {
    max < 0 || n <= max
  }

  function ReadArray(f: Bytes, pos: nat, max: int): Option<(Value, nat)> {
    var (t, p) :- ReadUint(f, pos, 4);
    var (n, q) :- ReadUint(f, p, 8);
    if n >= TWO63 then None
    else
      var (vs, r) :- ReadElems(f, q, t, n, CanCollect(n, max));
      Some((Array(n, if CanCollect(n, max) then Some(vs) else None), r))
  }

  function ReadValue(f: Bytes, pos: nat, max: int): Option<(Value, nat)> {
    var (t, p) :- ReadUint(f, pos, 4);
    if t == ARRAY then ReadArray(f, p, max) else ReadScalar(f, p, t)
  }

  function ReadPair(f: Bytes, pos: nat, max: int): Option<((Bytes, Value), nat)> {
    var (k, p) :- ReadString(f, pos);
    var (v, q) :- ReadValue(f, p, max);
    Some(((k, v), q))
  }

  /** The first n pairs; of two pairs with the same key the later one counts. */
  function ReadPairs(f: Bytes, pos: nat, n: nat, max: int): Option<(map<Bytes, Value>, nat)> {
    if n == 0 then Some((map[], pos))
    else
      var (kv, p) :- ReadPairs(f, pos, n - 1, max);
      var ((k, v), q) :- ReadPair(f, p, max);
      Some((kv[k := v], q))
  }

  // ------------------------------------------------------------------- writing

  /** A value to be written; only some types can be. */
  datatype Written =
    | U32(u: u32)
    | F32(bits: u32)
    | Bool(b: bool)
    | Str(s: Bytes)
    | I32s(xs: seq<i32>)
    | U32s(us: seq<u32>)
    | F32s(fs: seq<u32>)
    | Strs(ss: seq<Bytes>)
    | Improper
  {
    /** Lengths are within what a length can be. */
    ghost predicate Fits() {
      match this
      case Str(s) => |s| < TWO63
      case I32s(s) => |s| < TWO63
      case U32s(s) => |s| < TWO63
      case F32s(s) => |s| < TWO63
      case Strs(s) => |s| < TWO63 && forall i | 0 <= i < |s| :: |s[i]| < TWO63
      case _ => true
    }
  }

  function Encode32s(s: seq<int>, n: nat): Bytes
    requires n <= |s| && forall i | 0 <= i < |s| :: -TWO31 <= s[i] < TWO32
  {
    if n == 0 then [] else Encode32s(s, n - 1) + Encode32(s[n - 1])
  }

  function Encode32(v: int): (b: Bytes)
    requires -TWO31 <= v < TWO32
    ensures |b| == 4
  {
    Ranges();
    Le(ToBits(v, 4), 4)
  }

  function EncodeStrings(s: seq<Bytes>, n: nat): Bytes
    requires n <= |s| && forall i | 0 <= i < |s| :: |s[i]| < TWO63
  {
    if n == 0 then [] else EncodeStrings(s, n - 1) + EncodeString(s[n - 1])
  }

  /** The type and the number of elements of an array. */
  function ArrayHead(t: nat, n: nat): (b: Bytes)
    ensures |b| == 16
  {
    Le(ARRAY, 4) + (Le(t, 4) + Le(n, 8))
  }

  function EncodeValue(w: Written): Bytes
    requires w.Fits() && !w.Improper?
  {
    match w
    case U32(v) => Le(4, 4) + Le(v, 4)
    case F32(v) => Le(6, 4) + Le(v, 4)
    case Bool(b) => Le(BOOL, 4) + [if b then 1 else 0]
    case Str(s) => Le(STRING, 4) + EncodeString(s)
    case I32s(s) => ArrayHead(5, |s|) + Encode32s(s, |s|)
    case U32s(s) => ArrayHead(4, |s|) + Encode32s(s, |s|)
    case F32s(s) => ArrayHead(6, |s|) + Encode32s(s, |s|)
    case Strs(s) => ArrayHead(STRING, |s|) + EncodeStrings(s, |s|)
  }

  function EncodePair(k: Bytes, w: Written): Bytes
    requires |k| < TWO63 && w.Fits() && !w.Improper?
  {
    EncodeString(k) + EncodeValue(w)
  }

  // -------------------------------------------------------------- round trip

  function Numbers(t: nat, s: seq<int>): (vs: seq<Value>)
    ensures |vs| == |s| && forall i | 0 <= i < |vs| :: vs[i] == Num(t, s[i])
  {
    seq(|s|, i requires 0 <= i < |s| => Num(t, s[i]))
  }

  function Texts(s: seq<Bytes>): (vs: seq<Value>)
    ensures |vs| == |s| && forall i | 0 <= i < |vs| :: vs[i] == Text(s[i])
  {
    seq(|s|, i requires 0 <= i < |s| => Text(s[i]))
  }

  /** What a written value is to be read back as. */
  function Full(w: Written): Value
    requires !w.Improper?
  {
    match w
    case U32(v) => Num(4, v)
    case F32(v) => Num(6, v)
    case Bool(b) => Flag(b)
    case Str(s) => Text(s)
    case I32s(s) => Array(|s|, Some(Numbers(5, s)))
    case U32s(s) => Array(|s|, Some(Numbers(4, s)))
    case F32s(s) => Array(|s|, Some(Numbers(6, s)))
    case Strs(s) => Array(|s|, Some(Texts(s)))
  }

  /** An array larger than the bound loses its elements, but not its size. */
  function Elide(v: Value, max: int): Value {
    if v.Array? && !CanCollect(v.size, max) then Array(v.size, None) else v
  }

  predicate Allowed(t: nat, v: int) {
    if t == 5 then -TWO31 <= v < TWO31 else (t == 4 || t == 6) && 0 <= v < TWO32
  }

  lemma NumberAt(f: Bytes, pos: nat, t: nat, v: int)
    requires Allowed(t, v) && -TWO31 <= v < TWO32 && At(f, pos, Encode32(v))
    ensures ReadScalar(f, pos, t) == Some((Num(t, v), pos + 4))
  {
    Ranges();
    UintAt(f, pos, ToBits(v, 4), 4);
  }

  lemma OneElemMore(f: Bytes, pos: nat, t: nat, n: nat, collect: bool)
    requires ReadElems(f, pos, t, n, collect).Some?
    ensures var (vs, p) := ReadElems(f, pos, t, n, collect).value;
      var v, q := ReadScalar(f, p, t), SkipScalar(f, p, t);
      && (collect && v.Some? ==> ReadElems(f, pos, t, n + 1, collect) == Some((vs + [v.value.0], v.value.1)))
      && (!collect && q.Some? ==> ReadElems(f, pos, t, n + 1, collect) == Some((vs, q.value)))
  {
    hide ReadScalar, SkipScalar;
  }

  lemma NoElems(f: Bytes, pos: nat, t: nat, vs: seq<Value>, collect: bool)
    ensures ReadElems(f, pos, t, 0, collect) == Some((Collected(vs, 0, collect), pos))
  {
  }

  /** The first n of the elements, if they are collected. */
  function Collected(vs: seq<Value>, n: nat, collect: bool): seq<Value>
    requires n <= |vs|
  {
    if collect then vs[..n] else []
  }

  lemma AllCollected(vs: seq<Value>, collect: bool)
    ensures Collected(vs, |vs|, collect) == if collect then vs else []
  {
    assert vs[..|vs|] == vs;
  }

  lemma OneMoreCollected(vs: seq<Value>, n: nat, collect: bool)
    requires n < |vs|
    ensures Collected(vs, n + 1, collect) == if collect then Collected(vs, n, collect) + [vs[n]] else []
    ensures !collect ==> Collected(vs, n, collect) == []
  {
  }

  lemma Split32s(s: seq<int>, n: nat)
    requires n <= |s| && forall i | 0 <= i < |s| :: -TWO31 <= s[i] < TWO32
    ensures Encode32s(s, n) == if n == 0 then [] else Encode32s(s, n - 1) + Encode32(s[n - 1])
  {
  }

  lemma SplitStrings(s: seq<Bytes>, n: nat)
    requires n <= |s| && forall i | 0 <= i < |s| :: |s[i]| < TWO63
    ensures EncodeStrings(s, n) == if n == 0 then [] else EncodeStrings(s, n - 1) + EncodeString(s[n - 1])
  {
  }

  lemma {:induction false} NumbersAt(f: Bytes, pos: nat, t: nat, s: seq<int>, n: nat, collect: bool)
    requires n <= |s| && forall i | 0 <= i < |s| :: Allowed(t, s[i])
    requires forall i | 0 <= i < |s| :: -TWO31 <= s[i] < TWO32
    requires At(f, pos, Encode32s(s, n))
    ensures ReadElems(f, pos, t, n, collect)
         == Some((Collected(Numbers(t, s), n, collect), pos + |Encode32s(s, n)|))
  {
    hide ReadElems, ReadScalar, Encode32, Encode32s, At, Collected;
    if n == 0 {
      NoElems(f, pos, t, Numbers(t, s), collect);
      Split32s(s, n);
    } else {
      Split32s(s, n);
      AtSplit(f, pos, Encode32s(s, n - 1), Encode32(s[n - 1]));
      NumbersAt(f, pos, t, s, n - 1, collect);
      NumberAt(f, pos + |Encode32s(s, n - 1)|, t, s[n - 1]);
      OneElemMore(f, pos, t, n - 1, collect);
      OneMoreCollected(Numbers(t, s), n - 1, collect);
    }
  }

  lemma TextAt(f: Bytes, pos: nat, s: Bytes)
    requires |s| < TWO63 && At(f, pos, EncodeString(s))
    ensures ReadScalar(f, pos, STRING) == Some((Text(s), pos + |EncodeString(s)|))
    ensures SkipScalar(f, pos, STRING) == Some(pos + |EncodeString(s)|)
  {
    hide At, ReadString, SkipString;
    StringAt(f, pos, s);
    SkipIsRead(f, pos);
  }

  lemma {:induction false} StringsAt(f: Bytes, pos: nat, s: seq<Bytes>, n: nat, collect: bool)
    requires n <= |s| && forall i | 0 <= i < |s| :: |s[i]| < TWO63
    requires At(f, pos, EncodeStrings(s, n))
    ensures ReadElems(f, pos, STRING, n, collect)
         == Some((Collected(Texts(s), n, collect), pos + |EncodeStrings(s, n)|))
  {
    hide ReadElems, ReadScalar, SkipScalar, EncodeString, EncodeStrings, At, Collected;
    if n == 0 {
      NoElems(f, pos, STRING, Texts(s), collect);
      SplitStrings(s, n);
    } else {
      SplitStrings(s, n);
      AtSplit(f, pos, EncodeStrings(s, n - 1), EncodeString(s[n - 1]));
      StringsAt(f, pos, s, n - 1, collect);
      TextAt(f, pos + |EncodeStrings(s, n - 1)|, s[n - 1]);
      OneElemMore(f, pos, STRING, n - 1, collect);
      OneMoreCollected(Texts(s), n - 1, collect);
    }
  }

  /** An array of n elements is read back from its head and its elements. */
  lemma ArrayAt(f: Bytes, pos: nat, t: nat, n: nat, b: Bytes, vs: seq<Value>, max: int)
    requires t < TWO32 && n < TWO63 && At(f, pos, ArrayHead(t, n) + b)
    requires ReadElems(f, pos + 16, t, n, CanCollect(n, max))
          == Some((if CanCollect(n, max) then vs else [], pos + 16 + |b|))
    ensures ReadValue(f, pos, max) == Some((Elide(Array(n, Some(vs)), max), pos + 16 + |b|))
  {
    hide ReadElems, At;
    Ranges();
    AtSplit(f, pos, ArrayHead(t, n), b);
    AtSplit(f, pos, Le(ARRAY, 4), Le(t, 4) + Le(n, 8));
    AtSplit(f, pos + 4, Le(t, 4), Le(n, 8));
    UintAt(f, pos, ARRAY, 4);
    UintAt(f, pos + 4, t, 4);
    UintAt(f, pos + 8, n, 8);
  }

  lemma NumberArrayAt(f: Bytes, pos: nat, t: nat, s: seq<int>, max: int)
    requires |s| < TWO63 && forall i | 0 <= i < |s| :: Allowed(t, s[i])
    requires forall i | 0 <= i < |s| :: -TWO31 <= s[i] < TWO32
    requires At(f, pos, ArrayHead(t, |s|) + Encode32s(s, |s|))
    requires t < TWO32
    ensures ReadValue(f, pos, max)
         == Some((Elide(Array(|s|, Some(Numbers(t, s))), max), pos + 16 + |Encode32s(s, |s|)|))
  {
    hide ReadElems, ReadValue, At, ArrayHead, Encode32s, Collected, CanCollect, Allowed;
    AtSplit(f, pos, ArrayHead(t, |s|), Encode32s(s, |s|));
    NumbersAt(f, pos + 16, t, s, |s|, CanCollect(|s|, max));
    AllCollected(Numbers(t, s), CanCollect(|s|, max));
    ArrayAt(f, pos, t, |s|, Encode32s(s, |s|), Numbers(t, s), max);
  }

  lemma StringArrayAt(f: Bytes, pos: nat, s: seq<Bytes>, max: int)
    requires |s| < TWO63 && forall i | 0 <= i < |s| :: |s[i]| < TWO63
    requires At(f, pos, ArrayHead(STRING, |s|) + EncodeStrings(s, |s|))
    ensures ReadValue(f, pos, max)
         == Some((Elide(Array(|s|, Some(Texts(s))), max), pos + 16 + |EncodeStrings(s, |s|)|))
  {
    hide ReadElems, ReadValue, At, ArrayHead, EncodeStrings, Collected, CanCollect;
    AtSplit(f, pos, ArrayHead(STRING, |s|), EncodeStrings(s, |s|));
    StringsAt(f, pos + 16, s, |s|, CanCollect(|s|, max));
    AllCollected(Texts(s), CanCollect(|s|, max));
    ArrayAt(f, pos, STRING, |s|, EncodeStrings(s, |s|), Texts(s), max);
  }

  /** Behind the type of a value that is no array lies a scalar. */
  lemma TypeAt(f: Bytes, pos: nat, t: nat, b: Bytes, max: int)
    requires t < TWO32 && t != ARRAY && At(f, pos, Le(t, 4) + b)
    ensures ReadValue(f, pos, max) == ReadScalar(f, pos + 4, t) && At(f, pos + 4, b)
  {
    hide At, ReadScalar, ReadArray, Le;
    Ranges();
    AtSplit(f, pos, Le(t, 4), b);
    UintAt(f, pos, t, 4);
  }

  lemma WordAt(f: Bytes, pos: nat, t: nat, v: u32, max: int)
    requires (t == 4 || t == 6) && At(f, pos, Le(t, 4) + Le(v, 4))
    ensures ReadValue(f, pos, max) == Some((Num(t, v), pos + 8))
  {
    hide At, ReadUint, ReadValue, Le;
    Ranges();
    TypeAt(f, pos, t, Le(v, 4), max);
    UintAt(f, pos + 4, v, 4);
  }

  lemma BoolAt(f: Bytes, pos: nat, b: bool, max: int)
    requires At(f, pos, Le(BOOL, 4) + [if b then 1 else 0])
    ensures ReadValue(f, pos, max) == Some((Flag(b), pos + 5))
  {
    hide At, ReadUint, ReadValue;
    Ranges();
    var bit: byte := if b then 1 else 0;
    TypeAt(f, pos, BOOL, [bit], max);
    assert Le(bit, 1) == [bit];
    UintAt(f, pos + 4, bit, 1);
  }

  lemma ScalarAt(f: Bytes, pos: nat, w: Written, max: int)
    requires w.U32? || w.F32? || w.Bool? || w.Str?
    requires w.Fits() && At(f, pos, EncodeValue(w))
    ensures ReadValue(f, pos, max) == Some((Full(w), pos + |EncodeValue(w)|))
  {
    hide At, ReadValue, ReadScalar, Le, EncodeString;
    match w {
      case U32(v) => WordAt(f, pos, 4, v, max);
      case F32(v) => WordAt(f, pos, 6, v, max);
      case Bool(b) => BoolAt(f, pos, b, max);
      case Str(s) =>
        Ranges();
        TypeAt(f, pos, STRING, EncodeString(s), max);
        TextAt(f, pos + 4, s);
    }
  }

  lemma ValueAt(f: Bytes, pos: nat, w: Written, max: int)
    requires w.Fits() && !w.Improper? && At(f, pos, EncodeValue(w))
    ensures ReadValue(f, pos, max) == Some((Elide(Full(w), max), pos + |EncodeValue(w)|))
  {
    hide At, ReadValue, Encode32s, EncodeStrings;
    match w {
      case I32s(s) => NumberArrayAt(f, pos, 5, s, max);
      case U32s(s) => NumberArrayAt(f, pos, 4, s, max);
      case F32s(s) => NumberArrayAt(f, pos, 6, s, max);
      case Strs(s) => StringArrayAt(f, pos, s, max);
      case _ => ScalarAt(f, pos, w, max);
    }
  }

  /** The pairs for the first n keys, as they are written. */
  function EncodePairs(kv: map<Bytes, Written>, keys: seq<Bytes>, n: nat): Bytes
    requires n <= |keys| && Writable(kv) && forall i | 0 <= i < |keys| :: keys[i] in kv
  {
    if n == 0 then [] else EncodePairs(kv, keys, n - 1) + EncodePair(keys[n - 1], kv[keys[n - 1]])
  }

  ghost predicate Writable(kv: map<Bytes, Written>) {
    forall k | k in kv :: |k| < TWO63 && kv[k].Fits() && !kv[k].Improper?
  }

  function ElideAll(kv: map<Bytes, Value>, max: int): map<Bytes, Value> {
    map k | k in kv :: Elide(kv[k], max)
  }

  function FullPairs(kv: map<Bytes, Written>, keys: set<Bytes>): map<Bytes, Value>
    requires Writable(kv) && keys <= kv.Keys
  {
    map k | k in keys :: Full(kv[k])
  }

  lemma PairAt(f: Bytes, pos: nat, k: Bytes, w: Written, max: int)
    requires |k| < TWO63 && w.Fits() && !w.Improper? && At(f, pos, EncodePair(k, w))
    ensures ReadPair(f, pos, max) == Some(((k, Elide(Full(w), max)), pos + |EncodePair(k, w)|))
  {
    hide At, ReadString, ReadValue, EncodeValue;
    AtSplit(f, pos, EncodeString(k), EncodeValue(w));
    StringAt(f, pos, k);
    ValueAt(f, pos + 8 + |k|, w, max);
  }

  lemma OnePairMore(kv: map<Bytes, Written>, keys: set<Bytes>, k: Bytes, max: int)
    requires Writable(kv) && keys <= kv.Keys && k in kv
    ensures ElideAll(FullPairs(kv, keys + {k}), max) == ElideAll(FullPairs(kv, keys), max)[k := Elide(Full(kv[k]), max)]
  {
    hide Elide, Full;
  }

  /** The first n of the keys. */
  function KeySet(keys: seq<Bytes>, n: nat): set<Bytes>
    requires n <= |keys|
  {
    set i | 0 <= i < n :: keys[i]
  }

  lemma {:induction false} PairsAt(f: Bytes, pos: nat, kv: map<Bytes, Written>, keys: seq<Bytes>, n: nat, max: int)
    requires n <= |keys| && Writable(kv) && forall i | 0 <= i < |keys| :: keys[i] in kv
    requires At(f, pos, EncodePairs(kv, keys, n))
    ensures KeySet(keys, n) <= kv.Keys
    ensures ReadPairs(f, pos, n, max)
         == Some((ElideAll(FullPairs(kv, KeySet(keys, n)), max), pos + |EncodePairs(kv, keys, n)|))
  {
    hide At, ReadPairs, ReadPair, EncodePair, EncodePairs, Elide, Full, ElideAll, FullPairs, KeySet;
    if n == 0 {
      NoPairs(f, pos, kv, keys, max);
    } else {
      var m := n - 1;
      SplitPairs(kv, keys, n);
      OneKeyMore(keys, n);
      AtSplit(f, pos, EncodePairs(kv, keys, m), EncodePair(keys[m], kv[keys[m]]));
      PairsAt(f, pos, kv, keys, m, max);
      PairAt(f, pos + |EncodePairs(kv, keys, m)|, keys[m], kv[keys[m]], max);
      OnePairRead(f, pos, m, max);
      OnePairMore(kv, KeySet(keys, m), keys[m], max);
    }
  }

  lemma NoPairs(f: Bytes, pos: nat, kv: map<Bytes, Written>, keys: seq<Bytes>, max: int)
    requires Writable(kv) && forall i | 0 <= i < |keys| :: keys[i] in kv
    ensures KeySet(keys, 0) == {} && ElideAll(FullPairs(kv, {}), max) == map[]
    ensures ReadPairs(f, pos, 0, max) == Some((map[], pos)) && EncodePairs(kv, keys, 0) == []
  {
  }

  lemma SplitPairs(kv: map<Bytes, Written>, keys: seq<Bytes>, n: nat)
    requires 0 < n <= |keys| && Writable(kv) && forall i | 0 <= i < |keys| :: keys[i] in kv
    ensures EncodePairs(kv, keys, n) == EncodePairs(kv, keys, n - 1) + EncodePair(keys[n - 1], kv[keys[n - 1]])
  {
  }

  lemma OneKeyMore(keys: seq<Bytes>, n: nat)
    requires 0 < n <= |keys|
    ensures KeySet(keys, n) == KeySet(keys, n - 1) + {keys[n - 1]}
  {
  }

  lemma OnePairRead(f: Bytes, pos: nat, n: nat, max: int)
    ensures ReadPairs(f, pos, n, max).None? ==> ReadPairs(f, pos, n + 1, max).None?
    ensures ReadPairs(f, pos, n, max).Some? ==>
      var (kv, p) := ReadPairs(f, pos, n, max).value;
      ReadPairs(f, pos, n + 1, max) ==
        if ReadPair(f, p, max).None? then None
        else Some((kv[ReadPair(f, p, max).value.0.0 := ReadPair(f, p, max).value.0.1], ReadPair(f, p, max).value.1))
  {
    hide ReadPair;
  }

  // ----------------------------------------------------------- array elision

  /** None of the first n elements, if they are strings, has a length of 2^63 or
      more, which could not be read. */
  ghost predicate ElemsSound(f: Bytes, pos: nat, t: nat, n: nat) {
    n == 0 || (ElemsSound(f, pos, t, n - 1) &&
      (t == STRING && ReadElems(f, pos, t, n - 1, false).Some? ==>
        Readable(f, ReadElems(f, pos, t, n - 1, false).value.1)))
  }

  predicate Readable(f: Bytes, pos: nat) {
    ReadUint(f, pos, 8).Some? ==> ReadUint(f, pos, 8).value.0 < TWO63
  }

  /** One element more, in either way of reading. */
  lemma OneElemRead(f: Bytes, pos: nat, t: nat, n: nat, collect: bool)
    ensures var r := ReadElems(f, pos, t, n, collect);
      ReadElems(f, pos, t, n + 1, collect) ==
        if r.None? then None
        else if collect then
          var v := ReadScalar(f, r.value.1, t);
          if v.None? then None else Some((r.value.0 + [v.value.0], v.value.1))
        else
          var q := SkipScalar(f, r.value.1, t);
          if q.None? then None else Some((r.value.0, q.value))
  {
    hide ReadScalar, SkipScalar;
  }

  /** Moving past an element succeeds where reading does, and on impossible strings. */
  lemma ScalarSkipped(f: Bytes, pos: nat, t: nat)
    ensures ReadScalar(f, pos, t).Some? <==> SkipScalar(f, pos, t).Some? && (t == STRING ==> Readable(f, pos))
    ensures ReadScalar(f, pos, t).Some? ==> SkipScalar(f, pos, t) == Some(ReadScalar(f, pos, t).value.1)
  {
    hide ReadString, SkipString, ReadUint, Readable;
    SoundSkip(f, pos);
  }

  lemma NoElemsElided(f: Bytes, pos: nat, t: nat)
    ensures ReadElems(f, pos, t, 0, true) == ReadElems(f, pos, t, 0, false) == Some(([], pos))
    ensures ElemsSound(f, pos, t, 0)
  {
  }

  lemma {:induction false} ElemsElided(f: Bytes, pos: nat, t: nat, n: nat)
    ensures var whole, skipped := ReadElems(f, pos, t, n, true), ReadElems(f, pos, t, n, false);
      && (whole.Some? ==> |whole.value.0| == n && skipped == Some(([], whole.value.1)))
      && (whole.Some? <==> skipped.Some? && ElemsSound(f, pos, t, n))
  {
    hide ReadElems, ReadScalar, SkipScalar, Readable;
    if n == 0 {
      NoElemsElided(f, pos, t);
    } else {
      ElemsElided(f, pos, t, n - 1);
      OneElemRead(f, pos, t, n - 1, true);
      OneElemRead(f, pos, t, n - 1, false);
      if ReadElems(f, pos, t, n - 1, false).Some? {
        ScalarSkipped(f, ReadElems(f, pos, t, n - 1, false).value.1, t);
      }
    }
  }

  lemma SoundSkip(f: Bytes, pos: nat)
    ensures ReadString(f, pos).Some? <==>
      SkipString(f, pos).Some? && Readable(f, pos)
    ensures ReadString(f, pos).Some? ==> SkipString(f, pos) == Some(ReadString(f, pos).value.1)
  {
  }

  /** No array at this place that the bound leaves out has an unreadable string. */
  ghost predicate ValueSound(f: Bytes, pos: nat, max: int) {
    ReadUint(f, pos, 4).Some? && ReadUint(f, pos, 4).value.0 == ARRAY &&
    ReadUint(f, pos + 4, 4).Some? && ReadUint(f, pos + 8, 8).Some? ==>
      var t, n := ReadUint(f, pos + 4, 4).value.0, ReadUint(f, pos + 8, 8).value.0;
      CanCollect(n, max) || ElemsSound(f, pos + 16, t, n)
  }

  /** A value that is read with every array collected is read within any bound; it
      ends at the same place, and lacks only the elements of oversized arrays. */
  lemma ValueElided(f: Bytes, pos: nat, max: int)
    ensures var whole, bounded := ReadValue(f, pos, -1), ReadValue(f, pos, max);
      && (whole.Some? ==> bounded == Some((Elide(whole.value.0, max), whole.value.1)))
      && (whole.Some? <==> bounded.Some? && ValueSound(f, pos, max))
  {
    hide ReadElems, ReadScalar, ElemsSound;
    if ReadUint(f, pos, 4).Some? {
      var t := ReadUint(f, pos, 4).value.0;
      if t == ARRAY {
        if ReadUint(f, pos + 4, 4).Some? && ReadUint(f, pos + 8, 8).Some? {
          ElemsElided(f, pos + 16, ReadUint(f, pos + 4, 4).value.0, ReadUint(f, pos + 8, 8).value.0);
        }
      } else {
        ScalarIsNoArray(f, pos + 4, t);
      }
    }
  }

  lemma ScalarIsNoArray(f: Bytes, pos: nat, t: nat)
    ensures ReadScalar(f, pos, t).Some? ==> !ReadScalar(f, pos, t).value.0.Array?
  {
  }

  ghost predicate PairsSound(f: Bytes, pos: nat, n: nat, max: int) {
    n == 0 || (PairsSound(f, pos, n - 1, max) &&
      (ReadPairs(f, pos, n - 1, max).Some? ==> PairSound(f, ReadPairs(f, pos, n - 1, max).value.1, max)))
  }

  ghost predicate PairSound(f: Bytes, pos: nat, max: int) {
    ReadString(f, pos).Some? ==> ValueSound(f, ReadString(f, pos).value.1, max)
  }

  lemma PairElided(f: Bytes, pos: nat, max: int)
    ensures var whole, bounded := ReadPair(f, pos, -1), ReadPair(f, pos, max);
      && (whole.Some? ==> bounded == Some(((whole.value.0.0, Elide(whole.value.0.1, max)), whole.value.1)))
      && (whole.Some? <==> bounded.Some? && PairSound(f, pos, max))
  {
    hide ReadString, ReadValue, Elide, ValueSound;
    if ReadString(f, pos).Some? {
      ValueElided(f, ReadString(f, pos).value.1, max);
    }
  }

  lemma {:induction false} PairsElided(f: Bytes, pos: nat, n: nat, max: int)
    ensures var whole, bounded := ReadPairs(f, pos, n, -1), ReadPairs(f, pos, n, max);
      && (whole.Some? ==> bounded == Some((ElideAll(whole.value.0, max), whole.value.1)))
      && (whole.Some? <==> bounded.Some? && PairsSound(f, pos, n, max))
  {
    hide ReadPairs, ReadPair, Elide, PairSound, ElideAll;
    if n == 0 {
      NothingElided(f, pos, max);
    } else {
      PairsElided(f, pos, n - 1, max);
      OnePairRead(f, pos, n - 1, -1);
      OnePairRead(f, pos, n - 1, max);
      if ReadPairs(f, pos, n - 1, max).Some? {
        PairElided(f, ReadPairs(f, pos, n - 1, max).value.1, max);
      }
      if ReadPairs(f, pos, n, -1).Some? {
        var (kv, p) := ReadPairs(f, pos, n - 1, -1).value;
        var ((k, v), q) := ReadPair(f, p, -1).value;
        ElideUpdate(kv, k, v, max);
      }
    }
  }

  lemma NothingElided(f: Bytes, pos: nat, max: int)
    ensures ReadPairs(f, pos, 0, max) == ReadPairs(f, pos, 0, -1) == Some((map[], pos)) && ElideAll(map[], max) == map[]
  {
  }

  lemma ElideUpdate(kv: map<Bytes, Value>, k: Bytes, v: Value, max: int)
    ensures ElideAll(kv[k := v], max) == ElideAll(kv, max)[k := Elide(v, max)]
  {
    hide Elide;
  }

  /** An array of two strings, both of length 2^63. */
  function HugeStrings(): Bytes {
    Le(STRING, 4) + (Le(2, 8) + (Le(TWO63, 8) + Le(TWO63, 8)))
  }

  /** Such an array can be measured, with nothing discarded for its strings, but
      not collected. */
  lemma HugeStringsAt(f: Bytes, pos: nat)
    requires At(f, pos, HugeStrings())
    ensures ReadArray(f, pos, 1) == Some((Array(2, None), pos + 28))
    ensures ReadArray(f, pos, -1) == None
  {
    hide At, UnLe, Le, Range, Take;
    Ranges();
    AtSplit(f, pos, Le(STRING, 4), Le(2, 8) + (Le(TWO63, 8) + Le(TWO63, 8)));
    AtSplit(f, pos + 4, Le(2, 8), Le(TWO63, 8) + Le(TWO63, 8));
    AtSplit(f, pos + 12, Le(TWO63, 8), Le(TWO63, 8));
    UintAt(f, pos, STRING, 4);
    UintAt(f, pos + 4, 2, 8);
    UintAt(f, pos + 12, TWO63, 8);
    UintAt(f, pos + 20, TWO63, 8);
    assert ReadElems(f, pos + 12, STRING, 1, false) == Some(([], pos + 20));
    assert ReadElems(f, pos + 12, STRING, 1, true) == None;
  }
}
