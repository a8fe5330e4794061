/** Writing a model file piece by piece. */
module GgufWriter {
  import opened Helpers
  import opened GgufBytes
  import opened GgufValue
  import opened GgufTensor
  import opened GgufFile

  // ------------------------------------------------------------- sorting keys

  /** Bytewise order. */
  predicate Before(a: Bytes, b: Bytes) {
    b != [] && (a == [] || a[0] < b[0] || (a[0] == b[0] && Before(a[1..], b[1..])))
  }

  lemma {:induction false} BeforeOrAfter(a: Bytes, b: Bytes)
    requires a != b
    ensures Before(a, b) || Before(b, a)
  {
    if a != [] && b != [] && a[0] == b[0] {
      assert a == [a[0]] + a[1..] && b == [b[0]] + b[1..];
      BeforeOrAfter(a[1..], b[1..]);
    }
  }

  predicate Sorted(keys: seq<Bytes>) {
    |keys| < 2 || (Before(keys[0], keys[1]) && Sorted(keys[1..]))
  }

  function Insert(keys: seq<Bytes>, k: Bytes): (r: seq<Bytes>)
    ensures multiset(r) == multiset(keys) + multiset{k} && |r| == |keys| + 1
  {
    if keys == [] || Before(k, keys[0]) then [k] + keys
    else
      assert keys == [keys[0]] + keys[1..];
      [keys[0]] + Insert(keys[1..], k)
  }

  lemma {:induction false} InsertSorted(keys: seq<Bytes>, k: Bytes)
    requires Sorted(keys) && k !in keys
    ensures Sorted(Insert(keys, k))
  {
    if keys != [] && !Before(k, keys[0]) {
      var rest := Insert(keys[1..], k);
      InsertSorted(keys[1..], k);
      BeforeOrAfter(keys[0], k);
      assert Insert(keys, k)[1..] == rest;
      assert rest[0] == k || (|keys| > 1 && rest[0] == keys[1]);
    }
  }

  /** The keys of a map, in order. */
  method SortedKeys(kv: map<Bytes, Written>) returns (keys: seq<Bytes>)
    requires |kv| < TWO63
    ensures Lists(keys, kv) && Sorted(keys)
  {
    keys := [];
    var todo := kv.Keys;
    while todo != {}
      invariant Sorted(keys) && todo <= kv.Keys && |keys| + |todo| == |kv|
      invariant forall k :: k in keys <==> k in kv && k !in todo
    {
      SomeElement(todo);
      var k :| k in todo;
      InsertSorted(keys, k);
      var next := Insert(keys, k);
      assert forall j :: j in next <==> j in multiset(next);
      assert forall j :: j in keys <==> j in multiset(keys);
      keys, todo := next, todo - {k};
    }
    assert forall i | 0 <= i < |keys| :: keys[i] in kv;
    assert KeySet(keys, |keys|) == kv.Keys by {
      forall k | k in kv.Keys
        ensures k in KeySet(keys, |keys|)
      {
        var i :| 0 <= i < |keys| && keys[i] == k;
      }
    }
  }

  // --------------------------------------------------------------------- writing

  class Writer {
    var out: Bytes

    constructor ()
      ensures out == []
    {
      out := [];
    }

    method Write(b: Bytes)
      modifies this
      ensures out == old(out) + b
    {
      out := out + b;
    }

    method WriteText(s: Bytes)
      requires |s| < TWO63
      modifies this
      ensures out == old(out) + EncodeString(s)
    {
      Write(Le(|s|, 8));
      Write(s);
    }

    method WriteNumbers(t: nat, s: seq<int>)
      requires |s| < TWO63 && forall i | 0 <= i < |s| :: -TWO31 <= s[i] < TWO32
      modifies this
      ensures out == old(out) + (ArrayHead(t, |s|) + Encode32s(s, |s|))
    {
      hide Encode32, Le;
      Write(Le(ARRAY, 4));
      Write(Le(t, 4));
      Write(Le(|s|, 8));
      for i := 0 to |s|
        invariant out == old(out) + (ArrayHead(t, |s|) + Encode32s(s, i))
      {
        Write(Encode32(s[i]));
      }
    }

    method WriteTexts(s: seq<Bytes>)
      requires |s| < TWO63 && forall i | 0 <= i < |s| :: |s[i]| < TWO63
      modifies this
      ensures out == old(out) + (ArrayHead(STRING, |s|) + EncodeStrings(s, |s|))
    {
      hide EncodeString, Le;
      Write(Le(ARRAY, 4));
      Write(Le(STRING, 4));
      Write(Le(|s|, 8));
      for i := 0 to |s|
        invariant out == old(out) + (ArrayHead(STRING, |s|) + EncodeStrings(s, i))
      {
        WriteText(s[i]);
      }
    }

    /** Writes one pair; a value of an improper type is an error. */
    method WritePair(k: Bytes, v: Written) returns (ok: bool)
      requires |k| < TWO63 && v.Fits()
      modifies this
      ensures ok <==> !v.Improper?
      ensures ok ==> out == old(out) + EncodePair(k, v)
    {
      hide EncodeString, ArrayHead, Encode32s, EncodeStrings, Le;
      WriteText(k);
      match v {
        case U32(u) => Write(Le(4, 4)); Write(Le(u, 4));
        case F32(bits) => Write(Le(6, 4)); Write(Le(bits, 4));
        case Bool(b) => Write(Le(BOOL, 4)); Write([if b then 1 else 0]);
        case Str(s) => Write(Le(STRING, 4)); WriteText(s);
        case I32s(s) => WriteNumbers(5, s);
        case U32s(s) => WriteNumbers(4, s);
        case F32s(s) => WriteNumbers(6, s);
        case Strs(s) => WriteTexts(s);
        case Improper => return false;
      }
      return true;
    }

    /** Writes the description of a tensor, its last dimension first. */
    method WriteInfo(t: Tensor, offset: u64)
      requires |t.name| < TWO63 && |t.shape| < TWO32
      modifies this
      ensures out == old(out) + EncodeInfo(t, offset)
    {
      hide EncodeString, Le;
      WriteText(t.name);
      Write(Le(|t.shape|, 4));
      ghost var before := out;
      for i := 0 to |t.shape|
        invariant out == before + EncodeShape(t.shape, i)
      {
        Write(Le(t.shape[|t.shape| - i - 1], 8));
      }
      Write(Le(t.kind, 4));
      Write(Le(offset, 8));
    }

    /** Pads to the alignment, then writes the data. */
    method WriteData(t: Tensor)
      modifies this
      ensures out == old(out) + (Zeros(Padding(|old(out)|, 32)) + t.data)
    {
      Write(Zeros(Padding(|out|, 32)));
      Write(t.data);
    }

    method WritePairs(kv: map<Bytes, Written>, keys: seq<Bytes>) returns (ok: bool)
      requires forall i | 0 <= i < |keys| :: keys[i] in kv
      requires forall k | k in kv :: |k| < TWO63 && kv[k].Fits()
      modifies this
      ensures ok <==> forall i | 0 <= i < |keys| :: !kv[keys[i]].Improper?
      ensures ok && Writable(kv) ==> out == old(out) + EncodePairs(kv, keys, |keys|)
    {
      hide EncodePair;
      for i := 0 to |keys|
        invariant forall j | 0 <= j < i :: !kv[keys[j]].Improper?
        invariant Writable(kv) ==> out == old(out) + EncodePairs(kv, keys, i)
      {
        ok := WritePair(keys[i], kv[keys[i]]);
        if !ok {
          return;
        }
      }
      return true;
    }

    method WriteInfos(ts: seq<Tensor>)
      requires Describable(ts)
      modifies this
      ensures out == old(out) + EncodeInfos(ts, |ts|)
    {
      hide EncodeInfo, SizeOf;
      var s: u64 := 0;
      for i := 0 to |ts|
        invariant s == Offset(ts, i)
        invariant out == old(out) + EncodeInfos(ts, i)
      {
        WriteInfo(ts[i], s);
        s := (s + SizeOf(ts[i].kind, ts[i].shape)) % TWO64;
      }
    }

    method WriteAllData(ts: seq<Tensor>)
      modifies this
      ensures out == old(out) + EncodeData(ts, |ts|, |old(out)|)
    {
      hide Padding;
      for i := 0 to |ts|
        invariant out == old(out) + EncodeData(ts, i, |old(out)|)
      {
        WriteData(ts[i]);
      }
    }
  }

  /** Writes a whole file; the tensors are given in the order they are sorted into. */
  method WriteGGUF(kv: map<Bytes, Written>, ts: seq<Tensor>) returns (file: Option<Bytes>, keys: seq<Bytes>)
    requires |kv| < TWO63 && |ts| < TWO63 && Describable(ts)
    requires forall k | k in kv :: |k| < TWO63 && kv[k].Fits()
    ensures Lists(keys, kv) && Sorted(keys)
    ensures file.Some? <==> forall k | k in kv :: !kv[k].Improper?
    ensures file.Some? ==> Encodable(kv, keys, ts) && file.value == File(kv, keys, ts)
  {
    hide Le, EncodePairs, EncodeInfos, EncodeData, KeySet, Sorted, Describable;
    keys := SortedKeys(kv);
    KeysCover(kv, keys);
    var w := new Writer();
    w.Write(GGUF);
    w.Write(Le(3, 4));
    w.Write(Le(|ts|, 8));
    w.Write(Le(|kv|, 8));
    var ok := w.WritePairs(kv, keys);
    if !ok {
      return None, keys;
    }
    w.WriteInfos(ts);
    assert |w.out| == MetaEnd(kv, keys, ts);
    w.WriteAllData(ts);
    Joined(GGUF, Le(3, 4), Le(|ts|, 8), Le(|kv|, 8), EncodePairs(kv, keys, |keys|), EncodeInfos(ts, |ts|),
           EncodeData(ts, |ts|, MetaEnd(kv, keys, ts)));
    file := Some(w.out);
  }

  lemma KeysCover(kv: map<Bytes, Written>, keys: seq<Bytes>)
    requires Lists(keys, kv)
    ensures (forall k | k in kv :: !kv[k].Improper?) <==> forall i | 0 <= i < |keys| :: !kv[keys[i]].Improper?
  {
    assert forall k | k in kv :: k in KeySet(keys, |keys|);
  }

  lemma Joined(a: Bytes, b: Bytes, c: Bytes, d: Bytes, e: Bytes, f: Bytes, g: Bytes)
    ensures [] + a + b + c + d + e + f + g == (a + (b + (c + d))) + (e + (f + g))
  {
  }
}
