/** The encoder and the decoder as a whole, and what comes back of a text. */
module BpeCodec {
  import opened Helpers
  import opened BpeVocab
  import opened BpeMerge
  import opened BpeHeap
  import opened BpeText

  // -------------------------------------------------------- what encoding yields

  function Flat<T>(xss: seq<seq<T>>): seq<T> {
    if xss == [] then [] else xss[0] + Flat(xss[1..])
  }

  lemma {:induction false} FlatSnoc<T>(xss: seq<seq<T>>, xs: seq<T>)
    ensures Flat(xss + [xs]) == Flat(xss) + xs
  {
    if xss == [] {
      assert xss + [xs] == [xs] && [xs][1..] == [];
    } else {
      FlatSnoc(xss[1..], xs);
      assert (xss + [xs])[0] == xss[0] && (xss + [xs])[1..] == xss[1..] + [xs];
    }
  }

  /** The ids of the parts that are tokens; other parts are passed over. */
  function TokenIds(v: Vocabulary, parts: seq<Runes>): seq<int> {
    if parts == [] then []
    else (if v.Encode(parts[0]) >= 0 then [v.Encode(parts[0])] else []) + TokenIds(v, parts[1..])
  }

  /** A split of a fragment is a token as a whole, or is merged by the naive rule. */
  ghost predicate EncodesSplit(v: Vocabulary, split: Bytes, ids: seq<int>) {
    var mapped := MapBytes(split);
    if v.Encode(mapped) >= 0 then ids == [v.Encode(mapped)]
    else exists parts :: NaiveResult(v, Singles(mapped), parts) && ids == TokenIds(v, parts)
  }

  ghost predicate EncodesSplits(v: Vocabulary, splits: seq<Bytes>, idss: seq<seq<int>>) {
    |idss| == |splits| && forall i | 0 <= i < |splits| :: EncodesSplit(v, splits[i], idss[i])
  }

  ghost predicate EncodesFragment(v: Vocabulary, pre: Bytes -> seq<Bytes>, f: Fragment, ids: seq<int>) {
    if |f.ids| > 0 then ids == f.ids
    else exists idss :: EncodesSplits(v, pre(f.value), idss) && ids == Flat(idss)
  }

  ghost predicate EncodesFragments(v: Vocabulary, pre: Bytes -> seq<Bytes>, fs: seq<Fragment>, idss: seq<seq<int>>) {
    |idss| == |fs| && forall i | 0 <= i < |fs| :: EncodesFragment(v, pre, fs[i], idss[i])
  }

  predicate WellFormed(v: Vocabulary) {
    && |v.types| == |v.values|
    && forall i | 0 <= i < |v.values| && v.types[i] == SPECIAL_TYPE :: v.values[i] != []
  }

  lemma SpecialsNotEmpty(v: Vocabulary)
    requires WellFormed(v)
    ensures forall k | 0 <= k < |v.SpecialVocabulary()| :: v.SpecialVocabulary()[k] != []
  {
    var specials := v.SpecialVocabulary();
    assert forall k | 0 <= k < |specials| :: specials[k] in specials;
  }

  /** The fragments of a text. */
  function Fragments(v: Vocabulary, s: Bytes): seq<Fragment>
    requires WellFormed(v)
  {
    SpecialsNotEmpty(v);
    SplitSpecials(v, [Fragment(s, [])], v.SpecialVocabulary())
  }

  /** ids is an encoding of s without the tokens that mark its ends. */
  ghost predicate Encodes(v: Vocabulary, pre: Bytes -> seq<Bytes>, s: Bytes, ids: seq<int>)
    requires WellFormed(v)
  {
    exists idss :: EncodesFragments(v, pre, Fragments(v, s), idss) && ids == Flat(idss)
  }

  // ---------------------------------------------------------------- the encoder

  method MapText(split: Bytes) returns (mapped: Runes)
    ensures mapped == MapBytes(split)
  {
    hide MapBytes;
    mapped := [];
    for i := 0 to |split|
      invariant mapped == MapBytes(split)[..i]
    {
      MapNext(split, i);
      var r := split[i] as nat;
      if r == 0xad {
        r := 0x143;
      } else if r <= 0x20 {
        r := r + 0x100;
      } else if 0x7e <= r <= 0xa0 {
        r := r + 0xa2;
      }
      mapped := mapped + [r];
    }
  }

  lemma MapNext(split: Bytes, i: nat)
    requires i < |split|
    ensures MapBytes(split)[..i + 1] == MapBytes(split)[..i] + [MapByte(split[i])]
  {
    hide MapBytes, MapByte;
  }

  method EncodeSplit(v: Vocabulary, split: Bytes) returns (ids: seq<int>)
    ensures EncodesSplit(v, split, ids)
  {
    hide NaiveResult;
    var mapped := MapText(split);
    var id := v.Encode(mapped);
    if id >= 0 {
      return [id];
    }
    var parts := MergeFragment(v, mapped);
    ids := [];
    for i := 0 to |parts|
      invariant ids + TokenIds(v, parts[i..]) == TokenIds(v, parts)
    {
      assert parts[i..][0] == parts[i] && parts[i..][1..] == parts[i + 1..];
      var part := v.Encode(parts[i]);
      if part >= 0 {
        ids := ids + [part];
      }
    }
  }

  method EncodeFragment(v: Vocabulary, pre: Bytes -> seq<Bytes>, f: Fragment) returns (ids: seq<int>)
    ensures EncodesFragment(v, pre, f, ids)
  {
    if |f.ids| > 0 {
      return f.ids;
    }
    hide EncodesSplit, Flat;
    var splits := pre(f.value);
    ids := [];
    ghost var idss: seq<seq<int>> := [];
    FlatNothing<int>();
    for i := 0 to |splits|
      invariant EncodesSplits(v, splits[..i], idss) && ids == Flat(idss)
    {
      var more := EncodeSplit(v, splits[i]);
      FlatSnoc(idss, more);
      idss := idss + [more];
      ids := ids + more;
    }
    assert splits[..|splits|] == splits;
  }

  lemma FlatNothing<T>()
    ensures Flat<T>([]) == []
  {
  }

  method EncodeText(v: Vocabulary, pre: Bytes -> seq<Bytes>, s: Bytes) returns (ids: seq<int>)
    requires WellFormed(v)
    ensures Encodes(v, pre, s, ids)
  {
    hide EncodesFragment, Flat;
    var fragments := SplitAll(v, s);
    ids := [];
    ghost var idss: seq<seq<int>> := [];
    FlatNothing<int>();
    for i := 0 to |fragments|
      invariant EncodesFragments(v, pre, fragments[..i], idss) && ids == Flat(idss)
    {
      var more := EncodeFragment(v, pre, fragments[i]);
      FlatSnoc(idss, more);
      idss := idss + [more];
      ids := ids + more;
    }
    assert fragments[..|fragments|] == fragments;
  }

  method SplitAll(v: Vocabulary, s: Bytes) returns (fragments: seq<Fragment>)
    requires WellFormed(v)
    ensures fragments == Fragments(v, s)
  {
    fragments := [Fragment(s, [])];
    var specials := v.SpecialVocabulary();
    SpecialsNotEmpty(v);
    for k := 0 to |specials|
      invariant SplitSpecials(v, fragments, specials[k..]) == Fragments(v, s)
    {
      fragments := SplitPass(fragments, Utf8(specials[k]), v.Encode(specials[k]));
    }
  }

  /** marked holds ids, with the token for the beginning before them and the token
      for the end behind them, as the vocabulary asks for. */
  ghost predicate IsMarked(v: Vocabulary, ids: seq<int>, marked: seq<int>) {
    var first := if v.addBOS then 1 else 0;
    && |marked| == first + |ids| + (if v.addEOS then 1 else 0)
    && marked[first..first + |ids|] == ids
    && (v.addBOS ==> marked[0] == v.bos)
    && (v.addEOS ==> marked[|marked| - 1] == v.eos)
  }

  /** On request the tokens are marked, unless there are none. */
  ghost predicate Answers(v: Vocabulary, inner: seq<int>, addSpecial: bool, ids: seq<int>) {
    if addSpecial && inner != [] then IsMarked(v, inner, ids) else ids == inner
  }

  /** Encodes a text, on request with the tokens that mark its ends. */
  method Encode(v: Vocabulary, pre: Bytes -> seq<Bytes>, s: Bytes, addSpecial: bool) returns (ids: seq<int>)
    requires WellFormed(v)
    ensures exists inner :: Encodes(v, pre, s, inner) && Answers(v, inner, addSpecial, ids)
  {
    hide Encodes;
    ids := EncodeText(v, pre, s);
    ghost var inner := ids;
    if addSpecial && |ids| > 0 {
      if v.addBOS {
        ids := [v.bos] + ids;
      }
      if v.addEOS {
        ids := ids + [v.eos];
      }
    }
    assert Answers(v, inner, addSpecial, ids);
  }

  // ---------------------------------------------------------------- the decoder

  ghost predicate InVocabulary(v: Vocabulary, ids: seq<int>) {
    forall i | 0 <= i < |ids| :: 0 <= ids[i] < |v.values|
  }

  function Values(v: Vocabulary, ids: seq<int>): Runes
    requires forall i | 0 <= i < |ids| :: 0 <= ids[i] < |v.values|
  {
    if ids == [] then [] else v.Decode(ids[0]) + Values(v, ids[1..])
  }

  /** The text that ids stand for. */
  function Decoded(v: Vocabulary, ids: seq<int>): Bytes
    requires forall i | 0 <= i < |ids| :: 0 <= ids[i] < |v.values|
  {
    UnmapRunes(Values(v, ids))
  }

  method Decode(v: Vocabulary, ids: seq<int>) returns (s: Bytes)
    requires InVocabulary(v, ids)
    ensures s == Decoded(v, ids)
  {
    hide Decoded, UnmapRunes;
    s := [];
    NothingDecoded(v);
    assert ids[0..] == ids;
    for i := 0 to |ids|
      invariant s + Decoded(v, ids[i..]) == Decoded(v, ids)
    {
      DecodedFrom(v, ids, i);
      Regroup(s, UnmapRunes(v.Decode(ids[i])), Decoded(v, ids[i + 1..]));
      var more := DecodeToken(v.Decode(ids[i]));
      s := s + more;
    }
    assert ids[|ids|..] == [];
  }

  lemma NothingDecoded(v: Vocabulary)
    ensures Decoded(v, []) == []
  {
  }

  lemma DecodedFrom(v: Vocabulary, ids: seq<int>, i: nat)
    requires InVocabulary(v, ids) && i < |ids|
    ensures Decoded(v, ids[i..]) == UnmapRunes(v.Decode(ids[i])) + Decoded(v, ids[i + 1..])
  {
    hide UnmapRunes;
    assert ids[i..][0] == ids[i] && ids[i..][1..] == ids[i + 1..];
    UnmapConcat(v.Decode(ids[i]), Values(v, ids[i + 1..]));
  }

  method DecodeToken(token: Runes) returns (s: Bytes)
    ensures s == UnmapRunes(token)
  {
    s := [];
    for j := 0 to |token|
      invariant s == UnmapRunes(token[..j])
    {
      UnmapSnoc(token, j);
      var r := token[j];
      if r == 0x100 {
        continue;
      }
      if r == 0x143 {
        r := 0xad;
      } else if 0x100 < r <= 0x120 {
        r := r - 0x100;
      } else if 0x120 < r <= 0x142 {
        r := r - 0xa2;
      }
      s := s + [r % 256];
    }
    assert token[..|token|] == token;
  }

  lemma UnmapSnoc(token: Runes, j: nat)
    requires j < |token|
    ensures UnmapRunes(token[..j + 1]) == UnmapRunes(token[..j]) + UnmapRune(token[j])
  {
    UnmapConcat(token[..j], [token[j]]);
    assert token[..j + 1] == token[..j] + [token[j]];
    assert [token[j]][1..] == [] && UnmapRunes([token[j]]) == UnmapRune(token[j]);
  }

  // ------------------------------------------------------------- the round trip

  /** The vocabulary has a token for every mapped byte and for every merge of tokens. */
  ghost predicate Closed(v: Vocabulary) {
    && (forall b: Byte :: v.Encode([MapByte(b)]) >= 0)
    && MergeClosed(v)
  }

  lemma {:induction false} ValuesAppend(v: Vocabulary, a: seq<int>, b: seq<int>)
    requires InVocabulary(v, a) && InVocabulary(v, b)
    ensures InVocabulary(v, a + b) && Values(v, a + b) == Values(v, a) + Values(v, b)
  {
    if a == [] {
      assert a + b == b;
    } else {
      ValuesAppend(v, a[1..], b);
      assert (a + b)[0] == a[0] && (a + b)[1..] == a[1..] + b;
    }
  }

  lemma DecodedAppend(v: Vocabulary, a: seq<int>, b: seq<int>)
    requires InVocabulary(v, a) && InVocabulary(v, b)
    ensures InVocabulary(v, a + b) && Decoded(v, a + b) == Decoded(v, a) + Decoded(v, b)
  {
    ValuesAppend(v, a, b);
    UnmapConcat(Values(v, a), Values(v, b));
  }

  /** When all parts are tokens, their ids stand for their concatenation. */
  lemma {:induction false} TokenIdsValues(v: Vocabulary, parts: seq<Runes>)
    requires forall p | p in parts :: v.Encode(p) >= 0
    ensures InVocabulary(v, TokenIds(v, parts)) && Values(v, TokenIds(v, parts)) == Concat(parts)
  {
    if parts != [] {
      TokenIdsValues(v, parts[1..]);
      assert parts[0] in parts;
      assert TokenIds(v, parts) == [v.Encode(parts[0])] + TokenIds(v, parts[1..]);
    }
  }

  lemma OneToken(v: Vocabulary, id: int)
    requires 0 <= id < |v.values|
    ensures InVocabulary(v, [id]) && Values(v, [id]) == v.Decode(id)
  {
    assert [id][1..] == [];
  }

  /** The ids of a result of the naive rule stand for the runes it was made of. */
  lemma MergedValues(v: Vocabulary, split: Bytes, parts: seq<Runes>)
    requires Closed(v) && NaiveResult(v, Singles(MapBytes(split)), parts)
    ensures InVocabulary(v, TokenIds(v, parts)) && Values(v, TokenIds(v, parts)) == MapBytes(split)
  {
    var mapped := MapBytes(split);
    forall p | p in Singles(mapped)
      ensures v.Encode(p) >= 0
    {
      var i :| 0 <= i < |split| && p == [MapByte(split[i])];
    }
    hide Vocabulary.Encode, MergeClosed, Final, Run, InVocabulary, Values, TokenIds;
    var ks :| Run(v, Singles(mapped), ks, parts);
    RunClosed(v, Singles(mapped), ks, parts);
    RunConcat(v, Singles(mapped), ks, parts);
    SinglesConcat(mapped);
    TokenIdsValues(v, parts);
  }

  /** What a split is encoded to: its own token, if it has one, and nothing else; or else
      the tokens of the parts of a naive result, in order, without the parts that have
      none. */
  lemma SplitMeans(v: Vocabulary, split: Bytes, ids: seq<int>) returns (parts: seq<Runes>, at: seq<nat>)
    requires EncodesSplit(v, split, ids)
    ensures v.Encode(MapBytes(split)) >= 0 ==> ids == [v.Encode(MapBytes(split))]
    ensures v.Encode(MapBytes(split)) < 0 ==>
      && NaiveResult(v, Singles(MapBytes(split)), parts)
      && AreTokens(v, parts, at, ids)
  {
    hide NaiveResult;
    parts, at := [], [];
    if v.Encode(MapBytes(split)) < 0 {
      parts :| NaiveResult(v, Singles(MapBytes(split)), parts) && ids == TokenIds(v, parts);
      at := TokensAre(v, parts);
    }
  }

  /** ids are the tokens of the parts at these places; the other parts have none. */
  ghost predicate AreTokens(v: Vocabulary, parts: seq<Runes>, at: seq<nat>, ids: seq<int>) {
    && |at| == |ids|
    && (forall k | 0 <= k < |at| :: at[k] < |parts| && ids[k] == v.Encode(parts[at[k]]) >= 0)
    && (forall j, k | 0 <= j < k < |at| :: at[j] < at[k])
    && forall i | 0 <= i < |parts| :: i in at <==> v.Encode(parts[i]) >= 0
  }

  lemma {:induction false} TokensAre(v: Vocabulary, parts: seq<Runes>) returns (at: seq<nat>)
    ensures AreTokens(v, parts, at, TokenIds(v, parts))
    decreases |parts|
  {
    hide Vocabulary.Encode, AreTokens;
    if parts == [] {
      at := [];
      NoTokens(v);
    } else {
      var n := |parts| - 1;
      at := TokensAre(v, parts[..n]);
      TokenIdsSnoc(v, parts[..n], parts[n]);
      assert parts == parts[..n] + [parts[n]];
      if v.Encode(parts[n]) >= 0 {
        NextIsToken(v, parts[..n], parts[n], at, TokenIds(v, parts[..n]));
        at := at + [n];
      } else {
        assert TokenIds(v, parts[..n]) + [] == TokenIds(v, parts[..n]);
        NextIsNoToken(v, parts[..n], parts[n], at, TokenIds(v, parts[..n]));
      }
    }
  }

  lemma NoTokens(v: Vocabulary)
    ensures AreTokens(v, [], [], TokenIds(v, []))
  {
  }

  lemma {:induction false} TokenIdsSnoc(v: Vocabulary, parts: seq<Runes>, part: Runes)
    ensures TokenIds(v, parts + [part]) == TokenIds(v, parts) + if v.Encode(part) >= 0 then [v.Encode(part)] else []
  {
    hide Vocabulary.Encode;
    if parts == [] {
      assert parts + [part] == [part] && [part][1..] == [];
    } else {
      assert (parts + [part])[0] == parts[0] && (parts + [part])[1..] == parts[1..] + [part];
      TokenIdsSnoc(v, parts[1..], part);
    }
  }

  lemma NextIsToken(v: Vocabulary, parts: seq<Runes>, part: Runes, at: seq<nat>, ids: seq<int>)
    requires AreTokens(v, parts, at, ids) && v.Encode(part) >= 0
    ensures AreTokens(v, parts + [part], at + [|parts|], ids + [v.Encode(part)])
  {
    hide Vocabulary.Encode;
    var all, n := parts + [part], |parts|;
    assert all[n] == part && forall i | 0 <= i < n :: all[i] == parts[i];
    assert forall i :: i in at + [n] <==> i in at || i == n;
  }

  lemma NextIsNoToken(v: Vocabulary, parts: seq<Runes>, part: Runes, at: seq<nat>, ids: seq<int>)
    requires AreTokens(v, parts, at, ids) && v.Encode(part) < 0
    ensures AreTokens(v, parts + [part], at, ids)
  {
    hide Vocabulary.Encode;
    var all, n := parts + [part], |parts|;
    assert all[n] == part && forall i | 0 <= i < n :: all[i] == parts[i];
    assert n !in at;
  }

  /** Decoding an encoded split gives back the bytes that survive the mapping. */
  lemma SplitDecodes(v: Vocabulary, split: Bytes, ids: seq<int>)
    requires Closed(v) && EncodesSplit(v, split, ids)
    ensures InVocabulary(v, ids) && Decoded(v, ids) == Survive(split)
  {
    hide Closed, NaiveResult, TokenIds;
    var mapped := MapBytes(split);
    if v.Encode(mapped) >= 0 {
      OneToken(v, ids[0]);
    } else {
      var parts :| NaiveResult(v, Singles(mapped), parts) && ids == TokenIds(v, parts);
      MergedValues(v, split, parts);
    }
  }

  lemma {:induction false} SplitsDecode(v: Vocabulary, splits: seq<Bytes>, idss: seq<seq<int>>)
    requires Closed(v) && EncodesSplits(v, splits, idss)
    ensures InVocabulary(v, Flat(idss)) && Decoded(v, Flat(idss)) == Survive(Flat(splits))
  {
    if splits != [] {
      SplitDecodes(v, splits[0], idss[0]);
      SplitsDecode(v, splits[1..], idss[1..]);
      DecodedAppend(v, idss[0], Flat(idss[1..]));
      SurviveConcat(splits[0], Flat(splits[1..]));
    }
  }

  /** The pre-tokenizer cuts a text into pieces and loses nothing. */
  ghost predicate Partitions(pre: Bytes -> seq<Bytes>) {
    forall s :: Flat(pre(s)) == s
  }

  /** A recognised fragment is a special token with its id. */
  ghost predicate Recognised(v: Vocabulary, f: Fragment)
    requires WellFormed(v)
  {
    |f.ids| > 0 ==>
      exists special :: special in v.SpecialVocabulary() && f == Fragment(Utf8(special), [v.Encode(special)])
  }

  ghost predicate AllRecognised(v: Vocabulary, fs: seq<Fragment>)
    requires WellFormed(v)
  {
    forall i | 0 <= i < |fs| :: Recognised(v, fs[i])
  }

  lemma RecognisedAppend(v: Vocabulary, a: seq<Fragment>, b: seq<Fragment>)
    requires WellFormed(v) && AllRecognised(v, a) && AllRecognised(v, b)
    ensures AllRecognised(v, a + b)
  {
  }

  lemma {:induction false} SplitTextRecognised(v: Vocabulary, s: Bytes, special: Runes)
    requires WellFormed(v) && special in v.SpecialVocabulary() && special != []
    ensures AllRecognised(v, SplitText(s, Utf8(special), v.Encode(special)))
    decreases |s|
  {
    hide Recognised, AllRecognised, SplitText, Index, Utf8, LastIndex;
    var sub, id := Utf8(special), v.Encode(special);
    var i := Index(s, sub);
    UnfoldSplit(s, sub, id);
    EasyRecognised(v, special, s);
    if i >= 0 {
      var before := if i > 0 then [Fragment(s[..i], [])] else [];
      var rest := s[i + |sub|..];
      EasyRecognised(v, special, s[..i]);
      RecognisedAppend(v, before, [Fragment(sub, [id])]);
      if rest != [] {
        SplitTextRecognised(v, rest, special);
        RecognisedAppend(v, before + [Fragment(sub, [id])], SplitText(rest, sub, id));
      }
    }
  }

  lemma UnfoldSplit(s: Bytes, sub: Bytes, id: int)
    requires sub != []
    ensures var i := Index(s, sub);
      if i < 0 then SplitText(s, sub, id) == [Fragment(s, [])]
      else
        i + |sub| <= |s| && |s[i + |sub|..]| < |s| &&
        var before := (if i > 0 then [Fragment(s[..i], [])] else []) + [Fragment(sub, [id])];
        var rest := s[i + |sub|..];
        SplitText(s, sub, id) == if rest != [] then before + SplitText(rest, sub, id) else before
  {
  }

  lemma EasyRecognised(v: Vocabulary, special: Runes, s: Bytes)
    requires WellFormed(v) && special in v.SpecialVocabulary()
    ensures AllRecognised(v, []) && AllRecognised(v, [Fragment(s, [])])
    ensures AllRecognised(v, [Fragment(Utf8(special), [v.Encode(special)])])
  {
  }

  lemma {:induction false} SplitFragmentsRecognised(v: Vocabulary, fs: seq<Fragment>, special: Runes)
    requires WellFormed(v) && special in v.SpecialVocabulary() && special != [] && AllRecognised(v, fs)
    ensures AllRecognised(v, SplitFragments(fs, Utf8(special), v.Encode(special)))
  {
    if fs != [] {
      SplitFragmentsRecognised(v, fs[1..], special);
      SplitTextRecognised(v, fs[0].value, special);
      assert Recognised(v, fs[0]);
    }
  }

  /** Splitting at special tokens keeps the text, and recognises nothing else. */
  lemma {:induction false} SpecialsSplit(v: Vocabulary, fs: seq<Fragment>, specials: seq<Runes>)
    requires WellFormed(v) && AllRecognised(v, fs)
    requires forall k | 0 <= k < |specials| :: specials[k] != [] && specials[k] in v.SpecialVocabulary()
    ensures Text(SplitSpecials(v, fs, specials)) == Text(fs)
    ensures AllRecognised(v, SplitSpecials(v, fs, specials))
    decreases |specials|
  {
    if specials != [] {
      SplitKeepsText(fs, Utf8(specials[0]), v.Encode(specials[0]));
      SplitFragmentsRecognised(v, fs, specials[0]);
      SpecialsSplit(v, SplitFragments(fs, Utf8(specials[0]), v.Encode(specials[0])), specials[1..]);
    }
  }

  /** The fragments of a text make up the text, and those with an id are specials. */
  lemma FragmentsOfText(v: Vocabulary, s: Bytes)
    requires WellFormed(v)
    ensures Text(Fragments(v, s)) == s && AllRecognised(v, Fragments(v, s))
  {
    SpecialsNotEmpty(v);
    var whole := Fragment(s, []);
    SpecialsSplit(v, [whole], v.SpecialVocabulary());
    TextCons(whole, []);
    assert [whole] + [] == [whole];
  }

  // ---------------------------------------------- where special tokens are found

  lemma NothingSplits(v: Vocabulary, specials: seq<Runes>)
    requires forall k | 0 <= k < |specials| :: specials[k] != []
    ensures SplitSpecials(v, [], specials) == []
    decreases |specials|
  {
    if specials != [] {
      NothingSplits(v, specials[1..]);
    }
  }

  lemma {:induction false} MarkStays(v: Vocabulary, mark: Fragment, specials: seq<Runes>)
    requires (forall k | 0 <= k < |specials| :: specials[k] != []) && |mark.ids| > 0
    ensures SplitSpecials(v, [mark], specials) == [mark]
    decreases |specials|
  {
    if specials != [] {
      SplitOne(mark, Utf8(specials[0]), v.Encode(specials[0]));
      MarkStays(v, mark, specials[1..]);
    }
  }

  lemma {:induction false} SpecialsAppend(v: Vocabulary, a: seq<Fragment>, b: seq<Fragment>, specials: seq<Runes>)
    requires forall k | 0 <= k < |specials| :: specials[k] != []
    ensures SplitSpecials(v, a + b, specials) == SplitSpecials(v, a, specials) + SplitSpecials(v, b, specials)
    decreases |specials|
  {
    hide SplitFragments;
    if specials != [] {
      var sub, id := Utf8(specials[0]), v.Encode(specials[0]);
      SplitAppend(a, b, sub, id);
      SpecialsAppend(v, SplitFragments(a, sub, id), SplitFragments(b, sub, id), specials[1..]);
    }
  }

  /** The special token occurs nowhere in the text. */
  ghost predicate Absent(s: Bytes, special: Runes) {
    forall j :: !OccursAt(s, Utf8(special), j)
  }

  ghost predicate FirstAt(s: Bytes, special: Runes, i: nat) {
    OccursAt(s, Utf8(special), i) && forall j | 0 <= j < i :: !OccursAt(s, Utf8(special), j)
  }

  lemma OccursInPart(s: Bytes, lo: nat, hi: nat, sub: Bytes, j: int)
    requires lo <= hi <= |s| && OccursAt(s[lo..hi], sub, j)
    ensures OccursAt(s, sub, lo + j)
  {
    forall k | 0 <= k < |sub|
      ensures s[lo + j + k] == sub[k]
    {
      assert s[lo..hi][j..j + |sub|][k] == s[lo + j + k];
    }
    assert s[lo + j..lo + j + |sub|] == sub;
  }

  lemma AbsentInPart(s: Bytes, lo: nat, hi: nat, special: Runes)
    requires lo <= hi <= |s| && Absent(s, special)
    ensures Absent(s[lo..hi], special)
  {
    forall j
      ensures !OccursAt(s[lo..hi], Utf8(special), j)
    {
      if OccursAt(s[lo..hi], Utf8(special), j) {
        OccursInPart(s, lo, hi, Utf8(special), j);
      }
    }
  }

  lemma AbsentIndex(s: Bytes, special: Runes)
    ensures Absent(s, special) <==> Index(s, Utf8(special)) == -1
  {
    hide Utf8;
  }

  lemma FirstIndex(s: Bytes, special: Runes, i: nat)
    requires FirstAt(s, special, i)
    ensures Index(s, Utf8(special)) == i
  {
    hide Utf8;
  }

  /** Special tokens that do not occur change nothing. */
  lemma {:induction false} AbsentSkipped(v: Vocabulary, s: Bytes, specials: seq<Runes>, k: nat)
    requires (forall j | 0 <= j < |specials| :: specials[j] != []) && k <= |specials|
    requires forall j | 0 <= j < k :: Absent(s, specials[j])
    ensures SplitSpecials(v, [Fragment(s, [])], specials) == SplitSpecials(v, [Fragment(s, [])], specials[k..])
    decreases k
  {
    hide Absent, Index, SplitFragments;
    if k == 0 {
      assert specials[0..] == specials;
    } else {
      var sub, id := Utf8(specials[0]), v.Encode(specials[0]);
      AbsentIndex(s, specials[0]);
      SplitOne(Fragment(s, []), sub, id);
      AbsentSkipped(v, s, specials[1..], k - 1);
      assert specials[1..][k - 1..] == specials[k..];
    }
  }

  /** A text without special tokens is one fragment. */
  lemma NoSpecials(v: Vocabulary, s: Bytes)
    requires WellFormed(v) && forall k | 0 <= k < |v.SpecialVocabulary()| :: Absent(s, v.SpecialVocabulary()[k])
    ensures Fragments(v, s) == [Fragment(s, [])]
  {
    SpecialsNotEmpty(v);
    var specials := v.SpecialVocabulary();
    AbsentSkipped(v, s, specials, |specials|);
  }

  /** Nothing is joined across the pieces that the pre-tokenizer cuts: where each is a
      token, and no special token occurs, the tokens of the pieces are the encoding. */
  lemma PiecesEncode(v: Vocabulary, pre: Bytes -> seq<Bytes>, s: Bytes, ids: seq<int>)
    requires WellFormed(v) && forall k | 0 <= k < |v.SpecialVocabulary()| :: Absent(s, v.SpecialVocabulary()[k])
    requires forall i | 0 <= i < |pre(s)| :: v.Encode(MapBytes(pre(s)[i])) >= 0
    ensures Encodes(v, pre, s, ids) <==>
      |ids| == |pre(s)| && forall i | 0 <= i < |ids| :: ids[i] == v.Encode(MapBytes(pre(s)[i]))
  {
    hide Fragments, Absent, NaiveResult, Vocabulary.Encode, Vocabulary.SpecialVocabulary;
    NoSpecials(v, s);
    var f := Fragment(s, []);
    assert Encodes(v, pre, s, ids) <==> EncodesFragment(v, pre, f, ids) by {
      OneFragment(v, pre, s, ids);
    }
    hide Encodes;
    var one := seq(|pre(s)|, i requires 0 <= i < |pre(s)| => [v.Encode(MapBytes(pre(s)[i]))]);
    assert EncodesSplits(v, pre(s), one);
    FlatOnes(one);
    if EncodesFragment(v, pre, f, ids) {
      var idss :| EncodesSplits(v, pre(s), idss) && ids == Flat(idss);
      assert idss == one;
    }
    if |ids| == |pre(s)| && forall i | 0 <= i < |ids| :: ids[i] == v.Encode(MapBytes(pre(s)[i])) {
      assert ids == Flat(one);
    }
  }

  lemma OneFragment(v: Vocabulary, pre: Bytes -> seq<Bytes>, s: Bytes, ids: seq<int>)
    requires WellFormed(v) && Fragments(v, s) == [Fragment(s, [])]
    ensures Encodes(v, pre, s, ids) <==> EncodesFragment(v, pre, Fragment(s, []), ids)
  {
    hide Fragments, EncodesFragment;
    if Encodes(v, pre, s, ids) {
      var idss :| EncodesFragments(v, pre, Fragments(v, s), idss) && ids == Flat(idss);
      assert idss == [idss[0]];
      FlatSnoc([], idss[0]);
      assert [] + [idss[0]] == idss && Flat<int>([]) + idss[0] == idss[0];
      assert EncodesFragment(v, pre, Fragments(v, s)[0], idss[0]);
    }
    if EncodesFragment(v, pre, Fragment(s, []), ids) {
      FlatSnoc([], ids);
      assert [] + [ids] == [ids] && Flat<int>([]) + ids == ids;
      assert Flat([ids]) == ids && EncodesFragments(v, pre, Fragments(v, s), [ids]);
    }
  }

  lemma {:induction false} FlatOnes(xss: seq<seq<int>>)
    requires forall i | 0 <= i < |xss| :: |xss[i]| == 1
    ensures |Flat(xss)| == |xss| && forall i | 0 <= i < |xss| :: Flat(xss)[i] == xss[i][0]
  {
    if xss != [] {
      FlatOnes(xss[1..]);
      assert forall i | 0 < i < |xss| :: xss[i] == xss[1..][i - 1];
    }
  }

  /** The fragments of a text, or none for no text. */
  function FragmentsOf(v: Vocabulary, s: Bytes): seq<Fragment>
    requires WellFormed(v)
  {
    if s == [] then [] else Fragments(v, s)
  }

  /** One pass for a special token that occurs. */
  lemma CutOnce(s: Bytes, special: Runes, id: int, i: nat)
    requires special != [] && FirstAt(s, special, i)
    ensures var sub := Utf8(special);
      var rest := s[i + |sub|..];
      && Index(s[..i], sub) == -1
      && SplitText(s, sub, id)
        == (if i > 0 then [Fragment(s[..i], [])] else []) + [Fragment(sub, [id])]
           + if rest != [] then SplitText(rest, sub, id) else []
  {
    hide Utf8, Index, SplitText, FirstAt;
    FirstIndex(s, special, i);
    BeforeFirst(s, Utf8(special));
    UnfoldSplit(s, Utf8(special), id);
  }

  ghost predicate NoneEmpty(specials: seq<Runes>) {
    forall k | 0 <= k < |specials| :: specials[k] != []
  }

  /** From special token k on, a text in which the earlier ones do not occur. */
  lemma FromSpecial(v: Vocabulary, s: Bytes, k: nat)
    requires WellFormed(v) && k < |v.SpecialVocabulary()|
    requires forall j | 0 <= j < k :: Absent(s, v.SpecialVocabulary()[j])
    ensures var special := v.SpecialVocabulary()[k];
      && special != [] && NoneEmpty(v.SpecialVocabulary()[k + 1..])
      && Fragments(v, s)
        == SplitSpecials(v, SplitText(s, Utf8(special), v.Encode(special)), v.SpecialVocabulary()[k + 1..])
  {
    hide Absent, SplitText, SplitFragments, Vocabulary.SpecialVocabulary;
    SpecialsNotEmpty(v);
    var specials := v.SpecialVocabulary();
    AbsentSkipped(v, s, specials, k);
    SplitOne(Fragment(s, []), Utf8(specials[k]), v.Encode(specials[k]));
    assert specials[k..][0] == specials[k] && specials[k..][1..] == specials[k + 1..];
  }

  /** The special tokens take precedence in the order of their ids, and each is found
      from left to right: the first one that occurs is cut out where it occurs first,
      and what lies before and behind is cut in the same way. */
  lemma CutAtFirst(v: Vocabulary, s: Bytes, k: nat, i: nat)
    requires WellFormed(v) && k < |v.SpecialVocabulary()|
    requires forall j | 0 <= j < k :: Absent(s, v.SpecialVocabulary()[j])
    requires FirstAt(s, v.SpecialVocabulary()[k], i)
    ensures var special := v.SpecialVocabulary()[k];
      Fragments(v, s) == FragmentsOf(v, s[..i]) + [Fragment(Utf8(special), [v.Encode(special)])]
                         + FragmentsOf(v, s[i + |Utf8(special)|..])
  {
    hide Absent, Fragments, SplitText, Vocabulary.SpecialVocabulary, Utf8;
    var special := v.SpecialVocabulary()[k];
    var sub, id, later := Utf8(special), v.Encode(special), v.SpecialVocabulary()[k + 1..];
    var front, mark, rest := s[..i], Fragment(sub, [id]), s[i + |sub|..];
    forall j | 0 <= j < k
      ensures Absent(front, v.SpecialVocabulary()[j]) && Absent(rest, v.SpecialVocabulary()[j])
    {
      AbsentInPart(s, 0, i, v.SpecialVocabulary()[j]);
      AbsentInPart(s, i + |sub|, |s|, v.SpecialVocabulary()[j]);
      assert s[0..i] == front && s[i + |sub|..|s|] == rest;
    }
    FromSpecial(v, s, k);
    FromSpecial(v, front, k);
    FromSpecial(v, rest, k);
    CutOnce(s, special, id, i);
    NotSplit(front, sub, id);
    var before := if i > 0 then [Fragment(front, [])] else [];
    var behind := if rest != [] then SplitText(rest, sub, id) else [];
    SpecialsAppend(v, before + [mark], behind, later);
    SpecialsAppend(v, before, [mark], later);
    MarkStays(v, mark, later);
    NothingSplits(v, later);
  }

  lemma NotSplit(s: Bytes, sub: Bytes, id: int)
    requires sub != []
    ensures Index(s, sub) == -1 ==> SplitText(s, sub, id) == [Fragment(s, [])]
  {
  }

  /** No special token is overlooked. */
  ghost predicate Clear(v: Vocabulary, fs: seq<Fragment>)
    requires WellFormed(v)
  {
    forall i, special | 0 <= i < |fs| && |fs[i].ids| == 0 && special in v.SpecialVocabulary() ::
      Absent(fs[i].value, special)
  }

  /** Which of the special tokens occurs, the first in the order of precedence. */
  lemma {:induction false} FirstSpecial(s: Bytes, specials: seq<Runes>, n: nat) returns (k: nat)
    requires n <= |specials|
    ensures k <= n && forall j | 0 <= j < k :: Absent(s, specials[j])
    ensures k < n ==> !Absent(s, specials[k])
  {
    hide Absent;
    if n == 0 {
      k := 0;
    } else {
      k := FirstSpecial(s, specials, n - 1);
      if k == n - 1 && Absent(s, specials[k]) {
        k := n;
      }
    }
  }

  lemma ClearAppend(v: Vocabulary, a: seq<Fragment>, f: Fragment, b: seq<Fragment>)
    requires WellFormed(v) && Clear(v, a) && |f.ids| > 0 && Clear(v, b)
    ensures Clear(v, a + [f] + b) && Clear(v, [])
  {
    hide Absent, Vocabulary.SpecialVocabulary;
  }

  /** In what is left as plain text no special token occurs at all. */
  lemma {:induction false} FragmentsAreClear(v: Vocabulary, s: Bytes)
    requires WellFormed(v)
    ensures Clear(v, Fragments(v, s))
    decreases |s|
  {
    hide Fragments, Absent, Vocabulary.SpecialVocabulary, Clear;
    SpecialsNotEmpty(v);
    var specials := v.SpecialVocabulary();
    var k := FirstSpecial(s, specials, |specials|);
    if k == |specials| {
      NoSpecials(v, s);
      PlainIsClear(v, s);
    } else {
      var special := specials[k];
      var sub := Utf8(special);
      var i := Index(s, sub);
      AbsentIndex(s, special);
      IndexIsFirst(s, special);
      CutAtFirst(v, s, k, i);
      PartClear(v, s[..i], |s|);
      PartClear(v, s[i + |sub|..], |s|);
      ClearAppend(v, FragmentsOf(v, s[..i]), Fragment(sub, [v.Encode(special)]), FragmentsOf(v, s[i + |sub|..]));
    }
  }

  lemma {:induction false} PartClear(v: Vocabulary, part: Bytes, size: nat)
    requires WellFormed(v) && |part| < size
    ensures Clear(v, FragmentsOf(v, part))
    decreases size, 0
  {
    hide Fragments;
    if part != [] {
      FragmentsAreClear(v, part);
    }
  }

  lemma IndexIsFirst(s: Bytes, special: Runes)
    requires special != [] && Index(s, Utf8(special)) >= 0
    ensures FirstAt(s, special, Index(s, Utf8(special))) && Index(s, Utf8(special)) + |Utf8(special)| <= |s|
  {
  }

  lemma PlainIsClear(v: Vocabulary, s: Bytes)
    requires WellFormed(v) && forall k | 0 <= k < |v.SpecialVocabulary()| :: Absent(s, v.SpecialVocabulary()[k])
    ensures Clear(v, [Fragment(s, [])])
  {
    hide Absent, Vocabulary.SpecialVocabulary;
  }

  ghost predicate AsciiSpecials(v: Vocabulary)
    requires WellFormed(v)
  {
    forall special | special in v.SpecialVocabulary() :: Ascii(special)
  }

  /** What comes back of a fragment: a special token as it was, any other text as
      far as its bytes survive. */
  function Restored(f: Fragment): Bytes {
    if |f.ids| > 0 then f.value else Survive(f.value)
  }

  function RestoredText(fs: seq<Fragment>): Bytes {
    if fs == [] then [] else Restored(fs[0]) + RestoredText(fs[1..])
  }

  lemma FragmentDecodes(v: Vocabulary, pre: Bytes -> seq<Bytes>, f: Fragment, ids: seq<int>)
    requires WellFormed(v) && Closed(v) && Partitions(pre) && AsciiSpecials(v)
    requires Recognised(v, f) && EncodesFragment(v, pre, f, ids)
    ensures InVocabulary(v, ids) && Decoded(v, ids) == Restored(f)
  {
    if |f.ids| > 0 {
      var special :| special in v.SpecialVocabulary() && f == Fragment(Utf8(special), [v.Encode(special)]);
      AsciiDecodes(special);
      OneToken(v, ids[0]);
    } else {
      var idss :| EncodesSplits(v, pre(f.value), idss) && ids == Flat(idss);
      SplitsDecode(v, pre(f.value), idss);
    }
  }

  lemma {:induction false} FragmentsDecode(
      v: Vocabulary, pre: Bytes -> seq<Bytes>, fs: seq<Fragment>, idss: seq<seq<int>>)
    requires WellFormed(v) && Closed(v) && Partitions(pre) && AsciiSpecials(v)
    requires AllRecognised(v, fs) && EncodesFragments(v, pre, fs, idss)
    ensures InVocabulary(v, Flat(idss)) && Decoded(v, Flat(idss)) == RestoredText(fs)
  {
    if fs != [] {
      FragmentDecodes(v, pre, fs[0], idss[0]);
      FragmentsDecode(v, pre, fs[1..], idss[1..]);
      DecodedAppend(v, idss[0], Flat(idss[1..]));
    }
  }

  /** No text outside the special tokens holds a byte that does not survive. */
  ghost predicate PlainPrintable(fs: seq<Fragment>) {
    forall i | 0 <= i < |fs| && |fs[i].ids| == 0 :: AllPrintable(fs[i].value)
  }

  lemma {:induction false} RestoredIff(fs: seq<Fragment>)
    ensures |RestoredText(fs)| <= |Text(fs)|
    ensures RestoredText(fs) == Text(fs) <==> PlainPrintable(fs)
  {
    if fs != [] {
      RestoredIff(fs[1..]);
      SurviveIff(fs[0].value);
      SameParts(Restored(fs[0]), fs[0].value, RestoredText(fs[1..]), Text(fs[1..]));
      assert PlainPrintable(fs) <==> (|fs[0].ids| == 0 ==> AllPrintable(fs[0].value)) && PlainPrintable(fs[1..]);
    }
  }

  lemma SameParts(a: Bytes, b: Bytes, c: Bytes, d: Bytes)
    requires |a| <= |b| && |c| <= |d|
    ensures a + c == b + d <==> a == b && c == d
  {
    if a + c == b + d {
      assert |a + c| == |b + d|;
      assert a == (a + c)[..|a|] && b == (b + d)[..|b|];
      assert c == (a + c)[|a|..] && d == (b + d)[|b|..];
    }
  }

  lemma {:induction false} PrintableParts(fs: seq<Fragment>)
    requires AllPrintable(Text(fs))
    ensures PlainPrintable(fs)
  {
    if fs != [] {
      var v, t := fs[0].value, Text(fs[1..]);
      assert forall i | 0 <= i < |v| :: (v + t)[i] == v[i];
      assert forall i | 0 <= i < |t| :: (v + t)[|v| + i] == t[i];
      PrintableParts(fs[1..]);
      assert forall i | 1 <= i < |fs| :: fs[i] == fs[1..][i - 1];
    }
  }

  /** Decoding what was encoded gives back the text exactly when no byte 0x00 or
      0x7e stands outside a special token; in general it gives back the special
      tokens and what survives of the rest. */
  lemma RoundTrip(v: Vocabulary, pre: Bytes -> seq<Bytes>, s: Bytes, ids: seq<int>)
    requires WellFormed(v) && Closed(v) && Partitions(pre) && AsciiSpecials(v)
    ensures Encodes(v, pre, s, ids) ==>
      && InVocabulary(v, ids)
      && Decoded(v, ids) == RestoredText(Fragments(v, s))
      && (Decoded(v, ids) == s <==> PlainPrintable(Fragments(v, s)))
      && (AllPrintable(s) ==> Decoded(v, ids) == s)
  {
    if Encodes(v, pre, s, ids) {
      var fs := Fragments(v, s);
      FragmentsOfText(v, s);
      var idss :| EncodesFragments(v, pre, fs, idss) && ids == Flat(idss);
      FragmentsDecode(v, pre, fs, idss);
      RestoredIff(fs);
      if AllPrintable(s) {
        PrintableParts(fs);
      }
    }
  }
}
