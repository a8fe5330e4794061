/** Encoding a text to token ids and decoding it again. */
module BpeText {
  import opened Helpers
  import opened BpeVocab
  import opened BpeMerge
  import opened BpeHeap

  /** A piece of the text; once it is recognised as a special token it has an id. */
  datatype Fragment = Fragment(value: Bytes, ids: seq<int>)

  // ------------------------------------------------------------- special tokens

  predicate OccursAt(s: Bytes, sub: Bytes, i: int) {
    0 <= i && i + |sub| <= |s| && s[i..i + |sub|] == sub
  }

  ghost predicate IsFirst(s: Bytes, sub: Bytes, i: int) {
    if i >= 0 then OccursAt(s, sub, i) && forall j | 0 <= j < i :: !OccursAt(s, sub, j)
    else i == -1 && forall j :: !OccursAt(s, sub, j)
  }

  /** The first place where sub occurs in s, or -1. */
  function Index(s: Bytes, sub: Bytes): (i: int)
    ensures IsFirst(s, sub, i) && (i >= 0 ==> i + |sub| <= |s|)
  {
    IndexFrom(s, sub, 0)
  }

  function IndexFrom(s: Bytes, sub: Bytes, from: nat): (i: int)
    requires forall j | 0 <= j < from :: !OccursAt(s, sub, j)
    ensures IsFirst(s, sub, i)
    decreases |s| - from
  {
    if from + |sub| > |s| then -1
    else if s[from..from + |sub|] == sub then from
    else IndexFrom(s, sub, from + 1)
  }

  /** What lies before the first occurrence, as a fragment unless it is empty. */
  function Before(s: Bytes, special: Bytes): seq<Fragment>
    requires Index(s, special) >= 0
  {
    if Index(s, special) > 0 then [Fragment(s[..Index(s, special)], [])] else []
  }

  function Rest(s: Bytes, special: Bytes): (rest: Bytes)
    requires Index(s, special) >= 0
    ensures |rest| + |special| <= |s|
  {
    s[Index(s, special) + |special|..]
  }

  /** A text cut at the occurrences of a special token, from left to right. */
  function SplitText(s: Bytes, special: Bytes, id: int): (fs: seq<Fragment>)
    requires special != []
    decreases |s|
  {
    if Index(s, special) < 0 then [Fragment(s, [])]
    else
      Before(s, special) + [Fragment(special, [id])]
      + if Rest(s, special) != [] then SplitText(Rest(s, special), special, id) else []
  }

  function SplitFragment(f: Fragment, special: Bytes, id: int): seq<Fragment>
    requires special != []
  {
    if |f.ids| > 0 then [f] else SplitText(f.value, special, id)
  }

  function SplitFragments(fs: seq<Fragment>, special: Bytes, id: int): seq<Fragment>
    requires special != []
  {
    if fs == [] then [] else SplitFragment(fs[0], special, id) + SplitFragments(fs[1..], special, id)
  }

  function SplitSpecials(v: Vocabulary, fs: seq<Fragment>, specials: seq<Runes>): seq<Fragment>
    requires forall k | 0 <= k < |specials| :: specials[k] != []
    decreases |specials|
  {
    if specials == [] then fs
    else SplitSpecials(v, SplitFragments(fs, Utf8(specials[0]), v.Encode(specials[0])), specials[1..])
  }

  /** The replacement of one fragment in one pass of the splitting loop. */
  function Middle(f: Fragment, special: Bytes, id: int): (middle: seq<Fragment>)
    requires special != [] && f.ids == []
    ensures 1 <= |middle|
  {
    if Index(f.value, special) < 0 then [f]
    else
      Before(f.value, special) + [Fragment(special, [id])]
      + if Rest(f.value, special) != [] then [Fragment(Rest(f.value, special), [])] else []
  }

  lemma SplitCons(f: Fragment, rest: seq<Fragment>, special: Bytes, id: int)
    requires special != []
    ensures SplitFragments([f] + rest, special, id) == SplitFragment(f, special, id) + SplitFragments(rest, special, id)
    ensures SplitFragments([], special, id) == []
  {
    assert ([f] + rest)[1..] == rest;
  }

  lemma {:induction false} SplitAppend(a: seq<Fragment>, b: seq<Fragment>, special: Bytes, id: int)
    requires special != []
    ensures SplitFragments(a + b, special, id) == SplitFragments(a, special, id) + SplitFragments(b, special, id)
  {
    if a == [] {
      assert a + b == b;
    } else {
      hide SplitFragments, SplitFragment;
      SplitAppend(a[1..], b, special, id);
      SplitCons(a[0], a[1..] + b, special, id);
      SplitCons(a[0], a[1..], special, id);
      assert a + b == [a[0]] + (a[1..] + b) && a == [a[0]] + a[1..];
      Regroup(SplitFragment(a[0], special, id), SplitFragments(a[1..], special, id), SplitFragments(b, special, id));
    }
  }

  /** What lies before the first occurrence contains none. */
  lemma BeforeFirst(s: Bytes, special: Bytes)
    requires special != [] && Index(s, special) >= 0
    ensures Index(s[..Index(s, special)], special) == -1
  {
    var i := Index(s, special);
    forall j
      ensures !OccursAt(s[..i], special, j)
    {
      OccursInPrefix(s, special, i, j);
    }
  }

  lemma OccursInPrefix(s: Bytes, sub: Bytes, i: nat, j: int)
    requires i <= |s|
    ensures OccursAt(s[..i], sub, j) <==> OccursAt(s, sub, j) && j + |sub| <= i
  {
    if 0 <= j && j + |sub| <= i {
      assert s[..i][j..j + |sub|] == s[j..j + |sub|];
    }
  }

  lemma SplitOne(f: Fragment, special: Bytes, id: int)
    requires special != []
    ensures SplitFragments([f], special, id) == SplitFragment(f, special, id)
  {
    assert [f][1..] == [];
  }

  lemma BeforeSplits(s: Bytes, special: Bytes, id: int)
    requires special != [] && Index(s, special) >= 0
    ensures SplitFragments(Before(s, special), special, id) == Before(s, special)
    ensures Index(s, special) > 0 ==> SplitFragment(Before(s, special)[0], special, id) == [Before(s, special)[0]]
  {
    BeforeFirst(s, special);
    hide IsFirst, SplitFragments;
    if Index(s, special) > 0 {
      SplitOne(Before(s, special)[0], special, id);
    } else {
      SplitOne(Fragment(s, []), special, id);
      SplitCons(Fragment(s, []), [], special, id);
    }
  }

  lemma RestSplits(rest: Bytes, special: Bytes, id: int)
    requires special != []
    ensures SplitFragments(if rest != [] then [Fragment(rest, [])] else [], special, id)
         == if rest != [] then SplitText(rest, special, id) else []
    ensures SplitFragment(Fragment(special, [id]), special, id) == [Fragment(special, [id])]
  {
    hide SplitText;
    SplitOne(Fragment(rest, []), special, id);
  }

  /** Splitting the replacement leads to the same fragments as splitting what was
      replaced; and the first fragment of the replacement needs no more splitting. */
  lemma MiddleSplits(f: Fragment, special: Bytes, id: int)
    requires special != [] && f.ids == []
    ensures var m := Middle(f, special, id);
      SplitFragments(m, special, id) == SplitFragment(f, special, id) && SplitFragment(m[0], special, id) == [m[0]]
  {
    hide SplitFragments, IsFirst, Index;
    if Index(f.value, special) < 0 {
      SplitOne(f, special, id);
    } else {
      var before, mark, rest := Before(f.value, special), [Fragment(special, [id])], Rest(f.value, special);
      BeforeSplits(f.value, special, id);
      RestSplits(rest, special, id);
      SplitOne(Fragment(special, [id]), special, id);
      SplitAppend(before, mark, special, id);
      SplitAppend(before + mark, if rest != [] then [Fragment(rest, [])] else [], special, id);
    }
  }

  /** A fragment that need not be split moves to the part that is done. */
  lemma OneDone(done: seq<Fragment>, f: Fragment, rest: seq<Fragment>, special: Bytes, id: int)
    requires special != [] && SplitFragment(f, special, id) == [f]
    ensures done + SplitFragments([f] + rest, special, id) == done + [f] + SplitFragments(rest, special, id)
  {
    hide SplitFragments, SplitFragment;
    SplitCons(f, rest, special, id);
    Regroup(done, [f], SplitFragments(rest, special, id));
  }

  /** A fragment may be replaced by what takes its place in one pass. */
  lemma Replaced(done: seq<Fragment>, f: Fragment, rest: seq<Fragment>, special: Bytes, id: int)
    requires special != [] && f.ids == []
    ensures var m := Middle(f, special, id);
      done + SplitFragments([f] + rest, special, id) == done + [m[0]] + SplitFragments(m[1..] + rest, special, id)
  {
    hide SplitFragments, SplitFragment, Middle;
    var m := Middle(f, special, id);
    MiddleSplits(f, special, id);
    SplitCons(f, rest, special, id);
    SplitAppend(m, rest, special, id);
    assert m + rest == [m[0]] + (m[1..] + rest);
    OneDone(done, m[0], m[1..] + rest, special, id);
  }

  /** Cuts the fragments at one special token, splicing as it goes. */
  method SplitPass(fragments0: seq<Fragment>, special: Bytes, id: int) returns (fragments: seq<Fragment>)
    requires special != []
    ensures fragments == SplitFragments(fragments0, special, id)
  {
    hide Middle, SplitFragment, SplitFragments;
    fragments := fragments0;
    ghost var goal := SplitFragments(fragments0, special, id);
    var i := 0;
    assert fragments[..0] == [] && fragments[0..] == fragments;
    while i < |fragments|
      invariant i <= |fragments|
      invariant goal == fragments[..i] + SplitFragments(fragments[i..], special, id)
      decreases |goal| - i
    {
      var frag := fragments[i];
      ghost var done, rest := fragments[..i], fragments[i + 1..];
      assert fragments[i..] == [frag] + rest;
      if |frag.ids| > 0 {
        Recognised(frag, special, id);
        OneDone(done, frag, rest, special, id);
        assert fragments[..i + 1] == done + [frag];
      } else {
        var middle := Middle(frag, special, id);
        Replaced(done, frag, rest, special, id);
        fragments := fragments[..i] + (middle + fragments[i + 1..]);
        assert fragments[..i + 1] == done + [middle[0]];
        assert fragments[i + 1..] == middle[1..] + rest;
      }
      i := i + 1;
    }
    SplitNone(special, id);
    assert fragments[..i] == fragments && fragments[i..] == [];
  }

  lemma SplitNone(special: Bytes, id: int)
    requires special != []
    ensures SplitFragments([], special, id) == []
  {
  }

  lemma Recognised(f: Fragment, special: Bytes, id: int)
    requires special != [] && |f.ids| > 0
    ensures SplitFragment(f, special, id) == [f]
  {
  }

  // ---------------------------------------------------- what splitting preserves

  function Text(fs: seq<Fragment>): Bytes {
    if fs == [] then [] else fs[0].value + Text(fs[1..])
  }

  lemma {:induction false} TextAppend(a: seq<Fragment>, b: seq<Fragment>)
    ensures Text(a + b) == Text(a) + Text(b)
  {
    hide Text;
    if a == [] {
      assert a + b == b;
      TextEmpty();
    } else {
      TextAppend(a[1..], b);
      TextCons(a[0], a[1..] + b);
      TextCons(a[0], a[1..]);
      assert a + b == [a[0]] + (a[1..] + b) && a == [a[0]] + a[1..];
      Regroup(a[0].value, Text(a[1..]), Text(b));
    }
  }

  lemma TextEmpty()
    ensures Text([]) == []
  {
  }

  lemma TextCons(f: Fragment, rest: seq<Fragment>)
    ensures Text([f] + rest) == f.value + Text(rest)
  {
    assert ([f] + rest)[1..] == rest;
  }

  lemma CutText(s: Bytes, special: Bytes)
    requires Index(s, special) >= 0
    ensures Text(Before(s, special)) + special + Rest(s, special) == s
  {
    var i := Index(s, special);
    assert s == s[..i] + special + s[i + |special|..];
    assert i > 0 ==> Before(s, special)[1..] == [];
  }

  lemma {:induction false} SplitTextKeepsText(s: Bytes, special: Bytes, id: int)
    requires special != []
    ensures Text(SplitText(s, special, id)) == s
    decreases |s|
  {
    hide IsFirst, Index, Text, Before, Rest;
    if Index(s, special) < 0 {
      TextOne(Fragment(s, []));
    } else {
      var mark, rest := [Fragment(special, [id])], Rest(s, special);
      var tail := if rest != [] then SplitText(rest, special, id) else [];
      if rest != [] {
        SplitTextKeepsText(rest, special, id);
      } else {
        TextEmpty();
      }
      assert SplitText(s, special, id) == Before(s, special) + mark + tail;
      TextAppend(Before(s, special) + mark, tail);
      TextAppend(Before(s, special), mark);
      TextOne(mark[0]);
      CutText(s, special);
    }
  }

  lemma TextOne(f: Fragment)
    ensures Text([f]) == f.value
  {
    assert [f][1..] == [];
  }

  lemma {:induction false} SplitKeepsText(fs: seq<Fragment>, special: Bytes, id: int)
    requires special != []
    ensures Text(SplitFragments(fs, special, id)) == Text(fs)
  {
    if fs != [] {
      var first := SplitFragment(fs[0], special, id);
      SplitKeepsText(fs[1..], special, id);
      TextAppend(first, SplitFragments(fs[1..], special, id));
      if |fs[0].ids| > 0 {
        assert first[1..] == [];
      } else {
        SplitTextKeepsText(fs[0].value, special, id);
      }
    }
  }
}
