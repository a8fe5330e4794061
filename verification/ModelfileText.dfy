/** Quoting and unquoting of the values in a Modelfile. Text is a sequence of runes. */
module ModelfileText {
  import opened Helpers

  // ------------------------------------------------------------ classes of runes

  predicate Alpha(r: char) {
    'a' <= r <= 'z' || 'A' <= r <= 'Z'
  }

  predicate Number(r: char) {
    '0' <= r <= '9'
  }

  predicate Blank(r: char) {
    r == ' ' || r == '\t'
  }

  predicate Newline(r: char) {
    r == '\r' || r == '\n'
  }

  /** White space as Unicode has it, which is what is trimmed. */
  predicate Space(r: char) {
    '\t' <= r <= '\r' || r == ' ' || r == '\U{85}' || r == '\U{A0}' || r == '\U{1680}' ||
    '\U{2000}' <= r <= '\U{200A}' || r == '\U{2028}' || r == '\U{2029}' || r == '\U{202F}' ||
    r == '\U{205F}' || r == '\U{3000}'
  }

  /** What is printable is a parameter; among the ASCII runes it is the range from the
      space to the tilde, and no white space but the space itself is printable. */
  ghost predicate Printing(p: char -> bool) {
    forall c: char :: (c < 128 as char ==> (p(c) <==> ' ' <= c <= '~')) && (p(c) && c != ' ' ==> !Space(c))
  }

  // ------------------------------------------------------------------- trimming

  function TrimLeft(s: string): (r: string)
    ensures |r| <= |s|
    ensures r != "" ==> !Space(r[0])
  {
    if s != "" && Space(s[0]) then TrimLeft(s[1..]) else s
  }

  function TrimRight(s: string): (r: string)
    ensures |r| <= |s| && r == s[..|r|]
    ensures r != "" ==> !Space(r[|r| - 1])
  {
    if s != "" && Space(s[|s| - 1]) then TrimRight(s[..|s| - 1]) else s
  }

  function Trim(s: string): (r: string)
    ensures |r| <= |s|
  {
    TrimRight(TrimLeft(s))
  }

  predicate AllSpace(s: string) {
    forall i | 0 <= i < |s| :: Space(s[i])
  }

  lemma {:induction false} TrimLeftSpaces(s: string)
    ensures AllSpace(s) <==> TrimLeft(s) == ""
  {
    if s != "" && Space(s[0]) {
      TrimLeftSpaces(s[1..]);
      assert AllSpace(s) <==> AllSpace(s[1..]) by {
        if AllSpace(s[1..]) {
          assert forall i | 0 <= i < |s| :: i > 0 ==> s[i] == s[1..][i - 1];
        }
      }
    }
  }

  lemma {:induction false} TrimLeftAppend(s: string, t: string)
    ensures TrimLeft(s + t) == if TrimLeft(s) == "" then TrimLeft(t) else TrimLeft(s) + t
  {
    if s == "" {
      assert s + t == t;
    } else if Space(s[0]) {
      assert (s + t)[1..] == s[1..] + t;
      TrimLeftAppend(s[1..], t);
    }
  }

  lemma {:induction false} TrimRightAppend(s: string, t: string)
    ensures TrimRight(s + t) == if TrimRight(t) == "" then TrimRight(s) else s + TrimRight(t)
  {
    if t == "" {
      assert s + t == s;
    } else if Space(t[|t| - 1]) {
      assert (s + t)[..|s + t| - 1] == s + t[..|t| - 1];
      TrimRightAppend(s, t[..|t| - 1]);
    }
  }

  /** Nothing is trimmed from text that starts and ends with something else than white space. */
  lemma TrimNothing(s: string)
    ensures Trim(s) == s <==> (s == "" || (!Space(s[0]) && !Space(s[|s| - 1])))
  {
    if s != "" && Space(s[0]) {
      assert |TrimLeft(s)| < |s|;
    }
  }

  // -------------------------------------------------------------------- quoting

  const TRIPLE: string := "\"\"\""

  predicate StartsTriple(s: string) {
    |s| >= 3 && s[0] == '"' && s[1] == '"' && s[2] == '"'
  }

  predicate EndsTriple(s: string) {
    |s| >= 3 && s[|s| - 1] == '"' && s[|s| - 2] == '"' && s[|s| - 3] == '"'
  }

  predicate NeedsQuotes(s: string) {
    '\n' in s || (s != "" && (s[0] == ' ' || s[|s| - 1] == ' '))
  }

  function Quote(s: string): string {
    if !NeedsQuotes(s) then s
    else if '"' in s then TRIPLE + s + TRIPLE
    else "\"" + s + "\""
  }

  function Unquote(s: string): (r: Option<string>)
    ensures r.Some? ==> |r.value| <= |s|
  {
    if StartsTriple(s) then
      if |s| >= 6 && EndsTriple(s) then Some(s[3..|s| - 3]) else None
    else if |s| >= 1 && s[0] == '"' then
      if |s| >= 2 && s[|s| - 1] == '"' then Some(s[1..|s| - 1]) else None
    else Some(s)
  }

  /** The value that a buffer holds, if its quotes are closed. */
  function Held(b: string): (r: Option<string>)
    ensures r.Some? ==> |r.value| <= |b|
  {
    Unquote(Trim(b))
  }

  // ------------------------------------------------- reading a value rune by rune

  /** What is kept of a rune inside a value. */
  predicate Keeps(p: char -> bool, r: char) {
    p(r) || Blank(r) || Newline(r)
  }

  function Kept(p: char -> bool, x: string): (r: string)
    ensures |r| <= |x|
  {
    if x == "" then "" else KeptOne(p, x[0]) + Kept(p, x[1..])
  }

  function KeptOne(p: char -> bool, r: char): (k: string)
    ensures |k| <= 1
  {
    if Keeps(p, r) then [r] else []
  }

  predicate AllKept(p: char -> bool, x: string) {
    forall i | 0 <= i < |x| :: Keeps(p, x[i])
  }

  lemma {:induction false} KeptAppend(p: char -> bool, x: string, y: string)
    ensures Kept(p, x + y) == Kept(p, x) + Kept(p, y)
  {
    if x == "" {
      assert x + y == y;
    } else {
      hide KeptOne;
      assert (x + y)[1..] == x[1..] + y;
      KeptAppend(p, x[1..], y);
      assert KeptOne(p, x[0]) + Kept(p, x[1..]) + Kept(p, y) == KeptOne(p, x[0]) + (Kept(p, x[1..]) + Kept(p, y));
    }
  }

  /** A buffer comes out as it went in exactly when everything in it is kept. */
  lemma {:induction false} KeptAll(p: char -> bool, x: string)
    ensures AllKept(p, x) <==> |Kept(p, x)| == |x|
    ensures AllKept(p, x) ==> Kept(p, x) == x
  {
    if x != "" {
      KeptAll(p, x[1..]);
      assert x == [x[0]] + x[1..];
      assert AllKept(p, x) <==> Keeps(p, x[0]) && AllKept(p, x[1..]) by {
        if Keeps(p, x[0]) && AllKept(p, x[1..]) {
          assert forall i | 0 <= i < |x| :: i > 0 ==> x[i] == x[1..][i - 1];
        }
      }
    }
  }

  /** Reading x, with b before it, does not complete the value at any newline in x. */
  predicate Open(p: char -> bool, b: string, x: string)
    decreases |x|
  {
    x == "" ||
    ((Newline(x[0]) ==> Held(b).None?) && Open(p, b + KeptOne(p, x[0]), x[1..]))
  }

  lemma {:induction false} OpenAppend(p: char -> bool, b: string, x: string, y: string)
    ensures Open(p, b, x + y) <==> Open(p, b, x) && Open(p, b + Kept(p, x), y)
    decreases |x|
  {
    if x == "" {
      assert x + y == y && b + Kept(p, x) == b;
    } else {
      assert (x + y)[1..] == x[1..] + y && x == [x[0]] + x[1..];
      assert b + KeptOne(p, x[0]) + Kept(p, x[1..]) == b + Kept(p, x);
      OpenAppend(p, b + KeptOne(p, x[0]), x[1..], y);
    }
  }

  /** The first value that is completed when x is read, with b before it: at a
      newline, or at the end. */
  function FirstValue(p: char -> bool, b: string, x: string): Option<string>
    decreases |x|
  {
    if x == "" then Held(b)
    else if Newline(x[0]) && Held(b).Some? then Held(b)
    else FirstValue(p, b + KeptOne(p, x[0]), x[1..])
  }

  lemma {:induction false} FirstValueSkips(p: char -> bool, b: string, x: string, y: string)
    requires Open(p, b, x)
    ensures FirstValue(p, b, x + y) == FirstValue(p, b + Kept(p, x), y)
    decreases |x|
  {
    if x == "" {
      assert x + y == y && b + Kept(p, x) == b;
    } else {
      assert (x + y)[1..] == x[1..] + y && x == [x[0]] + x[1..];
      assert b + KeptOne(p, x[0]) + Kept(p, x[1..]) == b + Kept(p, x);
      FirstValueSkips(p, b + KeptOne(p, x[0]), x[1..], y);
    }
  }

  /** Text q stands for the value s: reading it goes on to its end, and then the
      buffer holds s. */
  predicate StandsFor(p: char -> bool, q: string, s: string) {
    Open(p, "", q) && Held(Kept(p, q)) == Some(s)
  }
}
