/** Which values are read back from the way they are printed. */
module ModelfileQuotes {
  import opened Helpers
  import opened ModelfileText

  // ------------------------------------------------------------ without quotes

  /** A value that can be printed as it is. */
  predicate PlainOk(p: char -> bool, s: string) {
    && (forall i | 0 <= i < |s| :: Keeps(p, s[i]) && !Newline(s[i]))
    && (s != "" ==> s[0] != '"' && !Blank(s[0]) && !Blank(s[|s| - 1]))
  }

  lemma {:induction false} OpenWithoutNewline(p: char -> bool, b: string, x: string)
    requires forall i | 0 <= i < |x| :: !Newline(x[i])
    ensures Open(p, b, x)
    decreases |x|
  {
    if x != "" {
      OpenWithoutNewline(p, b + KeptOne(p, x[0]), x[1..]);
    }
  }

  /** The value is not complete at the i-th rune. */
  predicate OpenAt(p: char -> bool, b: string, x: string, i: nat)
    requires i < |x|
  {
    Newline(x[i]) ==> Held(b + Kept(p, x[..i])).None?
  }

  lemma OpenOne(p: char -> bool, b: string, r: char)
    ensures Open(p, b, [r]) <==> (Newline(r) ==> Held(b).None?)
  {
    hide Held;
    assert [r][1..] == "";
  }

  lemma {:induction false} OpenPrefix(p: char -> bool, b: string, x: string, n: nat)
    requires n <= |x|
    ensures Open(p, b, x[..n]) <==> forall i | 0 <= i < n :: OpenAt(p, b, x, i)
  {
    hide Held, Kept, Newline;
    if n != 0 {
      var m := n - 1;
      OpenPrefix(p, b, x, m);
      OpenAppend(p, b, x[..m], [x[m]]);
      assert x[..n] == x[..m] + [x[m]];
      OpenOne(p, b + Kept(p, x[..m]), x[m]);
      assert OpenAt(p, b, x, m) <==> Open(p, b + Kept(p, x[..m]), [x[m]]);
    }
  }

  /** A value stays open while x is read exactly when it is open at each newline. */
  lemma OpenEverywhere(p: char -> bool, b: string, x: string)
    ensures Open(p, b, x) <==> forall i | 0 <= i < |x| :: OpenAt(p, b, x, i)
  {
    OpenPrefix(p, b, x, |x|);
    assert x[..|x|] == x;
  }

  lemma VisibleHolds(b: string)
    requires b != "" && b[0] != '"' && !Space(b[0])
    ensures Held(b) == Some(TrimRight(b)) && TrimRight(b) != ""
  {
    TrimRightAppend(b[..1], b[1..]);
    assert b == b[..1] + b[1..];
    assert TrimRight(b[..1]) == b[..1];
  }

  lemma PlainIsRead(p: char -> bool, s: string)
    requires Printing(p) && PlainOk(p, s)
    ensures StandsFor(p, s, s)
  {
    KeptAll(p, s);
    TrimNothing(s);
    OpenWithoutNewline(p, "", s);
    hide Trim, Open, Kept;
  }

  lemma PlainIsNeeded(p: char -> bool, s: string)
    requires StandsFor(p, s, s)
    ensures PlainOk(p, s)
  {
    hide Trim, Kept, Open;
    KeptAll(p, s);
    SameLength(p, s);
    TrimNothing(s);
    OpenEverywhere(p, "", s);
    forall i | 0 <= i < |s|
      ensures !Newline(s[i])
    {
      assert OpenAt(p, "", s, i);
      KeptPart(p, s, i);
      if i > 0 {
        VisibleHolds(s[..i]);
        assert "" + s[..i] == s[..i];
      }
    }
  }

  lemma KeptPart(p: char -> bool, s: string, i: nat)
    requires AllKept(p, s) && i <= |s|
    ensures Kept(p, s[..i]) == s[..i]
  {
    KeptAll(p, s[..i]);
  }

  /** Nothing that a value loses on the way comes back. */
  lemma SameLength(p: char -> bool, s: string)
    requires Held(Kept(p, s)) == Some(s)
    ensures |Kept(p, s)| == |s| && Trim(Kept(p, s)) == Kept(p, s)
    ensures s != "" ==> Kept(p, s)[0] != '"'
  {
    hide Trim, Kept, TrimLeft, TrimRight;
    TrimSame(Kept(p, s));
  }

  lemma TrimSame(s: string)
    ensures |Trim(s)| == |s| ==> Trim(s) == s
  {
    assert TrimLeft(s) == s || |TrimLeft(s)| < |s|;
  }

  lemma PlainStands(p: char -> bool, s: string)
    requires Printing(p)
    ensures StandsFor(p, s, s) <==> PlainOk(p, s)
  {
    hide StandsFor, PlainOk, Printing;
    if PlainOk(p, s) {
      PlainIsRead(p, s);
    }
    if StandsFor(p, s, s) {
      PlainIsNeeded(p, s);
    }
  }

  // --------------------------------------------------------------- in quotes

  /** What is printed between triple quotes must not have triple quotes of its own
      before a newline, or before white space that a newline follows. */
  predicate NoEarlyClose(s: string) {
    forall i | 0 <= i < |s| :: Newline(s[i]) ==> !EndsTriple(TrimRight(s[..i]))
  }

  predicate QuoteOk(p: char -> bool, s: string) {
    if !NeedsQuotes(s) then PlainOk(p, s)
    else AllKept(p, s) && ('"' in s ==> NoEarlyClose(s))
  }

  /** Trimming stops at quotes. */
  lemma TrimQuoted(open: string, b: string)
    requires open != "" && forall i | 0 <= i < |open| :: open[i] == '"'
    ensures Trim(open + b) == open + TrimRight(b)
  {
    assert !Space((open + b)[0]);
    TrimRightAppend(open, b);
    assert TrimRight(open) == open;
  }

  lemma KeptQuotes(p: char -> bool, open: string)
    requires Printing(p) && (open == "\"" || open == TRIPLE)
    ensures Kept(p, open) == open
  {
    KeptAll(p, open);
  }

  lemma {:induction false} KeptHasNoQuote(p: char -> bool, x: string)
    requires '"' !in x
    ensures '"' !in Kept(p, x)
  {
    if x != "" {
      KeptHasNoQuote(p, x[1..]);
    }
  }

  lemma SingleStaysOpen(p: char -> bool, b: string)
    requires '"' !in b
    ensures Held("\"" + b).None?
  {
    TrimQuoted("\"", b);
    assert TrimRight(b) == b[..|TrimRight(b)|];
    assert '"' !in TrimRight(b);
  }

  /** The text in quotes: its opening, what is inside, and its closing quotes. */
  lemma QuotedParts(p: char -> bool, open: string, s: string)
    requires Printing(p) && (open == "\"" || open == TRIPLE)
    ensures Kept(p, open + s + open) == open + Kept(p, s) + open
    ensures Open(p, "", open + s + open) <==> Open(p, open, s)
  {
    KeptQuotes(p, open);
    KeptAppend(p, open, s);
    KeptAppend(p, open + s, open);
    OpenAppend(p, "", open + s, open);
    OpenAppend(p, "", open, s);
    OpenWithoutNewline(p, "", open);
    OpenWithoutNewline(p, "" + Kept(p, open + s), open);
    assert "" + Kept(p, open) == open;
  }

  lemma UnquoteQuoted(open: string, k: string)
    requires open == TRIPLE || (open == "\"" && '"' !in k)
    ensures Held(open + k + open) == Some(k)
  {
    var q := open + k + open;
    TrimNothing(q);
    assert q[|open|..|q| - |open|] == k;
    assert open == "\"" && |q| >= 3 && k != "" ==> q[1] == k[0];
  }

  lemma SingleStands(p: char -> bool, s: string)
    requires Printing(p) && '"' !in s
    ensures StandsFor(p, "\"" + s + "\"", s) <==> AllKept(p, s)
  {
    QuotedParts(p, "\"", s);
    KeptHasNoQuote(p, s);
    UnquoteQuoted("\"", Kept(p, s));
    KeptAll(p, s);
    SingleIsOpen(p, s);
  }

  lemma SingleIsOpen(p: char -> bool, s: string)
    requires '"' !in s
    ensures Open(p, "\"", s)
  {
    OpenEverywhere(p, "\"", s);
    forall i | 0 <= i < |s|
      ensures OpenAt(p, "\"", s, i)
    {
      KeptHasNoQuote(p, s[..i]);
      SingleStaysOpen(p, Kept(p, s[..i]));
    }
  }

  lemma TripleHeld(b: string)
    ensures Held(TRIPLE + b).None? <==> !EndsTriple(TrimRight(b))
  {
    hide Trim, TrimRight, EndsTriple;
    TrimQuoted(TRIPLE, b);
    EndsTripleAfter(TrimRight(b));
  }

  lemma EndsTripleAfter(t: string)
    ensures EndsTriple(t) <==> |TRIPLE + t| >= 6 && EndsTriple(TRIPLE + t)
  {
  }

  lemma TripleIsOpen(p: char -> bool, s: string)
    requires AllKept(p, s)
    ensures Open(p, TRIPLE, s) <==> NoEarlyClose(s)
  {
    hide Held, Kept, Open, TrimRight, EndsTriple;
    OpenEverywhere(p, TRIPLE, s);
    forall i | 0 <= i < |s|
      ensures OpenAt(p, TRIPLE, s, i) <==> (Newline(s[i]) ==> !EndsTriple(TrimRight(s[..i])))
    {
      KeptPart(p, s, i);
      TripleHeld(s[..i]);
    }
  }

  lemma TripleStands(p: char -> bool, s: string)
    requires Printing(p)
    ensures StandsFor(p, TRIPLE + s + TRIPLE, s) <==> AllKept(p, s) && NoEarlyClose(s)
  {
    QuotedParts(p, TRIPLE, s);
    UnquoteQuoted(TRIPLE, Kept(p, s));
    KeptAll(p, s);
    if AllKept(p, s) {
      TripleIsOpen(p, s);
    }
  }

  /** A value is read back from the way it is quoted exactly when it is fit for it. */
  lemma QuoteStands(p: char -> bool, s: string)
    requires Printing(p)
    ensures StandsFor(p, Quote(s), s) <==> QuoteOk(p, s)
  {
    hide StandsFor, PlainOk, AllKept, NoEarlyClose, Printing;
    if !NeedsQuotes(s) {
      PlainStands(p, s);
    } else if '"' in s {
      TripleStands(p, s);
    } else {
      SingleStands(p, s);
    }
  }
}
