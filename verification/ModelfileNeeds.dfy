/** A value that does not stand for itself is never read back, whatever follows it. */
module ModelfileNeeds {
  import opened Helpers
  import opened ModelfileText
  import opened ModelfileQuotes

  // -------------------------------------------------------- a value cut short

  /** A value that does not stay open ends at some newline inside. */
  lemma {:induction false} EndsInside(p: char -> bool, b: string, x: string, y: string) returns (i: nat)
    requires !Open(p, b, x)
    ensures i < |x| && Held(b + Kept(p, x[..i])).Some?
    ensures FirstValue(p, b, x + y) == Held(b + Kept(p, x[..i]))
    decreases |x|
  {
    hide Held, KeptOne, Newline;
    assert (x + y)[1..] == x[1..] + y;
    if Newline(x[0]) && Held(b).Some? {
      i := 0;
      assert b + Kept(p, x[..0]) == b;
    } else {
      hide Kept;
      i := EndsInside(p, b + KeptOne(p, x[0]), x[1..], y);
      KeptStep(p, b, x, i);
      i := i + 1;
    }
  }

  lemma KeptStep(p: char -> bool, b: string, x: string, i: nat)
    requires i < |x|
    ensures b + KeptOne(p, x[0]) + Kept(p, x[1..][..i]) == b + Kept(p, x[..i + 1])
  {
    hide KeptOne;
    assert x[..i + 1][0] == x[0] && x[..i + 1][1..] == x[1..][..i];
    Regroup(b, KeptOne(p, x[0]), Kept(p, x[1..][..i]));
  }

  /** A value that stays open and is held at its end is what is read. */
  lemma EndsAtNewline(p: char -> bool, q: string, rest: string)
    requires Open(p, "", q) && Held(Kept(p, q)).Some?
    ensures FirstValue(p, "", q + ("\n" + rest)) == Held(Kept(p, q))
  {
    hide Held, Open;
    FirstValueSkips(p, "", q, "\n" + rest);
    assert "" + Kept(p, q) == Kept(p, q);
  }

  // ------------------------------------------------------ a value that goes on

  function Breaks(s: string): nat {
    if s == "" then 0 else (if Newline(s[0]) then 1 else 0) + Breaks(s[1..])
  }

  lemma {:induction false} BreaksAppend(s: string, t: string)
    ensures Breaks(s + t) == Breaks(s) + Breaks(t)
  {
    if s == "" {
      assert s + t == t;
    } else {
      assert (s + t)[1..] == s[1..] + t;
      BreaksAppend(s[1..], t);
    }
  }

  lemma {:induction false} BreaksKept(p: char -> bool, s: string)
    ensures Breaks(Kept(p, s)) == Breaks(s)
  {
    if s != "" {
      BreaksKept(p, s[1..]);
      BreaksAppend(KeptOne(p, s[0]), Kept(p, s[1..]));
    }
  }

  /** No newline is lost when leading white space is trimmed. */
  ghost predicate LeadFree(b: string) {
    Breaks(TrimLeft(b)) == Breaks(b)
  }

  lemma LeadFreeOne(p: char -> bool, b: string, r: char)
    requires LeadFree(b) && (Newline(r) ==> Held(b).None?)
    ensures LeadFree(b + KeptOne(p, r))
  {
    var k := KeptOne(p, r);
    TrimLeftAppend(b, k);
    BreaksAppend(b, k);
    BreaksAppend(TrimLeft(b), k);
    assert k == "" ==> b + k == b;
    assert k != "" ==> k[1..] == "" && TrimLeft(k) == if Space(r) then "" else k;
  }

  lemma {:induction false} OpenIsLeadFree(p: char -> bool, x: string, n: nat)
    requires n <= |x| && Open(p, "", x)
    ensures LeadFree(Kept(p, x[..n]))
  {
    if n != 0 {
      var m := n - 1;
      OpenIsLeadFree(p, x, m);
      OpenEverywhere(p, "", x);
      assert OpenAt(p, "", x, m);
      assert "" + Kept(p, x[..m]) == Kept(p, x[..m]);
      LeadFreeOne(p, Kept(p, x[..m]), x[m]);
      hide Open, Held, LeadFree;
      assert x[..n] == x[..m] + [x[m]];
      KeptAppend(p, x[..m], [x[m]]);
      assert Kept(p, [x[m]]) == KeptOne(p, x[m]);
    }
  }

  /** What is read in the end is held after something has been added. */
  lemma {:induction false} HeldLater(p: char -> bool, b: string, x: string) returns (w: string)
    requires FirstValue(p, b, x).Some?
    ensures FirstValue(p, b, x) == Held(b + w)
    decreases |x|
  {
    hide Held;
    if x == "" || (Newline(x[0]) && Held(b).Some?) {
      w := "";
      assert b + w == b;
    } else {
      w := HeldLater(p, b + KeptOne(p, x[0]), x[1..]);
      assert b + KeptOne(p, x[0]) + w == b + (KeptOne(p, x[0]) + w);
      w := KeptOne(p, x[0]) + w;
    }
  }

  lemma HeldBreaks(b: string)
    requires Held(b).Some?
    ensures Breaks(Held(b).value) == Breaks(Trim(b))
  {
    hide Trim;
    var t := Trim(b);
    if StartsTriple(t) {
      UnquotedBreaks(t, 3);
    } else if t != "" && t[0] == '"' {
      UnquotedBreaks(t, 1);
    }
  }

  lemma InThree(t: string, i: nat, j: nat)
    requires i <= j <= |t|
    ensures t == t[..i] + (t[i..j] + t[j..])
  {
  }

  lemma UnquotedBreaks(t: string, n: nat)
    requires 2 * n <= |t| && (n == 1 || n == 3)
    requires forall i | 0 <= i < |t| && (i < n || |t| - n <= i) :: t[i] == '"'
    ensures Breaks(t[n..|t| - n]) == Breaks(t)
  {
    hide Breaks;
    var a, k, c := t[..n], t[n..|t| - n], t[|t| - n..];
    InThree(t, n, |t| - n);
    BreaksAppend(a, k + c);
    BreaksAppend(k, c);
    NoBreaks(a);
    NoBreaks(c);
  }

  lemma {:induction false} NoBreaks(s: string)
    requires forall i | 0 <= i < |s| :: !Newline(s[i])
    ensures Breaks(s) == 0
  {
    if s != "" {
      NoBreaks(s[1..]);
    }
  }

  /** An open value keeps the newlines it has, however it goes on. */
  lemma OpenKeepsBreaks(b: string, w: string)
    requires LeadFree(b) && Held(b).None? && Held(b + w).Some?
    ensures Breaks(Held(b + w).value) >= Breaks(b)
  {
    HeldBreaks(b + w);
    TrimLeftAppend(b, w);
    TrimRightAppend(TrimLeft(b), w);
    BreaksAppend(TrimLeft(b), TrimRight(w));
  }

  /** A value with open quotes swallows the newline behind it. */
  lemma NeverClosed(p: char -> bool, s: string, rest: string)
    requires Open(p, "", s) && Held(Kept(p, s)).None?
    ensures FirstValue(p, "", s + ("\n" + rest)) != Some(s)
  {
    var k := Kept(p, s);
    var b := k + "\n";
    FirstValueSkips(p, "", s, "\n" + rest);
    assert "" + k == k;
    assert ("\n" + rest)[1..] == rest && KeptOne(p, '\n') == "\n";
    assert FirstValue(p, "", s + ("\n" + rest)) == FirstValue(p, b, rest);
    if FirstValue(p, b, rest) == Some(s) {
      var w := HeldLater(p, b, rest);
      OpenIsLeadFree(p, s, |s|);
      assert s[..|s|] == s;
      SwallowedBreak(k);
      OpenKeepsBreaks(b, w);
      BreaksKept(p, s);
      BreaksAppend(k, "\n");
    }
  }

  lemma SwallowedBreak(k: string)
    requires LeadFree(k) && Held(k).None?
    ensures LeadFree(k + "\n") && Held(k + "\n").None?
  {
    assert TrimLeft(k) != "";
    TrimLeftAppend(k, "\n");
    assert TrimRight("\n") == "" by {
      assert "\n"[..0] == "";
    }
    TrimRightAppend(TrimLeft(k), "\n");
    BreaksAppend(k, "\n");
    BreaksAppend(TrimLeft(k), "\n");
  }

  // ---------------------------------------------------------------- main result

  lemma PlainNeeded(p: char -> bool, s: string, rest: string)
    requires FirstValue(p, "", s + ("\n" + rest)) == Some(s)
    ensures StandsFor(p, s, s)
  {
    hide Held, Open, FirstValue;
    if !Open(p, "", s) {
      var i := EndsInside(p, "", s, "\n" + rest);
      assert false;
    } else if Held(Kept(p, s)).None? {
      NeverClosed(p, s, rest);
    } else {
      EndsAtNewline(p, s, rest);
    }
  }

  lemma TripleShortens(b: string)
    ensures Held(TRIPLE + b).Some? ==> |Held(TRIPLE + b).value| + 3 <= |b|
  {
    TrimQuoted(TRIPLE, b);
  }

  lemma QuotedNeeded(p: char -> bool, open: string, s: string, rest: string)
    requires Printing(p) && (open == TRIPLE || (open == "\"" && '"' !in s))
    requires FirstValue(p, "", open + s + open + ("\n" + rest)) == Some(s)
    ensures StandsFor(p, open + s + open, s)
  {
    hide Held, Open, FirstValue, Printing;
    var q := open + s + open;
    QuotedParts(p, open, s);
    KeptHasNoQuoteIf(p, s);
    UnquoteQuoted(open, Kept(p, s));
    if Open(p, open, s) {
      EndsAtNewline(p, q, rest);
    } else if open == TRIPLE {
      TripleNotShort(p, s, rest);
    } else {
      SingleIsOpen(p, s);
    }
  }

  lemma KeptHasNoQuoteIf(p: char -> bool, s: string)
    ensures '"' !in s ==> '"' !in Kept(p, s)
  {
    if '"' !in s {
      KeptHasNoQuote(p, s);
    }
  }

  lemma TripleNotShort(p: char -> bool, s: string, rest: string)
    requires Printing(p) && !Open(p, TRIPLE, s)
    ensures FirstValue(p, "", TRIPLE + s + TRIPLE + ("\n" + rest)) != Some(s)
  {
    hide Held, Open, FirstValue, Printing;
    var more := TRIPLE + ("\n" + rest);
    OpenWithoutNewline(p, "", TRIPLE);
    KeptQuotes(p, TRIPLE);
    FirstValueSkips(p, "", TRIPLE, s + more);
    assert "" + TRIPLE == TRIPLE;
    assert TRIPLE + (s + more) == TRIPLE + s + TRIPLE + ("\n" + rest);
    var i := EndsInside(p, TRIPLE, s, more);
    TripleShortens(Kept(p, s[..i]));
  }

  /** If the first value read from printed text, with anything behind it, is the
      value that was printed, then the text stands for the value by itself. */
  lemma ValueNeeded(p: char -> bool, q: string, s: string, rest: string)
    requires Printing(p) && (q == s || q == Quote(s))
    requires FirstValue(p, "", q + ("\n" + rest)) == Some(s)
    ensures StandsFor(p, q, s)
  {
    hide Printing, FirstValue, StandsFor;
    if q == s {
      PlainNeeded(p, s, rest);
    } else if '"' in s {
      QuotedNeeded(p, TRIPLE, s, rest);
    } else {
      QuotedNeeded(p, "\"", s, rest);
    }
  }
}
