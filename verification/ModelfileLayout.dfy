/** Modelfiles as people write them: comments, blank lines, keywords in any letter
    case, values quoted or not, with or without a newline at the end. */
module ModelfileLayout {
  import opened Helpers
  import opened ModelfileText
  import opened ModelfileQuotes
  import opened ModelfileNeeds
  import opened ModelfileParser
  import opened ModelfileProofs

  // --------------------------------------------------------------------- grammar

  /** The same letters, in any case; key is in lower case. */
  predicate SameLetters(word: string, key: string) {
    |word| == |key| && forall i | 0 <= i < |word| :: word[i] == key[i] || word[i] as int + 32 == key[i] as int
  }

  predicate IsBlank(r: char) {
    r == ' ' || r == '\t'
  }

  predicate IsNewline(r: char) {
    r == '\n' || r == '\r'
  }

  predicate NameRune(r: char) {
    'a' <= r <= 'z' || 'A' <= r <= 'Z' || '0' <= r <= '9' || r == '_'
  }

  /** What comes before the value of a command. */
  datatype Head =
    | From(word: string, blank: char)
    | Label(word: string, key: string, blank: char)
    | Named(word: string, blank: char, name: string, blank2: char)
    | Said(word: string, blank: char, role: string, blank2: char)
  {
    predicate Ok() {
      && IsBlank(blank)
      && match this
         case From(word, _) => SameLetters(word, "from")
         case Label(word, key, _) => key in {"license", "template", "system", "adapter"} && SameLetters(word, key)
         case Named(word, _, name, blank2) =>
           SameLetters(word, "parameter") && (forall i | 0 <= i < |name| :: NameRune(name[i])) && IsBlank(blank2)
         case Said(word, _, role, blank2) =>
           SameLetters(word, "message") && role in {"system", "user", "assistant"} && IsBlank(blank2)
    }

    function Text(): string {
      match this
      case From(word, blank) => word + [blank]
      case Label(word, _, blank) => word + [blank]
      case Named(word, blank, name, blank2) => word + [blank] + (name + [blank2])
      case Said(word, blank, role, blank2) => word + [blank] + (role + [blank2])
    }

    /** The command with this head, and a value. */
    function With(value: string): Command {
      match this
      case From(_, _) => Command("model", value)
      case Label(_, key, _) => Command(key, value)
      case Named(_, _, name, _) => Command(name, value)
      case Said(_, _, role, _) => Command("message", role + ": " + value)
    }
  }

  /** A comment up to the end of its line, one rune of white space, or a command whose
      value is written as text. */
  datatype Item =
    | Note(comment: string, end: char)
    | Gap(space: char)
    | Entry(head: Head, text: string, value: string, end: char)
  {
    ghost predicate Ok(p: char -> bool) {
      match this
      case Note(comment, end) => (forall i | 0 <= i < |comment| :: !IsNewline(comment[i])) && IsNewline(end)
      case Gap(space) => IsBlank(space) || IsNewline(space)
      case Entry(head, text, value, end) => head.Ok() && StandsFor(p, text, value) && IsNewline(end)
    }

    /** The text without its last rune. */
    function Start(): string {
      match this
      case Note(comment, _) => "#" + comment
      case Gap(_) => ""
      case Entry(head, text, _, _) => head.Text() + text
    }

    function Last(): char {
      match this
      case Note(_, end) => end
      case Gap(space) => space
      case Entry(_, _, _, end) => end
    }

    function Commands(): seq<Command> {
      if Entry? then [head.With(value)] else []
    }
  }

  function TextOf(items: seq<Item>): string {
    if items == [] then ""
    else
      var last := items[|items| - 1];
      TextOf(items[..|items| - 1]) + (last.Start() + [last.Last()])
  }

  function CommandsOf(items: seq<Item>): seq<Command> {
    if items == [] then [] else CommandsOf(items[..|items| - 1]) + items[|items| - 1].Commands()
  }

  // ----------------------------------------------------------------- single items

  lemma SameLower(word: string, key: string)
    requires SameLetters(word, key) && forall i | 0 <= i < |key| :: 'a' <= key[i] <= 'z'
    ensures Lower(word) == key && forall i | 0 <= i < |word| :: Alpha(word[i])
  {
    forall i | 0 <= i < |word|
      ensures LowerOne(word[i]) == key[i] && Alpha(word[i])
    {
    }
  }

  /** t is behind the head, at the beginning of the value. */
  ghost predicate LeadsTo(s: State, h: Head, t: State) {
    && t.phase == Value && t.b == "" && t.line == s.line && t.commands == s.commands
    && forall value :: Command(t.name, WithRole(t.role, value)) == h.With(value)
  }

  lemma HeadLeads(p: char -> bool, s: State, h: Head)
    requires Printing(p) && Ready(s) && h.Ok()
    ensures Run(p, s, h.Text()).Ok? && LeadsTo(s, h, Run(p, s, h.Text()).value)
  {
    hide Printing, Run, Lower;
    match h {
      case From(word, blank) =>
        SameLower(word, "from");
        HeadRunTo(p, s, word, blank);
      case Label(word, key, blank) =>
        SameLower(word, key);
        HeadRunTo(p, s, word, blank);
      case Named(word, blank, name, blank2) =>
        SameLower(word, "parameter");
        HeadRunTo(p, s, word, blank);
        NameRun(p, AfterHead(s, "parameter"), name, blank2);
        RunAppend(p, s, word + [blank], name + [blank2]);
      case Said(word, blank, role, blank2) =>
        SameLower(word, "message");
        HeadRunTo(p, s, word, blank);
        RoleRun(p, AfterHead(s, "message"), role, blank2);
        RunAppend(p, s, word + [blank], role + [blank2]);
    }
  }

  lemma CommentStarts(p: char -> bool, s: State)
    requires Printing(p) && Ready(s)
    ensures Run(p, s, "#") == Ok(s.(phase := Comment))
  {
    Prints(p, ZERO);
    hide Printing;
    RunOne(p, s, '#');
  }

  lemma {:induction false} CommentRuns(p: char -> bool, s: State, comment: string)
    requires Printing(p) && s.phase == Comment && s.b == ""
    requires forall i | 0 <= i < |comment| :: !IsNewline(comment[i])
    ensures Run(p, s, comment) == Ok(s)
  {
    if comment != "" {
      Prints(p, ZERO);
      assert s.b + Printed(p, ZERO) == s.b;
      assert Step(p, s, comment[0]) == Ok(s);
      hide Printing, Step;
      CommentRuns(p, s, comment[1..]);
    }
  }

  lemma CommentEnds(p: char -> bool, s: State, end: char)
    requires Printing(p) && s.phase == Comment && s.b == "" && IsNewline(end)
    ensures Run(p, s, [end]) == Ok(s.(phase := Nil, line := s.line + 1))
  {
    Prints(p, ZERO);
    hide Printing;
    RunOne(p, s, end);
  }

  lemma GapStep(p: char -> bool, s: State, space: char)
    requires Printing(p) && Ready(s) && (IsBlank(space) || IsNewline(space))
    ensures Step(p, s, space) == Ok(s.(line := s.line + if IsNewline(space) then 1 else 0))
  {
    Prints(p, ZERO);
    hide Printing;
    assert s.b + "" == s.b;
  }

  lemma GapRuns(p: char -> bool, s: State, space: char)
    requires Printing(p) && Ready(s) && (IsBlank(space) || IsNewline(space))
    ensures Run(p, s, [space]) == Ok(s.(line := s.line + Breaks([space])))
  {
    hide Printing, Step, Run;
    assert [space][1..] == "";
    GapStep(p, s, space);
    RunOne(p, s, space);
  }

  lemma NoteStarts(p: char -> bool, s: State, comment: string)
    requires Printing(p) && Ready(s) && forall i | 0 <= i < |comment| :: !IsNewline(comment[i])
    ensures Run(p, s, "#" + comment) == Ok(s.(phase := Comment))
  {
    hide Printing, Run;
    CommentStarts(p, s);
    CommentRuns(p, s.(phase := Comment), comment);
    RunAppend(p, s, "#", comment);
  }

  lemma EntryStarts(p: char -> bool, s: State, head: Head, text: string, value: string)
    requires Printing(p) && Ready(s) && head.Ok() && StandsFor(p, text, value)
    ensures Run(p, s, head.Text() + text).Ok?
    ensures Flush(Run(p, s, head.Text() + text).value) == Ok(s.commands + [head.With(value)])
  {
    hide Printing, Held, Open, Run, Head.Ok, Head.Text, Head.With;
    HeadLeads(p, s, head);
    var t := Run(p, s, head.Text()).value;
    RunAppend(p, s, head.Text(), text);
    assert t.b + Kept(p, text) == Kept(p, text);
    ValueRun(p, t, text);
    assert Command(t.name, WithRole(t.role, value)) == head.With(value);
  }

  lemma CommentFlushes(s: State)
    ensures Flush(s.(phase := Comment)) == Ok(s.commands + [])
  {
    assert s.commands + [] == s.commands;
  }

  lemma NothingStarts(p: char -> bool, s: State)
    requires Ready(s)
    ensures Run(p, s, "") == Ok(s) && Flush(s) == Ok(s.commands + [])
  {
    assert s.commands + [] == s.commands;
  }

  /** An item is read up to its last rune; at the end of the text that is enough. */
  lemma ItemStarts(p: char -> bool, s: State, item: Item)
    requires Printing(p) && Ready(s) && item.Ok(p)
    ensures Run(p, s, item.Start()).Ok?
    ensures Flush(Run(p, s, item.Start()).value) == Ok(s.commands + item.Commands())
  {
    hide Printing, StandsFor, Head.Ok, Head.Text, Head.With, Run;
    match item {
      case Note(comment, _) => CommentFlushes(s); NoteStarts(p, s, comment);
      case Gap(_) => NothingStarts(p, s);
      case Entry(head, text, value, _) => EntryStarts(p, s, head, text, value);
    }
  }

  /** A whole item leads back to the state between commands, with its command added
      and its lines counted. */
  lemma ItemRuns(p: char -> bool, s: State, item: Item)
    requires Printing(p) && Ready(s) && item.Ok(p)
    ensures Run(p, s, item.Start() + [item.Last()]).Ok?
    ensures var t := Run(p, s, item.Start() + [item.Last()]).value;
      Ready(t) && t.commands == s.commands + item.Commands()
      && t.line == s.line + Breaks(item.Start() + [item.Last()])
  {
    hide Printing, Run, StandsFor, Breaks, Head.Ok, Head.With, Head.Text;
    match item {
      case Note(comment, end) =>
        NoteStarts(p, s, comment);
        RunAppend(p, s, "#" + comment, [end]);
        CommentEnds(p, s.(phase := Comment), end);
        NoteBreaks(comment, end);
      case Gap(space) =>
        GapRuns(p, s, space);
        assert "" + [space] == [space];
      case Entry(head, text, value, end) =>
        EntryRuns(p, s, head, text, value, end);
    }
  }

  lemma NoteBreaks(comment: string, end: char)
    requires (forall i | 0 <= i < |comment| :: !IsNewline(comment[i])) && IsNewline(end)
    ensures Breaks("#" + comment + [end]) == 1
  {
    NoBreaks("#" + comment);
    BreaksAppend("#" + comment, [end]);
    assert [end][1..] == "";
  }

  lemma EntryRuns(p: char -> bool, s: State, head: Head, text: string, value: string, end: char)
    requires Printing(p) && Ready(s) && head.Ok() && StandsFor(p, text, value) && IsNewline(end)
    ensures Run(p, s, head.Text() + text + [end]).Ok?
    ensures var t := Run(p, s, head.Text() + text + [end]).value;
      Ready(t) && t.commands == s.commands + [head.With(value)]
      && t.line == s.line + Breaks(head.Text() + text + [end])
  {
    hide Printing, Run, StandsFor, Breaks, Head.Ok, Head.With, Head.Text;
    HeadLeads(p, s, head);
    var t := Run(p, s, head.Text()).value;
    ValueLineTo(p, t, text, value, end);
    RunAppend(p, s, head.Text(), text + [end]);
    assert head.Text() + text + [end] == head.Text() + (text + [end]);
    assert Command(t.name, WithRole(t.role, value)) == head.With(value);
    HeadBreaks(head);
    BreaksAppend(head.Text(), text + [end]);
    BreaksAppend(text, [end]);
    OneBreak(end);
  }

  lemma OneBreak(end: char)
    requires IsNewline(end)
    ensures Breaks([end]) == 1
  {
    assert [end][1..] == "";
  }

  lemma HeadBreaks(head: Head)
    requires head.Ok()
    ensures Breaks(head.Text()) == 0
  {
    hide Breaks;
    WordBreaks(head);
    NoBreaks(head.Text());
  }

  lemma WordBreaks(head: Head)
    requires head.Ok()
    ensures forall i | 0 <= i < |head.Text()| :: !Newline(head.Text()[i])
  {
    hide SameLetters;
    match head {
      case From(word, _) => Letters(word, "from");
      case Label(word, key, _) => Letters(word, key);
      case Named(word, _, _, _) => Letters(word, "parameter");
      case Said(word, _, _, _) => Letters(word, "message");
    }
  }

  lemma Letters(word: string, key: string)
    requires SameLetters(word, key) && forall i | 0 <= i < |key| :: 'a' <= key[i] <= 'z'
    ensures forall i | 0 <= i < |word| :: !Newline(word[i])
  {
  }

  // ------------------------------------------------------------------ whole files

  lemma {:induction false} ItemsRun(p: char -> bool, items: seq<Item>)
    requires Printing(p) && forall i | 0 <= i < |items| :: items[i].Ok(p)
    ensures Run(p, START, TextOf(items)).Ok?
    ensures var t := Run(p, START, TextOf(items)).value;
      Ready(t) && t.commands == CommandsOf(items) && t.line == 1 + Breaks(TextOf(items))
  {
    hide Printing, Item.Ok, Item.Start, Item.Last, Item.Commands, Run, Breaks;
    if items == [] {
      NothingRuns(p);
    } else {
      var n := |items| - 1;
      ItemsRun(p, items[..n]);
      var s := Run(p, START, TextOf(items[..n])).value;
      var more := items[n].Start() + [items[n].Last()];
      ItemRuns(p, s, items[n]);
      RunAppend(p, START, TextOf(items[..n]), more);
      BreaksAppend(TextOf(items[..n]), more);
    }
  }

  lemma NothingRuns(p: char -> bool)
    ensures Run(p, START, "") == Ok(START) && Ready(START) && Breaks("") == 0
  {
  }

  ghost function Answer(commands: seq<Command>): Outcome<seq<Command>> {
    if exists c :: c in commands && c.name == "model" then Ok(commands) else Err(MissingFrom)
  }

  lemma AnswerIs(commands: seq<Command>)
    ensures Answer(commands) == if HasModel(commands) then Ok(commands) else Err(MissingFrom)
  {
    if HasModel(commands) {
      var i :| 0 <= i < |commands| && commands[i].name == "model";
      assert commands[i] in commands;
    }
  }

  /** A Modelfile is read as the commands in it, in order, whatever comments, blank
      lines and blanks lie between them, in whatever letter case the keywords are, and
      however the values are quoted; it is refused exactly if none names the model. */
  lemma LayoutParses(p: char -> bool, items: seq<Item>)
    requires Printing(p) && forall i | 0 <= i < |items| :: items[i].Ok(p)
    ensures Parse(p, TextOf(items)) == Answer(CommandsOf(items))
  {
    hide Printing, Item.Ok, Run, Answer, HasModel;
    AnswerIs(CommandsOf(items));
    ItemsRun(p, items);
  }

  /** The last line needs no newline. */
  lemma LastLineParses(p: char -> bool, items: seq<Item>, last: Item)
    requires Printing(p) && (forall i | 0 <= i < |items| :: items[i].Ok(p)) && last.Ok(p)
    ensures Parse(p, TextOf(items) + last.Start()) == Answer(CommandsOf(items) + last.Commands())
  {
    hide Printing, Item.Ok, Run, Item.Start, Item.Commands, Flush, Breaks, Answer, HasModel;
    AnswerIs(CommandsOf(items) + last.Commands());
    ItemsRun(p, items);
    var s := Run(p, START, TextOf(items)).value;
    ItemStarts(p, s, last);
    RunAppend(p, START, TextOf(items), last.Start());
  }

  // ----------------------------------------------------------------------- errors

  /** What goes wrong behind some items is an error of the whole text. */
  lemma FailsBehind(p: char -> bool, x: string, s: State, bad: string, rest: string, e: Error)
    requires Run(p, START, x) == Ok(s) && Run(p, s, bad) == Err(e)
    ensures Parse(p, x + (bad + rest)) == Err(e)
  {
    hide Run;
    RunAppend(p, START, x, bad + rest);
    RunAppend(p, s, bad, rest);
  }

  lemma ItemsLead(p: char -> bool, items: seq<Item>) returns (s: State)
    requires Printing(p) && forall i | 0 <= i < |items| :: items[i].Ok(p)
    ensures Run(p, START, TextOf(items)) == Ok(s) && Ready(s) && s.line == 1 + Breaks(TextOf(items))
  {
    hide Printing, Item.Ok, Run;
    ItemsRun(p, items);
    s := Run(p, START, TextOf(items)).value;
  }

  ghost predicate IsKeyword(word: string) {
    exists key :: SameLetters(word, key) &&
      key in {"from", "license", "template", "system", "adapter", "parameter", "message"}
  }

  predicate AllAlpha(word: string) {
    forall i | 0 <= i < |word| :: Alpha(word[i])
  }

  /** A word that is no keyword is refused at the blank behind it. */
  lemma UnknownWord(p: char -> bool, items: seq<Item>, word: string, blank: char, rest: string)
    requires Printing(p) && forall i | 0 <= i < |items| :: items[i].Ok(p)
    requires word != "" && AllAlpha(word) && IsBlank(blank) && !IsKeyword(word)
    ensures Parse(p, TextOf(items) + (word + [blank] + rest)) == Err(InvalidCommand(1 + Breaks(TextOf(items))))
  {
    hide Printing, Item.Ok, Run, IsKeyword, AllAlpha, Breaks;
    var s := ItemsLead(p, items);
    UnknownRuns(p, s, word, blank);
    FailsBehind(p, TextOf(items), s, word + [blank], rest, InvalidCommand(s.line));
  }

  lemma WordRuns(p: char -> bool, s: State, word: string)
    requires Printing(p) && Ready(s) && word != "" && AllAlpha(word)
    ensures Run(p, s, word) == Ok(s.(phase := Name, b := word))
  {
    Prints(p, word[0]);
    Prints(p, ZERO);
    hide Printing;
    var t := s.(phase := Name, b := [word[0]]);
    assert Step(p, s, word[0]) == Ok(t);
    LettersRun(p, t, word[1..]);
    assert [word[0]] + word[1..] == word;
    RunAppend(p, s, [word[0]], word[1..]);
    RunOne(p, s, word[0]);
  }

  lemma UnknownRuns(p: char -> bool, s: State, word: string, blank: char)
    requires Printing(p) && Ready(s) && word != "" && AllAlpha(word) && IsBlank(blank) && !IsKeyword(word)
    ensures Run(p, s, word + [blank]) == Err(InvalidCommand(s.line))
  {
    NoKeyword(word);
    hide Printing, ValidCommand, IsKeyword, Lower, Run;
    WordRuns(p, s, word);
    RunAppend(p, s, word, [blank]);
    RunOne(p, s.(phase := Name, b := word), blank);
  }

  lemma NoKeyword(word: string)
    requires AllAlpha(word) && !IsKeyword(word)
    ensures !ValidCommand(Lower(word))
  {
    LowerSame(word);
    hide SameLetters, Lower, AllAlpha;
  }

  lemma LowerSame(word: string)
    requires AllAlpha(word)
    ensures SameLetters(word, Lower(word))
  {
  }

  /** A word may only consist of letters. */
  lemma BrokenWord(p: char -> bool, items: seq<Item>, word: string, r: char, rest: string)
    requires Printing(p) && forall i | 0 <= i < |items| :: items[i].Ok(p)
    requires word != "" && AllAlpha(word) && !Alpha(r) && !IsBlank(r)
    ensures Parse(p, TextOf(items) + (word + [r] + rest))
         == Err(InvalidCommand(1 + Breaks(TextOf(items)) + if IsNewline(r) then 1 else 0))
  {
    hide Printing, Item.Ok, Run, AllAlpha, Breaks;
    var s := ItemsLead(p, items);
    var e := InvalidCommand(s.line + if IsNewline(r) then 1 else 0);
    BrokenRuns(p, s, word, r);
    FailsBehind(p, TextOf(items), s, word + [r], rest, e);
  }

  lemma BrokenRuns(p: char -> bool, s: State, word: string, r: char)
    requires Printing(p) && Ready(s) && word != "" && AllAlpha(word) && !Alpha(r) && !IsBlank(r)
    ensures Run(p, s, word + [r]) == Err(InvalidCommand(s.line + if IsNewline(r) then 1 else 0))
  {
    hide Printing, Run;
    WordRuns(p, s, word);
    RunAppend(p, s, word, [r]);
    RunOne(p, s.(phase := Name, b := word), r);
  }

  /** Only three roles have messages. */
  lemma UnknownRole(p: char -> bool, items: seq<Item>, word: string, blank: char, role: string, blank2: char,
                    rest: string)
    requires Printing(p) && forall i | 0 <= i < |items| :: items[i].Ok(p)
    requires SameLetters(word, "message") && IsBlank(blank) && IsBlank(blank2)
    requires AllAlpha(role) && role !in {"system", "user", "assistant"}
    ensures Parse(p, TextOf(items) + (word + [blank] + (role + [blank2]) + rest))
         == Err(InvalidRole(1 + Breaks(TextOf(items))))
  {
    hide Printing, Item.Ok, Run, Lower, Breaks, AllAlpha;
    var s := ItemsLead(p, items);
    SameLower(word, "message");
    HeadRunTo(p, s, word, blank);
    RoleRefused(p, AfterHead(s, "message"), role, blank2);
    RunAppend(p, s, word + [blank], role + [blank2]);
    FailsBehind(p, TextOf(items), s, word + [blank] + (role + [blank2]), rest, InvalidRole(s.line));
  }

  lemma RoleRefused(p: char -> bool, t: State, role: string, blank: char)
    requires Printing(p) && t.phase == Message && t.b == "" && IsBlank(blank)
    requires AllAlpha(role) && role !in {"system", "user", "assistant"}
    ensures Run(p, t, role + [blank]) == Err(InvalidRole(t.line))
  {
    LettersRun(p, t, role);
    hide Printing, Run;
    assert "" + role == role;
    RunAppend(p, t, role, [blank]);
    RunOne(p, t.(b := role), blank);
  }

  /** A value whose quotes are still open at the end of the text is refused. */
  lemma OpenQuotes(p: char -> bool, items: seq<Item>, head: Head, text: string)
    requires Printing(p) && (forall i | 0 <= i < |items| :: items[i].Ok(p)) && head.Ok()
    requires Open(p, "", text) && Held(Kept(p, text)).None?
    ensures Parse(p, TextOf(items) + (head.Text() + text)) == Err(UnexpectedEnd)
  {
    hide Printing, Item.Ok, Run, Breaks, Open, Held;
    ItemsRun(p, items);
    var s := Run(p, START, TextOf(items)).value;
    HeadLeads(p, s, head);
    var t := Run(p, s, head.Text()).value;
    RunAppend(p, START, TextOf(items), head.Text() + text);
    RunAppend(p, s, head.Text(), text);
    assert t.b + Kept(p, text) == Kept(p, text);
    ValueRun(p, t, text);
  }

  // ----------------------------------------------------------- blanks round values

  /** Blanks round a value are not part of it. */
  lemma PaddedStands(p: char -> bool, before: string, q: string, behind: string, v: string)
    requires StandsFor(p, q, v) && AllBlank(before) && AllBlank(behind)
    ensures StandsFor(p, before + q + behind, v)
  {
    hide Trim, Open, Kept;
    var x := before + q + behind;
    BlanksKept(p, before);
    BlanksKept(p, behind);
    KeptAppend(p, before, q);
    KeptAppend(p, before + q, behind);
    PaddedHeld(before, Kept(p, q), behind);
    OpenEverywhere(p, "", q);
    OpenEverywhere(p, "", x);
    forall i | 0 <= i < |x|
      ensures OpenAt(p, "", x, i)
    {
      if |before| <= i < |before| + |q| {
        var j := i - |before|;
        assert OpenAt(p, "", q, j);
        assert x[..i] == before + q[..j];
        KeptAppend(p, before, q[..j]);
        PaddedHeld(before, Kept(p, q[..j]), "");
        assert before + Kept(p, q[..j]) + "" == before + Kept(p, q[..j]) && "" + Kept(p, x[..i]) == Kept(p, x[..i]);
        assert "" + Kept(p, q[..j]) == Kept(p, q[..j]);
      }
    }
  }

  predicate AllBlank(s: string) {
    forall i | 0 <= i < |s| :: IsBlank(s[i])
  }

  lemma BlanksKept(p: char -> bool, s: string)
    requires AllBlank(s)
    ensures Kept(p, s) == s
  {
    KeptAll(p, s);
  }

  lemma PaddedHeld(before: string, b: string, behind: string)
    requires AllBlank(before) && AllBlank(behind)
    ensures Held(before + b + behind) == Held(b)
  {
    hide Unquote, TrimLeft, TrimRight;
    TrimLeftSpaces(before);
    TrimLeftAppend(before, b + behind);
    assert before + b + behind == before + (b + behind);
    TrimLeftAppend(b, behind);
    TrimLeftSpaces(behind);
    RightBlanks(behind);
    TrimRightAppend(TrimLeft(b), behind);
  }

  lemma {:induction false} RightBlanks(s: string)
    requires AllBlank(s)
    ensures TrimRight(s) == ""
  {
    if s != "" {
      RightBlanks(s[..|s| - 1]);
    }
  }
}
