/** Which Modelfiles are parsed back from the way they are printed. */
module ModelfileProofs {
  import opened Helpers
  import opened ModelfileText
  import opened ModelfileQuotes
  import opened ModelfileNeeds
  import opened ModelfileParser

  /** Between two commands. */
  predicate Ready(s: State) {
    s.phase == Nil && s.role == "" && s.b == ""
  }

  predicate Word(r: char) {
    Alpha(r) || Number(r) || r == '_'
  }

  /** A command that is parsed back from the line, or the lines, printed for it. */
  predicate LineOk(p: char -> bool, c: Command) {
    if c.name == "model" then PlainOk(p, c.args)
    else if Labelled(c.name) then QuoteOk(p, c.args)
    else if c.name == "message" then
      var (role, message, found) := CutRole(c.args);
      found && ValidRole(role) && QuoteOk(p, message)
    else (forall i | 0 <= i < |c.name| :: Word(c.name[i])) && QuoteOk(p, c.args)
  }

  // --------------------------------------------------------------- running on

  lemma {:induction false} RunAppend(p: char -> bool, s: State, x: string, y: string)
    ensures Run(p, s, x + y) == match Run(p, s, x)
      case Ok(t) => Run(p, t, y)
      case Err(e) => Err(e)
    decreases |x|
  {
    hide Step;
    if x == "" {
      assert x + y == y;
    } else {
      assert (x + y)[1..] == x[1..] + y;
      var t := Step(p, s, x[0]);
      if t.Ok? {
        RunAppend(p, t.value, x[1..], y);
      }
    }
  }

  lemma RunOne(p: char -> bool, s: State, r: char)
    ensures Run(p, s, [r]) == Step(p, s, r)
  {
    hide Step;
    assert [r][1..] == "";
  }

  /** The runes of names and of the blank that ends them are printable, newlines and
      what stands for nothing are not. */
  lemma Prints(p: char -> bool, r: char)
    requires Printing(p)
    ensures Word(r) ==> Printed(p, r) == [r]
    ensures Newline(r) || r == ZERO ==> Printed(p, r) == ""
  {
  }

  /** A rune of a name is added to it. */
  lemma LetterStep(p: char -> bool, s: State, r: char)
    requires Printing(p)
    requires (s.phase == Name || s.phase == Message || s.phase == Parameter) && Word(r)
    requires s.phase != Parameter ==> Alpha(r)
    ensures Step(p, s, r) == Ok(s.(b := s.b + [r]))
  {
    Prints(p, r);
    hide Printing;
  }

  lemma BlankIsBlank()
    ensures Blank(' ') && !Word(' ') && !Word(':')
  {
  }

  lemma BlankStep(p: char -> bool, s: State, r: char)
    requires Printing(p) && (s.phase == Parameter || s.phase == Message) && Blank(r)
    ensures Step(p, s, r) == Step(p, s, ' ')
    ensures s.phase == Parameter ==> Step(p, s, r) == Ok(s.(phase := Value, name := s.b, b := ""))
    ensures s.phase == Message && Step(p, s, r).Ok? ==>
      ValidRole(s.b) && Step(p, s, r) == Ok(s.(phase := Value, role := s.b, b := ""))
  {
    Prints(p, ZERO);
    hide Printing;
  }

  lemma {:induction false} LettersRun(p: char -> bool, s: State, x: string)
    requires Printing(p)
    requires s.phase == Name || s.phase == Message || s.phase == Parameter
    requires forall i | 0 <= i < |x| :: if s.phase == Parameter then Word(x[i]) else Alpha(x[i])
    ensures Run(p, s, x) == Ok(s.(b := s.b + x))
    decreases |x|
  {
    if x == "" {
      assert s.b + x == s.b;
    } else {
      LetterStep(p, s, x[0]);
      hide Printing, Step;
      LettersRun(p, s.(b := s.b + [x[0]]), x[1..]);
      assert s.b + [x[0]] + x[1..] == s.b + x;
    }
  }

  /** The state behind the name of a command, in lower case, and a blank. */
  function AfterHead(s: State, w: string): State {
    if w == "from" then s.(phase := Value, name := "model", b := "")
    else if w == "parameter" then s.(phase := Parameter, b := "")
    else if w == "message" then s.(phase := Message, name := w, b := "")
    else s.(phase := Value, name := w, b := "")
  }

  lemma HeadRunTo(p: char -> bool, s: State, w: string, blank: char)
    requires Printing(p) && Ready(s) && w != "" && ValidCommand(Lower(w)) && Blank(blank)
    requires forall i | 0 <= i < |w| :: Alpha(w[i])
    ensures Run(p, s, w + [blank]) == Ok(AfterHead(s, Lower(w)))
  {
    Prints(p, w[0]);
    Prints(p, ZERO);
    hide Printing, ValidCommand, Lower;
    var t := s.(phase := Name, b := [w[0]]);
    assert Step(p, s, w[0]) == Ok(t);
    LettersRun(p, t, w[1..]);
    assert [w[0]] + w[1..] == w;
    RunAppend(p, s, [w[0]], w[1..]);
    RunOne(p, s, w[0]);
    RunAppend(p, s, w, [blank]);
    RunOne(p, s.(phase := Name, b := w), blank);
  }

  lemma HeadRun(p: char -> bool, s: State, w: string)
    requires Printing(p) && Ready(s) && w != "" && ValidCommand(Lower(w))
    requires forall i | 0 <= i < |w| :: Alpha(w[i])
    ensures Run(p, s, w + " ") == Ok(AfterHead(s, Lower(w)))
  {
    hide Printing, Run, Lower, ValidCommand;
    HeadRunTo(p, s, w, ' ');
  }

  /** One more rune of a value, which is not complete there. */
  function InValue(p: char -> bool, s: State, r: char): State {
    s.(b := s.b + KeptOne(p, r), line := s.line + if Newline(r) then 1 else 0)
  }

  lemma StepInValue(p: char -> bool, s: State, r: char)
    requires s.phase == Value && (Newline(r) ==> Held(s.b).None?)
    ensures Step(p, s, r) == Ok(InValue(p, s, r))
  {
    hide Held;
    assert s.b + "" == s.b;
  }

  lemma {:induction false} ValueRun(p: char -> bool, s: State, x: string)
    requires s.phase == Value && Open(p, s.b, x)
    ensures Run(p, s, x) == Ok(s.(b := s.b + Kept(p, x), line := s.line + Breaks(x)))
    decreases |x|
  {
    hide Held, Step, KeptOne, Newline;
    if x == "" {
      assert s.b + Kept(p, x) == s.b;
    } else {
      StepInValue(p, s, x[0]);
      ValueRun(p, InValue(p, s, x[0]), x[1..]);
      assert s.b + KeptOne(p, x[0]) + Kept(p, x[1..]) == s.b + (KeptOne(p, x[0]) + Kept(p, x[1..]));
    }
  }

  /** What a value stands for is committed at the newline behind it. */
  lemma ValueLineTo(p: char -> bool, s: State, q: string, v: string, end: char)
    requires Printing(p) && s.phase == Value && s.b == "" && StandsFor(p, q, v) && Newline(end)
    ensures Run(p, s, q + [end]) == Ok(
      State(Nil, s.name, "", "", s.line + Breaks(q) + 1, s.commands + [Command(s.name, WithRole(s.role, v))]))
  {
    hide Printing, Held, Open, Kept, Breaks, Step, Run, WithRole;
    assert "" + Kept(p, q) == Kept(p, q);
    ValueRun(p, s, q);
    RunAppend(p, s, q, [end]);
    var t := s.(b := Kept(p, q), line := s.line + Breaks(q));
    ValueStep(p, t, v, end);
    RunOne(p, t, end);
  }

  lemma ValueStep(p: char -> bool, s: State, v: string, end: char)
    requires Printing(p) && s.phase == Value && Held(s.b) == Some(v) && Newline(end)
    ensures Step(p, s, end) == Ok(
      State(Nil, s.name, "", "", s.line + 1, s.commands + [Command(s.name, WithRole(s.role, v))]))
  {
    Prints(p, end);
    hide Printing, Held, WithRole;
  }

  lemma ValueLine(p: char -> bool, s: State, q: string, v: string)
    requires Printing(p) && s.phase == Value && s.b == "" && StandsFor(p, q, v)
    ensures Run(p, s, q + "\n") == Ok(
      State(Nil, s.name, "", "", s.line + Breaks(q) + 1, s.commands + [Command(s.name, WithRole(s.role, v))]))
  {
    hide Printing, Run, StandsFor;
    ValueLineTo(p, s, q, v, '\n');
  }

  /** The same, behind a head that leads to the value. */
  lemma ValueBehind(p: char -> bool, s: State, head: string, q: string, v: string)
    requires Printing(p) && Run(p, s, head).Ok? && StandsFor(p, q, v)
    requires var t := Run(p, s, head).value; t.phase == Value && t.b == ""
    ensures var r, t := Run(p, s, head + (q + "\n")), Run(p, s, head).value;
      r.Ok? && Ready(r.value) && r.value.commands == t.commands + [Command(t.name, WithRole(t.role, v))]
  {
    hide Printing, StandsFor, WithRole;
    RunAppend(p, s, head, q + "\n");
    ValueLine(p, Run(p, s, head).value, q, v);
  }

  // ---------------------------------------------------------- reading one line

  lemma UpperLower(name: string)
    requires Labelled(name)
    ensures Upper(name) != "" && Lower(Upper(name)) == name && ValidCommand(name)
    ensures forall i | 0 <= i < |name| :: Alpha(Upper(name)[i])
    ensures name != "from" && name != "parameter" && name != "message"
  {
    assert forall i | 0 <= i < |name| :: 'a' <= name[i] <= 'z';
  }

  lemma Keywords()
    ensures Lower("FROM") == "from" && Lower("MESSAGE") == "message" && Lower("PARAMETER") == "parameter"
  {
  }

  /** The printed command is read as it was, up to the newline behind it. */
  predicate Reads(p: char -> bool, s: State, c: Command) {
    var r := Run(p, s, CommandText(c) + "\n");
    r.Ok? && Ready(r.value) && r.value.commands == s.commands + [c]
  }

  lemma ModelLine(p: char -> bool, s: State, c: Command)
    requires Printing(p) && Ready(s) && c.name == "model" && LineOk(p, c)
    ensures Reads(p, s, c)
  {
    hide Printing, Held, PlainOk, StandsFor, Run;
    Keywords();
    HeadRun(p, s, "FROM");
    PlainStands(p, c.args);
    assert CommandText(c) + "\n" == "FROM" + " " + (c.args + "\n");
    ValueBehind(p, s, "FROM" + " ", c.args, c.args);
  }

  lemma LabelledLine(p: char -> bool, s: State, c: Command)
    requires Printing(p) && Ready(s) && Labelled(c.name) && c.name != "model" && LineOk(p, c)
    ensures Reads(p, s, c)
  {
    UpperLower(c.name);
    hide Printing, Held, QuoteOk, StandsFor, Quote, Upper, Lower, Labelled, ValidCommand, Run;
    HeadRun(p, s, Upper(c.name));
    QuoteStands(p, c.args);
    assert CommandText(c) + "\n" == Upper(c.name) + " " + (Quote(c.args) + "\n");
    ValueBehind(p, s, Upper(c.name) + " ", Quote(c.args), c.args);
  }

  /** The name of a parameter, and the blank behind it. */
  lemma NameRun(p: char -> bool, t: State, name: string, blank: char)
    requires Printing(p) && t.phase == Parameter && t.b == "" && forall i | 0 <= i < |name| :: Word(name[i])
    requires Blank(blank)
    ensures Run(p, t, name + [blank]) == Ok(t.(phase := Value, name := name, b := ""))
  {
    hide Printing, Run, Word, Blank, Step;
    LettersRun(p, t, name);
    RunAppend(p, t, name, [blank]);
    assert "" + name == name;
    RunOne(p, t.(b := name), blank);
    BlankStep(p, t.(b := name), blank);
  }

  lemma ParameterHead(p: char -> bool, s: State, name: string)
    requires Printing(p) && Ready(s) && forall i | 0 <= i < |name| :: Word(name[i])
    ensures Run(p, s, "PARAMETER" + " " + (name + " ")) == Ok(s.(phase := Value, name := name, b := ""))
  {
    Keywords();
    hide Printing, Lower, Run, Word;
    HeadRun(p, s, "PARAMETER");
    NameRun(p, AfterHead(s, "parameter"), name, ' ');
    RunAppend(p, s, "PARAMETER" + " ", name + " ");
  }

  lemma ParameterLine(p: char -> bool, s: State, c: Command)
    requires Printing(p) && Ready(s) && c.name != "model" && !Labelled(c.name) && c.name != "message" && LineOk(p, c)
    ensures Reads(p, s, c)
  {
    hide Printing, Held, QuoteOk, StandsFor, Quote, Run, Word;
    ParameterHead(p, s, c.name);
    QuoteStands(p, c.args);
    var head := "PARAMETER" + " " + (c.name + " ");
    assert CommandText(c) + "\n" == head + (Quote(c.args) + "\n");
    ValueBehind(p, s, head, Quote(c.args), c.args);
  }

  /** The role of a message, and the blank behind it. */
  lemma MessageHead(p: char -> bool, s: State, role: string)
    requires Printing(p) && Ready(s) && ValidRole(role)
    ensures Run(p, s, "MESSAGE" + " " + (role + " "))
         == Ok(s.(phase := Value, name := "message", role := role, b := ""))
  {
    Keywords();
    hide Printing, Lower, Run, ValidRole;
    HeadRun(p, s, "MESSAGE");
    RoleRun(p, AfterHead(s, "message"), role, ' ');
    RunAppend(p, s, "MESSAGE" + " ", role + " ");
  }

  lemma RoleRun(p: char -> bool, t: State, role: string, blank: char)
    requires Printing(p) && t.phase == Message && t.b == "" && ValidRole(role) && Blank(blank)
    ensures Run(p, t, role + [blank]) == Ok(t.(phase := Value, role := role, b := ""))
  {
    RoleStep(p, t.(b := role), role, blank);
    assert forall i | 0 <= i < |role| :: Alpha(role[i]);
    hide Printing, Run, Alpha, Step, ValidRole;
    LettersRun(p, t, role);
    RunAppend(p, t, role, [blank]);
    assert "" + role == role;
    RunOne(p, t.(b := role), blank);
  }

  /** A blank behind a valid role leads to the value. */
  lemma RoleStep(p: char -> bool, t: State, role: string, blank: char)
    requires Printing(p) && t.phase == Message && t.b == role && ValidRole(role) && Blank(blank)
    ensures Step(p, t, blank) == Ok(t.(phase := Value, role := role, b := ""))
  {
    Prints(p, ZERO);
    hide Printing, ValidRole;
  }

  lemma MessageLine(p: char -> bool, s: State, c: Command)
    requires Printing(p) && Ready(s) && c.name == "message" && LineOk(p, c)
    ensures Reads(p, s, c)
  {
    hide Printing, Held, QuoteOk, StandsFor, Quote, Run, CutRole;
    var (role, message, found) := CutRole(c.args);
    MessageHead(p, s, role);
    QuoteStands(p, message);
    var head := "MESSAGE" + " " + (role + " ");
    assert CommandText(c) + "\n" == head + (Quote(message) + "\n");
    ValueBehind(p, s, head, Quote(message), message);
  }

  lemma LineReads(p: char -> bool, s: State, c: Command)
    requires Printing(p) && Ready(s) && LineOk(p, c)
    ensures Reads(p, s, c)
  {
    hide Printing, LineOk, Reads, Ready;
    if c.name == "model" {
      ModelLine(p, s, c);
    } else if Labelled(c.name) {
      LabelledLine(p, s, c);
    } else if c.name == "message" {
      MessageLine(p, s, c);
    } else {
      ParameterLine(p, s, c);
    }
  }

  lemma {:induction false} FileReads(p: char -> bool, commands: seq<Command>, n: nat)
    requires Printing(p) && n <= |commands| && forall i | 0 <= i < n :: LineOk(p, commands[i])
    ensures var r := Run(p, START, FileText(commands, n));
      r.Ok? && Ready(r.value) && r.value.commands == commands[..n]
  {
    hide Printing, LineOk, CommandText;
    if n == 0 {
      assert commands[..0] == [];
    } else {
      FileReads(p, commands, n - 1);
      var s := Run(p, START, FileText(commands, n - 1)).value;
      LineReads(p, s, commands[n - 1]);
      RunAppend(p, START, FileText(commands, n - 1), CommandText(commands[n - 1]) + "\n");
      assert commands[..n] == commands[..n - 1] + [commands[n - 1]];
    }
  }

  // ------------------------------------------------------ the next command read

  /** The first command that is completed from this state on. */
  function FirstCommand(p: char -> bool, s: State, x: string): Option<Command>
    decreases |x|
  {
    if x == "" then
      if s.phase == Value && Held(s.b).Some? then Some(Command(s.name, WithRole(s.role, Held(s.b).value))) else None
    else match Step(p, s, x[0])
      case Err(_) => None
      case Ok(t) =>
        if |t.commands| > |s.commands| then Some(t.commands[|s.commands|]) else FirstCommand(p, t, x[1..])
  }

  lemma StepCommits(p: char -> bool, s: State, r: char)
    ensures Step(p, s, r).Ok? ==>
      var t := Step(p, s, r).value;
      t.commands == s.commands || (|t.commands| == |s.commands| + 1 && s.commands <= t.commands)
  {
    hide Held, Lower;
  }

  /** What has been read stays, and the next command is the first to come. */
  lemma {:induction false} CommandsGrow(p: char -> bool, s: State, x: string)
    requires Run(p, s, x).Ok? && Flush(Run(p, s, x).value).Ok?
    ensures var all := Flush(Run(p, s, x).value).value;
      && s.commands <= all
      && (|all| > |s.commands| ==> FirstCommand(p, s, x) == Some(all[|s.commands|]))
    decreases |x|
  {
    hide Step, Held;
    if x != "" {
      StepCommits(p, s, x[0]);
      CommandsGrow(p, Step(p, s, x[0]).value, x[1..]);
    }
  }

  lemma {:induction false} FirstAfter(p: char -> bool, s: State, x: string, y: string)
    requires Run(p, s, x).Ok? && Run(p, s, x).value.commands == s.commands
    ensures FirstCommand(p, s, x + y) == FirstCommand(p, Run(p, s, x).value, y)
    decreases |x|
  {
    hide Step, Held;
    if x == "" {
      assert x + y == y;
    } else {
      assert (x + y)[1..] == x[1..] + y;
      var t := Step(p, s, x[0]).value;
      StepCommits(p, s, x[0]);
      RunGrows(p, t, x[1..]);
      FirstAfter(p, t, x[1..], y);
    }
  }

  lemma {:induction false} RunGrows(p: char -> bool, s: State, x: string)
    requires Run(p, s, x).Ok?
    ensures |s.commands| <= |Run(p, s, x).value.commands|
    decreases |x|
  {
    hide Step;
    if x != "" {
      StepCommits(p, s, x[0]);
      RunGrows(p, Step(p, s, x[0]).value, x[1..]);
    }
  }

  /** Inside a value, the next command is the one with the next value. */
  lemma {:induction false} FirstInValue(p: char -> bool, s: State, x: string)
    requires s.phase == Value
    ensures FirstCommand(p, s, x) == match FirstValue(p, s.b, x)
      case None => None
      case Some(v) => Some(Command(s.name, WithRole(s.role, v)))
    decreases |x|
  {
    hide Held;
    if x != "" && !(Newline(x[0]) && Held(s.b).Some?) {
      StepInValue(p, s, x[0]);
      hide Step;
      FirstInValue(p, InValue(p, s, x[0]), x[1..]);
    }
  }

  lemma FirstStep(p: char -> bool, s: State, x: string)
    requires FirstCommand(p, s, x).Some? && s.phase != Value
    ensures x != "" && Step(p, s, x[0]).Ok?
    ensures FirstCommand(p, s, x) == FirstCommand(p, Step(p, s, x[0]).value, x[1..])
  {
  }

  lemma OneLater(b: string, x: string, i: nat)
    requires i + 1 < |x|
    ensures b + [x[0]] + x[1..][..i] == b + x[..i + 1] && x[1..][i + 1..] == x[i + 2..]
  {
  }

  /** A name or a role, whose command is completed, consists of the runes up to a blank. */
  lemma {:induction false} NamedUpTo(p: char -> bool, s: State, x: string) returns (i: nat)
    requires Printing(p) && (s.phase == Parameter || s.phase == Message) && FirstCommand(p, s, x).Some?
    ensures i < |x| && Blank(x[i]) && forall j | 0 <= j < i :: Word(x[j])
    ensures var t := s.(b := s.b + x[..i]);
      Step(p, t, ' ').Ok? && FirstCommand(p, s, x) == FirstCommand(p, Step(p, t, ' ').value, x[i + 1..])
    decreases |x|
  {
    FirstStep(p, s, x);
    if Blank(x[0]) {
      i := 0;
      assert s.b + x[..0] == s.b;
      BlankStep(p, s, x[0]);
    } else {
      WordStep(p, s, x[0]);
      hide Printing, Step, FirstCommand, Word, Blank;
      i := NamedUpTo(p, s.(b := s.b + [x[0]]), x[1..]);
      OneLater(s.b, x, i);
      i := i + 1;
    }
  }

  lemma WordStep(p: char -> bool, s: State, r: char)
    requires Printing(p) && (s.phase == Parameter || s.phase == Message) && !Blank(r) && Step(p, s, r).Ok?
    ensures Word(r) && Step(p, s, r) == Ok(s.(b := s.b + [r]))
  {
    LetterStep(p, s, r);
  }

  // ------------------------------------------------------------ what is needed

  /** Behind a head that leads to a value, the next command is the one with that value. */
  lemma FirstBehind(p: char -> bool, s: State, head: string, text: string)
    requires Run(p, s, head).Ok? && Run(p, s, head).value.commands == s.commands
    requires Run(p, s, head).value.phase == Value && Run(p, s, head).value.b == ""
    ensures var t := Run(p, s, head).value;
      FirstCommand(p, s, head + text) == match FirstValue(p, "", text)
        case None => None
        case Some(v) => Some(Command(t.name, WithRole(t.role, v)))
  {
    hide Run, FirstCommand, FirstValue, WithRole;
    FirstAfter(p, s, head, text);
    FirstInValue(p, Run(p, s, head).value, text);
  }

  lemma ModelText(c: Command, rest: string)
    requires c.name == "model"
    ensures CommandText(c) + ("\n" + rest) == "FROM" + " " + (c.args + ("\n" + rest))
  {
  }

  lemma ModelNeeded(p: char -> bool, s: State, c: Command, rest: string)
    requires Printing(p) && Ready(s) && c.name == "model"
    requires FirstCommand(p, s, CommandText(c) + ("\n" + rest)) == Some(c)
    ensures LineOk(p, c)
  {
    ModelText(c, rest);
    Keywords();
    hide Printing, Held, PlainOk, StandsFor, FirstCommand, FirstValue, Run, Lower, CommandText;
    HeadRun(p, s, "FROM");
    FirstBehind(p, s, "FROM" + " ", c.args + ("\n" + rest));
    ValueNeeded(p, c.args, c.args, rest);
    PlainStands(p, c.args);
  }

  lemma LabelledText(c: Command, rest: string)
    requires Labelled(c.name)
    ensures CommandText(c) + ("\n" + rest) == Upper(c.name) + " " + (Quote(c.args) + ("\n" + rest))
  {
    hide Upper, Quote;
    assert c.name != "model";
    assert Upper(c.name) + " " + Quote(c.args) + ("\n" + rest) == Upper(c.name) + " " + (Quote(c.args) + ("\n" + rest));
  }

  lemma LabelledNeeded(p: char -> bool, s: State, c: Command, rest: string)
    requires Printing(p) && Ready(s) && c.name != "model" && Labelled(c.name)
    requires FirstCommand(p, s, CommandText(c) + ("\n" + rest)) == Some(c)
    ensures LineOk(p, c)
  {
    UpperLower(c.name);
    LabelledText(c, rest);
    hide Printing, Held, QuoteOk, StandsFor, FirstCommand, FirstValue, Run, Quote, Upper, Lower, Labelled;
    hide ValidCommand, CommandText;
    HeadRun(p, s, Upper(c.name));
    FirstBehind(p, s, Upper(c.name) + " ", Quote(c.args) + ("\n" + rest));
    ValueNeeded(p, Quote(c.args), c.args, rest);
    QuoteStands(p, c.args);
  }

  /** Behind the name of a command and a blank, the next command is the one that
      follows from there. */
  lemma FirstBehindHead(p: char -> bool, s: State, w: string, x: string)
    requires Printing(p) && Ready(s) && w != "" && ValidCommand(Lower(w))
    requires forall i | 0 <= i < |w| :: Alpha(w[i])
    ensures FirstCommand(p, s, w + " " + x) == FirstCommand(p, AfterHead(s, Lower(w)), x)
  {
    hide Printing, FirstCommand, Run, Lower, ValidCommand, Alpha;
    HeadRun(p, s, w);
    FirstAfter(p, s, w + " ", x);
  }

  /** The next command behind a parameter keyword: a name up to a blank, and a value. */
  lemma ParameterFirst(p: char -> bool, t: State, x: string) returns (i: nat)
    requires Printing(p) && t.phase == Parameter && t.b == "" && FirstCommand(p, t, x).Some?
    ensures i < |x| && Blank(x[i]) && forall j | 0 <= j < i :: Word(x[j])
    ensures FirstValue(p, "", x[i + 1..]).Some?
    ensures FirstCommand(p, t, x) == Some(Command(x[..i], WithRole(t.role, FirstValue(p, "", x[i + 1..]).value)))
  {
    hide Printing, FirstCommand, FirstValue, Word, Blank, Step, WithRole;
    i := NamedUpTo(p, t, x);
    assert "" + x[..i] == x[..i];
    assert Blank(' ') by { BlankIsBlank(); }
    BlankStep(p, t.(b := x[..i]), ' ');
    FirstInValue(p, t.(phase := Value, name := x[..i], b := ""), x[i + 1..]);
  }

  /** The same behind the keyword of a message, with a role up to a blank. */
  lemma MessageFirst(p: char -> bool, t: State, x: string) returns (i: nat)
    requires Printing(p) && t.phase == Message && t.b == "" && FirstCommand(p, t, x).Some?
    ensures i < |x| && Blank(x[i]) && (forall j | 0 <= j < i :: Word(x[j])) && ValidRole(x[..i])
    ensures FirstValue(p, "", x[i + 1..]).Some?
    ensures FirstCommand(p, t, x) == Some(Command(t.name, WithRole(x[..i], FirstValue(p, "", x[i + 1..]).value)))
  {
    hide Printing, FirstCommand, FirstValue, Word, Blank, Step, WithRole, ValidRole;
    i := NamedUpTo(p, t, x);
    assert "" + x[..i] == x[..i];
    assert Blank(' ') by { BlankIsBlank(); }
    BlankStep(p, t.(b := x[..i]), ' ');
    FirstInValue(p, t.(phase := Value, role := x[..i], b := ""), x[i + 1..]);
  }

  lemma ParameterText(c: Command, rest: string)
    requires c.name != "model" && !Labelled(c.name) && c.name != "message"
    ensures CommandText(c) + ("\n" + rest) == "PARAMETER" + " " + (c.name + " " + (Quote(c.args) + ("\n" + rest)))
  {
    hide Quote, Labelled;
  }

  /** What lies before and behind the blank. */
  lemma CutAtBlank(word: string, text: string, i: nat)
    requires i == |word|
    ensures (word + " " + text)[..i] == word && (word + " " + text)[i + 1..] == text
  {
  }

  lemma ParameterNeeded(p: char -> bool, s: State, c: Command, rest: string)
    requires Printing(p) && Ready(s) && c.name != "model" && !Labelled(c.name) && c.name != "message"
    requires FirstCommand(p, s, CommandText(c) + ("\n" + rest)) == Some(c)
    ensures LineOk(p, c)
  {
    ParameterText(c, rest);
    Keywords();
    hide Printing, Held, QuoteOk, StandsFor, FirstCommand, FirstValue, Quote, Lower, Word, Blank, CommandText, Labelled;
    var text := Quote(c.args) + ("\n" + rest);
    FirstBehindHead(p, s, "PARAMETER", c.name + " " + text);
    var i := ParameterFirst(p, AfterHead(s, "parameter"), c.name + " " + text);
    CutAtBlank(c.name, text, i);
    ValueNeeded(p, Quote(c.args), c.args, rest);
    QuoteStands(p, c.args);
  }

  lemma {:induction false} CutAtRole(role: string, message: string)
    requires ':' !in role
    ensures CutRole(role + ": " + message) == (role, message, true)
  {
    var args := role + ": " + message;
    if role == "" {
      assert args[2..] == message;
    } else {
      assert args[1..] == role[1..] + ": " + message;
      CutAtRole(role[1..], message);
      assert role == [role[0]] + role[1..];
    }
  }

  lemma MessageText(c: Command, rest: string)
    requires c.name == "message"
    ensures var (role, message, _) := CutRole(c.args);
      CommandText(c) + ("\n" + rest) == "MESSAGE" + " " + (role + " " + (Quote(message) + ("\n" + rest)))
  {
    hide Quote, CutRole;
  }

  /** The role and the value that were read are those the arguments are cut into. */
  lemma RoleRead(args: string, role: string, v: string)
    requires ValidRole(role) && args == WithRole(role, v) && forall j | 0 <= j < |role| :: Word(role[j])
    ensures CutRole(args) == (role, v, true)
  {
    BlankIsBlank();
    hide Word, CutRole;
    CutAtRole(role, v);
  }

  lemma MessageFits(p: char -> bool, c: Command)
    requires c.name == "message"
    requires var (role, message, found) := CutRole(c.args); found && ValidRole(role) && QuoteOk(p, message)
    ensures LineOk(p, c)
  {
  }

  lemma MessageNeeded(p: char -> bool, s: State, c: Command, rest: string)
    requires Printing(p) && Ready(s) && c.name == "message"
    requires FirstCommand(p, s, CommandText(c) + ("\n" + rest)) == Some(c)
    ensures LineOk(p, c)
  {
    MessageText(c, rest);
    Keywords();
    hide Printing, Held, QuoteOk, StandsFor, FirstCommand, FirstValue, Quote, Lower, Word, Blank, CommandText, CutRole;
    hide WithRole, ValidRole, LineOk, Labelled;
    var (role, message, found) := CutRole(c.args);
    var text := Quote(message) + ("\n" + rest);
    var x := role + " " + text;
    FirstBehindHead(p, s, "MESSAGE", x);
    var i := MessageFirst(p, AfterHead(s, "message"), x);
    RoleRead(c.args, x[..i], FirstValue(p, "", x[i + 1..]).value);
    CutAtBlank(role, text, i);
    ValueNeeded(p, Quote(message), message, rest);
    QuoteStands(p, message);
    MessageFits(p, c);
  }

  lemma LineNeeded(p: char -> bool, s: State, c: Command, rest: string)
    requires Printing(p) && Ready(s)
    requires FirstCommand(p, s, CommandText(c) + ("\n" + rest)) == Some(c)
    ensures LineOk(p, c)
  {
    hide Printing, LineOk, FirstCommand, CommandText, Ready;
    if c.name == "model" {
      ModelNeeded(p, s, c, rest);
    } else if Labelled(c.name) {
      LabelledNeeded(p, s, c, rest);
    } else if c.name == "message" {
      MessageNeeded(p, s, c, rest);
    } else {
      ParameterNeeded(p, s, c, rest);
    }
  }

  /** The printed text from command n on. */
  function RestText(commands: seq<Command>, n: nat): string
    requires n <= |commands|
    decreases |commands| - n
  {
    if n == |commands| then "" else CommandText(commands[n]) + ("\n" + RestText(commands, n + 1))
  }

  lemma {:induction false} FileSplits(commands: seq<Command>, n: nat)
    requires n <= |commands|
    ensures FileText(commands, |commands|) == FileText(commands, n) + RestText(commands, n)
    decreases |commands| - n
  {
    hide CommandText;
    if n < |commands| {
      FileSplits(commands, n + 1);
      var line := CommandText(commands[n]);
      assert FileText(commands, n) + (line + "\n") + RestText(commands, n + 1)
          == FileText(commands, n) + (line + ("\n" + RestText(commands, n + 1)));
    }
  }

  lemma {:induction false} FileNeeded(p: char -> bool, commands: seq<Command>, n: nat)
    requires Printing(p) && n <= |commands| && Parse(p, FileText(commands, |commands|)) == Ok(commands)
    ensures forall i | 0 <= i < n :: LineOk(p, commands[i])
  {
    hide Printing, LineOk, CommandText, FirstCommand;
    if n != 0 {
      var m := n - 1;
      FileNeeded(p, commands, m);
      FileReads(p, commands, m);
      var s := Run(p, START, FileText(commands, m)).value;
      FileSplits(commands, m);
      RunAppend(p, START, FileText(commands, m), RestText(commands, m));
      CommandsGrow(p, s, RestText(commands, m));
      LineNeeded(p, s, commands[m], RestText(commands, n));
    }
  }

  // ---------------------------------------------------------------- main result

  /** A Modelfile is parsed back from its own printed form exactly when each of its
      commands can be, and one of them names the model. */
  lemma RoundTrip(p: char -> bool, commands: seq<Command>)
    requires Printing(p)
    ensures Parse(p, FileText(commands, |commands|)) == Ok(commands) <==>
      (forall i | 0 <= i < |commands| :: LineOk(p, commands[i])) && HasModel(commands)
  {
    hide Printing, LineOk, CommandText;
    if Parse(p, FileText(commands, |commands|)) == Ok(commands) {
      FileNeeded(p, commands, |commands|);
    }
    if forall i | 0 <= i < |commands| :: LineOk(p, commands[i]) {
      FileReads(p, commands, |commands|);
      assert commands[..|commands|] == commands;
    }
  }

  /** Not every Modelfile is so: a value with a tab at its edge is printed without
      quotes, and loses the tab when it is parsed. */
  lemma EdgeTabIsLost(p: char -> bool)
    requires Printing(p)
    ensures var commands := [Command("model", "m"), Command("system", "\tx")];
      Parse(p, FileText(commands, 2)) != Ok(commands)
  {
    hide Printing, Parse, FileText;
    var commands := [Command("model", "m"), Command("system", "\tx")];
    RoundTrip(p, commands);
    assert !LineOk(p, commands[1]);
  }
}
