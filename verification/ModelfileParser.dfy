/** Parsing and printing Modelfiles. */
module ModelfileParser {
  import opened Helpers
  import opened ModelfileText

  datatype Command = Command(name: string, args: string)

  datatype Phase = Nil | Name | Value | Parameter | Message | Comment

  datatype Error =
    | UnexpectedEnd
    | InvalidCommand(line: nat)
    | InvalidRole(line: nat)
    | MissingFrom

  datatype Outcome<+T> = Ok(value: T) | Err(error: Error)

  const ZERO: char := '\0'

  /** What the parser knows between two runes. */
  datatype State = State(phase: Phase, name: string, role: string, b: string, line: nat, commands: seq<Command>)

  const START: State := State(Nil, "", "", "", 1, [])

  function LowerOne(c: char): char {
    if 'A' <= c <= 'Z' then (c as int + 32) as char else c
  }

  function UpperOne(c: char): char {
    if 'a' <= c <= 'z' then (c as int - 32) as char else c
  }

  /** Letter case matters only for the letters of commands, which are ASCII. */
  function Lower(s: string): (r: string)
    ensures |r| == |s| && forall i | 0 <= i < |s| :: r[i] == LowerOne(s[i])
  {
    seq(|s|, i requires 0 <= i < |s| => LowerOne(s[i]))
  }

  function Upper(s: string): (r: string)
    ensures |r| == |s| && forall i | 0 <= i < |s| :: r[i] == UpperOne(s[i])
  {
    seq(|s|, i requires 0 <= i < |s| => UpperOne(s[i]))
  }

  predicate ValidRole(role: string) {
    role == "system" || role == "user" || role == "assistant"
  }

  predicate ValidCommand(s: string) {
    s == "from" || Labelled(s) || s == "parameter" || s == "message"
  }

  /** Commands that are printed under their own name. */
  predicate Labelled(name: string) {
    name == "license" || name == "template" || name == "system" || name == "adapter"
  }

  // -------------------------------------------------------------------- parsing

  /** Where a rune leads, and what is left of it. */
  function RuneFor(r: char, phase: Phase, line: nat): Outcome<(Phase, char)> {
    match phase
    case Nil =>
      if r == '#' then Ok((Comment, ZERO))
      else if Blank(r) || Newline(r) then Ok((Nil, ZERO))
      else Ok((Name, r))
    case Name =>
      if Alpha(r) then Ok((Name, r))
      else if Blank(r) then Ok((Value, ZERO))
      else Err(InvalidCommand(line))
    case Value =>
      if Newline(r) || Blank(r) then Ok((Nil, r)) else Ok((Value, r))
    case Parameter =>
      if Alpha(r) || Number(r) || r == '_' then Ok((Parameter, r))
      else if Blank(r) then Ok((Value, ZERO))
      else Err(UnexpectedEnd)
    case Message =>
      if Alpha(r) then Ok((Message, r))
      else if Blank(r) then Ok((Value, ZERO))
      else Err(UnexpectedEnd)
    case Comment =>
      if Newline(r) then Ok((Nil, ZERO)) else Ok((Comment, ZERO))
  }

  function Printed(p: char -> bool, r: char): string {
    if p(r) then [r] else ""
  }

  function WithRole(role: string, s: string): string {
    if role != "" then role + ": " + s else s
  }

  /** One rune, in a state that it makes the parser leave or stay in. */
  function Step(p: char -> bool, s: State, c: char): Outcome<State> {
    var line := s.line + if Newline(c) then 1 else 0;
    match RuneFor(c, s.phase, line)
    case Err(e) => Err(e)
    case Ok((next, r)) =>
      if next == s.phase then Ok(s.(b := s.b + Printed(p, r), line := line))
      else match s.phase
        case Name =>
          var w := Lower(s.b);
          if !ValidCommand(w) then Err(InvalidCommand(line))
          else if w == "from" then Ok(s.(phase := next, name := "model", b := Printed(p, r), line := line))
          else if w == "parameter" then Ok(s.(phase := Parameter, b := Printed(p, r), line := line))
          else if w == "message" then Ok(s.(phase := Message, name := w, b := Printed(p, r), line := line))
          else Ok(s.(phase := next, name := w, b := Printed(p, r), line := line))
        case Parameter =>
          Ok(s.(phase := next, name := s.b, b := Printed(p, r), line := line))
        case Message =>
          if !ValidRole(s.b) then Err(InvalidRole(line))
          else Ok(s.(phase := next, role := s.b, b := Printed(p, r), line := line))
        case Value =>
          if Held(s.b).None? || Blank(r) then Ok(s.(b := s.b + [r], line := line))
          else Ok(State(next, s.name, "", Printed(p, r), line,
                        s.commands + [Command(s.name, WithRole(s.role, Held(s.b).value))]))
        case _ =>
          Ok(s.(phase := next, b := Printed(p, r), line := line))
  }

  function Run(p: char -> bool, s: State, text: string): Outcome<State>
    decreases |text|
  {
    if text == "" then Ok(s)
    else match Step(p, s, text[0])
      case Ok(t) => Run(p, t, text[1..])
      case Err(e) => Err(e)
  }

  /** At the end of the text a value may still be pending. */
  function Flush(s: State): Outcome<seq<Command>> {
    match s.phase
    case Nil => Ok(s.commands)
    case Comment => Ok(s.commands)
    case Value =>
      if Held(s.b).None? then Err(UnexpectedEnd)
      else Ok(s.commands + [Command(s.name, WithRole(s.role, Held(s.b).value))])
    case _ => Err(UnexpectedEnd)
  }

  predicate HasModel(commands: seq<Command>) {
    exists i :: 0 <= i < |commands| && commands[i].name == "model"
  }

  function Parse(p: char -> bool, text: string): Outcome<seq<Command>> {
    match Run(p, START, text)
    case Err(e) => Err(e)
    case Ok(s) =>
      match Flush(s)
      case Err(e) => Err(e)
      case Ok(commands) => if HasModel(commands) then Ok(commands) else Err(MissingFrom)
  }

  lemma RunStep(p: char -> bool, s: State, text: string, i: nat)
    requires i < |text|
    ensures Run(p, s, text[i..]) == match Step(p, s, text[i])
      case Ok(t) => Run(p, t, text[i + 1..])
      case Err(e) => Err(e)
  {
    hide Step;
    assert text[i..][1..] == text[i + 1..];
  }

  /** The parser, rune by rune. */
  method ParseFile(p: char -> bool, text: string) returns (f: Outcome<seq<Command>>)
    ensures f == Parse(p, text)
  {
    var curr, name, role, b, currLine := Phase.Nil, "", "", "", 1;
    var commands: seq<Command> := [];
    for i := 0 to |text|
      invariant Run(p, START, text) == Run(p, State(curr, name, role, b, currLine, commands), text[i..])
    {
      hide Run, Held, ValidCommand;
      ghost var s := State(curr, name, role, b, currLine, commands);
      RunStep(p, s, text, i);
      if Newline(text[i]) {
        currLine := currLine + 1;
      }
      var parsed := RuneFor(text[i], curr, currLine);
      if parsed.Err? {
        return Err(parsed.error);
      }
      var (next, r) := parsed.value;
      if next != curr {
        match curr {
          case Name =>
            var w := Lower(b);
            if !ValidCommand(w) {
              return Err(InvalidCommand(currLine));
            }
            if w == "from" {
              name := "model";
            } else if w == "parameter" {
              next := Parameter;
            } else {
              if w == "message" {
                next := Message;
              }
              name := w;
            }
          case Parameter =>
            name := b;
          case Message =>
            if !ValidRole(b) {
              return Err(InvalidRole(currLine));
            }
            role := b;
          case Value =>
            var v := Held(b);
            if v.None? || Blank(r) {
              b := b + [r];
              assert Step(p, s, text[i]) == Ok(State(curr, name, role, b, currLine, commands));
              continue;
            }
            var args := v.value;
            if role != "" {
              args := role + ": " + args;
              role := "";
            }
            commands := commands + [Command(name, args)];
          case _ =>
        }
        b := "";
        curr := next;
      }
      assert b + Printed(p, r) == if p(r) then b + [r] else b;
      assert "" + Printed(p, r) == Printed(p, r);
      if p(r) {
        b := b + [r];
      }
      assert Step(p, s, text[i]) == Ok(State(curr, name, role, b, currLine, commands));
    }
    f := Finish(State(curr, name, role, b, currLine, commands));
  }

  method Finish(s: State) returns (f: Outcome<seq<Command>>)
    ensures f == match Flush(s)
      case Err(e) => Err(e)
      case Ok(commands) => if HasModel(commands) then Ok(commands) else Err(MissingFrom)
  {
    var commands := s.commands;
    match s.phase {
      case Comment =>
      case Nil =>
      case Value =>
        var v := Held(s.b);
        if v.None? {
          return Err(UnexpectedEnd);
        }
        commands := commands + [Command(s.name, WithRole(s.role, v.value))];
      case _ =>
        return Err(UnexpectedEnd);
    }
    for i := 0 to |commands|
      invariant forall j | 0 <= j < i :: commands[j].name != "model"
    {
      if commands[i].name == "model" {
        return Ok(commands);
      }
    }
    f := Err(MissingFrom);
  }

  // ------------------------------------------------------------------- printing

  /** The text before the first colon and space, and the text behind them. */
  function CutRole(args: string): (r: (string, string, bool))
    ensures r.2 ==> args == r.0 + ": " + r.1
    ensures !r.2 ==> r.0 == args && r.1 == ""
  {
    if |args| < 2 then (args, "", false)
    else if args[0] == ':' && args[1] == ' ' then
      assert args == "" + ": " + args[2..];
      ("", args[2..], true)
    else
      var (role, message, found) := CutRole(args[1..]);
      assert args == [args[0]] + args[1..];
      if found then
        assert args == [args[0]] + role + ": " + message;
        ([args[0]] + role, message, true)
      else (args, "", false)
  }

  function CommandText(c: Command): string {
    if c.name == "model" then "FROM " + c.args
    else if Labelled(c.name) then Upper(c.name) + " " + Quote(c.args)
    else if c.name == "message" then
      var (role, message, _) := CutRole(c.args);
      "MESSAGE " + (role + (" " + Quote(message)))
    else "PARAMETER " + (c.name + (" " + Quote(c.args)))
  }

  /** The first n commands, a line or more for each. */
  function FileText(commands: seq<Command>, n: nat): string
    requires n <= |commands|
  {
    if n == 0 then "" else FileText(commands, n - 1) + (CommandText(commands[n - 1]) + "\n")
  }

  method FileString(commands: seq<Command>) returns (sb: string)
    ensures sb == FileText(commands, |commands|)
  {
    sb := "";
    for i := 0 to |commands|
      invariant sb == FileText(commands, i)
    {
      sb := sb + (CommandText(commands[i]) + "\n");
    }
  }
}
