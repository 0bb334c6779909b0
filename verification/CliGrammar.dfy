/**
  What a command line means: its tokens are read as a list of commands, with no state, and the
  commands are carried out in order.  `CliParser` does both at once.
*/
module CliGrammar {
  import opened Wrappers

  datatype Kind = Help | Flag | Valued

  datatype OptionSpec = OptionSpec(longName: string, shortName: char, kind: Kind, required: bool, accepts: string -> bool)

  datatype PositionalSpec = PositionalSpec(required: bool, accepts: string -> bool)

  datatype Grammar = Grammar(options: seq<OptionSpec>, positionals: seq<PositionalSpec>)

  datatype CliError =
    | UnknownOption
    | MissingValue
    | UnexpectedValue
    | InvalidValue
    | MissingRequired
    | UnexpectedPositional

  datatype ParseResult = Success | HelpRequested | Failure(error: CliError)

  // ----- reading -----

  datatype Command =
    | SetFlag(option: nat)
    | Assign(option: nat, text: string)
    | Place(text: string)
    | Stop(result: ParseResult)

  const NoName: char := '\0'

  /** The first option with that long name, or the number of options. */
  function FindLong(g: Grammar, name: string): (i: nat)
    ensures i <= |g.options|
    ensures i < |g.options| ==> name != "" && g.options[i].longName == name
    ensures forall j :: 0 <= j < i ==> name == "" || g.options[j].longName != name
  {
    FindLongFrom(g, name, 0)
  }

  function FindLongFrom(g: Grammar, name: string, from: nat): (i: nat)
    requires from <= |g.options|
    ensures from <= i <= |g.options|
    ensures i < |g.options| ==> name != "" && g.options[i].longName == name
    ensures forall j :: from <= j < i ==> name == "" || g.options[j].longName != name
    decreases |g.options| - from
  {
    if from == |g.options| || (g.options[from].longName != "" && g.options[from].longName == name) then from
    else FindLongFrom(g, name, from + 1)
  }

  function FindShort(g: Grammar, letter: char): (i: nat)
    ensures i <= |g.options|
    ensures i < |g.options| ==> letter != NoName && g.options[i].shortName == letter
    ensures forall j :: 0 <= j < i ==> letter == NoName || g.options[j].shortName != letter
  {
    FindShortFrom(g, letter, 0)
  }

  function FindShortFrom(g: Grammar, letter: char, from: nat): (i: nat)
    requires from <= |g.options|
    ensures from <= i <= |g.options|
    ensures i < |g.options| ==> letter != NoName && g.options[i].shortName == letter
    ensures forall j :: from <= j < i ==> letter == NoName || g.options[j].shortName != letter
    decreases |g.options| - from
  {
    if from == |g.options| || (g.options[from].shortName != NoName && g.options[from].shortName == letter) then from
    else FindShortFrom(g, letter, from + 1)
  }

  /** The position of the first equals sign, or the length. */
  function EqualsSign(body: string): (k: nat)
    ensures k <= |body|
    ensures k < |body| ==> body[k] == '='
    ensures forall i :: 0 <= i < k ==> body[i] != '='
  {
    if body == "" || body[0] == '=' then 0 else 1 + EqualsSign(body[1..])
  }

  predicate IsLong(token: string) { |token| >= 2 && token[0] == '-' && token[1] == '-' }

  predicate IsShort(token: string) { |token| >= 2 && token[0] == '-' && token[1] != '-' }

  /** What one token, and the token after it when it wants a value, says. */
  datatype Lexed = Lexed(commands: seq<Command>, used: nat, stopped: bool)

  function Stopped(result: ParseResult): Lexed { Lexed([Stop(result)], 0, true) }

  /** A value option with its value inline, or in the next token. */
  function WithValue(option: nat, inlined: Option<string>, rest: seq<string>): (l: Lexed)
    ensures l.used <= |rest|
  {
    match inlined
    case Some(text) => Lexed([Assign(option, text)], 0, false)
    case None =>
      if rest == [] then Stopped(Failure(MissingValue)) else Lexed([Assign(option, rest[0])], 1, false)
  }

  function LexLong(g: Grammar, body: string, rest: seq<string>): (l: Lexed)
    ensures l.used <= |rest|
  {
    var eq := EqualsSign(body);
    var i := FindLong(g, body[..eq]);
    if i == |g.options| then Stopped(Failure(UnknownOption))
    else match g.options[i].kind
      case Help => Stopped(HelpRequested)
      case Flag => if eq < |body| then Stopped(Failure(UnexpectedValue)) else Lexed([SetFlag(i)], 0, false)
      case Valued => WithValue(i, if eq < |body| then Some(body[eq + 1..]) else None, rest)
  }

  /** What is glued to a value letter: nothing, or a value with one equals sign dropped. */
  function Glued(tail: string): Option<string> {
    if tail == "" then None else if tail[0] == '=' then Some(tail[1..]) else Some(tail)
  }

  function LexShort(g: Grammar, body: string, rest: seq<string>): (l: Lexed)
    ensures l.used <= |rest|
  {
    if body == "" then Lexed([], 0, false)
    else
      var i := FindShort(g, body[0]);
      if i == |g.options| then Stopped(Failure(UnknownOption))
      else match g.options[i].kind
        case Help => Stopped(HelpRequested)
        case Flag =>
          var more := LexShort(g, body[1..], rest);
          Lexed([SetFlag(i)] + more.commands, more.used, more.stopped)
        case Valued => WithValue(i, Glued(body[1..]), rest)
  }

  function LexToken(g: Grammar, token: string, rest: seq<string>): (l: Lexed)
    ensures l.used <= |rest|
  {
    if IsLong(token) then LexLong(g, token[2..], rest)
    else if IsShort(token) then LexShort(g, token[1..], rest)
    else Lexed([Place(token)], 0, false)
  }

  function Places(args: seq<string>): seq<Command> { seq(|args|, i requires 0 <= i < |args| => Place(args[i])) }

  /** The commands of a command line, up to the first that stops it. */
  function Commands(g: Grammar, args: seq<string>): seq<Command>
    decreases |args|
  {
    if args == [] then []
    else if args[0] == "--" then Places(args[1..])
    else
      var l := LexToken(g, args[0], args[1..]);
      l.commands + (if l.stopped then [] else Commands(g, args[1..][l.used..]))
  }

  /** Commands name options of the grammar, of the right kind. */
  predicate Fits(g: Grammar, c: Command) {
    match c
    case SetFlag(i) => i < |g.options| && g.options[i].kind == Flag
    case Assign(i, _) => i < |g.options| && g.options[i].kind == Valued
    case Place(_) => true
    case Stop(result) => result != Success
  }

  lemma {:induction false} LexShortFits(g: Grammar, body: string, rest: seq<string>)
    ensures forall c <- LexShort(g, body, rest).commands :: Fits(g, c)
  {
    if body != "" { LexShortFits(g, body[1..], rest); }
  }

  lemma {:induction false} CommandsFit(g: Grammar, args: seq<string>)
    ensures forall c <- Commands(g, args) :: Fits(g, c)
    decreases |args|
  {
    if args != [] && args[0] != "--" {
      var l := LexToken(g, args[0], args[1..]);
      if IsShort(args[0]) { LexShortFits(g, args[0][1..], args[1..]); }
      CommandsFit(g, args[1..][l.used..]);
    }
  }

  // ----- carrying out -----

  /** A bound variable: its default, or set, or converted from a text. */
  datatype Value = Default | Present | From(text: string)

  datatype State = State(options: seq<Value>, seen: seq<bool>, args: seq<Value>, filled: seq<bool>, next: nat)

  predicate Shaped(g: Grammar, s: State) {
    && |s.options| == |s.seen| == |g.options|
    && |s.args| == |s.filled| == |g.positionals|
  }

  /** The start of a parse: variables hold what they hold, nothing has been seen. */
  predicate Fresh(g: Grammar, s: State) {
    && Shaped(g, s) && s.next == 0
    && (forall i :: 0 <= i < |g.options| ==> !s.seen[i])
    && (forall j :: 0 <= j < |g.positionals| ==> !s.filled[j])
  }

  function Do(g: Grammar, s: State, c: Command): (r: (ParseResult, State))
    requires Shaped(g, s) && Fits(g, c)
    ensures Shaped(g, r.1)
  {
    match c
    case SetFlag(i) => (Success, s.(options := s.options[i := Present], seen := s.seen[i := true]))
    case Assign(i, text) =>
      if g.options[i].accepts(text)
      then (Success, s.(options := s.options[i := From(text)], seen := s.seen[i := true]))
      else (Failure(InvalidValue), s)
    case Place(text) =>
      if s.next >= |g.positionals| then (Failure(UnexpectedPositional), s)
      else if g.positionals[s.next].accepts(text)
      then (Success, s.(args := s.args[s.next := From(text)], filled := s.filled[s.next := true], next := s.next + 1))
      else (Failure(InvalidValue), s.(next := s.next + 1))
    case Stop(result) => (result, s)
  }

  /** The commands in order, up to the first that does not succeed. */
  function DoAll(g: Grammar, s: State, commands: seq<Command>): (r: (ParseResult, State))
    requires Shaped(g, s) && forall c <- commands :: Fits(g, c)
    ensures Shaped(g, r.1)
    decreases |commands|
  {
    if commands == [] then (Success, s)
    else
      var r := Do(g, s, commands[0]);
      if r.0 != Success then r else DoAll(g, r.1, commands[1..])
  }

  predicate Satisfied(g: Grammar, s: State)
    requires Shaped(g, s)
  {
    && (forall i :: 0 <= i < |g.options| && g.options[i].required ==> s.seen[i])
    && (forall j :: 0 <= j < |g.positionals| && g.positionals[j].required ==> s.filled[j])
  }

  function Checked(g: Grammar, r: (ParseResult, State)): (ParseResult, State)
    requires Shaped(g, r.1)
  {
    if r.0 == Success && !Satisfied(g, r.1) then (Failure(MissingRequired), r.1) else r
  }

  /** The outcome of a parse. */
  function Outcome(g: Grammar, s: State, args: seq<string>): (ParseResult, State)
    requires Shaped(g, s)
  {
    CommandsFit(g, args);
    Checked(g, DoAll(g, s, Commands(g, args)))
  }
}
