/**
  The parser: it reads and carries out in one pass, in place.  Its outcome is that of the commands
  the line spells, and success has a meaning that mentions neither.
*/
module CliParser {
  import opened Wrappers
  import opened CliGrammar

  // ----- what success means -----

  /** What the last command for an option gives it, if any does. */
  function LastValue(commands: seq<Command>, i: nat): Option<Value> {
    if commands == [] then None
    else match LastValue(commands[1..], i)
      case Some(value) => Some(value)
      case None =>
        match commands[0]
        case SetFlag(option) => if option == i then Some(Present) else None
        case Assign(option, text) => if option == i then Some(From(text)) else None
        case _ => None
  }

  /** The positional texts in order. */
  function Placed(commands: seq<Command>): seq<string> {
    if commands == [] then []
    else (if commands[0].Place? then [commands[0].text] else []) + Placed(commands[1..])
  }

  predicate Accepts(g: Grammar, c: Command) {
    match c
    case Stop(_) => false
    case Assign(i, text) => i < |g.options| && g.options[i].accepts(text)
    case _ => true
  }

  /** There is room for the positionals, from number `next` on, and each converts. */
  predicate HasRoom(g: Grammar, placed: seq<string>, next: nat) {
    && next + |placed| <= |g.positionals|
    && forall j :: 0 <= j < |placed| ==> g.positionals[next + j].accepts(placed[j])
  }

  /** Nothing stops the line, every value converts, and there is room for every positional. */
  predicate Acceptable(g: Grammar, commands: seq<Command>, next: nat) {
    (forall c <- commands :: Accepts(g, c)) && HasRoom(g, Placed(commands), next)
  }

  function Kept(value: Option<Value>, before: Value): Value {
    if value.Some? then value.value else before
  }

  /** The state after an acceptable line, from the line alone. */
  ghost predicate Reflects(g: Grammar, s: State, commands: seq<Command>, t: State)
    requires Shaped(g, s) && Shaped(g, t)
  {
    var placed := Placed(commands);
    && t.next == s.next + |placed|
    && (forall i :: 0 <= i < |g.options| ==>
          && t.options[i] == Kept(LastValue(commands, i), s.options[i])
          && t.seen[i] == (s.seen[i] || LastValue(commands, i).Some?))
    && (forall j :: 0 <= j < |g.positionals| ==>
          var given := s.next <= j < t.next;
          && t.args[j] == (if given then From(placed[j - s.next]) else s.args[j])
          && t.filled[j] == (s.filled[j] || given))
  }

  lemma {:induction false} DoAllMeans(g: Grammar, s: State, commands: seq<Command>)
    requires Shaped(g, s) && s.next <= |g.positionals| && forall c <- commands :: Fits(g, c)
    ensures DoAll(g, s, commands).0 == Success <==> Acceptable(g, commands, s.next)
    ensures DoAll(g, s, commands).0 == Success ==> Reflects(g, s, commands, DoAll(g, s, commands).1)
    decreases |commands|
  {
    if commands != [] {
      var r := Do(g, s, commands[0]);
      StepAccepted(g, s, commands);
      if r.0 == Success {
        DoAllMeans(g, r.1, commands[1..]);
        if DoAll(g, s, commands).0 == Success {
          StepReflected(g, s, commands, DoAll(g, s, commands).1);
        }
      }
    }
  }

  lemma OneMorePlace(g: Grammar, text: string, placed: seq<string>, next: nat)
    ensures HasRoom(g, [text] + placed, next)
       <==> next < |g.positionals| && g.positionals[next].accepts(text) && HasRoom(g, placed, next + 1)
  {
    var all := [text] + placed;
    if HasRoom(g, all, next) {
      assert all[0] == text && g.positionals[next + 0].accepts(all[0]);
      forall j | 0 <= j < |placed| ensures g.positionals[next + 1 + j].accepts(placed[j]) {
        assert all[j + 1] == placed[j] && g.positionals[next + (j + 1)].accepts(all[j + 1]);
      }
    }
    if next < |g.positionals| && g.positionals[next].accepts(text) && HasRoom(g, placed, next + 1) {
      forall j | 0 <= j < |all| ensures g.positionals[next + j].accepts(all[j]) {
        if j > 0 { assert all[j] == placed[j - 1] && g.positionals[next + 1 + (j - 1)].accepts(placed[j - 1]); }
      }
    }
  }

  lemma StepAccepted(g: Grammar, s: State, commands: seq<Command>)
    requires Shaped(g, s) && s.next <= |g.positionals| && commands != [] && Fits(g, commands[0])
    ensures var r := Do(g, s, commands[0]);
            Acceptable(g, commands, s.next)
            <==> r.0 == Success && r.1.next <= |g.positionals| && Acceptable(g, commands[1..], r.1.next)
  {
    hide HasRoom;
    var c, more := commands[0], commands[1..];
    assert commands == [c] + more;
    assert (forall d <- commands :: Accepts(g, d)) <==> Accepts(g, c) && forall d <- more :: Accepts(g, d);
    if c.Place? {
      OneMorePlace(g, c.text, Placed(more), s.next);
    } else {
      assert Placed(commands) == Placed(more);
    }
  }

  lemma StepReflected(g: Grammar, s: State, commands: seq<Command>, t: State)
    requires Shaped(g, s) && Shaped(g, t) && commands != [] && Fits(g, commands[0])
    requires var r := Do(g, s, commands[0]); r.0 == Success && Reflects(g, r.1, commands[1..], t)
    ensures Reflects(g, s, commands, t)
  {
  }

  /** A parse succeeds exactly on an acceptable line that gives everything required. */
  lemma SuccessMeans(g: Grammar, s: State, args: seq<string>)
    requires Fresh(g, s)
    ensures forall c <- Commands(g, args) :: Fits(g, c)
    ensures var commands := Commands(g, args);
            Outcome(g, s, args).0 == Success <==>
              && Acceptable(g, commands, 0)
              && (forall i :: 0 <= i < |g.options| && g.options[i].required ==> LastValue(commands, i).Some?)
              && (forall j :: 0 <= j < |g.positionals| && g.positionals[j].required ==> j < |Placed(commands)|)
    ensures !Acceptable(g, Commands(g, args), 0) ==> Outcome(g, s, args) == DoAll(g, s, Commands(g, args))
    ensures Acceptable(g, Commands(g, args), 0) && Outcome(g, s, args).0 != Success ==>
              Outcome(g, s, args).0 == Failure(MissingRequired)
    ensures Outcome(g, s, args).0 == Success ==>
              && Shaped(g, Outcome(g, s, args).1)
              && Reflects(g, s, Commands(g, args), Outcome(g, s, args).1)
  {
    CommandsFit(g, args);
    hide Commands, Acceptable, LastValue, Placed;
    DoAllMeans(g, s, Commands(g, args));
  }

  /** A failed parse has carried out the commands before the one that failed, and no more. */
  lemma {:induction false} FailureKeepsPrefix(g: Grammar, s: State, commands: seq<Command>) returns (k: nat)
    requires Shaped(g, s) && forall c <- commands :: Fits(g, c)
    requires DoAll(g, s, commands).0 != Success
    ensures k < |commands| && DoAll(g, s, commands[..k]).0 == Success
    ensures DoAll(g, s, commands) == Do(g, DoAll(g, s, commands[..k]).1, commands[k])
    ensures DoAll(g, s, commands).0 ==
            match commands[k]
            case Stop(result) => result
            case Place(_) =>
              Failure(if DoAll(g, s, commands[..k]).1.next < |g.positionals| then InvalidValue else UnexpectedPositional)
            case _ => Failure(InvalidValue)
    ensures !commands[k].SetFlag?
    ensures commands[k].Assign? ==> !g.options[commands[k].option].accepts(commands[k].text)
    decreases |commands|
  {
    var r := Do(g, s, commands[0]);
    if r.0 != Success {
      k := 0;
    } else {
      var j := FailureKeepsPrefix(g, r.1, commands[1..]);
      k := j + 1;
      assert commands[..k][1..] == commands[1..][..j];
    }
  }

  // ----- the parser -----

  /** Two runs of commands, one after the other. */
  lemma {:induction false} DoAllInTwo(g: Grammar, s: State, first: seq<Command>, second: seq<Command>)
    requires Shaped(g, s) && (forall c <- first :: Fits(g, c)) && (forall c <- second :: Fits(g, c))
    ensures forall c <- first + second :: Fits(g, c)
    ensures var r := DoAll(g, s, first);
            DoAll(g, s, first + second) == if r.0 == Success then DoAll(g, r.1, second) else r
    decreases |first|
  {
    if first == [] {
      assert first + second == second;
    } else {
      assert (first + second)[1..] == first[1..] + second;
      var r := Do(g, s, first[0]);
      if r.0 == Success { DoAllInTwo(g, r.1, first[1..], second); }
    }
  }

  class CliParser {
    const grammar: Grammar
    var options: seq<Value>
    var seen: seq<bool>
    var args: seq<Value>
    var filled: seq<bool>

    ghost predicate Valid()
      reads this
    {
      Shaped(grammar, Snapshot(0))
    }

    function Snapshot(next: nat): State
      reads this
    {
      State(options, seen, args, filled, next)
    }

    constructor (grammar: Grammar)
      ensures Valid() && this.grammar == grammar && Fresh(grammar, Snapshot(0))
    {
      this.grammar := grammar;
      options := seq(|grammar.options|, _ => Default);
      seen := seq(|grammar.options|, _ => false);
      args := seq(|grammar.positionals|, _ => Default);
      filled := seq(|grammar.positionals|, _ => false);
    }

    method FindLong(name: string) returns (i: nat)
      ensures i == CliGrammar.FindLong(grammar, name)
    {
      i := 0;
      while i < |grammar.options|
        invariant i <= |grammar.options|
        invariant CliGrammar.FindLong(grammar, name) == FindLongFrom(grammar, name, i)
      {
        if grammar.options[i].longName != "" && grammar.options[i].longName == name { return; }
        i := i + 1;
      }
    }

    method FindShort(letter: char) returns (i: nat)
      ensures i == CliGrammar.FindShort(grammar, letter)
    {
      i := 0;
      while i < |grammar.options|
        invariant i <= |grammar.options|
        invariant CliGrammar.FindShort(grammar, letter) == FindShortFrom(grammar, letter, i)
      {
        if grammar.options[i].shortName != NoName && grammar.options[i].shortName == letter { return; }
        i := i + 1;
      }
    }

    /** `set_flag` and the mark beside it. */
    method MarkFlag(i: nat, ghost next: nat)
      requires Valid() && Fits(grammar, SetFlag(i))
      modifies this`options, this`seen
      ensures Valid() && (Success, Snapshot(next)) == Do(grammar, old(Snapshot(next)), SetFlag(i))
    {
      options := options[i := Present];
      seen := seen[i := true];
    }

    method AssignOption(i: nat, text: string, ghost next: nat) returns (result: ParseResult)
      requires Valid() && Fits(grammar, Assign(i, text))
      modifies this`options, this`seen
      ensures Valid() && (result, Snapshot(next)) == Do(grammar, old(Snapshot(next)), Assign(i, text))
    {
      if !grammar.options[i].accepts(text) { return Failure(InvalidValue); }
      options := options[i := From(text)];
      seen := seen[i := true];
      return Success;
    }

    method ConsumePositional(token: string, next: nat) returns (result: ParseResult, next': nat)
      requires Valid()
      modifies this`args, this`filled
      ensures Valid() && (result, Snapshot(next')) == Do(grammar, old(Snapshot(next)), Place(token))
    {
      if next >= |grammar.positionals| { return Failure(UnexpectedPositional), next; }
      next' := next + 1;
      if !grammar.positionals[next].accepts(token) { return Failure(InvalidValue), next'; }
      args := args[next := From(token)];
      filled := filled[next := true];
      return Success, next';
    }

    /** `parse_long`; `tokens[index]` is the token in hand. */
    method ParseLong(body: string, tokens: seq<string>, index: nat, ghost next: nat)
      returns (result: ParseResult, index': nat)
      requires Valid() && index < |tokens|
      modifies this`options, this`seen
      ensures Valid()
      ensures var l := LexLong(grammar, body, tokens[index + 1..]);
              && |l.commands| == 1 && Fits(grammar, l.commands[0])
              && (result, Snapshot(next)) == Do(grammar, old(Snapshot(next)), l.commands[0])
              && (l.stopped ==> result != Success)
              && index' == index + l.used
    {
      hide CliGrammar.FindLong, EqualsSign;
      index' := index;
      var eq := EqualsSign(body);
      var i := FindLong(body[..eq]);
      if i == |grammar.options| { return Failure(UnknownOption), index'; }
      var option := grammar.options[i];
      if option.kind == Help { return HelpRequested, index'; }
      if option.kind == Flag {
        if eq < |body| { return Failure(UnexpectedValue), index'; }
        MarkFlag(i, next);
        return Success, index';
      }
      var value;
      if eq < |body| {
        value := body[eq + 1..];
      } else {
        if index + 1 >= |tokens| { return Failure(MissingValue), index'; }
        index' := index + 1;
        value := tokens[index'];
      }
      result := AssignOption(i, value, next);
    }

    /** `parse_short`: the cluster letter by letter. */
    method ParseShort(body: string, tokens: seq<string>, index: nat, ghost next: nat)
      returns (result: ParseResult, index': nat)
      requires Valid() && index < |tokens|
      modifies this`options, this`seen
      ensures Valid()
      ensures forall c <- LexShort(grammar, body, tokens[index + 1..]).commands :: Fits(grammar, c)
      ensures var l := LexShort(grammar, body, tokens[index + 1..]);
              && (result, Snapshot(next)) == DoAll(grammar, old(Snapshot(next)), l.commands)
              && (result == Success ==> !l.stopped && index' == index + l.used)
    {
      hide CliGrammar.FindShort;
      index' := index;
      ghost var rest := tokens[index + 1..];
      LexShortFits(grammar, body, rest);
      ghost var whole := LexShort(grammar, body, rest);
      ghost var outcome := DoAll(grammar, Snapshot(next), whole.commands);
      assert body[0..] == body;
      for pos := 0 to |body|
        invariant Valid() && index' == index
        invariant forall c <- LexShort(grammar, body[pos..], rest).commands :: Fits(grammar, c)
        invariant outcome == DoAll(grammar, Snapshot(next), LexShort(grammar, body[pos..], rest).commands)
        invariant LexShort(grammar, body[pos..], rest).used == whole.used
        invariant LexShort(grammar, body[pos..], rest).stopped == whole.stopped
      {
        ghost var here := LexShort(grammar, body[pos..], rest);
        ghost var before := Snapshot(next);
        var letter := body[pos];
        assert body[pos..][1..] == body[pos + 1..];
        var i := FindShort(letter);
        if i == |grammar.options| {
          OneCommand(grammar, before, here.commands[0]);
          return Failure(UnknownOption), index';
        }
        var option := grammar.options[i];
        if option.kind == Help {
          OneCommand(grammar, before, here.commands[0]);
          return HelpRequested, index';
        }
        if option.kind == Flag {
          FirstCommand(grammar, before, here.commands);
          MarkFlag(i, next);
          LexShortFits(grammar, body[pos + 1..], rest);
          continue;
        }
        OneCommand(grammar, before, here.commands[0]);
        var tail := body[pos + 1..];
        if tail != "" {
          if tail[0] == '=' { tail := tail[1..]; }
          result := AssignOption(i, tail, next);
          return result, index';
        }
        if index + 1 >= |tokens| { return Failure(MissingValue), index'; }
        index' := index + 1;
        result := AssignOption(i, tokens[index'], next);
        return result, index';
      }
      return Success, index';
    }

    /** `check_required`. */
    method CheckRequired(ghost next: nat) returns (result: ParseResult)
      requires Valid()
      ensures result == if Satisfied(grammar, Snapshot(next)) then Success else Failure(MissingRequired)
    {
      for i := 0 to |grammar.options|
        invariant forall k :: 0 <= k < i && grammar.options[k].required ==> seen[k]
      {
        if grammar.options[i].required && !seen[i] { return Failure(MissingRequired); }
      }
      for j := 0 to |grammar.positionals|
        invariant forall k :: 0 <= k < j && grammar.positionals[k].required ==> filled[k]
      {
        if grammar.positionals[j].required && !filled[j] { return Failure(MissingRequired); }
      }
      return Success;
    }

    /** The body of the loop of `parse`, for a token that is read as an option or a positional. */
    method ParseToken(tokens: seq<string>, index: nat, next: nat)
      returns (result: ParseResult, index': nat, next': nat)
      requires Valid() && index < |tokens|
      modifies this`options, this`seen, this`args, this`filled
      ensures Valid()
      ensures forall c <- LexToken(grammar, tokens[index], tokens[index + 1..]).commands :: Fits(grammar, c)
      ensures var l := LexToken(grammar, tokens[index], tokens[index + 1..]);
              && (result, Snapshot(next')) == DoAll(grammar, old(Snapshot(next)), l.commands)
              && (result == Success ==> !l.stopped && index' == index + l.used)
    {
      hide LexLong, LexShort;
      index', next' := index, next;
      var token := tokens[index];
      ghost var before := Snapshot(next);
      ghost var l := LexToken(grammar, token, tokens[index + 1..]);
      if IsLong(token) {
        result, index' := ParseLong(token[2..], tokens, index, next);
        assert l.commands == [l.commands[0]];
        OneCommand(grammar, before, l.commands[0]);
      } else if IsShort(token) {
        result, index' := ParseShort(token[1..], tokens, index, next);
      } else {
        result, next' := ConsumePositional(token, next);
        OneCommand(grammar, before, Place(token));
      }
    }

    /**
      `parse`: the outcome is the one the tokens have by themselves, for any tokens and whatever
      the variables held before.
    */
    method Parse(tokens: seq<string>) returns (result: ParseResult, ghost next: nat)
      requires Valid()
      modifies this`options, this`seen, this`args, this`filled
      ensures Valid()
      ensures Shaped(grammar, old(Cleared())) && Fresh(grammar, old(Cleared()))
      ensures (result, Snapshot(next)) == Outcome(grammar, old(Cleared()), tokens)
    {
      hide LexToken, Commands, Places, DoAll, Do;
      seen := seq(|grammar.options|, _ => false);
      filled := seq(|grammar.positionals|, _ => false);
      ghost var start := Snapshot(0);
      assert start == old(Cleared());
      CommandsFit(grammar, tokens);
      ghost var outcome := DoAll(grammar, start, Commands(grammar, tokens));
      var place, i: nat := 0, 0;
      var ended := false;
      assert tokens[0..] == tokens;
      while i < |tokens|
        invariant Valid() && i <= |tokens|
        invariant forall c <- Ahead(grammar, tokens[i..], ended) :: Fits(grammar, c)
        invariant outcome == DoAll(grammar, Snapshot(place), Ahead(grammar, tokens[i..], ended))
      {
        ghost var ahead := Ahead(grammar, tokens[i..], ended);
        ghost var before := Snapshot(place);
        var token := tokens[i];
        assert tokens[i..] == [token] + tokens[i + 1..];
        if !ended && token == "--" {
          TokenAhead(grammar, tokens[i..]);
          assert tokens[i..][1..] == tokens[i + 1..];
          ended := true;
        } else if !ended {
          ghost var l := LexToken(grammar, token, tokens[i + 1..]);
          ghost var later := if l.stopped then [] else Commands(grammar, tokens[i + 1..][l.used..]);
          TokenAhead(grammar, tokens[i..]);
          assert tokens[i..][1..] == tokens[i + 1..];
          CommandsFit(grammar, tokens[i + 1..][l.used..]);
          result, i, place := ParseToken(tokens, i, place);
          DoAllInTwo(grammar, before, l.commands, later);
          if result != Success {
            next := place;
            return;
          }
          assert tokens[i + 1..] == tokens[i + 1 - l.used..][l.used..];
        } else {
          PlacesAhead(grammar, tokens[i..]);
          assert tokens[i..][1..] == tokens[i + 1..];
          FirstCommand(grammar, before, ahead);
          result, place := ConsumePositional(token, place);
          if result != Success {
            next := place;
            return;
          }
        }
        i := i + 1;
      }
      next := place;
      NothingAhead(grammar, Snapshot(next), ended);
      result := CheckRequired(next);
    }

    /** The state a parse starts from: the variables as they are, the marks cleared. */
    function Cleared(): State
      reads this
    {
      State(options, seq(|grammar.options|, _ => false), args, seq(|grammar.positionals|, _ => false), 0)
    }
  }

  /** What the tokens still to come say. */
  function Ahead(g: Grammar, tokens: seq<string>, ended: bool): seq<Command> {
    if ended then Places(tokens) else Commands(g, tokens)
  }

  lemma TokenAhead(g: Grammar, tokens: seq<string>)
    requires tokens != []
    ensures var rest := tokens[1..];
            var l := LexToken(g, tokens[0], rest);
            && (tokens[0] == "--" ==> Commands(g, tokens) == Places(rest))
            && (tokens[0] != "--" ==>
                  Commands(g, tokens) == l.commands + (if l.stopped then [] else Commands(g, rest[l.used..])))
  {
  }

  lemma NothingAhead(g: Grammar, s: State, ended: bool)
    requires Shaped(g, s)
    ensures Ahead(g, [], ended) == [] && DoAll(g, s, []) == (Success, s)
  {
  }

  lemma PlacesAhead(g: Grammar, tokens: seq<string>)
    requires tokens != []
    ensures Places(tokens) == [Place(tokens[0])] + Places(tokens[1..])
    ensures Places(tokens)[1..] == Places(tokens[1..])
    ensures forall c <- Places(tokens[1..]) :: Fits(g, c)
  {
  }

  lemma OneCommand(g: Grammar, s: State, c: Command)
    requires Shaped(g, s) && Fits(g, c)
    ensures DoAll(g, s, [c]) == Do(g, s, c)
  {
    var r := Do(g, s, c);
    assert [c][1..] == [];
  }

  lemma FirstCommand(g: Grammar, s: State, commands: seq<Command>)
    requires Shaped(g, s) && commands != [] && forall c <- commands :: Fits(g, c)
    ensures var r := Do(g, s, commands[0]);
            DoAll(g, s, commands) == if r.0 != Success then r else DoAll(g, r.1, commands[1..])
  {
  }
}
