/**
  The documented forms of an argument, one by one: what each spells, whatever follows it.
*/
module CliForms {
  import opened Wrappers
  import opened CliGrammar
  import opened CliNormal

  /** What a line says that begins with a token that does not stop it, and how many tokens it takes. */
  lemma FirstToken(g: Grammar, token: string, rest: seq<string>, l: Lexed)
    requires token != "--" && l == LexToken(g, token, rest)
    ensures Commands(g, [token] + rest) == l.commands + (if l.stopped then [] else Commands(g, rest[l.used..]))
  {
    assert ([token] + rest)[1..] == rest;
  }

  lemma LongBody(name: string, more: string)
    requires '=' !in name && (more == "" || more[0] == '=')
    ensures var body := name + more;
            EqualsSign(body) == |name| && body[..|name|] == name && (more != "" ==> body[|name| + 1..] == more[1..])
    ensures ("--" + name + more)[2..] == name + more
  {
    if more != "" { assert (name + more)[|name|] == '='; }
  }

  /** `--name value` and `--name=value` give the option that value; the first needs one. */
  lemma LongValueForms(g: Grammar, name: string, value: string, rest: seq<string>)
    requires '=' !in name && FindLong(g, name) < |g.options| && g.options[FindLong(g, name)].kind == Valued
    ensures var given := [Assign(FindLong(g, name), value)];
            && Commands(g, ["--" + name, value] + rest) == given + Commands(g, rest)
            && Commands(g, ["--" + name + ("=" + value)] + rest) == given + Commands(g, rest)
    ensures Commands(g, ["--" + name]) == [Stop(Failure(MissingValue))]
  {
    hide Commands;
    LongValueSays(g, name, value, rest);
    LongBody(name, "=" + value);
    var inlined := "--" + name + ("=" + value);
    FirstToken(g, inlined, rest, LexToken(g, inlined, rest));
    LongBody(name, "");
    assert "--" + name + "" == "--" + name && name + "" == name;
    FirstToken(g, "--" + name, [], LexToken(g, "--" + name, []));
    assert ["--" + name] + [] == ["--" + name];
  }

  /** `--name` sets a flag; with a value it is an error. */
  lemma LongFlagForms(g: Grammar, name: string, value: string, rest: seq<string>)
    requires '=' !in name && FindLong(g, name) < |g.options| && g.options[FindLong(g, name)].kind == Flag
    ensures Commands(g, ["--" + name] + rest) == [SetFlag(FindLong(g, name))] + Commands(g, rest)
    ensures Commands(g, ["--" + name + ("=" + value)] + rest) == [Stop(Failure(UnexpectedValue))]
  {
    hide Commands;
    LongBody(name, "=" + value);
    var inlined := "--" + name + ("=" + value);
    FirstToken(g, inlined, rest, LexToken(g, inlined, rest));
    LongBody(name, "");
    assert "--" + name + "" == "--" + name && name + "" == name;
    FirstToken(g, "--" + name, rest, LexToken(g, "--" + name, rest));
  }

  /** A long name that is nobody's stops the line, and so does help, with a value or without. */
  lemma LongStops(g: Grammar, name: string, more: string, rest: seq<string>)
    requires name != "" && '=' !in name && (more == "" || more[0] == '=')
    requires FindLong(g, name) == |g.options| || g.options[FindLong(g, name)].kind == Help
    ensures Commands(g, ["--" + name + more] + rest)
         == [Stop(if FindLong(g, name) == |g.options| then Failure(UnknownOption) else HelpRequested)]
  {
    hide Commands;
    LongBody(name, more);
    FirstToken(g, "--" + name + more, rest, LexToken(g, "--" + name + more, rest));
  }

  /** `-n value`, `-n=value` and `-nvalue` give the option that value; the first needs one. */
  lemma ShortValueForms(g: Grammar, letter: char, value: string, rest: seq<string>)
    requires letter != '-' && IsValued(g, letter)
    ensures var given := [Assign(FindShort(g, letter), value)];
            && Commands(g, [['-', letter], value] + rest) == given + Commands(g, rest)
            && Commands(g, [['-', letter, '='] + value] + rest) == given + Commands(g, rest)
            && (value != "" && value[0] != '=' ==>
                  Commands(g, [['-', letter] + value] + rest) == given + Commands(g, rest))
    ensures Commands(g, [['-', letter]]) == [Stop(Failure(MissingValue))]
  {
    hide Commands;
    var apart, equals, glued := ['-', letter], ['-', letter, '='] + value, ['-', letter] + value;
    assert apart[1..] == [letter] && equals[1..][1..] == ['='] + value && glued[1..][1..] == value;
    FirstToken(g, apart, [value] + rest, LexToken(g, apart, [value] + rest));
    assert ([value] + rest)[1..] == rest && [apart] + ([value] + rest) == [apart, value] + rest;
    FirstToken(g, equals, rest, LexToken(g, equals, rest));
    FirstToken(g, glued, rest, LexToken(g, glued, rest));
    FirstToken(g, apart, [], LexToken(g, apart, []));
    assert [apart] + [] == [apart];
  }

  /** Behind any flags in a cluster too. */
  lemma ClusterValueForms(g: Grammar, group: string, letter: char, value: string, rest: seq<string>)
    requires AllFlags(g, group) && (group + [letter])[0] != '-' && IsValued(g, letter)
    ensures var given := FlagCommands(g, group) + [Assign(FindShort(g, letter), value)];
            && Commands(g, ["-" + group + [letter], value] + rest) == given + Commands(g, rest)
            && Commands(g, ["-" + group + ([letter] + ("=" + value))] + rest) == given + Commands(g, rest)
  {
    hide Commands, AllFlags, FlagCommands;
    ValueSays(g, group, letter, value, rest);
    var body := [letter] + ("=" + value);
    assert (group + body)[0] == (group + [letter])[0];
    ClusterSays(g, group, body, rest);
    assert body[1..] == "=" + value && ("=" + value)[1..] == value;
    assert rest[0..] == rest;
    assert LexShort(g, body, rest) == Lexed([Assign(FindShort(g, letter), value)], 0, false);
  }

  /** Flags combine; a letter that is nobody's stops the line, and so does help. */
  lemma ShortFlagForms(g: Grammar, group: string, more: string, rest: seq<string>)
    requires AllFlags(g, group) && group + more != "" && (group + more)[0] != '-'
    ensures more == "" ==> Commands(g, ["-" + group] + rest) == FlagCommands(g, group) + Commands(g, rest)
    ensures more != "" && StopsAt(g, more[0]) ==>
              Commands(g, ["-" + group + more] + rest)
              == FlagCommands(g, group)
                 + [Stop(if FindShort(g, more[0]) == |g.options| then Failure(UnknownOption) else HelpRequested)]
  {
    hide Commands, AllFlags, FlagCommands;
    ClusterSays(g, group, more, rest);
    if more == "" {
      assert group + more == group;
      GroupSays(g, group, rest);
    }
  }

  /** Anything else is positional: no leading dash, or a dash alone, or anything after `--`. */
  lemma PositionalForms(g: Grammar, token: string, rest: seq<string>)
    ensures token == "" || token[0] != '-' || token == "-" ==>
              Commands(g, [token] + rest) == [Place(token)] + Commands(g, rest)
    ensures var said := Commands(g, ["--"] + rest);
            |said| == |rest| && forall i :: 0 <= i < |rest| ==> said[i] == Place(rest[i])
  {
    TerminatorSays(g, rest);
    if token == "" || token[0] != '-' || token == "-" {
      hide Commands;
      assert token != "--";
      FirstToken(g, token, rest, LexToken(g, token, rest));
    }
  }
}
