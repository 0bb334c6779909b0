/**
  A normal form of command lines: short clusters split wherever a split is harmless, every inline
  value a token of its own.  It says exactly what the line said.
*/
module CliNormal {
  import opened Wrappers
  import opened CliGrammar

  /** A short cluster, `group` being letters already read that no split may leave. */
  function Split(g: Grammar, group: string, body: string, rest: seq<string>): seq<string>
    decreases |rest|, 1, |body|
  {
    if body == "" then ["-" + group] + Normalise(g, rest)
    else
      var i := FindShort(g, body[0]);
      var tail := body[1..];
      if i == |g.options| || g.options[i].kind == Help then ["-" + group + body] + rest
      else if g.options[i].kind == Flag then
        if tail == "" || tail[0] == '-' then Split(g, group + [body[0]], tail, rest)
        else ["-" + group + [body[0]]] + Split(g, "", tail, rest)
      else match Glued(tail)
        case Some(text) => ["-" + group + [body[0]], text] + Normalise(g, rest)
        case None =>
          if rest == [] then ["-" + group + [body[0]]]
          else ["-" + group + [body[0]], rest[0]] + Normalise(g, rest[1..])
  }

  function Normalise(g: Grammar, args: seq<string>): seq<string>
    decreases |args|, 0, 0
  {
    if args == [] || args[0] == "--" then args
    else
      var token, rest := args[0], args[1..];
      if IsShort(token) then Split(g, "", token[1..], rest)
      else if !IsLong(token) then [token] + Normalise(g, rest)
      else
        var body := token[2..];
        var eq := EqualsSign(body);
        var l := LexLong(g, body, rest);
        if l.stopped then args
        else if eq < |body| then ["--" + body[..eq], body[eq + 1..]] + Normalise(g, rest)
        else [token] + rest[..l.used] + Normalise(g, rest[l.used..])
  }

  // ----- meaning kept -----

  /** The letters of a group are all flags. */
  predicate AllFlags(g: Grammar, group: string) {
    forall k :: 0 <= k < |group| ==>
      var i := FindShort(g, group[k]); i < |g.options| && g.options[i].kind == Flag
  }

  function FlagCommands(g: Grammar, group: string): seq<Command> {
    seq(|group|, k requires 0 <= k < |group| => SetFlag(FindShort(g, group[k])))
  }

  /** What a token and its rest say, the rest included. */
  function Whole(g: Grammar, l: Lexed, rest: seq<string>): seq<Command>
    requires l.used <= |rest|
  {
    l.commands + (if l.stopped then [] else Commands(g, rest[l.used..]))
  }

  lemma CommandsOfToken(g: Grammar, token: string, rest: seq<string>)
    requires token != "--"
    ensures Commands(g, [token] + rest) == Whole(g, LexToken(g, token, rest), rest)
  {
    assert ([token] + rest)[1..] == rest;
  }

  /** A group of flags is read before what follows it in the cluster. */
  lemma {:induction false} LexGroup(g: Grammar, group: string, body: string, rest: seq<string>)
    requires AllFlags(g, group)
    ensures var l := LexShort(g, body, rest);
            LexShort(g, group + body, rest) == Lexed(FlagCommands(g, group) + l.commands, l.used, l.stopped)
  {
    hide FindShort;
    if group == "" {
      assert group + body == body;
    } else {
      assert AllFlags(g, group[1..]);
      LexGroup(g, group[1..], body, rest);
      assert (group + body)[1..] == group[1..] + body;
      assert FlagCommands(g, group) == [SetFlag(FindShort(g, group[0]))] + FlagCommands(g, group[1..]);
    }
  }

  /** A cluster that starts with a group of flags. */
  lemma ClusterSays(g: Grammar, group: string, body: string, rest: seq<string>)
    requires AllFlags(g, group) && group + body != "" && (group + body)[0] != '-'
    ensures Commands(g, ["-" + group + body] + rest)
         == FlagCommands(g, group) + Whole(g, LexShort(g, body, rest), rest)
  {
    var token := "-" + group + body;
    assert token[1..] == group + body;
    assert token[1] == (group + body)[0];
    CommandsOfToken(g, token, rest);
    LexGroup(g, group, body, rest);
  }

  /** A lone value letter, its value the next token. */
  lemma ValueSays(g: Grammar, group: string, letter: char, text: string, rest: seq<string>)
    requires AllFlags(g, group) && (group + [letter])[0] != '-'
    requires var i := FindShort(g, letter); i < |g.options| && g.options[i].kind == Valued
    ensures Commands(g, ["-" + group + [letter], text] + rest)
         == FlagCommands(g, group) + ([Assign(FindShort(g, letter), text)] + Commands(g, rest))
  {
    ClusterSays(g, group, [letter], [text] + rest);
    assert ["-" + group + [letter], text] + rest == ["-" + group + [letter]] + ([text] + rest);
    assert ([text] + rest)[1..] == rest;
  }

  /** A group on its own. */
  lemma GroupSays(g: Grammar, group: string, rest: seq<string>)
    requires AllFlags(g, group) && group != "" && group[0] != '-'
    ensures Commands(g, ["-" + group] + rest) == FlagCommands(g, group) + Commands(g, rest)
  {
    hide Commands, AllFlags, FlagCommands;
    assert group + "" == group && "-" + group + "" == "-" + group;
    ClusterSays(g, group, "", rest);
  }

  lemma FlagCommandsGrow(g: Grammar, group: string, letter: char)
    ensures FlagCommands(g, group + [letter]) == FlagCommands(g, group) + [SetFlag(FindShort(g, letter))]
  {
  }

  lemma {:induction false} SplitSays(g: Grammar, group: string, body: string, rest: seq<string>)
    requires AllFlags(g, group) && group + body != "" && (group + body)[0] != '-'
    ensures Commands(g, Split(g, group, body, rest))
         == FlagCommands(g, group) + Whole(g, LexShort(g, body, rest), rest)
    decreases |rest|, 2, |body|
  {
    hide Commands, AllFlags, FlagCommands;
    if body == "" {
      assert group + body == group;
      NormaliseSays(g, rest);
      GroupSays(g, group, Normalise(g, rest));
    } else {
      var i := FindShort(g, body[0]);
      var letter, tail := body[0], body[1..];
      if i == |g.options| || g.options[i].kind == Help {
        ClusterSays(g, group, body, rest);
      } else if g.options[i].kind == Flag {
        FlagCommandsGrow(g, group, letter);
        GroupGrows(g, group, letter);
        assert group + body == group + [letter] + tail;
        if tail == "" || tail[0] == '-' {
          SplitSays(g, group + [letter], tail, rest);
        } else {
          NoFlags(g);
          assert "" + tail == tail;
          SplitSays(g, "", tail, rest);
          GroupSays(g, group + [letter], Split(g, "", tail, rest));
          assert "-" + group + [letter] == "-" + (group + [letter]);
        }
      } else {
        SplitValueSays(g, group, body, rest);
      }
    }
  }

  lemma NoFlags(g: Grammar)
    ensures FlagCommands(g, "") == [] && AllFlags(g, "")
  {
  }

  lemma GroupGrows(g: Grammar, group: string, letter: char)
    requires AllFlags(g, group)
    requires var i := FindShort(g, letter); i < |g.options| && g.options[i].kind == Flag
    ensures AllFlags(g, group + [letter])
  {
  }

  /** A cluster that has come to its value letter. */
  lemma {:induction false} SplitValueSays(g: Grammar, group: string, body: string, rest: seq<string>)
    requires AllFlags(g, group) && body != "" && (group + body)[0] != '-'
    requires var i := FindShort(g, body[0]); i < |g.options| && g.options[i].kind == Valued
    ensures Commands(g, Split(g, group, body, rest))
         == FlagCommands(g, group) + Whole(g, LexShort(g, body, rest), rest)
    decreases |rest|, 1, 0
  {
    hide Commands, AllFlags, FlagCommands;
    assert (group + [body[0]])[0] == (group + body)[0];
    match Glued(body[1..])
    case Some(text) =>
      NormaliseSays(g, rest);
      ValueSays(g, group, body[0], text, Normalise(g, rest));
    case None =>
      assert body == [body[0]];
      if rest == [] {
        ClusterSays(g, group, body, rest);
        assert ["-" + group + body] + rest == ["-" + group + [body[0]]];
      } else {
        NormaliseSays(g, rest[1..]);
        ValueSays(g, group, body[0], rest[0], Normalise(g, rest[1..]));
      }
  }

  /** The normal form says what the line says. */
  lemma {:induction false} NormaliseSays(g: Grammar, args: seq<string>)
    ensures Commands(g, Normalise(g, args)) == Commands(g, args)
    decreases |args|, 0, 0
  {
    if args != [] && args[0] != "--" {
      var token, rest := args[0], args[1..];
      assert args == [token] + rest;
      CommandsOfToken(g, token, rest);
      if IsShort(token) {
        NoFlags(g);
        assert "" + token[1..] == token[1..];
        SplitSays(g, "", token[1..], rest);
      } else if !IsLong(token) {
        NormaliseSays(g, rest);
        CommandsOfToken(g, token, Normalise(g, rest));
      } else {
        NormaliseLongSays(g, token, rest);
      }
    }
  }

  lemma {:induction false} NormaliseLongSays(g: Grammar, token: string, rest: seq<string>)
    requires IsLong(token) && token != "--"
    ensures Commands(g, Normalise(g, [token] + rest)) == Whole(g, LexLong(g, token[2..], rest), rest)
    decreases |rest|, 1, 0
  {
    hide Commands;
    var body := token[2..];
    var eq := EqualsSign(body);
    var l := LexLong(g, body, rest);
    assert ([token] + rest)[1..] == rest;
    CommandsOfToken(g, token, rest);
    if !l.stopped {
      if eq < |body| {
        NormaliseSays(g, rest);
        LongValueSays(g, body[..eq], body[eq + 1..], Normalise(g, rest));
      } else {
        NormaliseSays(g, rest[l.used..]);
        LongSays(g, token, rest, Normalise(g, rest[l.used..]));
      }
    }
  }

  lemma LongValueSays(g: Grammar, name: string, text: string, rest: seq<string>)
    requires '=' !in name
    requires var i := FindLong(g, name); i < |g.options| && g.options[i].kind == Valued
    ensures Commands(g, ["--" + name, text] + rest) == [Assign(FindLong(g, name), text)] + Commands(g, rest)
  {
    hide Commands;
    var token := "--" + name;
    assert token[2..] == name && name[..EqualsSign(name)] == name;
    assert ["--" + name, text] + rest == [token] + ([text] + rest);
    assert ([text] + rest)[1..] == rest;
    CommandsOfToken(g, token, [text] + rest);
  }

  /** A long token without a value inline says the same whatever stands further on. */
  lemma LongSays(g: Grammar, token: string, rest: seq<string>, further: seq<string>)
    requires IsLong(token) && token != "--"
    requires !LexLong(g, token[2..], rest).stopped && EqualsSign(token[2..]) == |token[2..]|
    ensures var l := LexLong(g, token[2..], rest);
            Commands(g, [token] + rest[..l.used] + further) == l.commands + Commands(g, further)
  {
    hide Commands;
    var l := LexLong(g, token[2..], rest);
    assert [token] + rest[..l.used] + further == [token] + (rest[..l.used] + further);
    assert (rest[..l.used] + further)[l.used..] == further;
    CommandsOfToken(g, token, rest[..l.used] + further);
  }

  /** So the parse has the same result and leaves the same bound values. */
  lemma NormalFormParsesAlike(g: Grammar, s: State, args: seq<string>)
    requires Shaped(g, s)
    ensures Outcome(g, s, Normalise(g, args)) == Outcome(g, s, args)
  {
    NormaliseSays(g, args);
  }

  // ----- where a cluster may be split -----

  /** Between two flags a split is harmless, as long as what is cut off does not start with '-'. */
  lemma SplitIsHarmless(g: Grammar, group: string, body: string, rest: seq<string>)
    requires AllFlags(g, group) && group != "" && group[0] != '-'
    requires body != "" && body[0] != '-'
    ensures Commands(g, ["-" + group, "-" + body] + rest) == Commands(g, ["-" + group + body] + rest)
  {
    hide Commands, AllFlags, FlagCommands;
    ClusterSays(g, group, body, rest);
    NoFlags(g);
    assert "" + body == body && "-" + "" + body == "-" + body;
    ClusterSays(g, "", body, rest);
    GroupSays(g, group, ["-" + body] + rest);
    assert ["-" + group, "-" + body] + rest == ["-" + group] + (["-" + body] + rest);
  }

  /** A long token says one thing, and a flag of its own is all it can say with nothing after it. */
  lemma LongSaysOne(g: Grammar, body: string, rest: seq<string>)
    ensures var l := LexLong(g, body, rest);
            |l.commands| == 1 && (l.commands[0].SetFlag? ==> !l.stopped && l.used == 0)
  {
  }

  /**
    The documented equality of `-ab` and `-a -b`, exactly: two runs of flags say the same apart as
    together if and only if the second does not start with '-'.
  */
  lemma SplitIsHarmlessIff(g: Grammar, group: string, body: string, rest: seq<string>)
    requires AllFlags(g, group) && group != "" && group[0] != '-'
    requires AllFlags(g, body) && body != ""
    ensures Commands(g, ["-" + group, "-" + body] + rest) == Commands(g, ["-" + group + body] + rest)
       <==> body[0] != '-'
  {
    if body[0] != '-' {
      SplitIsHarmless(g, group, body, rest);
    } else {
      SplitIsHarmful(g, group, body, rest);
    }
  }

  lemma SplitIsHarmful(g: Grammar, group: string, body: string, rest: seq<string>)
    requires AllFlags(g, group) && group != "" && group[0] != '-'
    requires AllFlags(g, body) && body != "" && body[0] == '-'
    ensures Commands(g, ["-" + group, "-" + body] + rest) != Commands(g, ["-" + group + body] + rest)
  {
    hide Commands, AllFlags, LexLong;
    var token, whole := "-" + body, group + body;
    FlagsJoin(g, group, body);
    GroupSays(g, whole, rest);
    assert "-" + whole == "-" + group + body;
    GroupSays(g, group, [token] + rest);
    assert ["-" + group, token] + rest == ["-" + group] + ([token] + rest);
    var apart, together := Commands(g, [token] + rest), FlagCommands(g, body) + Commands(g, rest);
    FlagsCounted(g, body);
    assert together[0].SetFlag?;
    if body == "-" {
      assert token == "--";
      TerminatorSays(g, rest);
      assert apart == [] || apart[0].Place?;
    } else {
      CommandsOfToken(g, token, rest);
      LongSaysOne(g, token[2..], rest);
      var l := LexLong(g, token[2..], rest);
      assert IsLong(token) && token != "--";
      assert apart == Whole(g, l, rest) && apart[0] == l.commands[0];
      assert rest[0..] == rest;
      assert apart[0].SetFlag? ==> |apart| == 1 + |Commands(g, rest)|;
      assert |together| == |body| + |Commands(g, rest)|;
    }
    assert apart != together;
    PrefixCancels(FlagCommands(g, group), apart, together);
    assert FlagCommands(g, group) + FlagCommands(g, body) + Commands(g, rest) == FlagCommands(g, group) + together;
  }

  lemma FlagsCounted(g: Grammar, group: string)
    ensures |FlagCommands(g, group)| == |group|
    ensures forall k :: 0 <= k < |group| ==> FlagCommands(g, group)[k].SetFlag?
  {
  }

  lemma FlagsJoin(g: Grammar, group: string, body: string)
    requires AllFlags(g, group) && AllFlags(g, body)
    ensures AllFlags(g, group + body) && FlagCommands(g, group + body) == FlagCommands(g, group) + FlagCommands(g, body)
  {
  }

  lemma TerminatorSays(g: Grammar, rest: seq<string>)
    ensures Commands(g, ["--"] + rest) == Places(rest)
  {
    assert (["--"] + rest)[1..] == rest;
  }

  lemma PrefixCancels(prefix: seq<Command>, a: seq<Command>, b: seq<Command>)
    ensures prefix + a == prefix + b ==> a == b
  {
    assert (prefix + a)[|prefix|..] == a && (prefix + b)[|prefix|..] == b;
  }

  /** Two flags, one of them named '-'. */
  function DashGrammar(): Grammar {
    var all := (text: string) => true;
    Grammar([OptionSpec("", 'a', Flag, false, all), OptionSpec("", '-', Flag, false, all)], [])
  }

  lemma DashGrammarFinds()
    ensures var g := DashGrammar();
            && AllFlags(g, "a-") && AllFlags(g, "a")
            && FlagCommands(g, "a-") == [SetFlag(0), SetFlag(1)] && FlagCommands(g, "a") == [SetFlag(0)]
  {
    var g := DashGrammar();
    assert FindShortFrom(g, '-', 1) == 1;
    assert FindShort(g, 'a') == 0 && FindShort(g, '-') == 1;
  }

  /** Cut off before a '-', even a registered flag changes its meaning: here to the end of options. */
  lemma SplitAtDashIsNot()
    ensures var g := DashGrammar();
            && Commands(g, ["-a-", "x"]) == [SetFlag(0), SetFlag(1), Place("x")]
            && Commands(g, ["-a", "--", "x"]) == [SetFlag(0), Place("x")]
  {
    hide FindShort, AllFlags, FlagCommands, DashGrammar;
    var g := DashGrammar();
    DashGrammarFinds();
    GroupSays(g, "a-", ["x"]);
    GroupSays(g, "a", ["--", "x"]);
    assert "-" + "a-" == "-a-" && "-" + "a" == "-a";
    assert ["-a-"] + ["x"] == ["-a-", "x"] && ["-a"] + ["--", "x"] == ["-a", "--", "x"];
    assert ["--", "x"][1..] == ["x"];
    assert Commands(g, ["--", "x"]) == Places(["x"]) == [Place("x")];
    CommandsOfToken(g, "x", []);
    assert Commands(g, ["x"]) == [Place("x")];
  }

  // ----- normal lines -----

  /** How many letters of a cluster are flags before the first that is not. */
  function FlagRun(g: Grammar, body: string): (n: nat)
    ensures n <= |body|
  {
    if body == "" then 0
    else
      var i := FindShort(g, body[0]);
      if i < |g.options| && g.options[i].kind == Flag then 1 + FlagRun(g, body[1..]) else 0
  }

  /** A group no split may enter: whatever follows its first letter is a '-'. */
  predicate Unsplittable(group: string) { forall k :: 0 < k < |group| ==> group[k] == '-' }

  /** The letter takes a value: it is neither a flag nor what stops the line. */
  predicate IsValued(g: Grammar, letter: char) {
    var i := FindShort(g, letter); i < |g.options| && g.options[i].kind == Valued
  }

  predicate StopsAt(g: Grammar, letter: char) {
    var i := FindShort(g, letter); i == |g.options| || g.options[i].kind == Help
  }

  /**
    A line in normal form, up to `--` or a token that stops it.  The letters a short token is read
    up to allow no split, and a value letter has nothing glued to it; no long token that names a
    value option carries its value.
  */
  predicate IsNormal(g: Grammar, args: seq<string>)
    decreases |args|
  {
    if args == [] || args[0] == "--" then true
    else
      var token, rest := args[0], args[1..];
      if IsShort(token) then
        var body := token[1..];
        var n := FlagRun(g, body);
        if n == |body| then Unsplittable(body) && IsNormal(g, rest)
        else
          && Unsplittable(body[..n + 1])
          && (IsValued(g, body[n]) ==> |body| == n + 1 && (rest == [] || IsNormal(g, rest[1..])))
      else if !IsLong(token) then IsNormal(g, rest)
      else
        var l := LexLong(g, token[2..], rest);
        l.stopped || (EqualsSign(token[2..]) == |token[2..]| && IsNormal(g, rest[l.used..]))
  }

  predicate Joins(more: string) { more == "" || more[0] == '-' }

  lemma {:induction false} FlagRunIs(g: Grammar, group: string, more: string)
    requires AllFlags(g, group) && (more == "" || IsValued(g, more[0]) || StopsAt(g, more[0]))
    ensures FlagRun(g, group + more) == |group|
  {
    hide FindShort;
    if group == "" {
      assert group + more == more;
    } else {
      assert AllFlags(g, group[1..]);
      FlagRunIs(g, group[1..], more);
      assert (group + more)[1..] == group[1..] + more;
    }
  }

  lemma {:induction false} RunIsFlags(g: Grammar, body: string)
    ensures AllFlags(g, body[..FlagRun(g, body)])
    ensures FlagRun(g, body) < |body| ==>
              IsValued(g, body[FlagRun(g, body)]) || StopsAt(g, body[FlagRun(g, body)])
  {
    hide FindShort;
    if body != "" {
      RunIsFlags(g, body[1..]);
      var i, n := FindShort(g, body[0]), FlagRun(g, body[1..]);
      if i < |g.options| && g.options[i].kind == Flag {
        assert body[..n + 1] == [body[0]] + body[1..][..n];
      }
    }
  }

  // ----- what the normal form is -----

  /** A group of flags on its own. */
  lemma NormalGroup(g: Grammar, group: string, rest: seq<string>)
    requires AllFlags(g, group) && Unsplittable(group) && group != "" && group[0] != '-' && IsNormal(g, rest)
    ensures IsNormal(g, ["-" + group] + rest)
  {
    hide AllFlags;
    var token := "-" + group;
    assert token[1..] == group && token[1] == group[0];
    assert ([token] + rest)[1..] == rest;
    FlagRunIs(g, group, "");
    assert group + "" == group;
  }

  /** A group of flags, then a letter that stops the line, or one that takes the next token. */
  lemma NormalEnd(g: Grammar, group: string, more: string, rest: seq<string>)
    requires AllFlags(g, group) && Unsplittable(group) && more != "" && (group != "" ==> Joins(more))
    requires (group + more)[0] != '-'
    requires StopsAt(g, more[0]) || (IsValued(g, more[0]) && |more| == 1 && (rest == [] || IsNormal(g, rest[1..])))
    ensures IsNormal(g, ["-" + group + more] + rest)
  {
    hide AllFlags, FindShort;
    var token, body := "-" + group + more, group + more;
    assert token[1..] == body && token[1] == body[0];
    assert ([token] + rest)[1..] == rest;
    FlagRunIs(g, group, more);
    assert body[|group|] == more[0] && body[..|group| + 1] == group + [more[0]];
  }

  lemma {:induction false} SplitIsNormal(g: Grammar, group: string, body: string, rest: seq<string>)
    requires AllFlags(g, group) && Unsplittable(group) && (group != "" ==> Joins(body))
    requires group + body != "" && (group + body)[0] != '-'
    ensures IsNormal(g, Split(g, group, body, rest))
    decreases |rest|, 1, |body|
  {
    hide AllFlags, IsNormal, FindShort;
    if body == "" {
      assert group + body == group;
      NormaliseIsNormal(g, rest);
      NormalGroup(g, group, Normalise(g, rest));
    } else {
      var letter, tail := body[0], body[1..];
      if StopsAt(g, letter) {
        NormalEnd(g, group, body, rest);
      } else if IsValued(g, letter) {
        assert (group + [letter])[0] == (group + body)[0];
        SplitValueIsNormal(g, group, body, rest);
      } else {
        GroupGrows(g, group, letter);
        assert group + body == group + [letter] + tail;
        if tail == "" || tail[0] == '-' {
          SplitIsNormal(g, group + [letter], tail, rest);
        } else {
          NoFlags(g);
          assert "" + tail == tail;
          SplitIsNormal(g, "", tail, rest);
          assert "-" + (group + [letter]) == "-" + group + [letter];
          NormalGroup(g, group + [letter], Split(g, "", tail, rest));
        }
      }
    }
  }

  lemma {:induction false} SplitValueIsNormal(g: Grammar, group: string, body: string, rest: seq<string>)
    requires AllFlags(g, group) && Unsplittable(group) && (group != "" ==> Joins(body))
    requires body != "" && IsValued(g, body[0]) && (group + [body[0]])[0] != '-'
    ensures IsNormal(g, Split(g, group, body, rest))
    decreases |rest|, 1, 0
  {
    hide AllFlags, IsNormal, FindShort;
    var token := "-" + group + [body[0]];
    match Glued(body[1..])
    case Some(text) =>
      NormaliseIsNormal(g, rest);
      NormalEnd(g, group, [body[0]], [text] + Normalise(g, rest));
      assert ([text] + Normalise(g, rest))[1..] == Normalise(g, rest);
      assert [token] + ([text] + Normalise(g, rest)) == [token, text] + Normalise(g, rest);
    case None =>
      if rest == [] {
        NormalEnd(g, group, [body[0]], []);
        assert [token] + [] == [token];
      } else {
        NormaliseIsNormal(g, rest[1..]);
        NormalEnd(g, group, [body[0]], [rest[0]] + Normalise(g, rest[1..]));
        assert ([rest[0]] + Normalise(g, rest[1..]))[1..] == Normalise(g, rest[1..]);
        assert [token] + ([rest[0]] + Normalise(g, rest[1..])) == [token, rest[0]] + Normalise(g, rest[1..]);
      }
  }

  /** A long token without an inline value, and the value after it if it takes one. */
  lemma NormalLong(g: Grammar, token: string, value: seq<string>, rest: seq<string>)
    requires IsLong(token) && token != "--" && '=' !in token[2..] && IsNormal(g, rest)
    requires FindLong(g, token[2..]) < |g.options|
    requires var kind := g.options[FindLong(g, token[2..])].kind;
             (kind == Flag && value == []) || (kind == Valued && |value| == 1)
    ensures IsNormal(g, [token] + value + rest)
  {
    var body := token[2..];
    assert EqualsSign(body) == |body| && body[..|body|] == body;
    assert [token] + value + rest == [token] + (value + rest);
    assert ([token] + (value + rest))[1..] == value + rest;
    assert (value + rest)[|value|..] == rest;
  }

  /** Every line is brought into normal form. */
  lemma {:induction false} NormaliseIsNormal(g: Grammar, args: seq<string>)
    ensures IsNormal(g, Normalise(g, args))
    decreases |args|, 0, 0
  {
    if args != [] && args[0] != "--" {
      var token, rest := args[0], args[1..];
      if IsShort(token) {
        hide IsNormal;
        NoFlags(g);
        assert "" + token[1..] == token[1..];
        SplitIsNormal(g, "", token[1..], rest);
      } else if !IsLong(token) {
        NormaliseIsNormal(g, rest);
        assert ([token] + Normalise(g, rest))[1..] == Normalise(g, rest);
      } else {
        var body := token[2..];
        var eq, l := EqualsSign(body), LexLong(g, body, rest);
        if !l.stopped {
          if eq < |body| {
            NormaliseIsNormal(g, rest);
            assert ("--" + body[..eq])[2..] == body[..eq];
            NormalLong(g, "--" + body[..eq], [body[eq + 1..]], Normalise(g, rest));
            assert ["--" + body[..eq]] + [body[eq + 1..]] == ["--" + body[..eq], body[eq + 1..]];
          } else {
            NormaliseIsNormal(g, rest[l.used..]);
            NormalLong(g, token, rest[..l.used], Normalise(g, rest[l.used..]));
          }
        }
      }
    }
  }

  // ----- normal lines are left alone -----

  /** Read again, a group is taken whole. */
  lemma {:induction false} Absorbed(g: Grammar, group: string, letters: string, more: string, rest: seq<string>)
    requires AllFlags(g, letters) && Joins(more)
    requires forall k :: 0 <= k < |letters| ==> k > 0 ==> letters[k] == '-'
    ensures Split(g, group, letters + more, rest) == Split(g, group + letters, more, rest)
    decreases |letters|
  {
    hide FindShort;
    if letters == "" {
      assert letters + more == more && group + letters == group;
    } else {
      assert AllFlags(g, letters[1..]);
      assert (letters + more)[1..] == letters[1..] + more;
      assert group + [letters[0]] + letters[1..] == group + letters;
      assert Joins(letters[1..] + more);
      Absorbed(g, group + [letters[0]], letters[1..], more, rest);
    }
  }

  /** Of a cluster read up to an unsplittable run of flags, nothing is split off. */
  lemma SplitOfRun(g: Grammar, body: string, n: nat, rest: seq<string>)
    requires n <= |body| && AllFlags(g, body[..n]) && Unsplittable(body[..n])
    requires n > 0 ==> Joins(body[n..])
    ensures Split(g, "", body, rest) == Split(g, body[..n], body[n..], rest)
  {
    hide Split;
    assert body == body[..n] + body[n..];
    if n > 0 {
      Absorbed(g, "", body[..n], body[n..], rest);
      assert "" + body[..n] == body[..n];
    } else {
      assert body[..0] == "" && body[0..] == body;
    }
  }

  lemma {:induction false} NormalClusterIsFixed(g: Grammar, token: string, rest: seq<string>)
    requires IsShort(token) && IsNormal(g, [token] + rest)
    ensures Split(g, "", token[1..], rest) == [token] + rest
    decreases |rest|, 1
  {
    hide FindShort;
    assert ([token] + rest)[1..] == rest;
    var body := token[1..];
    var n := FlagRun(g, body);
    RunIsFlags(g, body);
    assert token == "-" + body[..n] + body[n..];
    if n == |body| {
      SplitOfRun(g, body, n, rest);
      NormalIsFixed(g, rest);
      assert "-" + body[..n] == token;
    } else {
      assert body[..n] == body[..n + 1][..n] && (n > 0 ==> body[n] == body[..n + 1][n] == '-');
      SplitOfRun(g, body, n, rest);
      if IsValued(g, body[n]) {
        assert body[n..] == [body[n]] && body[n..][1..] == "";
        if rest != [] { NormalIsFixed(g, rest[1..]); }
      }
    }
  }

  /** The normal form of a line in normal form is the line. */
  lemma {:induction false} NormalIsFixed(g: Grammar, args: seq<string>)
    requires IsNormal(g, args)
    ensures Normalise(g, args) == args
    decreases |args|, 0
  {
    if args != [] && args[0] != "--" {
      var token, rest := args[0], args[1..];
      assert args == [token] + rest;
      if IsShort(token) {
        NormalClusterIsFixed(g, token, rest);
      } else if !IsLong(token) {
        NormalIsFixed(g, rest);
      } else {
        var l := LexLong(g, token[2..], rest);
        if !l.stopped {
          NormalIsFixed(g, rest[l.used..]);
          assert rest == rest[..l.used] + rest[l.used..];
        }
      }
    }
  }

  /** The lines in normal form are exactly those normalising leaves alone. */
  lemma NormalIffFixed(g: Grammar, args: seq<string>)
    ensures IsNormal(g, args) <==> Normalise(g, args) == args
  {
    NormaliseIsNormal(g, args);
    if IsNormal(g, args) { NormalIsFixed(g, args); }
  }

  /** Normalising twice is normalising once. */
  lemma NormaliseTwice(g: Grammar, args: seq<string>)
    ensures Normalise(g, Normalise(g, args)) == Normalise(g, args)
  {
    NormaliseIsNormal(g, args);
    NormalIsFixed(g, Normalise(g, args));
  }
}
