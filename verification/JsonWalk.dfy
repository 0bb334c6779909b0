/**
  The pull parser as a step function: one call of `next` on what is left of the source and a stack
  of frames.  Every printed tree is walked in pre-order, and then the end.
*/
module JsonWalk {
  import opened Wrappers
  import opened JsonText
  import opened JsonScan

  /** A frame: object or array, whether a member has been seen, whether a value must come next. */
  datatype Frame = Frame(isObject: bool, seen: bool, awaiting: bool)

  datatype Config =
    | Running(rest: string, stack: seq<Frame>, started: bool)
    | Finished
    | Errored

  function Initial(source: string): Config { Running(source, [], false) }

  /** The raw content of the string at an opening quote, and what follows it. */
  function ScanString(t: string): Option<(string, string)>
    requires t != ""
  {
    match BodyLength(t[1..])
    case None => None
    case Some(n) => Some((t[1..][..n], t[1..][n + 1..]))
  }

  /** A token, if the text begins with it. */
  function Scalar(t: string): Option<(Event, string)> {
    if t == "" then None
    else if t[0] == '"' then
      match ScanString(t)
      case None => None
      case Some((raw, rest)) => Some((String(raw), rest))
    else if t[0] == 't' then if "true" <= t then Some((Boolean("true"), t[4..])) else None
    else if t[0] == 'f' then if "false" <= t then Some((Boolean("false"), t[5..])) else None
    else if t[0] == 'n' then if "null" <= t then Some((NullValue, t[4..])) else None
    else if t[0] == '-' || IsDigit(t[0]) then
      match NumberLength(t)
      case None => None
      case Some(n) => Some((NumberText(t[..n]), t[n..]))
    else None
  }

  /** `start_value`. */
  function StartValue(max: nat, rest: string, stack: seq<Frame>): (Event, Config) {
    var t := SkipWs(rest);
    if Peek(t) == '{' || Peek(t) == '[' then
      if |stack| >= max then (Error, Errored)
      else
        var isObject := Peek(t) == '{';
        (if isObject then BeginObject else BeginArray,
         Running(t[1..], stack + [Frame(isObject, false, false)], true))
    else match Scalar(t)
      case None => (Error, Errored)
      case Some((event, after)) => (event, Running(after, stack, true))
  }

  /** A member's name and colon, `u` being the text at its opening quote. */
  function TakeName(u: string, below: seq<Frame>, frame: Frame): (Event, Config) {
    if Peek(u) != '"' then (Error, Errored)
    else match ScanString(u)
      case None => (Error, Errored)
      case Some((raw, v)) =>
        var w := SkipWs(v);
        if Peek(w) != ':' then (Error, Errored)
        else (Key(raw), Running(w[1..], below + [frame.(seen := true, awaiting := true)], true))
  }

  /** `next_in_object`, `below` being the frames under the object's. */
  function InObject(max: nat, rest: string, below: seq<Frame>, frame: Frame): (Event, Config) {
    if frame.awaiting then StartValue(max, rest, below + [frame.(awaiting := false)])
    else
      var t := SkipWs(rest);
      if Peek(t) == '}' then (EndObject, Running(t[1..], below, true))
      else if frame.seen && Peek(t) != ',' then (Error, Errored)
      else if frame.seen && Peek(SkipWs(t[1..])) == '}' then (Error, Errored)
      else TakeName(if frame.seen then SkipWs(t[1..]) else t, below, frame)
  }

  function InArray(max: nat, rest: string, below: seq<Frame>, frame: Frame): (Event, Config) {
    var t := SkipWs(rest);
    if Peek(t) == ']' then (EndArray, Running(t[1..], below, true))
    else if frame.seen && Peek(t) != ',' then (Error, Errored)
    else
      var u := if frame.seen then SkipWs(t[1..]) else t;
      if frame.seen && Peek(u) == ']' then (Error, Errored)
      else StartValue(max, u, below + [frame.(seen := true)])
  }

  /** `next`. */
  function Next(max: nat, c: Config): (Event, Config) {
    match c
    case Errored => (Error, Errored)
    case Finished => (End, Finished)
    case Running(rest, stack, started) =>
      if stack == [] then
        if !started then StartValue(max, rest, [])
        else if SkipWs(rest) != "" then (Error, Errored)
        else (End, Finished)
      else
        var below, frame := stack[..|stack| - 1], stack[|stack| - 1];
        if frame.isObject then InObject(max, rest, below, frame) else InArray(max, rest, below, frame)
  }

  /** The events of `n` calls, and what they leave. */
  function Run(max: nat, c: Config, n: nat): (r: (seq<Event>, Config))
    ensures |r.0| == n
    decreases n
  {
    if n == 0 then ([], c)
    else
      var step := Next(max, c);
      var later := Run(max, step.1, n - 1);
      ([step.0] + later.0, later.1)
  }

  lemma {:induction false} RunInTwo(max: nat, c: Config, a: nat, b: nat)
    ensures var first := Run(max, c, a);
            var second := Run(max, first.1, b);
            Run(max, c, a + b) == (first.0 + second.0, second.1)
    decreases a
  {
    if a > 0 {
      RunInTwo(max, Next(max, c).1, a - 1, b);
      var first := Run(max, Next(max, c).1, a - 1);
      var second := Run(max, first.1, b);
      assert [Next(max, c).0] + first.0 + second.0 == [Next(max, c).0] + (first.0 + second.0);
    } else {
      assert Run(max, c, 0).0 + Run(max, c, b).0 == Run(max, c, b).0;
    }
  }

  lemma RunOne(max: nat, c: Config)
    ensures Run(max, c, 1) == ([Next(max, c).0], Next(max, c).1)
  {
    hide Next;
    assert Run(max, Next(max, c).1, 0) == ([], Next(max, c).1);
    assert [Next(max, c).0] + [] == [Next(max, c).0];
  }

  // ----- one token -----

  lemma QuotedTaken(units: seq<Unit>, tail: string)
    requires UnitsOk(units)
    ensures Quoted(units, tail)[0] == '"' && ScanString(Quoted(units, tail)) == Some((Spell(units), tail))
  {
    hide BodyLength, Spell;
    var body := Spell(units) + (['"'] + tail);
    Cut(['"'], body);
    assert Quoted(units, tail)[1..] == body;
    BodyTaken(units, tail);
    Cut(Spell(units), ['"'] + tail);
    assert body[|Spell(units)| + 1..] == tail;
  }

  lemma WordTaken(word: Word, tail: string)
    ensures var t := WordText(word) + tail;
            Scalar(t) == Some((if word == Null then NullValue else Boolean(WordText(word)), tail))
  {
    Cut(WordText(word), tail);
  }

  lemma NumTaken(n: Number, tail: string)
    requires NumberOk(n) && Delimited(tail)
    ensures Scalar(PrintNumber(n) + tail) == Some((NumberText(PrintNumber(n)), tail))
    ensures var c := Peek(PrintNumber(n) + tail); c == '-' || IsDigit(c)
  {
    hide PrintNumber, NumberLength, NumberOk;
    NumberTaken(n, tail);
    Cut(PrintNumber(n), tail);
  }

  /** A value's text begins with none of the separators. */
  lemma ValueBegins(v: Value, tail: string)
    requires ValueOk(v) && Delimited(tail)
    ensures var t := Print(v, tail);
            t != "" && !IsWs(t[0]) && t[0] != ']' && (t[0] == '{' <==> v.Object?) && (t[0] == '[' <==> v.Array?)
  {
    hide PrintMembers, PrintElements, PrintNumber, NumberOk, Spell, UnitsOk, Scalar;
    match v
    case Num(n) => NumTaken(n, tail);
    case Literal(word) => Cut(WordText(word), tail);
    case _ =>
  }

  predicate IsScalar(v: Value) { !v.Object? && !v.Array? }

  lemma ScalarTaken(v: Value, tail: string)
    requires ValueOk(v) && Delimited(tail) && IsScalar(v)
    ensures |Events(v)| == 1 && Scalar(Print(v, tail)) == Some((Events(v)[0], tail))
  {
    hide PrintNumber, NumberLength, NumberOk, Spell, Quoted, ScanString;
    match v
    case Literal(word) => WordTaken(word, tail);
    case Num(n) => assert NumberOk(n); NumTaken(n, tail);
    case Str(units) =>
      QuotedBegins(units, tail);
      QuotedTaken(units, tail);
  }

  lemma MembersDelimited(m: Members, tail: string)
    requires MembersOk(m, false)
    ensures Delimited(PrintMembers(m, false, tail))
  {
    if m.gap != "" { assert IsWs(PrintMembers(m, false, tail)[0]); }
  }

  lemma ElementsDelimited(e: Elements, tail: string)
    requires ElementsOk(e, false)
    ensures Delimited(PrintElements(e, false, tail))
  {
    if e.gap != "" { assert IsWs(PrintElements(e, false, tail)[0]); }
  }

  // ----- completeness -----

  /** The first call on an object or array. */
  lemma OpensObject(max: nat, ws: string, m: Members, tail: string, stack: seq<Frame>)
    requires AllWs(ws) && |stack| < max
    ensures StartValue(max, ws + Print(Object(m), tail), stack)
         == (BeginObject, Running(PrintMembers(m, true, tail), stack + [Frame(true, false, false)], true))
  {
    hide PrintMembers;
    SkipsWs(ws, Print(Object(m), tail));
    Cut(['{'], PrintMembers(m, true, tail));
  }

  lemma OpensArray(max: nat, ws: string, e: Elements, tail: string, stack: seq<Frame>)
    requires AllWs(ws) && |stack| < max
    ensures StartValue(max, ws + Print(Array(e), tail), stack)
         == (BeginArray, Running(PrintElements(e, true, tail), stack + [Frame(false, false, false)], true))
  {
    hide PrintElements;
    SkipsWs(ws, Print(Array(e), tail));
    Cut(['['], PrintElements(e, true, tail));
  }

  lemma ClosesObject(max: nat, gap: string, first: bool, tail: string, below: seq<Frame>)
    requires AllWs(gap)
    ensures Next(max, Running(gap + (['}'] + tail), below + [Frame(true, !first, false)], true))
         == (EndObject, Running(tail, below, true))
  {
    SkipsWs(gap, ['}'] + tail);
    Cut(['}'], tail);
  }

  lemma ClosesArray(max: nat, gap: string, first: bool, tail: string, below: seq<Frame>)
    requires AllWs(gap)
    ensures Next(max, Running(gap + ([']'] + tail), below + [Frame(false, !first, false)], true))
         == (EndArray, Running(tail, below, true))
  {
    SkipsWs(gap, [']'] + tail);
    Cut([']'], tail);
  }

  /** The call that meets a member: its name and its colon. */
  lemma TakesName(max: nat, m: Members, first: bool, tail: string, below: seq<Frame>)
    requires m.Member? && MembersOk(m, first)
    ensures Next(max, Running(PrintMembers(m, first, tail), below + [Frame(true, !first, false)], true))
         == (Key(Spell(m.name)),
             Running(m.after + Print(m.value, PrintMembers(m.more, false, tail)), below + [Frame(true, true, true)], true))
  {
    hide Print, PrintMembers, ValueOk, UnitsOk, Quoted, ScanString, Spell;
    var further := m.after + Print(m.value, PrintMembers(m.more, false, tail));
    var v := m.before + ([':'] + further);
    var u := Quoted(m.name, v);
    MemberPrinted(m, first, tail);
    QuotedTaken(m.name, v);
    QuotedBegins(m.name, v);
    SkipsWs(m.before, [':'] + further);
    Cut([':'], further);
    var frame := Frame(true, !first, false);
    assert (below + [frame])[..|below|] == below;
    if first {
      SkipsWs(m.gap, u);
    } else {
      SkipsWs(m.gap, [','] + (m.lead + u));
      Cut([','], m.lead + u);
      SkipsWs(m.lead, u);
    }
  }

  lemma MemberPrinted(m: Members, first: bool, tail: string)
    requires m.Member? && MembersOk(m, first)
    ensures AllWs(m.gap) && AllWs(m.lead) && UnitsOk(m.name) && AllWs(m.before) && AllWs(m.after)
    ensures ValueOk(m.value) && MembersOk(m.more, false)
    ensures var u := Quoted(m.name, m.before + ([':'] + (m.after + Print(m.value, PrintMembers(m.more, false, tail)))));
            PrintMembers(m, first, tail) == m.gap + (if first then u else [','] + (m.lead + u))
  {
  }

  lemma QuotedBegins(units: seq<Unit>, tail: string)
    ensures Quoted(units, tail) != "" && Quoted(units, tail)[0] == '"'
  {
  }

  /** The call that meets an element hands it to `start_value`. */
  lemma TakesElement(max: nat, e: Elements, first: bool, tail: string, below: seq<Frame>)
    requires e.Element? && ElementsOk(e, first)
    ensures Next(max, Running(PrintElements(e, first, tail), below + [Frame(false, !first, false)], true))
         == StartValue(max, Print(e.value, PrintElements(e.more, false, tail)), below + [Frame(false, true, false)])
  {
    hide Print, PrintElements, ValueOk, StartValue;
    var u := Print(e.value, PrintElements(e.more, false, tail));
    ElementPrinted(e, first, tail);
    ElementsDelimited(e.more, tail);
    ValueBegins(e.value, PrintElements(e.more, false, tail));
    var frame := Frame(false, !first, false);
    assert (below + [frame])[..|below|] == below;
    if first {
      SkipsWs(e.gap, u);
    } else {
      SkipsWs(e.gap, [','] + (e.lead + u));
      Cut([','], e.lead + u);
      SkipsWs(e.lead, u);
    }
  }

  lemma ElementPrinted(e: Elements, first: bool, tail: string)
    requires e.Element? && ElementsOk(e, first)
    ensures AllWs(e.gap) && AllWs(e.lead) && ValueOk(e.value) && ElementsOk(e.more, false)
    ensures var u := Print(e.value, PrintElements(e.more, false, tail));
            PrintElements(e, first, tail) == e.gap + (if first then u else [','] + (e.lead + u))
  {
  }

  /** One call, then the rest. */
  lemma RunStep(max: nat, c: Config, n: nat)
    ensures Run(max, c, n + 1) == ([Next(max, c).0] + Run(max, Next(max, c).1, n).0, Run(max, Next(max, c).1, n).1)
  {
  }

  lemma {:induction false} ValueRuns(max: nat, ws: string, v: Value, tail: string, stack: seq<Frame>)
    requires AllWs(ws) && ValueOk(v) && Delimited(tail) && |stack| + Depth(v) <= max
    ensures |Events(v)| > 0
    ensures var r := StartValue(max, ws + Print(v, tail), stack);
            && r.0 == Events(v)[0]
            && Run(max, r.1, |Events(v)| - 1) == (Events(v)[1..], Running(tail, stack, true))
    decreases v, 1
  {
    hide StartValue, Scalar, Print, Next;
    EventsNotEmpty(v);
    match v
    case Object(m) =>
      OpensObject(max, ws, m, tail, stack);
      MembersRun(max, m, true, tail, stack);
    case Array(e) =>
      OpensArray(max, ws, e, tail, stack);
      ElementsRun(max, e, true, tail, stack);
    case _ =>
      ScalarStarts(max, ws, v, tail, stack);
      assert Run(max, Running(tail, stack, true), 0) == ([], Running(tail, stack, true));
      assert Events(v)[1..] == [];
  }

  lemma ScalarStarts(max: nat, ws: string, v: Value, tail: string, stack: seq<Frame>)
    requires AllWs(ws) && ValueOk(v) && Delimited(tail) && IsScalar(v)
    ensures |Events(v)| == 1
    ensures StartValue(max, ws + Print(v, tail), stack) == (Events(v)[0], Running(tail, stack, true))
  {
    hide Print, Scalar;
    ScalarTaken(v, tail);
    ValueBegins(v, tail);
    SkipsWs(ws, Print(v, tail));
  }

  lemma {:induction false} MembersRun(max: nat, m: Members, first: bool, tail: string, below: seq<Frame>)
    requires MembersOk(m, first) && |below| + 1 + MembersDepth(m) <= max
    ensures Run(max, Running(PrintMembers(m, first, tail), below + [Frame(true, !first, false)], true), |MembersEvents(m)|)
         == (MembersEvents(m), Running(tail, below, true))
    decreases m, 0
  {
    hide StartValue, Next, Print;
    var c := Running(PrintMembers(m, first, tail), below + [Frame(true, !first, false)], true);
    match m
    case CloseObject(gap) =>
      ClosesObject(max, gap, first, tail, below);
      RunOne(max, c);
    case Member(_, _, name, _, after, value, more) =>
      TakesName(max, m, first, tail, below);
      var further := PrintMembers(more, false, tail);
      var named := Running(after + Print(value, further), below + [Frame(true, true, true)], true);
      MembersDelimited(more, tail);
      ValueRuns(max, after, value, further, below + [Frame(true, true, false)]);
      MembersRun(max, more, false, tail, below);
      ExpectsValue(max, after + Print(value, further), below);
      ValueThen(max, named, value, below + [Frame(true, true, false)], further, |MembersEvents(more)|);
      RunStep(max, c, |Events(value)| + |MembersEvents(more)|);
      assert |MembersEvents(m)| == |Events(value)| + |MembersEvents(more)| + 1;
  }

  lemma ExpectsValue(max: nat, rest: string, below: seq<Frame>)
    ensures Next(max, Running(rest, below + [Frame(true, true, true)], true))
         == StartValue(max, rest, below + [Frame(true, true, false)])
  {
    assert (below + [Frame(true, true, true)])[..|below|] == below;
  }

  /** A call that begins a value, the rest of the value, then `n` calls. */
  lemma ValueThen(max: nat, c: Config, v: Value, stack: seq<Frame>, further: string, n: nat)
    requires |Events(v)| > 0 && Next(max, c).0 == Events(v)[0]
    requires Run(max, Next(max, c).1, |Events(v)| - 1) == (Events(v)[1..], Running(further, stack, true))
    ensures var later := Run(max, Running(further, stack, true), n);
            Run(max, c, |Events(v)| + n) == (Events(v) + later.0, later.1)
  {
    hide Next, Events;
    RunStep(max, c, |Events(v)| - 1);
    RunInTwo(max, c, |Events(v)|, n);
    assert [Events(v)[0]] + Events(v)[1..] == Events(v);
  }

  lemma {:induction false} ElementsRun(max: nat, e: Elements, first: bool, tail: string, below: seq<Frame>)
    requires ElementsOk(e, first) && |below| + 1 + ElementsDepth(e) <= max
    ensures Run(max, Running(PrintElements(e, first, tail), below + [Frame(false, !first, false)], true), |ElementsEvents(e)|)
         == (ElementsEvents(e), Running(tail, below, true))
    decreases e, 0
  {
    hide StartValue, Next, Print;
    var c := Running(PrintElements(e, first, tail), below + [Frame(false, !first, false)], true);
    match e
    case CloseArray(gap) =>
      ClosesArray(max, gap, first, tail, below);
      RunOne(max, c);
    case Element(_, _, value, more) =>
      TakesElement(max, e, first, tail, below);
      var further := PrintElements(more, false, tail);
      ElementsDelimited(more, tail);
      ValueRuns(max, "", value, further, below + [Frame(false, true, false)]);
      Nothing(Print(value, further));
      ElementsRun(max, more, false, tail, below);
      ValueThen(max, c, value, below + [Frame(false, true, false)], further, |ElementsEvents(more)|);
  }

  /** Every tree that is not too deep, however it is spaced, is walked to its end without an error. */
  lemma PrintedIsWalked(max: nat, d: Document)
    requires DocumentOk(d) && Depth(d.value) <= max
    ensures Run(max, Initial(PrintDocument(d)), |Events(d.value)| + 1) == (Events(d.value) + [End], Finished)
  {
    hide StartValue, Print;
    var c := Initial(PrintDocument(d));
    AfterDelimited(d.after);
    ValueRuns(max, d.before, d.value, d.after, []);
    SkipsWs(d.after, "");
    assert d.after + "" == d.after;
    ValueThen(max, c, d.value, [], d.after, 1);
    RunOne(max, Running(d.after, [], true));
  }

  lemma AfterDelimited(after: string)
    requires AllWs(after)
    ensures Delimited(after)
  {
  }
}
