/**
  The parser object: a position, a fixed array of frames and a state, each scanner moving the
  position along.  Every call of `Next` is the step of the walk.
*/
module JsonParser {
  import opened Wrappers
  import opened JsonText
  import opened JsonScan
  import opened JsonWalk
  import opened JsonSound
  import opened JsonUnique

  datatype Status = Active | Done | Failed

  lemma BodyEnds()
    ensures BodyLength("") == None
  {
  }

  /** One character or escape of a string's content. */
  lemma BodyNext(t: string)
    requires t != ""
    ensures t[0] == '"' ==> BodyLength(t) == Some(0)
    ensures t[0] == '\\' ==>
              var k := EscapeLength(t);
              && (k == None ==> BodyLength(t) == None)
              && (k.Some? ==> Plus(BodyLength(t), k.value, BodyLength(t[k.value..])))
    ensures t[0] != '"' && t[0] != '\\' ==>
              && (t[0] < ' ' ==> BodyLength(t) == None)
              && (t[0] >= ' ' ==> Plus(BodyLength(t), 1, BodyLength(t[1..])))
  {
    hide EscapeLength;
  }

  predicate Plus(sum: Option<nat>, k: nat, n: Option<nat>) {
    if n.None? then sum.None? else sum == Some(k + n.value)
  }

  /** Where the parts of a number fail, the number does; else it is as long as they are. */
  lemma NumberFails(t: string, u: string)
    requires u == t[MinusLength(t)..] && WholeLength(u) == None
    ensures NumberLength(t) == None
  {
  }

  lemma NumberFailsLater(t: string, u: string, v: string)
    requires u == t[MinusLength(t)..] && WholeLength(u).Some? && v == u[WholeLength(u).value..]
    requires FractionLength(v) == None
    ensures NumberLength(t) == None
  {
    hide WholeLength, FractionLength;
  }

  lemma NumberEnds(t: string, u: string, v: string, w: string)
    requires u == t[MinusLength(t)..] && WholeLength(u).Some? && v == u[WholeLength(u).value..]
    requires FractionLength(v).Some? && w == v[FractionLength(v).value..]
    ensures NumberLength(t).Some? <==> ExponentLength(w).Some?
    ensures NumberLength(t).Some? ==>
              && ExponentLength(w).Some?
              && var n := MinusLength(t) + WholeLength(u).value + FractionLength(v).value + ExponentLength(w).value;
                 NumberLength(t).value == n
  {
    hide WholeLength, FractionLength, ExponentLength;
  }

  class JsonParser {
    const source: string
    const stack: array<Frame>
    var pos: nat
    var depth: nat
    var started: bool
    var status: Status
    var errorOffset: nat

    ghost predicate Valid()
      reads this
    {
      pos <= |source| && depth <= stack.Length
    }

    /** A call that began at `start` has moved on, and an error in it was noted where it stopped. */
    ghost predicate Located(start: nat, offset: nat)
      reads this
    {
      start <= pos && errorOffset == if status == Failed then pos else offset
    }

    function Ahead(): string
      reads this
      requires Valid()
    {
      source[pos..]
    }

    function Abs(): Config
      reads this, stack
      requires Valid()
    {
      match status
      case Active => Running(source[pos..], stack[..depth], started)
      case Done => Finished
      case Failed => Errored
    }

    constructor (source: string, maxDepth: nat)
      ensures Valid() && this.source == source && stack.Length == maxDepth && fresh(stack)
      ensures Abs() == Initial(source)
    {
      this.source := source;
      stack := new Frame[maxDepth](_ => Frame(false, false, false));
      pos, depth, started, status, errorOffset := 0, 0, false, Active, 0;
      new;
      assert source[0..] == source && stack[..0] == [];
    }

    /** `make_error`: the first error is the one kept. */
    method MakeError() returns (event: Event)
      requires Valid()
      modifies this`status, this`errorOffset
      ensures event == Error && status == Failed
      ensures errorOffset == if old(status) == Failed then old(errorOffset) else pos
    {
      if status != Failed {
        status := Failed;
        errorOffset := pos;
      }
      event := Error;
    }

    function Current(): char
      reads this
      requires Valid()
    {
      if pos < |source| then source[pos] else '\0'
    }

    lemma CurrentIs()
      requires Valid()
      ensures Current() == Peek(Ahead())
      ensures pos < |source| ==> Ahead() != "" && Ahead()[0] == source[pos] && Ahead()[1..] == source[pos + 1..]
      ensures pos == |source| ==> Ahead() == ""
    {
    }

    method SkipWhitespace()
      requires Valid()
      modifies this`pos
      ensures Valid() && Ahead() == SkipWs(old(Ahead())) && pos >= old(pos)
    {
      while pos < |source|
        invariant Valid() && SkipWs(Ahead()) == SkipWs(old(Ahead())) && pos >= old(pos)
        decreases |source| - pos
      {
        CurrentIs();
        var c := source[pos];
        if c == ' ' || c == '\t' || c == '\n' || c == '\r' {
          pos := pos + 1;
        } else {
          break;
        }
      }
      CurrentIs();
    }

    method SkipDigits()
      requires Valid()
      modifies this`pos
      ensures Valid() && pos == old(pos) + Digits(old(Ahead()))
    {
      while IsDigit(Current())
        invariant Valid() && pos + Digits(Ahead()) == old(pos) + Digits(old(Ahead()))
        decreases |source| - pos
      {
        CurrentIs();
        pos := pos + 1;
      }
      CurrentIs();
    }

    /** `validate_escape`, at a backslash. */
    method ValidateEscape() returns (ok: bool)
      requires Valid() && pos < |source| && source[pos] == '\\' && status == Active
      modifies this`pos, this`status, this`errorOffset
      ensures Located(old(pos), old(errorOffset))
      ensures Valid() && old(pos) <= pos
      ensures old(Ahead()) != "" && old(Ahead())[0] == '\\'
      ensures ok <==> EscapeLength(old(Ahead())).Some?
      ensures ok ==> pos == old(pos) + EscapeLength(old(Ahead())).value && status == Active
      ensures !ok ==> status == Failed
    {
      ghost var t := Ahead();
      assert t[0] == source[pos] && forall i :: 0 <= i < |t| ==> t[i] == source[pos + i];
      var start := pos;
      pos := pos + 1;
      if pos >= |source| {
        pos := start;
        var _ := MakeError();
        return false;
      }
      assert t[1] == source[pos];
      if IsEscape(source[pos]) {
        pos := pos + 1;
        return true;
      }
      if source[pos] != 'u' {
        var _ := MakeError();
        return false;
      }
      pos := pos + 1;
      for digit := 0 to 4
        invariant Valid() && pos == start + 2 + digit && status == Active && errorOffset == old(errorOffset)
        invariant forall i :: 2 <= i < 2 + digit ==> IsHex(t[i])
      {
        if pos >= |source| || !IsHex(source[pos]) {
          assert pos < |source| ==> t[2 + digit] == source[pos];
          var _ := MakeError();
          return false;
        }
        assert t[2 + digit] == source[pos];
        pos := pos + 1;
      }
      return true;
    }

    /** The loop of `scan_string`: up to the closing quote, an error, or the end of the source. */
    method ScanBody() returns (closed: bool)
      requires Valid() && status == Active
      modifies this`pos, this`status, this`errorOffset
      ensures Located(old(pos), old(errorOffset))
      ensures Valid()
      ensures closed <==> BodyLength(old(Ahead())).Some?
      ensures closed ==> pos == old(pos) + BodyLength(old(Ahead())).value && status == Active
      ensures status == Active || status == Failed
    {
      hide EscapeLength, BodyLength;
      ghost var whole := BodyLength(Ahead());
      while pos < |source|
        invariant Valid() && old(pos) <= pos && status == Active && errorOffset == old(errorOffset)
        invariant BodyLength(Ahead()).None? <==> whole.None?
        invariant whole.Some? ==> old(pos) + whole.value == pos + BodyLength(Ahead()).value
        decreases |source| - pos
      {
        CurrentIs();
        ghost var t, at := Ahead(), pos;
        BodyNext(t);
        var c := source[pos];
        if c == '"' { return true; }
        if c == '\\' {
          var ok := ValidateEscape();
          if !ok { return false; }
          assert t[pos - at..] == Ahead();
          continue;
        }
        if c < ' ' {
          var _ := MakeError();
          return false;
        }
        pos := pos + 1;
      }
      BodyEnds();
      CurrentIs();
      return false;
    }

    /** `scan_string`, at the opening quote. */
    method ScanRaw() returns (raw: Option<string>)
      requires Valid() && pos < |source| && source[pos] == '"' && status == Active
      modifies this`pos, this`status, this`errorOffset
      ensures Located(old(pos), old(errorOffset))
      ensures Valid()
      ensures old(Ahead()) != ""
      ensures raw.Some? ==> status == Active && ScanString(old(Ahead())) == Some((raw.value, Ahead()))
      ensures raw == None ==> status == Failed && ScanString(old(Ahead())) == None
    {
      hide BodyLength;
      CurrentIs();
      var open := pos;
      pos := pos + 1;
      var content := pos;
      ghost var body := Ahead();
      var closed := ScanBody();
      if closed {
        assert body[..pos - content] == source[content..pos];
        assert body[pos - content + 1..] == source[pos + 1..];
        raw := Some(source[content..pos]);
        pos := pos + 1;
      } else {
        if status == Active {
          pos := open;
          var _ := MakeError();
        }
        raw := None;
      }
    }

    /** `scan_number`. */
    method ScanNumber() returns (event: Event)
      requires Valid() && status == Active
      modifies this`pos, this`status, this`errorOffset
      ensures Located(old(pos), old(errorOffset))
      ensures Valid()
      ensures var t := old(Ahead());
              var n := NumberLength(t);
              && (n == None ==> event == Error && status == Failed)
              && (n.Some? ==> event == NumberText(t[..n.value]) && status == Active && Ahead() == t[n.value..])
    {
      hide NumberLength;
      ghost var t := Ahead();
      var start := pos;
      var ok := ScanParts();
      if !ok { event := MakeError(); return; }
      assert t[..pos - start] == source[start..pos] && t[pos - start..] == source[pos..];
      event := NumberText(source[start..pos]);
    }

    /** Sign, integer part, fraction and exponent in turn. */
    method ScanParts() returns (ok: bool)
      requires Valid()
      modifies this`pos
      ensures Valid() && old(pos) <= pos
      ensures var n := NumberLength(old(Ahead())); (ok <==> n.Some?) && (ok ==> pos == old(pos) + n.value)
    {
      hide NumberLength, WholeLength, FractionLength, ExponentLength;
      ghost var t := Ahead();
      ScanMinus();
      ghost var u := Ahead();
      ok := ScanWhole();
      if !ok {
        NumberFails(t, u);
        return;
      }
      ghost var v := Ahead();
      ok := ScanFraction();
      if !ok {
        NumberFailsLater(t, u, v);
        return;
      }
      ghost var w := Ahead();
      ok := ScanExponent();
      NumberEnds(t, u, v, w);
    }

    method ScanMinus()
      requires Valid()
      modifies this`pos
      ensures Valid() && pos == old(pos) + MinusLength(old(Ahead()))
      ensures Ahead() == old(Ahead())[MinusLength(old(Ahead()))..]
    {
      CurrentIs();
      if Current() == '-' { pos := pos + 1; }
    }

    /** The integer part: a lone zero, or digits that begin with another. */
    method ScanWhole() returns (ok: bool)
      requires Valid()
      modifies this`pos
      ensures Valid() && old(pos) <= pos
      ensures var n := WholeLength(old(Ahead()));
              (ok <==> n.Some?) && (ok ==> pos == old(pos) + n.value && Ahead() == old(Ahead())[n.value..])
    {
      CurrentIs();
      if Current() == '0' {
        pos := pos + 1;
      } else if IsDigit(Current()) {
        SkipDigits();
      } else {
        return false;
      }
      return true;
    }

    method ScanFraction() returns (ok: bool)
      requires Valid()
      modifies this`pos
      ensures Valid() && old(pos) <= pos
      ensures var n := FractionLength(old(Ahead()));
              (ok <==> n.Some?) && (ok ==> pos == old(pos) + n.value && Ahead() == old(Ahead())[n.value..])
    {
      CurrentIs();
      if Current() == '.' {
        pos := pos + 1;
        CurrentIs();
        if !IsDigit(Current()) { return false; }
        SkipDigits();
      }
      return true;
    }

    method ScanExponent() returns (ok: bool)
      requires Valid()
      modifies this`pos
      ensures Valid() && old(pos) <= pos
      ensures var n := ExponentLength(old(Ahead()));
              (ok <==> n.Some?) && (ok ==> pos == old(pos) + n.value && Ahead() == old(Ahead())[n.value..])
    {
      CurrentIs();
      if Current() == 'e' || Current() == 'E' {
        pos := pos + 1;
        CurrentIs();
        ghost var u := Ahead();
        if Current() == '+' || Current() == '-' { pos := pos + 1; }
        assert Ahead() == u[SignLength(u)..];
        CurrentIs();
        if !IsDigit(Current()) { return false; }
        SkipDigits();
      }
      return true;
    }

    /** `scan_literal`. */
    method ScanLiteral(literal: string, token: Event) returns (event: Event)
      requires Valid() && status == Active
      modifies this`pos, this`status, this`errorOffset
      ensures Located(old(pos), old(errorOffset))
      ensures Valid()
      ensures literal <= old(Ahead()) ==>
                event == token && status == Active && Ahead() == old(Ahead())[|literal|..]
      ensures !(literal <= old(Ahead())) ==> event == Error && status == Failed
    {
      if literal <= source[pos..] {
        pos := pos + |literal|;
        return token;
      }
      event := MakeError();
    }

    /** `open_frame`. */
    method OpenFrame(isObject: bool) returns (event: Event)
      requires Valid() && pos < |source| && status == Active && started
      modifies this`pos, this`depth, this`status, this`errorOffset, stack
      ensures Located(old(pos), old(errorOffset))
      ensures Valid() && started
      ensures (event, Abs()) ==
              if old(depth) >= stack.Length then (Error, Errored)
              else (if isObject then BeginObject else BeginArray,
                    Running(old(source[pos + 1..]), old(stack[..depth]) + [Frame(isObject, false, false)], true))
    {
      if depth >= stack.Length {
        event := MakeError();
        return;
      }
      ghost var was := stack[..depth];
      pos := pos + 1;
      stack[depth] := Frame(isObject, false, false);
      depth := depth + 1;
      assert stack[..depth] == was + [Frame(isObject, false, false)];
      event := if isObject then BeginObject else BeginArray;
    }

    /** `start_value`. */
    method BeginValue() returns (event: Event)
      requires Valid() && status == Active && started
      modifies this`pos, this`depth, this`status, this`errorOffset, stack
      ensures Located(old(pos), old(errorOffset))
      ensures Valid() && started
      ensures (event, Abs()) == StartValue(stack.Length, old(Ahead()), old(stack[..depth]))
    {
      hide ScanString, NumberLength;
      SkipWhitespace();
      CurrentIs();
      if pos >= |source| {
        event := MakeError();
        return;
      }
      var c := source[pos];
      if c == '{' {
        event := OpenFrame(true);
      } else if c == '[' {
        event := OpenFrame(false);
      } else if c == '"' {
        var raw := ScanRaw();
        event := if raw.Some? then String(raw.value) else Error;
      } else if c == 't' {
        event := ScanLiteral("true", Boolean("true"));
      } else if c == 'f' {
        event := ScanLiteral("false", Boolean("false"));
      } else if c == 'n' {
        event := ScanLiteral("null", NullValue);
      } else if c == '-' || IsDigit(c) {
        event := ScanNumber();
      } else {
        event := MakeError();
      }
    }

    /** `next_in_object`. */
    method NextInObject() returns (event: Event)
      requires Valid() && status == Active && started && depth > 0 && stack[depth - 1].isObject
      modifies this`pos, this`depth, this`status, this`errorOffset, stack
      ensures Located(old(pos), old(errorOffset))
      ensures Valid() && started
      ensures (event, Abs()) == InObject(stack.Length, old(Ahead()), old(stack[..depth - 1]), old(stack[depth - 1]))
    {
      hide StartValue, TakeName, SkipWs;
      ghost var below := stack[..depth - 1];
      var frame := stack[depth - 1];
      if frame.awaiting {
        stack[depth - 1] := frame.(awaiting := false);
        assert stack[..depth] == below + [frame.(awaiting := false)];
        event := BeginValue();
        return;
      }
      SkipWhitespace();
      CurrentIs();
      if Current() == '}' {
        pos := pos + 1;
        depth := depth - 1;
        return EndObject;
      }
      if frame.seen {
        if Current() != ',' { event := MakeError(); return; }
        pos := pos + 1;
        SkipWhitespace();
        CurrentIs();
        if Current() == '}' { event := MakeError(); return; }
      }
      event := NextName(frame);
    }

    /** The rest of it: the name and the colon. */
    method NextName(frame: Frame) returns (event: Event)
      requires Valid() && status == Active && started && depth > 0
      modifies this`pos, this`status, this`errorOffset, stack
      ensures Located(old(pos), old(errorOffset))
      ensures Valid() && started
      ensures (event, Abs()) == TakeName(old(Ahead()), old(stack[..depth - 1]), frame)
    {
      hide ScanString, SkipWs;
      ghost var below := stack[..depth - 1];
      CurrentIs();
      stack[depth - 1] := frame.(seen := true);
      if Current() != '"' { event := MakeError(); return; }
      var raw := ScanRaw();
      if raw == None { return Error; }
      SkipWhitespace();
      CurrentIs();
      if Current() != ':' { event := MakeError(); return; }
      pos := pos + 1;
      stack[depth - 1] := frame.(seen := true, awaiting := true);
      assert stack[..depth] == below + [frame.(seen := true, awaiting := true)];
      event := Key(raw.value);
    }

    /** `next_in_array`. */
    method NextInArray() returns (event: Event)
      requires Valid() && status == Active && started && depth > 0 && !stack[depth - 1].isObject
      modifies this`pos, this`depth, this`status, this`errorOffset, stack
      ensures Located(old(pos), old(errorOffset))
      ensures Valid() && started
      ensures (event, Abs()) == InArray(stack.Length, old(Ahead()), old(stack[..depth - 1]), old(stack[depth - 1]))
    {
      hide StartValue, SkipWs;
      ghost var below := stack[..depth - 1];
      var frame := stack[depth - 1];
      SkipWhitespace();
      CurrentIs();
      if Current() == ']' {
        pos := pos + 1;
        depth := depth - 1;
        return EndArray;
      }
      if frame.seen {
        if Current() != ',' { event := MakeError(); return; }
        pos := pos + 1;
        SkipWhitespace();
        CurrentIs();
        if Current() == ']' { event := MakeError(); return; }
      }
      stack[depth - 1] := frame.(seen := true);
      assert stack[..depth] == below + [frame.(seen := true)];
      event := BeginValue();
    }

    /**
      `next`: the step of the walk, in place.  The step that fails notes where it stopped, and no
      later call changes that.
    */
    method Next() returns (event: Event)
      requires Valid() && (status == Active && depth > 0 ==> started)
      modifies this, stack
      ensures Valid() && (status == Active && depth > 0 ==> started)
      ensures (event, Abs()) == JsonWalk.Next(stack.Length, old(Abs()))
      ensures old(status) != Failed ==> Located(old(pos), old(errorOffset))
      ensures old(status) == Failed ==> errorOffset == old(errorOffset)
    {
      hide StartValue, InObject, InArray, SkipWs;
      if status == Failed { return Error; }
      if status == Done { return End; }
      ghost var frames := stack[..depth];
      if depth == 0 {
        if !started {
          started := true;
          event := BeginValue();
          return;
        }
        SkipWhitespace();
        CurrentIs();
        if pos < |source| { event := MakeError(); return; }
        status := Done;
        return End;
      }
      assert frames[..|frames| - 1] == stack[..depth - 1];
      if stack[depth - 1].isObject {
        event := NextInObject();
      } else {
        event := NextInArray();
      }
    }
  }

  /**
    A whole document pulled from a fresh parser: it ends well exactly on a JSON text nested no
    deeper than allowed, and then the events are the walk of the text's one tree.
  */
  method ReadAll(source: string, maxDepth: nat) returns (ok: bool, events: seq<Event>)
    ensures ok <==> IsJson(source, maxDepth)
    ensures forall d :: ok && DocumentOk(d) && PrintDocument(d) == source ==> events == Events(d.value) + [End]
    ensures |events| <= |source| + 1
  {
    hide JsonWalk.Next, Run, IsJson, PrintDocument, DocumentOk, Events;
    var parser := new JsonParser(source, maxDepth);
    ghost var start := Initial(source);
    events := [];
    RunNone(maxDepth, start);
    while parser.status == Active
      invariant parser.Valid() && parser.source == source && parser.stack.Length == maxDepth && fresh(parser.stack)
      invariant fresh(parser)
      invariant parser.status == Active && parser.depth > 0 ==> parser.started
      invariant Run(maxDepth, start, |events|) == (events, parser.Abs())
      invariant |events| <= |source| + 1
      invariant parser.status != Active ==> events != [] && Run(maxDepth, start, |events| - 1).1.Running?
      decreases |source| + 1 - |events|
    {
      RunConsumes(maxDepth, start, |events|);
      RunGrows(maxDepth, start, events, parser.Abs());
      var event := parser.Next();
      events := events + [event];
    }
    ok := parser.status == Done;
    EndTells(maxDepth, source, events, parser.Abs());
  }

  lemma RunNone(max: nat, c: Config)
    ensures Run(max, c, 0) == ([], c)
  {
  }

  lemma RunGrows(max: nat, start: Config, events: seq<Event>, c: Config)
    requires Run(max, start, |events|) == (events, c)
    ensures Run(max, start, |events| + 1) == (events + [JsonWalk.Next(max, c).0], JsonWalk.Next(max, c).1)
  {
    hide JsonWalk.Next;
    RunInTwo(max, start, |events|, 1);
    RunOne(max, c);
  }

  /** How a run has ended tells whether the source is JSON, and the events are those of its tree. */
  lemma EndTells(max: nat, source: string, events: seq<Event>, c: Config)
    requires !c.Running? && Run(max, Initial(source), |events|) == (events, c)
    requires events != [] && Run(max, Initial(source), |events| - 1).1.Running?
    ensures c == Finished <==> IsJson(source, max)
    ensures c == Finished ==>
              forall d :: DocumentOk(d) && PrintDocument(d) == source ==> events == Events(d.value) + [End]
  {
    hide JsonWalk.Next, PrintDocument, DocumentOk, Events;
    AcceptsExactlyJson(max, source);
    OneEnd(max, Initial(source), |events|, |source| + 1);
    if c == Finished {
      forall d | DocumentOk(d) && PrintDocument(d) == source ensures events == Events(d.value) + [End] {
        EventsAre(max, source, events, d);
      }
    }
  }

  /** A run that has just reached the end has returned the events of the tree, whichever is printed so. */
  lemma EventsAre(max: nat, source: string, events: seq<Event>, d: Document)
    requires Run(max, Initial(source), |events|) == (events, Finished)
    requires events != [] && Run(max, Initial(source), |events| - 1).1.Running?
    requires DocumentOk(d) && PrintDocument(d) == source
    ensures events == Events(d.value) + [End]
  {
    hide *;
    var e := EndedIsDocument(max, source, |events|);
    TreeIsUnique(d, e);
    var k := |Events(d.value)| + 1;
    PrintedIsWalked(max, d);
    if k < |events| {
      RunInTwo(max, Initial(source), k, |events| - 1 - k);
      Sticky(max, Finished, |events| - 1 - k);
    }
    assert events[..|events|] == events;
  }
}
