/**
  The other direction: a run that reaches the end has read a tree, and every run stops.
*/
module JsonSound {
  import opened Wrappers
  import opened JsonText
  import opened JsonScan
  import opened JsonWalk

  // ----- every run stops -----

  lemma ScalarConsumes(t: string)
    ensures Scalar(t).Some? ==> |Scalar(t).value.1| < |t|
  {
    hide BodyLength, NumberLength;
  }

  lemma StartConsumes(max: nat, rest: string, stack: seq<Frame>)
    ensures var r := StartValue(max, rest, stack).1; r.Running? ==> |r.rest| < |rest|
    ensures !StartValue(max, rest, stack).1.Finished?
  {
    hide Scalar;
    ScalarConsumes(SkipWs(rest));
  }

  /** A call that goes on has taken at least one character. */
  lemma NextConsumes(max: nat, c: Config)
    requires c.Running?
    ensures var r := Next(max, c).1; r.Running? ==> |r.rest| < |c.rest|
  {
    hide StartValue, BodyLength;
    if c.stack == [] {
      StartConsumes(max, c.rest, []);
    } else {
      var below, frame := c.stack[..|c.stack| - 1], c.stack[|c.stack| - 1];
      if frame.isObject {
        StartConsumes(max, c.rest, below + [frame.(awaiting := false)]);
      } else {
        var t := SkipWs(c.rest);
        var u := if frame.seen && t != "" then SkipWs(t[1..]) else t;
        StartConsumes(max, u, below + [frame.(seen := true)]);
      }
    }
  }

  lemma {:induction false} Sticky(max: nat, c: Config, n: nat)
    requires !c.Running?
    ensures Run(max, c, n).1 == c
    ensures forall i :: 0 <= i < n ==> Run(max, c, n).0[i] == if c == Finished then End else Error
    decreases n
  {
    if n > 0 { Sticky(max, c, n - 1); }
  }

  lemma {:induction false} RunConsumes(max: nat, c: Config, n: nat)
    requires c.Running? && Run(max, c, n).1.Running?
    ensures n + |Run(max, c, n).1.rest| <= |c.rest|
    decreases n
  {
    hide Next;
    if n > 0 {
      var after := Next(max, c).1;
      if !after.Running? { Sticky(max, after, n - 1); }
      NextConsumes(max, c);
      RunConsumes(max, after, n - 1);
    }
  }

  /** Every run stops, at the end or in an error, within one call more than there are characters. */
  lemma RunStops(max: nat, source: string)
    ensures !Run(max, Initial(source), |source| + 1).1.Running?
  {
    if Run(max, Initial(source), |source| + 1).1.Running? {
      RunConsumes(max, Initial(source), |source| + 1);
    }
  }

  /** A run that ends well has not failed on the way. */
  lemma EndsAfter(max: nat, c: Config, n: nat)
    requires c.Running? && Run(max, c, n).1 == Finished
    ensures n > 0 && !Next(max, c).1.Errored?
    ensures Run(max, Next(max, c).1, n - 1).1 == Finished
  {
    hide Next;
    if Next(max, c).1.Errored? { Sticky(max, Next(max, c).1, n - 1); }
  }

  lemma EndsLater(max: nat, c: Config, k: nat, n: nat)
    requires Run(max, c, n).1 == Finished && Run(max, c, k).1.Running?
    ensures k < n && Run(max, Run(max, c, k).1, n - k).1 == Finished
  {
    if k >= n {
      RunInTwo(max, c, n, k - n);
      Sticky(max, Finished, k - n);
    } else {
      RunInTwo(max, c, k, n - k);
    }
  }

  // ----- what was read -----

  lemma WsRead(rest: string) returns (ws: string)
    ensures AllWs(ws) && rest == ws + SkipWs(rest)
  {
    WsSkipped(rest);
    ws := rest[..WsLength(rest)];
  }

  lemma QuotedRead(t: string) returns (units: seq<Unit>)
    requires t != "" && t[0] == '"' && ScanString(t).Some?
    ensures UnitsOk(units) && Spell(units) == ScanString(t).value.0 && t == Quoted(units, ScanString(t).value.1)
  {
    hide BodyLength, Spell, UnitsOk;
    units := BodyGiven(t[1..]);
    var body, n := t[1..], BodyLength(t[1..]).value;
    assert body == body[..n] + (['"'] + body[n + 1..]);
    assert t == ['"'] + body;
  }

  lemma ScalarRead(t: string) returns (v: Value)
    requires Scalar(t).Some?
    ensures IsScalar(v) && ValueOk(v) && t == Print(v, Scalar(t).value.1) && Events(v) == [Scalar(t).value.0]
  {
    hide ScanString, NumberLength, NumberOk, PrintNumber, Spell, UnitsOk, Quoted;
    if t[0] == '"' {
      var units := QuotedRead(t);
      v := Str(units);
    } else if t[0] == 't' || t[0] == 'f' || t[0] == 'n' {
      v := Literal(if t[0] == 't' then True else if t[0] == 'f' then False else Null);
    } else {
      var n := NumberGiven(t);
      v := Num(n);
      assert t == t[..NumberLength(t).value] + t[NumberLength(t).value..];
    }
  }

  /** What the call that meets a member has read. */
  lemma NameRead(max: nat, rest: string, below: seq<Frame>, first: bool)
    returns (gap: string, lead: string, name: seq<Unit>, before: string, further: string)
    requires var r := Next(max, Running(rest, below + [Frame(true, !first, false)], true));
             r.1.Running? && r.0 != EndObject
    ensures AllWs(gap) && AllWs(lead) && (first ==> lead == "") && UnitsOk(name) && AllWs(before)
    ensures var u := Quoted(name, before + ([':'] + further));
            rest == gap + (if first then u else [','] + (lead + u))
    ensures Next(max, Running(rest, below + [Frame(true, !first, false)], true))
         == (Key(Spell(name)), Running(further, below + [Frame(true, true, true)], true))
  {
    hide ScanString, SkipWs, UnitsOk, Quoted, Spell, AllWs;
    var frame := Frame(true, !first, false);
    assert (below + [frame])[..|below|] == below;
    var t := SkipWs(rest);
    gap := WsRead(rest);
    lead := "";
    NoWs();
    var u := t;
    if !first {
      u := SkipWs(t[1..]);
      lead := WsRead(t[1..]);
      assert t == [','] + t[1..];
    }
    name := QuotedRead(u);
    var v := ScanString(u).value.1;
    before := WsRead(v);
    var w := SkipWs(v);
    further := w[1..];
    assert w == [':'] + further;
  }

  lemma NoWs()
    ensures AllWs("")
  {
  }

  lemma ClosesRead(max: nat, rest: string, below: seq<Frame>, first: bool, isObject: bool) returns (gap: string)
    requires var r := Next(max, Running(rest, below + [Frame(isObject, !first, false)], true));
             r.0 == (if isObject then EndObject else EndArray)
    ensures AllWs(gap)
    ensures var tail := SkipWs(rest);
            && tail != "" && rest == gap + ([if isObject then '}' else ']'] + tail[1..])
            && Next(max, Running(rest, below + [Frame(isObject, !first, false)], true)).1 == Running(tail[1..], below, true)
  {
    hide ScanString, AllWs;
    var frame := Frame(isObject, !first, false);
    assert (below + [frame])[..|below|] == below;
    gap := WsRead(rest);
    var tail := SkipWs(rest);
    StartIsNoEnd(max, rest, below + [frame]);
    StartIsNoEnd(max, rest, below + [frame.(seen := true)]);
    StartIsNoEnd(max, tail, below + [frame.(seen := true)]);
    if tail != "" {
      StartIsNoEnd(max, SkipWs(tail[1..]), below + [frame.(seen := true)]);
      assert tail == [tail[0]] + tail[1..];
    }
  }

  lemma StartIsNoEnd(max: nat, rest: string, stack: seq<Frame>)
    ensures var e := StartValue(max, rest, stack).0; e != EndObject && e != EndArray
  {
    hide NumberLength, ScanString;
  }

  /** What the call that meets an element has read before it. */
  lemma ElementLead(max: nat, rest: string, below: seq<Frame>, first: bool)
    returns (gap: string, lead: string, further: string)
    requires var r := Next(max, Running(rest, below + [Frame(false, !first, false)], true));
             r.1.Running? && r.0 != EndArray
    ensures AllWs(gap) && AllWs(lead) && (first ==> lead == "") && (further == "" || !IsWs(further[0]))
    ensures rest == gap + (if first then further else [','] + (lead + further))
    ensures Next(max, Running(rest, below + [Frame(false, !first, false)], true))
         == StartValue(max, further, below + [Frame(false, true, false)])
  {
    hide StartValue, SkipWs, AllWs;
    var frame := Frame(false, !first, false);
    assert (below + [frame])[..|below|] == below;
    gap := WsRead(rest);
    WsSkipped(rest);
    lead := "";
    NoWs();
    further := SkipWs(rest);
    if !first {
      var t := further;
      further := SkipWs(t[1..]);
      lead := WsRead(t[1..]);
      WsSkipped(t[1..]);
      assert t == [','] + t[1..];
    }
  }

  /** What the call that begins an object or array has read. */
  lemma OpensRead(max: nat, rest: string, stack: seq<Frame>) returns (ws: string, isObject: bool, inside: string)
    requires var r := StartValue(max, rest, stack); r.1.Running? && (r.0 == BeginObject || r.0 == BeginArray)
    ensures AllWs(ws) && rest == ws + ([if isObject then '{' else '['] + inside) && |stack| < max
    ensures StartValue(max, rest, stack)
         == (if isObject then BeginObject else BeginArray,
             Running(inside, stack + [Frame(isObject, false, false)], true))
  {
    hide AllWs, NumberLength, ScanString;
    ws := WsRead(rest);
    var t := SkipWs(rest);
    isObject := Peek(t) == '{';
    inside := t[1..];
    assert t == [t[0]] + inside;
  }

  lemma ScalarStartRead(max: nat, rest: string, stack: seq<Frame>) returns (ws: string, v: Value)
    requires var r := StartValue(max, rest, stack); r.1.Running? && r.0 != BeginObject && r.0 != BeginArray
    ensures AllWs(ws) && ValueOk(v) && IsScalar(v)
    ensures var r := StartValue(max, rest, stack);
            && rest == ws + Print(v, r.1.rest) && Events(v) == [r.0] && r.1 == Running(r.1.rest, stack, true)
  {
    hide AllWs, Scalar, Print;
    ws := WsRead(rest);
    v := ScalarRead(SkipWs(rest));
  }

  /** A value read by a run that ends well. */
  lemma {:induction false} ValueRead(max: nat, rest: string, stack: seq<Frame>, n: nat)
    returns (ws: string, v: Value, tail: string)
    requires StartValue(max, rest, stack).1.Running? && |stack| <= max
    requires Run(max, StartValue(max, rest, stack).1, n).1 == Finished
    ensures AllWs(ws) && ValueOk(v) && rest == ws + Print(v, tail) && |stack| + Depth(v) <= max
    ensures 0 < |Events(v)| <= n && StartValue(max, rest, stack).0 == Events(v)[0]
    ensures Run(max, StartValue(max, rest, stack).1, |Events(v)| - 1) == (Events(v)[1..], Running(tail, stack, true))
    decreases n, 1
  {
    hide StartValue, AllWs, Next;
    var r := StartValue(max, rest, stack);
    if r.0 == BeginObject || r.0 == BeginArray {
      var isObject, inside;
      ws, isObject, inside := OpensRead(max, rest, stack);
      if isObject {
        var m;
        m, tail := MembersRead(max, inside, stack, true, n);
        v := Object(m);
      } else {
        var e;
        e, tail := ElementsRead(max, inside, stack, true, n);
        v := Array(e);
      }
    } else {
      ws, v := ScalarStartRead(max, rest, stack);
      tail := r.1.rest;
      assert Run(max, r.1, 0) == ([], r.1);
      assert Events(v)[1..] == [];
    }
  }

  /** The members of an object, from its opening or from after a value. */
  lemma {:induction false} MembersRead(max: nat, rest: string, below: seq<Frame>, first: bool, n: nat)
    returns (m: Members, tail: string)
    requires |below| < max
    requires Run(max, Running(rest, below + [Frame(true, !first, false)], true), n).1 == Finished
    ensures MembersOk(m, first) && rest == PrintMembers(m, first, tail) && |below| + 1 + MembersDepth(m) <= max
    ensures |MembersEvents(m)| < n
    ensures Run(max, Running(rest, below + [Frame(true, !first, false)], true), |MembersEvents(m)|)
         == (MembersEvents(m), Running(tail, below, true))
    decreases n, 0
  {
    hide StartValue, AllWs, Next, Print, ValueOk, UnitsOk, Quoted, Spell, Depth;
    var c := Running(rest, below + [Frame(true, !first, false)], true);
    EndsAfter(max, c, n);
    NotFinished(max, c);
    var c1 := Next(max, c).1;
    if Next(max, c).0 == EndObject {
      var gap := ClosesRead(max, rest, below, first, true);
      m := CloseObject(gap);
      tail := SkipWs(rest)[1..];
      RunOne(max, c);
      EndsLater(max, c, 1, n);
    } else {
      var gap, lead, name, before, further := NameRead(max, rest, below, first);
      EndsAfter(max, c1, n - 1);
      ExpectsValue(max, further, below);
      StartConsumes(max, further, below + [Frame(true, true, false)]);
      var after, v, rest' := ValueRead(max, further, below + [Frame(true, true, false)], n - 2);
      var stack := below + [Frame(true, true, false)];
      ValueThen(max, c1, v, stack, rest', 0);
      assert Run(max, Running(rest', stack, true), 0) == ([], Running(rest', stack, true));
      assert Events(v) + [] == Events(v);
      EndsLater(max, c1, |Events(v)|, n - 1);
      var more;
      more, tail := MembersRead(max, rest', below, false, n - 1 - |Events(v)|);
      m := Member(gap, lead, name, before, after, v, more);
      ValueThen(max, c1, v, stack, rest', |MembersEvents(more)|);
      RunStep(max, c, |Events(v)| + |MembersEvents(more)|);
    }
  }

  /** With a frame open, a call does not reach the end. */
  lemma NotFinished(max: nat, c: Config)
    requires c.Running? && c.stack != []
    ensures !Next(max, c).1.Finished?
  {
    hide Scalar, ScanString;
  }

  lemma {:induction false} ElementsRead(max: nat, rest: string, below: seq<Frame>, first: bool, n: nat)
    returns (e: Elements, tail: string)
    requires |below| < max
    requires Run(max, Running(rest, below + [Frame(false, !first, false)], true), n).1 == Finished
    ensures ElementsOk(e, first) && rest == PrintElements(e, first, tail) && |below| + 1 + ElementsDepth(e) <= max
    ensures |ElementsEvents(e)| < n
    ensures Run(max, Running(rest, below + [Frame(false, !first, false)], true), |ElementsEvents(e)|)
         == (ElementsEvents(e), Running(tail, below, true))
    decreases n, 0
  {
    hide StartValue, AllWs, Next, Print, ValueOk, Depth;
    var c := Running(rest, below + [Frame(false, !first, false)], true);
    EndsAfter(max, c, n);
    NotFinished(max, c);
    var c1 := Next(max, c).1;
    if Next(max, c).0 == EndArray {
      var gap := ClosesRead(max, rest, below, first, false);
      e := CloseArray(gap);
      tail := SkipWs(rest)[1..];
      RunOne(max, c);
      EndsLater(max, c, 1, n);
    } else {
      var gap, lead, further := ElementLead(max, rest, below, first);
      var stack := below + [Frame(false, true, false)];
      var ws, v, rest' := ValueRead(max, further, stack, n - 1);
      NoLead(ws, Print(v, rest'));
      ValueThen(max, c, v, stack, rest', 0);
      assert Run(max, Running(rest', stack, true), 0) == ([], Running(rest', stack, true));
      assert Events(v) + [] == Events(v);
      EndsLater(max, c, |Events(v)|, n);
      var more;
      more, tail := ElementsRead(max, rest', below, false, n - |Events(v)|);
      e := Element(gap, lead, v, more);
      ValueThen(max, c, v, stack, rest', |ElementsEvents(more)|);
    }
  }

  lemma FirstWs(ws: string, t: string)
    requires AllWs(ws)
    ensures ws != "" ==> ws + t != "" && IsWs((ws + t)[0])
  {
  }

  lemma NoLead(ws: string, t: string)
    requires AllWs(ws) && (ws + t == "" || !IsWs((ws + t)[0]))
    ensures ws == "" && ws + t == t
  {
    FirstWs(ws, t);
    Nothing(t);
  }

  /**
    A run that reaches the end has read a JSON text, nested no deeper than allowed; what it
    returned is the walk of the text's tree, then the end.
  */
  lemma EndedIsDocument(max: nat, source: string, n: nat) returns (d: Document)
    requires Run(max, Initial(source), n).1 == Finished
    ensures DocumentOk(d) && PrintDocument(d) == source && Depth(d.value) <= max
    ensures n > |Events(d.value)|
    ensures Run(max, Initial(source), n).0[..|Events(d.value)| + 1] == Events(d.value) + [End]
  {
    hide StartValue, Print, ValueOk, AllWs, Depth;
    var c := Initial(source);
    EndsAfter(max, c, n);
    StartConsumes(max, source, []);
    var before, v, tail := ValueRead(max, source, [], n - 1);
    ValueThen(max, c, v, [], tail, 0);
    assert Run(max, Running(tail, [], true), 0) == ([], Running(tail, [], true));
    assert Events(v) + [] == Events(v);
    EndsLater(max, c, |Events(v)|, n);
    EndsAfter(max, Running(tail, [], true), n - |Events(v)|);
    var after := WsRead(tail);
    assert after + "" == after;
    d := Document(before, v, after);
    RunInTwo(max, c, |Events(v)|, n - |Events(v)|);
  }

  /** Two runs of one source do not end differently. */
  lemma OneEnd(max: nat, c: Config, n: nat, m: nat)
    requires !Run(max, c, n).1.Running? && !Run(max, c, m).1.Running?
    ensures Run(max, c, n).1 == Run(max, c, m).1
  {
    if n <= m {
      RunInTwo(max, c, n, m - n);
      Sticky(max, Run(max, c, n).1, m - n);
    } else {
      RunInTwo(max, c, m, n - m);
      Sticky(max, Run(max, c, m).1, n - m);
    }
  }

  ghost predicate IsJson(source: string, max: nat) {
    exists d :: DocumentOk(d) && PrintDocument(d) == source && Depth(d.value) <= max
  }

  /**
    The sources on which the parser reaches the end are exactly the JSON texts nested no deeper
    than allowed; on every other source it ends in an error.
  */
  lemma AcceptsExactlyJson(max: nat, source: string)
    ensures var ending := Run(max, Initial(source), |source| + 1).1;
            ending == if IsJson(source, max) then Finished else Errored
  {
    RunStops(max, source);
    var ending := Run(max, Initial(source), |source| + 1).1;
    if ending == Finished {
      var d := EndedIsDocument(max, source, |source| + 1);
    }
    if IsJson(source, max) {
      var d :| DocumentOk(d) && PrintDocument(d) == source && Depth(d.value) <= max;
      PrintedIsWalked(max, d);
      OneEnd(max, Initial(source), |source| + 1, |Events(d.value)| + 1);
    }
  }
}
