/**
  A JSON text has one tree: the grammar leaves no choice, not even of where white space belongs.
*/
module JsonUnique {
  import opened Wrappers
  import opened JsonText
  import opened JsonScan
  import opened JsonWalk

  lemma SpellsNothing(units: seq<Unit>)
    ensures Spell(units) == "" <==> units == []
  {
    if units != [] { assert |SpellUnit(units[0])| > 0; }
  }

  lemma {:induction false} SpellOneToOne(x: seq<Unit>, y: seq<Unit>)
    requires UnitsOk(x) && UnitsOk(y) && Spell(x) == Spell(y)
    ensures x == y
    decreases |x|
  {
    SpellsNothing(x);
    SpellsNothing(y);
    if x != [] {
      UnitOneToOne(x[0], Spell(x[1..]), y[0], Spell(y[1..]));
      SpellOneToOne(x[1..], y[1..]);
      assert x == [x[0]] + x[1..] && y == [y[0]] + y[1..];
    }
  }

  lemma UnitOneToOne(u: Unit, more: string, v: Unit, further: string)
    requires UnitOk(u) && UnitOk(v) && SpellUnit(u) + more == SpellUnit(v) + further
    ensures u == v && more == further
  {
    var t, s := SpellUnit(u) + more, SpellUnit(v) + further;
    assert t[0] == SpellUnit(u)[0] && s[0] == SpellUnit(v)[0];
    if !u.Plain? {
      assert t[1] == SpellUnit(u)[1] && s[1] == SpellUnit(v)[1];
    }
    assert |SpellUnit(u)| == |SpellUnit(v)|;
    Cut(SpellUnit(u), more);
    Cut(SpellUnit(v), further);
    assert SpellUnit(u) == SpellUnit(v);
    if u.Hex? {
      assert SpellUnit(u)[2..] == u.digits && SpellUnit(v)[2..] == v.digits;
    }
  }

  /** Two texts that begin alike after white space are alike. */
  lemma WsOneToOne(ws: string, t: string, ws': string, t': string)
    requires AllWs(ws) && AllWs(ws') && ws + t == ws' + t'
    requires (t == "" || !IsWs(t[0])) && (t' == "" || !IsWs(t'[0]))
    ensures ws == ws' && t == t'
  {
    SkipsWs(ws, t);
    SkipsWs(ws', t');
    assert |ws| == |ws'|;
    Cut(ws, t);
    Cut(ws', t');
  }

  lemma SameCut(a: string, t: string, b: string, s: string)
    requires a + t == b + s && |a| == |b|
    ensures a == b && t == s
  {
    Cut(a, t);
    Cut(b, s);
  }

  lemma ExponentOneToOne(x: Option<Exponent>, y: Option<Exponent>)
    requires ExponentOk(x) && ExponentOk(y) && PrintExponent(x) == PrintExponent(y)
    ensures x == y
  {
    if x.Some? && y.Some? {
      var e, f := x.value, y.value;
      Regrouped([e.mark], e.sign, e.digits);
      Regrouped([f.mark], f.sign, f.digits);
      SameCut([e.mark], e.sign + e.digits, [f.mark], f.sign + f.digits);
      SignTaken(e.sign, e.digits);
      SignTaken(f.sign, f.digits);
      SameCut(e.sign, e.digits, f.sign, f.digits);
    }
  }

  lemma FractionOneToOne(x: Option<string>, t: string, y: Option<string>, s: string)
    requires FractionOk(x) && FractionOk(y) && PrintFraction(x) + t == PrintFraction(y) + s
    requires !IsDigit(Peek(t)) && Peek(t) != '.' && !IsDigit(Peek(s)) && Peek(s) != '.'
    ensures x == y && t == s
  {
    FractionTaken(x, t);
    FractionTaken(y, s);
    SameCut(PrintFraction(x), t, PrintFraction(y), s);
    if x.Some? && y.Some? {
      SameCut(".", x.value, ".", y.value);
    }
  }

  lemma NumberOneToOne(n: Number, m: Number)
    requires NumberOk(n) && NumberOk(m) && PrintNumber(n) == PrintNumber(m)
    ensures n == m
  {
    hide WholeOk, FractionOk, ExponentOk, PrintFraction, PrintExponent, WholeLength, MinusLength;
    var x, y := PrintExponent(n.exponent), PrintExponent(m.exponent);
    var f, h := PrintFraction(n.fraction), PrintFraction(m.fraction);
    Starts(n);
    Starts(m);
    SameCut(Minus(n), n.whole + (f + x), Minus(m), m.whole + (h + y));
    SameCut(n.whole, f + x, m.whole, h + y);
    FractionOneToOne(n.fraction, x, m.fraction, y);
    ExponentOneToOne(n.exponent, m.exponent);
  }

  /** What the scanners see of a number on its own. */
  lemma Starts(n: Number)
    requires NumberOk(n)
    ensures var x, f := PrintExponent(n.exponent), PrintFraction(n.fraction);
            && MinusLength(PrintNumber(n)) == |Minus(n)|
            && PrintNumber(n) == Minus(n) + (n.whole + (f + x))
            && WholeLength(n.whole + (f + x)) == Some(|n.whole|)
            && !IsDigit(Peek(x)) && Peek(x) != '.'
            && n.minus == (PrintNumber(n) != "" && PrintNumber(n)[0] == '-')
  {
    hide PrintFraction, PrintExponent, WholeLength;
    var x, f := PrintExponent(n.exponent), PrintFraction(n.fraction);
    ExponentStarts(n.exponent, "");
    assert x + "" == x;
    FractionStarts(n.fraction, x);
    WholeTaken(n.whole, f + x);
    WholeStarts(n.whole, f + x);
    MinusTaken(n, n.whole + (f + x));
    if !n.minus { Nothing(n.whole + (f + x)); }
  }

  // ----- values -----

  lemma ScalarOneToOne(v: Value, t: string, w: Value, s: string)
    requires ValueOk(v) && ValueOk(w) && Delimited(t) && Delimited(s) && IsScalar(v) && IsScalar(w)
    requires Print(v, t) == Print(w, s)
    ensures v == w && t == s
  {
    hide Print, Scalar, Spell, PrintNumber, NumberOk;
    ScalarTaken(v, t);
    ScalarTaken(w, s);
    if v.Str? { SpellOneToOne(v.units, w.units); }
    if v.Num? { NumberOneToOne(v.number, w.number); }
  }

  lemma QuotedOneToOne(x: seq<Unit>, t: string, y: seq<Unit>, s: string)
    requires UnitsOk(x) && UnitsOk(y) && Quoted(x, t) == Quoted(y, s)
    ensures x == y && t == s
  {
    hide Quoted, ScanString, Spell, UnitsOk;
    QuotedBegins(x, t);
    QuotedTaken(x, t);
    QuotedTaken(y, s);
    SpellOneToOne(x, y);
  }

  lemma {:induction false} ValueOneToOne(v: Value, t: string, w: Value, s: string)
    requires ValueOk(v) && ValueOk(w) && Delimited(t) && Delimited(s) && Print(v, t) == Print(w, s)
    ensures v == w && t == s
    decreases v, 1
  {
    hide PrintMembers, PrintElements, PrintNumber, Quoted, NumberOk, UnitsOk;
    ValueBegins(v, t);
    ValueBegins(w, s);
    match v
    case Object(m) =>
      SameCut(['{'], PrintMembers(m, true, t), ['{'], PrintMembers(w.members, true, s));
      MembersOneToOne(m, w.members, true, t, s);
    case Array(e) =>
      SameCut(['['], PrintElements(e, true, t), ['['], PrintElements(w.elements, true, s));
      ElementsOneToOne(e, w.elements, true, t, s);
    case _ => ScalarOneToOne(v, t, w, s);
  }

  /** After its first gap, what is left to print of an object: it does not begin with white space. */
  function MembersTail(m: Members, first: bool, tail: string): string {
    match m
    case CloseObject(_) => ['}'] + tail
    case Member(_, lead, name, before, after, value, more) =>
      var u := Quoted(name, before + ([':'] + (after + Print(value, PrintMembers(more, false, tail)))));
      if first then u else [','] + (lead + u)
  }

  lemma MembersInTwo(m: Members, first: bool, tail: string)
    requires MembersOk(m, first)
    ensures AllWs(m.gap) && PrintMembers(m, first, tail) == m.gap + MembersTail(m, first, tail)
    ensures var u := MembersTail(m, first, tail);
            u != "" && !IsWs(u[0]) && (u[0] == '}' <==> m.CloseObject?)
  {
    hide Print, Spell, UnitsOk;
  }

  lemma {:induction false} MembersOneToOne(m: Members, k: Members, first: bool, t: string, s: string)
    requires MembersOk(m, first) && MembersOk(k, first) && PrintMembers(m, first, t) == PrintMembers(k, first, s)
    ensures m == k && t == s
    decreases m, 0
  {
    hide PrintMembers, MembersTail, Print, Quoted, ValueOk, UnitsOk, AllWs;
    MembersInTwo(m, first, t);
    MembersInTwo(k, first, s);
    WsOneToOne(m.gap, MembersTail(m, first, t), k.gap, MembersTail(k, first, s));
    match m
    case CloseObject(_) => ClosedAlike(m, k, first, t, s);
    case Member(_, lead, name, before, after, value, more) =>
      var further, further' := PrintMembers(more, false, t), PrintMembers(k.more, false, s);
      NamesAlike(m, k, first, t, s);
      MembersDelimited(more, t);
      MembersDelimited(k.more, s);
      ValueBegins(value, further);
      ValueBegins(k.value, further');
      WsOneToOne(after, Print(value, further), k.after, Print(k.value, further'));
      ValueOneToOne(value, further, k.value, further');
      MembersOneToOne(more, k.more, false, t, s);
  }

  lemma ClosedAlike(m: Members, k: Members, first: bool, t: string, s: string)
    requires m.CloseObject? && k.CloseObject? && MembersTail(m, first, t) == MembersTail(k, first, s)
    ensures t == s
  {
    SameCut(['}'], t, ['}'], s);
  }

  lemma NamesAlike(m: Members, k: Members, first: bool, t: string, s: string)
    requires m.Member? && k.Member? && MembersOk(m, first) && MembersOk(k, first)
    requires MembersTail(m, first, t) == MembersTail(k, first, s)
    ensures m.lead == k.lead && m.name == k.name && m.before == k.before
    ensures m.after + Print(m.value, PrintMembers(m.more, false, t))
         == k.after + Print(k.value, PrintMembers(k.more, false, s))
  {
    hide Print, PrintMembers, Quoted, ValueOk, UnitsOk, AllWs;
    var x := m.after + Print(m.value, PrintMembers(m.more, false, t));
    var y := k.after + Print(k.value, PrintMembers(k.more, false, s));
    var v, w := m.before + ([':'] + x), k.before + ([':'] + y);
    var p, q := Quoted(m.name, v), Quoted(k.name, w);
    QuotedBegins(m.name, v);
    QuotedBegins(k.name, w);
    if !first {
      SameCut([','], m.lead + p, [','], k.lead + q);
      WsOneToOne(m.lead, p, k.lead, q);
    }
    QuotedOneToOne(m.name, v, k.name, w);
    WsOneToOne(m.before, [':'] + x, k.before, [':'] + y);
    SameCut([':'], x, [':'], y);
  }

  function ElementsTail(e: Elements, first: bool, tail: string): string {
    match e
    case CloseArray(_) => [']'] + tail
    case Element(_, lead, value, more) =>
      var u := Print(value, PrintElements(more, false, tail));
      if first then u else [','] + (lead + u)
  }

  lemma ElementsInTwo(e: Elements, first: bool, tail: string)
    requires ElementsOk(e, first)
    ensures AllWs(e.gap) && PrintElements(e, first, tail) == e.gap + ElementsTail(e, first, tail)
    ensures var u := ElementsTail(e, first, tail);
            u != "" && !IsWs(u[0]) && (u[0] == ']' <==> e.CloseArray?)
  {
    hide Print, ValueOk;
    if e.Element? {
      ElementsDelimited(e.more, tail);
      ValueBegins(e.value, PrintElements(e.more, false, tail));
    }
  }

  lemma {:induction false} ElementsOneToOne(e: Elements, k: Elements, first: bool, t: string, s: string)
    requires ElementsOk(e, first) && ElementsOk(k, first) && PrintElements(e, first, t) == PrintElements(k, first, s)
    ensures e == k && t == s
    decreases e, 0
  {
    hide PrintElements, Print, ValueOk, AllWs;
    ElementsInTwo(e, first, t);
    ElementsInTwo(k, first, s);
    WsOneToOne(e.gap, ElementsTail(e, first, t), k.gap, ElementsTail(k, first, s));
    match e
    case CloseArray(_) => SameCut([']'], t, [']'], s);
    case Element(_, lead, value, more) =>
      var further, further' := PrintElements(more, false, t), PrintElements(k.more, false, s);
      var u, u' := Print(value, further), Print(k.value, further');
      ElementsDelimited(more, t);
      ElementsDelimited(k.more, s);
      ValueBegins(value, further);
      ValueBegins(k.value, further');
      if !first {
        SameCut([','], lead + u, [','], k.lead + u');
        WsOneToOne(lead, u, k.lead, u');
      }
      ValueOneToOne(value, further, k.value, further');
      ElementsOneToOne(more, k.more, false, t, s);
  }

  /** One text, one tree. */
  lemma TreeIsUnique(d: Document, e: Document)
    requires DocumentOk(d) && DocumentOk(e) && PrintDocument(d) == PrintDocument(e)
    ensures d == e
  {
    hide Print, ValueOk;
    AfterDelimited(d.after);
    AfterDelimited(e.after);
    ValueBegins(d.value, d.after);
    ValueBegins(e.value, e.after);
    WsOneToOne(d.before, Print(d.value, d.after), e.before, Print(e.value, e.after));
    ValueOneToOne(d.value, d.after, e.value, e.after);
  }
}
