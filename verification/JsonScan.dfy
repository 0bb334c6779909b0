/**
  The scanners: each takes the text ahead and says how much of it a token takes.  Each takes
  exactly what the grammar prints, and what it takes the grammar prints.
*/
module JsonScan {
  import opened Wrappers
  import opened JsonText

  lemma Cut(a: string, b: string)
    ensures (a + b)[|a|..] == b && (a + b)[..|a|] == a
  {
  }

  function SkipWs(t: string): (u: string)
    ensures |u| <= |t|
  {
    if t != "" && IsWs(t[0]) then SkipWs(t[1..]) else t
  }

  /** The current character, or NUL at the end. */
  function Peek(t: string): char { if t == "" then '\0' else t[0] }

  /** The length of the white space ahead. */
  function WsLength(t: string): (n: nat)
    ensures n <= |t|
  {
    if t != "" && IsWs(t[0]) then 1 + WsLength(t[1..]) else 0
  }

  lemma {:induction false} WsSkipped(t: string)
    ensures SkipWs(t) == t[WsLength(t)..] && AllWs(t[..WsLength(t)])
    ensures SkipWs(t) != "" ==> !IsWs(SkipWs(t)[0])
  {
    if t != "" && IsWs(t[0]) {
      WsSkipped(t[1..]);
      assert t[..WsLength(t)] == [t[0]] + t[1..][..WsLength(t[1..])];
    }
  }

  lemma {:induction false} SkipsWs(ws: string, t: string)
    requires AllWs(ws) && (t == "" || !IsWs(t[0]))
    ensures SkipWs(ws + t) == t
  {
    if ws == "" {
      assert ws + t == t;
    } else {
      assert AllWs(ws[1..]);
      SkipsWs(ws[1..], t);
      assert (ws + t)[1..] == ws[1..] + t;
    }
  }

  // ----- strings -----

  /** The length of the escape that begins at a backslash. */
  function EscapeLength(t: string): (n: Option<nat>)
    requires t != "" && t[0] == '\\'
    ensures n.Some? ==> 1 < n.value <= |t|
  {
    if |t| == 1 then None
    else if IsEscape(t[1]) then Some(2)
    else if t[1] == 'u' && |t| >= 6 && IsHex(t[2]) && IsHex(t[3]) && IsHex(t[4]) && IsHex(t[5]) then Some(6)
    else None
  }

  /** The length of a string's raw content, `t` being what follows its opening quote. */
  function BodyLength(t: string): (n: Option<nat>)
    ensures n.Some? ==> n.value < |t| && t[n.value] == '"'
  {
    if t == "" then None
    else if t[0] == '"' then Some(0)
    else if t[0] == '\\' then
      var k := EscapeLength(t);
      if k == None then None
      else match BodyLength(t[k.value..])
        case None => None
        case Some(n) => Some(k.value + n)
    else if t[0] < ' ' then None
    else match BodyLength(t[1..])
      case None => None
      case Some(n) => Some(1 + n)
  }

  lemma {:induction false} BodyTaken(units: seq<Unit>, tail: string)
    requires UnitsOk(units)
    ensures BodyLength(Spell(units) + (['"'] + tail)) == Some(|Spell(units)|)
  {
    hide BodyLength, UnitOk, SpellUnit, EscapeLength;
    if units == [] {
      Nothing(['"'] + tail);
      BodyOver(tail);
    } else {
      var u := SpellUnit(units[0]);
      var more := Spell(units[1..]) + (['"'] + tail);
      BodyTaken(units[1..], tail);
      Regrouped(u, Spell(units[1..]), ['"'] + tail);
      UnitTaken(units[0], more);
    }
  }

  lemma Nothing(t: string)
    ensures "" + t == t
  {
  }

  lemma Regrouped(a: string, b: string, c: string)
    ensures a + b + c == a + (b + c)
  {
  }

  lemma BodyOver(tail: string)
    ensures BodyLength(['"'] + tail) == Some(0)
  {
  }

  lemma UnitTaken(unit: Unit, more: string)
    requires UnitOk(unit) && BodyLength(more).Some?
    ensures BodyLength(SpellUnit(unit) + more) == Some(|SpellUnit(unit)| + BodyLength(more).value)
  {
    var u := SpellUnit(unit);
    Cut(u, more);
    match unit
    case Plain(c) =>
    case Escape(c) =>
      assert EscapeLength(u + more) == Some(2);
    case Hex(digits) =>
      HexTaken(digits, more);
  }

  lemma HexTaken(digits: string, more: string)
    requires UnitOk(Hex(digits))
    ensures EscapeLength(['\\', 'u'] + digits + more) == Some(6)
  {
    var t := ['\\', 'u'] + digits + more;
    assert t[2] == digits[0] && t[3] == digits[1] && t[4] == digits[2] && t[5] == digits[3];
  }

  /** The units a raw content is made of. */
  lemma {:induction false} BodyGiven(t: string) returns (units: seq<Unit>)
    requires BodyLength(t).Some?
    ensures UnitsOk(units) && Spell(units) == t[..BodyLength(t).value]
  {
    if t[0] == '"' {
      units := [];
    } else {
      hide BodyLength, UnitOk, SpellUnit, EscapeLength;
      var u, k := UnitGiven(t);
      var more := BodyGiven(t[k..]);
      units := [u] + more;
      assert units[1..] == more;
      Joined(t, k, BodyLength(t[k..]).value);
    }
  }

  lemma UnitGiven(t: string) returns (u: Unit, k: nat)
    requires BodyLength(t).Some? && t[0] != '"'
    ensures 0 < k <= |t| && UnitOk(u) && SpellUnit(u) == t[..k]
    ensures BodyLength(t[k..]).Some? && BodyLength(t).value == k + BodyLength(t[k..]).value
  {
    if t[0] != '\\' {
      u, k := Plain(t[0]), 1;
    } else {
      k := EscapeLength(t).value;
      u := if k == 2 then Escape(t[1]) else Hex(t[2..6]);
      assert k == 6 ==> t[..6] == ['\\', 'u'] + t[2..6];
    }
  }

  // ----- numbers -----

  function Digits(t: string): (n: nat)
    ensures n <= |t|
  {
    if t != "" && IsDigit(t[0]) then 1 + Digits(t[1..]) else 0
  }

  function WholeLength(t: string): (n: Option<nat>)
    ensures n.Some? ==> 0 < n.value <= |t|
  {
    if Peek(t) == '0' then Some(1) else if IsDigit(Peek(t)) then Some(Digits(t)) else None
  }

  function FractionLength(t: string): (n: Option<nat>)
    ensures n.Some? ==> n.value <= |t|
  {
    if Peek(t) != '.' then Some(0)
    else if IsDigit(Peek(t[1..])) then Some(1 + Digits(t[1..]))
    else None
  }

  function SignLength(t: string): (n: nat)
    ensures n <= |t|
  {
    if Peek(t) == '+' || Peek(t) == '-' then 1 else 0
  }

  /** A sign or none, then digits. */
  function SignedLength(t: string): (n: Option<nat>)
    ensures n.Some? ==> 0 < n.value <= |t|
  {
    var v := t[SignLength(t)..];
    if IsDigit(Peek(v)) then Some(SignLength(t) + Digits(v)) else None
  }

  function ExponentLength(t: string): (n: Option<nat>)
    ensures n.Some? ==> n.value <= |t|
  {
    if Peek(t) != 'e' && Peek(t) != 'E' then Some(0)
    else match SignedLength(t[1..])
      case None => None
      case Some(n) => Some(1 + n)
  }

  function MinusLength(t: string): (n: nat)
    ensures n <= |t|
  {
    if Peek(t) == '-' then 1 else 0
  }

  function NumberLength(t: string): (n: Option<nat>)
    ensures n.Some? ==> 0 < n.value <= |t|
  {
    var u := t[MinusLength(t)..];
    match WholeLength(u)
    case None => None
    case Some(b) =>
      var v := u[b..];
      match FractionLength(v)
      case None => None
      case Some(c) =>
        match ExponentLength(v[c..])
        case None => None
        case Some(d) => Some(MinusLength(t) + b + c + d)
  }

  /** What may follow a value: nothing, white space, a comma or a closing bracket. */
  predicate Delimited(tail: string) {
    tail == "" || IsWs(tail[0]) || tail[0] == ',' || tail[0] == '}' || tail[0] == ']'
  }

  lemma {:induction false} DigitsTaken(digits: string, tail: string)
    requires AllDigits(digits) && !IsDigit(Peek(tail))
    ensures Digits(digits + tail) == |digits|
  {
    if digits == "" {
      assert digits + tail == tail;
    } else {
      assert AllDigits(digits[1..]);
      DigitsTaken(digits[1..], tail);
      assert (digits + tail)[1..] == digits[1..] + tail;
    }
  }

  lemma {:induction false} DigitsGiven(t: string)
    ensures AllDigits(t[..Digits(t)]) && !IsDigit(Peek(t[Digits(t)..]))
  {
    if t != "" && IsDigit(t[0]) {
      DigitsGiven(t[1..]);
      assert t[..Digits(t)] == [t[0]] + t[1..][..Digits(t[1..])];
    }
  }

  lemma ExponentTaken(exponent: Option<Exponent>, tail: string)
    requires ExponentOk(exponent) && Delimited(tail)
    ensures ExponentLength(PrintExponent(exponent) + tail) == Some(|PrintExponent(exponent)|)
  {
    hide ExponentLength, SignedLength, AllDigits;
    if exponent.Some? {
      var e := exponent.value;
      SignedTaken(e.sign, e.digits, tail);
      MarkTaken(e.mark, e.sign + (e.digits + tail));
      Regrouped([e.mark] + e.sign, e.digits, tail);
      Regrouped([e.mark], e.sign, e.digits + tail);
    } else {
      NoExponent(tail);
      Nothing(tail);
    }
  }

  lemma MarkTaken(mark: char, u: string)
    requires (mark == 'e' || mark == 'E') && SignedLength(u).Some?
    ensures ExponentLength([mark] + u) == Some(1 + SignedLength(u).value)
  {
    hide SignedLength;
    assert ([mark] + u)[1..] == u;
  }

  lemma NoExponent(tail: string)
    requires Delimited(tail)
    ensures ExponentLength(tail) == Some(0)
  {
  }

  lemma SignedTaken(sign: string, digits: string, tail: string)
    requires sign == "" || sign == "+" || sign == "-"
    requires digits != "" && AllDigits(digits) && Delimited(tail)
    ensures SignedLength(sign + (digits + tail)) == Some(|sign| + |digits|)
  {
    hide Digits, AllDigits;
    var v := digits + tail;
    DigitsStart(digits, tail);
    DigitsTaken(digits, tail);
    SignTaken(sign, v);
    Cut(sign, v);
  }

  lemma DigitsStart(digits: string, tail: string)
    requires digits != "" && AllDigits(digits)
    ensures digits + tail != "" && IsDigit((digits + tail)[0])
  {
  }

  lemma SignTaken(sign: string, more: string)
    requires sign == "" || sign == "+" || sign == "-"
    requires more != "" && IsDigit(more[0])
    ensures SignLength(sign + more) == |sign|
  {
  }

  lemma FractionTaken(fraction: Option<string>, tail: string)
    requires FractionOk(fraction) && !IsDigit(Peek(tail)) && Peek(tail) != '.'
    ensures FractionLength(PrintFraction(fraction) + tail) == Some(|PrintFraction(fraction)|)
  {
    if fraction.Some? {
      assert (PrintFraction(fraction) + tail)[1..] == fraction.value + tail;
      DigitsTaken(fraction.value, tail);
    } else {
      assert PrintFraction(fraction) + tail == tail;
    }
  }

  lemma WholeTaken(whole: string, tail: string)
    requires WholeOk(whole) && !IsDigit(Peek(tail))
    ensures WholeLength(whole + tail) == Some(|whole|)
  {
    if whole != "0" { DigitsTaken(whole, tail); }
  }

  function Minus(n: Number): string { if n.minus then "-" else "" }

  lemma NumberParts(n: Number, tail: string)
    ensures var x, f := PrintExponent(n.exponent), PrintFraction(n.fraction);
            && PrintNumber(n) + tail == Minus(n) + (n.whole + (f + (x + tail)))
            && |PrintNumber(n)| == |Minus(n)| + |n.whole| + |f| + |x|
  {
    hide PrintExponent, PrintFraction;
    var x, f := PrintExponent(n.exponent), PrintFraction(n.fraction);
    Regrouped(f, x, tail);
    Regrouped(n.whole, f + x, tail);
    Regrouped(Minus(n), n.whole + (f + x), tail);
  }

  lemma NumberLengthIs(t: string, u: string, v: string, w: string, b: nat, c: nat, d: nat)
    requires u == t[MinusLength(t)..] && WholeLength(u) == Some(b)
    requires v == u[b..] && FractionLength(v) == Some(c)
    requires w == v[c..] && ExponentLength(w) == Some(d)
    ensures NumberLength(t) == Some(MinusLength(t) + b + c + d)
  {
  }

  lemma NumberTaken(n: Number, tail: string)
    requires NumberOk(n) && Delimited(tail)
    ensures NumberLength(PrintNumber(n) + tail) == Some(|PrintNumber(n)|)
    ensures var c := Peek(PrintNumber(n) + tail); c == '-' || IsDigit(c)
  {
    hide *;
    assert WholeOk(n.whole) && FractionOk(n.fraction) && ExponentOk(n.exponent) by { NumberOkIs(n); }
    var x, f := PrintExponent(n.exponent), PrintFraction(n.fraction);
    var w := x + tail;
    var v := f + w;
    var u := n.whole + v;
    ExponentTaken(n.exponent, tail);
    ExponentStarts(n.exponent, tail);
    FractionTaken(n.fraction, w);
    FractionStarts(n.fraction, w);
    WholeTaken(n.whole, v);
    WholeStarts(n.whole, v);
    MinusTaken(n, u);
    Cut(Minus(n), u);
    Cut(n.whole, v);
    Cut(f, w);
    NumberLengthIs(Minus(n) + u, u, v, w, |n.whole|, |f|, |x|);
    NumberParts(n, tail);
  }

  lemma NumberOkIs(n: Number)
    ensures NumberOk(n) <==> WholeOk(n.whole) && FractionOk(n.fraction) && ExponentOk(n.exponent)
  {
  }

  lemma MinusTaken(n: Number, u: string)
    requires IsDigit(Peek(u))
    ensures MinusLength(Minus(n) + u) == |Minus(n)|
    ensures var c := Peek(Minus(n) + u); c == '-' || IsDigit(c)
  {
    if !n.minus { Nothing(u); }
  }

  lemma ExponentStarts(exponent: Option<Exponent>, tail: string)
    requires ExponentOk(exponent) && Delimited(tail)
    ensures var c := Peek(PrintExponent(exponent) + tail); !IsDigit(c) && c != '.'
  {
  }

  lemma FractionStarts(fraction: Option<string>, tail: string)
    requires !IsDigit(Peek(tail))
    ensures !IsDigit(Peek(PrintFraction(fraction) + tail))
  {
    assert "" + tail == tail;
  }

  lemma WholeStarts(whole: string, tail: string)
    requires WholeOk(whole)
    ensures IsDigit(Peek(whole + tail))
  {
  }

  lemma SignedGiven(t: string) returns (sign: string, digits: string)
    requires SignedLength(t).Some?
    ensures sign == "" || sign == "+" || sign == "-"
    ensures digits != "" && AllDigits(digits) && sign + digits == t[..SignedLength(t).value]
  {
    hide Digits, AllDigits;
    var k := SignLength(t);
    var v := t[k..];
    DigitsGiven(v);
    DigitsCounted(v);
    Joined(t, k, Digits(v));
    sign, digits := t[..k], v[..Digits(v)];
  }

  lemma ExponentGiven(t: string) returns (exponent: Option<Exponent>)
    requires ExponentLength(t).Some?
    ensures ExponentOk(exponent) && PrintExponent(exponent) == t[..ExponentLength(t).value]
  {
    hide SignedLength, AllDigits;
    exponent := None;
    if Peek(t) == 'e' || Peek(t) == 'E' {
      var sign, digits := SignedGiven(t[1..]);
      exponent := Some(Exponent(t[0], sign, digits));
      Joined(t, 1, SignedLength(t[1..]).value);
      Regrouped([t[0]], sign, digits);
    }
  }

  lemma DigitsCounted(t: string)
    ensures IsDigit(Peek(t)) ==> Digits(t) > 0
  {
  }

  lemma FractionGiven(t: string) returns (fraction: Option<string>)
    requires FractionLength(t).Some?
    ensures FractionOk(fraction) && PrintFraction(fraction) == t[..FractionLength(t).value]
  {
    fraction := None;
    if Peek(t) == '.' {
      DigitsGiven(t[1..]);
      fraction := Some(t[1..][..Digits(t[1..])]);
      assert t[..FractionLength(t).value] == "." + fraction.value;
    }
  }

  lemma WholeGiven(t: string)
    requires WholeLength(t).Some?
    ensures WholeOk(t[..WholeLength(t).value])
  {
    if Peek(t) != '0' { DigitsGiven(t); }
  }

  lemma NumberGiven(t: string) returns (n: Number)
    requires NumberLength(t).Some?
    ensures NumberOk(n) && PrintNumber(n) == t[..NumberLength(t).value]
  {
    hide WholeLength, FractionLength, ExponentLength, PrintExponent, PrintFraction, WholeOk, FractionOk, ExponentOk;
    var a := MinusLength(t);
    var u := t[a..];
    var b := WholeLength(u).value;
    var v := u[b..];
    var c := FractionLength(v).value;
    var w := v[c..];
    var d := ExponentLength(w).value;
    WholeGiven(u);
    var fraction := FractionGiven(v);
    var exponent := ExponentGiven(w);
    n := Number(a == 1, u[..b], fraction, exponent);
    Joined(v, c, d);
    Joined(u, b, c + d);
    Joined(t, a, b + (c + d));
    assert (if n.minus then "-" else "") == t[..a];
  }

  lemma Joined(t: string, k: nat, n: nat)
    requires k + n <= |t|
    ensures t[..k + n] == t[..k] + t[k..][..n]
  {
  }
}
