/**
  JSON texts by the grammar of sections 2 to 7 of RFC 8259: trees that keep every choice a writer
  has, white space included, the text each is printed as, and its pre-order walk.
  A character stands for a byte of the source.
*/
module JsonText {
  import opened Wrappers

  // ----- characters -----

  predicate IsWs(c: char) { c == ' ' || c == '\t' || c == '\n' || c == '\r' }

  predicate IsDigit(c: char) { '0' <= c <= '9' }

  predicate IsHex(c: char) { IsDigit(c) || 'a' <= c <= 'f' || 'A' <= c <= 'F' }

  predicate AllWs(s: string) { forall i :: 0 <= i < |s| ==> IsWs(s[i]) }

  predicate AllDigits(s: string) { forall i :: 0 <= i < |s| ==> IsDigit(s[i]) }

  // ----- strings: section 7 -----

  datatype Unit = Plain(c: char) | Escape(c: char) | Hex(digits: string)

  predicate IsEscape(c: char) {
    c == '"' || c == '\\' || c == '/' || c == 'b' || c == 'f' || c == 'n' || c == 'r' || c == 't'
  }

  predicate UnitOk(u: Unit) {
    match u
    case Plain(c) => c >= ' ' && c != '"' && c != '\\'
    case Escape(c) => IsEscape(c)
    case Hex(digits) => |digits| == 4 && forall i :: 0 <= i < 4 ==> IsHex(digits[i])
  }

  function SpellUnit(u: Unit): string {
    match u
    case Plain(c) => [c]
    case Escape(c) => ['\\', c]
    case Hex(digits) => ['\\', 'u'] + digits
  }

  predicate UnitsOk(units: seq<Unit>) { forall i :: 0 <= i < |units| ==> UnitOk(units[i]) }

  function Spell(units: seq<Unit>): string {
    if units == [] then "" else SpellUnit(units[0]) + Spell(units[1..])
  }

  // ----- numbers: section 6 -----

  datatype Exponent = Exponent(mark: char, sign: string, digits: string)

  datatype Number = Number(minus: bool, whole: string, fraction: Option<string>, exponent: Option<Exponent>)

  predicate WholeOk(whole: string) {
    whole == "0" || (whole != "" && AllDigits(whole) && whole[0] != '0')
  }

  predicate FractionOk(fraction: Option<string>) {
    fraction.Some? ==> fraction.value != "" && AllDigits(fraction.value)
  }

  predicate ExponentOk(exponent: Option<Exponent>) {
    exponent.Some? ==>
      var e := exponent.value;
      (e.mark == 'e' || e.mark == 'E') && (e.sign == "" || e.sign == "+" || e.sign == "-")
      && e.digits != "" && AllDigits(e.digits)
  }

  predicate NumberOk(n: Number) { WholeOk(n.whole) && FractionOk(n.fraction) && ExponentOk(n.exponent) }

  function PrintExponent(exponent: Option<Exponent>): string {
    match exponent
    case None => ""
    case Some(e) => [e.mark] + e.sign + e.digits
  }

  function PrintFraction(fraction: Option<string>): string {
    match fraction
    case None => ""
    case Some(digits) => "." + digits
  }

  function PrintNumber(n: Number): string {
    (if n.minus then "-" else "") + (n.whole + (PrintFraction(n.fraction) + PrintExponent(n.exponent)))
  }

  // ----- values, objects, arrays: sections 3 to 5 -----

  datatype Word = Null | True | False

  datatype Value =
    | Literal(word: Word)
    | Num(number: Number)
    | Str(units: seq<Unit>)
    | Object(members: Members)
    | Array(elements: Elements)

  /** White space stands before each separator or first member, after each comma, and round each colon. */
  datatype Members =
    | CloseObject(gap: string)
    | Member(gap: string, lead: string, name: seq<Unit>, before: string, after: string, value: Value, more: Members)

  datatype Elements =
    | CloseArray(gap: string)
    | Element(gap: string, lead: string, value: Value, more: Elements)

  datatype Document = Document(before: string, value: Value, after: string)

  predicate ValueOk(v: Value) {
    match v
    case Literal(_) => true
    case Num(n) => NumberOk(n)
    case Str(units) => UnitsOk(units)
    case Object(members) => MembersOk(members, true)
    case Array(elements) => ElementsOk(elements, true)
  }

  /** The first member has no comma, so no room after one. */
  predicate MembersOk(m: Members, first: bool) {
    match m
    case CloseObject(gap) => AllWs(gap)
    case Member(gap, lead, name, before, after, value, more) =>
      && AllWs(gap) && AllWs(lead) && (first ==> lead == "") && UnitsOk(name) && AllWs(before) && AllWs(after)
      && ValueOk(value) && MembersOk(more, false)
  }

  predicate ElementsOk(e: Elements, first: bool) {
    match e
    case CloseArray(gap) => AllWs(gap)
    case Element(gap, lead, value, more) =>
      && AllWs(gap) && AllWs(lead) && (first ==> lead == "") && ValueOk(value) && ElementsOk(more, false)
  }

  predicate DocumentOk(d: Document) { AllWs(d.before) && ValueOk(d.value) && AllWs(d.after) }

  function Max(a: nat, b: nat): nat { if a < b then b else a }

  /** How deeply objects and arrays are nested. */
  function Depth(v: Value): nat {
    match v
    case Object(members) => 1 + MembersDepth(members)
    case Array(elements) => 1 + ElementsDepth(elements)
    case _ => 0
  }

  function MembersDepth(m: Members): nat {
    match m
    case CloseObject(_) => 0
    case Member(_, _, _, _, _, value, more) => Max(Depth(value), MembersDepth(more))
  }

  function ElementsDepth(e: Elements): nat {
    match e
    case CloseArray(_) => 0
    case Element(_, _, value, more) => Max(Depth(value), ElementsDepth(more))
  }

  // ----- printing -----

  function WordText(w: Word): string {
    match w
    case Null => "null"
    case True => "true"
    case False => "false"
  }

  function Quoted(units: seq<Unit>, tail: string): string { ['"'] + (Spell(units) + (['"'] + tail)) }

  /** The text of a value, followed by `tail`. */
  function Print(v: Value, tail: string): string {
    match v
    case Literal(word) => WordText(word) + tail
    case Num(n) => PrintNumber(n) + tail
    case Str(units) => Quoted(units, tail)
    case Object(members) => ['{'] + PrintMembers(members, true, tail)
    case Array(elements) => ['['] + PrintElements(elements, true, tail)
  }

  function PrintMembers(m: Members, first: bool, tail: string): string {
    match m
    case CloseObject(gap) => gap + (['}'] + tail)
    case Member(gap, lead, name, before, after, value, more) =>
      var rest := Quoted(name, before + ([':'] + (after + Print(value, PrintMembers(more, false, tail)))));
      gap + (if first then rest else [','] + (lead + rest))
  }

  function PrintElements(e: Elements, first: bool, tail: string): string {
    match e
    case CloseArray(gap) => gap + ([']'] + tail)
    case Element(gap, lead, value, more) =>
      var rest := Print(value, PrintElements(more, false, tail));
      gap + (if first then rest else [','] + (lead + rest))
  }

  function PrintDocument(d: Document): string { d.before + Print(d.value, d.after) }

  // ----- the walk -----

  datatype Event =
    | BeginObject
    | EndObject
    | BeginArray
    | EndArray
    | Key(raw: string)
    | String(raw: string)
    | NumberText(text: string)
    | Boolean(text: string)
    | NullValue
    | End
    | Error

  function Events(v: Value): seq<Event> {
    match v
    case Literal(word) => [if word == Null then NullValue else Boolean(WordText(word))]
    case Num(n) => [NumberText(PrintNumber(n))]
    case Str(units) => [String(Spell(units))]
    case Object(members) => [BeginObject] + MembersEvents(members)
    case Array(elements) => [BeginArray] + ElementsEvents(elements)
  }

  function MembersEvents(m: Members): seq<Event> {
    match m
    case CloseObject(_) => [EndObject]
    case Member(_, _, name, _, _, value, more) => [Key(Spell(name))] + (Events(value) + MembersEvents(more))
  }

  function ElementsEvents(e: Elements): seq<Event> {
    match e
    case CloseArray(_) => [EndArray]
    case Element(_, _, value, more) => Events(value) + ElementsEvents(more)
  }

  lemma {:induction false} EventsNotEmpty(v: Value)
    ensures |Events(v)| > 0
  {
  }
}
