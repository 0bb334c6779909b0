/**
  Decoding a raw string slice: escapes undone, surrogate pairs joined, code points written as
  UTF-8.  On a slice the scanner has let through, only a surrogate out of place can fail.
*/
module JsonDecode {
  import opened Wrappers
  import opened JsonText
  import opened JsonScan
  import opened Utf8

  // ----- hexadecimal -----

  function HexValue(c: char): (v: nat)
    requires IsHex(c)
    ensures v < 0x10
  {
    if IsDigit(c) then c as int - '0' as int
    else if 'a' <= c <= 'f' then c as int - 'a' as int + 10
    else c as int - 'A' as int + 10
  }

  /** The value of the digits read so far. */
  function HexNumber(digits: string): nat
    requires forall i :: 0 <= i < |digits| ==> IsHex(digits[i])
  {
    if digits == "" then 0 else HexNumber(digits[..|digits| - 1]) * 0x10 + HexValue(digits[|digits| - 1])
  }

  /** The four digits a text begins with. */
  function ReadHex(t: string): (code: Option<nat>)
    ensures code.Some? ==> code.value < 0x10000
  {
    if |t| >= 4 && IsHex(t[0]) && IsHex(t[1]) && IsHex(t[2]) && IsHex(t[3])
    then
      FourDigits(t[..4]);
      Some(HexNumber(t[..4]))
    else None
  }

  lemma FourDigits(digits: string)
    requires |digits| == 4 && forall i :: 0 <= i < 4 ==> IsHex(digits[i])
    ensures HexNumber(digits) == HexValue(digits[0]) * 0x1000 + HexValue(digits[1]) * 0x100
                               + HexValue(digits[2]) * 0x10 + HexValue(digits[3])
    ensures HexNumber(digits) < 0x10000
  {
    assert digits[..3][..2] == digits[..2] && digits[..2][..1] == digits[..1] && digits[..1][..0] == "";
    assert HexNumber(digits[..1]) == HexValue(digits[0]);
    assert HexNumber(digits[..2]) == HexNumber(digits[..1]) * 0x10 + HexValue(digits[1]);
    assert HexNumber(digits[..3]) == HexNumber(digits[..2]) * 0x10 + HexValue(digits[2]);
  }

  // ----- decoding a slice -----

  predicate IsHigh(code: int) { 0xD800 <= code <= 0xDBFF }

  predicate IsLow(code: int) { 0xDC00 <= code <= 0xDFFF }

  function Joined(high: nat, low: nat): (code: nat)
    requires IsHigh(high) && IsLow(low)
    ensures 0x10000 <= code <= 0x10FFFF
  {
    0x10000 + (high - 0xD800) * 0x400 + (low - 0xDC00)
  }

  /** What an escape other than \\u stands for. */
  function Unescaped(c: char): char
    requires IsEscape(c)
  {
    match c
    case 'b' => 8 as char
    case 'f' => 12 as char
    case 'n' => 10 as char
    case 'r' => 13 as char
    case 't' => 9 as char
    case _ => c
  }

  function Then(head: string, tail: Option<string>): Option<string> {
    if tail == None then None else Some(head + tail.value)
  }

  /** The low surrogate a text must begin with after a high one. */
  function ReadLow(t: string): (code: Option<nat>)
    ensures code.Some? ==> IsLow(code.value) && |t| >= 6
  {
    if |t| >= 2 && t[0] == '\\' && t[1] == 'u' && ReadHex(t[2..]).Some? && IsLow(ReadHex(t[2..]).value)
    then ReadHex(t[2..])
    else None
  }

  /** `decode_string` on any text, whether or not the scanner would let it through. */
  function Decode(t: string): Option<string>
    decreases |t|
  {
    if t == "" then Some("")
    else if t[0] != '\\' then Then([t[0]], Decode(t[1..]))
    else if |t| == 1 then None
    else if IsEscape(t[1]) then Then([Unescaped(t[1])], Decode(t[2..]))
    else if t[1] != 'u' then None
    else match ReadHex(t[2..])
      case None => None
      case Some(code) =>
        if IsHigh(code) then
          match ReadLow(t[6..])
          case None => None
          case Some(low) => Then(Encode(Joined(code, low)), Decode(t[12..]))
        else if IsLow(code) then None
        else Then(Encode(code), Decode(t[6..]))
  }

  /** `read_hex4`: the value shifted up and a digit put in, four times. */
  method ReadHex4(raw: string, i: nat) returns (ok: bool, i': nat, code: nat)
    requires i <= |raw|
    ensures ok <==> ReadHex(raw[i..]).Some?
    ensures ok ==> i' == i + 4 <= |raw| && Some(code) == ReadHex(raw[i..])
  {
    i', code := i, 0;
    if i + 4 > |raw| { return false, i', code; }
    var value: nat := 0;
    for digit := 0 to 4
      invariant i' == i + digit
      invariant forall k :: 0 <= k < digit ==> IsHex(raw[i..][k])
      invariant value == HexNumber(raw[i..][..digit])
    {
      var c := raw[i'];
      assert c == raw[i..][digit];
      i' := i' + 1;
      assert raw[i..][..digit + 1][..digit] == raw[i..][..digit];
      value := value * 0x10;
      if '0' <= c <= '9' {
        value := value + (c as int - '0' as int);
      } else if 'a' <= c <= 'f' {
        value := value + (c as int - 'a' as int + 10);
      } else if 'A' <= c <= 'F' {
        value := value + (c as int - 'A' as int + 10);
      } else {
        return false, i', code;
      }
    }
    return true, i', value;
  }

  /** `append_utf8`. */
  method AppendUtf8(out: string, code: nat) returns (longer: string)
    requires code <= 0x10FFFF
    ensures longer == out + Encode(code)
  {
    longer := out;
    if code <= 0x7F {
      longer := longer + [code as char];
    } else if code <= 0x7FF {
      longer := longer + [(0xC0 + code / 0x40) as char];
      longer := longer + [(0x80 + code % 0x40) as char];
    } else if code <= 0xFFFF {
      longer := longer + [(0xE0 + code / 0x1000) as char];
      longer := longer + [(0x80 + code / 0x40 % 0x40) as char];
      longer := longer + [(0x80 + code % 0x40) as char];
    } else {
      longer := longer + [(0xF0 + code / 0x40000) as char];
      longer := longer + [(0x80 + code / 0x1000 % 0x40) as char];
      longer := longer + [(0x80 + code / 0x40 % 0x40) as char];
      longer := longer + [(0x80 + code % 0x40) as char];
    }
  }

  /** `decode_string`. */
  method DecodeString(raw: string) returns (ok: bool, out: string)
    ensures ok <==> Decode(raw).Some?
    ensures ok ==> Some(out) == Decode(raw)
  {
    hide Encode, ReadHex;
    out := "";
    var i: nat := 0;
    assert raw[0..] == raw;
    ThenNothing(Decode(raw));
    while i < |raw|
      invariant i <= |raw|
      invariant Decode(raw) == Then(out, Decode(raw[i..]))
      decreases |raw| - i
    {
      ghost var t, was := raw[i..], out;
      var c := raw[i];
      assert t[0] == c;
      if c != '\\' {
        out := out + [c];
        i := i + 1;
        Thens(was, [c], Decode(t[1..]));
        assert t[1..] == raw[i..];
        continue;
      }
      i := i + 1;
      if i >= |raw| { return false, out; }
      var esc := raw[i];
      assert t[1] == esc;
      i := i + 1;
      assert t[2..] == raw[i..];
      if IsEscape(esc) {
        Thens(was, [Unescaped(esc)], Decode(t[2..]));
        match esc {
          case '"' => out := out + ['"'];
          case '\\' => out := out + ['\\'];
          case '/' => out := out + ['/'];
          case 'b' => out := out + [8 as char];
          case 'f' => out := out + [12 as char];
          case 'n' => out := out + ['\n'];
          case 'r' => out := out + ['\r'];
          case _ => out := out + ['\t'];
        }
        continue;
      }
      if esc != 'u' {
        UnknownEscape(t);
        return false, out;
      }
      var good, code;
      good, i, code := ReadHex4(raw, i);
      if !good { return false, out; }
      assert t[6..] == raw[i..];
      ghost var took := 6;
      if 0xD800 <= code <= 0xDBFF {
        if i + 1 >= |raw| || raw[i] != '\\' || raw[i + 1] != 'u' {
          LowStarts(raw, i);
          return false, out;
        }
        assert raw[i..][2..] == raw[i + 2..];
        i := i + 2;
        var low;
        good, i, low := ReadHex4(raw, i);
        if !good || low < 0xDC00 || low > 0xDFFF { return false, out; }
        code := 0x10000 + (code - 0xD800) * 0x400 + (low - 0xDC00);
        took := 12;
      } else if 0xDC00 <= code <= 0xDFFF {
        return false, out;
      }
      assert t[took..] == raw[i..];
      Thens(was, Encode(code), Decode(t[took..]));
      out := AppendUtf8(out, code);
    }
    assert raw[i..] == "";
    ThenNothing(Some(out));
    return true, out;
  }

  lemma UnknownEscape(t: string)
    requires |t| > 1 && t[0] == '\\' && !IsEscape(t[1]) && t[1] != 'u'
    ensures Decode(t) == None
  {
  }

  lemma LowStarts(raw: string, i: nat)
    requires i <= |raw| && (i + 1 >= |raw| || raw[i] != '\\' || raw[i + 1] != 'u')
    ensures ReadLow(raw[i..]) == None
  {
  }

  lemma ThenNothing(tail: Option<string>)
    ensures Then("", tail) == tail
    ensures tail.Some? ==> Then(tail.value, Some("")) == tail
  {
    if tail.Some? {
      Nothing(tail.value);
      assert tail.value + "" == tail.value;
    }
  }

  lemma Thens(a: string, b: string, tail: Option<string>)
    ensures Then(a, Then(b, tail)) == Then(a + b, tail)
  {
    if tail.Some? { Regrouped(a, b, tail.value); }
  }

  // ----- what the scanner lets through -----

  function UnitCode(u: Unit): int
    requires UnitOk(u)
  {
    if u.Hex? then HexNumber(u.digits) else -1
  }

  predicate HighUnit(u: Unit)
    requires UnitOk(u)
  {
    IsHigh(UnitCode(u))
  }

  predicate LowUnit(u: Unit)
    requires UnitOk(u)
  {
    IsLow(UnitCode(u))
  }

  /** A high surrogate has a low one after it, a low one a high one before it. */
  predicate PairedAt(units: seq<Unit>, i: nat)
    requires UnitsOk(units) && i < |units|
  {
    && (HighUnit(units[i]) ==> i + 1 < |units| && LowUnit(units[i + 1]))
    && (LowUnit(units[i]) ==> i > 0 && HighUnit(units[i - 1]))
  }

  /** Section 7 of RFC 8259: surrogates come in pairs, the high one first. */
  predicate WellPaired(units: seq<Unit>)
    requires UnitsOk(units)
  {
    forall i :: 0 <= i < |units| ==> PairedAt(units, i)
  }

  /** What a unit that is no surrogate stands for. */
  function Meaning(u: Unit): string
    requires UnitOk(u) && !HighUnit(u) && !LowUnit(u)
  {
    match u
    case Plain(c) => [c]
    case Escape(c) => [Unescaped(c)]
    case Hex(digits) =>
      FourDigits(digits);
      Encode(HexNumber(digits))
  }

  /** What units stand for, surrogates in their places. */
  function Meanings(units: seq<Unit>): string
    requires UnitsOk(units) && WellPaired(units)
  {
    if units == [] then ""
    else if HighUnit(units[0]) then
      TailsPaired(units);
      Encode(Joined(UnitCode(units[0]), UnitCode(units[1]))) + Meanings(units[2..])
    else
      TailsPaired(units);
      Meaning(units[0]) + Meanings(units[1..])
  }

  lemma TailsPaired(units: seq<Unit>)
    requires UnitsOk(units) && units != []
    ensures UnitOk(units[0]) && UnitsOk(units[1..]) && (|units| > 1 ==> UnitOk(units[1]) && UnitsOk(units[2..]))
    ensures HighUnit(units[0]) ==>
              (WellPaired(units) <==> |units| > 1 && LowUnit(units[1]) && WellPaired(units[2..]))
    ensures LowUnit(units[0]) ==> !WellPaired(units)
    ensures !HighUnit(units[0]) && !LowUnit(units[0]) ==> (WellPaired(units) <==> WellPaired(units[1..]))
  {
    hide HighUnit, LowUnit, UnitOk;
    NotBoth(units);
    assert WellPaired(units) ==> PairedAt(units, 0);
    if HighUnit(units[0]) && |units| > 1 && LowUnit(units[1]) {
      Shifted(units, 2);
      assert PairedAt(units, 0) && PairedAt(units, 1);
      FromThere(units, 2);
    } else if !HighUnit(units[0]) && !LowUnit(units[0]) {
      Shifted(units, 1);
      FromThere(units, 1);
    }
  }

  lemma NotBoth(units: seq<Unit>)
    requires UnitsOk(units)
    ensures forall i :: 0 <= i < |units| ==> UnitOk(units[i]) && !(HighUnit(units[i]) && LowUnit(units[i]))
  {
  }

  lemma Shifted(units: seq<Unit>, k: nat)
    requires UnitsOk(units) && 0 < k <= |units|
    requires UnitOk(units[k - 1]) && !HighUnit(units[k - 1])
    ensures UnitsOk(units[k..])
    ensures forall i :: 0 <= i < |units| - k ==> (PairedAt(units[k..], i) <==> PairedAt(units, i + k))
  {
    hide HighUnit, LowUnit, UnitOk;
    var more := units[k..];
    forall i | 0 <= i < |more| ensures PairedAt(more, i) <==> PairedAt(units, i + k) {
      assert more[i] == units[i + k];
      assert i + 1 < |more| ==> more[i + 1] == units[i + k + 1];
      assert i > 0 ==> more[i - 1] == units[i + k - 1];
    }
  }

  lemma FromThere(units: seq<Unit>, k: nat)
    requires UnitsOk(units) && k <= |units| && UnitsOk(units[k..])
    requires forall i :: 0 <= i < |units| - k ==> (PairedAt(units[k..], i) <==> PairedAt(units, i + k))
    requires forall i :: 0 <= i < k ==> PairedAt(units, i)
    ensures WellPaired(units) <==> WellPaired(units[k..])
  {
    hide PairedAt;
    if WellPaired(units[k..]) {
      forall i | 0 <= i < |units| ensures PairedAt(units, i) {
        if i >= k { assert PairedAt(units[k..], i - k) <==> PairedAt(units, i - k + k); }
      }
    }
  }

  lemma HexAhead(digits: string, more: string)
    requires UnitOk(Hex(digits))
    ensures var t := SpellUnit(Hex(digits)) + more;
            && |t| >= 6 && t[0] == '\\' && t[1] == 'u' && t[6..] == more
            && ReadHex(t[2..]) == Some(HexNumber(digits))
  {
    hide HexNumber;
    var t := SpellUnit(Hex(digits)) + more;
    Cut(SpellUnit(Hex(digits)), more);
    assert t[2..] == digits + more;
    Cut(digits, more);
    assert t[2..][..4] == digits;
    assert forall i :: 0 <= i < 4 ==> t[2..][i] == digits[i];
  }

  lemma LowAhead(units: seq<Unit>)
    requires UnitsOk(units)
    ensures units != [] ==> UnitOk(units[0])
    ensures ReadLow(Spell(units))
         == if units != [] && LowUnit(units[0]) then Some(HexNumber(units[0].digits)) else None
    ensures units != [] && LowUnit(units[0]) ==> |Spell(units)| >= 6 && Spell(units)[6..] == Spell(units[1..])
  {
    hide HexNumber, ReadHex;
    if units != [] {
      var u, more := units[0], Spell(units[1..]);
      assert UnitOk(u);
      if u.Hex? {
        HexAhead(u.digits, more);
      } else if u.Escape? {
        assert (SpellUnit(u) + more)[1] == u.c;
      }
    }
  }

  /** A unit that is no surrogate is decoded on its own. */
  lemma UnitDecoded(u: Unit, more: string)
    requires UnitOk(u) && !HighUnit(u) && !LowUnit(u)
    ensures Decode(SpellUnit(u) + more) == Then(Meaning(u), Decode(more))
  {
    hide Encode, HexNumber, ReadHex, Unescaped;
    var t := SpellUnit(u) + more;
    Cut(SpellUnit(u), more);
    match u
    case Plain(c) => assert t[1..] == more;
    case Escape(c) => assert t[1] == c && t[2..] == more;
    case Hex(digits) =>
      FourDigits(digits);
      HexAhead(digits, more);
  }

  lemma {:induction false} UnitsDecoded(units: seq<Unit>)
    requires UnitsOk(units)
    ensures Decode(Spell(units)).Some? <==> WellPaired(units)
    ensures WellPaired(units) ==> Decode(Spell(units)) == Some(Meanings(units))
    decreases |units|
  {
    hide Encode, HexNumber, ReadHex, ReadLow, SpellUnit, UnitOk, WellPaired;
    if units == [] {
      NonePaired();
    } else {
      TailsPaired(units);
      var u, more := units[0], Spell(units[1..]);
      if !HighUnit(u) && !LowUnit(u) {
        UnitDecoded(u, more);
        UnitsDecoded(units[1..]);
      } else {
        HexAhead(u.digits, more);
        LowAhead(units[1..]);
        if HighUnit(u) && |units| > 1 && LowUnit(units[1]) {
          assert units[1..][1..] == units[2..];
          var t := SpellUnit(u) + more;
          assert t[12..] == t[6..][6..];
          UnitsDecoded(units[2..]);
        }
      }
    }
  }

  lemma NonePaired()
    ensures UnitsOk([]) && WellPaired([])
  {
  }

  // ----- well-formed in, well-formed out -----

  predicate Sane(q: State) {
    q.Due? ==> 0x80 <= q.lo && q.hi <= 0xBF && q.n > 0
  }

  /** A text that begins with no tail byte is lost on one who waits for one. */
  lemma WholeSteps(q: State, s: string)
    requires Sane(q) && s != "" && !IsTail(s[0]) && Steps(Start, s) == Start
    ensures Steps(q, s) == if q == Start then Start else Lost
  {
    LostForGood(s[1..]);
  }

  lemma AsciiSteps(s: string)
    requires forall i :: 0 <= i < |s| ==> s[i] as int <= 0x7F
    ensures Steps(Start, s) == Start
    decreases |s|
  {
    if s != "" { AsciiSteps(s[1..]); }
  }

  lemma CharSteps(q: State, s: string)
    requires Sane(q) && IsUtf8Char(s)
    ensures Steps(q, s) == if q == Start then Start else Lost
  {
    CharTaken(s);
    WholeSteps(q, s);
  }

  lemma EscapeSteps(q: State, u: Unit)
    requires Sane(q) && UnitOk(u) && !u.Plain?
    ensures Steps(q, SpellUnit(u)) == if q == Start then Start else Lost
  {
    var s := SpellUnit(u);
    assert s[0] == '\\';
    AsciiSteps(s);
    WholeSteps(q, s);
  }

  lemma MeaningSteps(q: State, u: Unit)
    requires Sane(q) && UnitOk(u) && !HighUnit(u) && !LowUnit(u)
    ensures Steps(q, Meaning(u)) == Steps(q, SpellUnit(u))
    ensures Sane(Steps(q, SpellUnit(u)))
  {
    hide HexNumber, Encode, IsUtf8Char;
    match u
    case Plain(c) =>
      assert Steps(q, [c]) == Step(q, c);
    case Escape(c) =>
      EscapeSteps(q, u);
      OneByte(Unescaped(c));
      CharSteps(q, [Unescaped(c)]);
    case Hex(digits) =>
      FourDigits(digits);
      EscapeSteps(q, u);
      EncodeIsChar(HexNumber(digits));
      CharSteps(q, Encode(HexNumber(digits)));
  }

  lemma OneByte(c: char)
    requires c as int <= 0x7F
    ensures IsUtf8Char([c])
  {
  }

  lemma PairSteps(q: State, high: Unit, low: Unit)
    requires Sane(q) && UnitOk(high) && UnitOk(low) && HighUnit(high) && LowUnit(low)
    ensures Steps(q, Encode(Joined(UnitCode(high), UnitCode(low)))) == Steps(q, SpellUnit(high) + SpellUnit(low))
    ensures Sane(Steps(q, SpellUnit(high) + SpellUnit(low)))
  {
    hide HexNumber, Encode, IsUtf8Char, SpellUnit;
    var code := Joined(UnitCode(high), UnitCode(low));
    EncodeIsChar(code);
    CharSteps(q, Encode(code));
    EscapeSteps(q, high);
    StepsInTwo(q, SpellUnit(high), SpellUnit(low));
    EscapeSteps(if q == Start then Start else Lost, low);
  }

  /** The automaton goes the same way over the raw text and over what it stands for. */
  lemma {:induction false} SameSteps(q: State, units: seq<Unit>)
    requires Sane(q) && UnitsOk(units) && WellPaired(units)
    ensures Steps(q, Meanings(units)) == Steps(q, Spell(units))
    decreases |units|
  {
    hide Steps, Encode, SpellUnit, UnitOk, WellPaired, Meaning;
    if units != [] {
      TailsPaired(units);
      var u := units[0];
      if HighUnit(u) {
        var pair := SpellUnit(u) + SpellUnit(units[1]);
        PairSteps(q, u, units[1]);
        SameSteps(Steps(q, pair), units[2..]);
        StepsInTwo(q, pair, Spell(units[2..]));
        StepsInTwo(q, Encode(Joined(UnitCode(u), UnitCode(units[1]))), Meanings(units[2..]));
        assert units[1..][0] == units[1] && units[1..][1..] == units[2..];
        Regrouped(SpellUnit(u), SpellUnit(units[1]), Spell(units[2..]));
      } else {
        MeaningSteps(q, u);
        SameSteps(Steps(q, SpellUnit(u)), units[1..]);
        StepsInTwo(q, SpellUnit(u), Spell(units[1..]));
        StepsInTwo(q, Meaning(u), Meanings(units[1..]));
      }
    }
  }

  /**
    A raw slice the scanner lets through is decoded unless a surrogate stands alone, and what
    comes out is well-formed UTF-8 exactly when the slice was.
  */
  lemma SliceDecoded(t: string) returns (units: seq<Unit>)
    requires BodyLength(t).Some?
    ensures var raw := t[..BodyLength(t).value];
            && UnitsOk(units) && raw == Spell(units)
            && (Decode(raw).Some? <==> WellPaired(units))
            && (Decode(raw).Some? ==>
                  && Decode(raw).value == Meanings(units)
                  && (WellFormed(Decode(raw).value) <==> WellFormed(raw)))
  {
    hide Decode, Steps, Meanings, Spell, UnitsOk, WellFormed;
    units := BodyGiven(t);
    UnitsDecoded(units);
    if WellPaired(units) {
      SameSteps(Start, units);
      RecognisesWellFormed(Meanings(units));
      RecognisesWellFormed(Spell(units));
    }
  }

  // ----- escaped code points -----

  const LowerDigits: string := "0123456789abcdef"
  const UpperDigits: string := "0123456789ABCDEF"

  /** The digit of value `v`, in either case. */
  predicate SpellsNibble(c: char, v: nat) {
    v < 0x10 && (c == LowerDigits[v] || c == UpperDigits[v])
  }

  lemma NibbleRead(c: char, v: nat)
    requires SpellsNibble(c, v)
    ensures IsHex(c) && HexValue(c) == v
  {
    assert LowerDigits[0] == '0' && LowerDigits[1] == '1' && LowerDigits[2] == '2' && LowerDigits[3] == '3';
    assert LowerDigits[4] == '4' && LowerDigits[5] == '5' && LowerDigits[6] == '6' && LowerDigits[7] == '7';
    assert LowerDigits[8] == '8' && LowerDigits[9] == '9' && LowerDigits[10] == 'a' && LowerDigits[11] == 'b';
    assert LowerDigits[12] == 'c' && LowerDigits[13] == 'd' && LowerDigits[14] == 'e' && LowerDigits[15] == 'f';
    assert UpperDigits[10] == 'A' && UpperDigits[11] == 'B' && UpperDigits[12] == 'C' && UpperDigits[13] == 'D';
    assert UpperDigits[14] == 'E' && UpperDigits[15] == 'F';
    assert v < 10 ==> UpperDigits[v] == LowerDigits[v];
  }

  /** Four digits for a number, each letter in a case of its own. */
  predicate SpellsCode(digits: string, n: nat) {
    && |digits| == 4
    && SpellsNibble(digits[0], n / 0x1000) && SpellsNibble(digits[1], n / 0x100 % 0x10)
    && SpellsNibble(digits[2], n / 0x10 % 0x10) && SpellsNibble(digits[3], n % 0x10)
  }

  /** However a number is spelled, reading it gives the number. */
  lemma SpelledIsRead(digits: string, n: nat, more: string)
    requires SpellsCode(digits, n)
    ensures UnitOk(Hex(digits)) && HexNumber(digits) == n && n < 0x10000 && ReadHex(digits + more) == Some(n)
  {
    hide HexValue, SpellsNibble;
    NibbleRead(digits[0], n / 0x1000);
    NibbleRead(digits[1], n / 0x100 % 0x10);
    NibbleRead(digits[2], n / 0x10 % 0x10);
    NibbleRead(digits[3], n % 0x10);
    FourDigits(digits);
    assert n / 0x1000 < 0x10;
    assert n / 0x100 == n / 0x1000 * 0x10 + n / 0x100 % 0x10;
    assert n / 0x10 == n / 0x100 * 0x10 + n / 0x10 % 0x10;
    assert (digits + more)[..4] == digits;
  }

  type Scalar = code: nat | code <= 0x10FFFF && !(0xD800 <= code <= 0xDFFF)

  /** The two surrogates of UTF-16: section 2.1 of RFC 2781. */
  function HighOf(code: nat): (high: nat)
    requires 0x10000 <= code <= 0x10FFFF
    ensures IsHigh(high)
  {
    0xD800 + (code - 0x10000) / 0x400
  }

  function LowOf(code: nat): (low: nat)
    requires 0x10000 <= code <= 0x10FFFF
    ensures IsLow(low) && Joined(HighOf(code), low) == code
  {
    0xDC00 + (code - 0x10000) % 0x400
  }

  /** How many units escape a code point. */
  function Width(code: Scalar): nat { if code < 0x10000 then 1 else 2 }

  /** Units that escape a code point, their digits in any case. */
  predicate Escapes(units: seq<Unit>, code: Scalar) {
    && |units| == Width(code)
    && (forall i :: 0 <= i < |units| ==> units[i].Hex?)
    && if code < 0x10000 then SpellsCode(units[0].digits, code)
       else SpellsCode(units[0].digits, HighOf(code)) && SpellsCode(units[1].digits, LowOf(code))
  }

  predicate EscapesAll(units: seq<Unit>, codes: seq<Scalar>)
    decreases |codes|
  {
    if codes == [] then units == []
    else
      var k := Width(codes[0]);
      k <= |units| && Escapes(units[..k], codes[0]) && EscapesAll(units[k..], codes[1..])
  }

  function EncodedAll(codes: seq<Scalar>): string {
    if codes == [] then "" else Encode(codes[0]) + EncodedAll(codes[1..])
  }

  lemma EscapesOk(units: seq<Unit>, code: Scalar)
    requires Escapes(units, code)
    ensures UnitsOk(units)
    ensures code < 0x10000 ==> UnitCode(units[0]) == code
    ensures code >= 0x10000 ==> UnitCode(units[0]) == HighOf(code) && UnitCode(units[1]) == LowOf(code)
  {
    hide HexNumber, SpellsCode, ReadHex, HighOf, LowOf;
    if code < 0x10000 {
      SpelledIsRead(units[0].digits, code, "");
    } else {
      SpelledIsRead(units[0].digits, HighOf(code), "");
      SpelledIsRead(units[1].digits, LowOf(code), "");
    }
  }

  lemma {:induction false} EscapedMean(units: seq<Unit>, codes: seq<Scalar>)
    requires EscapesAll(units, codes)
    ensures UnitsOk(units) && WellPaired(units) && Meanings(units) == EncodedAll(codes)
    decreases |codes|
  {
    hide WellPaired, HexNumber, Encode, UnitOk, Escapes, Meanings;
    if codes == [] {
      NonePaired();
      NoMeaning();
    } else {
      var k := Width(codes[0]);
      EscapedMean(units[k..], codes[1..]);
      EscapedFirst(units, codes[0]);
    }
  }

  lemma NoMeaning()
    ensures UnitsOk([]) && WellPaired([]) && Meanings([]) == ""
  {
  }

  lemma EscapedFirst(units: seq<Unit>, code: Scalar)
    requires Width(code) <= |units| && Escapes(units[..Width(code)], code)
    requires UnitsOk(units[Width(code)..]) && WellPaired(units[Width(code)..])
    ensures UnitsOk(units) && WellPaired(units)
    ensures IsScalar(code) && Meanings(units) == Encode(code) + Meanings(units[Width(code)..])
  {
    hide WellPaired, HexNumber, Encode, HighOf, LowOf, SpellsCode, UnitOk;
    var k := Width(code);
    EscapesOk(units[..k], code);
    JoinedOk(units, k);
    assert units[..k][0] == units[0] && (k == 2 ==> units[..k][1] == units[1]);
    TailsPaired(units);
  }

  lemma JoinedOk(units: seq<Unit>, k: nat)
    requires k <= |units| && UnitsOk(units[..k]) && UnitsOk(units[k..])
    ensures UnitsOk(units)
  {
    hide UnitOk;
    forall i | 0 <= i < |units| ensures UnitOk(units[i]) {
      if i < k { assert units[..k][i] == units[i]; } else { assert units[k..][i - k] == units[i]; }
    }
  }

  /** Any code points, escaped with digits in any case, are decoded to their UTF-8. */
  lemma EscapedDecoded(units: seq<Unit>, codes: seq<Scalar>)
    requires EscapesAll(units, codes)
    ensures UnitsOk(units) && Decode(Spell(units)) == Some(EncodedAll(codes))
  {
    hide *;
    EscapedMean(units, codes);
    UnitsDecoded(units);
  }

  function HexDigits(n: nat): (digits: string)
    requires n < 0x10000
    ensures SpellsCode(digits, n)
  {
    [LowerDigits[n / 0x1000], LowerDigits[n / 0x100 % 0x10], LowerDigits[n / 0x10 % 0x10], LowerDigits[n % 0x10]]
  }

  /** Every sequence of code points can be escaped so. */
  function EscapedAll(codes: seq<Scalar>): (units: seq<Unit>)
    ensures EscapesAll(units, codes)
  {
    if codes == [] then []
    else
      var first := if codes[0] < 0x10000 then [Hex(HexDigits(codes[0]))]
                   else [Hex(HexDigits(HighOf(codes[0]))), Hex(HexDigits(LowOf(codes[0])))];
      var more := EscapedAll(codes[1..]);
      assert (first + more)[..|first|] == first && (first + more)[|first|..] == more;
      first + more
  }

  // ----- the alphabets -----

  /** The escapes of section 7 of RFC 8259 and the code points they stand for, in one order. */
  const EscapeLetters: string := "\"\\/bfnrt"
  const EscapeCodes: seq<int> := [0x22, 0x5C, 0x2F, 0x8, 0xC, 0xA, 0xD, 0x9]

  lemma EscapesAre(k: nat)
    requires k < 8
    ensures |EscapeLetters| == 8 && IsEscape(EscapeLetters[k]) && Unescaped(EscapeLetters[k]) as int == EscapeCodes[k]
  {
    assert EscapeLetters[0] == '"' && EscapeLetters[1] == '\\' && EscapeLetters[2] == '/' && EscapeLetters[3] == 'b';
    assert EscapeLetters[4] == 'f' && EscapeLetters[5] == 'n' && EscapeLetters[6] == 'r' && EscapeLetters[7] == 't';
  }

  /** The parser's characters are those the grammar names, and no others. */
  lemma WsAre(c: char)
    ensures IsWs(c) <==> c in " \t\n\r"
  {
  }

  lemma EscapeLettersAre(c: char)
    ensures IsEscape(c) <==> c in EscapeLetters
  {
  }

  lemma DigitsAre(c: char)
    ensures IsDigit(c) <==> c in "0123456789"
  {
  }

  lemma HexDigitsAre(c: char)
    ensures IsHex(c) <==> c in LowerDigits || c in UpperDigits
  {
  }
}
