/**
  UTF-8 by section 4 of RFC 3629: its byte patterns, an automaton that recognises them, and the
  encoder the parser uses.  A character stands for a byte.
*/
module Utf8 {

  predicate Between(c: char, lo: int, hi: int) { lo <= c as int <= hi }

  predicate IsTail(c: char) { Between(c, 0x80, 0xBF) }

  /** One character's bytes: the patterns of the standard. */
  predicate IsUtf8Char(s: string) {
    || (|s| == 1 && Between(s[0], 0, 0x7F))
    || (|s| == 2 && Between(s[0], 0xC2, 0xDF) && IsTail(s[1]))
    || (|s| == 3 && IsTail(s[2]) && (
        || (Between(s[0], 0xE0, 0xE0) && Between(s[1], 0xA0, 0xBF))
        || (Between(s[0], 0xE1, 0xEC) && IsTail(s[1]))
        || (Between(s[0], 0xED, 0xED) && Between(s[1], 0x80, 0x9F))
        || (Between(s[0], 0xEE, 0xEF) && IsTail(s[1]))))
    || (|s| == 4 && IsTail(s[2]) && IsTail(s[3]) && (
        || (Between(s[0], 0xF0, 0xF0) && Between(s[1], 0x90, 0xBF))
        || (Between(s[0], 0xF1, 0xF3) && IsTail(s[1]))
        || (Between(s[0], 0xF4, 0xF4) && Between(s[1], 0x80, 0x8F))))
  }

  function Concat(chars: seq<string>): string {
    if chars == [] then "" else chars[0] + Concat(chars[1..])
  }

  /** A text is well formed when it falls into such characters. */
  ghost predicate WellFormed(s: string) {
    exists chars :: Concat(chars) == s && forall i :: 0 <= i < |chars| ==> IsUtf8Char(chars[i])
  }

  // ----- the automaton -----

  /** Between characters, or `n` more bytes due, the next in a range; or lost. */
  datatype State = Start | Due(lo: int, hi: int, n: nat) | Lost

  function Step(q: State, c: char): State {
    match q
    case Lost => Lost
    case Due(lo, hi, n) =>
      if !Between(c, lo, hi) then Lost else if n <= 1 then Start else Due(0x80, 0xBF, n - 1)
    case Start =>
      if c as int <= 0x7F then Start
      else if Between(c, 0xC2, 0xDF) then Due(0x80, 0xBF, 1)
      else if c as int == 0xE0 then Due(0xA0, 0xBF, 2)
      else if c as int == 0xED then Due(0x80, 0x9F, 2)
      else if Between(c, 0xE1, 0xEF) then Due(0x80, 0xBF, 2)
      else if c as int == 0xF0 then Due(0x90, 0xBF, 3)
      else if c as int == 0xF4 then Due(0x80, 0x8F, 3)
      else if Between(c, 0xF1, 0xF3) then Due(0x80, 0xBF, 3)
      else Lost
  }

  function Steps(q: State, s: string): State
    decreases |s|
  {
    if s == "" then q else Steps(Step(q, s[0]), s[1..])
  }

  lemma {:induction false} StepsInTwo(q: State, s: string, t: string)
    ensures Steps(q, s + t) == Steps(Steps(q, s), t)
    decreases |s|
  {
    if s == "" {
      assert s + t == t;
    } else {
      assert (s + t)[1..] == s[1..] + t;
      StepsInTwo(Step(q, s[0]), s[1..], t);
    }
  }

  lemma {:induction false} LostForGood(s: string)
    ensures Steps(Lost, s) == Lost
    decreases |s|
  {
    if s != "" { LostForGood(s[1..]); }
  }

  /** It comes back to the start first at the end of a character. */
  lemma CharTaken(s: string)
    requires IsUtf8Char(s)
    ensures Steps(Start, s) == Start
  {
    var q := Step(Start, s[0]);
    assert Steps(Start, s) == Steps(q, s[1..]);
    if |s| > 1 {
      var p := Step(q, s[1]);
      assert Steps(q, s[1..]) == Steps(p, s[2..]);
      if |s| > 2 {
        var r := Step(p, s[2]);
        assert Steps(p, s[2..]) == Steps(r, s[3..]);
        if |s| > 3 { assert Steps(r, s[3..]) == Steps(Step(r, s[3]), s[4..]); }
      }
    }
  }

  /** What was due came. */
  lemma {:induction false} DueGiven(q: State, s: string)
    requires q.Due? && q.n > 0 && Steps(q, s) == Start
    ensures q.n <= |s| && Between(s[0], q.lo, q.hi) && Steps(Start, s[q.n..]) == Start
    ensures forall i :: 1 <= i < q.n ==> IsTail(s[i])
    decreases q.n
  {
    if s != "" {
      LostForGood(s[1..]);
      if q.n > 1 {
        DueGiven(Due(0x80, 0xBF, q.n - 1), s[1..]);
        assert s[1..][q.n - 1..] == s[q.n..];
        assert forall i :: 1 <= i < q.n ==> s[i] == s[1..][i - 1];
      }
    }
  }

  /** From the start to the start again, a text begins with a character. */
  lemma CharGiven(s: string) returns (k: nat)
    requires s != "" && Steps(Start, s) == Start
    ensures 0 < k <= |s| && IsUtf8Char(s[..k]) && Steps(Start, s[k..]) == Start
  {
    var q := Step(Start, s[0]);
    LostForGood(s[1..]);
    k := 1;
    if q.Due? {
      DueGiven(q, s[1..]);
      k := q.n + 1;
      assert s[1..][q.n..] == s[k..];
      assert forall i :: 0 < i < k ==> s[i] == s[1..][i - 1];
    }
  }

  /** The automaton recognises exactly the well-formed texts. */
  lemma {:induction false} RecognisesWellFormed(s: string)
    ensures Steps(Start, s) == Start <==> WellFormed(s)
  {
    if Steps(Start, s) == Start {
      var chars := CharsGiven(s);
    }
    if WellFormed(s) {
      var chars :| Concat(chars) == s && forall i :: 0 <= i < |chars| ==> IsUtf8Char(chars[i]);
      CharsTaken(chars);
    }
  }

  lemma {:induction false} CharsGiven(s: string) returns (chars: seq<string>)
    requires Steps(Start, s) == Start
    ensures Concat(chars) == s && forall i :: 0 <= i < |chars| ==> IsUtf8Char(chars[i])
    decreases |s|
  {
    chars := [];
    if s != "" {
      var k := CharGiven(s);
      var more := CharsGiven(s[k..]);
      chars := [s[..k]] + more;
      assert chars[1..] == more;
    }
  }

  lemma {:induction false} CharsTaken(chars: seq<string>)
    requires forall i :: 0 <= i < |chars| ==> IsUtf8Char(chars[i])
    ensures Steps(Start, Concat(chars)) == Start
  {
    if chars != [] {
      CharTaken(chars[0]);
      CharsTaken(chars[1..]);
      StepsInTwo(Start, chars[0], Concat(chars[1..]));
    }
  }

  // ----- the encoder -----

  predicate IsScalar(code: int) { 0 <= code <= 0x10FFFF && !(0xD800 <= code <= 0xDFFF) }

  /** `append_utf8`: the shifts and masks are quotients and remainders of powers of two. */
  function Encode(code: nat): string
    requires code <= 0x10FFFF
  {
    if code <= 0x7F then [code as char]
    else if code <= 0x7FF then [(0xC0 + code / 0x40) as char, (0x80 + code % 0x40) as char]
    else if code <= 0xFFFF then
      [(0xE0 + code / 0x1000) as char, (0x80 + code / 0x40 % 0x40) as char, (0x80 + code % 0x40) as char]
    else
      [(0xF0 + code / 0x40000) as char, (0x80 + code / 0x1000 % 0x40) as char,
       (0x80 + code / 0x40 % 0x40) as char, (0x80 + code % 0x40) as char]
  }

  function Low6(c: char): int { c as int % 0x40 }

  /** The number a character's bytes carry: section 3 of the standard. */
  function CodePoint(s: string): int
    requires IsUtf8Char(s)
  {
    if |s| == 1 then s[0] as int
    else if |s| == 2 then s[0] as int % 0x20 * 0x40 + Low6(s[1])
    else if |s| == 3 then s[0] as int % 0x10 * 0x1000 + Low6(s[1]) * 0x40 + Low6(s[2])
    else s[0] as int % 8 * 0x40000 + Low6(s[1]) * 0x1000 + Low6(s[2]) * 0x40 + Low6(s[3])
  }

  lemma SixBits(code: nat)
    ensures code == code / 0x40 * 0x40 + code % 0x40
    ensures code / 0x1000 == code / 0x40 / 0x40 && code / 0x40000 == code / 0x40 / 0x40 / 0x40
  {
  }

  lemma TailByte(n: int)
    requires 0 <= n < 0x40
    ensures IsTail((0x80 + n) as char) && Low6((0x80 + n) as char) == n
  {
  }

  lemma EncodeTwo(code: nat)
    requires 0x80 <= code <= 0x7FF
    ensures IsUtf8Char(Encode(code)) && CodePoint(Encode(code)) == code
  {
    var h, l := code / 0x40, code % 0x40;
    TailByte(l);
    assert (0xC0 + h) % 0x20 == h;
  }

  lemma EncodeThree(code: nat)
    requires 0x800 <= code <= 0xFFFF && IsScalar(code)
    ensures IsUtf8Char(Encode(code)) && CodePoint(Encode(code)) == code
  {
    hide IsTail, Low6;
    SixBits(code);
    var h, m, l := code / 0x1000, code / 0x40 % 0x40, code % 0x40;
    assert code == h * 0x1000 + m * 0x40 + l && 0 <= h < 0x10;
    TailByte(m);
    TailByte(l);
    assert (0xE0 + h) % 0x10 == h;
    assert h == 0 ==> m >= 0x20;
    assert h == 0xD ==> m < 0x20;
    assert Encode(code) == [(0xE0 + h) as char, (0x80 + m) as char, (0x80 + l) as char];
    TailRange((0x80 + m) as char);
  }

  lemma TailRange(c: char)
    ensures IsTail(c) <==> Between(c, 0x80, 0xBF)
  {
  }

  lemma EncodeFour(code: nat)
    requires 0x10000 <= code <= 0x10FFFF
    ensures IsUtf8Char(Encode(code)) && CodePoint(Encode(code)) == code
  {
    hide IsTail, Low6;
    SixBits(code);
    SixBits(code / 0x40);
    var h, k, m, l := code / 0x40000, code / 0x1000 % 0x40, code / 0x40 % 0x40, code % 0x40;
    assert code == h * 0x40000 + k * 0x1000 + m * 0x40 + l && 0 <= h <= 4;
    TailByte(k);
    TailByte(m);
    TailByte(l);
    assert (0xF0 + h) % 8 == h;
    assert h == 0 ==> k >= 0x10;
    assert h == 4 ==> k < 0x10;
    assert Encode(code) == [(0xF0 + h) as char, (0x80 + k) as char, (0x80 + m) as char, (0x80 + l) as char];
    TailRange((0x80 + k) as char);
  }

  /** Every scalar value is encoded as one character that carries it. */
  lemma EncodeIsChar(code: nat)
    requires IsScalar(code)
    ensures IsUtf8Char(Encode(code)) && CodePoint(Encode(code)) == code
  {
    hide IsUtf8Char, CodePoint, Encode;
    if code <= 0x7F {
      EncodeOne(code);
    } else if code <= 0x7FF {
      EncodeTwo(code);
    } else if code <= 0xFFFF {
      EncodeThree(code);
    } else {
      EncodeFour(code);
    }
  }

  lemma EncodeOne(code: nat)
    requires code <= 0x7F
    ensures IsUtf8Char(Encode(code)) && CodePoint(Encode(code)) == code
  {
  }

  lemma TailOf(c: char)
    requires IsTail(c)
    ensures 0 <= Low6(c) < 0x40 && c as int == 0x80 + Low6(c) && (0x80 + Low6(c)) as char == c
  {
  }

  /** Division undoes a digit to base 2^6. */
  lemma Digit(high: nat, low: nat)
    requires low < 0x40
    ensures (high * 0x40 + low) / 0x40 == high && (high * 0x40 + low) % 0x40 == low
  {
  }

  lemma Quotients(h: nat, k: nat, m: nat, l: nat)
    requires k < 0x40 && m < 0x40 && l < 0x40
    ensures var code := h * 0x40000 + k * 0x1000 + m * 0x40 + l;
            && code / 0x40 == h * 0x1000 + k * 0x40 + m && code % 0x40 == l
            && code / 0x1000 == h * 0x40 + k && code / 0x40 % 0x40 == m
            && code / 0x40000 == h && code / 0x1000 % 0x40 == k
  {
    var code := h * 0x40000 + k * 0x1000 + m * 0x40 + l;
    SixBits(code);
    Digit(h * 0x1000 + k * 0x40 + m, l);
    Digit(h * 0x40 + k, m);
    Digit(h, k);
  }

  /** And every character is the encoding of the scalar value it carries. */
  lemma CharIsEncoded(s: string)
    requires IsUtf8Char(s)
    ensures IsScalar(CodePoint(s)) && Encode(CodePoint(s)) == s
  {
    if |s| == 2 {
      TwoIsEncoded(s);
    } else if |s| == 3 {
      ThreeIsEncoded(s);
    } else if |s| == 4 {
      FourIsEncoded(s);
    }
  }

  lemma TwoIsEncoded(s: string)
    requires IsUtf8Char(s) && |s| == 2
    ensures IsScalar(CodePoint(s)) && Encode(CodePoint(s)) == s
  {
    var m := s[0] as int - 0xC0;
    TailOf(s[1]);
    Quotients(0, 0, m, Low6(s[1]));
    assert (0xC0 + m) as char == s[0];
  }

  lemma ThreeIsEncoded(s: string)
    requires IsUtf8Char(s) && |s| == 3
    ensures IsScalar(CodePoint(s)) && Encode(CodePoint(s)) == s
  {
    hide Low6;
    var k := s[0] as int - 0xE0;
    TailOf(s[1]);
    TailOf(s[2]);
    Quotients(0, k, Low6(s[1]), Low6(s[2]));
    assert CodePoint(s) == k * 0x1000 + Low6(s[1]) * 0x40 + Low6(s[2]);
    assert (0xE0 + k) as char == s[0];
  }

  lemma FourIsEncoded(s: string)
    requires IsUtf8Char(s) && |s| == 4
    ensures IsScalar(CodePoint(s)) && Encode(CodePoint(s)) == s
  {
    hide Low6;
    var h := s[0] as int - 0xF0;
    TailOf(s[1]);
    TailOf(s[2]);
    TailOf(s[3]);
    Quotients(h, Low6(s[1]), Low6(s[2]), Low6(s[3]));
    assert CodePoint(s) == h * 0x40000 + Low6(s[1]) * 0x1000 + Low6(s[2]) * 0x40 + Low6(s[3]);
    assert (0xF0 + h) as char == s[0];
  }
}
