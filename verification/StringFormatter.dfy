/**
  The formatter: a validator and a renderer that scan the same text on their own.  Both are
  measured by one grammar: a format text spells a sequence of literal characters and holes.
*/
module StringFormatter {
  datatype Piece = Literal(c: char) | Hole

  datatype FormatError = Sound | UnterminatedOpenBrace | StrayCloseBrace | ArgumentCountMismatch

  // ----- the grammar -----

  predicate IsBrace(c: char) { c == '{' || c == '}' }

  /** A literal brace is written twice, a hole is "{}". */
  function Spell(piece: Piece): string {
    match piece
    case Hole => "{}"
    case Literal(c) => if IsBrace(c) then [c, c] else [c]
  }

  function SpellAll(pieces: seq<Piece>): string {
    if pieces == [] then "" else Spell(pieces[0]) + SpellAll(pieces[1..])
  }

  function Holes(pieces: seq<Piece>): nat {
    if pieces == [] then 0 else (if pieces[0].Hole? then 1 else 0) + Holes(pieces[1..])
  }

  /** What the pieces stand for, each hole taking the next rendered argument. */
  function Render(pieces: seq<Piece>, args: seq<string>): string
    requires Holes(pieces) == |args|
  {
    if pieces == [] then ""
    else match pieces[0]
      case Literal(c) => [c] + Render(pieces[1..], args)
      case Hole => args[0] + Render(pieces[1..], args[1..])
  }

  // ----- reading a text -----

  datatype Reading = Pieces(pieces: seq<Piece>) | Malformed(error: FormatError)

  function Prepend(piece: Piece, reading: Reading): Reading {
    if reading.Pieces? then Pieces([piece] + reading.pieces) else reading
  }

  /** The pieces a text spells, or its first error. */
  function Read(text: string): Reading {
    if text == "" then Pieces([])
    else if text[0] == '{' then
      if |text| == 1 then Malformed(UnterminatedOpenBrace)
      else if text[1] == '{' then Prepend(Literal('{'), Read(text[2..]))
      else if text[1] == '}' then Prepend(Hole, Read(text[2..]))
      else Malformed(UnterminatedOpenBrace)
    else if text[0] == '}' then
      if |text| == 1 || text[1] != '}' then Malformed(StrayCloseBrace)
      else Prepend(Literal('}'), Read(text[2..]))
    else Prepend(Literal(text[0]), Read(text[1..]))
  }

  /** What is spelled is read back. */
  lemma {:induction false} SpelledIsRead(pieces: seq<Piece>)
    ensures Read(SpellAll(pieces)) == Pieces(pieces)
  {
    if pieces != [] {
      SpelledIsRead(pieces[1..]);
      var text := SpellAll(pieces);
      assert text[|Spell(pieces[0])|..] == SpellAll(pieces[1..]);
      assert pieces == [pieces[0]] + pieces[1..];
    }
  }

  /** What is read is what was spelled: the texts without error are exactly the spellings. */
  lemma {:induction false} ReadIsSpelled(text: string)
    requires Read(text).Pieces?
    ensures SpellAll(Read(text).pieces) == text
  {
    if text != "" {
      if IsBrace(text[0]) {
        ReadIsSpelled(text[2..]);
        assert text == text[..2] + text[2..];
      } else {
        ReadIsSpelled(text[1..]);
        assert text == [text[0]] + text[1..];
      }
    }
  }

  /** A text is sound for `n` arguments exactly when it spells pieces with `n` holes. */
  ghost predicate SpellsHoles(text: string, n: nat) {
    exists pieces :: SpellAll(pieces) == text && Holes(pieces) == n
  }

  // ----- the validator -----

  function Verdict(text: string, argumentCount: nat): FormatError {
    match Read(text)
    case Malformed(error) => error
    case Pieces(pieces) => if Holes(pieces) == argumentCount then Sound else ArgumentCountMismatch
  }

  /** `check_format_string`: it accepts exactly the spellings with the right number of holes. */
  method CheckFormatString(text: string, argumentCount: nat) returns (error: FormatError)
    ensures error == Verdict(text, argumentCount)
    ensures error == Sound <==> SpellsHoles(text, argumentCount)
  {
    SoundIffSpelled(text, argumentCount);
    var placeholders, i: nat := 0, 0;
    while i < |text|
      invariant i <= |text|
      invariant Read(text).Malformed? ==> Read(text[i..]) == Read(text)
      invariant Read(text).Pieces? ==>
                  Read(text[i..]).Pieces? && Holes(Read(text).pieces) == placeholders + Holes(Read(text[i..]).pieces)
    {
      assert i + 1 < |text| ==> text[i..][2..] == text[i + 2..];
      assert text[i..][1..] == text[i + 1..];
      if text[i] == '{' {
        if i + 1 == |text| { return UnterminatedOpenBrace; }
        if text[i + 1] == '{' {
          i := i + 2;
        } else if text[i + 1] == '}' {
          placeholders := placeholders + 1;
          i := i + 2;
        } else {
          return UnterminatedOpenBrace;
        }
      } else if text[i] == '}' {
        if i + 1 == |text| || text[i + 1] != '}' { return StrayCloseBrace; }
        i := i + 2;
      } else {
        i := i + 1;
      }
    }
    error := if placeholders == argumentCount then Sound else ArgumentCountMismatch;
  }

  lemma {:induction false} ErrorsAreErrors(text: string)
    ensures Read(text).Malformed? ==> Read(text).error != Sound && Read(text).error != ArgumentCountMismatch
  {
    if text != "" {
      if IsBrace(text[0]) {
        if |text| > 1 { ErrorsAreErrors(text[2..]); }
      } else {
        ErrorsAreErrors(text[1..]);
      }
    }
  }

  lemma SoundIffSpelled(text: string, n: nat)
    ensures Verdict(text, n) == Sound <==> SpellsHoles(text, n)
  {
    ErrorsAreErrors(text);
    if Verdict(text, n) == Sound {
      ReadIsSpelled(text);
    }
    if SpellsHoles(text, n) {
      var pieces :| SpellAll(pieces) == text && Holes(pieces) == n;
      SpelledIsRead(pieces);
    }
  }

  // ----- the renderer -----

  /** The builder both renderers append to. */
  class Builder {
    var text: string

    constructor ()
      ensures text == ""
    {
      text := "";
    }

    method Append(s: string)
      modifies this
      ensures text == old(text) + s
    {
      text := text + s;
    }
  }

  /** The literal characters before the first hole. */
  function Before(pieces: seq<Piece>): string {
    if pieces == [] || pieces[0].Hole? then "" else [pieces[0].c] + Before(pieces[1..])
  }

  /** What follows the first hole. */
  function After(pieces: seq<Piece>): seq<Piece> {
    if pieces == [] then [] else if pieces[0].Hole? then pieces[1..] else After(pieces[1..])
  }

  /** Rendering goes hole by hole. */
  lemma {:induction false} RenderByHole(pieces: seq<Piece>, args: seq<string>)
    requires Holes(pieces) == |args|
    ensures args == [] ==> Render(pieces, args) == Before(pieces) && After(pieces) == []
    ensures args != [] ==> Holes(After(pieces)) == |args| - 1
    ensures args != [] ==>
              Render(pieces, args) == Before(pieces) + args[0] + Render(After(pieces), args[1..])
  {
    if pieces != [] && pieces[0].Literal? {
      RenderByHole(pieces[1..], args);
    }
  }

  /** One piece of a readable text takes one plain character, or two characters. */
  lemma NextPiece(text: string, i: nat)
    requires i < |text| && Read(text[i..]).Pieces?
    ensures var left := Read(text[i..]).pieces;
            && left != []
            && (!IsBrace(text[i]) ==> left[0] == Literal(text[i]) && Read(text[i + 1..]) == Pieces(left[1..]))
            && (IsBrace(text[i]) ==>
                  && i + 1 < |text|
                  && left[0] == (if text[i + 1] == text[i] then Literal(text[i]) else Hole)
                  && Read(text[i + 2..]) == Pieces(left[1..]))
  {
    if IsBrace(text[i]) {
      assert |text[i..]| > 1;
      assert text[i..][2..] == text[i + 2..];
    } else {
      assert text[i..][1..] == text[i + 1..];
    }
  }

  lemma EmptyHasNoPieces()
    ensures Read("") == Pieces([])
  {
  }

  /** `advance_to_placeholder`: the pending run, `rest[run..i]`, holds no brace. */
  method AdvanceToPlaceholder(out: Builder, rest: string) returns (found: bool, remaining: string)
    requires Read(rest).Pieces?
    modifies out
    ensures Read(remaining).Pieces?
    ensures found <==> Holes(Read(rest).pieces) > 0
    ensures out.text == old(out.text) + Before(Read(rest).pieces)
    ensures Read(remaining).pieces == After(Read(rest).pieces)
    ensures !found ==> remaining == ""
  {
    hide Read;
    ghost var pieces := Read(rest).pieces;
    ghost var was := out.text;
    assert rest[0..] == rest;
    var run, i: nat := 0, 0;
    while i < |rest|
      invariant run <= i <= |rest|
      invariant Read(rest[i..]).Pieces?
      invariant Holes(pieces) == Holes(Read(rest[i..]).pieces)
      invariant was + Before(pieces) == out.text + rest[run..i] + Before(Read(rest[i..]).pieces)
      invariant After(pieces) == After(Read(rest[i..]).pieces)
    {
      NextPiece(rest, i);
      var ch := rest[i];
      if !IsBrace(ch) {
        assert rest[run..i + 1] == rest[run..i] + [ch];
        i := i + 1;
      } else {
        out.Append(rest[run..i]);
        if rest[i + 1] == ch {
          out.Append([ch]);
          i := i + 2;
          run := i;
        } else {
          return true, rest[i + 2..];
        }
      }
    }
    out.Append(rest[run..]);
    EmptyHasNoPieces();
    assert rest[i..] == "";
    return false, "";
  }

  /** `append_segment`: one argument takes one placeholder. */
  method AppendSegment(out: Builder, rest: string, value: string) returns (taken: bool, remaining: string)
    requires Read(rest).Pieces?
    modifies out
    ensures Read(remaining).Pieces?
    ensures taken <==> Holes(Read(rest).pieces) > 0
    ensures out.text == old(out.text) + Before(Read(rest).pieces) + (if taken then value else "")
    ensures Read(remaining).pieces == After(Read(rest).pieces)
  {
    taken, remaining := AdvanceToPlaceholder(out, rest);
    if taken { out.Append(value); }
  }

  /**
    `format_to`: on a text the validator accepts, every argument takes its one placeholder, the
    trailing call finds none, and what is appended is the pieces with the arguments in place.
  */
  method FormatTo(out: Builder, text: string, args: seq<string>)
    requires Verdict(text, |args|) == Sound
    modifies out
    ensures Read(text).Pieces? && Holes(Read(text).pieces) == |args|
    ensures out.text == old(out.text) + Render(Read(text).pieces, args)
  {
    hide Read, Render, Before, After, Holes;
    ErrorsAreErrors(text);
    ghost var was := out.text;
    ghost var pieces := Read(text).pieces;
    var rest := text;
    assert args[0..] == args;
    var k: nat := 0;
    while k < |args|
      invariant k <= |args|
      invariant Read(rest).Pieces? && Holes(Read(rest).pieces) == |args| - k
      invariant was + Render(pieces, args) == out.text + Render(Read(rest).pieces, args[k..])
    {
      RenderByHole(Read(rest).pieces, args[k..]);
      assert args[k..][1..] == args[k + 1..];
      var taken;
      taken, rest := AppendSegment(out, rest, args[k]);
      assert taken;
      k := k + 1;
    }
    RenderByHole(Read(rest).pieces, args[k..]);
    var found;
    found, rest := AdvanceToPlaceholder(out, rest);
    assert !found;
  }

  /** `format`: a fresh builder, so exactly the rendering. */
  method Format(text: string, args: seq<string>) returns (rendered: string)
    requires Verdict(text, |args|) == Sound
    ensures Read(text).Pieces? && Holes(Read(text).pieces) == |args|
    ensures rendered == Render(Read(text).pieces, args)
  {
    var out := new Builder();
    FormatTo(out, text, args);
    rendered := out.text;
  }

  // ----- brace doubling -----

  /** Every brace of a text written twice. */
  function Doubled(text: string): string {
    if text == "" then ""
    else (if IsBrace(text[0]) then [text[0], text[0]] else [text[0]]) + Doubled(text[1..])
  }

  /** Any text, its braces doubled, is a sound format text that renders back to it. */
  lemma {:induction false} DoubledRendersBack(text: string)
    ensures Verdict(Doubled(text), 0) == Sound
    ensures Read(Doubled(text)).Pieces? && Holes(Read(Doubled(text)).pieces) == 0
    ensures Render(Read(Doubled(text)).pieces, []) == text
  {
    if text != "" {
      DoubledRendersBack(text[1..]);
      ErrorsAreErrors(Doubled(text[1..]));
      var skip := if IsBrace(text[0]) then 2 else 1;
      assert Doubled(text)[skip..] == Doubled(text[1..]);
      var pieces := Read(Doubled(text)).pieces;
      assert pieces[1..] == Read(Doubled(text[1..])).pieces;
      assert text == [text[0]] + text[1..];
    }
  }

  // ----- what the verdicts mean -----

  /** An opening brace that is neither doubled nor a placeholder. */
  predicate OpensBadly(tail: string) {
    tail != "" && tail[0] == '{' && (|tail| == 1 || (tail[1] != '{' && tail[1] != '}'))
  }

  predicate ClosesBadly(tail: string) {
    tail != "" && tail[0] == '}' && (|tail| == 1 || tail[1] != '}')
  }

  /** A text that is sound up to a bad brace. */
  ghost predicate GoesBad(text: string, bad: string -> bool) {
    exists pieces, tail :: SpellAll(pieces) + tail == text && bad(tail)
  }

  /** Where reading fails, something is spelled up to a brace of the kind named. */
  lemma {:induction false} FailsAt(text: string) returns (pieces: seq<Piece>, tail: string)
    requires Read(text).Malformed?
    ensures SpellAll(pieces) + tail == text
    ensures Read(text).error == UnterminatedOpenBrace ==> OpensBadly(tail)
    ensures Read(text).error == StrayCloseBrace ==> ClosesBadly(tail)
    ensures Read(text).error == UnterminatedOpenBrace || Read(text).error == StrayCloseBrace
  {
    if OpensBadly(text) || ClosesBadly(text) {
      pieces, tail := [], text;
    } else {
      var skip := if IsBrace(text[0]) then 2 else 1;
      var piece := if text[0] == '{' && text[1] == '}' then Hole else Literal(text[0]);
      var more;
      more, tail := FailsAt(text[skip..]);
      pieces := [piece] + more;
      assert pieces[1..] == more && text == text[..skip] + text[skip..] && text[..skip] == Spell(piece);
    }
  }

  /** What is spelled is read past, and a bad brace after it is what is found. */
  lemma {:induction false} FailsThere(pieces: seq<Piece>, tail: string)
    ensures OpensBadly(tail) ==> Read(SpellAll(pieces) + tail) == Malformed(UnterminatedOpenBrace)
    ensures ClosesBadly(tail) ==> Read(SpellAll(pieces) + tail) == Malformed(StrayCloseBrace)
  {
    var text := SpellAll(pieces) + tail;
    if pieces == [] {
      assert text == tail;
    } else {
      FailsThere(pieces[1..], tail);
      assert text[|Spell(pieces[0])|..] == SpellAll(pieces[1..]) + tail;
    }
  }

  /** The first error is the one named, whatever the number of arguments. */
  lemma VerdictNamesTheBrace(text: string, n: nat)
    ensures Verdict(text, n) == UnterminatedOpenBrace <==> GoesBad(text, OpensBadly)
    ensures Verdict(text, n) == StrayCloseBrace <==> GoesBad(text, ClosesBadly)
    ensures Verdict(text, n) == ArgumentCountMismatch <==> exists m: nat :: m != n && SpellsHoles(text, m)
  {
    if Read(text).Malformed? {
      var pieces, tail := FailsAt(text);
    }
    if GoesBad(text, OpensBadly) {
      var pieces, tail :| SpellAll(pieces) + tail == text && OpensBadly(tail);
      FailsThere(pieces, tail);
    }
    if GoesBad(text, ClosesBadly) {
      var pieces, tail :| SpellAll(pieces) + tail == text && ClosesBadly(tail);
      FailsThere(pieces, tail);
    }
    MismatchMeans(text, n);
  }

  lemma MismatchMeans(text: string, n: nat)
    ensures Verdict(text, n) == ArgumentCountMismatch <==> exists m: nat :: m != n && SpellsHoles(text, m)
  {
    ErrorsAreErrors(text);
    if Read(text).Pieces? {
      ReadIsSpelled(text);
      assert SpellsHoles(text, Holes(Read(text).pieces));
    }
    if m: nat :| m != n && SpellsHoles(text, m) {
      SoundIffSpelled(text, m);
    }
  }
}
