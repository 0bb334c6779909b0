/**
  Buffered file streams.  The operating system may move fewer bytes than asked, may interrupt a
  call, and may fail; the buffer has any size.  None of it shows in what is read or written.
*/
module FileStream {
  import opened Wrappers

  newtype byte = x: int | 0 <= x < 0x100

  const LF: byte := 10
  const CR: byte := 13

  datatype Mode = Read | Write | Append

  /** A call either returns or throws `std::logic_error` for the wrong mode. */
  datatype Call<T> = Returned(value: T) | LogicError

  // ----- the operating system -----

  datatype Outcome = Moved(n: nat) | Interrupted | Failed(err: int)

  /** One open descriptor: what is left to read, what was written, and its misbehaviour. */
  class Os {
    var incoming: seq<byte>
    var written: seq<byte>
    var faults: nat
    var interrupts: nat

    constructor (contents: seq<byte>, signals: nat)
      ensures incoming == contents && written == [] && faults == 0 && interrupts == signals
    {
      incoming, written, faults, interrupts := contents, [], 0, signals;
    }

    /** `read(2)`: any positive number of the next bytes, none only at the end of the file. */
    method RawRead(dst: array<byte>) returns (outcome: Outcome)
      requires dst.Length > 0
      modifies this, dst
      ensures written == old(written)
      ensures outcome.Moved? ==>
                && outcome.n <= dst.Length && outcome.n <= |old(incoming)|
                && (outcome.n == 0 <==> old(incoming) == [])
                && dst[..outcome.n] + incoming == old(incoming)
      ensures !outcome.Moved? ==> incoming == old(incoming)
      ensures outcome.Interrupted? ==> interrupts < old(interrupts)
      ensures !outcome.Interrupted? ==> interrupts == old(interrupts)
      ensures outcome.Failed? ==> outcome.err != 0 && faults == old(faults) + 1
      ensures !outcome.Failed? ==> faults == old(faults)
    {
      var interrupt, fail, err, n: nat := *, *, *, *;
      if interrupts > 0 && interrupt {
        interrupts := interrupts - 1;
        return Interrupted;
      }
      if fail && err != 0 {
        faults := faults + 1;
        return Failed(err);
      }
      var most := if dst.Length < |incoming| then dst.Length else |incoming|;
      n := if 0 < n <= most then n else most;
      forall i | 0 <= i < n { dst[i] := incoming[i]; }
      assert dst[..n] == incoming[..n];
      incoming := incoming[n..];
      return Moved(n);
    }

    /** `write(2)`: any positive number of the bytes offered. */
    method RawWrite(chunk: seq<byte>) returns (outcome: Outcome)
      requires chunk != []
      modifies this
      ensures incoming == old(incoming)
      ensures outcome.Moved? ==> 0 < outcome.n <= |chunk| && written == old(written) + chunk[..outcome.n]
      ensures !outcome.Moved? ==> written == old(written)
      ensures outcome.Interrupted? ==> interrupts < old(interrupts)
      ensures !outcome.Interrupted? ==> interrupts == old(interrupts)
      ensures outcome.Failed? ==> outcome.err != 0 && faults == old(faults) + 1
      ensures !outcome.Failed? ==> faults == old(faults)
    {
      var interrupt, fail, err, n: nat := *, *, *, *;
      if interrupts > 0 && interrupt {
        interrupts := interrupts - 1;
        return Interrupted;
      }
      if fail && err != 0 {
        faults := faults + 1;
        return Failed(err);
      }
      n := if 0 < n <= |chunk| then n else |chunk|;
      written := written + chunk[..n];
      return Moved(n);
    }

    /** `os_read`: interrupted calls are repeated. */
    method ReadSome(dst: array<byte>) returns (n: int, err: int)
      requires dst.Length > 0
      modifies this, dst
      ensures written == old(written)
      ensures n < 0 ==> err != 0 && incoming == old(incoming) && faults == old(faults) + 1
      ensures n >= 0 ==>
                && n <= dst.Length && n <= |old(incoming)| && (n == 0 <==> old(incoming) == [])
                && dst[..n] + incoming == old(incoming) && faults == old(faults)
    {
      while true
        invariant written == old(written) && incoming == old(incoming) && faults == old(faults)
        decreases interrupts
      {
        var outcome := RawRead(dst);
        match outcome
        case Interrupted =>
        case Failed(e) => return -1, e;
        case Moved(k) => return k, 0;
      }
    }

    /** `os_write_all`: everything, however little each call takes, or a prefix and an error. */
    method WriteAll(src: seq<byte>) returns (ok: bool, err: int)
      modifies this
      ensures incoming == old(incoming)
      ensures ok ==> written == old(written) + src && faults == old(faults)
      ensures !ok ==> err != 0 && faults == old(faults) + 1
      ensures !ok ==> PartWay(old(written), written, src)
    {
      var done: nat := 0;
      while done < |src|
        invariant done <= |src|
        invariant incoming == old(incoming) && faults == old(faults)
        invariant written == old(written) + src[..done]
        decreases |src| - done, interrupts
      {
        var outcome := RawWrite(src[done..]);
        match outcome
        case Interrupted =>
        case Failed(e) =>
          assert written == (old(written) + src)[..|written|];
          return false, e;
        case Moved(k) =>
          assert src[..done] + src[done..][..k] == src[..done + k];
          done := done + k;
      }
      assert src[..done] == src;
      return true, 0;
    }
  }

  /** A failed hand-over: what was out stays out, and a proper part of the offer followed it. */
  ghost predicate PartWay(before: seq<byte>, now: seq<byte>, offered: seq<byte>) {
    |before| <= |now| < |before + offered| && now == (before + offered)[..|now|]
  }

  // ----- lines -----

  /** The position of the first line feed, or the length. */
  function NextLF(bytes: seq<byte>): (k: nat)
    ensures k <= |bytes|
    ensures k < |bytes| ==> bytes[k] == LF
    ensures forall i :: 0 <= i < k ==> bytes[i] != LF
  {
    if bytes == [] || bytes[0] == LF then 0 else 1 + NextLF(bytes[1..])
  }

  lemma {:induction false} NextLFIs(bytes: seq<byte>, k: nat)
    requires k <= |bytes|
    requires k < |bytes| ==> bytes[k] == LF
    requires forall i :: 0 <= i < k ==> bytes[i] != LF
    ensures NextLF(bytes) == k
  {
  }

  /** One carriage return dropped from the end. */
  function FoldCR(line: seq<byte>): seq<byte> {
    if line != [] && line[|line| - 1] == CR then line[..|line| - 1] else line
  }

  /** The lines of a file. */
  function Lines(bytes: seq<byte>): seq<seq<byte>> {
    var k := NextLF(bytes);
    if k < |bytes| then [FoldCR(bytes[..k])] + Lines(bytes[k + 1..])
    else if bytes == [] then []
    else [bytes]
  }

  datatype Ending = Unix | Dos

  function Terminator(ending: Ending): seq<byte> {
    if ending == Unix then [LF] else [CR, LF]
  }

  /** Lines written out, each with its own line ending. */
  function Joined(lines: seq<seq<byte>>, endings: seq<Ending>): seq<byte>
    requires |lines| == |endings|
  {
    if lines == [] then [] else lines[0] + Terminator(endings[0]) + Joined(lines[1..], endings[1..])
  }

  predicate LineFree(line: seq<byte>) { LF !in line }

  /** A line that can be written with that ending: under LF alone it must not end in a CR itself. */
  predicate Fits(line: seq<byte>, ending: Ending) {
    LineFree(line) && (ending == Unix ==> line == [] || line[|line| - 1] != CR)
  }

  lemma LinesStep(line: seq<byte>, rest: seq<byte>)
    requires LineFree(line)
    ensures Lines(line + [LF] + rest) == [FoldCR(line)] + Lines(rest)
  {
    var bytes := line + [LF] + rest;
    NextLFIs(bytes, |line|);
    assert bytes[..|line|] == line && bytes[|line| + 1..] == rest;
  }

  lemma LinesEnd(rest: seq<byte>)
    requires LineFree(rest)
    ensures Lines(rest) == if rest == [] then [] else [rest]
  {
    NextLFIs(rest, |rest|);
  }

  lemma HeadFolds(line: seq<byte>, ending: Ending)
    requires Fits(line, ending)
    ensures var head := line + (if ending == Unix then [] else [CR]);
            LineFree(head) && FoldCR(head) == line
  {
  }

  /** Lines written with any mix of endings, and an unterminated rest, are the lines read. */
  lemma {:induction false} JoinedLines(lines: seq<seq<byte>>, endings: seq<Ending>, rest: seq<byte>)
    requires |lines| == |endings|
    requires LineFree(rest) && forall i :: 0 <= i < |lines| ==> Fits(lines[i], endings[i])
    ensures Lines(Joined(lines, endings) + rest) == lines + (if rest == [] then [] else [rest])
  {
    hide Lines, NextLF, FoldCR, LineFree;
    if lines == [] {
      LinesEnd(rest);
      assert Joined(lines, endings) + rest == rest;
    } else {
      JoinedLines(lines[1..], endings[1..], rest);
      var tail := Joined(lines[1..], endings[1..]);
      var head := lines[0] + (if endings[0] == Unix then [] else [CR]);
      HeadFolds(lines[0], endings[0]);
      LinesStep(head, tail + rest);
      assert lines[0] + Terminator(endings[0]) == head + [LF];
      assert head + [LF] + tail + rest == head + [LF] + (tail + rest);
      assert lines == [lines[0]] + lines[1..];
    }
  }

  // ----- the stream -----

  class FileStream {
    const os: Os
    const buffer: array<byte>
    const mode: Mode
    var pos: nat
    var len: nat
    var error: int
    var eof: bool
    var isOpen: bool

    ghost predicate Valid()
      reads this
    {
      && buffer.Length > 0 && len <= buffer.Length
      && pos <= (if mode == Read then len else buffer.Length)
    }

    /** The bytes the reader has yet to see. */
    ghost function Remaining(): seq<byte>
      reads this, os, buffer
      requires Valid() && mode == Read
    {
      buffer[pos..len] + os.incoming
    }

    /** The bytes accepted from the writer and not yet handed on. */
    ghost function Pending(): seq<byte>
      reads this, buffer
      requires Valid() && mode != Read
    {
      buffer[..pos]
    }

    /** `open`: a failure to open leaves a closed stream that carries the error. */
    constructor (os: Os, mode: Mode, bufferSize: nat, openError: int)
      ensures Valid() && this.os == os && this.mode == mode && fresh(buffer)
      ensures isOpen == (openError == 0) && error == openError && !eof
      ensures mode == Read ==> Remaining() == os.incoming
      ensures mode != Read ==> Pending() == []
    {
      this.os, this.mode := os, mode;
      buffer := new byte[if bufferSize > 1 then bufferSize else 1];
      pos, len, error, eof, isOpen := 0, 0, openError, false, openError == 0;
    }

    /** `fill_buffer`: nothing changes for the reader, who finds a byte, the end or an error. */
    method FillBuffer() returns (filled: bool)
      requires Valid() && mode == Read && pos == len
      modifies this`pos, this`len, this`error, this`eof, os, buffer
      ensures Valid() && Remaining() == old(Remaining())
      ensures filled ==> pos < len && error == old(error)
      ensures !filled ==> pos == len
      ensures os.faults == old(os.faults) ==> error == old(error) && (!filled <==> Remaining() == [])
      ensures os.faults != old(os.faults) ==> !filled && error != 0
      ensures eof == (old(eof) || (!filled && os.faults == old(os.faults)))
      ensures os.faults >= old(os.faults)
    {
      pos, len := 0, 0;
      var n, err := os.ReadSome(buffer);
      if n < 0 {
        error := err;
        return false;
      }
      if n == 0 {
        eof := true;
        return false;
      }
      len := n;
      return true;
    }

    /** The head of both reading loops: `buffer_pos_ >= buffer_len_ && !fill_buffer()`. */
    method HaveSome() returns (some: bool)
      requires Valid() && mode == Read
      modifies this`pos, this`len, this`error, this`eof, os, buffer
      ensures Valid() && Remaining() == old(Remaining())
      ensures some <==> pos < len
      ensures some ==> error == old(error) && os.faults == old(os.faults)
      ensures os.faults == old(os.faults) ==> error == old(error) && (!some <==> Remaining() == [])
      ensures os.faults != old(os.faults) ==> error != 0
      ensures eof == (old(eof) || (!some && os.faults == old(os.faults)))
      ensures os.faults >= old(os.faults)
    {
      some := true;
      if pos >= len {
        some := FillBuffer();
      }
    }

    /** `flush_buffer`: a failure keeps the whole buffer, whatever part of it went out. */
    method FlushBuffer() returns (ok: bool)
      requires Valid() && mode != Read
      modifies this`pos, this`error, os
      ensures Valid() && os.faults >= old(os.faults) && os.incoming == old(os.incoming)
      ensures ok <==> os.faults == old(os.faults)
      ensures ok ==> Pending() == [] && os.written == old(os.written + Pending()) && error == old(error)
      ensures !ok ==> error != 0 && Pending() == old(Pending())
      ensures !ok ==> PartWay(old(os.written), os.written, old(Pending()))
    {
      if pos == 0 {
        return true;
      }
      var err;
      ok, err := os.WriteAll(buffer[..pos]);
      if !ok {
        error := err;
        return;
      }
      pos := 0;
    }

    /**
      `read`: without a fault, as many bytes as there are or fit, in order; with one, a prefix of
      them.  `consumed` is the number moved, which a caller learns unless it is 0 on an error.
    */
    method ReadInto(dst: array<byte>) returns (r: Call<Option<nat>>, ghost consumed: nat)
      requires Valid() && dst != buffer
      modifies this`pos, this`len, this`error, this`eof, os, buffer, dst
      ensures Valid() && isOpen == old(isOpen)
      ensures !isOpen ==> r == Returned(None) && consumed == 0
      ensures isOpen ==> (r == LogicError <==> mode != Read)
      ensures !isOpen || mode != Read ==>
                && pos == old(pos) && len == old(len) && error == old(error) && eof == old(eof) && consumed == 0
                && os.incoming == old(os.incoming) && buffer[..] == old(buffer[..]) && dst[..] == old(dst[..])
      ensures isOpen && mode == Read ==>
                && consumed <= dst.Length && consumed <= |old(Remaining())|
                && dst[..] == old(Remaining())[..consumed] + old(dst[..])[consumed..]
                && Remaining() == old(Remaining())[consumed..]
                && r == Returned(if consumed == 0 && error != 0 then None else Some(consumed))
      ensures isOpen && mode == Read && os.faults == old(os.faults) ==>
                && error == old(error)
                && consumed == (if dst.Length < |old(Remaining())| then dst.Length else |old(Remaining())|)
                && eof == (old(eof) || |old(Remaining())| < dst.Length)
      ensures os.faults >= old(os.faults) && (os.faults != old(os.faults) ==> error != 0)
    {
      consumed := 0;
      if !isOpen { return Returned(None), 0; }
      if mode != Read { return LogicError, 0; }
      var n;
      n, consumed := ReadBlock(dst);
      r := Returned(n);
    }

    /** The loop of `read`. */
    method ReadBlock(dst: array<byte>) returns (r: Option<nat>, ghost total: nat)
      requires Valid() && dst != buffer && mode == Read
      modifies this`pos, this`len, this`error, this`eof, os, buffer, dst
      ensures Valid()
      ensures total <= dst.Length && total <= |old(Remaining())|
      ensures dst[..] == old(Remaining())[..total] + old(dst[..])[total..]
      ensures Remaining() == old(Remaining())[total..]
      ensures r == if total == 0 && error != 0 then None else Some(total)
      ensures os.faults == old(os.faults) ==>
                && error == old(error)
                && total == (if dst.Length < |old(Remaining())| then dst.Length else |old(Remaining())|)
                && eof == (old(eof) || |old(Remaining())| < dst.Length)
      ensures os.faults >= old(os.faults) && (os.faults != old(os.faults) ==> error != 0)
    {
      hide Served;
      ghost var all, was := Remaining(), dst[..];
      ServedStart(was, all);
      var done: nat := 0;
      while done < dst.Length
        invariant Valid() && done <= dst.Length
        invariant Served(dst[..], was, all, Remaining(), done)
        invariant os.faults == old(os.faults) && error == old(error) && eof == old(eof)
      {
        var some := HaveSome();
        if !some { break; }
        ghost var block, rest := dst[..], Remaining();
        var take := MoveOut(dst, done);
        ServedGrows(block, was, all, rest, done, take);
        done := done + take;
      }
      ServedEnd(dst[..], was, all, Remaining(), done);
      total := done;
      r := if done == 0 && error != 0 then None else Some(done);
    }

    /** The copy of a window of the buffer into the caller's block. */
    method MoveOut(dst: array<byte>, at: nat) returns (take: nat)
      requires Valid() && dst != buffer && mode == Read && at < dst.Length && pos < len
      modifies this`pos, dst
      ensures Valid() && 0 < take && at + take <= dst.Length && take <= |old(Remaining())|
      ensures dst[..] == old(dst[..at]) + old(Remaining())[..take] + old(dst[at + take..])
      ensures Remaining() == old(Remaining())[take..]
    {
      take := if len - pos < dst.Length - at then len - pos else dst.Length - at;
      WindowSplits(buffer[..], pos, len, os.incoming, take);
      Copy(dst, at, buffer[pos..pos + take]);
      pos := pos + take;
    }

    // ----- lines -----

    /** `find` over the window. */
    method FindLF() returns (k: nat)
      requires Valid() && mode == Read
      ensures pos + k <= len && k == NextLF(buffer[pos..len])
    {
      k := 0;
      while k < len - pos && buffer[pos + k] != LF
        invariant k <= len - pos
        invariant forall i :: 0 <= i < k ==> buffer[pos..len][i] != LF
      {
        k := k + 1;
      }
      NextLFIs(buffer[pos..len], k);
    }

    /**
      `read_line`: the next line without its ending, one CR dropped before the LF.  An
      unterminated rest is a line of its own, CR and all, unless it is empty or an error is on
      record.  A fault ends the call with nothing, whatever had been collected.
    */
    method ReadLine() returns (r: Call<Option<seq<byte>>>)
      requires Valid()
      modifies this`pos, this`len, this`error, this`eof, os, buffer
      ensures Valid() && isOpen == old(isOpen)
      ensures !isOpen ==> r == Returned(None)
      ensures isOpen ==> (r == LogicError <==> mode != Read)
      ensures !isOpen || mode != Read ==>
                && pos == old(pos) && len == old(len) && error == old(error) && eof == old(eof)
                && os.incoming == old(os.incoming) && buffer[..] == old(buffer[..])
      ensures isOpen && mode == Read && os.faults == old(os.faults) ==>
                var all := old(Remaining());
                var k := NextLF(all);
                && error == old(error) && eof == (old(eof) || k == |all|)
                && (k < |all| ==> r == Returned(Some(FoldCR(all[..k]))) && Remaining() == all[k + 1..])
                && (k == |all| ==>
                      && r == Returned(if error != 0 || all == [] then None else Some(all))
                      && Remaining() == [])
      ensures os.faults != old(os.faults) ==> r == Returned(None) && error != 0
      ensures os.faults >= old(os.faults)
    {
      if !isOpen { return Returned(None); }
      if mode != Read { return LogicError; }
      var line := ReadOneLine();
      r := Returned(line);
    }

    /** The loop of `read_line`. */
    method ReadOneLine() returns (r: Option<seq<byte>>)
      requires Valid() && mode == Read
      modifies this`pos, this`len, this`error, this`eof, os, buffer
      ensures Valid()
      ensures os.faults == old(os.faults) ==>
                var all := old(Remaining());
                var k := NextLF(all);
                && error == old(error) && eof == (old(eof) || k == |all|)
                && (k < |all| ==> r == Some(FoldCR(all[..k])) && Remaining() == all[k + 1..])
                && (k == |all| ==> r == (if error != 0 || all == [] then None else Some(all)) && Remaining() == [])
      ensures os.faults != old(os.faults) ==> r == None && error != 0
      ensures os.faults >= old(os.faults)
    {
      hide NextLF, LineFree;
      var line, ended := CollectLine();
      if ended {
        return Some(if line != [] && line[|line| - 1] == CR then line[..|line| - 1] else line);
      }
      LineFreeIs(line);
      if error != 0 { return None; }
      if line == [] { return None; }
      return Some(line);
    }

    /** Windows collected up to a line feed, the end of the file or a fault. */
    method CollectLine() returns (line: seq<byte>, ended: bool)
      requires Valid() && mode == Read
      modifies this`pos, this`len, this`error, this`eof, os, buffer
      ensures Valid()
      ensures os.faults == old(os.faults) ==> error == old(error) && eof == (old(eof) || !ended)
      ensures os.faults == old(os.faults) && ended ==>
                var all := old(Remaining());
                var k := NextLF(all);
                k < |all| && line == all[..k] && Remaining() == all[k + 1..]
      ensures os.faults == old(os.faults) && !ended ==>
                LineFree(line) && line == old(Remaining()) && Remaining() == []
      ensures os.faults != old(os.faults) ==> !ended && error != 0
      ensures os.faults >= old(os.faults)
    {
      hide NextLF, LineFree;
      ghost var all := Remaining();
      LineFreeIs([]);
      line := [];
      while true
        invariant Valid()
        invariant LineFree(line) && all == line + Remaining()
        invariant os.faults == old(os.faults) && error == old(error) && eof == old(eof)
        decreases |Remaining()|
      {
        var some := HaveSome();
        if !some {
          assert line + [] == line;
          return line, false;
        }
        line, ended := TakeWindow(line);
        if ended { return; }
      }
    }

    /** The body of that loop: the window up to its line feed, or all of it. */
    method TakeWindow(line: seq<byte>) returns (longer: seq<byte>, ended: bool)
      requires Valid() && mode == Read && pos < len && LineFree(line)
      modifies this`pos
      ensures Valid()
      ensures ended ==>
                var all := line + old(Remaining());
                var k := NextLF(all);
                k < |all| && longer == all[..k] && Remaining() == all[k + 1..]
      ensures !ended ==>
                && LineFree(longer) && longer + Remaining() == line + old(Remaining())
                && |Remaining()| < |old(Remaining())|
    {
      hide NextLF, LineFree;
      var count := FindLF();
      ghost var rest := Remaining();
      var window := buffer[pos..len];
      assert rest == window + os.incoming;
      longer := line + window[..count];
      ended := count < |window|;
      if ended {
        LineEnds(line, rest, window, count);
        WindowSplits(buffer[..], pos, len, os.incoming, count + 1);
        pos := pos + count + 1;
      } else {
        LineGoesOn(line, rest, window);
        WindowSplits(buffer[..], pos, len, os.incoming, count);
        assert window[..count] == window;
        pos := pos + count;
      }
    }

    // ----- writing -----

    /**
      `write`: accepted bytes are handed on in order or kept, never lost, doubled or reordered;
      a refused write may have sent on a prefix of what was pending followed by the block.
    */
    method WriteBytes(src: seq<byte>) returns (r: Call<bool>)
      requires Valid()
      modifies this`pos, this`error, os, buffer
      ensures Valid() && isOpen == old(isOpen) && os.incoming == old(os.incoming)
      ensures !isOpen ==> r == Returned(false)
      ensures isOpen ==> (r == LogicError <==> mode == Read)
      ensures !isOpen || mode == Read ==>
                && pos == old(pos) && error == old(error) && os.written == old(os.written)
                && buffer[..] == old(buffer[..]) && os.faults == old(os.faults)
      ensures isOpen && mode != Read ==> (r == Returned(true) <==> os.faults == old(os.faults))
      ensures isOpen && mode != Read && os.faults == old(os.faults) ==>
                && os.written + Pending() == old(os.written + Pending()) + src && error == old(error)
                && (|src| >= buffer.Length ==> Pending() == [])
      ensures isOpen && mode != Read && os.faults != old(os.faults) ==>
                && error != 0
                && PartWay(old(os.written), os.written, old(Pending()) + src)
      ensures os.faults >= old(os.faults)
    {
      if !isOpen { return Returned(false); }
      if mode == Read { return LogicError; }
      var ok;
      if |src| >= buffer.Length {
        ok := WriteLarge(src);
      } else {
        ok := WriteSmall(src);
      }
      r := Returned(ok);
    }

    /** A block as long as the buffer goes straight to the system. */
    method WriteLarge(src: seq<byte>) returns (ok: bool)
      requires Valid() && mode != Read
      modifies this`pos, this`error, os
      ensures Valid() && os.incoming == old(os.incoming)
      ensures ok <==> os.faults == old(os.faults)
      ensures ok ==> os.written == old(os.written + Pending()) + src && Pending() == [] && error == old(error)
      ensures !ok ==> error != 0 && PartWay(old(os.written), os.written, old(Pending()) + src)
      ensures os.faults >= old(os.faults)
    {
      ok := FlushBuffer();
      PartWayWithMore(old(os.written), os.written, old(Pending()), src);
      if !ok { return; }
      var err;
      ok, err := os.WriteAll(src);
      PartWayWithMore(old(os.written), os.written, old(Pending()), src);
      if !ok { error := err; }
    }

    /** A shorter one is buffered, after a flush where it does not fit. */
    method WriteSmall(src: seq<byte>) returns (ok: bool)
      requires Valid() && mode != Read && |src| < buffer.Length
      modifies this`pos, this`error, os, buffer
      ensures Valid() && os.incoming == old(os.incoming)
      ensures ok <==> os.faults == old(os.faults)
      ensures ok ==> os.written + Pending() == old(os.written + Pending()) + src && error == old(error)
      ensures !ok ==> error != 0 && PartWay(old(os.written), os.written, old(Pending()) + src)
      ensures os.faults >= old(os.faults)
    {
      ok := true;
      if pos + |src| > buffer.Length {
        ok := FlushBuffer();
        PartWayWithMore(old(os.written), os.written, old(Pending()), src);
        if !ok { return; }
      }
      ghost var pending := Pending();
      Copy(buffer, pos, src);
      pos := pos + |src|;
      assert Pending() == pending + src;
    }

    /** `flush`. */
    method Flush() returns (ok: bool)
      requires Valid()
      modifies this`pos, this`error, os
      ensures Valid() && isOpen == old(isOpen)
      ensures !isOpen || mode == Read ==>
                && ok == isOpen && pos == old(pos) && error == old(error)
                && os.written == old(os.written) && os.incoming == old(os.incoming) && os.faults == old(os.faults)
      ensures isOpen && mode != Read ==> (ok <==> os.faults == old(os.faults))
      ensures isOpen && mode != Read && ok ==> Pending() == [] && os.written == old(os.written + Pending())
      ensures isOpen && mode != Read && !ok ==>
                error != 0 && Pending() == old(Pending()) && PartWay(old(os.written), os.written, old(Pending()))
      ensures os.faults >= old(os.faults)
    {
      if !isOpen { return false; }
      if mode == Read { return true; }
      ok := FlushBuffer();
    }

    /** `close`: once only; what is pending goes out first, and is gone if it cannot. */
    method Close(closeError: int) returns (ok: bool)
      requires Valid()
      modifies this`pos, this`len, this`error, this`isOpen, os
      ensures Valid() && !isOpen && os.faults >= old(os.faults)
      ensures !old(isOpen) ==> ok && os.written == old(os.written) && error == old(error)
      ensures old(isOpen) ==> (ok <==> os.faults == old(os.faults) && closeError == 0)
      ensures old(isOpen) ==> pos == 0 && len == 0
      ensures old(isOpen) && !ok ==> error != 0
      ensures old(isOpen) && mode == Read ==> os.written == old(os.written) && os.faults == old(os.faults)
      ensures old(isOpen) && mode != Read && os.faults == old(os.faults) ==>
                os.written == old(os.written + Pending())
      ensures old(isOpen) && mode != Read && os.faults != old(os.faults) ==>
                PartWay(old(os.written), os.written, old(Pending()))
      ensures os.incoming == old(os.incoming) && (ok ==> error == old(error))
    {
      if !isOpen { return true; }
      ok := true;
      if mode != Read {
        ok := FlushBuffer();
      }
      if closeError != 0 {
        error := closeError;
        ok := false;
      }
      isOpen := false;
      pos, len := 0, 0;
    }
  }

  lemma PartWayWithMore(before: seq<byte>, now: seq<byte>, offered: seq<byte>, more: seq<byte>)
    ensures PartWay(before, now, offered) ==> PartWay(before, now, offered + more)
    ensures PartWay(before + offered, now, more) ==> PartWay(before, now, offered + more)
  {
    assert before + (offered + more) == before + offered + more;
    if PartWay(before, now, offered) {
      assert (before + offered)[..|now|] == (before + offered + more)[..|now|];
    }
  }

  lemma LineFreeIs(line: seq<byte>)
    ensures LineFree(line) <==> NextLF(line) == |line|
  {
    if LineFree(line) { NextLFIs(line, |line|); }
  }

  lemma LineEnds(line: seq<byte>, rest: seq<byte>, window: seq<byte>, count: nat)
    requires LineFree(line) && window <= rest
    requires count < |window| && count == NextLF(window)
    ensures var all := line + rest;
            && NextLF(all) == |line| + count < |all|
            && all[..|line| + count] == line + window[..count]
            && all[|line| + count + 1..] == rest[count + 1..]
  {
    hide NextLF;
    var all := line + rest;
    assert all[|line| + count] == rest[count] == window[count];
    assert forall i :: 0 <= i < |line| ==> line[i] != LF;
    assert forall i :: 0 <= i < |line| + count ==> all[i] == if i < |line| then line[i] else window[i - |line|];
    NextLFIs(all, |line| + count);
  }

  lemma LineGoesOn(line: seq<byte>, rest: seq<byte>, window: seq<byte>)
    requires LineFree(line) && window <= rest && NextLF(window) == |window|
    ensures LineFree(line + window)
    ensures line + rest == line + window + rest[|window|..]
  {
  }

  method Copy(dst: array<byte>, at: nat, src: seq<byte>)
    requires at + |src| <= dst.Length
    modifies dst
    ensures dst[..] == old(dst[..at]) + src + old(dst[at + |src|..])
  {
    forall i | 0 <= i < |src| { dst[at + i] := src[i]; }
  }

  lemma WindowSplits(buffer: seq<byte>, pos: nat, len: nat, incoming: seq<byte>, take: nat)
    requires pos + take <= len <= |buffer|
    ensures (buffer[pos..len] + incoming)[..take] == buffer[pos..pos + take]
    ensures (buffer[pos..len] + incoming)[take..] == buffer[pos + take..len] + incoming
  {
  }

  /** A block whose first `done` bytes came from the stream `all`, the others untouched. */
  ghost predicate Served(dst: seq<byte>, was: seq<byte>, all: seq<byte>, rest: seq<byte>, done: nat) {
    && done <= |was| && done <= |all|
    && dst == all[..done] + was[done..]
    && rest == all[done..]
  }

  lemma ServedStart(was: seq<byte>, all: seq<byte>)
    ensures Served(was, was, all, all, 0)
  {
  }

  lemma ServedEnd(dst: seq<byte>, was: seq<byte>, all: seq<byte>, rest: seq<byte>, done: nat)
    requires Served(dst, was, all, rest, done)
    ensures done <= |was| && done <= |all| && dst == all[..done] + was[done..] && rest == all[done..]
    ensures |rest| == |all| - done
  {
  }

  lemma ServedGrows(dst: seq<byte>, was: seq<byte>, all: seq<byte>, rest: seq<byte>, done: nat, take: nat)
    requires Served(dst, was, all, rest, done)
    requires take <= |rest| && done + take <= |was|
    ensures |dst| == |was|
    ensures Served(dst[..done] + rest[..take] + dst[done + take..], was, all, rest[take..], done + take)
  {
  }

  // ----- whole runs -----

  lemma FirstLine(bytes: seq<byte>)
    ensures var k := NextLF(bytes);
            && (k < |bytes| ==> Lines(bytes) == [FoldCR(bytes[..k])] + Lines(bytes[k + 1..]))
            && (k == |bytes| ==> Lines(bytes) == if bytes == [] then [] else [bytes])
            && Lines([]) == []
  {
  }

  /** Reading to the end, line by line: on an open reader without faults, the lines of the file. */
  method ReadLines(stream: FileStream) returns (lines: seq<seq<byte>>)
    requires stream.Valid() && stream.isOpen && stream.mode == Read && stream.error == 0
    modifies stream`pos, stream`len, stream`error, stream`eof, stream.os, stream.buffer
    ensures stream.Valid()
    ensures stream.os.faults == old(stream.os.faults) ==>
              lines == Lines(old(stream.Remaining())) && stream.Remaining() == [] && stream.error == 0
  {
    hide Lines, NextLF, FoldCR;
    ghost var all := stream.Remaining();
    lines := [];
    while true
      invariant stream.Valid() && stream.isOpen
      invariant stream.os.faults == old(stream.os.faults) && stream.error == 0
      invariant Lines(all) == lines + Lines(stream.Remaining())
      decreases |stream.Remaining()|
    {
      FirstLine(stream.Remaining());
      var answer := stream.ReadLine();
      if answer.value == None { return; }
      lines := lines + [answer.value.value];
    }
  }

  /** A reader's script: blocks of any size and lines, in any order. */
  datatype Request = Block(size: nat) | Line

  /** The bytes one request takes off the front of a file. */
  function Taken(request: Request, rest: seq<byte>): (n: nat)
    ensures n <= |rest|
  {
    match request
    case Block(size) => if size < |rest| then size else |rest|
    case Line => if NextLF(rest) < |rest| then NextLF(rest) + 1 else |rest|
  }

  function Answer(request: Request, rest: seq<byte>): Option<seq<byte>> {
    match request
    case Block(_) => Some(rest[..Taken(request, rest)])
    case Line =>
      if NextLF(rest) < |rest| then Some(FoldCR(rest[..NextLF(rest)]))
      else if rest == [] then None
      else Some(rest)
  }

  function Answers(requests: seq<Request>, all: seq<byte>): seq<Option<seq<byte>>> {
    if requests == [] then []
    else [Answer(requests[0], all)] + Answers(requests[1..], all[Taken(requests[0], all)..])
  }

  /** The stretches of the file the requests take, one after the other. */
  function Stretches(requests: seq<Request>, all: seq<byte>): seq<seq<byte>> {
    if requests == [] then []
    else [all[..Taken(requests[0], all)]] + Stretches(requests[1..], all[Taken(requests[0], all)..])
  }

  function Left(requests: seq<Request>, all: seq<byte>): seq<byte> {
    if requests == [] then all else Left(requests[1..], all[Taken(requests[0], all)..])
  }

  function Concat(blocks: seq<seq<byte>>): seq<byte> {
    if blocks == [] then [] else blocks[0] + Concat(blocks[1..])
  }

  /** An answer is the stretch it was read from, up to the line ending of a line. */
  predicate Tells(answer: Option<seq<byte>>, stretch: seq<byte>) {
    match answer
    case None => stretch == []
    case Some(bytes) => stretch == bytes || stretch == bytes + [LF] || stretch == bytes + [CR, LF]
  }

  /** Any script reads the file in order: no byte skipped, none read twice. */
  lemma {:induction false} NothingSkipped(requests: seq<Request>, all: seq<byte>)
    ensures |Answers(requests, all)| == |Stretches(requests, all)| == |requests|
    ensures Concat(Stretches(requests, all)) + Left(requests, all) == all
    ensures forall i :: 0 <= i < |requests| ==> Tells(Answers(requests, all)[i], Stretches(requests, all)[i])
  {
    if requests != [] {
      var n := Taken(requests[0], all);
      NothingSkipped(requests[1..], all[n..]);
      assert all == all[..n] + all[n..];
      AnswerTells(requests[0], all);
    }
  }

  lemma AnswerTells(request: Request, rest: seq<byte>)
    ensures Tells(Answer(request, rest), rest[..Taken(request, rest)])
  {
    var k := NextLF(rest);
    if request == Line && k < |rest| {
      assert rest[..k + 1] == rest[..k] + [LF];
      if k > 0 && rest[k - 1] == CR {
        assert rest[..k + 1] == rest[..k - 1] + [CR, LF];
      }
    }
  }

  method ServeOne(stream: FileStream, request: Request) returns (answer: Option<seq<byte>>)
    requires stream.Valid() && stream.isOpen && stream.mode == Read && stream.error == 0
    modifies stream`pos, stream`len, stream`error, stream`eof, stream.os, stream.buffer
    ensures stream.Valid() && stream.isOpen
    ensures stream.os.faults == old(stream.os.faults) ==>
              && stream.error == 0
              && answer == Answer(request, old(stream.Remaining()))
              && stream.Remaining() == old(stream.Remaining())[Taken(request, old(stream.Remaining()))..]
    ensures stream.os.faults != old(stream.os.faults) ==> stream.error != 0
  {
    match request
    case Line =>
      var line := stream.ReadLine();
      answer := line.value;
    case Block(size) =>
      var dst := new byte[size];
      var n;
      ghost var consumed;
      n, consumed := stream.ReadInto(dst);
      answer := if n.value == None then None else Some(dst[..n.value.value]);
  }

  /** A script run on a stream without faults gets the answers the file alone determines. */
  method Serve(stream: FileStream, requests: seq<Request>) returns (answers: seq<Option<seq<byte>>>)
    requires stream.Valid() && stream.isOpen && stream.mode == Read && stream.error == 0
    modifies stream`pos, stream`len, stream`error, stream`eof, stream.os, stream.buffer
    ensures stream.Valid()
    ensures stream.os.faults == old(stream.os.faults) ==>
              && answers == Answers(requests, old(stream.Remaining()))
              && stream.Remaining() == Left(requests, old(stream.Remaining()))
  {
    hide Answer, Taken;
    ghost var all := stream.Remaining();
    answers := [];
    var i: nat := 0;
    while i < |requests|
      invariant i <= |requests| && stream.Valid() && stream.isOpen
      invariant stream.os.faults == old(stream.os.faults) && stream.error == 0
      invariant Answers(requests, all) == answers + Answers(requests[i..], stream.Remaining())
      invariant Left(requests, all) == Left(requests[i..], stream.Remaining())
    {
      assert requests[i..][1..] == requests[i + 1..];
      var answer := ServeOne(stream, requests[i]);
      if stream.error != 0 { return; }
      answers := answers + [answer];
      i := i + 1;
    }
  }

  /** Blocks of any sizes written and the stream closed: if all went well, the file is their join. */
  method WriteAndClose(stream: FileStream, blocks: seq<seq<byte>>, closeError: int) returns (ok: bool)
    requires stream.Valid() && stream.isOpen && stream.mode != Read
    modifies stream`pos, stream`len, stream`error, stream`isOpen, stream.os, stream.buffer
    ensures ok ==> stream.os.written == old(stream.os.written + stream.Pending()) + Concat(blocks)
    ensures ok <==> stream.os.faults == old(stream.os.faults) && closeError == 0
    ensures stream.Valid() && !stream.isOpen
  {
    ghost var start := stream.os.written + stream.Pending();
    var i: nat := 0;
    var accepted := true;
    while i < |blocks|
      invariant i <= |blocks| && stream.Valid() && stream.isOpen
      invariant stream.os.faults >= old(stream.os.faults)
      invariant accepted <==> stream.os.faults == old(stream.os.faults)
      invariant accepted ==> start + Concat(blocks) == stream.os.written + stream.Pending() + Concat(blocks[i..])
    {
      var answer := stream.WriteBytes(blocks[i]);
      accepted := accepted && answer.value;
      assert blocks[i..][1..] == blocks[i + 1..];
      i := i + 1;
    }
    ok := stream.Close(closeError);
    ok := ok && accepted;
  }
}
