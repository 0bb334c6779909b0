/**
  FNV-1a and MurmurHash3.  Every mixing step is undone by another step, so a difference in one
  place cannot cancel: the hash is one-to-one in any single byte, block or tail.
*/
module HashMixing {
  type Bytes = seq<bv8>

  /** The two inputs have one length and agree everywhere outside `lo..hi`. */
  predicate DifferOnlyIn(x: Bytes, y: Bytes, lo: nat, hi: nat) {
    |x| == |y| && forall i :: 0 <= i < |x| && !(lo <= i < hi) ==> x[i] == y[i]
  }

  // ----- multiplication modulo 2^32 and 2^64: every odd constant has an inverse -----

  function TimesPrime(x: bv32): bv32 { x * 0x01000193 }
  function OverPrime(x: bv32): bv32 { x * 0x359c449b }

  function TimesPrime64(x: bv64): bv64 { x * 0x100000001b3 }
  function OverPrime64(x: bv64): bv64 { x * 0xce965057aff6957b }

  function TimesC1(x: bv32): bv32 { x * 0xcc9e2d51 }
  function OverC1(x: bv32): bv32 { x * 0xdee13bb1 }

  function TimesC2(x: bv32): bv32 { x * 0x1b873593 }
  function OverC2(x: bv32): bv32 { x * 0x56ed309b }

  function TimesFive(x: bv32): bv32 { x * 5 }
  function OverFive(x: bv32): bv32 { x * 0xcccccccd }

  function TimesF1(x: bv32): bv32 { x * 0x85ebca6b }
  function OverF1(x: bv32): bv32 { x * 0xa5cb9243 }

  function TimesF2(x: bv32): bv32 { x * 0xc2b2ae35 }
  function OverF2(x: bv32): bv32 { x * 0x7ed1b41d }

  lemma PrimeProduct(x: bv32)
    ensures OverPrime(x * 0x01000193) == x
  {
  }

  lemma PrimeUndone(x: bv32)
    ensures OverPrime(TimesPrime(x)) == x
  {
    hide OverPrime;
    PrimeProduct(x);
  }

  lemma Prime64Product(x: bv64)
    ensures OverPrime64(x * 0x100000001b3) == x
  {
  }

  lemma Prime64Undone(x: bv64)
    ensures OverPrime64(TimesPrime64(x)) == x
  {
    hide OverPrime64;
    Prime64Product(x);
  }

  lemma C1Product(x: bv32)
    ensures OverC1(x * 0xcc9e2d51) == x
  {
  }

  lemma C1Undone(x: bv32)
    ensures OverC1(TimesC1(x)) == x
  {
    hide OverC1;
    C1Product(x);
  }

  lemma C2Product(x: bv32)
    ensures OverC2(x * 0x1b873593) == x
  {
  }

  lemma C2Undone(x: bv32)
    ensures OverC2(TimesC2(x)) == x
  {
    hide OverC2;
    C2Product(x);
  }

  lemma FiveProduct(x: bv32)
    ensures OverFive(x * 5) == x
  {
  }

  lemma FiveUndone(x: bv32)
    ensures OverFive(TimesFive(x)) == x
  {
    hide OverFive;
    FiveProduct(x);
  }

  lemma F1Product(x: bv32)
    ensures OverF1(x * 0x85ebca6b) == x
  {
  }

  lemma F1Undone(x: bv32)
    ensures OverF1(TimesF1(x)) == x
  {
    hide OverF1;
    F1Product(x);
  }

  lemma F2Product(x: bv32)
    ensures OverF2(x * 0xc2b2ae35) == x
  {
  }

  lemma F2Undone(x: bv32)
    ensures OverF2(TimesF2(x)) == x
  {
    hide OverF2;
    F2Product(x);
  }

  function Xor(a: bv32, b: bv32): bv32 { a ^ b }

  lemma XorBack(a: bv32, b: bv32)
    ensures Xor(Xor(a, b), a) == b
    ensures Xor(Xor(a, b), b) == a
  {
  }

  lemma XorCancels(a: bv32, b: bv32, c: bv32, d: bv32)
    requires Xor(a, b) == Xor(c, d)
    ensures a == c ==> b == d
    ensures b == d ==> a == c
  {
    hide Xor;
    XorBack(a, b);
    XorBack(c, d);
  }

  function Xor64(a: bv64, b: bv64): bv64 { a ^ b }

  lemma XorBack64(a: bv64, b: bv64)
    ensures Xor64(Xor64(a, b), a) == b
    ensures Xor64(Xor64(a, b), b) == a
  {
  }

  lemma XorCancels64(a: bv64, b: bv64, c: bv64, d: bv64)
    requires Xor64(a, b) == Xor64(c, d)
    ensures a == c ==> b == d
    ensures b == d ==> a == c
  {
    hide Xor64;
    XorBack64(a, b);
    XorBack64(c, d);
  }

  // ----- FNV-1a, 32 bits -----

  function Fnv32Step(hash: bv32, b: bv8): bv32 {
    TimesPrime(Xor(hash, b as bv32))
  }

  function Fnv32(data: Bytes): bv32 {
    if data == [] then 0x811c9dc5 else Fnv32Step(Fnv32(data[..|data| - 1]), data[|data| - 1])
  }

  /** `fnv1a_32`. */
  method Fnv1a32(data: Bytes) returns (hash: bv32)
    ensures hash == Fnv32(data)
  {
    hide TimesPrime, Xor;
    hash := 0x811c9dc5;
    for i := 0 to |data|
      invariant hash == Fnv32(data[..i])
    {
      assert data[..i + 1][..i] == data[..i];
      hash := Xor(hash, data[i] as bv32);
      hash := TimesPrime(hash);
    }
    assert data[..|data|] == data;
  }

  lemma Fnv32StepOneToOne(h: bv32, b: bv8, h': bv32, b': bv8)
    requires Fnv32Step(h, b) == Fnv32Step(h', b')
    ensures b == b' ==> h == h'
    ensures h == h' ==> b == b'
  {
    hide TimesPrime, OverPrime, Xor;
    PrimeUndone(Xor(h, b as bv32));
    PrimeUndone(Xor(h', b' as bv32));
    XorCancels(h, b as bv32, h', b' as bv32);
    Widened(b, b');
  }

  lemma Widened(b: bv8, c: bv8)
    ensures b as bv32 == c as bv32 ==> b == c
    ensures b as bv64 == c as bv64 ==> b == c
  {
  }

  /** Two inputs of one length that differ in one byte never collide. */
  lemma {:induction false} Fnv32OneByte(x: Bytes, y: Bytes, at: nat)
    requires DifferOnlyIn(x, y, at, at + 1) && Fnv32(x) == Fnv32(y)
    ensures x == y
  {
    hide Fnv32Step;
    if x != [] {
      var n := |x| - 1;
      Fnv32StepOneToOne(Fnv32(x[..n]), x[n], Fnv32(y[..n]), y[n]);
      if at < n {
        Fnv32OneByte(x[..n], y[..n], at);
      } else {
        assert x[..n] == y[..n];
      }
      assert x == x[..n] + [x[n]] && y == y[..n] + [y[n]];
    }
  }

  // ----- FNV-1a, 64 bits -----

  function Fnv64Step(hash: bv64, b: bv8): bv64 {
    TimesPrime64(Xor64(hash, b as bv64))
  }

  function Fnv64(data: Bytes): bv64 {
    if data == [] then 0xcbf29ce484222325 else Fnv64Step(Fnv64(data[..|data| - 1]), data[|data| - 1])
  }

  /** `fnv1a_64`. */
  method Fnv1a64(data: Bytes) returns (hash: bv64)
    ensures hash == Fnv64(data)
  {
    hide TimesPrime64, Xor64;
    hash := 0xcbf29ce484222325;
    for i := 0 to |data|
      invariant hash == Fnv64(data[..i])
    {
      assert data[..i + 1][..i] == data[..i];
      hash := Xor64(hash, data[i] as bv64);
      hash := TimesPrime64(hash);
    }
    assert data[..|data|] == data;
  }

  lemma Fnv64StepOneToOne(h: bv64, b: bv8, h': bv64, b': bv8)
    requires Fnv64Step(h, b) == Fnv64Step(h', b')
    ensures b == b' ==> h == h'
    ensures h == h' ==> b == b'
  {
    hide TimesPrime64, OverPrime64, Xor64;
    Prime64Undone(Xor64(h, b as bv64));
    Prime64Undone(Xor64(h', b' as bv64));
    XorCancels64(h, b as bv64, h', b' as bv64);
    Widened(b, b');
  }

  lemma {:induction false} Fnv64OneByte(x: Bytes, y: Bytes, at: nat)
    requires DifferOnlyIn(x, y, at, at + 1) && Fnv64(x) == Fnv64(y)
    ensures x == y
  {
    hide Fnv64Step;
    if x != [] {
      var n := |x| - 1;
      Fnv64StepOneToOne(Fnv64(x[..n]), x[n], Fnv64(y[..n]), y[n]);
      if at < n {
        Fnv64OneByte(x[..n], y[..n], at);
      } else {
        assert x[..n] == y[..n];
      }
      assert x == x[..n] + [x[n]] && y == y[..n] + [y[n]];
    }
  }

  // ----- MurmurHash3, x86, 32 bits -----

  /** Four bytes, the first the least significant. */
  function Word(b0: bv8, b1: bv8, b2: bv8, b3: bv8): bv32 {
    b0 as bv32 | (b1 as bv32 << 8) | (b2 as bv32 << 16) | (b3 as bv32 << 24)
  }

  function Rotated15(x: bv32): bv32 { (x << 15) | (x >> 17) }

  function Rotated13(x: bv32): bv32 { (x << 13) | (x >> 19) }

  function Shifted16(x: bv32): bv32 { x ^ (x >> 16) }

  function Shifted13(x: bv32): bv32 { x ^ (x >> 13) }

  function Scramble(k: bv32): bv32 { TimesC2(Rotated15(TimesC1(k))) }

  function Stir(h: bv32): bv32 { TimesFive(Rotated13(h)) + 0xe6546b64 }

  function Mix(h: bv32, k: bv32): bv32 { Stir(Xor(h, Scramble(k))) }

  function Finish(h: bv32): bv32 { Shifted16(TimesF2(Shifted13(TimesF1(Shifted16(h))))) }

  function Block(data: Bytes, i: nat): bv32
    requires 4 * i + 4 <= |data|
  {
    Word(data[4 * i], data[4 * i + 1], data[4 * i + 2], data[4 * i + 3])
  }

  /** The state after the first `n` blocks. */
  function Body(data: Bytes, seed: bv32, n: nat): bv32
    requires 4 * n <= |data|
  {
    if n == 0 then seed else Mix(Body(data, seed, n - 1), Block(data, n - 1))
  }

  /** The bytes after the last whole block, highest first, as one number. */
  function High(tail: Bytes): bv32 { if |tail| > 2 then Xor(0, At16(tail[2])) else 0 }

  function Middle(tail: Bytes): bv32 { if |tail| > 1 then Xor(High(tail), At8(tail[1])) else High(tail) }

  function TailWord(tail: Bytes): bv32 { if |tail| > 0 then Xor(Middle(tail), At0(tail[0])) else 0 }

  /** A byte in its place in a word. */
  function At0(b: bv8): bv32 { b as bv32 }

  function At8(b: bv8): bv32 { b as bv32 << 8 }

  function At16(b: bv8): bv32 { b as bv32 << 16 }

  function Length32(data: Bytes): bv32 { (|data| % 0x1_0000_0000) as bv32 }

  function Murmur(data: Bytes, seed: bv32): bv32 {
    var n := |data| / 4;
    Finish(Xor(Xor(Body(data, seed, n), Scramble(TailWord(data[4 * n..]))), Length32(data)))
  }

  lemma NothingScrambled(h: bv32)
    ensures Xor(h, Scramble(0)) == h
  {
  }

  /** `murmur3_x86_32`. */
  method Murmur3X86(data: Bytes, seed: bv32) returns (h1: bv32)
    ensures h1 == Murmur(data, seed)
  {
    hide Length32, Xor, Scramble, Stir, TailWord;
    var blocks := |data| / 4;
    h1 := seed;
    for i := 0 to blocks
      invariant h1 == Body(data, seed, i)
    {
      var j := i * 4;
      var k1 := data[j] as bv32 | (data[j + 1] as bv32 << 8) | (data[j + 2] as bv32 << 16) | (data[j + 3] as bv32 << 24);
      k1 := MixedBlock(k1);
      h1 := Xor(h1, k1);
      h1 := Stirred(h1);
    }
    var tail := blocks * 4;
    assert data[tail..] == data[4 * blocks..];
    h1 := MixTail(h1, data, tail);
    h1 := Xor(h1, Length32(data));
    h1 := Shifted16(h1);
    h1 := TimesF1(h1);
    h1 := Shifted13(h1);
    h1 := TimesF2(h1);
    h1 := Shifted16(h1);
  }

  method MixedBlock(k: bv32) returns (k1: bv32)
    ensures k1 == Scramble(k)
  {
    hide TimesC1, TimesC2, Rotated15;
    k1 := TimesC1(k);
    k1 := Rotated15(k1);
    k1 := TimesC2(k1);
  }

  method Stirred(h: bv32) returns (h1: bv32)
    ensures h1 == Stir(h)
  {
    hide TimesFive, Rotated13;
    h1 := Rotated13(h);
    h1 := TimesFive(h1) + 0xe6546b64;
  }

  /** The `switch` on the bytes left over, each case falling through to the next. */
  method MixTail(h: bv32, data: Bytes, tail: nat) returns (h1: bv32)
    requires tail <= |data| < tail + 4
    ensures h1 == Xor(h, Scramble(TailWord(data[tail..])))
  {
    hide Xor, Scramble, At0, At8, At16;
    h1 := h;
    var k1: bv32 := 0;
    var left := |data| - tail;
    if left >= 3 { k1 := Xor(k1, At16(data[tail + 2])); }
    if left >= 2 { k1 := Xor(k1, At8(data[tail + 1])); }
    if left >= 1 {
      k1 := Xor(k1, At0(data[tail]));
      k1 := MixedBlock(k1);
      h1 := Xor(h1, k1);
    } else {
      NothingScrambled(h);
    }
  }

  // ----- each step undone -----

  function Unrotated15(y: bv32): bv32 { (y << 17) | (y >> 15) }

  function Unrotated13(y: bv32): bv32 { (y << 19) | (y >> 13) }

  function Unshifted16(y: bv32): bv32 { y ^ (y >> 16) }

  function Unshifted13(y: bv32): bv32 { y ^ (y >> 13) ^ (y >> 26) }

  lemma RotationsUndone(x: bv32)
    ensures Unrotated15(Rotated15(x)) == x
    ensures Unrotated13(Rotated13(x)) == x
  {
  }

  lemma ShiftsUndone(x: bv32)
    ensures Unshifted16(Shifted16(x)) == x
    ensures Unshifted13(Shifted13(x)) == x
  {
    Shift16Undone(x);
    Shift13Undone(x);
  }

  lemma Shift16Undone(x: bv32)
    ensures Unshifted16(Shifted16(x)) == x
  {
    assert Unshifted16(x ^ (x >> 16)) == x;
  }

  lemma Shift13Undone(x: bv32)
    ensures Unshifted13(Shifted13(x)) == x
  {
    assert Unshifted13(x ^ (x >> 13)) == x;
  }

  function Unscramble(k: bv32): bv32 { OverC1(Unrotated15(OverC2(k))) }

  function Unstir(h: bv32): bv32 { Unrotated13(OverFive(h - 0xe6546b64)) }

  function Unfinish(h: bv32): bv32 { Unshifted16(OverF1(Unshifted13(OverF2(Unshifted16(h))))) }

  lemma ScrambleUndone(k: bv32)
    ensures Unscramble(Scramble(k)) == k
  {
    hide TimesC1, TimesC2, OverC1, OverC2, Rotated15, Unrotated15;
    var p := TimesC1(k);
    C1Undone(k);
    RotationsUndone(p);
    C2Undone(Rotated15(p));
  }

  lemma StirUndone(h: bv32)
    ensures Unstir(Stir(h)) == h
  {
    hide TimesFive, OverFive, Rotated13, Unrotated13;
    RotationsUndone(h);
    FiveUndone(Rotated13(h));
    Added(TimesFive(Rotated13(h)));
  }

  lemma Added(x: bv32)
    ensures x + 0xe6546b64 - 0xe6546b64 == x
  {
  }

  lemma FinishUndone(h: bv32)
    ensures Unfinish(Finish(h)) == h
  {
    hide TimesF1, TimesF2, OverF1, OverF2, Shifted16, Shifted13, Unshifted13, Unshifted16;
    var x1 := Shifted16(h);
    var h1 := TimesF1(x1);
    var x2 := Shifted13(h1);
    ShiftsUndone(h);
    F1Undone(x1);
    ShiftsUndone(h1);
    F2Undone(x2);
    ShiftsUndone(TimesF2(x2));
  }

  /** A block step is one-to-one in the state and one-to-one in the block. */
  lemma MixOneToOne(h: bv32, k: bv32, h': bv32, k': bv32)
    requires Mix(h, k) == Mix(h', k')
    ensures k == k' ==> h == h'
    ensures h == h' ==> k == k'
  {
    hide Stir, Unstir, Scramble, Unscramble, Xor;
    StirUndone(Xor(h, Scramble(k)));
    StirUndone(Xor(h', Scramble(k')));
    XorCancels(h, Scramble(k), h', Scramble(k'));
    ScrambleUndone(k);
    ScrambleUndone(k');
  }

  lemma WordOneToOne(b0: bv8, b1: bv8, b2: bv8, b3: bv8, c0: bv8, c1: bv8, c2: bv8, c3: bv8)
    requires Word(b0, b1, b2, b3) == Word(c0, c1, c2, c3)
    ensures b0 == c0 && b1 == c1 && b2 == c2 && b3 == c3
  {
  }

  lemma BlockOneToOne(x: Bytes, y: Bytes, j: nat)
    requires |x| == |y| && 4 * j + 4 <= |x| && Block(x, j) == Block(y, j)
    ensures x[4 * j..4 * j + 4] == y[4 * j..4 * j + 4]
  {
    WordOneToOne(x[4 * j], x[4 * j + 1], x[4 * j + 2], x[4 * j + 3], y[4 * j], y[4 * j + 1], y[4 * j + 2], y[4 * j + 3]);
  }

  function Low8(w: bv32): bv32 { w & 0xff }

  function Low16(w: bv32): bv32 { w & 0xffff }

  /** Bits below a multiple of a power of two survive the exclusive or. */
  lemma LowBits(p: bv32, b: bv8)
    ensures Low8(p) == 0 ==> Low8(Xor(p, At0(b))) == At0(b)
    ensures Low16(p) == 0 ==> Low16(Xor(p, At8(b))) == At8(b) && Low8(Xor(p, At8(b))) == 0
    ensures Low16(p) == 0 ==> Low8(p) == 0
    ensures Low16(Xor(0, At16(b))) == 0 && Low16(0) == 0
  {
  }

  lemma BytesInPlace(b: bv8, c: bv8)
    ensures At0(b) == At0(c) ==> b == c
    ensures At8(b) == At8(c) ==> b == c
    ensures At16(b) == At16(c) ==> b == c
  {
  }

  lemma TailOneToOne(x: Bytes, y: Bytes)
    requires |x| == |y| < 4 && TailWord(x) == TailWord(y)
    ensures x == y
  {
    hide Xor, Low8, Low16, At0, At8, At16, High, Middle;
    if |x| > 0 {
      MiddleOneToOne(x, y);
      LowBits(Middle(x), x[0]);
      LowBits(Middle(y), y[0]);
      BytesInPlace(x[0], y[0]);
      XorCancels(Middle(x), At0(x[0]), Middle(y), At0(y[0]));
    }
  }

  lemma MiddleOneToOne(x: Bytes, y: Bytes)
    requires |x| == |y| < 4
    ensures Low8(Middle(x)) == 0 && Low8(Middle(y)) == 0
    ensures Middle(x) == Middle(y) ==> forall i :: 1 <= i < |x| ==> x[i] == y[i]
  {
    hide Xor, Low8, Low16, At0, At8, At16, High;
    HighOneToOne(x, y);
    LowBits(High(x), 0);
    LowBits(High(y), 0);
    if |x| > 1 {
      LowBits(High(x), x[1]);
      LowBits(High(y), y[1]);
      BytesInPlace(x[1], y[1]);
      if Middle(x) == Middle(y) {
        XorCancels(High(x), At8(x[1]), High(y), At8(y[1]));
      }
    }
  }

  lemma HighOneToOne(x: Bytes, y: Bytes)
    requires |x| == |y| < 4
    ensures Low16(High(x)) == 0 && Low16(High(y)) == 0
    ensures High(x) == High(y) ==> forall i :: 2 <= i < |x| ==> x[i] == y[i]
  {
    hide Xor, Low8, Low16, At0, At8, At16;
    LowBits(0, 0);
    if |x| > 2 {
      LowBits(0, x[2]);
      LowBits(0, y[2]);
      BytesInPlace(x[2], y[2]);
      if High(x) == High(y) {
        XorCancels(0, At16(x[2]), 0, At16(y[2]));
      }
    }
  }

  /** The state after `n` blocks tells the seed, given the blocks, and any one block, given the rest. */
  lemma {:induction false} BodyOneToOne(x: Bytes, y: Bytes, s: bv32, t: bv32, n: nat, j: nat)
    requires |x| == |y| && 4 * n <= |x| && Body(x, s, n) == Body(y, t, n)
    requires forall i :: 0 <= i < n && i != j ==> Block(x, i) == Block(y, i)
    ensures (j < n ==> Block(x, j) == Block(y, j)) ==> s == t
    ensures s == t && j < n ==> Block(x, j) == Block(y, j)
  {
    hide Mix, Block;
    if n > 0 {
      MixOneToOne(Body(x, s, n - 1), Block(x, n - 1), Body(y, t, n - 1), Block(y, n - 1));
      if j == n - 1 {
        if s == t { SameBody(x, y, s, n - 1); }
        if Block(x, j) == Block(y, j) { BodyOneToOne(x, y, s, t, n - 1, j); }
      } else {
        BodyOneToOne(x, y, s, t, n - 1, j);
      }
    }
  }

  lemma {:induction false} SameBody(x: Bytes, y: Bytes, seed: bv32, n: nat)
    requires |x| == |y| && 4 * n <= |x|
    requires forall i :: 0 <= i < n ==> Block(x, i) == Block(y, i)
    ensures Body(x, seed, n) == Body(y, seed, n)
  {
    hide Block;
    if n > 0 { SameBody(x, y, seed, n - 1); }
  }

  lemma FinishOneToOne(h: bv32, h': bv32)
    requires Finish(h) == Finish(h')
    ensures h == h'
  {
    hide Finish, Unfinish;
    FinishUndone(h);
    FinishUndone(h');
  }

  /** What equal hashes of inputs of one length say about the states before the tail. */
  lemma BeforeFinish(x: Bytes, y: Bytes, s: bv32, t: bv32)
    requires |x| == |y| && Murmur(x, s) == Murmur(y, t)
    ensures var n := |x| / 4;
            && (x[4 * n..] == y[4 * n..] ==> Body(x, s, n) == Body(y, t, n))
            && (Body(x, s, n) == Body(y, t, n) ==> x[4 * n..] == y[4 * n..])
  {
    hide Finish, Scramble, Unscramble, Body, TailWord, Length32, Xor;
    var n := |x| / 4;
    var b, c := Body(x, s, n), Body(y, t, n);
    var k, l := TailWord(x[4 * n..]), TailWord(y[4 * n..]);
    FinishOneToOne(Xor(Xor(b, Scramble(k)), Length32(x)), Xor(Xor(c, Scramble(l)), Length32(y)));
    assert Length32(x) == Length32(y) by { SameLength32(x, y); }
    XorCancels(Xor(b, Scramble(k)), Length32(x), Xor(c, Scramble(l)), Length32(y));
    XorCancels(b, Scramble(k), c, Scramble(l));
    ScrambleUndone(k);
    ScrambleUndone(l);
    if k == l { TailOneToOne(x[4 * n..], y[4 * n..]); }
  }

  lemma SameLength32(x: Bytes, y: Bytes)
    requires |x| == |y|
    ensures Length32(x) == Length32(y)
  {
  }

  /**
    Two inputs of one length that differ only inside one aligned block of four bytes, or only
    inside the tail, never collide, whatever the seed.
  */
  lemma OneBlockNeverCollides(x: Bytes, y: Bytes, seed: bv32, j: nat)
    requires j <= |x| / 4 && DifferOnlyIn(x, y, 4 * j, 4 * j + 4)
    requires Murmur(x, seed) == Murmur(y, seed)
    ensures x == y
  {
    hide Murmur, Body, Block;
    var n := |x| / 4;
    BeforeFinish(x, y, seed, seed);
    forall i | 0 <= i < n && i != j ensures Block(x, i) == Block(y, i) { SameBlock(x, y, i); }
    if j < n {
      assert x[4 * n..] == y[4 * n..];
      BodyOneToOne(x, y, seed, seed, n, j);
      BlockOneToOne(x, y, j);
      SameInside(x, y, 4 * j, 4 * j + 4);
    } else {
      SameBody(x, y, seed, n);
      SameInside(x, y, 4 * n, |x|);
    }
  }

  lemma SameInside(x: Bytes, y: Bytes, lo: nat, hi: nat)
    requires lo <= hi <= |x| == |y| && x[lo..hi] == y[lo..hi]
    requires forall i :: 0 <= i < |x| && !(lo <= i < hi) ==> x[i] == y[i]
    ensures x == y
  {
    forall i | 0 <= i < |x| ensures x[i] == y[i] {
      if lo <= i < hi { assert x[lo..hi][i - lo] == y[lo..hi][i - lo]; }
    }
  }

  lemma SameBlock(x: Bytes, y: Bytes, i: nat)
    requires |x| == |y| && 4 * i + 4 <= |x|
    requires forall k :: 4 * i <= k < 4 * i + 4 ==> x[k] == y[k]
    ensures Block(x, i) == Block(y, i)
  {
  }

  /** Different seeds give any input different hashes. */
  lemma SeedsNeverCollide(data: Bytes, s: bv32, t: bv32)
    requires Murmur(data, s) == Murmur(data, t)
    ensures s == t
  {
    hide Murmur, Body;
    BeforeFinish(data, data, s, t);
    BodyOneToOne(data, data, s, t, |data| / 4, |data| / 4);
  }
}
