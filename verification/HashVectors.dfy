/**
  The numbers behind the mixing: byte order as arithmetic, and published values of the hashes,
  which no other constants, rotations or byte order would give.
*/
module HashVectors {
  import opened HashMixing

  /** Little-endian: the first byte counts for one, the next for 2^8, and so on. */
  lemma WordIsNumber(b0: bv8, b1: bv8, b2: bv8, b3: bv8)
    ensures Word(b0, b1, b2, b3)
         == b0 as bv32 + b1 as bv32 * 0x100 + b2 as bv32 * 0x1_0000 + b3 as bv32 * 0x100_0000
  {
  }

  /** The tail too, the bytes that are not there counting nothing. */
  lemma TailWordIsNumber(b0: bv8, b1: bv8, b2: bv8)
    ensures TailWord([b0, b1, b2]) == b0 as bv32 + b1 as bv32 * 0x100 + b2 as bv32 * 0x1_0000
  {
    XorIsSum(b0 as bv32, b1 as bv32, b2 as bv32);
    PlacesAre(b0, b1, b2);
  }

  lemma PlacesAre(b0: bv8, b1: bv8, b2: bv8)
    ensures At0(b0) == b0 as bv32 && At8(b1) == b1 as bv32 * 0x100 && At16(b2) == b2 as bv32 * 0x1_0000
    ensures b0 as bv32 < 0x100 && b1 as bv32 < 0x100 && b2 as bv32 < 0x100
  {
  }

  lemma XorIsSum(x: bv32, y: bv32, z: bv32)
    requires x < 0x100 && y < 0x100 && z < 0x100
    ensures (z * 0x1_0000) ^ (y * 0x100) ^ x == x + y * 0x100 + z * 0x1_0000
  {
  }

  /** 64-bit and 32-bit FNV-1a of "" and "a". */
  lemma FnvVectors()
    ensures Fnv64([]) == 0xcbf29ce484222325 && Fnv64([0x61]) == 0xaf63dc4c8601ec8c
    ensures Fnv32([]) == 0x811c9dc5 && Fnv32([0x61]) == 0xe40c292c
  {
    var a: Bytes := [0x61];
    assert a[..0] == [];
    assert Fnv32Step(0x811c9dc5, 0x61) == 0xe40c292c;
    assert Fnv64Step(0xcbf29ce484222325, 0x61) == 0xaf63dc4c8601ec8c;
  }

  // ----- MurmurHash3 of "hello", one block and a tail of one byte, and of "abc", a tail of three -----

  const Hello: Bytes := [0x68, 0x65, 0x6c, 0x6c, 0x6f]
  const Abc: Bytes := [0x61, 0x62, 0x63]

  lemma HelloParts()
    ensures |Hello| == 5 && Hello[4..] == [0x6f] && Block(Hello, 0) == 0x6c6c6568
    ensures TailWord([0x6f]) == 0x6f && Length32(Hello) == 5
  {
  }

  lemma HelloScrambled()
    ensures Scramble(0x6c6c6568) == 0xa0ae7465 && Scramble(0x6f) == 0x73bcd07e
  {
  }

  lemma HelloMixed()
    ensures Mix(0, 0x6c6c6568) == 0xef13efcd
  {
    hide Scramble;
    HelloScrambled();
    assert Xor(0, 0xa0ae7465) == 0xa0ae7465;
    assert Stir(0xa0ae7465) == 0xef13efcd;
  }

  lemma HelloXored()
    ensures Xor(0xef13efcd, 0x73bcd07e) == 0x9caf3fb3 && Xor(0x9caf3fb3, 5) == 0x9caf3fb6
  {
  }

  lemma Finished()
    ensures Finish(0x9caf3fb6) == 0x248bfa47 && Finish(0xa7349db4) == 0xb3dd93fa
  {
  }

  lemma OneBlock(data: Bytes, seed: bv32)
    requires 4 <= |data| < 8
    ensures Murmur(data, seed)
         == Finish(Xor(Xor(Mix(seed, Block(data, 0)), Scramble(TailWord(data[4..]))), Length32(data)))
  {
    hide Mix, Block, Finish, Xor, Scramble, TailWord, Length32;
    assert Body(data, seed, 1) == Mix(Body(data, seed, 0), Block(data, 0));
  }

  lemma NoBlock(data: Bytes, seed: bv32)
    requires |data| < 4
    ensures Murmur(data, seed) == Finish(Xor(Xor(seed, Scramble(TailWord(data))), Length32(data)))
  {
    hide Mix, Block, Finish, Xor, Scramble, TailWord, Length32;
    assert data[0..] == data;
  }

  lemma MurmurOfHello()
    ensures Murmur(Hello, 0) == 0x248bfa47
  {
    hide *;
    HelloParts();
    OneBlock(Hello, 0);
    HelloScrambled();
    HelloMixed();
    HelloXored();
    Finished();
  }

  lemma AbcParts()
    ensures |Abc| == 3 && TailWord(Abc) == 0x636261 && Length32(Abc) == 3
    ensures Scramble(0x636261) == 0xa7349db7 && Xor(0, 0xa7349db7) == 0xa7349db7 && Xor(0xa7349db7, 3) == 0xa7349db4
  {
  }

  lemma MurmurOfAbc()
    ensures Murmur(Abc, 0) == 0xb3dd93fa
  {
    hide *;
    AbcParts();
    NoBlock(Abc, 0);
    Finished();
  }

  /** And of nothing with a seed. */
  lemma MurmurOfNothing()
    ensures Murmur([], 0) == 0 && Murmur([], 1) == 0x514e28b7
  {
    var nothing: Bytes := [];
    assert nothing[0..] == nothing;
  }
}
