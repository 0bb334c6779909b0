/**
  SHA-256: the program's loops, which fill arrays and shift eight variables along, against the
  recurrences of section 6.2.2 of FIPS 180-4 over the padded message of section 5.1.1.
*/
module Sha256 {
  import opened Sha256Padding

  // ----- the functions of section 4.1.2 -----

  /** Addition modulo 2^32. */
  function Plus(x: bv32, y: bv32): bv32 { x + y }

  function RotR(x: bv32, n: nat): bv32
    requires 0 < n < 32
  {
    (x >> n) | (x << (32 - n))
  }

  function Ch(x: bv32, y: bv32, z: bv32): bv32 { (x & y) ^ (!x & z) }

  function Maj(x: bv32, y: bv32, z: bv32): bv32 { (x & y) ^ (x & z) ^ (y & z) }

  function BigSigma0(x: bv32): bv32 { RotR(x, 2) ^ RotR(x, 13) ^ RotR(x, 22) }

  function BigSigma1(x: bv32): bv32 { RotR(x, 6) ^ RotR(x, 11) ^ RotR(x, 25) }

  function SmallSigma0(x: bv32): bv32 { RotR(x, 7) ^ RotR(x, 18) ^ (x >> 3) }

  function SmallSigma1(x: bv32): bv32 { RotR(x, 17) ^ RotR(x, 19) ^ (x >> 10) }

  // ----- the constants of sections 4.2.2 and 5.3.3 -----

  const KRows: seq<seq<bv32>> := [
    [0x428a2f98, 0x71374491, 0xb5c0fbcf, 0xe9b5dba5, 0x3956c25b, 0x59f111f1, 0x923f82a4, 0xab1c5ed5],
    [0xd807aa98, 0x12835b01, 0x243185be, 0x550c7dc3, 0x72be5d74, 0x80deb1fe, 0x9bdc06a7, 0xc19bf174],
    [0xe49b69c1, 0xefbe4786, 0x0fc19dc6, 0x240ca1cc, 0x2de92c6f, 0x4a7484aa, 0x5cb0a9dc, 0x76f988da],
    [0x983e5152, 0xa831c66d, 0xb00327c8, 0xbf597fc7, 0xc6e00bf3, 0xd5a79147, 0x06ca6351, 0x14292967],
    [0x27b70a85, 0x2e1b2138, 0x4d2c6dfc, 0x53380d13, 0x650a7354, 0x766a0abb, 0x81c2c92e, 0x92722c85],
    [0xa2bfe8a1, 0xa81a664b, 0xc24b8b70, 0xc76c51a3, 0xd192e819, 0xd6990624, 0xf40e3585, 0x106aa070],
    [0x19a4c116, 0x1e376c08, 0x2748774c, 0x34b0bcb5, 0x391c0cb3, 0x4ed8aa4a, 0x5b9cca4f, 0x682e6ff3],
    [0x748f82ee, 0x78a5636f, 0x84c87814, 0x8cc70208, 0x90befffa, 0xa4506ceb, 0xbef9a3f7, 0xc67178f2]
  ]

  function K(t: nat): bv32
    requires t < 64
  {
    KRows[t / 8][t % 8]
  }

  const Start: seq<bv32> := [
    0x6a09e667, 0xbb67ae85, 0x3c6ef372, 0xa54ff53a, 0x510e527f, 0x9b05688c, 0x1f83d9ab, 0x5be0cd19
  ]

  // ----- section 6.2.2 -----

  type Block = m: seq<bv32> | |m| == 16 witness seq(16, _ => 0)

  type State = h: seq<bv32> | |h| == 8 witness seq(8, _ => 0)

  /** Four bytes, the first the most significant. */
  function Word(b0: byte, b1: byte, b2: byte, b3: byte): bv32 {
    (b0 as bv32 << 24) | (b1 as bv32 << 16) | (b2 as bv32 << 8) | b3 as bv32
  }

  /** The `i`-th block of a padded message as sixteen words. */
  function BlockOf(padded: Bytes, i: nat): (m: Block)
    requires 64 * i + 64 <= |padded|
  {
    seq(16, t requires 0 <= t < 16 =>
      var at := 64 * i + 4 * t;
      Word(padded[at], padded[at + 1], padded[at + 2], padded[at + 3]))
  }

  /** Step 1: the message schedule, W(t) by its recurrence. */
  function W(m: Block, t: nat): bv32 {
    if t < 16 then m[t]
    else Plus(Plus(Plus(SmallSigma1(W(m, t - 2)), W(m, t - 7)), SmallSigma0(W(m, t - 15))), W(m, t - 16))
  }

  datatype Vars = Vars(a: bv32, b: bv32, c: bv32, d: bv32, e: bv32, f: bv32, g: bv32, h: bv32)

  /** Step 3: one round. */
  function Round(v: Vars, k: bv32, w: bv32): Vars {
    var t1 := Plus(Plus(Plus(Plus(v.h, BigSigma1(v.e)), Ch(v.e, v.f, v.g)), k), w);
    var t2 := Plus(BigSigma0(v.a), Maj(v.a, v.b, v.c));
    Vars(Plus(t1, t2), v.a, v.b, v.c, Plus(v.d, t1), v.e, v.f, v.g)
  }

  function Rounds(v: Vars, m: Block, t: nat): Vars
    requires t <= 64
  {
    if t == 0 then v else Round(Rounds(v, m, t - 1), K(t - 1), W(m, t - 1))
  }

  function Words(v: Vars): State { [v.a, v.b, v.c, v.d, v.e, v.f, v.g, v.h] }

  function Added(h: State, v: Vars): State {
    seq(8, i requires 0 <= i < 8 => Plus(h[i], Words(v)[i]))
  }

  /** Steps 2 to 4: the hash value after one more block. */
  function Compress(h: State, m: Block): State {
    Added(h, Rounds(Vars(h[0], h[1], h[2], h[3], h[4], h[5], h[6], h[7]), m, 64))
  }

  function HashValue(padded: Bytes, n: nat): State
    requires 64 * n <= |padded|
  {
    if n == 0 then Start else Compress(HashValue(padded, n - 1), BlockOf(padded, n - 1))
  }

  function WordBytes(w: bv32): (bytes: seq<bv8>)
    ensures |bytes| == 4
  {
    [((w >> 24) & 0xff) as bv8, ((w >> 16) & 0xff) as bv8, ((w >> 8) & 0xff) as bv8, (w & 0xff) as bv8]
  }

  function StateBytes(h: seq<bv32>): (bytes: seq<bv8>)
    ensures |bytes| == 4 * |h|
  {
    if h == [] then [] else StateBytes(h[..|h| - 1]) + WordBytes(h[|h| - 1])
  }

  /** The digest the standard gives the message. */
  function Digest(data: Bytes): (digest: seq<bv8>)
    ensures |digest| == 32
  {
    StateBytes(HashValue(Padded(data), Total(|data|) / 64))
  }

  // ----- the program -----

  /** The first loop of a block, over the bytes computed on demand. */
  method LoadBlock(data: Bytes, total: nat, blk: nat) returns (w: array<bv32>)
    requires total == Total(|data|) && blk < total / 64
    ensures fresh(w) && w.Length == 64
    ensures w[..16] == BlockOf(Padded(data), blk)
  {
    hide Word, Padded, PaddedAt;
    w := new bv32[64];
    for t := 0 to 16
      invariant forall j :: 0 <= j < t ==> w[j] == BlockOf(Padded(data), blk)[j]
    {
      var base := blk * 64 + t * 4;
      PaddedAtIs(data, base);
      PaddedAtIs(data, base + 1);
      PaddedAtIs(data, base + 2);
      PaddedAtIs(data, base + 3);
      w[t] := Word(PaddedAt(data, total, base), PaddedAt(data, total, base + 1),
                   PaddedAt(data, total, base + 2), PaddedAt(data, total, base + 3));
    }
  }

  lemma PlusCommutes(x: bv32, y: bv32)
    ensures Plus(x, y) == Plus(y, x)
  {
  }

  lemma PlusIs(x: bv32, y: bv32)
    ensures Plus(x, y) == x + y
  {
  }

  lemma SumsAssociate(x: bv32, y: bv32, z: bv32)
    ensures Plus(x + y, z) == Plus(x, y + z)
  {
  }

  lemma PlusAssociates(x: bv32, y: bv32, z: bv32)
    ensures Plus(Plus(x, y), z) == Plus(x, Plus(y, z))
  {
    hide Plus;
    PlusIs(x, y);
    PlusIs(y, z);
    SumsAssociate(x, y, z);
  }

  /** The program adds the four terms in the opposite order. */
  lemma SumOrder(a: bv32, b: bv32, c: bv32, d: bv32)
    ensures Plus(Plus(Plus(a, b), c), d) == Plus(Plus(Plus(d, c), b), a)
  {
    hide Plus;
    PlusCommutes(Plus(Plus(a, b), c), d);
    PlusCommutes(Plus(a, b), c);
    PlusCommutes(a, b);
    PlusAssociates(Plus(d, c), b, a);
    PlusAssociates(d, c, Plus(b, a));
  }

  /** The second loop: the schedule extended in place. */
  method ExtendSchedule(w: array<bv32>, ghost m: Block)
    requires w.Length == 64 && w[..16] == m
    modifies w
    ensures forall t :: 0 <= t < 64 ==> w[t] == W(m, t)
  {
    hide Plus, RotR, SmallSigma0, SmallSigma1;
    assert forall j :: 0 <= j < 16 ==> w[j] == w[..16][j];
    for t := 16 to 64
      invariant forall j :: 0 <= j < t ==> w[j] == W(m, j)
    {
      var s0 := SmallSigma0(w[t - 15]);
      var s1 := SmallSigma1(w[t - 2]);
      SumOrder(w[t - 16], s0, w[t - 7], s1);
      w[t] := Plus(Plus(Plus(w[t - 16], s0), w[t - 7]), s1);
    }
  }

  /** The third loop: eight variables that move along. */
  method RunRounds(h: array<bv32>, w: array<bv32>, ghost m: Block) returns (v: Vars)
    requires h.Length == 8 && w.Length == 64 && forall t :: 0 <= t < 64 ==> w[t] == W(m, t)
    ensures v == Rounds(Vars(h[0], h[1], h[2], h[3], h[4], h[5], h[6], h[7]), m, 64)
  {
    hide Plus, W, K, BigSigma0, BigSigma1, Ch, Maj;
    var a, b, c, d := h[0], h[1], h[2], h[3];
    var e, f, g, hh := h[4], h[5], h[6], h[7];
    ghost var start := Vars(a, b, c, d, e, f, g, hh);
    for t := 0 to 64
      invariant Vars(a, b, c, d, e, f, g, hh) == Rounds(start, m, t)
    {
      var s1 := BigSigma1(e);
      var ch := Ch(e, f, g);
      var temp1 := Plus(Plus(Plus(Plus(hh, s1), ch), K(t)), w[t]);
      var s0 := BigSigma0(a);
      var maj := Maj(a, b, c);
      var temp2 := Plus(s0, maj);
      hh := g;
      g := f;
      f := e;
      e := Plus(d, temp1);
      d := c;
      c := b;
      b := a;
      a := Plus(temp1, temp2);
    }
    v := Vars(a, b, c, d, e, f, g, hh);
  }

  /** `sha256`. */
  method Sha256(data: Bytes) returns (digest: array<bv8>)
    requires |data| <= MaxSize
    ensures digest[..] == Digest(data)
  {
    hide Rounds, BlockOf, Padded, Total, StateBytes;
    var h := new bv32[8](i requires 0 <= i < 8 => Start[i]);
    assert h[..] == Start;
    var total := CountTotal(|data|);
    var nblocks := total / 64;
    for blk := 0 to nblocks
      invariant h[..] == HashValue(Padded(data), blk)
    {
      AddBlock(h, data, total, blk);
    }
    digest := WriteDigest(h);
  }

  /** The body of the block loop. */
  method AddBlock(h: array<bv32>, data: Bytes, total: nat, blk: nat)
    requires h.Length == 8 && total == Total(|data|) && blk < total / 64
    modifies h
    ensures h[..] == Compress(old(h[..]), BlockOf(Padded(data), blk))
  {
    hide *;
    var w := LoadBlock(data, total, blk);
    ghost var m := BlockOf(Padded(data), blk);
    ghost var was: State := h[..];
    ExtendSchedule(w, m);
    var v := RunRounds(h, w, m);
    AddVars(h, v);
    CompressIs(was, m);
  }

  lemma CompressIs(h: State, m: Block)
    ensures Compress(h, m) == Added(h, Rounds(Vars(h[0], h[1], h[2], h[3], h[4], h[5], h[6], h[7]), m, 64))
  {
  }

  /** The eight additions at the end of a block. */
  method AddVars(h: array<bv32>, v: Vars)
    requires h.Length == 8
    modifies h
    ensures h[..] == Added(old(h[..]), v)
  {
    hide Plus;
    hide Plus, Words;
    for i := 0 to 8
      invariant forall j :: 0 <= j < i ==> h[j] == Plus(old(h[j]), Words(v)[j])
      invariant forall j :: i <= j < 8 ==> h[j] == old(h[j])
    {
      h[i] := Plus(h[i], Words(v)[i]);
    }
  }

  method WriteDigest(h: array<bv32>) returns (digest: array<bv8>)
    requires h.Length == 8
    ensures digest[..] == StateBytes(h[..])
  {
    hide WordBytes;
    digest := new bv8[32];
    for i := 0 to 8
      invariant digest[..4 * i] == StateBytes(h[..i])
    {
      PutWord(digest, 4 * i, h[i]);
      assert h[..i + 1][..i] == h[..i];
    }
    assert h[..8] == h[..];
    assert digest[..32] == digest[..];
  }

  method PutWord(digest: array<bv8>, at: nat, w: bv32)
    requires at + 4 <= digest.Length
    modifies digest
    ensures digest[..at + 4] == old(digest[..at]) + WordBytes(w)
  {
    hide WordBytes;
    var bytes := WordBytes(w);
    for k := 0 to 4
      invariant digest[..at + k] == old(digest[..at]) + bytes[..k]
    {
      digest[at + k] := bytes[k];
      assert digest[..at + (k + 1)] == digest[..at + k] + [bytes[k]];
      assert bytes[..k + 1] == bytes[..k] + [bytes[k]];
    }
    assert bytes[..4] == bytes;
  }
}
