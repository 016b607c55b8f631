/**
 SHA-256 as FIPS 180-4 defines it on a message of whole bytes: padding (section 5.1.1), the
 message schedule and the rounds (section 6.2.2), and the chaining of the blocks.
 */
module Fips180 {
  import opened Bits

  /** A 32-bit word, with the operations of section 3.2. */
  type word = w: int | 0 <= w < 0x1_0000_0000

  function Plus(x: word, y: word): word { (x + y) % 0x1_0000_0000 }

  function Xor(x: word, y: word): word { ((x as bv32) ^ (y as bv32)) as int }

  function And(x: word, y: word): word { ((x as bv32) & (y as bv32)) as int }

  function Not(x: word): word { (!(x as bv32)) as int }

  function Shr(x: word, n: nat): word
    requires n < 32
  {
    ((x as bv32) >> n) as int
  }

  function Rotr(x: word, n: nat): word
    requires 0 < n < 32
  {
    (((x as bv32) >> n) | ((x as bv32) << (32 - n))) as int
  }

  const K: seq<word> :=
    [0x428a2f98, 0x71374491, 0xb5c0fbcf, 0xe9b5dba5, 0x3956c25b, 0x59f111f1, 0x923f82a4, 0xab1c5ed5,
     0xd807aa98, 0x12835b01, 0x243185be, 0x550c7dc3, 0x72be5d74, 0x80deb1fe, 0x9bdc06a7, 0xc19bf174] +
    [0xe49b69c1, 0xefbe4786, 0x0fc19dc6, 0x240ca1cc, 0x2de92c6f, 0x4a7484aa, 0x5cb0a9dc, 0x76f988da,
     0x983e5152, 0xa831c66d, 0xb00327c8, 0xbf597fc7, 0xc6e00bf3, 0xd5a79147, 0x06ca6351, 0x14292967] +
    [0x27b70a85, 0x2e1b2138, 0x4d2c6dfc, 0x53380d13, 0x650a7354, 0x766a0abb, 0x81c2c92e, 0x92722c85,
     0xa2bfe8a1, 0xa81a664b, 0xc24b8b70, 0xc76c51a3, 0xd192e819, 0xd6990624, 0xf40e3585, 0x106aa070] +
    [0x19a4c116, 0x1e376c08, 0x2748774c, 0x34b0bcb5, 0x391c0cb3, 0x4ed8aa4a, 0x5b9cca4f, 0x682e6ff3,
     0x748f82ee, 0x78a5636f, 0x84c87814, 0x8cc70208, 0x90befffa, 0xa4506ceb, 0xbef9a3f7, 0xc67178f2]

  /** The eight working variables, and the eight words of a chaining value. */
  datatype Words = Words(a: word, b: word, c: word, d: word, e: word, f: word, g: word, h: word)

  const INITIAL := Words(0x6a09e667, 0xbb67ae85, 0x3c6ef372, 0xa54ff53a,
                         0x510e527f, 0x9b05688c, 0x1f83d9ab, 0x5be0cd19)

  function BigSigma0(x: word): word { Xor(Xor(Rotr(x, 2), Rotr(x, 13)), Rotr(x, 22)) }

  function BigSigma1(x: word): word { Xor(Xor(Rotr(x, 6), Rotr(x, 11)), Rotr(x, 25)) }

  function Sigma0(x: word): word { Xor(Xor(Rotr(x, 7), Rotr(x, 18)), Shr(x, 3)) }

  function Sigma1(x: word): word { Xor(Xor(Rotr(x, 17), Rotr(x, 19)), Shr(x, 10)) }

  function Ch(x: word, y: word, z: word): word { Xor(And(x, y), And(Not(x), z)) }

  function Maj(x: word, y: word, z: word): word { Xor(Xor(And(x, y), And(x, z)), And(y, z)) }

  function BigEndian(s: seq<byte>): nat {
    if s == [] then 0 else 256 * BigEndian(s[..|s| - 1]) + s[|s| - 1]
  }

  lemma BigEndianOfFour(a: byte, b: byte, c: byte, d: byte)
    ensures BigEndian([a, b, c, d]) == a * 0x1000000 + b * 0x10000 + c * 0x100 + d
    ensures BigEndian([a, b, c, d]) < 0x1_0000_0000
  {
    var s := [a, b, c, d];
    assert s[..3] == [a, b, c] && s[..3][..2] == [a, b] && s[..3][..2][..1] == [a];
    assert BigEndian([a]) == a;
    assert BigEndian([a, b]) == 256 * a + b;
    assert BigEndian([a, b, c]) == 256 * (256 * a + b) + c;
  }

  /** word t of a block, its first byte most significant. */
  function BlockWord(block: seq<byte>, t: nat): word
    requires |block| == 64 && t < 16
  {
    BigEndianOfFour(block[4 * t], block[4 * t + 1], block[4 * t + 2], block[4 * t + 3]);
    BigEndian([block[4 * t], block[4 * t + 1], block[4 * t + 2], block[4 * t + 3]])
  }

  function Sum(a: word, b: word, c: word, d: word): word { Plus(Plus(Plus(a, b), c), d) }

  function Schedule(block: seq<byte>, t: nat): word
    requires |block| == 64 && t < 64
  {
    if t < 16 then BlockWord(block, t)
    else Sum(Sigma1(Schedule(block, t - 2)), Schedule(block, t - 7),
             Sigma0(Schedule(block, t - 15)), Schedule(block, t - 16))
  }

  function Round(v: Words, k: word, w: word): Words {
    var t1 := Plus(Sum(v.h, BigSigma1(v.e), Ch(v.e, v.f, v.g), k), w);
    var t2 := Plus(BigSigma0(v.a), Maj(v.a, v.b, v.c));
    Words(Plus(t1, t2), v.a, v.b, v.c, Plus(v.d, t1), v.e, v.f, v.g)
  }

  function Rounds(v: Words, block: seq<byte>, n: nat): Words
    requires |block| == 64 && n <= 64
  {
    if n == 0 then v else Round(Rounds(v, block, n - 1), K[n - 1], Schedule(block, n - 1))
  }

  function Add(x: Words, y: Words): Words {
    Words(Plus(x.a, y.a), Plus(x.b, y.b), Plus(x.c, y.c), Plus(x.d, y.d),
          Plus(x.e, y.e), Plus(x.f, y.f), Plus(x.g, y.g), Plus(x.h, y.h))
  }

  function Compress(v: Words, block: seq<byte>): Words
    requires |block| == 64
  {
    Add(Rounds(v, block, 64), v)
  }

  /** The chaining value after every block of data. */
  function Blocks(v: Words, data: seq<byte>): Words
    requires |data| % 64 == 0
  {
    if data == [] then v
    else Compress(Blocks(v, data[..|data| - 64]), data[|data| - 64..])
  }

  /** The number of zero bytes between the mark and the length. */
  function ZeroCount(n: nat): nat { (55 - n) % 64 }

  function Zeros(n: nat): (s: seq<byte>)
    ensures |s| == n
  {
    seq(n, _ => 0)
  }

  /** The low n bytes of v, the most significant first. */
  function Octets(v: nat, n: nat): (s: seq<byte>)
    ensures |s| == n
  {
    if n == 0 then [] else Octets(v / 256, n - 1) + [v % 256]
  }

  lemma ZerosFit(n: nat)
    ensures (n + 1 + ZeroCount(n) + 8) % 64 == 0
  {
  }

  const TWO_TO_THE_61: nat := 0x2000000000000000
  const TWO_TO_THE_64: nat := 0x1_0000000000000000

  /** The message, the bit one and seven zeros, zero bytes, and the length in bits modulo 2^64. */
  function Padded(m: seq<byte>): (p: seq<byte>)
    ensures |p| % 64 == 0
  {
    ZerosFit(|m|);
    m + [0x80] + Zeros(ZeroCount(|m|)) + Octets(8 * |m| % TWO_TO_THE_64, 8)
  }

  function Hash(m: seq<byte>): Words { Blocks(INITIAL, Padded(m)) }

  /** Section 5.1.1: k zero bits follow the one bit, k the least number with l + 1 + k = 448 modulo 512. */
  predicate Fills(l: nat, k: nat) { (l + 1 + k) % 512 == 448 }

  lemma ZeroCountIsLeast(n: nat, k: nat)
    ensures Fills(8 * n, 7 + 8 * ZeroCount(n))
    ensures Fills(8 * n, k) ==> k >= 7 + 8 * ZeroCount(n)
  {
    var z := ZeroCount(n);
    var r := (n + 1 + z) / 64;
    assert n + 1 + z == 64 * r + 56 by {
      assert 55 - n == 64 * ((55 - n) / 64) + z;
      assert n + 1 + z == 56 + 64 * -((55 - n) / 64);
    }
    assert 8 * n + 1 + (7 + 8 * z) == 512 * r + 448;
  }

  lemma {:induction false} OctetsInvert(v: nat, n: nat)
    requires v < Pow2(8 * n)
    ensures BigEndian(Octets(v, n)) == v
  {
    if n > 0 {
      Pow2Add(8, 8 * n - 8);
      Pow2Is8();
      OctetsInvert(v / 256, n - 1);
      assert Octets(v, n)[..n - 1] == Octets(v / 256, n - 1);
    }
  }

  lemma Pow2Is8()
    ensures Pow2(8) == 256
  {
    assert Pow2(4) == 16;
    Pow2Add(4, 4);
  }

  lemma TwoToThe64()
    ensures Pow2(8 * 8) == TWO_TO_THE_64
  {
    hide Pow2;
    Pow2Is8();
    Pow2Add(8, 8);
    Pow2Add(16, 16);
    Pow2Add(32, 32);
  }

  /** The last eight bytes are the length of the message in bits, which FIPS 180-4 keeps below 2^64. */
  lemma PaddedLength(m: seq<byte>)
    requires |m| < TWO_TO_THE_61
    ensures var p := Padded(m); |p| >= 8 && BigEndian(p[|p| - 8..]) == 8 * |m|
  {
    hide Octets, BigEndian, ZeroCount, Pow2;
    var p := Padded(m);
    assert p[|p| - 8..] == Octets(8 * |m|, 8);
    TwoToThe64();
    OctetsInvert(8 * |m|, 8);
  }

  /** Two messages with the same padding are the same message. */
  lemma PaddedInjective(a: seq<byte>, b: seq<byte>)
    requires |a| < TWO_TO_THE_61 && |b| < TWO_TO_THE_61 && Padded(a) == Padded(b)
    ensures a == b
  {
    PaddedLength(a);
    PaddedLength(b);
    assert a == Padded(a)[..|a|];
    assert b == Padded(b)[..|b|];
  }

  // ---------------------------------------------------------------- the padding, bit by bit

  /** The bits of a byte string as section 3.1 numbers them, the most significant of each byte first. */
  function BitString(m: seq<byte>): (s: seq<bit>)
    ensures |s| == 8 * |m|
  {
    seq(8 * |m|, i requires 0 <= i < 8 * |m| => MsbBits(m[i / 8], 8)[i % 8])
  }

  function ZeroBits(n: nat): seq<bit> {
    seq(n, _ => 0)
  }

  lemma BitStringConcat(a: seq<byte>, b: seq<byte>)
    ensures BitString(a + b) == BitString(a) + BitString(b)
  {
    hide MsbBits;
    forall i | 0 <= i < 8 * |a + b|
      ensures BitString(a + b)[i] == (BitString(a) + BitString(b))[i]
    {
      if i >= 8 * |a| {
        var j := i - 8 * |a|;
        assert i / 8 == |a| + j / 8 && i % 8 == j % 8;
      }
    }
  }

  lemma BitStringOne(x: byte)
    ensures BitString([x]) == MsbBits(x, 8)
  {
    hide MsbBits;
  }

  lemma BitStringZeros(n: nat)
    ensures BitString(Zeros(n)) == ZeroBits(8 * n)
  {
    assert MsbBits(0, 8) == [0, 0, 0, 0, 0, 0, 0, 0] by { MsbZero(8); }
    forall i | 0 <= i < 8 * n
      ensures BitString(Zeros(n))[i] == 0
    {
      assert BitString(Zeros(n))[i] == MsbBits(0, 8)[i % 8];
    }
  }

  lemma {:induction false} MsbZero(n: nat)
    ensures MsbBits(0, n) == ZeroBits(n)
  {
    if n > 0 {
      MsbZero(n - 1);
    }
  }

  /** The low k bits come last. */
  lemma {:induction false} MsbJoin(q: nat, r: nat, n: nat, k: nat)
    requires r < Pow2(k)
    ensures MsbBits(Pow2(k) * q + r, n + k) == MsbBits(q, n) + MsbBits(r, k)
  {
    if k > 0 {
      var p := Pow2(k - 1) * q;
      DoubleProduct(Pow2(k - 1), q);
      assert Pow2(k) * q + r == 2 * p + r;
      assert (2 * p + r) / 2 == p + r / 2 && (2 * p + r) % 2 == r % 2;
      MsbJoin(q, r / 2, n, k - 1);
    }
  }

  lemma {:induction false} BitStringOctets(v: nat, n: nat)
    ensures BitString(Octets(v, n)) == MsbBits(v, 8 * n)
  {
    if n > 0 {
      BitStringOctets(v / 256, n - 1);
      BitStringConcat(Octets(v / 256, n - 1), [v % 256]);
      BitStringOne(v % 256);
      Pow2Is8();
      MsbJoin(v / 256, v % 256, 8 * n - 8, 8);
    }
  }

  /** Section 5.1.1: the message, a one, the least number of zeros that fills a block, and the length. */
  lemma PaddedBits(m: seq<byte>) returns (k: nat)
    requires |m| < TWO_TO_THE_61
    ensures Fills(8 * |m|, k) && forall j :: Fills(8 * |m|, j) ==> k <= j
    ensures BitString(Padded(m)) == BitString(m) + [1] + ZeroBits(k) + MsbBits(8 * |m|, 64)
  {
    hide BitString, Octets, MsbBits, ZeroCount, Fills, Zeros;
    var z, o := ZeroCount(|m|), Octets(8 * |m|, 8);
    k := 7 + 8 * z;
    forall j: nat
      ensures Fills(8 * |m|, k) && (Fills(8 * |m|, j) ==> k <= j)
    {
      ZeroCountIsLeast(|m|, j);
    }
    BitStringConcat(m + [0x80] + Zeros(z), o);
    BitStringConcat(m + [0x80], Zeros(z));
    BitStringConcat(m, [0x80]);
    BitStringOne(0x80);
    Mark();
    BitStringZeros(z);
    BitStringOctets(8 * |m|, 8);
    assert ZeroBits(k) == ZeroBits(7) + ZeroBits(8 * z);
    var b := BitString(m);
    assert b + ([1] + ZeroBits(7)) + ZeroBits(8 * z) == b + [1] + ZeroBits(k);
  }

  lemma Mark()
    ensures MsbBits(0x80, 8) == [1] + ZeroBits(7)
  {
    assert Pow2(7) == 128 by { assert Pow2(4) == 16; }
    MsbJoin(1, 0, 1, 7);
    MsbZero(7);
    assert MsbBits(1, 1) == [1] by { assert MsbBits(0, 0) == []; }
  }

  lemma BlocksSnoc(v: Words, data: seq<byte>, block: seq<byte>)
    requires |data| % 64 == 0 && |block| == 64
    ensures Blocks(v, data + block) == Compress(Blocks(v, data), block)
  {
    var s := data + block;
    assert s[..|s| - 64] == data && s[|s| - 64..] == block;
  }
}
