/** Small types shared by every module. */
module Wrappers {
  datatype Option<+T> = None | Some(value: T)

  /** An inductive list, for the syntax trees of the compressed format. */
  datatype List<T> = Nil | Cons(head: T, tail: List<T>)
}

/**
 Bytes, bits and the ways RFC 1951 reads a bit string as a number: extra bits and header
 fields with the first bit least significant, Huffman codes with the first bit most significant.
 */
module Bits {
  import opened Wrappers

  type bit = b: int | 0 <= b <= 1
  type byte = b: int | 0 <= b < 256

  function Pow2(n: nat): (p: nat)
    ensures p > 0
  {
    if n == 0 then 1 else 2 * Pow2(n - 1)
  }

  lemma {:induction false} Pow2Add(m: nat, n: nat)
    ensures Pow2(m + n) == Pow2(m) * Pow2(n)
  {
    if m == 0 {
    } else {
      Pow2Add(m - 1, n);
    }
  }

  lemma {:induction false} Pow2Mono(m: nat, n: nat)
    requires m <= n
    ensures Pow2(m) <= Pow2(n)
  {
    if m < n {
      Pow2Mono(m, n - 1);
    }
  }

  /** The number whose least significant bit comes first. */
  function Lsb(s: seq<bit>): nat {
    if s == [] then 0 else s[0] + 2 * Lsb(s[1..])
  }

  /** The number whose most significant bit comes first. */
  function Msb(s: seq<bit>): nat {
    if s == [] then 0 else 2 * Msb(s[..|s| - 1]) + s[|s| - 1]
  }

  /** The n low bits of v, least significant first. */
  function LsbBits(v: nat, n: nat): (s: seq<bit>)
    ensures |s| == n
  {
    if n == 0 then [] else [v % 2] + LsbBits(v / 2, n - 1)
  }

  /** The n low bits of v, most significant first. */
  function MsbBits(v: nat, n: nat): (s: seq<bit>)
    ensures |s| == n
  {
    if n == 0 then [] else MsbBits(v / 2, n - 1) + [v % 2]
  }

  lemma {:induction false} LsbBound(s: seq<bit>)
    ensures Lsb(s) < Pow2(|s|)
  {
    if s != [] {
      LsbBound(s[1..]);
    }
  }

  lemma {:induction false} LsbConcat(a: seq<bit>, b: seq<bit>)
    ensures Lsb(a + b) == Lsb(a) + Pow2(|a|) * Lsb(b)
  {
    if a == [] {
      assert a + b == b;
    } else {
      var p, x := Pow2(|a| - 1), Lsb(b);
      LsbConcat(a[1..], b);
      assert (a + b)[1..] == a[1..] + b;
      assert Lsb(a + b) == a[0] + 2 * (Lsb(a[1..]) + p * x);
      DoubleProduct(p, x);
      assert Pow2(|a|) == 2 * p;
    }
  }

  lemma DoubleProduct(p: nat, x: nat)
    ensures (2 * p) * x == 2 * (p * x)
  {
  }

  /** Dropping the first |a| bits is a right shift, keeping them a mask. */
  lemma LsbSplit(a: seq<bit>, b: seq<bit>)
    ensures Lsb(a + b) / Pow2(|a|) == Lsb(b)
    ensures Lsb(a + b) % Pow2(|a|) == Lsb(a)
  {
    LsbConcat(a, b);
    LsbBound(a);
    DivMod(Lsb(b), Pow2(|a|), Lsb(a));
  }

  lemma {:induction false} DivMod(q: nat, d: nat, r: nat)
    requires r < d
    ensures (r + d * q) / d == q
    ensures (r + d * q) % d == r
  {
    if q > 0 {
      DivMod(q - 1, d, r);
      var x := r + d * (q - 1);
      assert d * q == d * (q - 1) + d;
      DivStep(x, d);
    }
  }

  lemma DivStep(x: nat, d: nat)
    requires d > 0
    ensures (x + d) / d == x / d + 1 && (x + d) % d == x % d
  {
    var k, m := x / d, x % d;
    var k', m' := (x + d) / d, (x + d) % d;
    assert x == d * k + m && x + d == d * k' + m';
    assert d * (k' - k - 1) == m - m' by {
      assert d * (k' - k - 1) == d * k' - d * k - d;
    }
    assert d * (k + 1 - k') == -(d * (k' - k - 1));
    if k' - k - 1 >= 1 {
      MulAtLeast(d, k' - k - 1);
    } else if k' - k - 1 <= -1 {
      MulAtLeast(d, k + 1 - k');
    }
  }

  lemma MulAtLeast(d: nat, k: int)
    requires k >= 1
    ensures d * k >= d
  {
    assert d * k == d * (k - 1) + d;
  }

  lemma {:induction false} LsbRoundTrip(v: nat, n: nat)
    requires v < Pow2(n)
    ensures Lsb(LsbBits(v, n)) == v
  {
    if n > 0 {
      LsbRoundTrip(v / 2, n - 1);
    }
  }

  lemma {:induction false} LsbUnique(s: seq<bit>)
    ensures LsbBits(Lsb(s), |s|) == s
  {
    if s != [] {
      LsbUnique(s[1..]);
      assert Lsb(s) % 2 == s[0] && Lsb(s) / 2 == Lsb(s[1..]);
      assert s == [s[0]] + s[1..];
    }
  }

  lemma {:induction false} MsbBound(s: seq<bit>)
    ensures Msb(s) < Pow2(|s|)
  {
    if s != [] {
      MsbBound(s[..|s| - 1]);
    }
  }

  lemma {:induction false} MsbRoundTrip(v: nat, n: nat)
    requires v < Pow2(n)
    ensures Msb(MsbBits(v, n)) == v
  {
    if n > 0 {
      MsbRoundTrip(v / 2, n - 1);
      assert MsbBits(v, n)[..n - 1] == MsbBits(v / 2, n - 1);
    }
  }

  lemma {:induction false} MsbUnique(s: seq<bit>)
    ensures MsbBits(Msb(s), |s|) == s
  {
    if s != [] {
      var t := s[..|s| - 1];
      MsbUnique(t);
      assert Msb(s) % 2 == s[|s| - 1] && Msb(s) / 2 == Msb(t);
      assert s == t + [s[|s| - 1]];
    }
  }

  /** The first m of n bits, most significant first, are the number shifted right. */
  lemma {:induction false} MsbPrefix(v: nat, n: nat, m: nat)
    requires m <= n
    ensures MsbBits(v, n)[..m] == MsbBits(v / Pow2(n - m), m)
    decreases n - m
  {
    if m < n {
      MsbPrefix(v / 2, n - 1, m);
      assert MsbBits(v, n)[..m] == MsbBits(v / 2, n - 1)[..m];
      DivDiv(v, Pow2(n - 1 - m));
    }
  }

  lemma DivDiv(v: nat, p: nat)
    requires p > 0
    ensures v / 2 / p == v / (2 * p)
  {
    var q := v / 2 / p;
    var r := v / 2 % p;
    assert v / 2 == p * q + r;
    assert v == 2 * (v / 2) + v % 2;
    assert (2 * p) * q == 2 * (p * q);
    DivMod(q, 2 * p, 2 * r + v % 2);
  }

  /** Bitwise or of two unsigned numbers. */
  function BitOr(a: nat, b: nat): nat {
    if a == 0 && b == 0 then 0
    else (if a % 2 == 1 || b % 2 == 1 then 1 else 0) + 2 * BitOr(a / 2, b / 2)
  }

  lemma {:induction false} BitOrZero(b: nat)
    ensures BitOr(0, b) == b && BitOr(b, 0) == b
  {
    if b != 0 {
      BitOrZero(b / 2);
    }
  }

  /** Or-ing numbers that share no bit position adds them. */
  lemma {:induction false} BitOrDisjoint(a: nat, b: nat, k: nat)
    requires a < Pow2(k)
    ensures BitOr(a, b * Pow2(k)) == a + b * Pow2(k)
    ensures BitOr(b * Pow2(k), a) == a + b * Pow2(k)
  {
    if k == 0 {
      BitOrZero(b);
      assert b * Pow2(0) == b;
    } else {
      var c := b * Pow2(k - 1);
      assert b * Pow2(k) == 2 * c;
      BitOrDisjoint(a / 2, b, k - 1);
      if a == 0 && c == 0 {
      } else {
        assert (2 * c) / 2 == c && (2 * c) % 2 == 0;
      }
    }
  }

  /** s stands in bits at position pos. */
  ghost predicate At(bits: seq<bit>, pos: nat, s: seq<bit>) {
    pos + |s| <= |bits| && bits[pos..pos + |s|] == s
  }

  lemma AtConcat(bits: seq<bit>, pos: nat, a: seq<bit>, b: seq<bit>)
    ensures At(bits, pos, a + b) <==> At(bits, pos, a) && At(bits, pos + |a|, b)
  {
    if pos + |a| + |b| <= |bits| {
      var w := bits[pos..pos + |a + b|];
      assert w[..|a|] == bits[pos..pos + |a|];
      assert w[|a|..] == bits[pos + |a|..pos + |a| + |b|];
      assert w == w[..|a|] + w[|a|..];
      assert (a + b)[..|a|] == a && (a + b)[|a|..] == b;
    }
  }

  /** A fixed-width field read with the first bit least significant. */
  ghost function Field(bits: seq<bit>, pos: nat, n: nat): (r: Option<nat>)
  {
    if pos + n <= |bits| then Some(Lsb(bits[pos..pos + n])) else None
  }

  /** Reading a field inverts writing it, and nothing else reads as that value. */
  lemma FieldAt(bits: seq<bit>, pos: nat, n: nat, v: nat)
    ensures Field(bits, pos, n) == Some(v) <==> v < Pow2(n) && At(bits, pos, LsbBits(v, n))
  {
    if pos + n <= |bits| {
      var s := bits[pos..pos + n];
      assert |s| == n;
      LsbInverse(s, v);
    }
  }

  lemma LsbInverse(s: seq<bit>, v: nat)
    ensures Lsb(s) == v <==> v < Pow2(|s|) && s == LsbBits(v, |s|)
  {
    LsbBound(s);
    LsbUnique(s);
    if v < Pow2(|s|) {
      LsbRoundTrip(v, |s|);
    }
  }

  /** The bit string of a byte string: each byte contributes its least significant bit first. */
  function Stream(data: seq<byte>): (s: seq<bit>)
    ensures |s| == 8 * |data|
  {
    seq(8 * |data|, i requires 0 <= i < 8 * |data| => LsbBits(data[i / 8], 8)[i % 8])
  }

  lemma StreamByte(data: seq<byte>, i: nat)
    requires i < |data|
    ensures Stream(data)[8 * i..8 * i + 8] == LsbBits(data[i], 8)
    ensures Lsb(Stream(data)[8 * i..8 * i + 8]) == data[i]
  {
    var a, b := Stream(data)[8 * i..8 * i + 8], LsbBits(data[i], 8);
    forall k | 0 <= k < 8
      ensures a[k] == b[k]
    {
      assert a[k] == Stream(data)[8 * i + k];
      assert (8 * i + k) / 8 == i && (8 * i + k) % 8 == k;
    }
    assert a == b;
    assert Pow2(8) == 256 by { assert Pow2(4) == 16; Pow2Add(4, 4); }
    LsbRoundTrip(data[i], 8);
  }

  /** Whole bytes are found at multiples of eight bits. */
  lemma StreamSlice(data: seq<byte>, i: nat, j: nat)
    requires i <= j <= |data|
    ensures Stream(data)[8 * i..8 * j] == Stream(data[i..j])
  {
    var a, b := Stream(data)[8 * i..8 * j], Stream(data[i..j]);
    forall k | 0 <= k < |a|
      ensures a[k] == b[k]
    {
      assert a[k] == Stream(data)[8 * i + k];
      assert (8 * i + k) / 8 == i + k / 8 && (8 * i + k) % 8 == k % 8;
    }
  }

  function ByteAt(bits: seq<bit>, pos: nat): byte
    requires pos + 8 <= |bits|
  {
    LsbBound(bits[pos..pos + 8]);
    assert Pow2(8) == 256 by { assert Pow2(4) == 16; Pow2Add(4, 4); }
    Lsb(bits[pos..pos + 8])
  }

  /** k bytes read from position pos on. */
  function Bytes(bits: seq<bit>, pos: nat, k: nat): seq<byte>
    requires pos + 8 * k <= |bits|
  {
    seq(k, i requires 0 <= i < k => ByteAt(bits, pos + 8 * i))
  }

  lemma SliceSlice<T>(s: seq<T>, a: nat, b: nat, i: nat, j: nat)
    requires a <= b <= |s| && i <= j <= b - a
    ensures s[a..b][i..j] == s[a + i..a + j]
  {
    var x, y := s[a..b][i..j], s[a + i..a + j];
    assert |x| == |y| && forall k :: 0 <= k < |x| ==> x[k] == y[k];
  }

  /** One byte reads as v exactly when its eight bits are v's. */
  lemma ByteIff(bits: seq<bit>, pos: nat, v: byte)
    requires pos + 8 <= |bits|
    ensures ByteAt(bits, pos) == v <==> bits[pos..pos + 8] == LsbBits(v, 8)
  {
    assert Pow2(8) == 256 by { assert Pow2(4) == 16; Pow2Add(4, 4); }
    LsbInverse(bits[pos..pos + 8], v);
  }

  /** Reading bytes inverts writing them. */
  lemma BytesAt(bits: seq<bit>, pos: nat, d: seq<byte>)
    requires pos + 8 * |d| <= |bits|
    ensures At(bits, pos, Stream(d)) <==> Bytes(bits, pos, |d|) == d
  {
    hide ByteAt, LsbBits, Stream;
    var w, s := bits[pos..pos + 8 * |d|], Stream(d);
    forall i | 0 <= i < |d|
      ensures Bytes(bits, pos, |d|)[i] == d[i] <==> w[8 * i..8 * i + 8] == s[8 * i..8 * i + 8]
    {
      StreamByte(d, i);
      ByteIff(bits, pos + 8 * i, d[i]);
      SliceSlice(bits, pos, pos + 8 * |d|, 8 * i, 8 * i + 8);
    }
    if Bytes(bits, pos, |d|) == d {
      forall i | 0 <= i < |d|
        ensures w[8 * i..8 * i + 8] == s[8 * i..8 * i + 8]
      {
        assert Bytes(bits, pos, |d|)[i] == d[i];
      }
      ByOctets(w, s, |d|);
    }
  }

  lemma {:induction false} ByOctets(w: seq<bit>, s: seq<bit>, n: nat)
    requires |w| == |s| == 8 * n
    requires forall i :: 0 <= i < n ==> w[8 * i..8 * i + 8] == s[8 * i..8 * i + 8]
    ensures w == s
  {
    forall k | 0 <= k < 8 * n
      ensures w[k] == s[k]
    {
      var i := k / 8;
      assert w[8 * i..8 * i + 8][k - 8 * i] == s[8 * i..8 * i + 8][k - 8 * i];
    }
  }
}
