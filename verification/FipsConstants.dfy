/**
 The constants of SHA-256 are what FIPS 180-4 says they are: the first 32 bits of the fractional
 parts of roots of the first primes (sections 4.2.2 and 5.3.3).
 */
module FipsConstants {
  import opened Fips180

  /** The first sixty-four primes. */
  const PRIMES: seq<nat> :=
    [2, 3, 5, 7, 11, 13, 17, 19, 23, 29, 31, 37, 41, 43, 47, 53] +
    [59, 61, 67, 71, 73, 79, 83, 89, 97, 101, 103, 107, 109, 113, 127, 131] +
    [137, 139, 149, 151, 157, 163, 167, 173, 179, 181, 191, 193, 197, 199, 211, 223] +
    [227, 229, 233, 239, 241, 251, 257, 263, 269, 271, 277, 281, 283, 293, 307, 311]

  const W: nat := 0x1_0000_0000

  function Square(x: nat): nat { x * x }

  function Cube(x: nat): nat { x * x * x }

  /** Between k and k + 1 in units of 2^-32 above a whole number lies the cube root of p. */
  ghost predicate CubeRoot(p: nat, k: word) {
    exists c: nat :: Cube(c * W + k) <= p * W * W * W < Cube(c * W + k + 1)
  }

  ghost predicate SquareRoot(p: nat, k: word) {
    exists c: nat :: Square(c * W + k) <= p * W * W < Square(c * W + k + 1)
  }

  /** The whole part of the cube root of p below 343. */
  function Whole(p: nat): nat {
    if p < 8 then 1 else if p < 27 then 2 else if p < 64 then 3 else if p < 125 then 4 else if p < 216 then 5 else 6
  }

  predicate RootAt(t: nat)
    requires t < 64
  {
    var n := Whole(PRIMES[t]) * W + K[t];
    Cube(n) <= PRIMES[t] * W * W * W < Cube(n + 1)
  }

  lemma Roots0()
    ensures RootAt(0) && RootAt(1) && RootAt(2) && RootAt(3)
    ensures RootAt(4) && RootAt(5) && RootAt(6) && RootAt(7)
  {
  }

  lemma Roots8()
    ensures RootAt(8) && RootAt(9) && RootAt(10) && RootAt(11)
    ensures RootAt(12) && RootAt(13) && RootAt(14) && RootAt(15)
  {
  }

  lemma Roots16()
    ensures RootAt(16) && RootAt(17) && RootAt(18) && RootAt(19)
    ensures RootAt(20) && RootAt(21) && RootAt(22) && RootAt(23)
  {
  }

  lemma Roots24()
    ensures RootAt(24) && RootAt(25) && RootAt(26) && RootAt(27)
    ensures RootAt(28) && RootAt(29) && RootAt(30) && RootAt(31)
  {
  }

  lemma Roots32()
    ensures RootAt(32) && RootAt(33) && RootAt(34) && RootAt(35)
    ensures RootAt(36) && RootAt(37) && RootAt(38) && RootAt(39)
  {
  }

  lemma Roots40()
    ensures RootAt(40) && RootAt(41) && RootAt(42) && RootAt(43)
    ensures RootAt(44) && RootAt(45) && RootAt(46) && RootAt(47)
  {
  }

  lemma Roots48()
    ensures RootAt(48) && RootAt(49) && RootAt(50) && RootAt(51)
    ensures RootAt(52) && RootAt(53) && RootAt(54) && RootAt(55)
  {
  }

  lemma Roots56()
    ensures RootAt(56) && RootAt(57) && RootAt(58) && RootAt(59)
    ensures RootAt(60) && RootAt(61) && RootAt(62) && RootAt(63)
  {
  }

  lemma RootIs(t: nat)
    requires t < 64 && RootAt(t)
    ensures CubeRoot(PRIMES[t], K[t])
  {
    hide Cube;
  }

  lemma CubeRoots(t: nat)
    requires t < 64
    ensures |K| == |PRIMES| == 64 && CubeRoot(PRIMES[t], K[t])
  {
    hide RootAt, CubeRoot;
    if t < 32 {
      if t < 8 { Roots0(); } else if t < 16 { Roots8(); } else if t < 24 { Roots16(); } else { Roots24(); }
    } else {
      if t < 40 { Roots32(); } else if t < 48 { Roots40(); } else if t < 56 { Roots48(); } else { Roots56(); }
    }
    RootIs(t);
  }

  lemma SquareRoots()
    ensures SquareRoot(2, INITIAL.a) && SquareRoot(3, INITIAL.b) && SquareRoot(5, INITIAL.c)
    ensures SquareRoot(7, INITIAL.d) && SquareRoot(11, INITIAL.e) && SquareRoot(13, INITIAL.f)
    ensures SquareRoot(17, INITIAL.g) && SquareRoot(19, INITIAL.h)
  {
    assert Square(1 * W + INITIAL.a) <= 2 * W * W < Square(1 * W + INITIAL.a + 1);
    assert Square(1 * W + INITIAL.b) <= 3 * W * W < Square(1 * W + INITIAL.b + 1);
    assert Square(2 * W + INITIAL.c) <= 5 * W * W < Square(2 * W + INITIAL.c + 1);
    assert Square(2 * W + INITIAL.d) <= 7 * W * W < Square(2 * W + INITIAL.d + 1);
    assert Square(3 * W + INITIAL.e) <= 11 * W * W < Square(3 * W + INITIAL.e + 1);
    assert Square(3 * W + INITIAL.f) <= 13 * W * W < Square(3 * W + INITIAL.f + 1);
    assert Square(4 * W + INITIAL.g) <= 17 * W * W < Square(4 * W + INITIAL.g + 1);
    assert Square(4 * W + INITIAL.h) <= 19 * W * W < Square(4 * W + INITIAL.h + 1);
  }
}
