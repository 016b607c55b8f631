/**
 What the tables of RFC 1951 hold, said without them: the lengths and distances of section 3.2.5,
 the codewords of section 3.2.6, and the runs and the order of code lengths of section 3.2.7.
 */
module Alphabets {
  import opened Bits
  import opened Canonical
  import opened Rfc1951

  // ---------------------------------------------------------------- lengths and distances

  /** Each symbol takes up where the one before it ends; the last one stands for 258 alone. */
  lemma LengthTable(s: nat)
    requires s < 28
    ensures LengthBase(0) == 3 && LengthBase(28) == 258 && LengthExtra(28) == 0
    ensures LengthBase(s) + Pow2(LengthExtra(s)) == if s < 27 then LengthBase(s + 1) else 259
    ensures LengthExtra(s) == if s < 8 then 0 else s / 4 - 1
  {
    hide LengthExtra, Pow2;
    LengthExtraRule(s);
    PowersOfTwo();
    var k := LengthExtra(s);
    assert k == 0 || k == 1 || k == 2 || k == 3 || k == 4 || k == 5;
  }

  lemma LengthExtraRule(s: nat)
    requires s < 28
    ensures LengthExtra(s) == if s < 8 then 0 else s / 4 - 1
    ensures LengthExtra(28) == 0
  {
  }

  lemma DistTable(s: nat)
    requires s < 30
    ensures DistBase(0) == 1
    ensures DistBase(s) + Pow2(DistExtra(s)) == if s < 29 then DistBase(s + 1) else 32769
    ensures DistExtra(s) == if s < 4 then 0 else s / 2 - 1
  {
    hide DistExtra, Pow2;
    DistExtraRule(s);
    PowersOfTwo();
    var k := DistExtra(s);
    assert k < 7 || k == 7 || k == 8 || k == 9 || k == 10 || k == 11 || k == 12 || k == 13;
    if k < 7 {
      assert k == 0 || k == 1 || k == 2 || k == 3 || k == 4 || k == 5 || k == 6;
    }
  }

  lemma DistExtraRule(s: nat)
    requires s < 30
    ensures DistExtra(s) == if s < 4 then 0 else s / 2 - 1
  {
  }

  lemma PowersOfTwo()
    ensures Pow2(0) == 1 && Pow2(1) == 2 && Pow2(2) == 4 && Pow2(3) == 8 && Pow2(4) == 16
    ensures Pow2(5) == 32 && Pow2(6) == 64 && Pow2(7) == 128 && Pow2(8) == 256 && Pow2(9) == 512
    ensures Pow2(10) == 1024 && Pow2(11) == 2048 && Pow2(12) == 4096 && Pow2(13) == 8192
  {
    assert Pow2(4) == 16;
    assert Pow2(8) == 256;
    assert Pow2(12) == 4096;
  }

  predicate Climbs(b: seq<nat>) {
    forall i :: 0 <= i < |b| - 1 ==> b[i] < b[i + 1]
  }

  lemma {:induction false} ClimbsFar(b: seq<nat>, i: nat, j: nat)
    requires Climbs(b) && i < j < |b|
    ensures b[i] < b[j]
  {
    if i + 1 < j {
      ClimbsFar(b, i, j - 1);
    }
  }

  lemma {:induction false} Between(b: seq<nat>, v: nat) returns (s: nat)
    requires |b| >= 2 && b[0] <= v < b[|b| - 1]
    ensures s + 1 < |b| && b[s] <= v < b[s + 1]
  {
    if |b| == 2 || v >= b[|b| - 2] {
      s := |b| - 2;
    } else {
      s := Between(b[..|b| - 1], v);
    }
  }

  lemma Within(b: seq<nat>, i: nat, j: nat)
    requires Climbs(b) && i + 1 < |b|
    ensures b[0] <= b[i] && b[i + 1] <= b[|b| - 1]
    ensures i < j < |b| ==> b[i + 1] <= b[j]
  {
    if 0 < i { ClimbsFar(b, 0, i); }
    if i + 1 < |b| - 1 { ClimbsFar(b, i + 1, |b| - 1); }
    if i + 1 < j < |b| { ClimbsFar(b, i + 1, j); }
  }

  /** The first value of each symbol below 28, and the end. */
  function LengthBounds(): (b: seq<nat>)
    ensures |b| == 29
  {
    seq(29, s requires 0 <= s < 29 => if s < 28 then LengthBase(s) else 259)
  }

  function DistBounds(): (b: seq<nat>)
    ensures |b| == 31
  {
    seq(31, s requires 0 <= s < 31 => if s < 30 then DistBase(s) else 32769)
  }

  lemma Ranges()
    ensures forall s :: 0 <= s < 28 ==> LengthBounds()[s + 1] == LengthBounds()[s] + Pow2(LengthExtra(s))
    ensures forall s :: 0 <= s < 30 ==> DistBounds()[s + 1] == DistBounds()[s] + Pow2(DistExtra(s))
    ensures LengthBounds()[0] == 3 && LengthBounds()[28] == 259
    ensures DistBounds()[0] == 1 && DistBounds()[30] == 32769
    ensures Climbs(LengthBounds()) && Climbs(DistBounds())
  {
    hide LengthBase, LengthExtra, DistBase, DistExtra, Pow2;
    LengthTable(0);
    DistTable(0);
    forall s | 0 <= s < 28
      ensures LengthBounds()[s + 1] == LengthBounds()[s] + Pow2(LengthExtra(s))
    {
      LengthTable(s);
    }
    forall s | 0 <= s < 30
      ensures DistBounds()[s + 1] == DistBounds()[s] + Pow2(DistExtra(s))
    {
      DistTable(s);
    }
  }

  predicate Spells(t: Token, len: nat, dist: nat) {
    t.Copy? && t.Valid() && t.Length() == len && t.Distance() == dist
  }

  /** A greater symbol stands for greater lengths, or greater distances; 28 for 258 alone. */
  lemma InOrder(t: Token, u: Token)
    requires t.Copy? && t.Valid() && u.Copy? && u.Valid()
    ensures t.lenSym < u.lenSym < 28 ==> t.Length() < u.Length()
    ensures t.distSym < u.distSym ==> t.Distance() < u.Distance()
    ensures t.lenSym == 28 ==> t.Length() == 258
    ensures 3 <= t.Length() <= 258 && 1 <= t.Distance() <= 32768
  {
    hide LengthBase, LengthExtra, DistBase, DistExtra, Pow2, Climbs;
    Ranges();
    LengthTable(0);
    assert Pow2(0) == 1 by { PowersOfTwo(); }
    if t.lenSym < 28 {
      Within(LengthBounds(), t.lenSym, u.lenSym);
    }
    Within(DistBounds(), t.distSym, u.distSym);
  }

  /**
   Every length from 3 to 258 and every distance from 1 to 32768, and no other, is that of a copy,
   and only of one without symbol 28.
   */
  lemma CopiesOnce(len: nat, dist: nat)
    ensures (exists t :: Spells(t, len, dist) && t.lenSym < 28) <==> 3 <= len <= 258 && 1 <= dist <= 32768
    ensures forall t, u :: Spells(t, len, dist) && Spells(u, len, dist) && t.lenSym < 28 && u.lenSym < 28 ==> t == u
  {
    hide LengthBase, LengthExtra, DistBase, DistExtra, Pow2;
    forall t | Spells(t, len, dist)
      ensures 3 <= len <= 258 && 1 <= dist <= 32768
    {
      InOrder(t, t);
    }
    if 3 <= len <= 258 && 1 <= dist <= 32768 {
      Ranges();
      var b, d := LengthBounds(), DistBounds();
      var ls := Between(b, len);
      var ds := Between(d, dist);
      assert Spells(Copy(ls, len - b[ls], ds, dist - d[ds]), len, dist);
    }
    forall t, u | Spells(t, len, dist) && Spells(u, len, dist) && t.lenSym < 28 && u.lenSym < 28
      ensures t == u
    {
      InOrder(t, u);
      InOrder(u, t);
    }
  }

  // ---------------------------------------------------------------- code lengths

  predicate IsZeros(k: LenCode, n: nat) {
    (k.Zeros? || k.ManyZeros?) && k.Valid() && k.Times() == n
  }

  predicate IsRepeat(k: LenCode, n: nat) {
    k.Repeat? && k.Valid() && k.Times() == n
  }

  /** A run of 3 to 138 zeros, and of 3 to 6 repetitions, is written in one way; no other run is. */
  lemma RunsOnce(n: nat)
    ensures (exists k :: IsZeros(k, n)) <==> 3 <= n <= 138
    ensures (exists k :: IsRepeat(k, n)) <==> 3 <= n <= 6
    ensures forall k, j :: IsZeros(k, n) && IsZeros(j, n) ==> k == j
    ensures forall k, j :: IsRepeat(k, n) && IsRepeat(j, n) ==> k == j
    ensures forall k: LenCode :: k.Plain? || k.Times() >= 3
  {
    PowersOfTwo();
    if 3 <= n <= 6 {
      assert IsRepeat(Repeat(n - 3), n);
    }
    if 3 <= n <= 10 {
      assert IsZeros(Zeros(n - 3), n);
    } else if n <= 138 && n > 10 {
      assert IsZeros(ManyZeros(n - 11), n);
    }
  }

  /** First the runs, then no code at all, then the lengths from the middle outward. */
  lemma OrderOutward(i: nat)
    requires i < 19
    ensures Order(i) ==
      if i < 3 then 16 + i else if i == 3 then 0 else if i % 2 == 0 then 6 + i / 2 else 9 - i / 2
  {
  }

  // ---------------------------------------------------------------- fixed codes

  lemma {:induction false} CountRun(l: seq<nat>, i: nat, j: nat, v: nat, n: nat)
    requires i <= j <= |l| && forall k :: i <= k < j ==> l[k] == v
    ensures Count(l[..j], n) == Count(l[..i], n) + if v == n then j - i else 0
  {
    if i < j {
      CountRun(l, i, j - 1, v, n);
      CountStep(l, j - 1, n);
    }
  }

  /** How many of the first s symbols have codes of n bits. */
  lemma FixedCount(s: nat, n: nat)
    requires s <= 288
    ensures Count(FixedLit()[..s], n) ==
      if n == 8 then if s <= 144 then s else if s <= 280 then 144 else s - 136
      else if n == 9 then if s <= 144 then 0 else if s <= 256 then s - 144 else 112
      else if n == 7 then if s <= 256 then 0 else if s <= 280 then s - 256 else 24
      else 0
  {
    var l := FixedLit();
    CountRun(l, 0, if s <= 144 then s else 144, 8, n);
    if s > 144 {
      CountRun(l, 144, if s <= 256 then s else 256, 9, n);
    }
    if s > 256 {
      CountRun(l, 256, if s <= 280 then s else 280, 7, n);
    }
    if s > 280 {
      CountRun(l, 280, s, 8, n);
    }
  }

  /** The table of section 3.2.6: codes of 8, 9, 7 and 8 bits, from 00110000, 110010000, 0 and 11000000 on. */
  lemma FixedLitCodes(s: nat)
    requires s < 288
    ensures CodeBits(FixedLit(), s) ==
      if s < 144 then MsbBits(0x30 + s, 8) else if s < 256 then MsbBits(0x190 + s - 144, 9)
      else if s < 280 then MsbBits(s - 256, 7) else MsbBits(0xc0 + s - 280, 8)
  {
    hide FixedLit, MsbBits;
    var l := FixedLit();
    assert |l| == 288 && l[s] == if s < 144 then 8 else if s < 256 then 9 else if s < 280 then 7 else 8 by {
      LitLengths(s);
    }
    assert l[..288] == l;
    forall n
      ensures Used(l, n) == if n == 7 then 24 else if n == 8 then 152 else if n == 9 then 112 else 0
    {
      FixedCount(288, n);
    }
    FixedCount(s, l[s]);
    assert First(l, 6) == 0 by {
      assert First(l, 3) == 0;
    }
    assert First(l, 7) == 0 && First(l, 8) == 48 && First(l, 9) == 400;
  }

  lemma LitLengths(s: nat)
    requires s < 288
    ensures |FixedLit()| == 288
    ensures FixedLit()[s] == if s < 144 then 8 else if s < 256 then 9 else if s < 280 then 7 else 8
  {
  }

  /** Distances are five bits long, in order. */
  lemma FixedDistCodes(s: nat)
    requires s < 30
    ensures CodeBits(FixedDist(), s) == MsbBits(s, 5)
  {
    var l := FixedDist();
    assert l[..30] == l;
    forall n
      ensures Used(l, n) == if n == 5 then 30 else 0
    {
      CountRun(l, 0, 30, 5, n);
    }
    CountRun(l, 0, s, 5, 5);
    assert First(l, 3) == 0;
  }
}
