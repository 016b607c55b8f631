/**
 Canonical Huffman codes, as section 3.2.2 of RFC 1951 assigns them to a list of code lengths:
 codes of one length are consecutive in symbol order, and the first code of a length follows
 the last code of the length before, shifted left.
 */
module Canonical {
  import opened Wrappers
  import opened Bits

  const MAX_BITS: nat := 15

  ghost predicate Lengths(l: seq<nat>) {
    forall i :: 0 <= i < |l| ==> l[i] <= MAX_BITS
  }

  /** How many symbols have codes of n bits (bl_count in the RFC). */
  function Count(l: seq<nat>, n: nat): nat {
    if l == [] then 0 else Count(l[..|l| - 1], n) + if l[|l| - 1] == n then 1 else 0
  }

  /** Count, with the symbols that have no code left out. */
  function Used(l: seq<nat>, n: nat): nat {
    if n == 0 then 0 else Count(l, n)
  }

  /** The smallest code of n bits (next_code in the RFC). */
  function First(l: seq<nat>, n: nat): nat {
    if n == 0 then 0 else 2 * (First(l, n - 1) + Used(l, n - 1))
  }

  /** The code of symbol s. */
  function Code(l: seq<nat>, s: nat): nat
    requires s < |l|
  {
    First(l, l[s]) + Count(l[..s], l[s])
  }

  function CodeBits(l: seq<nat>, s: nat): (c: seq<bit>)
    requires s < |l|
    ensures |c| == l[s]
  {
    MsbBits(Code(l, s), l[s])
  }

  /** The Kraft sum, in units of the longest code. */
  function Kraft(l: seq<nat>): nat {
    if l == [] then 0
    else Kraft(l[..|l| - 1]) + Weight(l[|l| - 1], MAX_BITS)
  }

  function Weight(len: nat, n: nat): nat {
    if 1 <= len <= n then Pow2(n - len) else 0
  }

  ghost predicate Fits(l: seq<nat>) {
    Lengths(l) && Kraft(l) <= Pow2(MAX_BITS)
  }

  /** Unassigned codes of n bits; negative when the code is over-subscribed. */
  function Left(l: seq<nat>, n: nat): int {
    Pow2(n) - First(l, n) - Used(l, n)
  }

  lemma LeftStep(l: seq<nat>, n: nat)
    ensures Left(l, 0) == 1
    ensures Left(l, n + 1) == 2 * Left(l, n) - Count(l, n + 1)
  {
  }

  /** The Kraft sum taken length by length instead of symbol by symbol. */
  function KraftTo(l: seq<nat>, n: nat): nat {
    if n == 0 then 0 else 2 * KraftTo(l, n - 1) + Count(l, n)
  }

  lemma {:induction false} KraftToPush(l: seq<nat>, x: nat, n: nat)
    ensures KraftTo(l + [x], n) == KraftTo(l, n) + Weight(x, n)
  {
    if n > 0 {
      KraftToPush(l, x, n - 1);
      CountPush(l, x, n);
    }
  }

  lemma CountPush(l: seq<nat>, x: nat, n: nat)
    ensures Count(l + [x], n) == Count(l, n) + if x == n then 1 else 0
  {
    assert (l + [x])[..|l|] == l;
  }

  lemma CountStep(l: seq<nat>, s: nat, n: nat)
    requires s < |l|
    ensures Count(l[..s + 1], n) == Count(l[..s], n) + if l[s] == n then 1 else 0
  {
    assert l[..s + 1][..s] == l[..s];
  }

  lemma {:induction false} KraftToEmpty(n: nat)
    ensures KraftTo([], n) == 0
  {
    if n > 0 {
      KraftToEmpty(n - 1);
    }
  }

  lemma {:induction false} KraftToAll(l: seq<nat>)
    ensures KraftTo(l, MAX_BITS) == Kraft(l)
  {
    if l == [] {
      KraftToEmpty(MAX_BITS);
    } else {
      var t := l[..|l| - 1];
      KraftToAll(t);
      assert l == t + [l[|l| - 1]];
      KraftToPush(t, l[|l| - 1], MAX_BITS);
    }
  }

  lemma {:induction false} LeftKraftTo(l: seq<nat>, n: nat)
    ensures Left(l, n) == Pow2(n) - KraftTo(l, n)
  {
    if n > 0 {
      LeftKraftTo(l, n - 1);
      LeftStep(l, n - 1);
    }
  }

  /** Counting down the free codes computes the Kraft sum. */
  lemma LeftKraft(l: seq<nat>)
    ensures Left(l, MAX_BITS) == Pow2(MAX_BITS) - Kraft(l)
  {
    LeftKraftTo(l, MAX_BITS);
    KraftToAll(l);
  }

  /** Once codes run out they stay out, so an early stop is no loss. */
  lemma {:induction false} LeftStaysNegative(l: seq<nat>, m: nat, n: nat)
    requires m <= n && Left(l, m) < 0
    ensures Left(l, n) < 0
  {
    if m < n {
      LeftStaysNegative(l, m, n - 1);
      LeftStep(l, n - 1);
    }
  }

  lemma FitsLeft(l: seq<nat>, n: nat)
    requires Fits(l) && n <= MAX_BITS
    ensures Left(l, n) >= 0
  {
    LeftKraft(l);
    if Left(l, n) < 0 {
      LeftStaysNegative(l, n, MAX_BITS);
    }
  }

  lemma {:induction false} CountPrefix(l: seq<nat>, i: nat, j: nat, n: nat)
    requires i <= j <= |l|
    ensures Count(l[..i], n) <= Count(l[..j], n)
    ensures i < j && l[i] == n ==> Count(l[..i], n) < Count(l[..j], n)
  {
    if i < j {
      CountPrefix(l, i, j - 1, n);
      assert l[..j][..j - 1] == l[..j - 1];
    }
  }

  /** A code is below the first unused value of its length, and fits in its length. */
  lemma CodeBound(l: seq<nat>, s: nat)
    requires s < |l| && l[s] > 0
    ensures First(l, l[s]) <= Code(l, s) < First(l, l[s]) + Count(l, l[s])
    ensures Fits(l) ==> Code(l, s) < Pow2(l[s])
  {
    CountPrefix(l, s, |l|, l[s]);
    assert l[..|l|] == l;
    if Fits(l) {
      FitsLeft(l, l[s]);
    }
  }

  /** Codes of n bits all lie above every extension of a shorter code. */
  lemma {:induction false} FirstGrows(l: seq<nat>, m: nat, n: nat)
    requires 0 < m < n
    ensures First(l, n) >= Pow2(n - m) * (First(l, m) + Count(l, m))
  {
    if m + 1 < n {
      FirstGrows(l, m, n - 1);
      DoubleProduct(Pow2(n - 1 - m), First(l, m) + Count(l, m));
    } else {
      assert Pow2(n - m) == 2 * Pow2(0);
      DoubleProduct(Pow2(0), First(l, m) + Count(l, m));
    }
  }

  /** Symbol s's codeword stands in the bit string at pos. */
  ghost predicate IsAt(l: seq<nat>, s: nat, bits: seq<bit>, pos: nat) {
    s < |l| && l[s] > 0 && At(bits, pos, CodeBits(l, s))
  }

  lemma DivBelow(a: nat, d: nat, q: nat)
    requires d > 0 && a >= d * q
    ensures a / d >= q
  {
    var k := a / d;
    assert d * (q - k) == d * q - d * k;
    if k < q {
      MulAtLeast(d, q - k);
    }
  }

  /** No codeword is a prefix of a longer one. */
  lemma NotPrefix(l: seq<nat>, s: nat, t: nat)
    requires Fits(l) && s < |l| && t < |l| && 0 < l[s] < l[t]
    ensures CodeBits(l, t)[..l[s]] != CodeBits(l, s)
  {
    var d := Pow2(l[t] - l[s]);
    var q := First(l, l[s]) + Count(l, l[s]);
    CodeBound(l, s);
    CodeBound(l, t);
    FirstGrows(l, l[s], l[t]);
    MsbPrefix(Code(l, t), l[t], l[s]);
    DivBelow(Code(l, t), d, q);
    if CodeBits(l, t)[..l[s]] == CodeBits(l, s) {
      QuotientFits(Code(l, t), l[t], l[s]);
      MsbRoundTrip(Code(l, t) / d, l[s]);
      MsbRoundTrip(Code(l, s), l[s]);
      assert false;
    }
  }

  lemma DivAbove(a: nat, d: nat, q: nat)
    requires d > 0 && a < d * q
    ensures a / d < q
  {
    var k := a / d;
    assert d * (k - q) == d * k - d * q;
    assert d * k <= a;
    if k > q {
      MulAtLeast(d, k - q);
    }
  }

  lemma QuotientFits(v: nat, n: nat, m: nat)
    requires m <= n && v < Pow2(n)
    ensures v / Pow2(n - m) < Pow2(m)
  {
    Pow2Add(n - m, m);
    DivAbove(v, Pow2(n - m), Pow2(m));
  }

  lemma SameLength(l: seq<nat>, s: nat, t: nat)
    requires Fits(l) && s < |l| && t < |l| && 0 < l[s] == l[t]
    requires CodeBits(l, s) == CodeBits(l, t)
    ensures s == t
  {
    CodeBound(l, s);
    CodeBound(l, t);
    MsbRoundTrip(Code(l, s), l[s]);
    MsbRoundTrip(Code(l, t), l[t]);
    if s < t {
      CountPrefix(l, s, t, l[s]);
    } else if t < s {
      CountPrefix(l, t, s, l[s]);
    }
  }

  /** At most one symbol's codeword can stand at a position: the code is prefix-free. */
  lemma Unique(l: seq<nat>, s: nat, t: nat, bits: seq<bit>, pos: nat)
    requires Fits(l) && IsAt(l, s, bits, pos) && IsAt(l, t, bits, pos)
    ensures s == t
  {
    if l[s] < l[t] {
      assert CodeBits(l, t)[..l[s]] == bits[pos..pos + l[s]];
      NotPrefix(l, s, t);
    } else if l[t] < l[s] {
      assert CodeBits(l, s)[..l[t]] == bits[pos..pos + l[t]];
      NotPrefix(l, t, s);
    } else {
      SameLength(l, s, t);
    }
  }

  /** Every code value in range belongs to a symbol. */
  lemma {:induction false} Select(l: seq<nat>, n: nat, j: nat) returns (s: nat)
    requires j < Count(l, n)
    ensures s < |l| && l[s] == n && Count(l[..s], n) == j
  {
    var t := l[..|l| - 1];
    if j < Count(t, n) {
      s := Select(t, n, j);
      assert l[..s] == t[..s];
    } else {
      s := |l| - 1;
    }
  }

  /** Where a codeword stands, the bits read as a number are its code, in the range of its length. */
  lemma CodeRead(l: seq<nat>, s: nat, bits: seq<bit>, pos: nat)
    requires Fits(l) && IsAt(l, s, bits, pos)
    ensures Msb(bits[pos..pos + l[s]]) == Code(l, s)
    ensures First(l, l[s]) <= Code(l, s) < First(l, l[s]) + Count(l, l[s])
  {
    CodeBound(l, s);
    MsbRoundTrip(Code(l, s), l[s]);
  }

  /** Any n bits whose number is in the range of length n are a codeword. */
  lemma RangeRead(l: seq<nat>, n: nat, bits: seq<bit>, pos: nat) returns (s: nat)
    requires 0 < n && pos + n <= |bits|
    requires First(l, n) <= Msb(bits[pos..pos + n]) < First(l, n) + Count(l, n)
    ensures IsAt(l, s, bits, pos) && l[s] == n
    ensures Count(l[..s], n) == Msb(bits[pos..pos + n]) - First(l, n)
  {
    var w := bits[pos..pos + n];
    s := Select(l, n, Msb(w) - First(l, n));
    MsbUnique(w);
    assert CodeBits(l, s) == w;
  }

  /** Decoding one symbol: the symbol whose codeword stands at pos, if there is one. */
  ghost function Symbol(l: seq<nat>, bits: seq<bit>, pos: nat): (r: Option<nat>)
    ensures r.Some? ==> IsAt(l, r.value, bits, pos)
    ensures r.None? ==> forall s :: !IsAt(l, s, bits, pos)
  {
    if exists s :: IsAt(l, s, bits, pos) then
      var s :| IsAt(l, s, bits, pos);
      Some(s)
    else
      None
  }

  lemma SymbolAt(l: seq<nat>, s: nat, bits: seq<bit>, pos: nat)
    requires Fits(l)
    ensures Symbol(l, bits, pos) == Some(s) <==> IsAt(l, s, bits, pos)
  {
    if IsAt(l, s, bits, pos) {
      Unique(l, s, Symbol(l, bits, pos).value, bits, pos);
    }
  }

  // ---------------------------------------------------------------- the decoder's symbol table

  /** Where the symbols with codes of n bits start in a table sorted by length, then by symbol. */
  function Offset(l: seq<nat>, n: nat): nat {
    if n <= 1 then 0 else Offset(l, n - 1) + Count(l, n - 1)
  }

  /** The place of symbol s in that table. */
  function Slot(l: seq<nat>, s: nat): nat
    requires s < |l|
  {
    Offset(l, l[s]) + Count(l[..s], l[s])
  }

  lemma {:induction false} OffsetPush(l: seq<nat>, x: nat, n: nat)
    ensures Offset(l + [x], n) == Offset(l, n) + if 1 <= x < n then 1 else 0
  {
    if n > 1 {
      OffsetPush(l, x, n - 1);
      CountPush(l, x, n - 1);
    }
  }

  lemma {:induction false} OffsetEmpty(n: nat)
    ensures Offset([], n) == 0
  {
    if n > 1 {
      OffsetEmpty(n - 1);
    }
  }

  lemma {:induction false} OffsetBound(l: seq<nat>, n: nat)
    ensures Offset(l, n) <= |l|
  {
    if l == [] {
      OffsetEmpty(n);
    } else {
      var t := l[..|l| - 1];
      OffsetBound(t, n);
      assert l == t + [l[|l| - 1]];
      OffsetPush(t, l[|l| - 1], n);
    }
  }

  lemma {:induction false} OffsetMono(l: seq<nat>, m: nat, n: nat)
    requires m <= n
    ensures Offset(l, m) <= Offset(l, n)
  {
    if m < n {
      OffsetMono(l, m, n - 1);
    }
  }

  /** The slots of one length stay below the next length's. */
  lemma SlotBound(l: seq<nat>, s: nat)
    requires s < |l| && l[s] > 0
    ensures Offset(l, l[s]) <= Slot(l, s) < Offset(l, l[s] + 1) <= |l|
  {
    CountPrefix(l, s, |l|, l[s]);
    assert l[..|l|] == l;
    OffsetBound(l, l[s] + 1);
  }

  lemma SlotInjective(l: seq<nat>, s: nat, t: nat)
    requires s < t < |l| && l[s] > 0 && l[t] > 0
    ensures Slot(l, s) != Slot(l, t)
  {
    SlotBound(l, s);
    SlotBound(l, t);
    if l[s] == l[t] {
      CountPrefix(l, s, t, l[s]);
    } else if l[s] < l[t] {
      OffsetMono(l, l[s] + 1, l[t]);
    } else {
      OffsetMono(l, l[t] + 1, l[s]);
    }
  }

  // ---------------------------------------------------------------- particular length lists

  lemma {:induction false} KraftConcat(a: seq<nat>, b: seq<nat>)
    ensures Kraft(a + b) == Kraft(a) + Kraft(b)
  {
    if b == [] {
      assert a + b == a;
    } else {
      assert (a + b)[..|a + b| - 1] == a + b[..|b| - 1];
      KraftConcat(a, b[..|b| - 1]);
    }
  }

  lemma {:induction false} KraftRun(x: nat, k: nat)
    ensures Kraft(seq(k, _ => x)) == k * Weight(x, MAX_BITS)
  {
    hide Weight;
    var l := seq(k, _ => x);
    if k > 0 {
      KraftRun(x, k - 1);
      assert l[..k - 1] == seq(k - 1, _ => x);
      assert Kraft(l) == Kraft(l[..k - 1]) + Weight(x, MAX_BITS);
      MulPred(k, Weight(x, MAX_BITS));
    }
  }

  lemma MulPred(k: nat, w: nat)
    requires k > 0
    ensures k * w == (k - 1) * w + w
  {
  }

  /** A list without codes takes no room. */
  lemma {:induction false} KraftAllZero(l: seq<nat>)
    ensures Count(l, 0) <= |l|
    ensures Count(l, 0) == |l| ==> Kraft(l) == 0
  {
    if l != [] {
      KraftAllZero(l[..|l| - 1]);
    }
  }
}
