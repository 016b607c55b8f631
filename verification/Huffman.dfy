/** The decoder's Huffman tables (struct huffman): how they are built from code lengths. */
module Huffman {
  import opened Bits
  import opened Canonical

  const FIX_LCODES: nat := 288

  class Table {
    /** How many codes there are of each length, and the symbols sorted by length. */
    const count: array<nat>
    const symbol: array<nat>

    ghost predicate Shape() {
      count.Length == MAX_BITS + 1 && symbol.Length == FIX_LCODES && count != symbol
    }

    constructor ()
      ensures Shape() && fresh(count) && fresh(symbol)
    {
      count := new nat[MAX_BITS + 1];
      symbol := new nat[FIX_LCODES];
    }

    ghost predicate Counts(l: seq<nat>)
      requires Shape()
      reads count
    {
      forall k :: 0 <= k <= MAX_BITS ==> count[k] == Count(l, k)
    }

    /** The first upto symbols of l are in their slots. */
    ghost predicate Sorted(l: seq<nat>, upto: nat)
      requires Shape() && |l| <= FIX_LCODES && upto <= |l|
      reads symbol
    {
      forall s :: 0 <= s < upto && l[s] > 0 ==> Slot(l, s) < FIX_LCODES && symbol[Slot(l, s)] == s
    }

    /** The table decodes the canonical code with lengths l. */
    ghost predicate For(l: seq<nat>)
      reads count, symbol
    {
      Shape() && |l| <= FIX_LCODES && Fits(l) && Counts(l) && Sorted(l, |l|)
    }

    /** Counts the lengths. */
    method CountLengths(length: seq<nat>)
      requires Shape() && Lengths(length)
      modifies count
      ensures Counts(length)
    {
      for k := 0 to MAX_BITS + 1
        invariant forall j :: 0 <= j < k ==> count[j] == 0
      {
        count[k] := 0;
      }
      for s := 0 to |length|
        invariant forall k :: 0 <= k <= MAX_BITS ==> count[k] == Count(length[..s], k)
      {
        assert length[..s + 1][..s] == length[..s];
        count[length[s]] := count[length[s]] + 1;
      }
      assert length[..|length|] == length;
    }

    /**
     Builds the table and reports how much of the code space is free: negative when there are
     more codes than fit, zero when the code is complete or there is none at all.
     */
    method Build(length: seq<nat>) returns (left: int)
      requires Shape() && |length| <= FIX_LCODES && Lengths(length)
      modifies count, symbol
      ensures Counts(length)
      ensures left < 0 <==> Kraft(length) > Pow2(MAX_BITS)
      ensures left == 0 <==> Kraft(length) == Pow2(MAX_BITS) || Count(length, 0) == |length|
      ensures left > 0 ==> left == Pow2(MAX_BITS) - Kraft(length)
      ensures left >= 0 ==> For(length)
    {
      left := 1;
      CountLengths(length);
      KraftAllZero(length);
      if count[0] == |length| {
        assert Sorted(length, |length|) by {
          NoneUsed(length);
        }
        return 0;
      }

      var len := 1;
      while len <= MAX_BITS
        invariant 1 <= len <= MAX_BITS + 1
        invariant left == Left(length, len - 1) && left >= 0
        invariant Counts(length)
      {
        left := left * 2;
        left := left - count[len];
        LeftStep(length, len - 1);
        if left < 0 {
          LeftStaysNegative(length, len, MAX_BITS);
          LeftKraft(length);
          return;
        }
        len := len + 1;
      }
      LeftKraft(length);
      Sort(length);
    }

    method Sort(length: seq<nat>)
      requires Shape() && |length| <= FIX_LCODES && Lengths(length) && Counts(length)
      modifies symbol
      ensures Sorted(length, |length|)
    {
      hide Count, Slot, Offset;
      var offs := new nat[MAX_BITS + 1];
      OffsetStep(length, 1);
      offs[1] := 0;
      for len := 1 to MAX_BITS
        invariant forall k :: 1 <= k <= len ==> offs[k] == Offset(length, k)
        invariant Counts(length)
      {
        OffsetStep(length, len);
        offs[len + 1] := offs[len] + count[len];
      }
      FillSlots(length, offs);
    }

    method FillSlots(length: seq<nat>, offs: array<nat>)
      requires Shape() && |length| <= FIX_LCODES && Lengths(length)
      requires offs.Length == MAX_BITS + 1 && offs != symbol
      requires forall k :: 1 <= k <= MAX_BITS ==> offs[k] == Offset(length, k)
      modifies symbol, offs
      ensures Sorted(length, |length|)
    {
      hide Count, Offset;
      EmptyCounts();
      for s := 0 to |length|
        invariant forall k :: 1 <= k <= MAX_BITS ==> offs[k] == Offset(length, k) + Count(length[..s], k)
        invariant Sorted(length, s)
      {
        forall k | 1 <= k <= MAX_BITS
          ensures Count(length[..s + 1], k) == Count(length[..s], k) + if length[s] == k then 1 else 0
        {
          CountStep(length, s, k);
        }
        if length[s] > 0 {
          SlotBound(length, s);
          forall t | 0 <= t < s && length[t] > 0
            ensures Slot(length, t) != Slot(length, s)
          {
            SlotInjective(length, t, s);
          }
          symbol[offs[length[s]]] := s;
          offs[length[s]] := offs[length[s]] + 1;
        }
      }
    }
  }

  lemma OffsetStep(l: seq<nat>, n: nat)
    requires n >= 1
    ensures Offset(l, 1) == 0 && Offset(l, n + 1) == Offset(l, n) + Count(l, n)
  {
  }

  lemma EmptyCounts()
    ensures forall k :: Count([], k) == 0
  {
  }

  /** When every length is zero, no symbol has one. */
  lemma {:induction false} NoneUsed(l: seq<nat>)
    requires Count(l, 0) == |l|
    ensures forall s :: 0 <= s < |l| ==> l[s] == 0
  {
    if l != [] {
      KraftAllZero(l[..|l| - 1]);
      NoneUsed(l[..|l| - 1]);
    }
  }
}
