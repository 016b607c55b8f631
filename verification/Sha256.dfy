/**
 The streaming SHA-256 of sha256.c: a chaining value, a 64-byte buffer and a byte count that
 absorb a message piece by piece, and that end in the hash FIPS 180-4 gives the whole message.
 */
module Sha256 {
  import opened Wrappers
  import opened Bits
  import opened Fips180

  /** Four bytes shifted and or-ed into a word. */
  function Packed(a: byte, b: byte, c: byte, d: byte): nat {
    BitOr(BitOr(BitOr(a * Pow2(24), b * Pow2(16)), c * Pow2(8)), d)
  }

  lemma PackedIsBigEndian(a: byte, b: byte, c: byte, d: byte)
    ensures Packed(a, b, c, d) == BigEndian([a, b, c, d]) < 0x1_0000_0000
  {
    hide BitOr, Pow2;
    Pow2Is8();
    Pow2Add(8, 8);
    Pow2Add(8, 16);
    assert a * Pow2(24) == (256 * a) * Pow2(16);
    BitOrDisjoint(b * Pow2(16), a, 24);
    assert a * Pow2(24) + b * Pow2(16) == (65536 * a + 256 * b) * Pow2(8);
    assert c * Pow2(8) < Pow2(16);
    assert a * Pow2(24) + b * Pow2(16) == (256 * a + b) * Pow2(16);
    BitOrDisjoint(c * Pow2(8), 256 * a + b, 16);
    assert (256 * a + b) * Pow2(16) + c * Pow2(8) == (65536 * a + 256 * b + c) * Pow2(8);
    BitOrDisjoint(d, 65536 * a + 256 * b + c, 8);
    BigEndianOfFour(a, b, c, d);
  }

  lemma ScheduleFirst(block: seq<byte>, t: nat)
    requires |block| == 64 && t < 16
    ensures Packed(block[4 * t], block[4 * t + 1], block[4 * t + 2], block[4 * t + 3]) < 0x1_0000_0000
    ensures Schedule(block, t)
         == Packed(block[4 * t], block[4 * t + 1], block[4 * t + 2], block[4 * t + 3])
  {
    hide Packed, BigEndian;
    PackedIsBigEndian(block[4 * t], block[4 * t + 1], block[4 * t + 2], block[4 * t + 3]);
  }

  /** The order sha256_block adds the terms of the schedule in. */
  lemma ScheduleNext(block: seq<byte>, t: nat)
    requires |block| == 64 && 16 <= t < 64
    ensures Schedule(block, t) ==
            Plus(Plus(Plus(Schedule(block, t - 16), Sigma0(Schedule(block, t - 15))),
                      Schedule(block, t - 7)), Sigma1(Schedule(block, t - 2)))
  {
    hide Sigma0, Sigma1, BlockWord, Sum, Plus;
    SumReversed(Sigma1(Schedule(block, t - 2)), Schedule(block, t - 7),
                Sigma0(Schedule(block, t - 15)), Schedule(block, t - 16));
  }

  lemma PlusMod(x: nat, y: word)
    ensures Plus(x % 0x1_0000_0000, y) == (x + y) % 0x1_0000_0000
  {
  }

  lemma AddComm(x: Words, y: Words)
    ensures Add(x, y) == Add(y, x)
  {
  }

  lemma SumReversed(a: word, b: word, c: word, d: word)
    ensures Sum(a, b, c, d) == Plus(Plus(Plus(d, c), b), a)
  {
    PlusMod(a + b, c);
    PlusMod(a + b + c, d);
    PlusMod(d + c, b);
    PlusMod(d + c + b, a);
  }

  /** The part of a message that is in whole blocks, and the rest. */
  function Whole(m: seq<byte>): (s: seq<byte>)
    ensures |s| % 64 == 0
  {
    m[..|m| - |m| % 64]
  }

  function Rest(m: seq<byte>): (s: seq<byte>)
    ensures |s| == |m| % 64
  {
    m[|m| - |m| % 64..]
  }

  lemma Start()
    ensures Whole([]) == [] && Rest([]) == [] && Blocks(INITIAL, []) == INITIAL
  {
  }

  /** A piece that leaves the buffer with room adds no block. */
  lemma WholeKept(m: seq<byte>, x: seq<byte>)
    requires |Rest(m)| + |x| < 64
    ensures Whole(m + x) == Whole(m) && Rest(m + x) == Rest(m) + x
  {
  }

  /** A piece that fills the buffer adds the buffer as one block. */
  lemma WholeGrows(m: seq<byte>, x: seq<byte>)
    requires |Rest(m)| + |x| == 64
    ensures Whole(m + x) == Whole(m) + (Rest(m) + x) && Rest(m + x) == []
    ensures Blocks(INITIAL, Whole(m + x)) == Compress(Blocks(INITIAL, Whole(m)), Rest(m) + x)
  {
    hide Blocks, Compress;
    assert m + x == Whole(m) + (Rest(m) + x);
    BlocksSnoc(INITIAL, Whole(m), Rest(m) + x);
  }

  lemma ZerosNext(z: nat)
    ensures Zeros(z + 1) == Zeros(z) + [0]
  {
  }

  lemma DivDiv256(v: nat, p: nat)
    requires p > 0
    ensures v / 256 / p == v / (256 * p)
  {
    var q, r := v / 256 / p, v / 256 % p;
    assert v / 256 == p * q + r;
    assert v == 256 * (v / 256) + v % 256;
    assert (256 * p) * q == 256 * (p * q);
    DivMod(q, 256 * p, 256 * r + v % 256);
  }

  /** Octet i of n is the number shifted right by the octets after it. */
  lemma {:induction false} OctetAt(v: nat, n: nat, i: nat)
    requires i < n
    ensures Octets(v, n)[i] == v / Pow2(8 * (n - 1 - i)) % 256
    decreases n
  {
    hide Pow2;
    if i < n - 1 {
      OctetAt(v / 256, n - 1, i);
      Pow2Add(8, 8 * (n - 2 - i));
      Pow2Is8();
      DivDiv256(v, Pow2(8 * (n - 2 - i)));
    } else {
      One(v);
    }
  }

  lemma One(v: nat)
    ensures v / Pow2(0) == v
  {
  }

  lemma BitCount(n: nat)
    ensures n % TWO_TO_THE_64 * 8 % TWO_TO_THE_64 == 8 * n % TWO_TO_THE_64
  {
    var q, r := n / TWO_TO_THE_64, n % TWO_TO_THE_64;
    var a, b := r * 8 / TWO_TO_THE_64, r * 8 % TWO_TO_THE_64;
    assert 8 * n == b + TWO_TO_THE_64 * (8 * q + a);
    DivMod(8 * q + a, TWO_TO_THE_64, b);
  }

  lemma CountOn(n: nat, k: nat)
    ensures (n % TWO_TO_THE_64 + k) % TWO_TO_THE_64 == (n + k) % TWO_TO_THE_64
  {
  }

  lemma WholeAll(m: seq<byte>)
    requires |m| % 64 == 0
    ensures Whole(m) == m
  {
  }

  const DIGITS := "0123456789abcdef"

  function Hex(v: nat, n: nat): string {
    if n == 0 then "" else Hex(v / 16, n - 1) + [DIGITS[v % 16]]
  }

  function HexOf(ws: seq<word>): string {
    if ws == [] then "" else HexOf(ws[..|ws| - 1]) + Hex(ws[|ws| - 1], 8)
  }

  function Listed(v: Words): seq<word> { [v.a, v.b, v.c, v.d, v.e, v.f, v.g, v.h] }

  /** What a hexadecimal text in small letters reads as. */
  function FromHex(t: string): nat {
    if t == "" then 0
    else
      var c := t[|t| - 1];
      16 * FromHex(t[..|t| - 1]) +
        if '0' <= c <= '9' then c as int - '0' as int else if 'a' <= c <= 'f' then c as int - 'a' as int + 10 else 0
  }

  lemma {:induction false} HexReads(v: nat, n: nat)
    requires v < Pow2(4 * n)
    ensures |Hex(v, n)| == n && FromHex(Hex(v, n)) == v
    ensures forall i :: 0 <= i < n ==> Hex(v, n)[i] in "0123456789abcdef"
  {
    if n > 0 {
      Pow2By16(4 * n - 4);
      HexReads(v / 16, n - 1);
      assert Hex(v, n)[..n - 1] == Hex(v / 16, n - 1);
      DigitReads(v % 16);
    }
  }

  lemma Pow2By16(m: nat)
    ensures Pow2(m + 4) == 16 * Pow2(m)
  {
    Pow2Add(4, m);
    assert Pow2(4) == 16;
  }

  lemma DigitReads(d: nat)
    requires d < 16
    ensures DIGITS[d] in "0123456789abcdef"
    ensures var c := DIGITS[d]; d == if '0' <= c <= '9' then c as int - '0' as int else c as int - 'a' as int + 10
    ensures '0' <= DIGITS[d] <= '9' || 'a' <= DIGITS[d] <= 'f'
  {
  }

  /** The text of the words: eight digits for each, in order. */
  lemma {:induction false} TextReads(ws: seq<word>, i: nat)
    requires i < |ws|
    ensures |HexOf(ws)| == 8 * |ws| && FromHex(HexOf(ws)[8 * i..8 * i + 8]) == ws[i]
  {
    hide Hex, FromHex, Pow2;
    var n := |ws| - 1;
    assert ws[n] < Pow2(4 * 8) by { WordFits(); }
    HexReads(ws[n], 8);
    if n > 0 {
      TextReads(ws[..n], if i < n then i else 0);
    }
    var t := HexOf(ws[..n]);
    assert |t| == 8 * n;
    if i < n {
      assert HexOf(ws)[8 * i..8 * i + 8] == t[8 * i..8 * i + 8];
    } else {
      assert HexOf(ws)[8 * n..8 * n + 8] == Hex(ws[n], 8);
    }
  }

  lemma WordFits()
    ensures Pow2(32) == 0x1_0000_0000
  {
    hide Pow2;
    Pow2Is8();
    Pow2Add(8, 8);
    Pow2Add(16, 16);
  }

  /** What a file holds when successive reads return these pieces; an empty read is its end. */
  function Content(pieces: seq<seq<byte>>): seq<byte> {
    if pieces == [] || pieces[0] == [] then [] else pieces[0] + Content(pieces[1..])
  }

  lemma ContentNext(pieces: seq<seq<byte>>, i: nat)
    requires i <= |pieces|
    ensures Content(pieces[i..])
         == if i == |pieces| || pieces[i] == [] then [] else pieces[i] + Content(pieces[i + 1..])
  {
    if i < |pieces| {
      assert pieces[i..][1..] == pieces[i + 1..];
    }
  }

  lemma Regroup(s: seq<byte>, t: seq<byte>, u: seq<byte>)
    ensures (s + t) + u == s + (t + u)
  {
  }

  class State {
    const state: array<word>
    const buf: array<byte>
    var count: nat
    var used: nat
    ghost var seen: seq<byte>

    /** The fields hold the chaining value of the whole blocks of seen, and the rest of it. */
    ghost predicate Fed()
      reads this`used, this`seen, state, buf
    {
      && state.Length == 8 && buf.Length == 64
      && Chain() == Blocks(INITIAL, Whole(seen))
      && used == |Rest(seen)| && buf[..used] == Rest(seen)
    }

    ghost predicate Valid()
      reads this`count, this`used, this`seen, state, buf
    {
      Fed() && count == |seen| % TWO_TO_THE_64
    }

    constructor ()
      ensures Valid() && seen == [] && fresh(state) && fresh(buf)
    {
      hide Blocks, Whole, Rest;
      state := new word[8](_ => 0);
      buf := new byte[64](_ => 0);
      count, used, seen := 0, 0, [];
      new;
      Start();
      state[0], state[1], state[2], state[3] :=
        0x6a09e667, 0xbb67ae85, 0x3c6ef372, 0xa54ff53a;
      state[4], state[5], state[6], state[7] :=
        0x510e527f, 0x9b05688c, 0x1f83d9ab, 0x5be0cd19;
    }

    method Expand() returns (w: array<word>)
      requires buf.Length == 64
      ensures fresh(w) && w.Length == 64
      ensures forall t :: 0 <= t < 64 ==> w[t] == Schedule(buf[..], t)
    {
      hide Rotr, Shr, Xor, Plus, Packed, Schedule;
      w := new word[64](_ => 0);
      for i := 0 to 16
        invariant forall t :: 0 <= t < i ==> w[t] == Schedule(buf[..], t)
      {
        ScheduleFirst(buf[..], i);
        w[i] := Packed(buf[i * 4], buf[i * 4 + 1], buf[i * 4 + 2], buf[i * 4 + 3]);
      }
      for i := 16 to 64
        invariant forall t :: 0 <= t < i ==> w[t] == Schedule(buf[..], t)
      {
        ScheduleNext(buf[..], i);
        var s0 := Xor(Xor(Rotr(w[i - 15], 7), Rotr(w[i - 15], 18)), Shr(w[i - 15], 3));
        var s1 := Xor(Xor(Rotr(w[i - 2], 17), Rotr(w[i - 2], 19)), Shr(w[i - 2], 10));
        w[i] := Plus(Plus(Plus(w[i - 16], s0), w[i - 7]), s1);
      }
    }

    ghost function Chain(): Words
      reads state
      requires state.Length == 8
    {
      Words(state[0], state[1], state[2], state[3], state[4], state[5], state[6], state[7])
    }

    /** One step of section 6.2.2 on the buffer. */
    method Block()
      requires state.Length == 8 && buf.Length == 64
      modifies state
      ensures Chain() == Compress(old(Chain()), buf[..])
    {
      hide Rotr, Xor, And, Not, Plus, Schedule;
      var w := Expand();
      var a, b, c, d := state[0], state[1], state[2], state[3];
      var e, f, g, h := state[4], state[5], state[6], state[7];
      for i := 0 to 64
        invariant Words(a, b, c, d, e, f, g, h) == Rounds(old(Chain()), buf[..], i)
      {
        var s1 := Xor(Xor(Rotr(e, 6), Rotr(e, 11)), Rotr(e, 25));
        var ch := Xor(And(e, f), And(Not(e), g));
        var t1 := Plus(Plus(Plus(Plus(h, s1), ch), K[i]), w[i]);
        var s0 := Xor(Xor(Rotr(a, 2), Rotr(a, 13)), Rotr(a, 22));
        var maj := Xor(Xor(And(a, b), And(a, c)), And(b, c));
        var t2 := Plus(s0, maj);
        h, g, f, e := g, f, e, Plus(d, t1);
        d, c, b, a := c, b, a, Plus(t1, t2);
      }
      AddComm(old(Chain()), Words(a, b, c, d, e, f, g, h));
      state[0], state[1], state[2], state[3] :=
        Plus(state[0], a), Plus(state[1], b), Plus(state[2], c), Plus(state[3], d);
      state[4], state[5], state[6], state[7] :=
        Plus(state[4], e), Plus(state[5], f), Plus(state[6], g), Plus(state[7], h);
    }

    /** The bytes of p follow those already seen. */
    method Update(p: seq<byte>)
      requires Fed()
      modifies this`count, this`used, this`seen, state, buf
      ensures Fed() && seen == old(seen) + p && used == |seen| % 64
      ensures count == (old(count) + |p|) % TWO_TO_THE_64
      ensures old(Valid()) ==> Valid()
    {
      hide Blocks, Compress, Whole, Rest;
      count := (count + |p|) % TWO_TO_THE_64;
      var n := 0;
      while n < |p|
        invariant n <= |p| && Fed() && seen == old(seen) + p[..n]
        invariant count == (old(count) + |p|) % TWO_TO_THE_64
      {
        var take := buf.Length - used;
        if take > |p| - n {
          take := |p| - n;
        }
        Absorb(p[n..n + take]);
        n := n + take;
      }
      assert p[..n] == p;
      CountOn(|old(seen)|, |p|);
    }

    /** The read loop of roam_sha256_file. */
    method Feed(pieces: seq<seq<byte>>)
      requires Valid()
      modifies this`count, this`used, this`seen, state, buf
      ensures Valid() && seen == old(seen) + Content(pieces)
    {
      hide Fed, Content;
      assert pieces[0..] == pieces;
      var i := 0;
      while i < |pieces| && pieces[i] != []
        invariant i <= |pieces| && Valid() && seen + Content(pieces[i..]) == old(seen) + Content(pieces)
      {
        ContentNext(pieces, i);
        Regroup(seen, pieces[i], Content(pieces[i + 1..]));
        Update(pieces[i]);
        i := i + 1;
      }
      ContentNext(pieces, i);
    }

    /** A piece the buffer has room for: copied, and the buffer compressed when it is full. */
    method Absorb(x: seq<byte>)
      requires Fed() && used + |x| <= 64
      modifies this`used, this`seen, state, buf
      ensures Fed() && seen == old(seen) + x
    {
      hide Blocks, Compress, Whole, Rest;
      ghost var rest := Rest(seen);
      forall i | 0 <= i < |x| {
        buf[used + i] := x[i];
      }
      used := used + |x|;
      assert buf[..used] == rest + x;
      if used < 64 {
        WholeKept(seen, x);
      } else {
        WholeGrows(seen, x);
        assert buf[..] == rest + x;
        Block();
        used := 0;
      }
      seen := seen + x;
    }

    /** The padding of FIPS 180-4 with a zero byte at a time until the length fits. */
    method Pad()
      requires Fed()
      modifies this`count, this`used, this`seen, state, buf
      ensures Fed() && seen == old(seen) + [0x80] + Zeros(ZeroCount(|old(seen)|))
    {
      hide Fed, Zeros;
      ghost var m := seen;
      Update([0x80]);
      ghost var z := 0;
      while used != 56
        invariant Fed() && used == |seen| % 64
        invariant seen == m + [0x80] + Zeros(z) && z <= ZeroCount(|m|)
        decreases ZeroCount(|m|) - z
      {
        Update([0]);
        z := z + 1;
        ZerosNext(z - 1);
      }
    }

    /** The eight bytes of the length, each put in with the count cleared. */
    method PutLength(bits: nat)
      requires Fed() && bits < TWO_TO_THE_64
      modifies this`count, this`used, this`seen, state, buf
      ensures Fed() && seen == old(seen) + Octets(bits, 8)
    {
      hide Fed, Octets, Pow2;
      ghost var all := Octets(bits, 8);
      for i := 0 to 8
        invariant Fed() && seen == old(seen) + all[..i]
      {
        OctetAt(bits, 8, i);
        var octet := bits / Pow2(56 - i * 8) % 256;
        count := 0;
        Update([octet]);
        assert all[..i + 1] == all[..i] + [octet];
      }
      assert all[..8] == all;
    }

    method Text() returns (hex: string)
      requires state.Length == 8
      ensures hex == HexOf(Listed(Chain()))
    {
      hex := "";
      for i := 0 to 8
        invariant hex == HexOf(state[..i])
      {
        hex := hex + Hex(state[i], 8);
        assert state[..i + 1][..i] == state[..i];
      }
      assert state[..8] == Listed(Chain());
    }

    method Final() returns (hex: string)
      requires Valid()
      modifies this`count, this`used, this`seen, state, buf
      ensures hex == HexOf(Listed(Hash(old(seen))))
    {
      hide HexOf, Octets, Zeros, ZeroCount, Blocks, Whole, Rest;
      var bits := count * 8 % TWO_TO_THE_64;
      BitCount(|seen|);
      Pad();
      PutLength(bits);
      assert seen == Padded(old(seen));
      WholeAll(seen);
      hex := Text();
    }
  }

  /** However a file is cut into reads, the text is that of the hash of the whole. */
  method HashFile(pieces: seq<seq<byte>>, len: nat) returns (hex: Option<string>)
    ensures hex == if len < 65 then None else Some(HexOf(Listed(Hash(Content(pieces)))))
  {
    if len < 65 {
      return None;
    }
    hide State.Fed, Hash, Listed, HexOf, Content;
    var s := new State();
    s.Feed(pieces);
    assert s.seen == Content(pieces);
    var text := s.Final();
    return Some(text);
  }

  method HashData(data: seq<byte>, len: nat) returns (hex: Option<string>)
    ensures hex == if len < 65 then None else Some(HexOf(Listed(Hash(data))))
  {
    if len < 65 {
      return None;
    }
    hide State.Fed, Hash, Listed, HexOf, Content;
    var s := new State();
    s.Update(data);
    assert s.seen == data;
    var text := s.Final();
    return Some(text);
  }
}
