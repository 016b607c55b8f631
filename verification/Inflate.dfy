/**
 What the decoder of module Apk promises, for all inputs: it inverts the encoder of RFC 1951,
 its output is bounded by its input, and it accepts one kind of input the RFC does not describe.
 */
module Inflate {
  import opened Wrappers
  import opened Bits
  import opened Canonical
  import opened Rfc1951
  import opened Parse
  import Apk

  // ---------------------------------------------------------------- round trip

  /** Without cut-off symbols, an encoding does not depend on how much input follows it. */
  lemma {:induction false} LensAnySize(ks: List<LenCode>, cl: seq<nat>, total: nat, acc: seq<nat>, r1: int, r2: int)
    requires Standard(ks) && LensOk(ks, cl, total, acc, r1)
    ensures LensOk(ks, cl, total, acc, r2)
    ensures EncLens(ks, cl, total, acc, r1) == EncLens(ks, cl, total, acc, r2)
    ensures |acc| <= total ==> Unroll(ks, cl, total, acc, r1) == Unroll(ks, cl, total, acc, r2)
    decreases ks
  {
    match ks
    case Nil =>
    case Cons(k, rest) =>
      var d := cl[k.Sym()] + k.ExtraBits();
      LensAnySize(rest, cl, total, Step(acc, k), r1 - cl[k.Sym()] - k.ExtraBits(), r2 - cl[k.Sym()] - k.ExtraBits());
  }

  lemma HeadAnySize(h: Head, at: nat, s1: nat, s2: nat)
    requires Standard(h.ks) && HeadOk(h, at, s1)
    ensures HeadOk(h, at, s2)
    ensures EncHead(h, at, s1) == EncHead(h, at, s2) && TablesOf(h, at, s1) == TablesOf(h, at, s2)
  {
    hide LensOk, EncLens, Unroll, Scatter, Complete;
    LensAnySize(h.ks, Scatter(h.raw), h.nlen + h.ndist, [], s1 - LensStart(h, at), s2 - LensStart(h, at));
  }

  lemma BlockAnySize(b: Block, pos: nat, s1: nat, s2: nat, out: seq<byte>)
    requires b.Dynamic? ==> Standard(b.head.ks)
    requires BlockOk(b, pos, s1, |out|)
    ensures BlockOk(b, pos, s2, |out|)
    ensures forall last :: EncBlock(b, last, pos, s1, |out|) == EncBlock(b, last, pos, s2, |out|)
    ensures Apply(out, b, pos, s1) == Apply(out, b, pos, s2)
  {
    hide HeadOk, EncHead, TablesOf, TokensOk, EncTokens, TablesOk, LsbBits;
    if b.Dynamic? {
      HeadAnySize(b.head, pos + 3, s1, s2);
    }
  }

  lemma {:induction false} BlocksAnySize(bs: List<Block>, pos: nat, s1: nat, s2: nat, out: seq<byte>)
    requires StandardBlocks(bs) && BlocksOk(bs, pos, s1, out)
    ensures BlocksOk(bs, pos, s2, out)
    ensures EncBlocks(bs, pos, s1, out) == EncBlocks(bs, pos, s2, out)
    ensures Expand(bs, pos, s1, out) == Expand(bs, pos, s2, out)
    decreases bs
  {
    hide BlockOk, EncBlock, Apply;
    match bs
    case Cons(b, rest) =>
      BlockAnySize(b, pos, s1, s2, out);
      if rest != Nil {
        BlocksAnySize(rest, End(b, pos, s1, |out|), s1, s2, Apply(out, b, pos, s1));
      }
  }

  /**
   The round trip: whatever an RFC 1951 encoder writes, at the start of the compressed part of a
   container and with any bits after it, is unpacked to the bytes its blocks stand for, exactly
   when these are any bytes at all. The encoder works without knowing the size of the input, given
   here as 0.
   */
  lemma RoundTrip(bs: List<Block>, data: seq<byte>)
    requires StandardBlocks(bs) && BlocksOk(bs, 0, 0, [])
    requires |data| >= 4 && data[..3] == Apk.MAGIC && data[3] == Apk.DEFLATED
    requires At(Stream(data[4..]), 0, EncBlocks(bs, 0, 0, []))
    ensures Apk.Contents(data) == Some(Expand(bs, 0, 0, []))
    ensures Apk.Unpacked(data) == Some(Expand(bs, 0, 0, [])) <==> Expand(bs, 0, 0, []) != []
    ensures Apk.Unpacked(data) == None <==> Expand(bs, 0, 0, []) == []
  {
    hide At, EncBlocks, Expand, BlocksOk, ParseBlocks, Stream, StandardBlocks;
    var bits := Stream(data[4..]);
    BlocksAnySize(bs, 0, 0, |bits|, []);
    BlocksComplete(bs, bits, 0, []);
  }

  /** One stored block without bytes, which RFC 1951 allows: five bits of padding and two lengths. */
  const EMPTY: List<Block> := Cons(Stored([0, 0, 0, 0, 0], []), Nil)

  /** The block as bytes 01 00 00 ff ff, after the magic of a container. */
  function EmptyInput(): seq<byte>
    requires BlocksOk(EMPTY, 0, 0, []) && |EncBlocks(EMPTY, 0, 0, [])| == 40
  {
    Apk.MAGIC + [Apk.DEFLATED] + Bytes(EncBlocks(EMPTY, 0, 0, []), 0, 5)
  }

  lemma EmptyFits()
    ensures BlocksOk(EMPTY, 0, 0, []) && |EncBlocks(EMPTY, 0, 0, [])| == 40
    ensures Expand(EMPTY, 0, 0, []) == []
  {
  }

  /** The round trip fails for a stream of no bytes: it is well formed, and unpacking it fails. */
  lemma EmptyStreamFails()
    ensures StandardBlocks(EMPTY) && BlocksOk(EMPTY, 0, 0, []) && |EncBlocks(EMPTY, 0, 0, [])| == 40
    ensures At(Stream(EmptyInput()[4..]), 0, EncBlocks(EMPTY, 0, 0, []))
    ensures Apk.Unpacked(EmptyInput()) == None
  {
    hide BlocksOk, EncBlocks, Expand, Stream;
    EmptyFits();
    var bits := EncBlocks(EMPTY, 0, 0, []);
    var body := Bytes(bits, 0, 5);
    assert EmptyInput()[4..] == body && EmptyInput()[..3] == Apk.MAGIC;
    BytesAt(bits, 0, body);
    assert bits[0..40] == bits && Stream(body) == bits;
    RoundTrip(EMPTY, EmptyInput());
  }

  // ---------------------------------------------------------------- output bound

  const RATIO: nat := 129

  lemma {:induction false} TokensBound(ts: List<Token>, c: Tables, out: seq<byte>)
    requires TokensOk(ts, c, |out|)
    ensures |PutAll(out, ts, c)| <= |out| + RATIO * |EncTokens(ts, c, |out|)|
    decreases ts
  {
    hide EncToken, Writable, Put, CodeBits, Token.Valid, Token.Length, Token.Distance;
    match ts
    case Nil =>
    case Cons(t, rest) =>
      TokenBound(t, c);
      Apk.PutSize(out, t);
      TokensBound(rest, c, Put(out, t));
  }

  /** A literal takes at least one bit, a copy of at most 258 bytes at least two. */
  lemma TokenBound(t: Token, c: Tables)
    requires Writable(t, c)
    ensures t.Length() <= RATIO * |EncToken(t, c)|
  {
    if t.Copy? {
      LengthBound(t.lenSym, t.lenExtra);
      CopySize(t, c);
    }
  }

  lemma CopySize(t: Token, c: Tables)
    requires Writable(t, c) && t.Copy?
    ensures |EncToken(t, c)| >= 2
  {
    hide LengthExtra, DistExtra;
  }

  lemma LengthBound(sym: nat, extra: nat)
    requires sym < 29 && extra < Pow2(LengthExtra(sym))
    ensures LengthBase(sym) + extra <= 258
  {
    assert Pow2(1) == 2 && Pow2(2) == 4 && Pow2(3) == 8;
    PowersOfTwo();
  }

  lemma BlockBound(b: Block, last: bool, pos: nat, size: nat, out: seq<byte>)
    requires BlockOk(b, pos, size, |out|)
    ensures |Apply(out, b, pos, size)| <= |out| + RATIO * |EncBlock(b, last, pos, size, |out|)|
  {
    hide TablesOf, HeadOk, EncHead, FixedTables, TokensOk, EncTokens, TablesOk, PutAll;
    match b
    case Stored(_, data) => EncStoredSize(data);
    case Fixed(ts) => TokensBound(ts, FixedTables(), out);
    case Dynamic(h, ts) => TokensBound(ts, TablesOf(h, pos + 3, size), out);
  }

  lemma {:induction false} BlocksBound(bs: List<Block>, pos: nat, size: nat, out: seq<byte>)
    requires BlocksOk(bs, pos, size, out)
    ensures |Expand(bs, pos, size, out)| <= |out| + RATIO * |EncBlocks(bs, pos, size, out)|
    decreases bs
  {
    hide BlockOk, EncBlock, Apply;
    match bs
    case Cons(b, rest) =>
      BlockBound(b, rest == Nil, pos, size, out);
      if rest != Nil {
        BlocksBound(rest, End(b, pos, size, |out|), size, Apply(out, b, pos, size));
      }
  }

  /** Whatever the input, the output is at most 1032 times as long. */
  lemma OutputBound(data: seq<byte>)
    ensures Apk.Contents(data).Some? ==> |Apk.Contents(data).value| <= 8 * RATIO * |data|
  {
    hide At, EncBlocks, Expand, BlocksOk, ParseBlocks, Stream;
    if |data| >= 4 && Inflate(Stream(data[4..])).Some? {
      var bits := Stream(data[4..]);
      BlocksSound(bits, 0, []);
      var bs := ParseBlocks(bits, 0, []).value;
      BlocksBound(bs, 0, |bits|, []);
      AtBound(bits, 0, EncBlocks(bs, 0, |bits|, []));
    }
  }

  // ---------------------------------------------------------------- what is accepted

  /** A cut-off symbol can only stand in the last seven bits of the input. */
  lemma {:induction false} LensCut(ks: List<LenCode>, cl: seq<nat>, total: nat, acc: seq<nat>, room: int)
    requires LensOk(ks, cl, total, acc, room) && !Standard(ks)
    ensures room - |EncLens(ks, cl, total, acc, room)| < 7
    decreases ks
  {
    match ks
    case Cons(k, rest) =>
      EncLenSize(k, cl);
      if Standard(rest) {
      } else {
        LensCut(rest, cl, total, Step(acc, k), room - cl[k.Sym()] - k.ExtraBits());
      }
  }

  lemma BlockCut(b: Block, last: bool, pos: nat, size: nat, n: nat)
    requires BlockOk(b, pos, size, n) && b.Dynamic? && !Standard(b.head.ks)
    ensures size - pos - |EncBlock(b, last, pos, size, n)| < 7
  {
    hide LensOk, EncLens, Scatter, Complete, TokensOk, EncTokens, TablesOf, TablesOk, LsbBits;
    var h, at := b.head, pos + 3;
    LensCut(h.ks, Scatter(h.raw), h.nlen + h.ndist, [], size - LensStart(h, at));
    assert |EncHead(h, at, size)| == 14 + 3 * |h.raw| + |EncHeadLens(h, at, size)|;
    assert |EncBody(b, pos, size, n)| >= |EncHead(h, at, size)|;
  }

  lemma {:induction false} BlocksCut(bs: List<Block>, pos: nat, size: nat, out: seq<byte>)
    requires BlocksOk(bs, pos, size, out) && !StandardBlocks(bs)
    ensures size - pos - |EncBlocks(bs, pos, size, out)| < 7
    decreases bs
  {
    hide BlockOk, EncBlock, Apply;
    match bs
    case Cons(b, rest) =>
      if b.Dynamic? && !Standard(b.head.ks) {
        BlockCut(b, rest == Nil, pos, size, |out|);
      } else {
        BlocksCut(rest, End(b, pos, size, |out|), size, Apply(out, b, pos, size));
      }
  }

  /** The bit string starts with a list of blocks that RFC 1951 allows. */
  ghost predicate RfcStream(bits: seq<bit>) {
    exists bs :: StandardBlocks(bs) && Encodes(bs, bits)
  }

  /**
   An accepted input is one the RFC describes exactly when no symbol 18 of its code lengths was cut
   off; and it always is when at least seven bits of the input are left over.
   */
  lemma AcceptedIff(bits: seq<bit>)
    requires Inflate(bits).Some?
    ensures RfcStream(bits) <==> StandardBlocks(ParseBlocks(bits, 0, []).value)
    ensures ParseBlocks(bits, 0, []).pos + 7 <= |bits| ==> RfcStream(bits)
  {
    hide ParseBlocks, EncBlocks, BlocksOk, StandardBlocks, At;
    var bs := ParseBlocks(bits, 0, []).value;
    BlocksSound(bits, 0, []);
    assert Encodes(bs, bits);
    forall cs | StandardBlocks(cs) && Encodes(cs, bits)
      ensures cs == bs
    {
      EncodingUnique(bs, cs, bits);
    }
    if !StandardBlocks(bs) {
      BlocksCut(bs, 0, |bits|, []);
    }
  }
}
