/**
 The DEFLATE decoder of package/roamd/src/apk.c. Each method is proved to compute what the
 parser of module Parse reads from the input's bit string.
 */
module Apk {
  import opened Wrappers
  import opened Bits
  import opened Canonical
  import opened Rfc1951
  import opened Parse
  import Huffman

  const OUT_MIN: nat := 65536

  /** Unsigned 32-bit left shift and complement. */
  function Shl32(v: nat, n: nat): nat {
    v * Pow2(n) % 0x1_0000_0000
  }

  function Not32(v: nat): nat
    requires v <= 0xffff_ffff
  {
    0xffff_ffff - v
  }

  /** The capacities the output buffer goes through. */
  ghost predicate CapOk(cap: nat) {
    cap == 0 || exists k: nat :: k <= 10 && cap == OUT_MIN * Pow2(k)
  }

  lemma CapLimit(cap: nat)
    requires CapOk(cap)
    ensures cap <= OUT_MAX
  {
    if cap != 0 {
      var k: nat :| k <= 10 && cap == OUT_MIN * Pow2(k);
      Pow2Mono(k, 10);
      PowersOfTwo();
    }
  }

  /** Eight more bits on top of the n bits already buffered. */
  lemma ByteAdded(val: nat, n: nat, b: byte)
    requires val < Pow2(n) && n < 24
    ensures BitOr(val, Shl32(b, n)) == val + Pow2(n) * b
  {
    hide Pow2, BitOr;
    PowersOfTwo();
    Pow2Mono(n, 24);
    Pow2Add(8, 16);
    NoWrap(b, Pow2(n));
    BitOrDisjoint(val, b, n);
  }

  lemma NoWrap(b: byte, p: nat)
    requires p <= 0x100_0000
    ensures b * p < 0x1_0000_0000
  {
    assert b * p <= 255 * p;
  }

  function Le16(lo: nat, hi: nat): nat {
    lo + 256 * hi
  }

  lemma TwoBytes(input: seq<byte>, k: nat)
    requires k + 2 <= |input|
    ensures Field(Stream(input), 8 * k, 16) == Some(Le16(input[k], input[k + 1]))
  {
    hide Lsb, Stream;
    var s := Stream(input);
    StreamByte(input, k);
    StreamByte(input, k + 1);
    var a, b := s[8 * k..8 * k + 8], s[8 * k + 8..8 * k + 16];
    assert 8 * (k + 1) == 8 * k + 8;
    assert a + b == s[8 * k..8 * k + 16];
    LsbConcat(a, b);
    PowersOfTwo();
  }

  lemma StoredBytes(input: seq<byte>, k: nat, len: nat)
    requires k + len <= |input|
    ensures Bytes(Stream(input), 8 * k, len) == input[k..k + len]
  {
    StreamSlice(input, k, k + len);
    BytesAt(Stream(input), 8 * k, input[k..k + len]);
  }

  /** The two length bytes, and the complement check on the two bytes after them. */
  lemma StoredHeader(b0: byte, b1: byte, b2: byte, b3: byte)
    ensures BitOr(b0, Shl32(b1, 8)) == Le16(b0, b1)
    ensures var len := Le16(b0, b1);
      b2 == Not32(len) % 256 && b3 == Not32(len) / 256 % 256 <==> Le16(b2, b3) == 0xffff - len
  {
    hide BitOr, Pow2;
    PowersOfTwo();
    NoWrap(b1, 256);
    BitOrDisjoint(b0, b1, 8);
    Complement(b0, b1);
  }

  lemma Complement(b0: byte, b1: byte)
    ensures Not32(Le16(b0, b1)) % 256 == 255 - b0
    ensures Not32(Le16(b0, b1)) / 256 % 256 == 255 - b1
  {
    assert Not32(Le16(b0, b1)) == 255 - b0 + 256 * (255 - b1 + 256 * 0xffff);
  }

  /** A stored block from the next byte boundary on, byte by byte. */
  lemma StoredIs(input: seq<byte>, at: nat, p: nat, n: nat)
    requires at + PadLen(at) == 8 * p && p <= |input|
    ensures ParseStored(Stream(input), at, n) ==
      if |input| - p < 4 then Fail
      else
        var len := Le16(input[p], input[p + 1]);
        if Le16(input[p + 2], input[p + 3]) != 0xffff - len then Fail
        else if p + 4 + len > |input| || n + len > OUT_MAX then Fail
        else Ok(Block.Stored(Stream(input)[at..8 * p], input[p + 4..p + 4 + len]), 8 * (p + 4 + len))
  {
    hide Stream, Bytes, PadLen, LsbBits;
    if |input| - p >= 4 {
      TwoBytes(input, p);
      TwoBytes(input, p + 2);
      var len := Le16(input[p], input[p + 1]);
      if p + 4 + len <= |input| {
        StoredBytes(input, p + 4, len);
      }
    }
  }

  lemma LsbEmpty()
    ensures Lsb([]) == 0
  {
  }

  /** What a compressed block adds to the output, and where it ends. */
  ghost function CodesResult(c: Tables, bits: seq<bit>, pos: nat, out: seq<byte>): Option<(nat, seq<byte>)> {
    match ParseTokens(c, bits, pos, |out|)
    case Fail => None
    case Ok(ts, q) =>
      TokensSound(c, bits, pos, |out|);
      Some((q, PutAll(out, ts, c)))
  }

  /** The result can be computed one token at a time. */
  lemma CodesStep(c: Tables, bits: seq<bit>, pos: nat, out: seq<byte>)
    ensures var one := ParseToken(c, bits, pos);
      CodesResult(c, bits, pos, out) ==
        match one
        case Fail => None
        case Ok(None, q) => Some((q, out))
        case Ok(Some(t), q) => if InBounds(t, |out|) then CodesResult(c, bits, q, Put(out, t)) else None
  {
    hide ParseToken, EncTokens, At, Writable, Token.Valid, Token.Length, Token.Distance;
    var one := ParseToken(c, bits, pos);
    if one.Ok? && one.value.Some? && InBounds(one.value.value, |out|) {
      var t := one.value.value;
      PutSize(out, t);
      hide Put;
      if ParseTokens(c, bits, one.pos, |out| + t.Length()).Ok? {
        TokensSound(c, bits, one.pos, |out| + t.Length());
        TokensSound(c, bits, pos, |out|);
      }
    }
  }

  lemma PutSize(out: seq<byte>, t: Token)
    requires t.Valid() && (t.Copy? ==> t.Distance() <= |out|)
    ensures |Put(out, t)| == |out| + t.Length()
  {
  }

  /** The list of code lengths that is read after the lengths acc, and where it ends. */
  ghost function LensResult(cl: seq<nat>, total: nat, bits: seq<bit>, pos: nat, acc: seq<nat>): Option<(nat, seq<nat>)>
    requires |cl| == 19 && pos <= |bits| && |acc| <= total
  {
    match ParseLens(cl, total, bits, pos, acc)
    case Fail => None
    case Ok(ks, q) =>
      LensSound(cl, total, bits, pos, acc);
      Some((q, Unroll(ks, cl, total, acc, |bits| - pos)))
  }

  lemma LensStep(cl: seq<nat>, total: nat, bits: seq<bit>, pos: nat, acc: seq<nat>)
    requires |cl| == 19 && pos <= |bits| && |acc| <= total
    ensures LensResult(cl, total, bits, pos, acc) ==
      if |acc| == total then Some((pos, acc))
      else match ParseLen(cl, bits, pos)
        case Fail => None
        case Ok(k, q) => if Continues(k, acc, total) then LensResult(cl, total, bits, q, Step(acc, k)) else None
  {
    hide ParseLen, EncLens, At;
    if |acc| < total && ParseLen(cl, bits, pos).Ok? {
      var k, q := ParseLen(cl, bits, pos).value, ParseLen(cl, bits, pos).pos;
      LenSound(cl, bits, pos);
      EncLenSize(k, cl);
      hide EncLen;
      if Continues(k, acc, total) && ParseLens(cl, total, bits, q, Step(acc, k)).Ok? {
        LensSound(cl, total, bits, pos, acc);
        LensSound(cl, total, bits, q, Step(acc, k));
      }
    }
  }

  /** The order of the code length code is a permutation. */
  lemma OrderInverse(i: nat)
    requires i < 19
    ensures Position(Order(i)) == i
  {
  }

  lemma RawStep(bits: seq<bit>, pos: nat, k: nat)
    requires k > 0
    ensures ParseRaw(bits, pos, k) ==
      match (Field(bits, pos, 3), ParseRaw(bits, pos + 3, k - 1))
      case (Some(v), Some(rest)) => Some([v] + rest)
      case _ => None
  {
  }

  /** The output after one block, and where the block ends. */
  ghost function BlockResult(bits: seq<bit>, pos: nat, out: seq<byte>): Option<(nat, seq<byte>)> {
    match ParseBlock(bits, pos, |out|)
    case Fail => None
    case Ok(b, q) =>
      BodySound(bits, pos, |out|);
      Some((q, Apply(out, b, pos, |bits|)))
  }

  ghost function StoredResult(bits: seq<bit>, at: nat, out: seq<byte>): Option<(nat, seq<byte>)> {
    match ParseStored(bits, at, |out|)
    case Fail => None
    case Ok(b, q) => Some((q, out + b.data))
  }

  /** One decoder for each block type, none for the reserved one. */
  lemma BlockKinds(bits: seq<bit>, pos: nat, out: seq<byte>)
    ensures BlockResult(bits, pos, out) ==
      if Field(bits, pos, 1).None? then None else
      match Field(bits, pos + 1, 2)
      case None => None
      case Some(kind) =>
        if kind == 0 then StoredResult(bits, pos + 3, out)
        else if kind == 1 then CodesResult(FixedTables(), bits, pos + 3, out)
        else if kind == 2 then DynamicResult(bits, pos + 3, out)
        else None
  {
    hide Field, ParseStored, ParseTokens, ParseHead, TablesOf, TablesOk, FixedTables,
      HeadOk, EncTokens, TokensOk, At, EncHead, EncBody;
    if ParseBlock(bits, pos, |out|).Ok? {
      BodySound(bits, pos, |out|);
    }
  }

  /** The bytes of a list of blocks, after the bytes out. */
  ghost function BlocksResult(bits: seq<bit>, pos: nat, out: seq<byte>): Option<seq<byte>> {
    match ParseBlocks(bits, pos, out)
    case Fail => None
    case Ok(bs, _) =>
      BlocksSound(bits, pos, out);
      Some(Expand(bs, pos, |bits|, out))
  }

  lemma BlocksStep(bits: seq<bit>, pos: nat, out: seq<byte>)
    ensures BlocksResult(bits, pos, out) ==
      match BlockResult(bits, pos, out)
      case None => None
      case Some((q, r)) => if Field(bits, pos, 1) == Some(1) then Some(r) else BlocksResult(bits, q, r)
  {
    hide ParseBlock, BlockOk, Apply, EncBlock, EncBody, At, Field, EncBlocks;
    if ParseBlock(bits, pos, |out|).Ok? {
      BodySound(bits, pos, |out|);
      BlockAt(ParseBlock(bits, pos, |out|).value, false, bits, pos, |out|);
      if ParseBlocks(bits, pos, out).Ok? {
        BlocksSound(bits, pos, out);
      }
    }
  }

  lemma InflateIsBlocks(bits: seq<bit>)
    ensures Inflate(bits) == BlocksResult(bits, 0, [])
  {
  }

  const MAGIC: seq<byte> := [0x41, 0x44, 0x42]
  const PLAIN: byte := 0x2e
  const DEFLATED: byte := 0x64

  /** The bytes of an ADB container, or None when it is not one or its compressed part is malformed. */
  ghost function Contents(data: seq<byte>): Option<seq<byte>> {
    if |data| < 4 || data[..3] != MAGIC then None
    else if data[3] == PLAIN then Some(data)
    else if data[3] == DEFLATED then Inflate(Stream(data[4..]))
    else None
  }

  /**
   What unpacking comes to. Nothing comes of a malformed one, and nothing of one that unpacks to
   no bytes at all: its buffer was never allocated, and its caller takes the null for a failure.
   */
  ghost function Unpacked(data: seq<byte>): Option<seq<byte>> {
    if Contents(data) == Some([]) then None else Contents(data)
  }

  /** Unpacks an ADB container. */
  method AdbInflate(data: seq<byte>) returns (r: Option<seq<byte>>)
    ensures r == Unpacked(data)
    ensures r == None <==> Contents(data) == None || Contents(data) == Some([])
  {
    hide Stream, Inflate, BlocksResult, BlockResult;
    if |data| < 4 || data[..3] != MAGIC {
      return None;
    }
    if data[3] == PLAIN {
      return Some(data);
    }
    if data[3] != DEFLATED {
      return None;
    }
    var d := new Deflate(data[4..]);
    InflateIsBlocks(d.Src());
    var err, last := 0, 0;
    while err == 0 && last == 0
      invariant fresh(d) && (d.out != null ==> fresh(d.out))
      invariant err == 0 && last == 0 ==>
        d.Ready() && BlocksResult(d.Src(), d.Pos(), d.Output()) == Inflate(d.Src())
      invariant err == 0 && last != 0 ==> d.Ready() && Some(d.Output()) == Inflate(d.Src())
      invariant err != 0 ==> Inflate(d.Src()) == None
      decreases err == 0 && last == 0, if d.BitsOk() then |d.Src()| - d.Pos() else 0
    {
      BlocksStep(d.Src(), d.Pos(), d.Output());
      BlockProgress(d.Src(), d.Pos(), d.Output());
      err, last := d.Block();
    }
    if err != 0 {
      return None;
    }
    if d.out == null {
      return None;
    }
    return Some(d.out[..d.outLen]);
  }

  /** Every block takes at least its header bits, and its flag is 0 or 1. */
  lemma BlockProgress(bits: seq<bit>, pos: nat, out: seq<byte>)
    ensures BlockResult(bits, pos, out).Some? ==> BlockResult(bits, pos, out).value.0 > pos
    ensures Field(bits, pos, 1) in {None, Some(0), Some(1)}
  {
    FlagRead(bits, pos);
  }

  /** The two length lists a dynamic block's head describes, and where the head ends. */
  ghost function HeadResult(bits: seq<bit>, at: nat): Option<(nat, Tables)> {
    match ParseHead(bits, at)
    case Fail => None
    case Ok(h, p) =>
      HeadSound(bits, at);
      Some((p, TablesOf(h, at, |bits|)))
  }

  /** The result of a dynamic block whose first field is at position at. */
  ghost function DynamicResult(bits: seq<bit>, at: nat, out: seq<byte>): Option<(nat, seq<byte>)> {
    match HeadResult(bits, at)
    case None => None
    case Some((p, c)) => if TablesOk(c) then CodesResult(c, bits, p, out) else None
  }

  /** The head field by field, as the decoder reads it. */
  lemma HeadSteps(bits: seq<bit>, at: nat)
    ensures HeadResult(bits, at) ==
      var a, b, k := Field(bits, at, 5), Field(bits, at + 5, 5), Field(bits, at + 10, 4);
      if a.None? || b.None? || k.None? || a.value + 257 > LIT_MAX || b.value + 1 > DIST_MAX then None else
      match ParseRaw(bits, at + 14, k.value + 4)
      case None => None
      case Some(raw) =>
        if !Complete(Scatter(raw)) then None else
        match LensResult(Scatter(raw), a.value + 257 + b.value + 1, bits, at + 14 + 3 * (k.value + 4), [])
        case None => None
        case Some((q, l)) => Some((q, Tables(l[..a.value + 257], l[a.value + 257..])))
  {
    hide Field, ParseRaw, Scatter, Complete, ParseLens, LensOk, Unroll, EncHead, At;
    if ParseHead(bits, at).Ok? {
      HeadSound(bits, at);
    }
  }

  lemma RawFields(bits: seq<bit>, at: nat)
    ensures Field(bits, at + 10, 4).Some? ==> Field(bits, at + 10, 4).value + 4 <= 19
    ensures Field(bits, at, 5).Some? ==> at + 5 <= |bits|
  {
    var k := Field(bits, at + 10, 4);
    if k.Some? {
      FieldAt(bits, at + 10, 4, k.value);
      PowersOfTwo();
    }
  }

  lemma ScatterLengths(bits: seq<bit>, pos: nat, k: nat)
    requires pos <= |bits| && ParseRaw(bits, pos, k).Some?
    ensures Lengths(Scatter(ParseRaw(bits, pos, k).value))
  {
    hide Position;
    RawIff(bits, pos, ParseRaw(bits, pos, k).value);
  }

  lemma FixedRuns()
    ensures Fill(Fill(Fill(Fill([], 8, 144), 9, 112), 7, 24), 8, 8) == FixedLit()
    ensures Fill([], 5, 30) == FixedDist()
  {
  }

  lemma FixedComplete()
    ensures |FixedLit()| == 288 && Kraft(FixedLit()) <= Pow2(MAX_BITS)
    ensures |FixedDist()| == 30 && Kraft(FixedDist()) <= Pow2(MAX_BITS)
    ensures Lengths(FixedLit()) && Lengths(FixedDist())
  {
    FixedFits();
  }

  lemma TileAt(out: seq<byte>, dist: nat, len: nat, k: nat)
    requires 1 <= dist <= |out| && k < len
    ensures 0 <= |out| - dist + k % dist < |out|
    ensures Tile(out, dist, len)[k] == out[|out| - dist + k % dist]
  {
  }

  lemma ModBack(i: nat, d: nat)
    requires 1 <= d <= i
    ensures (i - d) % d == i % d
  {
    var x := i - d;
    DivStep(x, d);
    assert x + d == i;
  }

  /** Each byte of a copy is the one dist places before it, which the copy itself may have written. */
  lemma TileBack(out: seq<byte>, dist: nat, i: nat)
    requires 1 <= dist <= |out|
    ensures (out + Tile(out, dist, i))[|out| + i - dist] == Tile(out, dist, i + 1)[i]
  {
    hide Tile;
    TileAt(out, dist, i + 1, i);
    if i < dist {
      ModSmall(i, dist);
    } else {
      ModBack(i, dist);
      TileAt(out, dist, i, i - dist);
      assert (out + Tile(out, dist, i))[|out| + i - dist] == Tile(out, dist, i)[i - dist];
    }
  }

  lemma ModSmall(i: nat, d: nat)
    requires i < d
    ensures i % d == i
  {
  }

  lemma TileStep(out: seq<byte>, dist: nat, i: nat)
    requires 1 <= dist <= |out|
    ensures Tile(out, dist, i + 1) == Tile(out, dist, i) + [Tile(out, dist, i + 1)[i]]
  {
    var a, b := Tile(out, dist, i), Tile(out, dist, i + 1);
    assert b[..i] == a;
    assert b == b[..i] + [b[i]];
  }

  class Deflate {
    const input: seq<byte>
    var inPos: nat
    var bitbuf: nat
    var bitcnt: nat
    /** Null until the first byte of output needs room. */
    var out: array?<byte>
    var outLen: nat

    constructor (input: seq<byte>)
      ensures this.input == input && Ready() && out == null
      ensures Pos() == 0 && Output() == []
    {
      this.input := input;
      inPos, bitbuf, bitcnt, outLen := 0, 0, 0, 0;
      out := null;
    }

    ghost function Src(): (s: seq<bit>)
      ensures |s| == 8 * |input|
    {
      Stream(input)
    }

    /** Less than a byte is buffered, and it is the unread rest of the last byte taken. */
    ghost predicate BitsOk()
      reads `inPos, `bitbuf, `bitcnt
    {
      && inPos <= |input| && bitcnt < 8 && bitcnt <= 8 * inPos
      && bitbuf == Lsb(Src()[8 * inPos - bitcnt..8 * inPos])
    }

    /** The position of the next unread bit. */
    ghost function Pos(): (p: nat)
      requires BitsOk()
      reads `inPos, `bitbuf, `bitcnt
      ensures p <= |Src()|
    {
      8 * inPos - bitcnt
    }

    function Cap(): nat
      reads `out
    {
      if out == null then 0 else out.Length
    }

    ghost predicate OutOk()
      reads `out, `outLen
    {
      outLen <= Cap() && CapOk(Cap())
    }

    ghost function Output(): (s: seq<byte>)
      requires OutOk()
      reads `out, `outLen, out
      ensures |s| == outLen
    {
      if out == null then [] else out[..outLen]
    }

    /**
     Takes need bits, the first one least significant, or returns -1 when the input ends before.
     A failed read of at most eight bits takes nothing.
     */
    method ReadBits(need: nat) returns (r: int)
      requires BitsOk() && need <= 24
      modifies this`inPos, this`bitbuf, this`bitcnt
      ensures r >= 0 ==> BitsOk() && Pos() == old(Pos()) + need && Field(Src(), old(Pos()), need) == Some(r)
      ensures r < 0 ==> r == -1 && Field(Src(), old(Pos()), need) == None
      ensures r < 0 && need <= 8 ==> BitsOk() && Pos() == old(Pos())
    {
      hide Lsb, BitOr, Shl32, Pow2;
      var val := bitbuf;
      ghost var pos := Pos();
      while bitcnt < need
        invariant inPos <= |input| && bitcnt < need + 8 && pos + bitcnt == 8 * inPos
        invariant val == Lsb(Src()[pos..8 * inPos])
        invariant bitbuf == old(bitbuf)
        invariant bitcnt >= 8 || (bitcnt == old(bitcnt) && inPos == old(inPos))
        decreases |input| - inPos
      {
        if inPos == |input| {
          return -1;
        }
        ghost var seen, next := Src()[pos..8 * inPos], Src()[8 * inPos..8 * inPos + 8];
        StreamByte(input, inPos);
        LsbBound(seen);
        LsbConcat(seen, next);
        assert seen + next == Src()[pos..8 * inPos + 8];
        ByteAdded(val, bitcnt, input[inPos]);
        val := BitOr(val, Shl32(input[inPos], bitcnt));
        inPos := inPos + 1;
        bitcnt := bitcnt + 8;
      }

      ghost var taken, rest := Src()[pos..pos + need], Src()[pos + need..8 * inPos];
      assert taken + rest == Src()[pos..8 * inPos];
      LsbSplit(taken, rest);
      bitbuf := val / Pow2(need);
      bitcnt := bitcnt - need;
      return val % Pow2(need);
    }

    /** Makes room for n more bytes, unless that would take more than the limit. */
    method Reserve(n: nat) returns (ok: bool)
      requires OutOk() && outLen <= OUT_MAX
      modifies this`out
      ensures OutOk() && Output() == old(Output())
      ensures out == old(out) || (out != null && fresh(out))
      ensures ok <==> outLen + n <= OUT_MAX
      ensures ok ==> outLen + n <= Cap()
      ensures n == 0 ==> out == old(out)
    {
      CapLimit(Cap());
      if outLen + n <= Cap() {
        return true;
      }
      var cap := if Cap() != 0 then Cap() else OUT_MIN;
      assert OUT_MIN == OUT_MIN * Pow2(0);
      ghost var k: nat :| k <= 10 && cap == OUT_MIN * Pow2(k);
      PowersOfTwo();
      while cap < outLen + n
        invariant cap == OUT_MIN * Pow2(k)
        invariant outLen + n <= OUT_MAX ==> k <= 10
        modifies {}
        decreases outLen + n - cap
      {
        if k >= 10 {
          Pow2Mono(10, k);
        }
        cap := cap * 2;
        k := k + 1;
      }
      if cap > OUT_MAX {
        if k <= 10 {
          Pow2Mono(k, 10);
        }
        return false;
      }
      var grown := new byte[cap];
      if out != null {
        forall i | 0 <= i < outLen {
          grown[i] := out[i];
        }
      }
      out := grown;
      return true;
    }

    /**
     Decodes one symbol of the canonical code with lengths l: the symbol whose codeword comes
     next, or -1 when no codeword does.
     */
    method Decode(h: Huffman.Table, ghost l: seq<nat>) returns (r: int)
      requires BitsOk() && h.For(l)
      modifies this`inPos, this`bitbuf, this`bitcnt
      ensures match Symbol(l, Src(), old(Pos()))
              case None => r < 0
              case Some(s) => r == s && BitsOk() && Pos() == old(Pos()) + l[s]
    {
      hide At, CodeBits, Msb, First, Offset, Stream, BitsOk, Field, BitOr, Count;
      var code: int, first: int, index: int := 0, 0, 0;
      ghost var pos := Pos();
      var len := 1;
      DecodeStart(l);
      assert Src()[pos..pos] == [];
      while len <= MAX_BITS
        invariant 1 <= len <= MAX_BITS + 1
        invariant BitsOk() && Pos() == pos + len - 1
        invariant code == 2 * Msb(Src()[pos..pos + len - 1]) && code >= first
        invariant first == First(l, len) && index == Offset(l, len)
        invariant forall s: nat :: IsAt(l, s, Src(), pos) ==> l[s] >= len
      {
        var bit := ReadBits(1);
        if bit < 0 {
          OutOfBits(l, Src(), pos, len);
          return -1;
        }
        OneMoreBit(Src(), pos, len - 1);
        BitOrDisjoint(bit, Msb(Src()[pos..pos + len - 1]), 1);
        code := BitOr(code, bit);
        if code - h.count[len] < first {
          ghost var s := RangeRead(l, len, Src(), pos);
          SymbolAt(l, s, Src(), pos);
          return h.symbol[index + (code - first)];
        }
        forall s: nat | IsAt(l, s, Src(), pos)
          ensures l[s] >= len + 1
        {
          if l[s] == len {
            CodeRead(l, s, Src(), pos);
          }
        }
        DecodeNext(l, len);
        index := index + h.count[len];
        first := (first + h.count[len]) * 2;
        code := code * 2;
        len := len + 1;
      }
      return -1;
    }

    /** Copies len bytes of input as they are. */
    method CopyInput(len: nat)
      requires OutOk() && inPos + len <= |input| && outLen + len <= Cap()
      modifies this`inPos, this`outLen, out
      ensures inPos == old(inPos) + len
      ensures OutOk() && Output() == old(Output()) + input[old(inPos)..inPos]
    {
      if out != null {
        forall i | 0 <= i < len {
          out[outLen + i] := input[inPos + i];
        }
      }
      outLen := outLen + len;
      inPos := inPos + len;
    }

    /** A stored block: skips to the next byte boundary and copies bytes as they are. */
    method Stored() returns (err: int)
      requires Ready()
      modifies this, out
      ensures out == old(out) || (out != null && fresh(out))
      ensures match ParseStored(Src(), old(Pos()), old(outLen))
              case Fail => err != 0
              case Ok(b, q) =>
                err == 0 && Ready() && Pos() == q && Output() == old(Output()) + b.data
    {
      hide Stream, ParseStored, Lsb, Pow2, BitOr, Shl32, Not32, LsbBits, CapOk, Cap, OutOk, Output;
      ghost var at := Pos();
      var p := inPos;
      bitbuf := 0;
      bitcnt := 0;
      assert at + PadLen(at) == 8 * p;
      StoredIs(input, at, p, outLen);
      if |input| - inPos < 4 {
        return -1;
      }

      var len := BitOr(input[p], Shl32(input[p + 1], 8));
      StoredHeader(input[p], input[p + 1], input[p + 2], input[p + 3]);
      if input[p + 2] != Not32(len) % 256 || input[p + 3] != Not32(len) / 256 % 256 {
        return -1;
      }

      inPos := inPos + 4;
      err := StoredData(len);
    }

    /** The bytes of a stored block, from a byte boundary on. */
    method StoredData(len: nat) returns (err: int)
      requires inPos <= |input| && bitbuf == 0 && bitcnt == 0
      requires OutOk() && outLen <= OUT_MAX && (outLen == 0 ==> out == null)
      modifies this, out
      ensures out == old(out) || (out != null && fresh(out))
      ensures err == 0 <==> old(inPos) + len <= |input| && old(outLen) + len <= OUT_MAX
      ensures err == 0 ==> Ready() && Pos() == 8 * (old(inPos) + len)
      ensures err == 0 ==> Output() == old(Output()) + input[old(inPos)..old(inPos) + len]
    {
      hide Stream, Lsb, Pow2, CapOk;
      if |input| - inPos < len {
        return -1;
      }
      var ok := Reserve(len);
      if !ok {
        return -1;
      }
      CopyInput(len);
      assert Src()[8 * inPos..8 * inPos] == [];
      LsbEmpty();
      return 0;
    }

    /** Appends one byte. */
    method Emit(b: byte)
      requires OutOk() && outLen < Cap()
      modifies this`outLen, out
      ensures OutOk() && Output() == old(Output()) + [b]
    {
      out[outLen] := b;
      outLen := outLen + 1;
    }

    /** The copy loop of a match: byte by byte, so that it may run into its own output. */
    method CopyBack(dist: nat, len: nat)
      requires OutOk() && 1 <= dist <= outLen && outLen + len <= Cap()
      modifies this`outLen, out
      ensures OutOk()
      ensures Output() == old(Output()) + Tile(old(Output()), dist, len)
    {
      hide Tile;
      ghost var was := Output();
      for i := 0 to len
        invariant OutOk() && outLen == |was| + i
        invariant Output() == was + Tile(was, dist, i)
      {
        TileBack(was, dist, i);
        TileStep(was, dist, i);
        Emit(out[outLen - dist]);
      }
    }

    /** The state the block decoders keep between reads. */
    ghost predicate Ready()
      reads this
    {
      BitsOk() && OutOk() && outLen <= OUT_MAX && (outLen == 0 ==> out == null)
    }

    /** The tables decode c and are not part of the output buffer. */
    ghost predicate TablesFor(lencode: Huffman.Table, distcode: Huffman.Table, c: Tables)
      reads this, lencode.count, lencode.symbol, distcode.count, distcode.symbol
    {
      && lencode.For(c.lit) && distcode.For(c.dist)
      && out !in {lencode.count as object?, lencode.symbol, distcode.count, distcode.symbol}
    }

    /** The length and the distance of a match, after its length symbol. */
    method ReadMatch(ls: nat, distcode: Huffman.Table, ghost c: Tables) returns (len: int, dist: int)
      requires BitsOk() && distcode.For(c.dist)
      modifies `inPos, `bitbuf, `bitcnt
      ensures match ParseCopy(c, ls, Src(), old(Pos()))
              case Fail => len < 0
              case Ok(t, q) => len == t.Length() && dist == t.Distance() && BitsOk() && Pos() == q
    {
      hide Stream, Field, Symbol, LengthBase, LengthExtra, DistBase, DistExtra, BitsOk;
      dist := 0;
      if ls >= 29 {
        return -1, 0;
      }
      var extra := ReadBits(LengthExtra(ls));
      if extra < 0 {
        return -1, 0;
      }
      len := LengthBase(ls) + extra;
      var symbol := Decode(distcode, c.dist);
      if symbol < 0 || symbol >= 30 {
        return -1, 0;
      }
      extra := ReadBits(DistExtra(symbol));
      if extra < 0 {
        return -1, 0;
      }
      dist := DistBase(symbol) + extra;
    }

    /** The rest of a match after its length symbol, checked and copied. */
    method Match(ls: nat, distcode: Huffman.Table, ghost c: Tables) returns (err: int)
      requires Ready() && distcode.For(c.dist)
      modifies this, out
      ensures out == old(out) || (out != null && fresh(out))
      ensures match ParseCopy(c, ls, Src(), old(Pos()))
              case Fail => err != 0
              case Ok(t, q) =>
                if InBounds(t, old(outLen)) then
                  err == 0 && Ready() && Pos() == q && Output() == Put(old(Output()), t)
                else
                  err != 0
    {
      hide Stream, ParseCopy, BitsOk, Tile;
      var len, dist := ReadMatch(ls, distcode, c);
      if len < 0 || dist > outLen {
        return -1;
      }
      var ok := Reserve(len);
      if !ok {
        return -1;
      }
      CopyBack(dist, len);
      return 0;
    }

    /** Appends a literal, if there is room. */
    method PutLiteral(b: byte) returns (ok: bool)
      requires OutOk() && outLen <= OUT_MAX
      modifies `out, `outLen, out
      ensures out == old(out) || (out != null && fresh(out))
      ensures ok <==> InBounds(Literal(b), old(outLen))
      ensures ok ==> OutOk() && 0 < outLen <= OUT_MAX && Output() == Put(old(Output()), Literal(b))
    {
      ok := Reserve(1);
      if ok {
        Emit(b);
      }
    }

    /** One round of the decoding loop: positive after a token, zero at the end of the block. */
    method NextToken(lencode: Huffman.Table, distcode: Huffman.Table, ghost c: Tables) returns (r: int)
      requires Ready() && TablesFor(lencode, distcode, c)
      modifies this, out
      ensures out == old(out) || (out != null && fresh(out))
      ensures match ParseToken(c, Src(), old(Pos()))
              case Fail => r < 0
              case Ok(None, q) => r == 0 && Ready() && Pos() == q && Output() == old(Output())
              case Ok(Some(t), q) =>
                if InBounds(t, old(outLen)) then
                  r > 0 && Ready() && Pos() == q && Output() == Put(old(Output()), t)
                else
                  r < 0
    {
      hide Stream, Symbol, ParseCopy, Put, BitsOk, OutOk, IsAt, Huffman.Table.For, InBounds;
      var symbol := Decode(lencode, c.lit);
      if symbol < 0 {
        return -1;
      }
      if symbol == 256 {
        return 0;
      }
      if symbol < 256 {
        var ok := PutLiteral(symbol);
        return if ok then 1 else -1;
      }
      var err := Match(symbol - 257, distcode, c);
      return if err != 0 then -1 else 1;
    }

    /** Decodes tokens until the end of the block. */
    method Codes(lencode: Huffman.Table, distcode: Huffman.Table, ghost c: Tables) returns (err: int)
      requires Ready() && TablesFor(lencode, distcode, c)
      modifies this, out
      ensures out == old(out) || (out != null && fresh(out))
      ensures match CodesResult(c, Src(), old(Pos()), old(Output()))
              case None => err != 0
              case Some((q, r)) => err == 0 && Ready() && Pos() == q && Output() == r
    {
      hide Stream, ParseToken, CodesResult, Put, InBounds;
      while true
        invariant out == old(out) || (out != null && fresh(out))
        invariant Ready() && TablesFor(lencode, distcode, c)
        invariant CodesResult(c, Src(), Pos(), Output()) == CodesResult(c, Src(), old(Pos()), old(Output()))
        decreases |Src()| - Pos()
      {
        CodesStep(c, Src(), Pos(), Output());
        var r := NextToken(lencode, distcode, c);
        if r < 0 {
          return -1;
        }
        if r == 0 {
          return 0;
        }
      }
    }

    /** A block with the fixed codes. */
    method Fixed() returns (err: int)
      requires Ready()
      modifies this, out
      ensures out == old(out) || (out != null && fresh(out))
      ensures match CodesResult(FixedTables(), Src(), old(Pos()), old(Output()))
              case None => err != 0
              case Some((q, r)) => err == 0 && Ready() && Pos() == q && Output() == r
    {
      hide Stream, CodesResult, BitsOk, FixedLit, FixedDist, Huffman.Table.For;
      var lencode, distcode := FixedCodes();
      err := Codes(lencode, distcode, FixedTables());
    }

    method FixedCodes() returns (lencode: Huffman.Table, distcode: Huffman.Table)
      ensures fresh(lencode.count) && fresh(lencode.symbol) && lencode.For(FixedLit())
      ensures fresh(distcode.count) && fresh(distcode.symbol) && distcode.For(FixedDist())
    {
      hide FixedLit, FixedDist, Fits, Huffman.Table.For, Kraft, Pow2, Lengths, Fill, Left;
      var lengths := new nat[Huffman.FIX_LCODES];
      FillFixed(lengths);
      FixedComplete();
      lencode := new Huffman.Table();
      var left := lencode.Build(lengths[..]);

      FillRun(lengths, 0, 5, DIST_MAX);
      FixedRuns();
      distcode := new Huffman.Table();
      left := distcode.Build(lengths[..DIST_MAX]);
    }

    method FillFixed(lengths: array<nat>)
      requires lengths.Length == Huffman.FIX_LCODES
      modifies lengths
      ensures lengths[..] == FixedLit()
    {
      hide FixedLit;
      FillRun(lengths, 0, 8, 144);
      FillRun(lengths, 144, 9, 112);
      FillRun(lengths, 256, 7, 24);
      FillRun(lengths, 280, 8, 8);
      FixedRuns();
      assert lengths[..288] == lengths[..];
    }

    /** Stores a run of one code length. */
    method FillRun(lengths: array<nat>, index: nat, len: nat, repeat: nat)
      requires index + repeat <= lengths.Length
      modifies lengths
      ensures lengths[..index + repeat] == Fill(old(lengths[..index]), len, repeat)
    {
      for i := 0 to repeat
        invariant lengths[..index + i] == Fill(old(lengths[..index]), len, i)
      {
        lengths[index + i] := len;
        assert lengths[..index + i + 1] == lengths[..index + i] + [len];
      }
    }

    /**
     One element of a dynamic block's list of code lengths: the new number of lengths, or -1.
     Symbol 18 with its extra bits cut off by the end of input counts as ten zeros.
     */
    method NextLen(lencode: Huffman.Table, lengths: array<nat>, index: nat, total: nat, ghost cl: seq<nat>)
        returns (r: int)
      requires BitsOk() && lencode.For(cl) && |cl| == 19
      requires index < total <= lengths.Length
      requires lengths !in {lencode.count, lencode.symbol}
      modifies `inPos, `bitbuf, `bitcnt, lengths
      ensures match ParseLen(cl, Src(), old(Pos()))
              case Fail => r < 0
              case Ok(k, q) =>
                if Continues(k, old(lengths[..index]), total) then
                  && r == index + k.Times() && lengths[..r] == Step(old(lengths[..index]), k)
                  && BitsOk() && Pos() == q
                else
                  r < 0
    {
      hide Stream, Field, Symbol, BitsOk, At, Fill, Huffman.Table.For, Pow2, PadLen;
      var symbol := Decode(lencode, cl);
      if symbol < 0 {
        return -1;
      }
      var repeat, len := 1, 0;
      if symbol < 16 {
        len := symbol;
      } else if symbol == 16 {
        if index == 0 {
          return -1;
        }
        len := lengths[index - 1];
        var extra := ReadBits(2);
        repeat := extra + 3;
      } else if symbol == 17 {
        var extra := ReadBits(3);
        repeat := extra + 3;
      } else {
        var extra := ReadBits(7);
        repeat := extra + 11;
      }
      if symbol >= 16 && (repeat < 3 || index + repeat > total) {
        return -1;
      }
      FillRun(lengths, index, len, repeat);
      return index + repeat;
    }

    /** The lengths of the code length code, in their transmission order. */
    method ReadRaw(lengths: array<nat>, ncode: nat) returns (err: int)
      requires BitsOk() && ncode <= 19 <= lengths.Length
      modifies `inPos, `bitbuf, `bitcnt, lengths
      ensures match ParseRaw(Src(), old(Pos()), ncode)
              case None => err != 0
              case Some(raw) =>
                err == 0 && BitsOk() && Pos() == old(Pos()) + 3 * ncode && lengths[..19] == Scatter(raw)
    {
      hide Stream, Field, BitsOk, ParseRaw, Order, Position;
      ghost var raw: seq<nat> := [];
      ghost var all := ParseRaw(Src(), Pos(), ncode);
      assert all.Some? ==> [] + all.value == all.value;
      for index := 0 to 19
        invariant |raw| == if index < ncode then index else ncode
        invariant BitsOk() && Pos() == old(Pos()) + 3 * |raw|
        invariant all == match ParseRaw(Src(), Pos(), ncode - |raw|)
                         case None => None
                         case Some(rest) => Some(raw + rest)
        invariant forall j :: 0 <= j < index ==> lengths[Order(j)] == if j < ncode then raw[j] else 0
      {
        var symbol := 0;
        if index < ncode {
          RawStep(Src(), Pos(), ncode - index);
          symbol := ReadBits(3);
          if symbol < 0 {
            return -1;
          }
          ghost var rest := ParseRaw(Src(), Pos(), ncode - index - 1);
          assert rest.Some? ==> raw + ([symbol] + rest.value) == (raw + [symbol]) + rest.value;
          raw := raw + [symbol];
        }
        forall j | 0 <= j < index
          ensures Order(j) != Order(index)
        {
          OrderInverse(j);
          OrderInverse(index);
        }
        lengths[Order(index)] := symbol;
      }
      RawEmpty(Src(), Pos());
      assert raw + [] == raw;
      forall s | 0 <= s < 19
        ensures lengths[s] == Scatter(raw)[s]
      {
        assert Order(Position(s)) == s;
      }
      return 0;
    }

    /** The list of code lengths, into the first total entries of lengths. */
    method ReadLens(lencode: Huffman.Table, lengths: array<nat>, total: nat, ghost cl: seq<nat>) returns (err: int)
      requires BitsOk() && lencode.For(cl) && |cl| == 19 && total <= lengths.Length
      requires lengths !in {lencode.count, lencode.symbol}
      modifies `inPos, `bitbuf, `bitcnt, lengths
      ensures match LensResult(cl, total, Src(), old(Pos()), [])
              case None => err != 0
              case Some((q, l)) => err == 0 && BitsOk() && Pos() == q && lengths[..total] == l
    {
      hide Stream, BitsOk, ParseLen, LensResult, Huffman.Table.For;
      var index := 0;
      while index < total
        invariant index <= total && BitsOk() && lencode.For(cl)
        invariant LensResult(cl, total, Src(), Pos(), lengths[..index]) ==
                  LensResult(cl, total, Src(), old(Pos()), [])
      {
        LensStep(cl, total, Src(), Pos(), lengths[..index]);
        var r := NextLen(lencode, lengths, index, total, cl);
        if r < 0 {
          return -1;
        }
        index := r;
      }
      LensStep(cl, total, Src(), Pos(), lengths[..index]);
      return 0;
    }

    /** The head of a dynamic block: the alphabet sizes and the code lengths, or a negative size. */
    method ReadHead(lencode: Huffman.Table, lengths: array<nat>) returns (nlen: int, ndist: int)
      requires BitsOk() && lencode.Shape() && lengths.Length == LIT_MAX + DIST_MAX
      requires lengths !in {lencode.count, lencode.symbol}
      modifies `inPos, `bitbuf, `bitcnt, lengths, lencode.count, lencode.symbol
      ensures match HeadResult(Src(), old(Pos()))
              case None => nlen < 0
              case Some((q, c)) =>
                && nlen == |c.lit| && ndist == |c.dist|
                && lengths[..nlen] == c.lit && lengths[nlen..nlen + ndist] == c.dist
                && BitsOk() && Pos() == q
    {
      hide Stream, Field, BitsOk, ParseRaw, HeadResult, LensResult, Scatter, Complete, Huffman.Table.For;
      HeadSteps(Src(), Pos());
      RawFields(Src(), Pos());
      nlen := ReadBits(5);
      ndist := ReadBits(5);
      var ncode := ReadBits(4);
      if nlen < 0 || ndist < 0 || ncode < 0 {
        return -1, 0;
      }
      nlen := nlen + 257;
      ndist := ndist + 1;
      ncode := ncode + 4;
      if nlen > LIT_MAX || ndist > DIST_MAX {
        return -1, 0;
      }
      var err := ReadRaw(lengths, ncode);
      if err != 0 {
        return -1, 0;
      }
      ScatterLengths(Src(), old(Pos()) + 14, ncode);
      err := BuildLengthCode(lencode, lengths);
      if err != 0 {
        return -1, 0;
      }
      err := ReadLens(lencode, lengths, nlen + ndist, lengths[..19]);
      if err != 0 {
        return -1, 0;
      }
    }

    /** The code length code must be complete. */
    method BuildLengthCode(lencode: Huffman.Table, lengths: array<nat>) returns (err: int)
      requires lencode.Shape() && lengths.Length >= 19 && lengths !in {lencode.count, lencode.symbol}
      requires Lengths(lengths[..19])
      modifies lencode.count, lencode.symbol
      ensures err == 0 <==> Complete(lengths[..19])
      ensures err == 0 ==> lencode.For(lengths[..19])
    {
      hide Kraft, Count;
      err := lencode.Build(lengths[..19]);
    }

    /** A block that brings its own codes. */
    method Dynamic() returns (err: int)
      requires Ready()
      modifies this, out
      ensures out == old(out) || (out != null && fresh(out))
      ensures match DynamicResult(Src(), old(Pos()), old(Output()))
              case None => err != 0
              case Some((q, r)) => err == 0 && Ready() && Pos() == q && Output() == r
    {
      hide Stream, HeadResult, CodesResult, BitsOk, Kraft, Count, Fits, Huffman.Table.Counts, Huffman.Table.Sorted;
      var lengths := new nat[LIT_MAX + DIST_MAX];
      var lencode := new Huffman.Table();
      var nlen, ndist := ReadHead(lencode, lengths);
      if nlen < 0 {
        return -1;
      }
      ghost var c := HeadResult(Src(), old(Pos())).value.1;
      HeadLengths(Src(), old(Pos()));
      assert lengths[256] == c.lit[256];
      if lengths[256] == 0 {
        return -1;
      }
      err := BuildAcceptable(lencode, lengths[..nlen]);
      if err != 0 {
        return -1;
      }
      var distcode := new Huffman.Table();
      err := BuildAcceptable(distcode, lengths[nlen..nlen + ndist]);
      if err != 0 {
        return -1;
      }
      err := Codes(lencode, distcode, c);
    }

    /** Builds a table, and rejects codes that are neither complete nor of a single symbol. */
    method BuildAcceptable(h: Huffman.Table, length: seq<nat>) returns (err: int)
      requires h.Shape() && |length| <= Huffman.FIX_LCODES && Lengths(length)
      modifies h.count, h.symbol
      ensures err == 0 <==> Acceptable(length)
      ensures err == 0 ==> h.For(length)
    {
      hide Kraft, Count, Huffman.Table.Sorted;
      err := h.Build(length);
      if err < 0 || (err > 0 && |length| - h.count[0] != 1) {
        return -1;
      }
      return 0;
    }

    /** One block with its header: whether it is the last one, and whether it failed. */
    method Block() returns (err: int, last: int)
      requires Ready()
      modifies this, out
      ensures out == old(out) || (out != null && fresh(out))
      ensures match BlockResult(Src(), old(Pos()), old(Output()))
              case None => err != 0
              case Some((q, r)) =>
                && err == 0 && Field(Src(), old(Pos()), 1) == Some(last)
                && Ready() && Pos() == q && Output() == r
    {
      hide Stream, Field, BlockResult, CodesResult, DynamicResult, ParseStored, FixedTables, BitsOk;
      BlockKinds(Src(), Pos(), Output());
      last := ReadBits(1);
      var kind := ReadBits(2);
      if last < 0 || kind < 0 {
        err := -1;
      } else if kind == 0 {
        err := Stored();
      } else if kind == 1 {
        err := Fixed();
      } else if kind == 2 {
        err := Dynamic();
      } else {
        err := -1;
      }
    }
  }

  lemma HeadLengths(bits: seq<bit>, at: nat)
    requires HeadResult(bits, at).Some?
    ensures var c := HeadResult(bits, at).value.1;
      257 <= |c.lit| <= LIT_MAX && |c.dist| <= DIST_MAX && Lengths(c.lit) && Lengths(c.dist)
  {
    hide ParseHead, Scatter, Complete, LensOk, Unroll, EncHead, At;
    HeadSound(bits, at);
    var h := ParseHead(bits, at).value;
    UnrollLengths(h.ks, Scatter(h.raw), h.nlen + h.ndist, [], |bits| - LensStart(h, at));
  }

  lemma RawEmpty(bits: seq<bit>, pos: nat)
    ensures ParseRaw(bits, pos, 0) == Some([])
  {
  }

  /** When the input ends before a code of n bits could, no codeword of n or more bits is there. */
  lemma OutOfBits(l: seq<nat>, bits: seq<bit>, pos: nat, n: nat)
    requires 1 <= n && Field(bits, pos + n - 1, 1).None?
    requires forall s: nat :: IsAt(l, s, bits, pos) ==> l[s] >= n
    ensures Symbol(l, bits, pos).None?
  {
  }

  lemma DecodeStart(l: seq<nat>)
    ensures First(l, 1) == 0 && Offset(l, 1) == 0 && Msb([]) == 0
  {
  }

  lemma DecodeNext(l: seq<nat>, n: nat)
    requires n > 0
    ensures First(l, n + 1) == 2 * (First(l, n) + Count(l, n))
    ensures Offset(l, n + 1) == Offset(l, n) + Count(l, n)
  {
  }

  /** A bit read as a field of one bit extends a number read most significant bit first. */
  lemma OneMoreBit(bits: seq<bit>, pos: nat, n: nat)
    requires pos + n < |bits|
    ensures Field(bits, pos + n, 1) == Some(bits[pos + n])
    ensures Msb(bits[pos..pos + n + 1]) == 2 * Msb(bits[pos..pos + n]) + bits[pos + n]
    ensures bits[pos + n] < Pow2(1) && Pow2(1) == 2
  {
    var b := bits[pos + n..pos + n + 1];
    assert Lsb(b) == b[0] + 2 * Lsb(b[1..]);
    assert bits[pos..pos + n + 1][..n] == bits[pos..pos + n];
  }
}
