/**
 The compressed format of RFC 1951 as an encoder sees it: blocks of tokens, the bit string that
 writes them down (sections 3.2.3 to 3.2.7) and the bytes they stand for. The only limits beyond
 the RFC are those the decoder declares: at most OUT_MAX bytes of output and codes that are
 complete or have a single used symbol.
 */
module Rfc1951 {
  import opened Wrappers
  import opened Bits
  import opened Canonical

  const OUT_MAX: nat := 64 * 1024 * 1024
  const LIT_MAX: nat := 286
  const DIST_MAX: nat := 30
  const END: nat := 256

  /** Base lengths and distances, and the number of extra bits, of section 3.2.5. */
  function LengthBase(sym: nat): (r: nat)
    requires sym < 29
    ensures 3 <= r <= 258
  {
    [3, 4, 5, 6, 7, 8, 9, 10, 11, 13, 15, 17, 19, 23, 27, 31,
     35, 43, 51, 59, 67, 83, 99, 115, 131, 163, 195, 227, 258][sym]
  }

  function LengthExtra(sym: nat): (r: nat)
    requires sym < 29
    ensures r <= 5
  {
    [0, 0, 0, 0, 0, 0, 0, 0, 1, 1, 1, 1, 2, 2, 2, 2,
     3, 3, 3, 3, 4, 4, 4, 4, 5, 5, 5, 5, 0][sym]
  }

  function DistBase(sym: nat): (r: nat)
    requires sym < 30
    ensures r >= 1
  {
    [1, 2, 3, 4, 5, 7, 9, 13, 17, 25, 33, 49, 65, 97, 129, 193,
     257, 385, 513, 769, 1025, 1537, 2049, 3073, 4097, 6145, 8193, 12289, 16385, 24577][sym]
  }

  function DistExtra(sym: nat): (r: nat)
    requires sym < 30
    ensures r <= 13
  {
    [0, 0, 0, 0, 1, 1, 2, 2, 3, 3, 4, 4, 5, 5, 6, 6,
     7, 7, 8, 8, 9, 9, 10, 10, 11, 11, 12, 12, 13, 13][sym]
  }

  /** The order in which a dynamic block sends its code length code ... */
  function Order(i: nat): (sym: nat)
    requires i < 19
    ensures sym < 19
  {
    [16, 17, 18, 0, 8, 7, 9, 6, 10, 5, 11, 4, 12, 3, 13, 2, 14, 1, 15][i]
  }

  /** ... and where each symbol stands in it. */
  function Position(sym: nat): (i: nat)
    requires sym < 19
    ensures i < 19 && Order(i) == sym
  {
    [3, 17, 15, 13, 11, 9, 7, 5, 4, 6, 8, 10, 12, 14, 16, 18, 0, 1, 2][sym]
  }

  // ---------------------------------------------------------------- tokens

  /** A literal byte, or a copy of a length and a distance given by symbols and extra bits. */
  datatype Token = Literal(b: byte) | Copy(lenSym: nat, lenExtra: nat, distSym: nat, distExtra: nat)
  {
    predicate Valid() {
      Copy? ==>
        && lenSym < 29 && lenExtra < Pow2(LengthExtra(lenSym))
        && distSym < 30 && distExtra < Pow2(DistExtra(distSym))
    }

    function Length(): nat
      requires Valid()
    {
      if Literal? then 1 else LengthBase(lenSym) + lenExtra
    }

    function Distance(): nat
      requires Valid() && Copy?
    {
      DistBase(distSym) + distExtra
    }
  }

  /** The code lengths of the literal/length and the distance alphabets of a block. */
  datatype Tables = Tables(lit: seq<nat>, dist: seq<nat>) {
    ghost predicate Fit() {
      Fits(lit) && Fits(dist)
    }
  }

  predicate HasCode(l: seq<nat>, s: nat) {
    s < |l| && l[s] > 0
  }

  predicate Writable(t: Token, c: Tables): (r: bool)
    ensures r ==> t.Valid()
  {
    && t.Valid()
    && match t
       case Literal(b) => HasCode(c.lit, b)
       case Copy(ls, _, ds, _) => HasCode(c.lit, 257 + ls) && HasCode(c.dist, ds)
  }

  /** n is the number of bytes already produced. */
  predicate TokensOk(ts: List<Token>, c: Tables, n: nat) {
    match ts
    case Nil => HasCode(c.lit, END)
    case Cons(t, rest) =>
      && Writable(t, c)
      && (t.Copy? ==> t.Distance() <= n)
      && n + t.Length() <= OUT_MAX
      && TokensOk(rest, c, n + t.Length())
  }

  function EncCopy(t: Token, c: Tables): seq<bit>
    requires Writable(t, c) && t.Copy?
  {
    LsbBits(t.lenExtra, LengthExtra(t.lenSym)) +
    (CodeBits(c.dist, t.distSym) + LsbBits(t.distExtra, DistExtra(t.distSym)))
  }

  function EncToken(t: Token, c: Tables): seq<bit>
    requires Writable(t, c)
  {
    match t
    case Literal(b) => CodeBits(c.lit, b)
    case Copy(ls, _, _, _) => CodeBits(c.lit, 257 + ls) + EncCopy(t, c)
  }

  /** The tokens, then the end-of-block symbol. */
  function EncTokens(ts: List<Token>, c: Tables, n: nat): seq<bit>
    requires TokensOk(ts, c, n)
  {
    match ts
    case Nil => CodeBits(c.lit, END)
    case Cons(t, rest) => EncToken(t, c) + EncTokens(rest, c, n + t.Length())
  }

  /** The last dist bytes of out over and over, even past the end of what was there before. */
  function Tile(out: seq<byte>, dist: nat, len: nat): (r: seq<byte>)
    requires 1 <= dist <= |out|
    ensures |r| == len
  {
    seq(len, i requires 0 <= i => out[|out| - dist + i % dist])
  }

  function Put(out: seq<byte>, t: Token): seq<byte>
    requires t.Valid() && (t.Copy? ==> t.Distance() <= |out|)
  {
    match t
    case Literal(b) => out + [b]
    case Copy(_, _, _, _) => out + Tile(out, t.Distance(), t.Length())
  }

  function PutAll(out: seq<byte>, ts: List<Token>, c: Tables): (r: seq<byte>)
    requires TokensOk(ts, c, |out|)
    ensures out <= r && |r| <= if ts.Nil? then |out| else OUT_MAX
    decreases ts
  {
    match ts
    case Nil => out
    case Cons(t, rest) => PutAll(Put(out, t), rest, c)
  }

  // ---------------------------------------------------------------- code lengths

  /**
   One element of the run-length coded list of code lengths. CutZeros is not part of the RFC: it is
   what the decoder makes of symbol 18 when the input ends inside its seven extra bits.
   */
  datatype LenCode = Plain(len: nat) | Repeat(extra: nat) | Zeros(extra: nat) | ManyZeros(extra: nat) | CutZeros
  {
    function Sym(): nat {
      match this
      case Plain(len) => len
      case Repeat(_) => 16
      case Zeros(_) => 17
      case _ => 18
    }

    function ExtraBits(): nat {
      match this
      case Repeat(_) => 2
      case Zeros(_) => 3
      case ManyZeros(_) => 7
      case _ => 0
    }

    function Extra(): nat {
      match this
      case Repeat(e) => e
      case Zeros(e) => e
      case ManyZeros(e) => e
      case _ => 0
    }

    predicate Valid() {
      (Plain? ==> len < 16) && Extra() < Pow2(ExtraBits())
    }

    function Times(): nat {
      match this
      case Plain(_) => 1
      case ManyZeros(e) => 11 + e
      case CutZeros => 10
      case _ => 3 + Extra()
    }

    /** The length it repeats, after the lengths acc. */
    function Value(acc: seq<nat>): nat
      requires Repeat? ==> acc != []
    {
      match this
      case Plain(len) => len
      case Repeat(_) => acc[|acc| - 1]
      case _ => 0
    }
  }

  function Fill(acc: seq<nat>, v: nat, times: nat): (r: seq<nat>)
    ensures |r| == |acc| + times
  {
    acc + seq(times, _ => v)
  }

  function Step(acc: seq<nat>, k: LenCode): seq<nat>
    requires k.Repeat? ==> acc != []
  {
    Fill(acc, k.Value(acc), k.Times())
  }

  /** room is the number of input bits that follow. */
  predicate LensOk(ks: List<LenCode>, cl: seq<nat>, total: nat, acc: seq<nat>, room: int) {
    match ks
    case Nil => |acc| >= total
    case Cons(k, rest) =>
      && |acc| < total
      && k.Valid()
      && HasCode(cl, k.Sym())
      && (k.Repeat? ==> acc != [])
      && (k.CutZeros? ==> room - cl[18] < 7)
      && |acc| + k.Times() <= total
      && LensOk(rest, cl, total, Step(acc, k), room - cl[k.Sym()] - k.ExtraBits())
  }

  function EncLen(k: LenCode, cl: seq<nat>): seq<bit>
    requires k.Valid() && HasCode(cl, k.Sym())
  {
    CodeBits(cl, k.Sym()) + LsbBits(k.Extra(), k.ExtraBits())
  }

  function EncLens(ks: List<LenCode>, cl: seq<nat>, total: nat, acc: seq<nat>, room: int): seq<bit>
    requires LensOk(ks, cl, total, acc, room)
  {
    match ks
    case Nil => []
    case Cons(k, rest) =>
      EncLen(k, cl) + EncLens(rest, cl, total, Step(acc, k), room - cl[k.Sym()] - k.ExtraBits())
  }

  function Unroll(ks: List<LenCode>, cl: seq<nat>, total: nat, acc: seq<nat>, room: int): (r: seq<nat>)
    requires LensOk(ks, cl, total, acc, room) && |acc| <= total
    ensures |r| == total
  {
    match ks
    case Nil => acc
    case Cons(k, rest) => Unroll(rest, cl, total, Step(acc, k), room - cl[k.Sym()] - k.ExtraBits())
  }

  /** Every list the format of the RFC can express, and no other, is free of CutZeros. */
  predicate Standard(ks: List<LenCode>) {
    match ks
    case Nil => true
    case Cons(k, rest) => !k.CutZeros? && Standard(rest)
  }

  // ---------------------------------------------------------------- blocks

  /** What a dynamic block says about its own codes: alphabet sizes, code length code, code lengths. */
  datatype Head = Head(nlen: nat, ndist: nat, raw: seq<nat>, ks: List<LenCode>)

  datatype Block =
    | Stored(pad: seq<bit>, data: seq<byte>)
    | Fixed(tokens: List<Token>)
    | Dynamic(head: Head, tokens: List<Token>)

  /** The fixed code lengths of section 3.2.6. */
  function FixedLit(): seq<nat> {
    seq(288, s => if s < 144 then 8 else if s < 256 then 9 else if s < 280 then 7 else 8)
  }

  function FixedDist(): seq<nat> {
    seq(30, _ => 5)
  }

  function FixedTables(): Tables {
    Tables(FixedLit(), FixedDist())
  }

  /** The code lengths of the code length alphabet, from the transmitted list. */
  function Scatter(raw: seq<nat>): (cl: seq<nat>)
    ensures |cl| == 19
  {
    seq(19, s requires 0 <= s < 19 => if Position(s) < |raw| then raw[Position(s)] else 0)
  }

  /** Complete, or empty. */
  predicate Complete(l: seq<nat>) {
    Kraft(l) == Pow2(MAX_BITS) || Count(l, 0) == |l|
  }

  /** Complete, empty, or with exactly one used symbol. */
  predicate Acceptable(l: seq<nat>) {
    Complete(l) || (Kraft(l) < Pow2(MAX_BITS) && |l| - Count(l, 0) == 1)
  }

  predicate RawOk(raw: seq<nat>) {
    4 <= |raw| <= 19 && forall i :: 0 <= i < |raw| ==> raw[i] < 8
  }

  function EncRaw(raw: seq<nat>): (e: seq<bit>)
    ensures |e| == 3 * |raw|
  {
    if raw == [] then [] else LsbBits(raw[0], 3) + EncRaw(raw[1..])
  }

  /** Bits of padding from pos to the next byte boundary. */
  function PadLen(pos: nat): nat {
    (8 - pos % 8) % 8
  }

  /** at is the position of the head's first field, size that of the input. */
  predicate HeadOk(h: Head, at: nat, size: nat) {
    && 257 <= h.nlen <= LIT_MAX && 1 <= h.ndist <= DIST_MAX && RawOk(h.raw)
    && Complete(Scatter(h.raw))
    && LensOk(h.ks, Scatter(h.raw), h.nlen + h.ndist, [], size - LensStart(h, at))
  }

  function LensStart(h: Head, at: nat): nat {
    at + 14 + 3 * |h.raw|
  }

  /** The two code length lists the head describes. */
  function TablesOf(h: Head, at: nat, size: nat): (c: Tables)
    requires HeadOk(h, at, size)
    ensures |c.lit| == h.nlen && |c.dist| == h.ndist
  {
    var l := Unroll(h.ks, Scatter(h.raw), h.nlen + h.ndist, [], size - LensStart(h, at));
    Tables(l[..h.nlen], l[h.nlen..])
  }

  predicate TablesOk(c: Tables) {
    HasCode(c.lit, END) && Acceptable(c.lit) && Acceptable(c.dist)
  }

  /** pos is where the block's three header bits start; n bytes have been produced before it. */
  predicate BlockOk(b: Block, pos: nat, size: nat, n: nat) {
    match b
    case Stored(pad, data) => |pad| == PadLen(pos + 3) && |data| < 0x1_0000 && n + |data| <= OUT_MAX
    case Fixed(ts) => TokensOk(ts, FixedTables(), n)
    case Dynamic(h, ts) =>
      && HeadOk(h, pos + 3, size)
      && TablesOk(TablesOf(h, pos + 3, size))
      && TokensOk(ts, TablesOf(h, pos + 3, size), n)
  }

  function EncStored(data: seq<byte>): seq<bit>
    requires |data| < 0x1_0000
  {
    LsbBits(|data|, 16) + (LsbBits(0xffff - |data|, 16) + Stream(data))
  }

  function EncHeadLens(h: Head, at: nat, size: nat): seq<bit>
    requires HeadOk(h, at, size)
  {
    EncLens(h.ks, Scatter(h.raw), h.nlen + h.ndist, [], size - LensStart(h, at))
  }

  function EncHead(h: Head, at: nat, size: nat): seq<bit>
    requires HeadOk(h, at, size)
  {
    LsbBits(h.nlen - 257, 5) + (LsbBits(h.ndist - 1, 5) + (LsbBits(|h.raw| - 4, 4) +
    (EncRaw(h.raw) + EncHeadLens(h, at, size))))
  }

  function EncBody(b: Block, pos: nat, size: nat, n: nat): seq<bit>
    requires BlockOk(b, pos, size, n)
  {
    match b
    case Stored(pad, data) => pad + EncStored(data)
    case Fixed(ts) => EncTokens(ts, FixedTables(), n)
    case Dynamic(h, ts) => EncHead(h, pos + 3, size) + EncTokens(ts, TablesOf(h, pos + 3, size), n)
  }

  function Type(b: Block): nat {
    match b
    case Stored(_, _) => 0
    case Fixed(_) => 1
    case Dynamic(_, _) => 2
  }

  function EncBlock(b: Block, last: bool, pos: nat, size: nat, n: nat): (e: seq<bit>)
    requires BlockOk(b, pos, size, n)
  {
    LsbBits(if last then 1 else 0, 1) + (LsbBits(Type(b), 2) + EncBody(b, pos, size, n))
  }

  /** Where the block ends. */
  function End(b: Block, pos: nat, size: nat, n: nat): nat
    requires BlockOk(b, pos, size, n)
  {
    pos + |EncBlock(b, false, pos, size, n)|
  }

  function Apply(out: seq<byte>, b: Block, pos: nat, size: nat): (r: seq<byte>)
    requires BlockOk(b, pos, size, |out|)
    ensures out <= r
  {
    match b
    case Stored(_, data) => out + data
    case Fixed(ts) => PutAll(out, ts, FixedTables())
    case Dynamic(h, ts) => PutAll(out, ts, TablesOf(h, pos + 3, size))
  }

  /** A nonempty list of blocks, the last of which is marked as such. */
  predicate BlocksOk(bs: List<Block>, pos: nat, size: nat, out: seq<byte>)
    decreases bs
  {
    match bs
    case Nil => false
    case Cons(b, rest) =>
      && BlockOk(b, pos, size, |out|)
      && (rest == Nil || BlocksOk(rest, End(b, pos, size, |out|), size, Apply(out, b, pos, size)))
  }

  function EncBlocks(bs: List<Block>, pos: nat, size: nat, out: seq<byte>): seq<bit>
    requires BlocksOk(bs, pos, size, out)
    decreases bs
  {
    match bs
    case Cons(b, rest) =>
      if rest == Nil then EncBlock(b, true, pos, size, |out|)
      else EncBlock(b, false, pos, size, |out|) +
           EncBlocks(rest, End(b, pos, size, |out|), size, Apply(out, b, pos, size))
  }

  function Expand(bs: List<Block>, pos: nat, size: nat, out: seq<byte>): seq<byte>
    requires BlocksOk(bs, pos, size, out)
    decreases bs
  {
    match bs
    case Cons(b, rest) =>
      if rest == Nil then Apply(out, b, pos, size)
      else Expand(rest, End(b, pos, size, |out|), size, Apply(out, b, pos, size))
  }

  /** Blocks the RFC itself allows. */
  predicate StandardBlocks(bs: List<Block>) {
    match bs
    case Nil => true
    case Cons(b, rest) => (b.Dynamic? ==> Standard(b.head.ks)) && StandardBlocks(rest)
  }
}
