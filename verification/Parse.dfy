/**
 What a bit string means under RFC 1951, as a parser: it reads back the blocks an encoder wrote.
 The lemmas show that it accepts exactly the encodings of well-formed blocks, so the parser and
 the encoder of module Rfc1951 are inverse to each other.
 */
module Parse {
  import opened Wrappers
  import opened Bits
  import opened Canonical
  import opened Rfc1951

  datatype Parsed<+T> = Fail | Ok(value: T, pos: nat)

  // ---------------------------------------------------------------- tokens

  /** The rest of a copy token, once its length symbol has been read. */
  ghost function ParseCopy(c: Tables, ls: nat, bits: seq<bit>, pos: nat): (r: Parsed<Token>)
    ensures r.Ok? ==> r.value.Copy? && r.value.lenSym == ls && r.value.Valid() && pos < r.pos <= |bits|
  {
    if ls >= 29 then Fail else
    match Field(bits, pos, LengthExtra(ls))
    case None => Fail
    case Some(le) =>
      var p := pos + LengthExtra(ls);
      FieldAt(bits, pos, LengthExtra(ls), le);
      match Symbol(c.dist, bits, p)
      case None => Fail
      case Some(ds) =>
        var q := p + c.dist[ds];
        if ds >= 30 then Fail else
        match Field(bits, q, DistExtra(ds))
        case None => Fail
        case Some(de) =>
          FieldAt(bits, q, DistExtra(ds), de);
          Ok(Copy(ls, le, ds, de), q + DistExtra(ds))
  }

  /** One token, or None at the end-of-block symbol. */
  ghost function ParseToken(c: Tables, bits: seq<bit>, pos: nat): (r: Parsed<Option<Token>>)
    ensures r.Ok? ==> pos < r.pos <= |bits|
    ensures r.Ok? && r.value.Some? ==> r.value.value.Valid()
  {
    match Symbol(c.lit, bits, pos)
    case None => Fail
    case Some(s) =>
      var p := pos + c.lit[s];
      if s == END then Ok(None, p)
      else if s < END then Ok(Some(Literal(s)), p)
      else
        match ParseCopy(c, s - 257, bits, p)
        case Fail => Fail
        case Ok(t, q) => Ok(Some(t), q)
  }

  ghost function Push<T>(t: T, r: Parsed<List<T>>): Parsed<List<T>> {
    match r
    case Fail => Fail
    case Ok(ts, pos) => Ok(Cons(t, ts), pos)
  }

  /** A token that reaches neither behind the first byte nor beyond the output limit. */
  predicate InBounds(t: Token, n: nat)
    requires t.Valid()
  {
    (t.Copy? ==> t.Distance() <= n) && n + t.Length() <= OUT_MAX
  }

  /** The tokens up to the end-of-block symbol; n bytes have been produced before them. */
  ghost function ParseTokens(c: Tables, bits: seq<bit>, pos: nat, n: nat): (r: Parsed<List<Token>>)
    ensures r.Ok? ==> pos < r.pos <= |bits|
    decreases |bits| - pos
  {
    match ParseToken(c, bits, pos)
    case Fail => Fail
    case Ok(None, q) => Ok(Nil, q)
    case Ok(Some(t), q) =>
      if InBounds(t, n) then Push(t, ParseTokens(c, bits, q, n + t.Length())) else Fail
  }

  /** Where the three parts of a copy stand, after its length symbol. */
  ghost predicate CopyParts(c: Tables, t: Token, bits: seq<bit>, pos: nat)
    requires Writable(t, c) && t.Copy?
  {
    && At(bits, pos, LsbBits(t.lenExtra, LengthExtra(t.lenSym)))
    && IsAt(c.dist, t.distSym, bits, pos + LengthExtra(t.lenSym))
    && At(bits, pos + LengthExtra(t.lenSym) + c.dist[t.distSym], LsbBits(t.distExtra, DistExtra(t.distSym)))
  }

  lemma CopyAt(c: Tables, t: Token, bits: seq<bit>, pos: nat)
    requires Writable(t, c) && t.Copy?
    ensures At(bits, pos, EncCopy(t, c)) <==> CopyParts(c, t, bits, pos)
    ensures |EncCopy(t, c)| == LengthExtra(t.lenSym) + c.dist[t.distSym] + DistExtra(t.distSym)
  {
    var x, y, z := LsbBits(t.lenExtra, LengthExtra(t.lenSym)), CodeBits(c.dist, t.distSym),
                   LsbBits(t.distExtra, DistExtra(t.distSym));
    AtConcat(bits, pos, x, y + z);
    AtConcat(bits, pos + |x|, y, z);
  }

  lemma CopySound(c: Tables, ls: nat, bits: seq<bit>, pos: nat)
    requires ParseCopy(c, ls, bits, pos).Ok? && HasCode(c.lit, 257 + ls)
    ensures var t := ParseCopy(c, ls, bits, pos).value;
      && Writable(t, c)
      && At(bits, pos, EncCopy(t, c)) && ParseCopy(c, ls, bits, pos).pos == pos + |EncCopy(t, c)|
  {
    hide At, LengthExtra, DistExtra;
    var t := ParseCopy(c, ls, bits, pos).value;
    FieldAt(bits, pos, LengthExtra(ls), t.lenExtra);
    var p := pos + LengthExtra(ls);
    FieldAt(bits, p + c.dist[t.distSym], DistExtra(t.distSym), t.distExtra);
    CopyAt(c, t, bits, pos);
  }

  lemma CopyComplete(c: Tables, t: Token, bits: seq<bit>, pos: nat)
    requires c.Fit() && Writable(t, c) && t.Copy? && At(bits, pos, EncCopy(t, c))
    ensures ParseCopy(c, t.lenSym, bits, pos) == Ok(t, pos + |EncCopy(t, c)|)
  {
    hide At, LengthExtra, DistExtra;
    CopyAt(c, t, bits, pos);
    FieldAt(bits, pos, LengthExtra(t.lenSym), t.lenExtra);
    var p := pos + LengthExtra(t.lenSym);
    SymbolAt(c.dist, t.distSym, bits, p);
    FieldAt(bits, p + c.dist[t.distSym], DistExtra(t.distSym), t.distExtra);
  }

  lemma TokenSound(c: Tables, bits: seq<bit>, pos: nat)
    requires ParseToken(c, bits, pos).Ok? && ParseToken(c, bits, pos).value.Some?
    ensures var t := ParseToken(c, bits, pos).value.value;
      && Writable(t, c)
      && At(bits, pos, EncToken(t, c)) && ParseToken(c, bits, pos).pos == pos + |EncToken(t, c)|
  {
    var s := Symbol(c.lit, bits, pos).value;
    hide At, CodeBits, EncCopy, ParseCopy, Token.Valid, Token.Length;
    if s > END {
      CopySound(c, s - 257, bits, pos + c.lit[s]);
      var t := ParseToken(c, bits, pos).value.value;
      AtConcat(bits, pos, CodeBits(c.lit, s), EncCopy(t, c));
    } else {
      assert ParseToken(c, bits, pos).value.value == Literal(s);
    }
  }

  lemma TokenComplete(c: Tables, t: Token, bits: seq<bit>, pos: nat)
    requires c.Fit() && Writable(t, c) && At(bits, pos, EncToken(t, c))
    ensures ParseToken(c, bits, pos) == Ok(Some(t), pos + |EncToken(t, c)|)
  {
    hide At, Fits, CodeBits, EncCopy, ParseCopy;
    match t
    case Literal(b) =>
      SymbolAt(c.lit, b, bits, pos);
    case Copy(ls, _, _, _) =>
      AtConcat(bits, pos, CodeBits(c.lit, 257 + ls), EncCopy(t, c));
      SymbolAt(c.lit, 257 + ls, bits, pos);
      CopyComplete(c, t, bits, pos + c.lit[257 + ls]);
  }

  lemma EndIff(c: Tables, bits: seq<bit>, pos: nat)
    ensures ParseToken(c, bits, pos).Ok? && ParseToken(c, bits, pos).value.None? ==>
            IsAt(c.lit, END, bits, pos) && ParseToken(c, bits, pos).pos == pos + c.lit[END]
    ensures c.Fit() && IsAt(c.lit, END, bits, pos) ==> ParseToken(c, bits, pos) == Ok(None, pos + c.lit[END])
  {
    if c.Fit() {
      SymbolAt(c.lit, END, bits, pos);
    }
  }

  lemma {:induction false} TokensSound(c: Tables, bits: seq<bit>, pos: nat, n: nat)
    requires ParseTokens(c, bits, pos, n).Ok?
    ensures var r := ParseTokens(c, bits, pos, n);
      && TokensOk(r.value, c, n)
      && At(bits, pos, EncTokens(r.value, c, n)) && r.pos == pos + |EncTokens(r.value, c, n)|
    decreases |bits| - pos
  {
    hide At, ParseToken, EncToken, Writable;
    var one := ParseToken(c, bits, pos);
    EndIff(c, bits, pos);
    if one.value.Some? {
      var t := one.value.value;
      TokenSound(c, bits, pos);
      TokensSound(c, bits, one.pos, n + t.Length());
      var rest := ParseTokens(c, bits, one.pos, n + t.Length()).value;
      AtConcat(bits, pos, EncToken(t, c), EncTokens(rest, c, n + t.Length()));
    }
  }

  lemma {:induction false} TokensComplete(c: Tables, bits: seq<bit>, pos: nat, n: nat, ts: List<Token>)
    requires c.Fit() && TokensOk(ts, c, n) && At(bits, pos, EncTokens(ts, c, n))
    ensures ParseTokens(c, bits, pos, n) == Ok(ts, pos + |EncTokens(ts, c, n)|)
    decreases ts
  {
    hide At, EncToken, Writable, ParseToken, CodeBits;
    match ts
    case Nil =>
      EndIff(c, bits, pos);
    case Cons(t, rest) =>
      AtConcat(bits, pos, EncToken(t, c), EncTokens(rest, c, n + t.Length()));
      TokenComplete(c, t, bits, pos);
      TokensComplete(c, bits, pos + |EncToken(t, c)|, n + t.Length(), rest);
  }

  // ---------------------------------------------------------------- code lengths

  /** One element of the list of code lengths, with the decoder's reading of a cut-off symbol 18. */
  ghost function ParseLen(cl: seq<nat>, bits: seq<bit>, pos: nat): (r: Parsed<LenCode>)
    ensures r.Ok? ==> pos < r.pos <= |bits|
  {
    match Symbol(cl, bits, pos)
    case None => Fail
    case Some(s) =>
      var p := pos + cl[s];
      if s < 16 then Ok(Plain(s), p)
      else if s == 16 then
        match Field(bits, p, 2) case None => Fail case Some(e) => Ok(Repeat(e), p + 2)
      else if s == 17 then
        match Field(bits, p, 3) case None => Fail case Some(e) => Ok(Zeros(e), p + 3)
      else if s == 18 then
        match Field(bits, p, 7) case None => Ok(CutZeros, p) case Some(e) => Ok(ManyZeros(e), p + 7)
      else Fail
  }

  /** The element can follow the lengths acc in a list of total lengths. */
  predicate Continues(k: LenCode, acc: seq<nat>, total: nat) {
    (k.Repeat? ==> acc != []) && |acc| + k.Times() <= total
  }

  ghost function ParseLens(cl: seq<nat>, total: nat, bits: seq<bit>, pos: nat, acc: seq<nat>)
      : (r: Parsed<List<LenCode>>)
    ensures r.Ok? ==> r.pos >= pos && (pos <= |bits| ==> r.pos <= |bits|)
    decreases total - |acc|
  {
    if |acc| >= total then Ok(Nil, pos)
    else
      match ParseLen(cl, bits, pos)
      case Fail => Fail
      case Ok(k, q) =>
        if Continues(k, acc, total) then Push(k, ParseLens(cl, total, bits, q, Step(acc, k))) else Fail
  }

  lemma LenSound(cl: seq<nat>, bits: seq<bit>, pos: nat)
    requires |cl| == 19 && ParseLen(cl, bits, pos).Ok?
    ensures var k := ParseLen(cl, bits, pos).value;
      && k.Valid() && HasCode(cl, k.Sym())
      && (k.CutZeros? ==> |bits| - pos - cl[18] < 7)
      && At(bits, pos, EncLen(k, cl)) && ParseLen(cl, bits, pos).pos == pos + |EncLen(k, cl)|
  {
    hide At, CodeBits;
    var s := Symbol(cl, bits, pos).value;
    var k := ParseLen(cl, bits, pos).value;
    FieldAt(bits, pos + cl[s], k.ExtraBits(), k.Extra());
    AtConcat(bits, pos, CodeBits(cl, s), LsbBits(k.Extra(), k.ExtraBits()));
  }

  lemma LenComplete(k: LenCode, cl: seq<nat>, bits: seq<bit>, pos: nat)
    requires Fits(cl) && k.Valid() && HasCode(cl, k.Sym()) && At(bits, pos, EncLen(k, cl))
    requires k.CutZeros? ==> |bits| - pos - cl[18] < 7
    ensures ParseLen(cl, bits, pos) == Ok(k, pos + |EncLen(k, cl)|)
  {
    hide At, CodeBits, Fits;
    AtConcat(bits, pos, CodeBits(cl, k.Sym()), LsbBits(k.Extra(), k.ExtraBits()));
    SymbolAt(cl, k.Sym(), bits, pos);
    FieldAt(bits, pos + cl[k.Sym()], k.ExtraBits(), k.Extra());
  }

  lemma {:induction false} LensSound(cl: seq<nat>, total: nat, bits: seq<bit>, pos: nat, acc: seq<nat>)
    requires |cl| == 19 && pos <= |bits| && ParseLens(cl, total, bits, pos, acc).Ok?
    ensures var r := ParseLens(cl, total, bits, pos, acc);
      && LensOk(r.value, cl, total, acc, |bits| - pos)
      && At(bits, pos, EncLens(r.value, cl, total, acc, |bits| - pos))
      && r.pos == pos + |EncLens(r.value, cl, total, acc, |bits| - pos)|
    decreases total - |acc|
  {
    hide At, ParseLen, EncLen;
    if |acc| >= total {
      AtEmpty(bits, pos);
    } else {
      var one := ParseLen(cl, bits, pos);
      var k := one.value;
      LenSound(cl, bits, pos);
      EncLenSize(k, cl);
      LensSound(cl, total, bits, one.pos, Step(acc, k));
      var rest := ParseLens(cl, total, bits, one.pos, Step(acc, k)).value;
      AtConcat(bits, pos, EncLen(k, cl), EncLens(rest, cl, total, Step(acc, k), |bits| - one.pos));
    }
  }

  lemma AtEmpty(bits: seq<bit>, pos: nat)
    requires pos <= |bits|
    ensures At(bits, pos, [])
  {
  }

  lemma EncLenSize(k: LenCode, cl: seq<nat>)
    requires k.Valid() && HasCode(cl, k.Sym())
    ensures |EncLen(k, cl)| == cl[k.Sym()] + k.ExtraBits()
  {
  }

  lemma {:induction false} LensComplete(cl: seq<nat>, total: nat, bits: seq<bit>, pos: nat, acc: seq<nat>,
                                        ks: List<LenCode>)
    requires Fits(cl) && LensOk(ks, cl, total, acc, |bits| - pos)
    requires At(bits, pos, EncLens(ks, cl, total, acc, |bits| - pos))
    ensures ParseLens(cl, total, bits, pos, acc) == Ok(ks, pos + |EncLens(ks, cl, total, acc, |bits| - pos)|)
    decreases ks
  {
    hide At, ParseLen, EncLen, Fits;
    match ks
    case Nil =>
    case Cons(k, rest) =>
      EncLenSize(k, cl);
      var p := pos + |EncLen(k, cl)|;
      AtConcat(bits, pos, EncLen(k, cl), EncLens(rest, cl, total, Step(acc, k), |bits| - p));
      LenComplete(k, cl, bits, pos);
      LensComplete(cl, total, bits, p, Step(acc, k), rest);
  }

  // ---------------------------------------------------------------- heads of dynamic blocks

  ghost function ParseRaw(bits: seq<bit>, pos: nat, k: nat): (r: Option<seq<nat>>)
    ensures r.Some? ==> |r.value| == k && (k > 0 ==> pos + 3 * k <= |bits|)
    decreases k
  {
    if k == 0 then Some([]) else
    match (Field(bits, pos, 3), ParseRaw(bits, pos + 3, k - 1))
    case (Some(v), Some(rest)) => Some([v] + rest)
    case _ => None
  }

  lemma {:induction false} RawIff(bits: seq<bit>, pos: nat, raw: seq<nat>)
    requires pos <= |bits|
    ensures ParseRaw(bits, pos, |raw|) == Some(raw) <==>
            (forall i :: 0 <= i < |raw| ==> raw[i] < 8) && At(bits, pos, EncRaw(raw))
    decreases |raw|
  {
    if raw == [] {
    } else {
      hide At;
      assert Pow2(3) == 8;
      FieldAt(bits, pos, 3, raw[0]);
      AtConcat(bits, pos, LsbBits(raw[0], 3), EncRaw(raw[1..]));
      assert raw == [raw[0]] + raw[1..];
      if pos + 3 <= |bits| {
        RawIff(bits, pos + 3, raw[1..]);
      }
    }
  }

  ghost function ParseHead(bits: seq<bit>, at: nat): (r: Parsed<Head>)
    ensures r.Ok? ==> at < r.pos <= |bits|
  {
    var a, b, k := Field(bits, at, 5), Field(bits, at + 5, 5), Field(bits, at + 10, 4);
    if a.None? || b.None? || k.None? then Fail else
    var nlen, ndist, ncode := a.value + 257, b.value + 1, k.value + 4;
    if nlen > LIT_MAX || ndist > DIST_MAX then Fail else
    match ParseRaw(bits, at + 14, ncode)
    case None => Fail
    case Some(raw) =>
      if !Complete(Scatter(raw)) then Fail else
      match ParseLens(Scatter(raw), nlen + ndist, bits, at + 14 + 3 * ncode, [])
      case Fail => Fail
      case Ok(ks, q) => Ok(Head(nlen, ndist, raw, ks), q)
  }

  lemma AcceptableFits(l: seq<nat>)
    requires Lengths(l) && Acceptable(l)
    ensures Fits(l)
  {
    KraftAllZero(l);
  }

  lemma ScatterFits(raw: seq<nat>)
    requires RawOk(raw) && Complete(Scatter(raw))
    ensures Fits(Scatter(raw))
  {
    hide Position, Complete;
    AcceptableFits(Scatter(raw));
  }

  lemma {:induction false} UnrollLengths(ks: List<LenCode>, cl: seq<nat>, total: nat, acc: seq<nat>, room: int)
    requires LensOk(ks, cl, total, acc, room) && |acc| <= total && Lengths(acc)
    ensures Lengths(Unroll(ks, cl, total, acc, room))
    decreases ks
  {
    match ks
    case Nil =>
    case Cons(k, rest) =>
      UnrollLengths(rest, cl, total, Step(acc, k), room - cl[k.Sym()] - k.ExtraBits());
  }

  /** The codes of an accepted block are prefix-free. */
  lemma TablesFit(h: Head, at: nat, size: nat)
    requires HeadOk(h, at, size) && TablesOk(TablesOf(h, at, size))
    ensures TablesOf(h, at, size).Fit()
  {
    hide Acceptable, Scatter, Complete;
    UnrollLengths(h.ks, Scatter(h.raw), h.nlen + h.ndist, [], size - LensStart(h, at));
    AcceptableFits(TablesOf(h, at, size).lit);
    AcceptableFits(TablesOf(h, at, size).dist);
  }

  lemma FixedFits()
    ensures FixedTables().Fit() && HasCode(FixedLit(), END)
  {
    var a, b, c, d := seq(144, _ => 8), seq(112, _ => 9), seq(24, _ => 7), seq(8, _ => 8);
    assert FixedLit() == a + (b + (c + d));
    KraftConcat(a, b + (c + d));
    KraftConcat(b, c + d);
    KraftConcat(c, d);
    KraftRun(8, 144);
    KraftRun(9, 112);
    KraftRun(7, 24);
    KraftRun(8, 8);
    KraftRun(5, 30);
    assert FixedDist() == seq(30, _ => 5);
    PowersOfTwo();
  }

  lemma PowersOfTwo()
    ensures Pow2(6) == 64 && Pow2(7) == 128 && Pow2(8) == 256 && Pow2(10) == 1024 && Pow2(15) == 32768
    ensures Pow2(4) == 16 && Pow2(5) == 32 && Pow2(16) == 65536
  {
    assert Pow2(4) == 16;
    Pow2Add(4, 4);
    assert Pow2(6) == 64;
    assert Pow2(7) == 128;
    Pow2Add(5, 5);
    Pow2Add(7, 8);
    Pow2Add(8, 8);
  }

  /** The three fields of a head and its list of three-bit lengths. */
  ghost predicate HeadFields(h: Head, bits: seq<bit>, at: nat)
    requires 257 <= h.nlen && 1 <= h.ndist && 4 <= |h.raw|
  {
    && At(bits, at, LsbBits(h.nlen - 257, 5))
    && At(bits, at + 5, LsbBits(h.ndist - 1, 5))
    && At(bits, at + 10, LsbBits(|h.raw| - 4, 4))
    && At(bits, at + 14, EncRaw(h.raw))
  }

  lemma HeadAt(h: Head, bits: seq<bit>, at: nat)
    requires HeadOk(h, at, |bits|)
    ensures |EncHead(h, at, |bits|)| == 14 + 3 * |h.raw| + |EncHeadLens(h, at, |bits|)|
    ensures At(bits, at, EncHead(h, at, |bits|)) <==>
            HeadFields(h, bits, at) && At(bits, LensStart(h, at), EncHeadLens(h, at, |bits|))
  {
    hide At, LensOk, EncHeadLens, Complete, Scatter, LsbBits, EncRaw;
    var a, b, k := LsbBits(h.nlen - 257, 5), LsbBits(h.ndist - 1, 5), LsbBits(|h.raw| - 4, 4);
    var r := EncRaw(h.raw);
    var e := EncHeadLens(h, at, |bits|);
    AtConcat(bits, at, a, b + (k + (r + e)));
    AtConcat(bits, at + 5, b, k + (r + e));
    AtConcat(bits, at + 10, k, r + e);
    AtConcat(bits, at + 14, r, e);
  }

  lemma HeadSound(bits: seq<bit>, at: nat)
    requires ParseHead(bits, at).Ok?
    ensures var r := ParseHead(bits, at);
      && HeadOk(r.value, at, |bits|)
      && At(bits, at, EncHead(r.value, at, |bits|)) && r.pos == at + |EncHead(r.value, at, |bits|)|
  {
    hide At, LensOk, EncLens, Complete, Scatter, ParseLens, ParseRaw, EncHead, LsbBits, EncRaw;
    var h := ParseHead(bits, at).value;
    FieldAt(bits, at, 5, h.nlen - 257);
    FieldAt(bits, at + 5, 5, h.ndist - 1);
    FieldAt(bits, at + 10, 4, |h.raw| - 4);
    PowersOfTwo();
    RawIff(bits, at + 14, h.raw);
    AtBound(bits, at + 14, EncRaw(h.raw));
    LensSound(Scatter(h.raw), h.nlen + h.ndist, bits, LensStart(h, at), []);
    HeadAt(h, bits, at);
  }

  lemma AtBound(bits: seq<bit>, pos: nat, s: seq<bit>)
    ensures At(bits, pos, s) ==> pos + |s| <= |bits|
  {
  }

  lemma HeadComplete(h: Head, bits: seq<bit>, at: nat)
    requires HeadOk(h, at, |bits|) && At(bits, at, EncHead(h, at, |bits|))
    ensures ParseHead(bits, at) == Ok(h, at + |EncHead(h, at, |bits|)|)
  {
    hide At, LensOk, EncLens, Complete, Scatter, ParseLens, ParseRaw, EncHead, LsbBits, EncRaw;
    HeadAt(h, bits, at);
    FieldAt(bits, at, 5, h.nlen - 257);
    FieldAt(bits, at + 5, 5, h.ndist - 1);
    FieldAt(bits, at + 10, 4, |h.raw| - 4);
    PowersOfTwo();
    AtBound(bits, at + 10, LsbBits(|h.raw| - 4, 4));
    RawIff(bits, at + 14, h.raw);
    ScatterFits(h.raw);
    LensComplete(Scatter(h.raw), h.nlen + h.ndist, bits, LensStart(h, at), [], h.ks);
  }

  // ---------------------------------------------------------------- blocks

  /** at is the first bit after the block's three header bits. */
  ghost function ParseStored(bits: seq<bit>, at: nat, n: nat): (r: Parsed<Block>)
    ensures r.Ok? ==> at < r.pos <= |bits|
  {
    var a := at + PadLen(at);
    var len, com := Field(bits, a, 16), Field(bits, a + 16, 16);
    if len.None? || com != Some(0xffff - len.value) then Fail
    else if a + 32 + 8 * len.value > |bits| || n + len.value > OUT_MAX then Fail
    else Ok(Stored(bits[at..a], Bytes(bits, a + 32, len.value)), a + 32 + 8 * len.value)
  }

  ghost function ParseFixed(bits: seq<bit>, at: nat, n: nat): (r: Parsed<Block>)
    ensures r.Ok? ==> at < r.pos <= |bits|
  {
    match ParseTokens(FixedTables(), bits, at, n)
    case Fail => Fail
    case Ok(ts, q) => Ok(Fixed(ts), q)
  }

  ghost function ParseDynamic(bits: seq<bit>, at: nat, n: nat): (r: Parsed<Block>)
    ensures r.Ok? ==> at < r.pos <= |bits|
  {
    match ParseHead(bits, at)
    case Fail => Fail
    case Ok(h, p) =>
      HeadSound(bits, at);
      if !TablesOk(TablesOf(h, at, |bits|)) then Fail else
      match ParseTokens(TablesOf(h, at, |bits|), bits, p, n)
      case Fail => Fail
      case Ok(ts, q) => Ok(Dynamic(h, ts), q)
  }

  ghost function ParseBlock(bits: seq<bit>, pos: nat, n: nat): (r: Parsed<Block>)
    ensures r.Ok? ==> pos < r.pos <= |bits| && Field(bits, pos, 1).Some?
  {
    if Field(bits, pos, 1).None? then Fail else
    match Field(bits, pos + 1, 2)
    case None => Fail
    case Some(kind) =>
      if kind == 0 then ParseStored(bits, pos + 3, n)
      else if kind == 1 then ParseFixed(bits, pos + 3, n)
      else if kind == 2 then ParseDynamic(bits, pos + 3, n)
      else Fail
  }

  lemma StoredAt(bits: seq<bit>, a: nat, data: seq<byte>)
    requires |data| < 0x1_0000 && a + 32 + 8 * |data| <= |bits|
    ensures At(bits, a, EncStored(data)) <==>
            && Field(bits, a, 16) == Some(|data|) && Field(bits, a + 16, 16) == Some(0xffff - |data|)
            && Bytes(bits, a + 32, |data|) == data
  {
    hide At, Field, Bytes;
    var l, c := LsbBits(|data|, 16), LsbBits(0xffff - |data|, 16);
    AtConcat(bits, a, l, c + Stream(data));
    AtConcat(bits, a + 16, c, Stream(data));
    PowersOfTwo();
    FieldAt(bits, a, 16, |data|);
    FieldAt(bits, a + 16, 16, 0xffff - |data|);
    BytesAt(bits, a + 32, data);
  }

  /** The body of a parsed block is well formed and stands where it was parsed. */
  ghost predicate BodyAt(b: Block, bits: seq<bit>, pos: nat, n: nat, q: nat) {
    && BlockOk(b, pos, |bits|, n)
    && At(bits, pos + 3, EncBody(b, pos, |bits|, n))
    && q == pos + 3 + |EncBody(b, pos, |bits|, n)|
  }

  lemma StoredSound(bits: seq<bit>, pos: nat, n: nat)
    requires ParseStored(bits, pos + 3, n).Ok?
    ensures ParseStored(bits, pos + 3, n).value.Stored?
    ensures BodyAt(ParseStored(bits, pos + 3, n).value, bits, pos, n, ParseStored(bits, pos + 3, n).pos)
  {
    hide EncStored;
    var b := ParseStored(bits, pos + 3, n).value;
    var a := pos + 3 + PadLen(pos + 3);
    PowersOfTwo();
    FieldAt(bits, a, 16, |b.data|);
    StoredAt(bits, a, b.data);
    AtConcat(bits, pos + 3, b.pad, EncStored(b.data));
    EncStoredSize(b.data);
  }

  lemma EncStoredSize(data: seq<byte>)
    requires |data| < 0x1_0000
    ensures |EncStored(data)| == 32 + 8 * |data|
  {
  }

  lemma StoredComplete(b: Block, bits: seq<bit>, pos: nat, n: nat, q: nat)
    requires b.Stored? && BodyAt(b, bits, pos, n, q)
    ensures ParseStored(bits, pos + 3, n) == Ok(b, q)
  {
    hide EncStored, Field, Bytes;
    var a := pos + 3 + PadLen(pos + 3);
    AtConcat(bits, pos + 3, b.pad, EncStored(b.data));
    EncStoredSize(b.data);
    StoredAt(bits, a, b.data);
  }

  lemma BodySound(bits: seq<bit>, pos: nat, n: nat)
    requires ParseBlock(bits, pos, n).Ok?
    ensures var b := ParseBlock(bits, pos, n).value;
      && BodyAt(b, bits, pos, n, ParseBlock(bits, pos, n).pos)
      && Field(bits, pos + 1, 2) == Some(Type(b))
  {
    hide At, ParseStored, ParseTokens, ParseHead, HeadOk, EncHead, EncTokens, TokensOk, TablesOk, FixedTables, TablesOf;
    var b := ParseBlock(bits, pos, n).value;
    match Field(bits, pos + 1, 2).value {
      case 0 => StoredSound(bits, pos, n);
      case 1 => TokensSound(FixedTables(), bits, pos + 3, n);
      case _ =>
        var at := pos + 3;
        HeadSound(bits, at);
        var p := ParseHead(bits, at).pos;
        var c := TablesOf(b.head, at, |bits|);
        TokensSound(c, bits, p, n);
        AtConcat(bits, at, EncHead(b.head, at, |bits|), EncTokens(b.tokens, c, n));
    }
  }

  lemma BodyComplete(b: Block, bits: seq<bit>, pos: nat, n: nat, q: nat)
    requires BodyAt(b, bits, pos, n, q)
    requires Field(bits, pos, 1).Some? && Field(bits, pos + 1, 2) == Some(Type(b))
    ensures ParseBlock(bits, pos, n) == Ok(b, q)
  {
    hide At, ParseStored, ParseTokens, ParseHead, HeadOk, EncHead, EncTokens, TokensOk, TablesOk, FixedTables, TablesOf;
    match b
    case Stored(_, _) => StoredComplete(b, bits, pos, n, q);
    case Fixed(ts) =>
      FixedFits();
      TokensComplete(FixedTables(), bits, pos + 3, n, ts);
    case Dynamic(h, ts) =>
      var at := pos + 3;
      var c := TablesOf(h, at, |bits|);
      AtConcat(bits, at, EncHead(h, at, |bits|), EncTokens(ts, c, n));
      HeadComplete(h, bits, at);
      TablesFit(h, at, |bits|);
      TokensComplete(c, bits, at + |EncHead(h, at, |bits|)|, n, ts);
  }

  lemma BlockAt(b: Block, last: bool, bits: seq<bit>, pos: nat, n: nat)
    requires BlockOk(b, pos, |bits|, n)
    ensures At(bits, pos, EncBlock(b, last, pos, |bits|, n)) <==>
            && Field(bits, pos, 1) == Some(if last then 1 else 0)
            && Field(bits, pos + 1, 2) == Some(Type(b))
            && At(bits, pos + 3, EncBody(b, pos, |bits|, n))
    ensures |EncBlock(b, last, pos, |bits|, n)| == 3 + |EncBody(b, pos, |bits|, n)|
  {
    hide At, BlockOk, EncBody, Field, LsbBits;
    var f, t := if last then 1 else 0, Type(b);
    AtConcat(bits, pos, LsbBits(f, 1), LsbBits(t, 2) + EncBody(b, pos, |bits|, n));
    AtConcat(bits, pos + 1, LsbBits(t, 2), EncBody(b, pos, |bits|, n));
    FieldAt(bits, pos, 1, f);
    FieldAt(bits, pos + 1, 2, t);
    assert Pow2(1) == 2 && Pow2(2) == 4;
  }

  /** Blocks up to and including the first one marked as last. */
  ghost function ParseBlocks(bits: seq<bit>, pos: nat, out: seq<byte>): (r: Parsed<List<Block>>)
    decreases |bits| - pos
  {
    match ParseBlock(bits, pos, |out|)
    case Fail => Fail
    case Ok(b, q) =>
      BodySound(bits, pos, |out|);
      if Field(bits, pos, 1) == Some(1) then Ok(Cons(b, Nil), q)
      else Push(b, ParseBlocks(bits, q, Apply(out, b, pos, |bits|)))
  }

  lemma FlagRead(bits: seq<bit>, pos: nat)
    ensures Field(bits, pos, 1) in {None, Some(0), Some(1)}
  {
    if pos + 1 <= |bits| {
      LsbBound(bits[pos..pos + 1]);
      assert Pow2(1) == 2;
    }
  }

  lemma {:induction false} BlocksSound(bits: seq<bit>, pos: nat, out: seq<byte>)
    requires ParseBlocks(bits, pos, out).Ok?
    ensures var r := ParseBlocks(bits, pos, out);
      && BlocksOk(r.value, pos, |bits|, out)
      && At(bits, pos, EncBlocks(r.value, pos, |bits|, out))
      && r.pos == pos + |EncBlocks(r.value, pos, |bits|, out)|
    decreases |bits| - pos
  {
    hide At, BlockOk, EncBody, Field, EncBlock, Apply, ParseBlock;
    var one := ParseBlock(bits, pos, |out|);
    var b, q := one.value, one.pos;
    BodySound(bits, pos, |out|);
    FlagRead(bits, pos);
    BlockAt(b, false, bits, pos, |out|);
    BlockAt(b, true, bits, pos, |out|);
    if Field(bits, pos, 1) != Some(1) {
      var out' := Apply(out, b, pos, |bits|);
      BlocksSound(bits, q, out');
      var rest := ParseBlocks(bits, q, out').value;
      AtConcat(bits, pos, EncBlock(b, false, pos, |bits|, |out|), EncBlocks(rest, q, |bits|, out'));
    }
  }

  lemma {:induction false} BlocksComplete(bs: List<Block>, bits: seq<bit>, pos: nat, out: seq<byte>)
    requires BlocksOk(bs, pos, |bits|, out) && At(bits, pos, EncBlocks(bs, pos, |bits|, out))
    ensures ParseBlocks(bits, pos, out) == Ok(bs, pos + |EncBlocks(bs, pos, |bits|, out)|)
    decreases bs
  {
    hide At, BlockOk, EncBody, Field, EncBlock, Apply, ParseBlock;
    match bs
    case Cons(b, rest) =>
      var last := rest == Nil;
      var q := pos + |EncBlock(b, last, pos, |bits|, |out|)|;
      BlockAt(b, false, bits, pos, |out|);
      BlockAt(b, true, bits, pos, |out|);
      if !last {
        var out' := Apply(out, b, pos, |bits|);
        AtConcat(bits, pos, EncBlock(b, false, pos, |bits|, |out|), EncBlocks(rest, q, |bits|, out'));
        BlocksComplete(rest, bits, q, out');
      }
      BodyComplete(b, bits, pos, |out|, q);
  }

  /** The bytes a bit string stands for, if it starts with a list of well-formed blocks. */
  ghost function Inflate(bits: seq<bit>): Option<seq<byte>> {
    match ParseBlocks(bits, 0, [])
    case Fail => None
    case Ok(bs, _) =>
      BlocksSound(bits, 0, []);
      Some(Expand(bs, 0, |bits|, []))
  }

  /** bs is written at the start of bits, in the sense of the encoder. */
  ghost predicate Encodes(bs: List<Block>, bits: seq<bit>) {
    BlocksOk(bs, 0, |bits|, []) && At(bits, 0, EncBlocks(bs, 0, |bits|, []))
  }

  /** Exactly the encodings are accepted, each with the expansion of its blocks as result. */
  lemma InflateIff(bits: seq<bit>, out: seq<byte>)
    ensures Inflate(bits) == Some(out) <==>
            exists bs :: Encodes(bs, bits) && Expand(bs, 0, |bits|, []) == out
  {
    hide BlocksOk, EncBlocks, Expand, At, ParseBlocks;
    if Inflate(bits) == Some(out) {
      BlocksSound(bits, 0, []);
      assert Encodes(ParseBlocks(bits, 0, []).value, bits);
    }
    forall bs | Encodes(bs, bits) && Expand(bs, 0, |bits|, []) == out
      ensures Inflate(bits) == Some(out)
    {
      BlocksComplete(bs, bits, 0, []);
    }
  }

  /** No bit string encodes two lists of blocks. */
  lemma EncodingUnique(bs: List<Block>, cs: List<Block>, bits: seq<bit>)
    requires Encodes(bs, bits) && Encodes(cs, bits)
    ensures bs == cs
  {
    BlocksComplete(bs, bits, 0, []);
    BlocksComplete(cs, bits, 0, []);
  }
}
