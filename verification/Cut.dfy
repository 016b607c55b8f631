/**
 A concrete input that the decoder accepts although RFC 1951 does not describe it: the seven
 extra bits of its last code length symbol are missing.
 */
module Cut {
  import opened Wrappers
  import opened Bits
  import opened Canonical
  import opened Rfc1951
  import opened Parse
  import Apk
  import Inflate

  /** A dynamic block with 255 unused symbols, two of length one, and ten zeros that a cut-off 18 stands for. */
  const KS: List<LenCode> :=
    Cons(ManyZeros(127), Cons(ManyZeros(106), Cons(Plain(1), Cons(Plain(1), Cons(CutZeros, Nil)))))
  const RAW: seq<nat> := [0, 0, 1, 0, 0, 0, 0, 0, 0, 0, 0, 0, 0, 0, 0, 0, 0, 1]
  const HEAD: Head := Head(257, 10, RAW, KS)
  const TOKENS: List<Token> := Cons(Literal(255), Nil)
  const BLOCKS: List<Block> := Cons(Dynamic(HEAD, TOKENS), Nil)

  function Zeros(n: nat): seq<nat> {
    seq(n, _ => 0)
  }

  function LengthCode(): seq<nat> {
    Zeros(1) + ([1] + (Zeros(16) + [1]))
  }

  function LitCode(): seq<nat> {
    Zeros(255) + [1, 1]
  }

  lemma {:induction false} ZerosEmpty(k: nat)
    ensures Count(Zeros(k), 0) == k && Kraft(Zeros(k)) == 0
  {
    if k > 0 {
      ZerosEmpty(k - 1);
      assert Zeros(k)[..k - 1] == Zeros(k - 1);
    }
  }

  lemma CodesComplete()
    ensures Complete(LengthCode()) && Complete(LitCode()) && Complete(Zeros(10))
  {
    assert Pow2(15) == 2 * Pow2(14);
    assert [1][..0] == [] && [1, 1][..1] == [1];
    assert Kraft([1]) == Pow2(14) && Kraft([1, 1]) == Pow2(15);
    ZerosEmpty(1);
    ZerosEmpty(10);
    ZerosEmpty(16);
    ZerosEmpty(255);
    KraftConcat(Zeros(1), [1] + (Zeros(16) + [1]));
    KraftConcat([1], Zeros(16) + [1]);
    KraftConcat(Zeros(16), [1]);
    KraftConcat(Zeros(255), [1, 1]);
  }

  lemma ScatterRaw()
    ensures Scatter(RAW) == LengthCode()
  {
    hide Order;
    forall s | 0 <= s < 19
      ensures Scatter(RAW)[s] == LengthCode()[s]
    {
    }
  }

  /** One more element in front of a list that ends with ten zeros from the cut-off symbol. */
  lemma LensCons(k: LenCode, rest: List<LenCode>, acc: seq<nat>, next: seq<nat>, room: int)
    requires k.Valid() && HasCode(LengthCode(), k.Sym()) && LengthCode()[k.Sym()] == 1
    requires !k.Repeat? && (k.CutZeros? ==> room < 8)
    requires |acc| < |next| <= 267 && Step(acc, k) == next
    requires LensOk(rest, LengthCode(), 267, next, room - 1 - k.ExtraBits())
    requires Unroll(rest, LengthCode(), 267, next, room - 1 - k.ExtraBits()) == LitCode() + Zeros(10)
    ensures LensOk(Cons(k, rest), LengthCode(), 267, acc, room)
    ensures Unroll(Cons(k, rest), LengthCode(), 267, acc, room) == LitCode() + Zeros(10)
    ensures |EncLens(Cons(k, rest), LengthCode(), 267, acc, room)| ==
            1 + k.ExtraBits() + |EncLens(rest, LengthCode(), 267, next, room - 1 - k.ExtraBits())|
  {
    hide LitCode, Zeros, CodeBits;
    EncLenSize(k, LengthCode());
  }

  lemma LensNil()
    ensures var l := LitCode() + Zeros(10);
      LensOk(Nil, LengthCode(), 267, l, 6) && EncLens(Nil, LengthCode(), 267, l, 6) == [] &&
      Unroll(Nil, LengthCode(), 267, l, 6) == l
  {
  }

  lemma Steps()
    ensures Step([], ManyZeros(127)) == Zeros(138) && Step(Zeros(138), ManyZeros(106)) == Zeros(255)
    ensures Step(Zeros(255), Plain(1)) == Zeros(255) + [1] && Step(Zeros(255) + [1], Plain(1)) == LitCode()
    ensures Step(LitCode(), CutZeros) == LitCode() + Zeros(10)
  {
  }

  lemma Lens()
    ensures LensOk(KS, LengthCode(), 267, [], 25)
    ensures Unroll(KS, LengthCode(), 267, [], 25) == LitCode() + Zeros(10)
    ensures |EncLens(KS, LengthCode(), 267, [], 25)| == 19
  {
    hide LensOk, EncLens, Unroll, Step;
    Steps();
    assert Pow2(7) == 128;
    var k5 := Cons(CutZeros, Nil);
    var k4 := Cons(Plain(1), k5);
    var k3 := Cons(Plain(1), k4);
    LensNil();
    LensCons(CutZeros, Nil, LitCode(), LitCode() + Zeros(10), 7);
    LensCons(Plain(1), k5, Zeros(255) + [1], LitCode(), 8);
    LensCons(Plain(1), k4, Zeros(255), Zeros(255) + [1], 9);
    LensCons(ManyZeros(106), k3, Zeros(138), Zeros(255), 17);
    LensCons(ManyZeros(127), Cons(ManyZeros(106), k3), [], Zeros(138), 25);
  }

  lemma HeadFits()
    ensures HeadOk(HEAD, 3, 96) && |EncHead(HEAD, 3, 96)| == 14 + 54 + 19
    ensures TablesOf(HEAD, 3, 96) == Tables(LitCode(), Zeros(10))
  {
    hide LensOk, EncLens, Unroll, Scatter, Complete;
    ScatterRaw();
    CodesComplete();
    Lens();
    assert (LitCode() + Zeros(10))[..257] == LitCode() && (LitCode() + Zeros(10))[257..] == Zeros(10);
  }

  lemma BlockFits()
    ensures BlocksOk(BLOCKS, 0, 96, []) && |EncBlocks(BLOCKS, 0, 96, [])| == 92
    ensures Expand(BLOCKS, 0, 96, []) == [255]
  {
    hide HeadOk, EncHead, TablesOf, Complete;
    HeadFits();
    CodesComplete();
    assert |EncTokens(TOKENS, Tables(LitCode(), Zeros(10)), 0)| == 2;
  }

  /**
   The block and four bits of padding, as bytes 05 c9 81 00 00 00 00 00 90 ff 6a 0a: six bits are
   left where the cut-off symbol needs seven, and a literal and the end-of-block symbol are read from them.
   */
  function Input(): seq<byte>
    requires BlocksOk(BLOCKS, 0, 96, []) && |EncBlocks(BLOCKS, 0, 96, [])| == 92
  {
    Apk.MAGIC + [Apk.DEFLATED] + Bytes(EncBlocks(BLOCKS, 0, 96, []) + [0, 0, 0, 0], 0, 12)
  }

  /** The decoder unpacks this input to one byte, and no RFC 1951 encoder writes it. */
  lemma CutInputAccepted()
    ensures BlocksOk(BLOCKS, 0, 96, []) && |EncBlocks(BLOCKS, 0, 96, [])| == 92
    ensures Apk.Unpacked(Input()) == Some([255])
    ensures !Inflate.RfcStream(Stream(Input()[4..]))
  {
    hide BlocksOk, EncBlocks, Expand, ParseBlocks, Stream;
    BlockFits();
    var e := EncBlocks(BLOCKS, 0, 96, []);
    var bits := e + [0, 0, 0, 0];
    var body := Bytes(bits, 0, 12);
    assert Input()[4..] == body && Input()[..3] == Apk.MAGIC;
    BytesAt(bits, 0, body);
    assert bits[0..96] == bits && Stream(body) == bits;
    BlocksComplete(BLOCKS, bits, 0, []);
    Inflate.AcceptedIff(bits);
  }
}
