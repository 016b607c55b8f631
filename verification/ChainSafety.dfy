/**
 The whole way of a parent record: the controller writes the chain of its owner, in which only half
 of the parent's chain fits (package/roamd/src/mesh_profile.c), and a node keeps the record unless the
 chain names it (package/roamd/src/mesh_node.c). When following such a record is safe.
 */
module ChainSafety {
  import opened Wrappers
  import opened Uplinks
  import opened MeshChain
  import opened MeshProfile
  import opened MeshNode

  // ---------------------------------------------------------------- pieces of a cut chain

  lemma TokensAlone(t: string)
    requires DASH !in t
    ensures Tokens(t) == [t]
  {
  }

  lemma NextDashIs(s: string, d: nat)
    requires d <= |s| && (d < |s| ==> s[d] == DASH) && forall j :: 0 <= j < d ==> s[j] != DASH
    ensures NextDash(s, 0) == d
  {
  }

  lemma {:induction false} TokensConcat(s: string, t: string)
    ensures Tokens(s + [DASH] + t) == Tokens(s) + Tokens(t)
    decreases |s|
  {
    var a := s + [DASH] + t;
    var d := NextDash(s, 0);
    NextDashIs(a, d);
    if d == |s| {
      assert a[..d] == s && a[d + 1..] == t;
    } else {
      assert a[..d] == s[..d] && a[d + 1..] == s[d + 1..] + [DASH] + t;
      TokensConcat(s[d + 1..], t);
    }
  }

  /** t is a piece of s or shorter than one. */
  ghost predicate PieceOf(t: string, s: string) {
    t in Tokens(s) || exists u :: u in Tokens(s) && |t| < |u|
  }

  lemma FirstPiece(s: string)
    ensures var d := NextDash(s, 0);
            s[..d] in Tokens(s) && DASH !in s[..d]
            && (d < |s| ==> Tokens(s) == [s[..d]] + Tokens(s[d + 1..]))
  {
    var d := NextDash(s, 0);
    if d == |s| {
      assert s[..d] == s;
    }
    assert Tokens(s)[0] == s[..d];
  }

  /** The pieces of what a chain is cut to. */
  lemma {:induction false} PiecesOfCut(s: string, n: nat, t: string)
    requires n <= |s| && t in Tokens(s[..n])
    ensures PieceOf(t, s)
    decreases |s|
  {
    hide Tokens;
    var d := NextDash(s, 0);
    FirstPiece(s);
    if n <= d {
      assert s[..n] == s[..d][..n];
      TokensAlone(s[..n]);
      assert n == d || |t| < |s[..d]|;
    } else {
      var rest := s[d + 1..];
      assert s[..n] == s[..d] + [DASH] + rest[..n - d - 1];
      TokensConcat(s[..d], rest[..n - d - 1]);
      TokensAlone(s[..d]);
      if t != s[..d] {
        PiecesOfCut(rest, n - d - 1, t);
        if t !in Tokens(rest) {
          var u :| u in Tokens(rest) && |t| < |u|;
          assert u in Tokens(s);
        }
      }
    }
  }

  // ---------------------------------------------------------------- whom a chain names

  /** The ids of a system: they can be told apart in a chain and have one length, six characters in the source. */
  ghost predicate Named(ms: seq<Member>, len: nat) {
    && GoodIds(IdsOf(ms)) && 0 < len <= ID_MAX
    && forall n :: 0 <= n < |ms| ==> |ms[n].id| == len
  }

  ghost predicate FromPath(ms: seq<Member>, g: seq<Up>, i: nat, k: nat, len: nat, t: string)
    requires Valid(g) && |g| == |ms| && i < |g| && Reaches(g, i, k)
  {
    |t| <= len && (|t| == len ==> t in PathIds(IdsOf(ms), g, i, k))
  }

  lemma IdIsPlain(ms: seq<Member>, len: nat, i: nat)
    requires Named(ms, len) && i < |ms|
    ensures Plain(ms[i].id) && Tokens(ms[i].id) == [ms[i].id] && |ms[i].id| == len
  {
    assert Plain(IdsOf(ms)[i]);
    TokensAlone(ms[i].id);
  }

  lemma {:induction false} ChainPieces(ms: seq<Member>, g: seq<Up>, i: nat, k: nat, len: nat, t: string)
    requires Named(ms, len) && Valid(g) && |g| == |ms| && i < |g| && Reaches(g, i, k)
    requires t in Tokens(Chain(ms, g, i, k))
    ensures FromPath(ms, g, i, k, len, t)
    decreases k, 0
  {
    hide PathIds, Tokens, Named;
    IdIsPlain(ms, len, i);
    PathIdsPush(ms, g, i, k);
    if g[i].Via? {
      var c := Chain(ms, g, g[i].to, k - 1);
      TokensConcat(Take(c, CHAIN_MAX / 2), ms[i].id);
      IdShort(ms, len, i);
      if t in Tokens(Take(c, CHAIN_MAX / 2)) {
        CutPieces(ms, g, g[i].to, k - 1, len, t);
      }
    } else {
      IdShort(ms, len, i);
    }
  }

  lemma IdShort(ms: seq<Member>, len: nat, i: nat)
    requires Named(ms, len) && i < |ms|
    ensures Take(ms[i].id, ID_MAX) == ms[i].id
  {
  }

  lemma {:induction false} CutPieces(ms: seq<Member>, g: seq<Up>, i: nat, k: nat, len: nat, t: string)
    requires Named(ms, len) && Valid(g) && |g| == |ms| && i < |g| && Reaches(g, i, k)
    requires t in Tokens(Take(Chain(ms, g, i, k), CHAIN_MAX / 2))
    ensures FromPath(ms, g, i, k, len, t)
    decreases k, 1
  {
    hide PathIds, Tokens, Named, Chain;
    var c := Chain(ms, g, i, k);
    var n := if |c| <= CHAIN_MAX / 2 then |c| else CHAIN_MAX / 2;
    assert c[..|c|] == c;
    PiecesOfCut(c, n, t);
    if t in Tokens(c) {
      ChainPieces(ms, g, i, k, len, t);
    } else {
      var u :| u in Tokens(c) && |t| < |u|;
      ChainPieces(ms, g, i, k, len, u);
    }
  }

  /** No node is on the way above itself. */
  lemma {:induction false} NotAboveItself(g: seq<Up>, x: nat, y: nat, k: nat)
    requires Valid(g) && x < |g| && y < |g| && Reaches(g, y, k) && x in Path(g, y, k)
    ensures exists m: nat :: m <= k && Reaches(g, x, m)
    decreases k
  {
    if x == y {
    } else {
      NotAboveItself(g, x, g[y].to, k - 1);
      var m: nat :| m <= k - 1 && Reaches(g, x, m);
    }
  }

  lemma IdOnPath(ms: seq<Member>, g: seq<Up>, x: nat, y: nat, k: nat, len: nat)
    requires Named(ms, len) && Valid(g) && |g| == |ms| && x < |g| && y < |g| && Reaches(g, y, k)
    ensures ms[x].id in PathIds(IdsOf(ms), g, y, k) <==> x in Path(g, y, k)
  {
    var ids := IdsOf(ms);
    ChainNames(ids, g, x, y, k);
    var t, p := PathIds(ids, g, y, k), Path(g, y, k);
    PathInRange(g, y, k);
    forall i | 0 <= i < |t|
      ensures Plain(t[i])
    {
      assert p[i] in p;
    }
    TokensOfJoin(t);
  }

  /** A record whose owner's parent was cut does not name that parent. */
  lemma CutForgetsParent(ms: seq<Member>, g: seq<Up>, y: nat, k: nat, len: nat)
    requires Named(ms, len) && Valid(g) && |g| == |ms| && y < |g| && Reaches(g, y, k) && !Whole(ms, g, y, k)
    ensures ms[g[y].to].id !in Tokens(Chain(ms, g, y, k)) && g[y].to in Path(g, y, k)
  {
    hide Tokens, PathIds, Named;
    var p := g[y].to;
    var c := Chain(ms, g, p, k - 1);
    IdIsPlain(ms, len, p);
    IdIsPlain(ms, len, y);
    IdShort(ms, len, p);
    IdShort(ms, len, y);
    IdLength(ms, len);
    assert g[p].Via?;
    var q := Take(Chain(ms, g, g[p].to, k - 2), CHAIN_MAX / 2);
    assert c == q + [DASH] + ms[p].id;
    NotOwnParent(ms, g, y, k, len);
    NotGrandparent(ms, g, p, k - 1, len);
    TokensConcat(Take(c, CHAIN_MAX / 2), ms[y].id);
    if |q| == CHAIN_MAX / 2 {
      assert Take(c, CHAIN_MAX / 2) == q;
    } else {
      var piece := ms[p].id[..CHAIN_MAX / 2 - |q| - 1];
      assert Take(c, CHAIN_MAX / 2) == q + [DASH] + piece;
      TokensConcat(q, piece);
      TokensAlone(piece);
    }
    PathHolds(g, y, k);
  }

  lemma IdLength(ms: seq<Member>, len: nat)
    requires Named(ms, len)
    ensures 0 < len <= ID_MAX
  {
  }

  lemma PathHolds(g: seq<Up>, y: nat, k: nat)
    requires Valid(g) && y < |g| && Reaches(g, y, k) && g[y].Via?
    ensures g[y].to in Path(g, y, k)
  {
    assert Reaches(g, g[y].to, k - 1);
    var p := g[y].to;
    assert Path(g, y, k) == Path(g, p, k - 1) + [y];
    assert Path(g, p, k - 1)[|Path(g, p, k - 1)| - 1] == p;
  }

  lemma NotOwnParent(ms: seq<Member>, g: seq<Up>, y: nat, k: nat, len: nat)
    requires Named(ms, len) && Valid(g) && |g| == |ms| && y < |g| && Reaches(g, y, k) && g[y].Via?
    ensures ms[g[y].to].id != ms[y].id
  {
    if g[y].to == y {
      ReachesOnce(g, y, k, k - 1);
    }
    assert IdsOf(ms)[y] == ms[y].id && IdsOf(ms)[g[y].to] == ms[g[y].to].id;
  }

  /** The id of p is no piece of what is left of the chain above p. */
  lemma NotGrandparent(ms: seq<Member>, g: seq<Up>, p: nat, k: nat, len: nat)
    requires Named(ms, len) && Valid(g) && |g| == |ms| && p < |g| && Reaches(g, p, k) && g[p].Via?
    ensures ms[p].id !in Tokens(Take(Chain(ms, g, g[p].to, k - 1), CHAIN_MAX / 2))
  {
    hide Tokens, PathIds, Chain, Named;
    var r := g[p].to;
    if ms[p].id in Tokens(Take(Chain(ms, g, r, k - 1), CHAIN_MAX / 2)) {
      CutPieces(ms, g, r, k - 1, len, ms[p].id);
      IdIsPlain(ms, len, p);
      IdOnPath(ms, g, p, r, k - 1, len);
      NotAboveItself(g, p, r, k - 1);
      var m: nat :| m <= k - 1 && Reaches(g, p, m);
      ReachesOnce(g, p, k, m);
    }
  }

  // ---------------------------------------------------------------- safety

  /** Whoever keeps the record, not being named in it, may follow it: no circle, and nobody loses the root. */
  ghost predicate SafeRecord(ms: seq<Member>, g: seq<Up>, y: nat, chain: string)
    requires Valid(g) && |g| == |ms| && y < |g|
  {
    forall x :: 0 <= x < |g| && !ChainHas(chain, ms[x].id) ==> SafeMove(g, x, y)
  }

  ghost predicate SafeMove(g: seq<Up>, x: nat, y: nat)
    requires Valid(g) && x < |g| && y < |g|
  {
    var h := g[x := Via(y)];
    Acyclic(h) && Attached(h, x) && forall i :: 0 <= i < |g| && Attached(g, i) ==> Attached(h, i)
  }

  lemma WholeIsSafe(ms: seq<Member>, g: seq<Up>, y: nat, k: nat)
    requires GoodIds(IdsOf(ms)) && ShortIds(ms) && Valid(g) && |g| == |ms| && y < |g| && Reaches(g, y, k)
    requires Acyclic(g) && Whole(ms, g, y, k)
    ensures SafeRecord(ms, g, y, Chain(ms, g, y, k)) && Owner(Chain(ms, g, y, k)) == ms[y].id
  {
    hide PathIds, Tokens, Join, Owner, ChainHas, Acyclic, Attached, Chain;
    var ids, chain := IdsOf(ms), Chain(ms, g, y, k);
    ChainIsPath(ms, g, y, k);
    MoveIsSafe(ids, g, y, y, k, chain);
    forall x | 0 <= x < |g| && !ChainHas(chain, ms[x].id)
      ensures SafeMove(g, x, y)
    {
      assert Plain(ids[x]);
      ChainHasIff(chain, ms[x].id);
      MoveIsSafe(ids, g, x, y, k, chain);
    }
  }

  lemma CutIsUnsafe(ms: seq<Member>, g: seq<Up>, y: nat, k: nat, len: nat)
    requires Named(ms, len) && Valid(g) && |g| == |ms| && y < |g| && Reaches(g, y, k)
    requires !Whole(ms, g, y, k)
    ensures var p := g[y].to;
      && !ChainHas(Chain(ms, g, y, k), ms[p].id) && !Attached(g[p := Via(y)], p)
      && !SafeRecord(ms, g, y, Chain(ms, g, y, k))
  {
    hide Tokens, ChainHas, Named, Chain, Acyclic, Attached;
    var p, chain := g[y].to, Chain(ms, g, y, k);
    CutForgetsParent(ms, g, y, k, len);
    IdIsPlain(ms, len, p);
    ChainHasIff(chain, ms[p].id);
    MoveIff(g, p, y, k);
    assert !SafeMove(g, p, y);
  }

  /** The controller's half of it: the way to the root is unique, so a chain does not depend on how it was found. */
  lemma ChainOfIs(ms: seq<Member>, g: seq<Up>, y: nat, k: nat)
    requires Valid(g) && |g| == |ms| && y < |g| && Reaches(g, y, k)
    ensures Attached(g, y) && ChainOf(ms, g, y) == Chain(ms, g, y, k)
  {
    forall m: nat | Reaches(g, y, m)
      ensures m == k
    {
      ReachesOnce(g, y, k, m);
    }
  }

  /** The chain of y's parent, if it has one, fits half the room. */
  ghost predicate Fits(ms: seq<Member>, g: seq<Up>, y: nat)
    requires Valid(g) && |g| == |ms| && y < |g| && Attached(g, y)
  {
    g[y].Via? ==> Attached(g, g[y].to) && |ChainOf(ms, g, g[y].to)| <= CHAIN_MAX / 2
  }

  lemma FitsIsWhole(ms: seq<Member>, g: seq<Up>, y: nat, k: nat)
    requires Valid(g) && |g| == |ms| && y < |g| && Reaches(g, y, k)
    ensures Attached(g, y) && (Fits(ms, g, y) <==> Whole(ms, g, y, k))
  {
    ChainOfIs(ms, g, y, k);
    if g[y].Via? {
      ChainOfIs(ms, g, g[y].to, k - 1);
    }
  }

  /**
   With the ids the source gives, the record that the controller writes for a member is safe for
   everyone who keeps it exactly when the chain of the member's parent was not cut.
   */
  lemma RecordSafeIff(ms: seq<Member>, g: seq<Up>, y: nat, len: nat)
    requires Named(ms, len) && Valid(g) && |g| == |ms| && y < |g| && Acyclic(g) && Attached(g, y)
    ensures SafeRecord(ms, g, y, ChainOf(ms, g, y)) <==> Fits(ms, g, y)
  {
    hide Named, Acyclic, SafeRecord, Whole, Fits, Chain;
    var k: nat :| Reaches(g, y, k);
    ChainOfIs(ms, g, y, k);
    FitsIsWhole(ms, g, y, k);
    NamedIsGood(ms, len);
    if Whole(ms, g, y, k) {
      WholeIsSafe(ms, g, y, k);
    } else {
      CutIsUnsafe(ms, g, y, k, len);
    }
  }

  lemma NamedIsGood(ms: seq<Member>, len: nat)
    requires Named(ms, len)
    ensures GoodIds(IdsOf(ms)) && ShortIds(ms)
  {
  }

  /** A node that keeps a record of the controller's list moves safely under the record's owner. */
  lemma KeptRecordIsSafe(ms: seq<Member>, own: seq<string>, r: Record, l: Limits, x: nat, y: nat)
    requires GoodIds(IdsOf(ms)) && ShortIds(ms) && x < |ms| && y < |ms|
    requires var g := Graph(ms, own);
      Acyclic(g) && Attached(g, y) && Fits(ms, g, y) && r.chain == ChainOf(ms, g, y)
    requires l.id == ms[x].id && Usable(r, l)
    ensures Owner(r.chain) == ms[y].id && SafeMove(Graph(ms, own), x, y)
  {
    hide Acyclic, SafeMove, Whole, Fits, Chain, ChainHas, Owner, Graph;
    var g := Graph(ms, own);
    var k: nat :| Reaches(g, y, k);
    ChainOfIs(ms, g, y, k);
    FitsIsWhole(ms, g, y, k);
    WholeIsSafe(ms, g, y, k);
  }

  // ---------------------------------------------------------------- a line of thirteen

  const LETTERS: string := "abcdefghijklm"

  function Mac(i: nat): string
    requires i < 13
  {
    "02:00:00:00:00:0" + [LETTERS[i]]
  }

  /** Thirteen members, each attached to the access point of the one before, the first to the controller. */
  const LINE: seq<Member> :=
    seq(13, i requires 0 <= i < 13 =>
      Member("node0" + [LETTERS[i]], true, Some(if i == 0 then CONTROLLER else Mac(i - 1)), [Mac(i)]))

  lemma LetterIs(i: nat)
    requires i < 13
    ensures LETTERS[i] as int == 'a' as int + i
  {
  }

  lemma MacsDiffer(i: nat, j: nat)
    requires i < 13 && j < 13
    ensures SameMac(Mac(i), Mac(j)) <==> i == j
    ensures Mac(i) != CONTROLLER
  {
    LetterIs(i);
    LetterIs(j);
    assert Lower(Mac(i))[16] == LETTERS[i] && Lower(Mac(j))[16] == LETTERS[j];
    assert |Mac(i)| == 17 && |CONTROLLER| == 10;
  }

  lemma LineUplink(i: nat)
    requires i < 13
    ensures |LINE| == 13 && Uplink(LINE, [], i) == if i == 0 then Root(1) else Via(i - 1)
  {
    hide Mac, SameMac, LETTERS;
    if i > 0 {
      MacsDiffer(i - 1, i - 1);
      forall j | 0 <= j < 13
        ensures HasAp(LINE[j], Mac(i - 1)) <==> j == i - 1
      {
        MacsDiffer(j, i - 1);
        assert |LINE[j].aps| == 1 && LINE[j].aps[0] == Mac(j);
      }
      assert HasAp(LINE[i - 1], Mac(i - 1));
    }
  }

  lemma LineGraph()
    ensures var g := Graph(LINE, []);
            |LINE| == |g| == 13 && forall i :: 0 <= i < 13 ==> g[i] == if i == 0 then Root(1) else Via(i - 1)
  {
    forall i | 0 <= i < 13
      ensures Uplink(LINE, [], i) == if i == 0 then Root(1) else Via(i - 1)
    {
      LineUplink(i);
    }
  }

  lemma LineNamed()
    ensures Named(LINE, 6) && |LINE| == 13
  {
    hide Mac;
    var ids := IdsOf(LINE);
    forall i | 0 <= i < 13
      ensures Plain(ids[i]) && |ids[i]| == 6 && ids[i][5] as int == 'a' as int + i
    {
      LetterIs(i);
      assert ids[i] == "node0" + [LETTERS[i]];
    }
  }

  lemma {:induction false} LineChain(i: nat)
    requires i < 13
    ensures |LINE| == 13 && Reaches(Graph(LINE, []), i, i)
    ensures i <= 11 ==> |Chain(LINE, Graph(LINE, []), i, i)| == 7 * i + 6
  {
    hide Mac, Uplink;
    LineGraph();
    assert |LINE[i].id| == 6;
    hide LINE, Graph;
    if i > 0 {
      LineChain(i - 1);
    }
  }

  lemma {:induction false} LineAbove(i: nat, k: nat)
    requires i < 13
    ensures |LINE| == 13 && Above(Graph(LINE, []), i, k) == if k <= i then i - k else -1
    decreases k
  {
    LineGraph();
    hide LINE, Graph, Uplink;
    if k > 0 && i > 0 {
      LineAbove(i - 1, k - 1);
    }
  }

  /** The record of the thirteenth member does not name the twelfth, its own parent, which keeps it and,
      following it, closes a circle. */
  lemma ThirteenthLoops()
    ensures var g := Graph(LINE, []);
      && |LINE| == |g| == 13 && Acyclic(g) && Attached(g, 12)
      && !ChainHas(ChainOf(LINE, g, 12), LINE[11].id) && !Attached(g[11 := Via(12)], 11)
  {
    var g := Graph(LINE, []);
    LineGraph();
    LineNamed();
    LineChain(12);
    LineChain(11);
    hide LINE, Graph, Named, Chain, ChainHas, Attached, Uplink;
    ChainOfIs(LINE, g, 12, 12);
    forall i, k: nat | 0 <= i < 13 && k > 0
      ensures Above(g, i, k) != i
    {
      LineAbove(i, k);
    }
    CutIsUnsafe(LINE, g, 12, 12, 6);
  }
}
