/**
 Choosing a backhaul parent (package/roamd/src/mesh_node.c): which of the controller's records a
 node may use, why following one never closes a loop, and which one is best.
 */
module MeshNode {
  import opened Uplinks
  import opened MeshChain
  import opened MeshProfile

  const PARENT_MAX: nat := 24
  const STRONG: int := -65

  /** A record of the parent list: the address of an access point and the chain of its owner. */
  datatype Record = Record(bssid: string, depth: int, chain: string, band5: bool)

  datatype Parent = Parent(bssid: string, depth: int, chain: string, band5: bool, signal: int, samples: nat)

  /** The owner of a record: the last id of its chain, or the controller. */
  function Owner(chain: string): string {
    if DASH in chain then chain[LastDash(chain) + 1..]
    else if chain != "" then chain
    else CONTROLLER
  }

  function LastDash(s: string): (r: nat)
    requires DASH in s
    ensures r < |s| && s[r] == DASH && forall j :: r < j < |s| ==> s[j] != DASH
  {
    if s[|s| - 1] == DASH then |s| - 1 else LastDash(s[..|s| - 1])
  }

  lemma {:induction false} OwnerOfJoin(t: seq<string>)
    requires t != [] && forall i :: 0 <= i < |t| ==> Plain(t[i])
    ensures Owner(Join(t)) == t[|t| - 1]
  {
    var n := |t| - 1;
    if n > 0 {
      assert t == t[..n] + [t[n]];
      JoinPush(t[..n], t[n]);
      var s, b := Join(t), |Join(t[..n])|;
      assert s[b] == DASH && s[b + 1..] == t[n];
      assert forall j :: b < j < |s| ==> s[j] == t[n][j - b - 1];
      assert LastDash(s) == b;
    }
  }

  // ---------------------------------------------------------------- no loops

  /** Ids are distinct and can be told apart in a chain. */
  ghost predicate GoodIds(ids: seq<string>) {
    && (forall i :: 0 <= i < |ids| ==> Plain(ids[i]))
    && forall i, j :: 0 <= i < j < |ids| ==> ids[i] != ids[j]
  }

  /** A chain names its owner last, and exactly the nodes on the owner's way. */
  lemma ChainNames(ids: seq<string>, g: seq<Up>, x: nat, y: nat, k: nat)
    requires GoodIds(ids) && Valid(g) && |g| == |ids| && x < |g| && y < |g| && Reaches(g, y, k)
    ensures var chain := Join(PathIds(ids, g, y, k));
      Owner(chain) == ids[y] && (ids[x] in Tokens(chain) <==> x in Path(g, y, k))
  {
    var t, p := PathIds(ids, g, y, k), Path(g, y, k);
    PathInRange(g, y, k);
    forall i | 0 <= i < |t|
      ensures p[i] < |ids| && Plain(t[i]) && t[i] == ids[p[i]]
    {
      assert p[i] in p;
    }
    TokensOfJoin(t);
    OwnerOfJoin(t);
    if x in p {
      var i :| 0 <= i < |p| && p[i] == x;
      assert t[i] == ids[x];
    }
    if ids[x] in t {
      var i :| 0 <= i < |t| && t[i] == ids[x];
      assert p[i] == x;
    }
  }

  lemma {:induction false} PathMeets(g: seq<Up>, x: nat, y: nat, k: nat) returns (m: nat)
    requires Valid(g) && x < |g| && y < |g| && Reaches(g, y, k) && x in Path(g, y, k)
    ensures Above(g[x := Via(y)], y, m) == x
    decreases k
  {
    m := PathMeetsVia(g, g[x := Via(y)], x, y, k);
  }

  lemma {:induction false} PathMeetsVia(g: seq<Up>, h: seq<Up>, x: nat, y: nat, k: nat) returns (m: nat)
    requires Valid(g) && Valid(h) && |g| == |h| && x < |g| && y < |g|
    requires forall i :: 0 <= i < |g| && i != x ==> h[i] == g[i]
    requires Reaches(g, y, k) && x in Path(g, y, k)
    ensures Above(h, y, m) == x
    decreases k
  {
    if y == x {
      m := 0;
    } else {
      var n := PathMeetsVia(g, h, x, g[y].to, k - 1);
      m := n + 1;
    }
  }

  /** The check is exact: a node that is on the owner's own way to the root would hang itself in a circle. */
  lemma MoveIff(g: seq<Up>, x: nat, y: nat, k: nat)
    requires Valid(g) && x < |g| && y < |g| && Reaches(g, y, k)
    ensures Attached(g[x := Via(y)], x) <==> x !in Path(g, y, k)
  {
    var h := g[x := Via(y)];
    if x in Path(g, y, k) {
      var m := PathMeets(g, x, y, k);
      assert Above(h, x, m + 1) == Above(h, y, m);
      CycleNotAttached(h, x, m + 1);
    } else {
      MoveAside(g, x, Via(y), y, k);
      assert Reaches(h, x, k + 1);
    }
  }

  /**
   Following a record whose chain does not name the node itself is safe: without circles before,
   there are none after the node has moved under the record's owner, and no node loses its way to
   the root. And it is the only safe way: under any other owner the node would have none.
   */
  lemma MoveIsSafe(ids: seq<string>, g: seq<Up>, x: nat, y: nat, k: nat, chain: string)
    requires GoodIds(ids) && Valid(g) && |g| == |ids| && x < |g| && y < |g|
    requires Acyclic(g) && Reaches(g, y, k) && chain == Join(PathIds(ids, g, y, k))
    ensures Owner(chain) == ids[y]
    ensures var h := g[x := Via(y)];
      && (ids[x] !in Tokens(chain) <==> Attached(h, x))
      && (ids[x] !in Tokens(chain) ==>
            Acyclic(h) && forall i :: 0 <= i < |g| && Attached(g, i) ==> Attached(h, i))
  {
    hide Join, Tokens, PathIds, Owner;
    ChainNames(ids, g, x, y, k);
    MoveIff(g, x, y, k);
    if x !in Path(g, y, k) {
      MoveAcyclic(g, x, Via(y));
      NoneLost(g, x, Via(y));
    }
  }

  lemma NoneLost(g: seq<Up>, x: nat, u: Up)
    requires Valid(g) && x < |g| && (u.Via? ==> u.to < |g|) && Attached(g[x := u], x)
    ensures forall i :: 0 <= i < |g| && Attached(g, i) ==> Attached(g[x := u], i)
  {
    forall i | 0 <= i < |g| && Attached(g, i)
      ensures Attached(g[x := u], i)
    {
      var m: nat :| Reaches(g, i, m);
      MoveAlong(g, x, u, i, m);
    }
  }

  /**
   The chains must be current. Two nodes under the controller that move at the same time, each
   on a list from before the other's move, end up under each other.
   */
  lemma StaleListsLoop()
    ensures var g := [Root(1), Root(1)];
      && Acyclic(g) && Reaches(g, 0, 0) && Reaches(g, 1, 0)
      && 0 !in Path(g, 1, 0) && 1 !in Path(g, 0, 0)
      && !Attached(g[0 := Via(1)][1 := Via(0)], 0)
  {
    var g := [Root(1), Root(1)];
    var h := g[0 := Via(1)][1 := Via(0)];
    assert Above(h, 0, 2) == 0;
    CycleNotAttached(h, 0, 2);
    forall i, k: nat | 0 <= i < |g| && k > 0
      ensures Above(g, i, k) != i
    {
    }
  }

  /** The controller's own access points have an empty chain; a node may always move there. */
  lemma MoveToControllerIsSafe(g: seq<Up>, x: nat)
    requires Valid(g) && x < |g| && Acyclic(g)
    ensures Owner("") == CONTROLLER && |Tokens("")| == 1
    ensures var h := g[x := Root(1)];
      Acyclic(h) && Attached(h, x) && forall i :: 0 <= i < |g| && Attached(g, i) ==> Attached(h, i)
  {
    var h := g[x := Root(1)];
    assert Reaches(h, x, 0);
    MoveAcyclic(g, x, Root(1));
    NoneLost(g, x, Root(1));
  }

  // ---------------------------------------------------------------- which records a node keeps

  /** What decides whether a node may use a record: its id, its radios and the owners it is limited to. */
  datatype Limits = Limits(id: string, radio24: bool, radio5: bool, nodes: string)

  predicate OwnerAllowed(owner: string, nodes: string) {
    nodes == "" || (owner != "" && owner in Tokens(nodes))
  }

  predicate Usable(r: Record, l: Limits) {
    && (if r.band5 then l.radio5 else l.radio24)
    && !ChainHas(r.chain, l.id)
    && OwnerAllowed(Owner(r.chain), l.nodes)
  }

  function Kept(rs: seq<Record>, l: Limits): seq<Record> {
    if rs == [] then []
    else Kept(rs[..|rs| - 1], l) + if Usable(rs[|rs| - 1], l) then [rs[|rs| - 1]] else []
  }

  function Unheard(r: Record): Parent {
    Parent(r.bssid, r.depth, r.chain, r.band5, 0, 0)
  }

  /** A radio for the band, a way that does not lead through the node, and one of the owners it is limited to. */
  ghost predicate Fit(r: Record, l: Limits) {
    && ((r.band5 && l.radio5) || (!r.band5 && l.radio24)) && !ChainHas(r.chain, l.id)
    && (l.nodes == "" || exists k :: 0 <= k < |Tokens(l.nodes)| && Tokens(l.nodes)[k] == Owner(r.chain) != "")
  }

  /** kept lists the records at the places from, in order, and these are the ones that fit. */
  ghost predicate Keeps(rs: seq<Record>, l: Limits, kept: seq<Record>, from: seq<nat>) {
    && |from| == |kept| && (forall j :: 0 <= j < |from| ==> from[j] < |rs| && kept[j] == rs[from[j]])
    && (forall i, j :: 0 <= i < j < |from| ==> from[i] < from[j])
    && forall i: nat :: i in from <==> i < |rs| && Fit(rs[i], l)
  }

  lemma UsableIff(r: Record, l: Limits)
    ensures Usable(r, l) <==> Fit(r, l)
  {
    hide Owner, Tokens, ChainHas;
  }

  lemma KeepsStep(rs: seq<Record>, l: Limits, kept: seq<Record>, from: seq<nat>, n: nat)
    requires n + 1 == |rs| && Keeps(rs[..n], l, kept, from)
    ensures if Fit(rs[n], l) then Keeps(rs, l, kept + [rs[n]], from + [n]) else Keeps(rs, l, kept, from)
  {
    hide Fit;
    assert forall i :: 0 <= i < n ==> rs[..n][i] == rs[i];
    var f := from + [n];
    assert forall i :: i in f <==> i in from || i == n;
  }

  /** Exactly these are kept, in their order. */
  lemma {:induction false} KeptAre(rs: seq<Record>, l: Limits) returns (from: seq<nat>)
    ensures Keeps(rs, l, Kept(rs, l), from)
  {
    hide Usable, Fit, Keeps;
    from := [];
    if rs == [] {
      KeepsNone(l);
    } else {
      var n := |rs| - 1;
      from := KeptAre(rs[..n], l);
      UsableIff(rs[n], l);
      KeepsStep(rs, l, Kept(rs[..n], l), from, n);
      assert Kept(rs[..n], l) + [] == Kept(rs[..n], l);
      if Fit(rs[n], l) {
        from := from + [n];
      }
    }
  }

  lemma KeepsNone(l: Limits)
    ensures Keeps([], l, [], [])
  {
  }

  method ParentsFill(rs: seq<Record>, l: Limits) returns (ps: seq<Parent>)
    ensures |ps| == if |Kept(rs, l)| <= PARENT_MAX then |Kept(rs, l)| else PARENT_MAX
    ensures forall i :: 0 <= i < |ps| ==> ps[i] == Unheard(Kept(rs, l)[i]) && ps[i].samples == 0
  {
    hide Owner, Tokens, LastDash, ChainHas;
    ps := [];
    var i := 0;
    while i < |rs| && |ps| < PARENT_MAX
      invariant i <= |rs| && |ps| <= PARENT_MAX && |ps| == |Kept(rs[..i], l)|
      invariant forall j :: 0 <= j < |ps| ==> ps[j] == Unheard(Kept(rs[..i], l)[j])
    {
      assert rs[..i + 1][..i] == rs[..i];
      var r := rs[i];
      i := i + 1;
      var has := MeshChainHas(r.chain, l.id);
      if (if r.band5 then l.radio5 else l.radio24) && !has && OwnerAllowed(Owner(r.chain), l.nodes) {
        ps := ps + [Unheard(r)];
      }
    }
    KeptPrefix(rs, i, l);
    assert i == |rs| ==> rs[..i] == rs;
  }

  lemma {:induction false} KeptPrefix(rs: seq<Record>, i: nat, l: Limits)
    requires i <= |rs|
    ensures Kept(rs[..i], l) <= Kept(rs, l)
    decreases |rs|
  {
    if i < |rs| {
      var t := rs[..|rs| - 1];
      KeptPrefix(t, i, l);
      assert t[..i] == rs[..i];
    } else {
      assert rs[..i] == rs;
    }
  }
}
