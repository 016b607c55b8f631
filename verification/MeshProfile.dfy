/**
 The controller's view of the backhaul tree (package/roamd/src/mesh_profile.c): which node is
 under which, how deep each one is, and the chain of ids that leads to it. The reports it is
 built from may contradict each other, so the links may run in circles.
 */
module MeshProfile {
  import opened Wrappers
  import opened Uplinks
  import opened MeshChain

  const CONTROLLER: string := "controller"
  const ID_MAX: nat := 32
  const CHAIN_MAX: nat := 160

  const UNSET: int := -1
  const BUSY: int := -2
  const NONE: int := -3

  datatype Member = Member(id: string, wifi: bool, via: Option<string>, aps: seq<string>)

  function LowerChar(c: char): char {
    if 'A' <= c <= 'Z' then (c as int + 32) as char else c
  }

  function Lower(s: string): string {
    seq(|s|, i requires 0 <= i < |s| => LowerChar(s[i]))
  }

  /** Addresses are compared without regard to case. */
  predicate SameMac(a: string, b: string) {
    Lower(a) == Lower(b)
  }

  predicate HasAp(m: Member, bssid: string) {
    exists j :: 0 <= j < |m.aps| && SameMac(m.aps[j], bssid)
  }

  /** The first member that has an access point with this address. */
  function ByBssid(ms: seq<Member>, bssid: string): (r: Option<nat>)
    ensures r.Some? ==> r.value < |ms| && HasAp(ms[r.value], bssid)
    ensures r.None? ==> forall i :: 0 <= i < |ms| ==> !HasAp(ms[i], bssid)
  {
    if ms == [] then None
    else if HasAp(ms[0], bssid) then Some(0)
    else match ByBssid(ms[1..], bssid) case None => None case Some(i) => Some(i + 1)
  }

  predicate Own(own: seq<string>, bssid: string) {
    exists j :: 0 <= j < |own| && SameMac(own[j], bssid)
  }

  /** Where a member says it is attached. */
  function Uplink(ms: seq<Member>, own: seq<string>, i: nat): Up
    requires i < |ms|
  {
    var m := ms[i];
    if !m.wifi then Root(0)
    else if m.via.None? || m.via.value == CONTROLLER || Own(own, m.via.value) then Root(1)
    else match ByBssid(ms, m.via.value) case None => Lost case Some(j) => Via(j)
  }

  predicate SameLetter(a: char, b: char) {
    a == b || ('A' <= a <= 'Z' && b as int - a as int == 32) || ('A' <= b <= 'Z' && a as int - b as int == 32)
  }

  lemma SameMacIff(a: string, b: string)
    ensures SameMac(a, b) <==> |a| == |b| && forall i :: 0 <= i < |a| ==> SameLetter(a[i], b[i])
  {
    if |a| == |b| {
      forall i | 0 <= i < |a|
        ensures Lower(a)[i] == Lower(b)[i] <==> SameLetter(a[i], b[i])
      {
      }
      if forall i :: 0 <= i < |a| ==> SameLetter(a[i], b[i]) {
        assert Lower(a) == Lower(b);
      } else {
        var i :| 0 <= i < |a| && !SameLetter(a[i], b[i]);
        assert Lower(a)[i] != Lower(b)[i];
      }
    } else {
      assert |Lower(a)| != |Lower(b)|;
    }
  }

  /** It names no access point of a member: none at all, the controller, or one of the controller's. */
  predicate Direct(m: Member, own: seq<string>) {
    m.via.None? || m.via.value == "controller" || exists a :: a in own && SameMac(a, m.via.value)
  }

  predicate FirstWith(ms: seq<Member>, bssid: string, j: nat) {
    j < |ms| && HasAp(ms[j], bssid) && forall k :: 0 <= k < j ==> !HasAp(ms[k], bssid)
  }

  /** A wired member is at depth 0, one under the controller at 1, another under the first member with the
      access point it names. */
  lemma UplinkIff(ms: seq<Member>, own: seq<string>, i: nat)
    requires i < |ms|
    ensures var m, u := ms[i], Uplink(ms, own, i);
      && (u == Root(0) <==> !m.wifi)
      && (u == Root(1) <==> m.wifi && Direct(m, own))
      && (forall j: nat :: u == Via(j) <==> (m.wifi && !Direct(m, own) && FirstWith(ms, m.via.value, j)))
      && (u == Lost <==> m.wifi && !Direct(m, own) && forall j: nat :: !FirstWith(ms, m.via.value, j))
  {
    hide HasAp, SameMac;
    var m := ms[i];
    if m.via.Some? {
      ByBssidFirst(ms, m.via.value);
      assert Own(own, m.via.value) <==> exists a :: a in own && SameMac(a, m.via.value) by {
        assert forall j :: 0 <= j < |own| ==> own[j] in own;
      }
    }
  }

  lemma {:induction false} ByBssidFirst(ms: seq<Member>, bssid: string)
    ensures ByBssid(ms, bssid).Some? ==> FirstWith(ms, bssid, ByBssid(ms, bssid).value)
  {
    hide HasAp;
    if ms != [] {
      ByBssidFirst(ms[1..], bssid);
    }
  }

  function Graph(ms: seq<Member>, own: seq<string>): (g: seq<Up>)
    ensures |g| == |ms| && Valid(g)
  {
    seq(|ms|, i requires 0 <= i < |ms| => Uplink(ms, own, i))
  }

  function Take(s: string, n: nat): string {
    if |s| <= n then s else s[..n]
  }

  /** The chain the code writes for member i, k links below a root: only half a parent's chain fits. */
  function Chain(ms: seq<Member>, g: seq<Up>, i: nat, k: nat): string
    requires Valid(g) && |g| == |ms| && i < |g| && Reaches(g, i, k)
    decreases k
  {
    var id := Take(ms[i].id, ID_MAX);
    match g[i]
    case Root(_) => id
    case Via(j) => Take(Chain(ms, g, j, k - 1), CHAIN_MAX / 2) + [DASH] + id
  }

  function IdsOf(ms: seq<Member>): (ids: seq<string>)
    ensures |ids| == |ms|
  {
    seq(|ms|, i requires 0 <= i < |ms| => ms[i].id)
  }

  /** The ids on y's way from the root, the root's first. */
  function PathIds(ids: seq<string>, g: seq<Up>, y: nat, k: nat): (t: seq<string>)
    requires Valid(g) && |g| == |ids| && y < |g| && Reaches(g, y, k)
    ensures |t| == k + 1
  {
    PathInRange(g, y, k);
    var p := Path(g, y, k);
    seq(|p|, i requires 0 <= i < |p| => assert p[i] in p; ids[p[i]])
  }

  ghost predicate ShortIds(ms: seq<Member>) {
    forall n :: 0 <= n < |ms| ==> |ms[n].id| <= ID_MAX
  }

  /** The parent's chain fits the half that is left for it. */
  predicate Whole(ms: seq<Member>, g: seq<Up>, i: nat, k: nat)
    requires Valid(g) && |g| == |ms| && i < |g| && Reaches(g, i, k)
  {
    g[i].Via? ==> |Chain(ms, g, g[i].to, k - 1)| <= CHAIN_MAX / 2
  }

  lemma PathIdsPush(ms: seq<Member>, g: seq<Up>, i: nat, k: nat)
    requires Valid(g) && |g| == |ms| && i < |g| && Reaches(g, i, k)
    ensures PathIds(IdsOf(ms), g, i, k) ==
            if g[i].Via? then PathIds(IdsOf(ms), g, g[i].to, k - 1) + [ms[i].id] else [ms[i].id]
  {
    PathInRange(g, i, k);
  }

  /** Cutting only ever shortens. */
  lemma {:induction false} ChainNoLonger(ms: seq<Member>, g: seq<Up>, i: nat, k: nat)
    requires Valid(g) && |g| == |ms| && i < |g| && Reaches(g, i, k) && ShortIds(ms)
    ensures |Chain(ms, g, i, k)| <= |Join(PathIds(IdsOf(ms), g, i, k))|
    decreases k
  {
    hide PathIds;
    PathIdsPush(ms, g, i, k);
    if g[i].Via? {
      ChainNoLonger(ms, g, g[i].to, k - 1);
      JoinPush(PathIds(IdsOf(ms), g, g[i].to, k - 1), ms[i].id);
    }
  }

  /** A chain lists the ids from the root down exactly when its parent's chain was not cut. */
  lemma {:induction false} ChainIsPath(ms: seq<Member>, g: seq<Up>, i: nat, k: nat)
    requires Valid(g) && |g| == |ms| && i < |g| && Reaches(g, i, k) && ShortIds(ms)
    ensures Chain(ms, g, i, k) == Join(PathIds(IdsOf(ms), g, i, k)) <==> Whole(ms, g, i, k)
    decreases k
  {
    hide PathIds, Join;
    PathIdsPush(ms, g, i, k);
    if g[i].Via? {
      var j := g[i].to;
      var c, t := Chain(ms, g, j, k - 1), PathIds(IdsOf(ms), g, j, k - 1);
      JoinPush(t, ms[i].id);
      if |c| <= CHAIN_MAX / 2 {
        ChainIsPath(ms, g, j, k - 1);
        CutIsLong(ms, g, j, k - 1);
      } else {
        ChainNoLonger(ms, g, j, k - 1);
      }
    } else {
      JoinOne(ms[i].id);
    }
  }

  lemma JoinOne(id: string)
    ensures Join([id]) == id
  {
  }

  /** A chain whose parent's was cut is longer than half the room itself. */
  lemma CutIsLong(ms: seq<Member>, g: seq<Up>, i: nat, k: nat)
    requires Valid(g) && |g| == |ms| && i < |g| && Reaches(g, i, k)
    ensures !Whole(ms, g, i, k) ==> |Chain(ms, g, i, k)| > CHAIN_MAX / 2
  {
  }

  /** The depth of a member by definition: the length of its way to a root, or NONE without one. */
  ghost function DepthOf(g: seq<Up>, i: nat): int
    requires Valid(g) && i < |g|
  {
    if k: nat :| Reaches(g, i, k) then Depth(g, i, k) else NONE
  }

  ghost function ChainOf(ms: seq<Member>, g: seq<Up>, i: nat): string
    requires Valid(g) && |g| == |ms| && i < |g| && Attached(g, i)
  {
    var k: nat :| Reaches(g, i, k);
    Chain(ms, g, i, k)
  }

  class Profile {
    const ms: seq<Member>
    const own: seq<string>
    const depth: array<int>
    const chain: array<string>

    constructor (ms: seq<Member>, own: seq<string>)
      ensures this.ms == ms && this.own == own && Shape() && fresh(depth) && fresh(chain)
      ensures forall j :: 0 <= j < |ms| ==> depth[j] == UNSET
    {
      this.ms, this.own := ms, own;
      depth := new int[|ms|](_ => UNSET);
      chain := new string[|ms|](_ => "");
    }

    ghost predicate Shape() {
      depth.Length == chain.Length == |ms|
    }

    ghost function G(): (g: seq<Up>)
      ensures |g| == |ms| && Valid(g)
    {
      Graph(ms, own)
    }

    /** What is remembered for member j is right: its depth and chain, or that no root is above it. */
    ghost predicate Right(j: nat)
      requires Shape() && j < |ms|
      reads depth, chain
    {
      && depth[j] >= NONE
      && (depth[j] >= 0 ==>
            exists k: nat :: Reaches(G(), j, k) && depth[j] == Depth(G(), j, k) && chain[j] == Chain(ms, G(), j, k))
      && (depth[j] == NONE ==> !Attached(G(), j))
    }

    /** Each member of the stack is directly under the next one, the last one under i. */
    ghost predicate Linked(stack: seq<nat>, i: nat) {
      forall t :: 0 <= t < |stack| ==> LinkAt(stack, i, t)
    }

    ghost predicate LinkAt(stack: seq<nat>, i: nat, t: nat)
      requires t < |stack|
    {
      stack[t] < |ms| && G()[stack[t]] == Via(if t + 1 < |stack| then stack[t + 1] else i)
    }

    /** The members being worked on form a chain of links that leads to i. */
    ghost predicate Stack(stack: seq<nat>, i: nat)
      requires Shape() && i < |ms|
      reads depth
    {
      && Linked(stack, i)
      && forall j :: 0 <= j < |ms| ==> (depth[j] == BUSY <==> j in stack)
    }

    ghost function Unset(): set<nat>
      requires Shape()
      reads depth
    {
      set j: nat | j < |ms| && depth[j] == UNSET
    }

    method MemberByBssid(bssid: string) returns (r: int)
      ensures r == match ByBssid(ms, bssid) case None => -1 case Some(j) => j
    {
      var i := 0;
      while i < |ms|
        invariant i <= |ms|
        invariant ByBssid(ms, bssid) == match ByBssid(ms[i..], bssid) case None => None case Some(j) => Some(i + j)
      {
        if HasAp(ms[i], bssid) {
          return i;
        }
        i := i + 1;
      }
      return -1;
    }

    /**
     The depth of member i, from what is remembered or by working it out. BUSY marks keep the
     recursion from running in circles; memo and marks are as before for everyone else.
     */
    method MemberDepth(i: nat, ghost stack: seq<nat>) returns (d: int)
      requires Shape() && i < |ms| && Stack(stack, i)
      requires forall j :: 0 <= j < |ms| ==> depth[j] in {UNSET, BUSY} || Right(j)
      modifies depth, chain
      decreases Unset()
      ensures d == depth[i] && (i !in stack ==> Right(i) && d != UNSET && d != BUSY)
      ensures forall j :: 0 <= j < |ms| ==> depth[j] in {UNSET, BUSY} || Right(j)
      ensures forall j :: 0 <= j < |ms| && old(depth[j]) != UNSET ==>
                depth[j] == old(depth[j]) && chain[j] == old(chain[j])
      ensures forall j :: 0 <= j < |ms| && old(depth[j]) == UNSET ==> depth[j] != BUSY
    {
      if depth[i] != UNSET {
        return depth[i];
      }
      ghost var unset := Unset();
      assert i in unset && i !in stack;
      depth[i] := BUSY;
      assert Unset() == unset - {i};
      var m := ms[i];
      if !m.wifi {
        depth[i] := 0;
        chain[i] := Take(m.id, ID_MAX);
        assert Reaches(G(), i, 0);
        return 0;
      }
      if m.via.None? || m.via.value == CONTROLLER || Own(own, m.via.value) {
        depth[i] := 1;
        chain[i] := Take(m.id, ID_MAX);
        assert Reaches(G(), i, 0);
        return 1;
      }
      var parent := MemberByBssid(m.via.value);
      if parent >= 0 && parent != i && depth[parent] != BUSY {
        assert G()[i] == Via(parent);
        StackGrows(stack, i, parent);
        var above := MemberDepth(parent, stack + [i]);
        if above >= 0 {
          depth[i] := depth[parent] + 1;
          chain[i] := Take(chain[parent], CHAIN_MAX / 2) + [DASH] + Take(m.id, ID_MAX);
          Below(i, parent);
          return depth[i];
        }
        assert above == NONE;
        NotBelow(i, parent);
      } else if parent >= 0 {
        assert G()[i] == Via(parent);
        Circle(stack, i, parent);
      } else {
        assert G()[i] == Lost;
      }
      depth[i] := NONE;
      return NONE;
    }

    lemma StackGrows(stack: seq<nat>, i: nat, parent: nat)
      requires i < |ms| && parent < |ms| && G()[i] == Via(parent) && Linked(stack, i)
      ensures Linked(stack + [i], parent)
    {
      forall t | 0 <= t < |stack + [i]|
        ensures LinkAt(stack + [i], parent, t)
      {
        assert t == |stack| || LinkAt(stack, i, t);
      }
    }

    lemma Below(i: nat, parent: nat)
      requires Shape() && i < |ms| && parent < |ms| && G()[i] == Via(parent)
      requires Right(parent) && depth[parent] >= 0 && depth[i] == depth[parent] + 1
      requires chain[i] == Take(chain[parent], CHAIN_MAX / 2) + [DASH] + Take(ms[i].id, ID_MAX)
      ensures Right(i)
    {
      var k: nat :| Reaches(G(), parent, k) && depth[parent] == Depth(G(), parent, k)
        && chain[parent] == Chain(ms, G(), parent, k);
      assert Reaches(G(), i, k + 1);
      assert depth[i] == Depth(G(), i, k + 1);
      assert chain[i] == Chain(ms, G(), i, k + 1);
    }

    lemma NotBelow(i: nat, parent: nat)
      requires i < |ms| && parent < |ms| && G()[i] == Via(parent) && !Attached(G(), parent)
      ensures !Attached(G(), i)
    {
      forall k: nat
        ensures !Reaches(G(), i, k)
      {
        assert k == 0 || !Reaches(G(), parent, k - 1);
      }
    }

    /** A link back into the members being worked on closes a circle, from which no root is reached. */
    lemma Circle(stack: seq<nat>, i: nat, parent: nat)
      requires Shape() && i < |ms| && parent < |ms| && G()[i] == Via(parent)
      requires Linked(stack, i)
      requires parent == i || parent in stack
      ensures !Attached(G(), i)
    {
      var s := (set j | j in stack) + {i};
      hide Graph;
      forall j | j in s
        ensures j < |ms| && G()[j].Via? && G()[j].to in s
      {
        if j != i {
          var t :| 0 <= t < |stack| && stack[t] == j;
          assert LinkAt(stack, i, t);
        }
      }
      forall k: nat
        ensures !Reaches(G(), i, k)
      {
        ClosedNever(G(), s, i, k);
      }
    }

    /** Works out every member. The result is the one by definition, whatever order members come in. */
    method Depths()
      requires Shape() && forall j :: 0 <= j < |ms| ==> depth[j] == UNSET
      modifies depth, chain
      ensures forall j :: 0 <= j < |ms| ==> depth[j] == DepthOf(G(), j)
      ensures forall j :: 0 <= j < |ms| ==> (depth[j] >= 0 <==> Attached(G(), j))
      ensures forall j :: 0 <= j < |ms| && depth[j] >= 0 ==> chain[j] == ChainOf(ms, G(), j)
    {
      for i := 0 to |ms|
        invariant forall j :: 0 <= j < |ms| ==> depth[j] == UNSET || (Right(j) && depth[j] != BUSY)
        invariant forall j :: 0 <= j < i ==> depth[j] != UNSET
      {
        var d := MemberDepth(i, []);
      }
      forall j | 0 <= j < |ms|
        ensures depth[j] == DepthOf(G(), j) && (depth[j] >= 0 <==> Attached(G(), j))
        ensures depth[j] >= 0 ==> chain[j] == ChainOf(ms, G(), j)
      {
        RightIs(j);
      }
    }

    lemma RightIs(j: nat)
      requires Shape() && j < |ms| && Right(j) && depth[j] != UNSET && depth[j] != BUSY
      ensures depth[j] == DepthOf(G(), j) && (depth[j] >= 0 <==> Attached(G(), j))
      ensures depth[j] >= 0 ==> chain[j] == ChainOf(ms, G(), j)
    {
      if depth[j] >= 0 {
        var k: nat :| Reaches(G(), j, k) && depth[j] == Depth(G(), j, k) && chain[j] == Chain(ms, G(), j, k);
        forall m: nat | Reaches(G(), j, m)
          ensures m == k
        {
          ReachesOnce(G(), j, k, m);
        }
      }
    }
  }
}
