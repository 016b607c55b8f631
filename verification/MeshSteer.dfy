/**
 The steering pass of package/roamd/src/mesh_poll.c: all observations of all nodes are sorted by
 client address and handled group by group. The result is the one of a plain scan per client.
 */
module MeshSteer {
  import opened Wrappers

  /** A client or a station heard; addresses are numbers, ordered as their bytes are. */
  datatype Sta = Sta(addr: nat, mac: string, ssid: string, signal: int, band: nat, client: bool)

  datatype Ap = Ap(ssid: string, band: nat)

  datatype Node = Node(id: string, online: bool, aps: seq<Ap>, sta: seq<Sta>)

  /** An observation: station sta of node node. */
  datatype Ref = Ref(node: nat, sta: nat)

  /** What the pass asks of the configuration. */
  datatype Env = Env(roaming: string -> bool, admitted: (nat, string, nat) -> bool, rssiDiff: int)

  /** The request to a client's home node to move it. */
  datatype Move = Move(home: string, mac: string, target: string)

  predicate IsRef(nodes: seq<Node>, r: Ref) {
    r.node < |nodes| && r.sta < |nodes[r.node].sta|
  }

  function At(nodes: seq<Node>, r: Ref): Sta
    requires IsRef(nodes, r)
  {
    nodes[r.node].sta[r.sta]
  }

  predicate Refs(nodes: seq<Node>, s: seq<Ref>) {
    forall i :: 0 <= i < |s| ==> IsRef(nodes, s[i])
  }

  /** ref_cmp(a, b) < 0. */
  predicate Before(nodes: seq<Node>, a: Ref, b: Ref)
    requires IsRef(nodes, a) && IsRef(nodes, b)
  {
    var x, y := At(nodes, a).addr, At(nodes, b).addr;
    x < y || (x == y && (a.node < b.node || (a.node == b.node && a.sta < b.sta)))
  }

  ghost predicate Sorted(nodes: seq<Node>, s: seq<Ref>)
    requires Refs(nodes, s)
  {
    forall i, j :: 0 <= i < j < |s| ==> Before(nodes, s[i], s[j])
  }

  /** Every observation, node by node. */
  function AllRefs(nodes: seq<Node>): (s: seq<Ref>)
    ensures Refs(nodes, s)
  {
    UpTo(nodes, |nodes|)
  }

  function UpTo(nodes: seq<Node>, n: nat): (s: seq<Ref>)
    requires n <= |nodes|
    ensures forall i :: 0 <= i < |s| ==> IsRef(nodes, s[i]) && s[i].node < n
  {
    if n == 0 then [] else
    var below := UpTo(nodes, n - 1);
    below + Row(nodes, n - 1)
  }

  function Row(nodes: seq<Node>, n: nat): (s: seq<Ref>)
    requires n < |nodes|
    ensures |s| == |nodes[n].sta| && forall j :: 0 <= j < |s| ==> s[j] == Ref(n, j)
  {
    seq(|nodes[n].sta|, j requires 0 <= j => Ref(n, j))
  }

  predicate Natural(a: Ref, b: Ref) {
    a.node < b.node || (a.node == b.node && a.sta < b.sta)
  }

  lemma {:induction false} UpToNatural(nodes: seq<Node>, n: nat)
    requires n <= |nodes|
    ensures forall i, j :: 0 <= i < j < |UpTo(nodes, n)| ==> Natural(UpTo(nodes, n)[i], UpTo(nodes, n)[j])
    ensures forall r :: r in UpTo(nodes, n) <==> IsRef(nodes, r) && r.node < n
  {
    if n > 0 {
      UpToNatural(nodes, n - 1);
      var below, row := UpTo(nodes, n - 1), Row(nodes, n - 1);
      forall r
        ensures r in below + row <==> IsRef(nodes, r) && r.node < n
      {
        if IsRef(nodes, r) && r.node == n - 1 {
          assert row[r.sta] == r;
        }
      }
    }
  }

  /** The observations of one address, in the order of s. */
  function Of(nodes: seq<Node>, s: seq<Ref>, addr: nat): (t: seq<Ref>)
    requires Refs(nodes, s)
    ensures Refs(nodes, t)
    ensures forall r :: r in t <==> r in s && IsRef(nodes, r) && At(nodes, r).addr == addr
  {
    if s == [] then []
    else Of(nodes, s[..|s| - 1], addr) + if At(nodes, s[|s| - 1]).addr == addr then [s[|s| - 1]] else []
  }

  // ---------------------------------------------------------------- one client

  predicate HasNet(n: Node, ssid: string, band: nat) {
    exists i :: 0 <= i < |n.aps| && n.aps[i].ssid == ssid && n.aps[i].band == band
  }

  /** An observation that counts as a place for client c. */
  predicate Eligible(e: Env, nodes: seq<Node>, c: Sta, r: Ref)
    requires IsRef(nodes, r)
  {
    var n := nodes[r.node];
    At(nodes, r).band == c.band && n.online && HasNet(n, c.ssid, c.band) && e.admitted(c.addr, n.id, c.band)
  }

  /** Heard there on its own band, by a node that is up, has its network on that band and admits it. */
  lemma EligibleIff(e: Env, nodes: seq<Node>, c: Sta, r: Ref)
    requires IsRef(nodes, r)
    ensures Eligible(e, nodes, c, r) <==>
      && nodes[r.node].sta[r.sta].band == c.band && nodes[r.node].online
      && Ap(c.ssid, c.band) in nodes[r.node].aps && e.admitted(c.addr, nodes[r.node].id, c.band)
  {
    var aps := nodes[r.node].aps;
    if HasNet(nodes[r.node], c.ssid, c.band) {
      var i :| 0 <= i < |aps| && aps[i].ssid == c.ssid && aps[i].band == c.band;
      assert aps[i] == Ap(c.ssid, c.band);
    }
  }

  /** The best place so far, and the signal at home (0 when it was not heard there). */
  datatype Scan = Scan(best: Option<Ref>, home: int)

  function Scanned(e: Env, nodes: seq<Node>, r: Ref, g: seq<Ref>): (s: Scan)
    requires IsRef(nodes, r) && Refs(nodes, g)
    ensures s.best.Some? ==> IsRef(nodes, s.best.value)
  {
    if g == [] then Scan(None, 0) else
    var s := Scanned(e, nodes, r, g[..|g| - 1]);
    var k := g[|g| - 1];
    if !Eligible(e, nodes, At(nodes, r), k) then s
    else Scan(
      if s.best.None? || At(nodes, k).signal > At(nodes, s.best.value).signal then Some(k) else s.best,
      if k.node == r.node then At(nodes, k).signal else s.home)
  }

  /** The move client r should make, given the observations g of its address. */
  function MoveOf(e: Env, nodes: seq<Node>, r: Ref, g: seq<Ref>): Option<Move>
    requires IsRef(nodes, r) && Refs(nodes, g)
  {
    var c, home := At(nodes, r), nodes[r.node];
    if !(c.client && c.ssid != "" && c.band != 0) || !e.roaming(c.ssid) then None else
    var s := Scanned(e, nodes, r, g);
    if s.best.None? || s.best.value.node == r.node then None
    else if e.admitted(c.addr, home.id, c.band) && At(nodes, s.best.value).signal - s.home < e.rssiDiff then None
    else Some(Move(home.id, c.mac, nodes[s.best.value.node].id))
  }

  /** The plain rule: scan every observation of the client's address, node by node. */
  function Naive(e: Env, nodes: seq<Node>, r: Ref): Option<Move>
    requires IsRef(nodes, r)
  {
    MoveOf(e, nodes, r, Of(nodes, AllRefs(nodes), At(nodes, r).addr))
  }

  /** g[k] is the first of the strongest eligible observations. */
  predicate FirstBest(e: Env, nodes: seq<Node>, c: Sta, g: seq<Ref>, k: nat)
    requires Refs(nodes, g) && k < |g|
  {
    && Eligible(e, nodes, c, g[k])
    && (forall i :: 0 <= i < |g| && Eligible(e, nodes, c, g[i]) ==> At(nodes, g[i]).signal <= At(nodes, g[k]).signal)
    && (forall i :: 0 <= i < k && Eligible(e, nodes, c, g[i]) ==> At(nodes, g[i]).signal < At(nodes, g[k]).signal)
  }

  lemma {:induction false} ScannedBest(e: Env, nodes: seq<Node>, r: Ref, g: seq<Ref>) returns (k: nat)
    requires IsRef(nodes, r) && Refs(nodes, g)
    ensures Scanned(e, nodes, r, g).best.None? <==>
            forall i :: 0 <= i < |g| ==> !Eligible(e, nodes, At(nodes, r), g[i])
    ensures Scanned(e, nodes, r, g).best.Some? ==>
            k < |g| && g[k] == Scanned(e, nodes, r, g).best.value && FirstBest(e, nodes, At(nodes, r), g, k)
  {
    hide Eligible;
    k := 0;
    if g != [] {
      var n := |g| - 1;
      var t := g[..n];
      var h := ScannedBest(e, nodes, r, t);
      assert forall i :: 0 <= i < n ==> t[i] == g[i];
      var p := Scanned(e, nodes, r, t).best;
      var beaten := Eligible(e, nodes, At(nodes, r), g[n]) && p.Some?
        && At(nodes, g[n]).signal > At(nodes, p.value).signal;
      k := if p.Some? && !beaten then h else n;
    }
  }

  // ---------------------------------------------------------------- sorting and grouping

  /** The order is strict, so a list of observations can be sorted in one way only. */
  lemma {:induction false} SortedSame(nodes: seq<Node>, s: seq<Ref>, t: seq<Ref>)
    requires Refs(nodes, s) && Refs(nodes, t) && Sorted(nodes, s) && Sorted(nodes, t)
    requires forall r :: r in s <==> r in t
    ensures s == t
    decreases |s|
  {
    if s == [] {
      assert forall i :: 0 <= i < |t| ==> t[i] !in s;
    } else {
      assert s[0] in t && t != [];
      HeadLeast(nodes, s, t);
      assert forall r :: r in s[1..] <==> r in t[1..] by {
        TailHas(nodes, s);
        TailHas(nodes, t);
      }
      SortedSame(nodes, s[1..], t[1..]);
      assert s == [s[0]] + s[1..] && t == [t[0]] + t[1..];
    }
  }

  lemma HeadLeast(nodes: seq<Node>, s: seq<Ref>, t: seq<Ref>)
    requires Refs(nodes, s) && Refs(nodes, t) && Sorted(nodes, s) && Sorted(nodes, t)
    requires s != [] && t != [] && s[0] in t && t[0] in s
    ensures s[0] == t[0]
  {
    TailHas(nodes, s);
    TailHas(nodes, t);
  }

  lemma TailHas(nodes: seq<Node>, s: seq<Ref>)
    requires Refs(nodes, s) && Sorted(nodes, s) && s != []
    ensures forall r :: r in s[1..] <==> r in s && r != s[0]
    ensures forall r :: r in s ==> r == s[0] || Before(nodes, s[0], r)
  {
    assert forall i :: 1 <= i < |s| ==> Before(nodes, s[0], s[i]);
    assert forall i :: 1 <= i < |s| ==> s[1..][i - 1] == s[i];
  }

  /** Taking the observations of one address keeps the natural order. */
  lemma {:induction false} OfSorted(nodes: seq<Node>, s: seq<Ref>, addr: nat)
    requires Refs(nodes, s) && forall i, j :: 0 <= i < j < |s| ==> Natural(s[i], s[j])
    ensures Sorted(nodes, Of(nodes, s, addr))
  {
    if s != [] {
      var n := |s| - 1;
      OfSorted(nodes, s[..n], addr);
      forall r | r in Of(nodes, s[..n], addr)
        ensures Natural(r, s[n])
      {
        var i :| 0 <= i < n && s[..n][i] == r;
      }
    }
  }

  /** refs is what refs_build leaves behind: all observations, sorted. */
  ghost predicate Built(nodes: seq<Node>, refs: seq<Ref>) {
    Refs(nodes, refs) && Sorted(nodes, refs) && forall r :: r in refs <==> IsRef(nodes, r)
  }

  /** A whole group of one address: nothing with that address before or after. */
  ghost predicate Group(nodes: seq<Node>, refs: seq<Ref>, from: nat, to: nat)
    requires Refs(nodes, refs)
  {
    && from < to <= |refs|
    && (forall i :: from <= i < to ==> At(nodes, refs[i]).addr == At(nodes, refs[from]).addr)
    && (from > 0 ==> At(nodes, refs[from - 1]).addr != At(nodes, refs[from]).addr)
    && (to < |refs| ==> At(nodes, refs[to]).addr != At(nodes, refs[from]).addr)
  }

  /** A group holds exactly the observations of its address, in the natural order. */
  lemma GroupIs(nodes: seq<Node>, refs: seq<Ref>, from: nat, to: nat)
    requires Built(nodes, refs) && Group(nodes, refs, from, to)
    ensures refs[from..to] == Of(nodes, AllRefs(nodes), At(nodes, refs[from]).addr)
  {
    hide Of, AllRefs;
    var a, g := At(nodes, refs[from]).addr, refs[from..to];
    assert forall i :: 0 <= i < |g| ==> g[i] == refs[from + i];
    forall r
      ensures r in g <==> IsRef(nodes, r) && At(nodes, r).addr == a
    {
      if IsRef(nodes, r) && At(nodes, r).addr == a {
        var k :| 0 <= k < |refs| && refs[k] == r;
        InGroup(nodes, refs, from, to, k);
        assert g[k - from] == r;
      }
    }
    ObservedIs(nodes, a, g);
  }

  lemma InGroup(nodes: seq<Node>, refs: seq<Ref>, from: nat, to: nat, k: nat)
    requires Built(nodes, refs) && Group(nodes, refs, from, to)
    requires k < |refs| && At(nodes, refs[k]).addr == At(nodes, refs[from]).addr
    ensures from <= k < to
  {
  }

  // ---------------------------------------------------------------- associations left behind

  predicate Shape(nodes: seq<Node>, age: seq<seq<nat>>) {
    |age| == |nodes| && forall i :: 0 <= i < |nodes| ==> |age[i]| == |nodes[i].sta|
  }

  /** How long ago r became associated (connected in the code); 0 for none. */
  function Age(nodes: seq<Node>, age: seq<seq<nat>>, r: Ref): nat
    requires Shape(nodes, age) && IsRef(nodes, r)
  {
    age[r.node][r.sta]
  }

  predicate Associated(nodes: seq<Node>, age: seq<seq<nat>>, r: Ref)
    requires Shape(nodes, age) && IsRef(nodes, r)
  {
    At(nodes, r).client && Age(nodes, age, r) != 0
  }

  /** The least age of an association in g, or 0 without one. */
  function Youngest(nodes: seq<Node>, age: seq<seq<nat>>, g: seq<Ref>): (y: nat)
    requires Shape(nodes, age) && Refs(nodes, g)
    ensures forall i :: 0 <= i < |g| && Associated(nodes, age, g[i]) ==> 0 < y <= Age(nodes, age, g[i])
    ensures y != 0 ==> exists i :: 0 <= i < |g| && Associated(nodes, age, g[i]) && Age(nodes, age, g[i]) == y
  {
    if g == [] then 0 else
    var n := |g| - 1;
    var y := Youngest(nodes, age, g[..n]);
    assert forall i :: 0 <= i < n ==> g[..n][i] == g[i];
    if Associated(nodes, age, g[n]) && (y == 0 || Age(nodes, age, g[n]) < y) then Age(nodes, age, g[n]) else y
  }

  /** An association that is not the youngest of its address. */
  predicate Ghost(nodes: seq<Node>, age: seq<seq<nat>>, r: Ref)
    requires Shape(nodes, age) && IsRef(nodes, r)
  {
    Associated(nodes, age, r) &&
    Age(nodes, age, r) != Youngest(nodes, age, Of(nodes, AllRefs(nodes), At(nodes, r).addr))
  }

  /** Whoever is associated anywhere keeps an association, and the youngest one at that. */
  lemma YoungestStays(nodes: seq<Node>, age: seq<seq<nat>>, r: Ref) returns (q: Ref)
    requires Shape(nodes, age) && IsRef(nodes, r) && Associated(nodes, age, r)
    ensures IsRef(nodes, q) && At(nodes, q).addr == At(nodes, r).addr
    ensures Associated(nodes, age, q) && !Ghost(nodes, age, q) && Age(nodes, age, q) <= Age(nodes, age, r)
  {
    var g := Of(nodes, AllRefs(nodes), At(nodes, r).addr);
    UpToNatural(nodes, |nodes|);
    var j :| 0 <= j < |g| && g[j] == r;
    assert Associated(nodes, age, g[j]);
    var i :| 0 <= i < |g| && Associated(nodes, age, g[i]) && Age(nodes, age, g[i]) == Youngest(nodes, age, g);
    q := g[i];
  }

  /** age is was with the ghosts among the first upto observations cleared. */
  ghost predicate Cleared(nodes: seq<Node>, refs: seq<Ref>, was: seq<seq<nat>>, age: seq<seq<nat>>, upto: nat)
    requires Refs(nodes, refs) && Shape(nodes, was) && Shape(nodes, age)
  {
    forall k :: 0 <= k < |refs| ==>
      Age(nodes, age, refs[k]) == if k < upto && Ghost(nodes, was, refs[k]) then 0 else Age(nodes, was, refs[k])
  }

  lemma {:induction false} YoungestSame(nodes: seq<Node>, a: seq<seq<nat>>, b: seq<seq<nat>>, g: seq<Ref>)
    requires Shape(nodes, a) && Shape(nodes, b) && Refs(nodes, g)
    requires forall i :: 0 <= i < |g| ==> Age(nodes, a, g[i]) == Age(nodes, b, g[i])
    ensures Youngest(nodes, a, g) == Youngest(nodes, b, g)
  {
    if g != [] {
      assert forall i :: 0 <= i < |g| - 1 ==> g[..|g| - 1][i] == g[i];
      YoungestSame(nodes, a, b, g[..|g| - 1]);
    }
  }

  lemma ClearOne(nodes: seq<Node>, refs: seq<Ref>, was: seq<seq<nat>>, age: seq<seq<nat>>, k: nat)
    requires Built(nodes, refs) && Shape(nodes, was) && Shape(nodes, age) && k < |refs|
    requires Cleared(nodes, refs, was, age, k)
    ensures var r := refs[k];
      var next := if Ghost(nodes, was, r) then age[r.node := age[r.node][r.sta := 0]] else age;
      Shape(nodes, next) && Cleared(nodes, refs, was, next, k + 1)
  {
    hide Ghost;
    var r := refs[k];
    var next := if Ghost(nodes, was, r) then age[r.node := age[r.node][r.sta := 0]] else age;
    forall j | 0 <= j < |refs|
      ensures Age(nodes, next, refs[j]) ==
        if j < k + 1 && Ghost(nodes, was, refs[j]) then 0 else Age(nodes, was, refs[j])
    {
      if j < k {
        assert Before(nodes, refs[j], refs[k]);
      } else if j > k {
        assert Before(nodes, refs[k], refs[j]);
      }
    }
  }

  function Dropped(nodes: seq<Node>, age: seq<seq<nat>>, refs: seq<Ref>): (d: seq<Ref>)
    requires Shape(nodes, age) && Refs(nodes, refs)
  {
    if refs == [] then []
    else Dropped(nodes, age, refs[..|refs| - 1]) +
         if Ghost(nodes, age, refs[|refs| - 1]) then [refs[|refs| - 1]] else []
  }

  function Moves(e: Env, nodes: seq<Node>, refs: seq<Ref>): seq<Move>
    requires Refs(nodes, refs)
  {
    if refs == [] then []
    else Moves(e, nodes, refs[..|refs| - 1]) +
         match Naive(e, nodes, refs[|refs| - 1]) case None => [] case Some(m) => [m]
  }

  // ---------------------------------------------------------------- what the moves are

  /** g lists the observations of the address, in the natural order. */
  ghost predicate Observed(nodes: seq<Node>, addr: nat, g: seq<Ref>) {
    && Refs(nodes, g) && Sorted(nodes, g)
    && forall r :: r in g <==> IsRef(nodes, r) && At(nodes, r).addr == addr
  }

  /** g[i] is the last observation on r's own node that counts as a place. */
  predicate LastAtHome(e: Env, nodes: seq<Node>, r: Ref, g: seq<Ref>, i: nat)
    requires IsRef(nodes, r) && Refs(nodes, g)
  {
    && i < |g| && g[i].node == r.node && Eligible(e, nodes, At(nodes, r), g[i])
    && forall j :: i < j < |g| && g[j].node == r.node ==> !Eligible(e, nodes, At(nodes, r), g[j])
  }

  predicate NeverAtHome(e: Env, nodes: seq<Node>, r: Ref, g: seq<Ref>)
    requires IsRef(nodes, r) && Refs(nodes, g)
  {
    forall j :: 0 <= j < |g| && g[j].node == r.node ==> !Eligible(e, nodes, At(nodes, r), g[j])
  }

  /** The signal at home is h. */
  ghost predicate HomeIs(e: Env, nodes: seq<Node>, r: Ref, g: seq<Ref>, h: int)
    requires IsRef(nodes, r) && Refs(nodes, g)
  {
    || (NeverAtHome(e, nodes, r, g) && h == 0)
    || exists i: nat :: LastAtHome(e, nodes, r, g, i) && At(nodes, g[i]).signal == h
  }

  lemma {:induction false} ScannedHome(e: Env, nodes: seq<Node>, r: Ref, g: seq<Ref>)
    requires IsRef(nodes, r) && Refs(nodes, g)
    ensures forall h :: HomeIs(e, nodes, r, g, h) <==> h == Scanned(e, nodes, r, g).home
  {
    hide Eligible;
    if g != [] {
      var n := |g| - 1;
      var t := g[..n];
      ScannedHome(e, nodes, r, t);
      assert forall i :: 0 <= i < n ==> t[i] == g[i];
      if g[n].node == r.node && Eligible(e, nodes, At(nodes, r), g[n]) {
        assert LastAtHome(e, nodes, r, g, n);
        assert forall i: nat :: LastAtHome(e, nodes, r, g, i) ==> i == n;
        assert !NeverAtHome(e, nodes, r, g);
      } else {
        assert NeverAtHome(e, nodes, r, g) <==> NeverAtHome(e, nodes, r, t);
        assert forall i: nat :: LastAtHome(e, nodes, r, g, i) <==> LastAtHome(e, nodes, r, t, i);
        assert forall h :: HomeIs(e, nodes, r, g, h) <==> HomeIs(e, nodes, r, t, h);
      }
    }
  }

  /** A client of a network for roaming, whose best place k is another node, and reason enough to go. */
  ghost predicate Leaves(e: Env, nodes: seq<Node>, r: Ref, g: seq<Ref>, k: nat)
    requires IsRef(nodes, r) && Refs(nodes, g) && k < |g|
  {
    var c := At(nodes, r);
    && c.client && c.ssid != "" && c.band != 0 && e.roaming(c.ssid)
    && FirstBest(e, nodes, c, g, k) && g[k].node != r.node
    && (!e.admitted(c.addr, nodes[r.node].id, c.band) ||
        exists h :: HomeIs(e, nodes, r, g, h) && At(nodes, g[k]).signal - h >= e.rssiDiff)
  }

  /** The client's own node is to send it to the best place, which is up, has the network and admits the client. */
  predicate Asks(e: Env, nodes: seq<Node>, r: Ref, to: Ref, m: Move)
    requires IsRef(nodes, r) && IsRef(nodes, to)
  {
    var c, n := At(nodes, r), nodes[to.node];
    && m.home == nodes[r.node].id && m.mac == c.mac && m.target == n.id
    && n.online && Ap(c.ssid, c.band) in n.aps && e.admitted(c.addr, n.id, c.band)
  }

  ghost predicate IsMove(e: Env, nodes: seq<Node>, r: Ref, m: Move)
    requires IsRef(nodes, r)
  {
    exists g, k :: Observed(nodes, At(nodes, r).addr, g) && 0 <= k < |g|
      && Leaves(e, nodes, r, g, k) && Asks(e, nodes, r, g[k], m)
  }

  lemma ObservedIs(nodes: seq<Node>, addr: nat, g: seq<Ref>)
    ensures Observed(nodes, addr, g) <==> g == Of(nodes, AllRefs(nodes), addr)
  {
    var o := Of(nodes, AllRefs(nodes), addr);
    UpToNatural(nodes, |nodes|);
    OfSorted(nodes, AllRefs(nodes), addr);
    if Observed(nodes, addr, g) {
      SortedSame(nodes, g, o);
    }
  }

  lemma MoveOfIs(e: Env, nodes: seq<Node>, r: Ref, g: seq<Ref>, k: nat, m: Move)
    requires IsRef(nodes, r) && Refs(nodes, g) && k < |g|
    ensures Leaves(e, nodes, r, g, k) && Asks(e, nodes, r, g[k], m) ==> MoveOf(e, nodes, r, g) == Some(m)
  {
    hide Scanned, Sorted;
    var j := ScannedBest(e, nodes, r, g);
    ScannedHome(e, nodes, r, g);
  }

  lemma MoveOfFound(e: Env, nodes: seq<Node>, r: Ref, g: seq<Ref>) returns (k: nat)
    requires IsRef(nodes, r) && Refs(nodes, g) && MoveOf(e, nodes, r, g).Some?
    ensures k < |g| && Leaves(e, nodes, r, g, k) && Asks(e, nodes, r, g[k], MoveOf(e, nodes, r, g).value)
  {
    hide Scanned, Sorted;
    k := ScannedBest(e, nodes, r, g);
    ScannedHome(e, nodes, r, g);
    var s := Scanned(e, nodes, r, g);
    assert HomeIs(e, nodes, r, g, s.home);
  }

  /** The plain rule, said without its scan. */
  lemma NaiveIff(e: Env, nodes: seq<Node>, r: Ref, m: Move)
    requires IsRef(nodes, r)
    ensures Naive(e, nodes, r) == Some(m) <==> IsMove(e, nodes, r, m)
  {
    hide MoveOf, Leaves, Asks, Sorted, AllRefs, Of;
    var a := At(nodes, r).addr;
    var o := Of(nodes, AllRefs(nodes), a);
    ObservedIs(nodes, a, o);
    if Naive(e, nodes, r) == Some(m) {
      var k := MoveOfFound(e, nodes, r, o);
    }
    if IsMove(e, nodes, r, m) {
      var g, k :| Observed(nodes, a, g) && 0 <= k < |g| && Leaves(e, nodes, r, g, k) && Asks(e, nodes, r, g[k], m);
      ObservedIs(nodes, a, g);
      MoveOfIs(e, nodes, r, g, k, m);
    }
  }

  /** One request for each observation in from, in order, and for no other. */
  ghost predicate MadeFor(e: Env, nodes: seq<Node>, refs: seq<Ref>, moves: seq<Move>, from: seq<nat>)
    requires Refs(nodes, refs)
  {
    && |from| == |moves|
    && (forall j :: 0 <= j < |from| ==> from[j] < |refs|)
    && (forall i, j :: 0 <= i < j < |from| ==> from[i] < from[j])
    && (forall j :: 0 <= j < |from| ==> IsMove(e, nodes, refs[from[j]], moves[j]))
    && forall i: nat, m :: i < |refs| && IsMove(e, nodes, refs[i], m) ==> i in from
  }

  lemma MadeNone(e: Env, nodes: seq<Node>, refs: seq<Ref>, moves: seq<Move>, from: seq<nat>, n: nat)
    requires Refs(nodes, refs) && n + 1 == |refs| && MadeFor(e, nodes, refs[..n], moves, from)
    requires forall m :: !IsMove(e, nodes, refs[n], m)
    ensures MadeFor(e, nodes, refs, moves, from)
  {
    hide IsMove;
    assert forall i :: 0 <= i < n ==> refs[..n][i] == refs[i];
  }

  lemma MadeOne(e: Env, nodes: seq<Node>, refs: seq<Ref>, moves: seq<Move>, from: seq<nat>, n: nat, m: Move)
    requires Refs(nodes, refs) && n + 1 == |refs| && MadeFor(e, nodes, refs[..n], moves, from)
    requires IsMove(e, nodes, refs[n], m)
    ensures MadeFor(e, nodes, refs, moves + [m], from + [n])
  {
    hide IsMove;
    assert forall i :: 0 <= i < n ==> refs[..n][i] == refs[i];
    var f := from + [n];
    assert forall i :: i in f <==> i in from || i == n;
  }

  /** The pass asks for the moves of the plain rule, in the order of the observations. */
  lemma {:induction false} MovesMade(e: Env, nodes: seq<Node>, refs: seq<Ref>) returns (from: seq<nat>)
    requires Refs(nodes, refs)
    ensures MadeFor(e, nodes, refs, Moves(e, nodes, refs), from)
  {
    hide IsMove, Naive, MadeFor;
    if refs == [] {
      from := [];
      MadeEmpty(e, nodes);
    } else {
      var n := |refs| - 1;
      from := MovesMade(e, nodes, refs[..n]);
      forall m
        ensures Naive(e, nodes, refs[n]) == Some(m) <==> IsMove(e, nodes, refs[n], m)
      {
        NaiveIff(e, nodes, refs[n], m);
      }
      var moves := Moves(e, nodes, refs[..n]);
      match Naive(e, nodes, refs[n])
      case None =>
        MadeNone(e, nodes, refs, moves, from, n);
        assert moves + [] == moves;
      case Some(m) =>
        MadeOne(e, nodes, refs, moves, from, n, m);
        from := from + [n];
    }
  }

  lemma MadeEmpty(e: Env, nodes: seq<Node>)
    ensures MadeFor(e, nodes, [], [], [])
  {
  }

  predicate Younger(nodes: seq<Node>, age: seq<seq<nat>>, q: Ref, r: Ref)
    requires Shape(nodes, age) && IsRef(nodes, r)
  {
    && IsRef(nodes, q) && At(nodes, q).addr == At(nodes, r).addr
    && Associated(nodes, age, q) && Age(nodes, age, q) < Age(nodes, age, r)
  }

  /** An association is left behind exactly when its client has a younger one elsewhere. */
  lemma GhostIff(nodes: seq<Node>, age: seq<seq<nat>>, r: Ref)
    requires Shape(nodes, age) && IsRef(nodes, r)
    ensures Ghost(nodes, age, r) <==> Associated(nodes, age, r) && exists q :: Younger(nodes, age, q, r)
  {
    hide Associated, Age, Of, AllRefs, Ghost;
    GhostIs(nodes, age, r);
    if Associated(nodes, age, r) {
      var y := YoungestStays(nodes, age, r);
      GhostIs(nodes, age, y);
      forall q | Younger(nodes, age, q, r)
        ensures Age(nodes, age, y) <= Age(nodes, age, q)
      {
        YoungestLeast(nodes, age, q);
      }
    }
  }

  lemma GhostIs(nodes: seq<Node>, age: seq<seq<nat>>, r: Ref)
    requires Shape(nodes, age) && IsRef(nodes, r)
    ensures var y := Youngest(nodes, age, Of(nodes, AllRefs(nodes), At(nodes, r).addr));
      Ghost(nodes, age, r) <==> Associated(nodes, age, r) && Age(nodes, age, r) != y
  {
  }

  lemma YoungestLeast(nodes: seq<Node>, age: seq<seq<nat>>, q: Ref)
    requires Shape(nodes, age) && IsRef(nodes, q) && Associated(nodes, age, q)
    ensures Youngest(nodes, age, Of(nodes, AllRefs(nodes), At(nodes, q).addr)) <= Age(nodes, age, q)
  {
    hide Age, AllRefs;
    var g := Of(nodes, AllRefs(nodes), At(nodes, q).addr);
    assert q in g by { InAllRefs(nodes, q); }
    var i :| 0 <= i < |g| && g[i] == q;
  }

  lemma InAllRefs(nodes: seq<Node>, q: Ref)
    requires IsRef(nodes, q)
    ensures q in AllRefs(nodes)
  {
    UpToNatural(nodes, |nodes|);
  }

  /** Exactly the associations left behind are dropped, each once, in the order of the observations. */
  lemma {:induction false} DroppedOnce(nodes: seq<Node>, age: seq<seq<nat>>, refs: seq<Ref>)
    requires Shape(nodes, age) && Refs(nodes, refs) && Sorted(nodes, refs)
    ensures forall r :: r in Dropped(nodes, age, refs) <==> r in refs && IsRef(nodes, r) && Ghost(nodes, age, r)
    ensures Refs(nodes, Dropped(nodes, age, refs)) && Sorted(nodes, Dropped(nodes, age, refs))
  {
    hide Ghost, Before;
    if refs != [] {
      var n := |refs| - 1;
      DroppedOnce(nodes, age, refs[..n]);
      assert refs == refs[..n] + [refs[n]];
      var d := Dropped(nodes, age, refs[..n]);
      forall i | 0 <= i < |d|
        ensures IsRef(nodes, d[i]) && Before(nodes, d[i], refs[n])
      {
        assert d[i] in refs[..n];
      }
    }
  }

  // ---------------------------------------------------------------- the code

  class Pass {
    const e: Env
    const nodes: seq<Node>
    const refs: seq<Ref>
    /** The ages, as the pass finds them and clears them. */
    var age: seq<seq<nat>>
    /** The mesh_drop and mesh_steer requests sent. */
    var drops: seq<Ref>
    var moves: seq<Move>

    ghost predicate Valid()
      reads this
    {
      Built(nodes, refs) && Shape(nodes, age)
    }

    constructor (e: Env, nodes: seq<Node>, refs: seq<Ref>, age: seq<seq<nat>>)
      requires Built(nodes, refs) && Shape(nodes, age)
      ensures Valid() && this.e == e && this.nodes == nodes && this.refs == refs && this.age == age
      ensures drops == [] && moves == []
    {
      this.e, this.nodes, this.refs, this.age := e, nodes, refs, age;
      drops, moves := [], [];
    }

    method GroupEnd(start: nat) returns (end: nat)
      requires Valid() && start < |refs|
      ensures start < end <= |refs|
      ensures forall i :: start <= i < end ==> At(nodes, refs[i]).addr == At(nodes, refs[start]).addr
      ensures end < |refs| ==> At(nodes, refs[end]).addr != At(nodes, refs[start]).addr
    {
      end := start + 1;
      while end < |refs| && At(nodes, refs[end]).addr == At(nodes, refs[start]).addr
        invariant start < end <= |refs|
        invariant forall i :: start <= i < end ==> At(nodes, refs[i]).addr == At(nodes, refs[start]).addr
      {
        end := end + 1;
      }
    }

    method SteerClient(from: nat, to: nat, client: nat)
      requires Valid() && from <= client < to <= |refs|
      modifies `moves
      ensures moves == old(moves) +
        match MoveOf(e, nodes, refs[client], refs[from..to]) case None => [] case Some(m) => [m]
    {
      hide Sorted, Scanned;
      var r := refs[client];
      var c, home := At(nodes, r), nodes[r.node];
      if !(c.client && c.ssid != "" && c.band != 0) || !e.roaming(c.ssid) {
        return;
      }
      var best, homeSignal := ScanGroup(from, to, r);
      if best.None? || best.value.node == r.node {
        return;
      }
      if e.admitted(c.addr, home.id, c.band) && At(nodes, best.value).signal - homeSignal < e.rssiDiff {
        return;
      }
      moves := moves + [Move(home.id, c.mac, nodes[best.value.node].id)];
    }

    method ScanGroup(from: nat, to: nat, r: Ref) returns (best: Option<Ref>, homeSignal: int)
      requires Valid() && from <= to <= |refs| && IsRef(nodes, r)
      ensures Scan(best, homeSignal) == Scanned(e, nodes, r, refs[from..to])
    {
      hide Sorted, Eligible;
      best, homeSignal := None, 0;
      for k := from to to
        invariant Scan(best, homeSignal) == Scanned(e, nodes, r, refs[from..k])
      {
        assert refs[from..k + 1][..k - from] == refs[from..k];
        if !Eligible(e, nodes, At(nodes, r), refs[k]) {
          continue;
        }
        if best.None? || At(nodes, refs[k]).signal > At(nodes, best.value).signal {
          best := Some(refs[k]);
        }
        if refs[k].node == r.node {
          homeSignal := At(nodes, refs[k]).signal;
        }
      }
    }

    method YoungestAge(from: nat, to: nat) returns (oldest: nat)
      requires Valid() && from <= to <= |refs|
      ensures oldest == Youngest(nodes, age, refs[from..to])
    {
      hide Youngest, Sorted;
      oldest := 0;
      YoungestEmpty(nodes, age, refs, from);
      for k := from to to
        invariant oldest == Youngest(nodes, age, refs[from..k])
      {
        YoungestStep(nodes, age, refs, from, k);
        var s := At(nodes, refs[k]);
        if s.client && Age(nodes, age, refs[k]) != 0 && (oldest == 0 || Age(nodes, age, refs[k]) < oldest) {
          oldest := Age(nodes, age, refs[k]);
        }
      }
    }

    /** Clears every association of the group but the youngest. */
    method GhostsDrop(from: nat, to: nat, ghost was: seq<seq<nat>>)
      requires Valid() && Group(nodes, refs, from, to)
      requires Shape(nodes, was) && Cleared(nodes, refs, was, age, from)
      requires drops == Dropped(nodes, was, refs[..from])
      modifies `age, `drops
      ensures Valid() && Cleared(nodes, refs, was, age, to)
      ensures drops == Dropped(nodes, was, refs[..to])
    {
      hide Youngest, Of, AllRefs, Sorted, Ghost, Group, Cleared, Dropped;
      GroupBounds(nodes, refs, from, to);
      var oldest := YoungestAge(from, to);
      GhostsOf(nodes, refs, was, age, from, to);
      for k := from to to
        invariant Valid() && Cleared(nodes, refs, was, age, k)
        invariant drops == Dropped(nodes, was, refs[..k])
      {
        DropOne(k, oldest, was);
      }
    }

    method DropOne(k: nat, oldest: nat, ghost was: seq<seq<nat>>)
      requires Valid() && Shape(nodes, was) && k < |refs| && Cleared(nodes, refs, was, age, k)
      requires Ghost(nodes, was, refs[k]) <==> Associated(nodes, was, refs[k]) && Age(nodes, was, refs[k]) != oldest
      requires drops == Dropped(nodes, was, refs[..k])
      modifies `age, `drops
      ensures Valid() && Cleared(nodes, refs, was, age, k + 1)
      ensures drops == Dropped(nodes, was, refs[..k + 1])
    {
      hide Ghost, Sorted;
      var r := refs[k];
      assert refs[..k + 1][..k] == refs[..k];
      ClearOne(nodes, refs, was, age, k);
      if !At(nodes, r).client || Age(nodes, age, r) == 0 || Age(nodes, age, r) == oldest {
        return;
      }
      drops := drops + [r];
      age := age[r.node := age[r.node][r.sta := 0]];
    }

    method SteerGroup(from: nat, to: nat)
      requires Valid() && Group(nodes, refs, from, to) && moves == Moves(e, nodes, refs[..from])
      modifies `moves
      ensures moves == Moves(e, nodes, refs[..to])
    {
      hide Group, Naive, MoveOf, Sorted;
      GroupBounds(nodes, refs, from, to);
      for k := from to to
        invariant moves == Moves(e, nodes, refs[..k])
      {
        assert refs[..k + 1][..k] == refs[..k];
        NaiveIs(e, nodes, refs, from, to, k);
        SteerClient(from, to, k);
      }
    }

    /**
     The whole pass: it asks for exactly the moves of the plain rule, one for each observation the
     rule moves, and clears exactly the associations that are not their address's youngest.
     */
    method SteerRound()
      requires Valid() && drops == [] && moves == []
      modifies this
      ensures Valid()
      ensures moves == Moves(e, nodes, refs) && exists from :: MadeFor(e, nodes, refs, moves, from)
      ensures drops == Dropped(nodes, old(age), refs)
      ensures forall r :: r in drops <==> IsRef(nodes, r) && Ghost(nodes, old(age), r)
      ensures Cleared(nodes, refs, old(age), age, |refs|)
    {
      hide Group, Ghost, Moves, Dropped, Sorted, MadeFor;
      NothingYet(e, nodes, refs, age);
      var start := 0;
      ghost var was := age;
      while start < |refs|
        invariant start <= |refs| && Valid() && Cleared(nodes, refs, was, age, start)
        invariant moves == Moves(e, nodes, refs[..start]) && drops == Dropped(nodes, was, refs[..start])
        invariant 0 < start < |refs| ==> At(nodes, refs[start - 1]).addr != At(nodes, refs[start]).addr
      {
        var end := GroupEnd(start);
        GroupHere(nodes, refs, start, end);
        GhostsDrop(start, end, was);
        SteerGroup(start, end);
        start := end;
      }
      assert refs[..|refs|] == refs;
      ghost var from := MovesMade(e, nodes, refs);
      DroppedOnce(nodes, was, refs);
    }
  }

  /** The ghosts of a group not yet touched are those not as young as its youngest. */
  lemma GhostsOf(nodes: seq<Node>, refs: seq<Ref>, was: seq<seq<nat>>, age: seq<seq<nat>>, from: nat, to: nat)
    requires Built(nodes, refs) && Group(nodes, refs, from, to)
    requires Shape(nodes, was) && Shape(nodes, age) && Cleared(nodes, refs, was, age, from)
    ensures forall k :: from <= k < to ==>
      (Ghost(nodes, was, refs[k]) <==>
       Associated(nodes, was, refs[k]) && Age(nodes, was, refs[k]) != Youngest(nodes, age, refs[from..to]))
  {
    hide Youngest, Of, AllRefs, Ghost, Associated, Group;
    GroupBounds(nodes, refs, from, to);
    var g := refs[from..to];
    GroupIs(nodes, refs, from, to);
    assert forall i :: 0 <= i < |g| ==> g[i] == refs[from + i];
    NotYet(nodes, refs, was, age, from);
    YoungestSame(nodes, age, was, g);
    forall k | from <= k < to
      ensures Ghost(nodes, was, refs[k]) <==>
        Associated(nodes, was, refs[k]) && Age(nodes, was, refs[k]) != Youngest(nodes, age, g)
    {
      GhostIs(nodes, was, refs[k]);
      SameAddr(nodes, refs, from, to, k);
    }
  }

  lemma NotYet(nodes: seq<Node>, refs: seq<Ref>, was: seq<seq<nat>>, age: seq<seq<nat>>, from: nat)
    requires Refs(nodes, refs) && Shape(nodes, was) && Shape(nodes, age) && Cleared(nodes, refs, was, age, from)
    ensures forall k :: from <= k < |refs| ==> Age(nodes, age, refs[k]) == Age(nodes, was, refs[k])
  {
  }

  lemma SameAddr(nodes: seq<Node>, refs: seq<Ref>, from: nat, to: nat, k: nat)
    requires Refs(nodes, refs) && Group(nodes, refs, from, to) && from <= k < to
    ensures At(nodes, refs[k]).addr == At(nodes, refs[from]).addr
  {
  }

  lemma YoungestStep(nodes: seq<Node>, age: seq<seq<nat>>, refs: seq<Ref>, from: nat, k: nat)
    requires Shape(nodes, age) && Refs(nodes, refs) && from <= k < |refs|
    ensures var y := Youngest(nodes, age, refs[from..k]);
      Youngest(nodes, age, refs[from..k + 1]) ==
        if Associated(nodes, age, refs[k]) && (y == 0 || Age(nodes, age, refs[k]) < y)
        then Age(nodes, age, refs[k]) else y
  {
    hide Associated, Age;
    var g := refs[from..k + 1];
    assert g[..|g| - 1] == refs[from..k] && g[|g| - 1] == refs[k];
  }

  lemma YoungestEmpty(nodes: seq<Node>, age: seq<seq<nat>>, refs: seq<Ref>, from: nat)
    requires Shape(nodes, age) && Refs(nodes, refs) && from <= |refs|
    ensures Youngest(nodes, age, refs[from..from]) == 0
  {
  }

  lemma NothingYet(e: Env, nodes: seq<Node>, refs: seq<Ref>, age: seq<seq<nat>>)
    requires Refs(nodes, refs) && Shape(nodes, age)
    ensures Moves(e, nodes, refs[..0]) == [] && Dropped(nodes, age, refs[..0]) == []
  {
  }

  lemma GroupBounds(nodes: seq<Node>, refs: seq<Ref>, from: nat, to: nat)
    requires Refs(nodes, refs) && Group(nodes, refs, from, to)
    ensures from < to <= |refs|
  {
  }

  lemma GroupHere(nodes: seq<Node>, refs: seq<Ref>, from: nat, to: nat)
    requires Refs(nodes, refs) && from < to <= |refs|
    requires forall i :: from <= i < to ==> At(nodes, refs[i]).addr == At(nodes, refs[from]).addr
    requires from > 0 ==> At(nodes, refs[from - 1]).addr != At(nodes, refs[from]).addr
    requires to < |refs| ==> At(nodes, refs[to]).addr != At(nodes, refs[from]).addr
    ensures Group(nodes, refs, from, to)
    ensures to < |refs| ==> At(nodes, refs[to - 1]).addr != At(nodes, refs[to]).addr
  {
  }

  lemma NaiveIs(e: Env, nodes: seq<Node>, refs: seq<Ref>, from: nat, to: nat, k: nat)
    requires Built(nodes, refs) && Group(nodes, refs, from, to) && from <= k < to
    ensures Naive(e, nodes, refs[k]) == MoveOf(e, nodes, refs[k], refs[from..to])
  {
    GroupIs(nodes, refs, from, to);
  }
}
